/**
The light client's transaction pool across chain reorganisations: local transactions are pending
or mined in a block of the current line, and every new head moves them between the two.
*/
module LightPools {
  import opened Ancestry

  /** A transaction is its hash. */
  type Tx = nat

  /** What is known to have changed: true means mined, false means rolled back. */
  type Changes = map<Tx, bool>

  /** Records a change; the opposite change cancels it. */
  function SetState(txc: Changes, t: Tx, mined: bool): Changes {
    if t in txc && txc[t] != mined then txc - {t} else txc[t := mined]
  }

  /** The changes are the net effect: mined if pending before and not now, rolled back if the reverse. */
  ghost predicate NetEffect(before: set<Tx>, pending: set<Tx>, txc: Changes) {
    forall t: Tx :: (t in txc <==> (t in before) != (t in pending)) && (t in txc ==> txc[t] == (t in before))
  }

  lemma MinedEffect(before: set<Tx>, pending: set<Tx>, txc: Changes, t: Tx)
    requires NetEffect(before, pending, txc) && t in pending
    ensures NetEffect(before, pending - {t}, SetState(txc, t, true))
  {
  }

  lemma RolledBackEffect(before: set<Tx>, pending: set<Tx>, txc: Changes, t: Tx)
    requires NetEffect(before, pending, txc) && t !in pending
    ensures NetEffect(before, pending + {t}, SetState(txc, t, false))
  {
  }

  type Mined = map<Hash, seq<Tx>>

  ghost function Txs(list: seq<Tx>): set<Tx> {
    set t | t in list
  }

  ghost predicate NoDups(list: seq<Tx>) {
    forall i, j :: 0 <= i < j < |list| ==> list[i] != list[j]
  }

  /** Every transaction has one home: pending, or one place in one mined list. */
  ghost predicate Filed(pending: set<Tx>, mined: Mined) {
    && (forall h :: h in mined ==> NoDups(mined[h]) && forall t :: t in mined[h] ==> t !in pending)
    && (forall h, k, t :: h in mined && k in mined && t in mined[h] && t in mined[k] ==> h == k)
  }

  ghost predicate Has(pending: set<Tx>, mined: Mined, t: Tx) {
    t in pending || exists h :: h in mined && t in mined[h]
  }

  /** The second pool holds the transactions of the first except `discarded`. */
  ghost predicate Conserved(pending: set<Tx>, mined: Mined, pending': set<Tx>, mined': Mined, discarded: set<Tx>) {
    forall t: Tx :: Has(pending', mined', t) <==> Has(pending, mined, t) && t !in discarded
  }

  lemma ConservedTwice(p0: set<Tx>, m0: Mined, p1: set<Tx>, m1: Mined, p2: set<Tx>, m2: Mined, d1: set<Tx>, d2: set<Tx>)
    requires Conserved(p0, m0, p1, m1, d1) && Conserved(p1, m1, p2, m2, d2)
    ensures Conserved(p0, m0, p2, m2, d1 + d2)
  {
    hide Has;
  }

  lemma ConservedStill(p0: set<Tx>, m0: Mined, p1: set<Tx>, m1: Mined, p2: set<Tx>, m2: Mined)
    requires Conserved(p0, m0, p1, m1, {}) && Conserved(p1, m1, p2, m2, {})
    ensures Conserved(p0, m0, p2, m2, {})
  {
    hide Has;
  }

  lemma MoveBack(pending: set<Tx>, mined: Mined, hash: Hash)
    requires Filed(pending, mined) && hash in mined
    ensures Filed(pending + Txs(mined[hash]), mined - {hash})
    ensures Conserved(pending, mined, pending + Txs(mined[hash]), mined - {hash}, {})
  {
    var pending', mined' := pending + Txs(mined[hash]), mined - {hash};
    forall t: Tx ensures Has(pending', mined', t) <==> Has(pending, mined, t) {
      if h :| h in mined && t in mined[h] {
        if h != hash {
          assert h in mined' && t in mined'[h];
        }
      }
    }
  }

  lemma MoveIn(pending: set<Tx>, mined: Mined, hash: Hash, list: seq<Tx>)
    requires Filed(pending, mined) && hash !in mined && NoDups(list) && Txs(list) <= pending
    ensures Filed(pending - Txs(list), mined[hash := list])
    ensures Conserved(pending, mined, pending - Txs(list), mined[hash := list], {})
  {
    var pending', mined' := pending - Txs(list), mined[hash := list];
    assert forall t :: t in list ==> t in Txs(list);
    forall t: Tx ensures Has(pending', mined', t) <==> Has(pending, mined, t) {
      if h :| h in mined && t in mined[h] {
        assert h in mined' && t in mined'[h];
      } else if t in list {
        assert t in mined'[hash];
      }
    }
  }

  lemma Drop(pending: set<Tx>, mined: Mined, hash: Hash)
    requires Filed(pending, mined) && hash in mined
    ensures Filed(pending, mined - {hash}) && Conserved(pending, mined, pending, mined - {hash}, Txs(mined[hash]))
  {
    var mined' := mined - {hash};
    forall t: Tx ensures Has(pending, mined', t) <==> Has(pending, mined, t) && t !in mined[hash] {
      if h :| h in mined && t in mined[h] && h != hash {
        assert h in mined' && t in mined'[h];
      }
    }
  }

  /** The transactions of a block that are in the pool, in block order. */
  function Local(body: seq<Tx>, pending: set<Tx>): seq<Tx> {
    if body == [] then []
    else Local(body[..|body| - 1], pending) + (if body[|body| - 1] in pending then [body[|body| - 1]] else [])
  }

  lemma {:induction false} LocalIs(body: seq<Tx>, pending: set<Tx>)
    ensures forall t :: t in Local(body, pending) <==> t in body && t in pending
    ensures NoDups(body) ==> NoDups(Local(body, pending))
  {
    if body != [] {
      var init, last := body[..|body| - 1], body[|body| - 1];
      LocalIs(init, pending);
      assert body == init + [last];
      var rest := if last in pending then [last] else [];
      assert Local(body, pending) == Local(init, pending) + rest;
      if NoDups(body) {
        assert last !in init;
      }
    }
  }

  /** The block's order is kept: whatever comes later in the list comes later in the block. */
  lemma {:induction false} LocalInOrder(body: seq<Tx>, pending: set<Tx>, i: nat, j: nat) returns (x: nat, y: nat)
    requires i < j < |Local(body, pending)|
    ensures x < y < |body| && body[x] == Local(body, pending)[i] && body[y] == Local(body, pending)[j]
  {
    var init, last := body[..|body| - 1], body[|body| - 1];
    var before := Local(init, pending);
    if j < |before| {
      x, y := LocalInOrder(init, pending, i, j);
    } else {
      LocalIs(init, pending);
      assert before[i] in before;
      x :| 0 <= x < |init| && init[x] == before[i];
      y := |body| - 1;
    }
  }

  /** What a retrieved block does to the pool. */
  lemma FoundList(remote: Remote, hash: Hash, pending: set<Tx>, mined: Mined)
    requires remote.Valid() && hash in remote.bodies && Filed(pending, mined) && hash !in mined
    ensures var list := Local(remote.bodies[hash], pending);
      && NoDups(list) && (forall t :: t in list <==> t in remote.bodies[hash] && t in pending)
      && (list != [] <==> exists t :: t in remote.bodies[hash] && t in pending)
      && pending - Txs(list) <= pending && (forall t :: t in remote.bodies[hash] ==> t !in pending - Txs(list))
      && Filed(pending - Txs(list), mined[hash := list])
      && Conserved(pending, mined, pending - Txs(list), mined[hash := list], {})
  {
    hide Local, Filed, Conserved, NoDups;
    LocalIs(remote.bodies[hash], pending);
    var list := Local(remote.bodies[hash], pending);
    MoveIn(pending, mined, hash, list);
    if list != [] {
      assert list[0] in list;
    }
  }

  /** Mined transactions belong to blocks on the line of the head. */
  ghost predicate OnLine(tree: BlockTree, head: Hash, mined: Mined)
    requires tree.Valid()
  {
    head in tree.known && forall h :: h in mined ==> LineBlock(tree, head, h)
  }

  ghost predicate LineBlock(tree: BlockTree, head: Hash, h: Hash)
    requires tree.Valid() && head in tree.known
  {
    h in tree.known && tree.At(tree.known[head], tree.known[h].number) == tree.known[h]
  }

  /** The blocks of `h`'s line above height `low`, highest first. */
  ghost predicate Branch(tree: BlockTree, h: Header, low: nat, hashes: seq<Hash>)
    requires tree.Valid() && tree.Has(h)
  {
    low <= h.number && |hashes| == h.number - low && forall i :: 0 <= i < |hashes| ==> hashes[i] == tree.At(h, h.number - i).hash
  }

  /** Walks back from both heads to their last common ancestor. */
  method FindFork(tree: BlockTree, oldHead: Header, newHead: Header)
    returns (fork: Header, oldHashes: seq<Hash>, newHashes: seq<Hash>)
    requires tree.Valid() && tree.Has(oldHead) && tree.Has(newHead)
    ensures tree.Has(fork) && Forks(tree, oldHead, newHead, fork.number) && fork == tree.At(newHead, fork.number)
    ensures Branch(tree, oldHead, fork.number, oldHashes) && Branch(tree, newHead, fork.number, newHashes)
  {
    hide BlockTree.Valid, BlockTree.At;
    var a, b := oldHead, newHead;
    Start(tree, oldHead);
    Start(tree, newHead);
    oldHashes, newHashes := [], [];
    while a.hash != b.hash
      invariant Walking(tree, oldHead, a, oldHashes) && Walking(tree, newHead, b, newHashes)
      invariant Apart(tree, oldHead, newHead, a.number, b.number)
      decreases a.number + b.number
    {
      if a.number >= b.number {
        NotGenesis(tree, a, b);
        StepBack(tree, oldHead, a, oldHashes);
        StillApart(tree, oldHead, newHead, a, b);
        oldHashes := oldHashes + [a.hash];
        a := tree.Parent(a);
      }
      if a.number < b.number {
        StepBack(tree, newHead, b, newHashes);
        newHashes := newHashes + [b.hash];
        b := tree.Parent(b);
      }
    }
    SameHash(tree, a, b);
    fork := a;
  }

  ghost predicate Walking(tree: BlockTree, start: Header, h: Header, hashes: seq<Hash>) {
    && tree.Valid() && tree.Has(start) && tree.Has(h)
    && h == tree.At(start, h.number) && h.number <= start.number && Branch(tree, start, h.number, hashes)
  }

  lemma Start(tree: BlockTree, h: Header)
    requires tree.Valid() && tree.Has(h)
    ensures Walking(tree, h, h, [])
  {
  }

  lemma StepBack(tree: BlockTree, start: Header, h: Header, hashes: seq<Hash>)
    requires Walking(tree, start, h, hashes) && h.number > 0
    ensures Walking(tree, start, tree.Parent(h), hashes + [h.hash])
  {
    StepDown(tree, start, h.number);
    hide BlockTree.At, BlockTree.Valid;
  }

  /** What can be retrieved: block bodies, and the blocks whose receipts and lookup entries can be had too. */
  datatype Remote = Remote(bodies: map<Hash, seq<Tx>>, complete: set<Hash>) {
    ghost predicate Valid() {
      forall h :: h in bodies ==> NoDups(bodies[h])
    }
  }

  /** The pool at one moment. */
  datatype State = State(head: Hash, pending: set<Tx>, mined: Mined, clearIdx: nat)

  /** How a move to a new head went. */
  datatype Outcome = Outcome(txc: Changes, ok: bool, fork: Header, checked: Mined, discarded: set<Tx>)

  /** The lists after the rollback and the checks: lists up to the fork are kept, and new ones hold transactions of their block. */
  ghost predicate Rebuilt(tree: BlockTree, low: nat, remote: Remote, mined: Mined, checked: Mined) {
    && (forall h :: h in mined && h in tree.known && tree.known[h].number <= low ==> h in checked && checked[h] == mined[h])
    && (forall h :: h in checked ==> h in tree.known)
    && (forall h :: h in checked && tree.known[h].number <= low ==> h in mined)
    && (forall h :: h in checked && tree.known[h].number > low ==> h in remote.bodies && forall t :: t in checked[h] ==> t in remote.bodies[h])
  }

  /** The block and, if it holds a pending transaction, its receipts can be retrieved. */
  ghost predicate Had(remote: Remote, hash: Hash, pending: set<Tx>) {
    hash in remote.bodies && ((exists t :: t in remote.bodies[hash] && t in pending) ==> hash in remote.complete)
  }

  /** Without pending transactions a block need not be retrieved. */
  ghost predicate Passes(remote: Remote, hash: Hash, pending: set<Tx>) {
    pending == {} || Had(remote, hash, pending)
  }

  /** The transactions of a passed block that were pending, in block order. */
  ghost function Found(remote: Remote, hash: Hash, pending: set<Tx>): seq<Tx> {
    if pending != {} && hash in remote.bodies then Local(remote.bodies[hash], pending) else []
  }

  /** The pending transactions and the lists after a number of blocks that pass. */
  ghost function After(remote: Remote, line: seq<Hash>, pending: set<Tx>, mined: Mined): (set<Tx>, Mined) {
    if line == [] then (pending, mined)
    else
      var (p, m), hash := After(remote, line[..|line| - 1], pending, mined), line[|line| - 1];
      Marked(p, m, hash, Found(remote, hash, p))
  }

  ghost function Marked(pending: set<Tx>, mined: Mined, hash: Hash, list: seq<Tx>): (set<Tx>, Mined) {
    if list == [] then (pending, mined) else (pending - Txs(list), mined[hash := list])
  }

  /** The first `k` blocks of the line pass one after the other, and the next one, if there is one, does not. */
  ghost predicate StopsAt(remote: Remote, line: seq<Hash>, pending: set<Tx>, mined: Mined, k: nat) {
    && k <= |line| && (forall i :: 0 <= i < k ==> Passes(remote, line[i], After(remote, line[..i], pending, mined).0))
    && (k < |line| ==> !Passes(remote, line[k], After(remote, line[..k], pending, mined).0))
  }

  /** The blocks of the header's line above a height, lowest first. */
  ghost function LineUp(tree: BlockTree, h: Header, low: nat): seq<Hash>
    requires tree.Valid() && tree.Has(h) && low <= h.number
  {
    seq<Hash>(h.number - low, i requires 0 <= i < h.number - low => tree.At(h, low + 1 + i).hash)
  }

  /** The lists of blocks up to a height, and what the lists above it hold. */
  ghost function Below(tree: BlockTree, mined: Mined, low: nat): Mined {
    map h | h in mined && h in tree.known && tree.known[h].number <= low :: mined[h]
  }

  ghost function Above(tree: BlockTree, mined: Mined, low: nat): set<Tx> {
    set h, t | h in mined && h in tree.known && tree.known[h].number > low && t in mined[h] :: t
  }

  /** The block is canonical at one of the numbers from `lo` up to, but excluding, `hi`. */
  ghost predicate CanonicalIn(canon: map<nat, Hash>, lo: nat, hi: nat, h: Hash) {
    exists i :: lo <= i < hi && i in canon && canon[i] == h
  }

  /** The lists without those of canonical blocks in the range. */
  ghost function Swept(mined: Mined, canon: map<nat, Hash>, lo: nat, hi: nat): (r: Mined)
    ensures r.Keys <= mined.Keys
  {
    map h | h in mined && !CanonicalIn(canon, lo, hi, h) :: mined[h]
  }

  /** The transaction was in the list of a canonical block in the range. */
  ghost predicate SweptOut(mined: Mined, canon: map<nat, Hash>, lo: nat, hi: nat, t: Tx) {
    exists h :: h in mined && t in mined[h] && CanonicalIn(canon, lo, hi, h)
  }

  /**
  A move to a new head. Nothing is lost by the rollback and the checks; a completed move then
  discards exactly the lists of canonical blocks older than the permanence limit.
  */
  ghost predicate Moved(tree: BlockTree, permanent: nat, newHeader: Header, remote: Remote, canon: map<nat, Hash>,
                        s: State, o: Outcome, s': State)
    requires tree.Valid() && tree.Has(newHeader) && s.head in tree.known && tree.Has(tree.known[s.head])
  {
    var low := o.fork.number;
    var lo := if low < s.clearIdx then low else s.clearIdx;
    && tree.Has(o.fork) && Forks(tree, tree.known[s.head], newHeader, low)
    && NetEffect(s.pending, s'.pending, o.txc)
    && Conserved(s.pending, s.mined, s'.pending, o.checked, {}) && Filed(s'.pending, o.checked)
    && Rebuilt(tree, low, remote, s.mined, o.checked)
    && Walked(tree, newHeader, low, remote, s.pending + Above(tree, s.mined, low), Below(tree, s.mined, low), s'.pending, o.checked, s'.head)
    && Reached(tree, newHeader, low, s'.head) && Checked(tree, newHeader, low, s'.head, remote, s'.pending)
    && (o.ok <==> s'.head == newHeader.hash)
    && s'.clearIdx == (if o.ok && newHeader.number > lo + permanent then newHeader.number - permanent else lo)
    && s'.mined == Swept(o.checked, canon, lo, s'.clearIdx)
    && (forall t :: t in o.discarded <==> SweptOut(o.checked, canon, lo, s'.clearIdx, t))
  }

  /** From the books after the rollback, the new blocks were checked in order up to the first that does not pass. */
  ghost predicate Walked(tree: BlockTree, newHeader: Header, low: nat, remote: Remote, pending: set<Tx>, mined: Mined,
                         pending': set<Tx>, mined': Mined, head: Hash)
    requires tree.Valid() && tree.Has(newHeader)
  {
    && low <= newHeader.number && head in tree.known && low <= tree.known[head].number <= newHeader.number
    && var line, k := LineUp(tree, newHeader, low), tree.known[head].number - low;
       StopsAt(remote, line, pending, mined, k) && (pending', mined') == After(remote, line[..k], pending, mined)
  }

  /** A new head with what can be retrieved and the canonical table at the time. */
  datatype Event = Event(header: Header, remote: Remote, canon: map<nat, Hash>)

  /** A header with a known parent is stored and followed; another one is refused. */
  ghost predicate Stepped(tree: BlockTree, tree': BlockTree, permanent: nat, e: Event, s: State, o: Outcome, s': State) {
    if e.header.parent in tree.known then
      && tree' == tree.Grow(e.header) && tree'.Valid() && tree'.Has(e.header)
      && s.head in tree'.known && tree'.Has(tree'.known[s.head])
      && Moved(tree', permanent, e.header, e.remote, e.canon, s, o, s')
    else tree' == tree && s' == s && o.discarded == {}
  }

  ghost function Discarded(outcomes: seq<Outcome>): set<Tx> {
    set i, t | 0 <= i < |outcomes| && t in outcomes[i].discarded :: t
  }

  lemma DiscardedMore(outcomes: seq<Outcome>, o: Outcome)
    ensures Discarded(outcomes + [o]) == Discarded(outcomes) + o.discarded
  {
    var all := outcomes + [o];
    forall t ensures t in Discarded(all) <==> t in Discarded(outcomes) + o.discarded {
      if t in o.discarded {
        assert t in all[|outcomes|].discarded;
      }
      if t in Discarded(outcomes) {
        var i :| 0 <= i < |outcomes| && t in outcomes[i].discarded;
        assert t in all[i].discarded;
      }
    }
  }

  /** Storing another header leaves the lists on the head's line. */
  lemma GrowOnLine(tree: BlockTree, x: Header, head: Hash, mined: Mined)
    requires tree.Valid() && tree.Admits(x) && x.parent in tree.known && OnLine(tree, head, mined)
    ensures tree.Grow(x).Valid() && tree.Grow(x).Has(x) && OnLine(tree.Grow(x), head, mined)
  {
    GrowValid(tree, x);
    var h := tree.known[head];
    assert tree.Has(h);
    GrowKeeps(tree, x, h, 0);
    forall k | k in mined ensures LineBlock(tree.Grow(x), head, k) {
      assert LineBlock(tree, head, k);
      GrowKeeps(tree, x, h, tree.known[k].number);
      assert tree.Has(tree.known[k]);
      GrowKeeps(tree, x, tree.known[k], 0);
    }
  }

  class LightPool {
    /** Blocks after which a mined transaction is considered permanent. */
    const txPermanent: nat

    var head: Hash
    var pending: set<Tx>
    var mined: Mined
    var clearIdx: nat

    ghost predicate Valid(tree: BlockTree)
      reads this
    {
      tree.Valid() && OnLine(tree, head, mined) && Filed(pending, mined)
    }

    function Now(): State
      reads this
    {
      State(head, pending, mined, clearIdx)
    }

    constructor (txPermanent: nat, current: Header, ghost tree: BlockTree)
      requires tree.Valid() && tree.Has(current)
      ensures Valid(tree) && this.txPermanent == txPermanent && head == current.hash
      ensures pending == {} && mined == map[] && clearIdx == current.number
    {
      this.txPermanent := txPermanent;
      head, pending, mined, clearIdx := current.hash, {}, map[], current.number;
    }

    /** The transactions of a rolled back block become pending again. */
    method RollbackTxs(hash: Hash, txc0: Changes, ghost before: set<Tx>) returns (txc: Changes)
      requires Filed(pending, mined) && NetEffect(before, pending, txc0)
      modifies this`pending, this`mined
      ensures Filed(pending, mined) && NetEffect(before, pending, txc)
      ensures Conserved(old(pending), old(mined), pending, mined, {}) && mined == old(mined) - {hash}
      ensures pending == old(pending) + if hash in old(mined) then Txs(old(mined)[hash]) else {}
    {
      txc := txc0;
      if hash in mined {
        MoveBack(pending, mined, hash);
        var list := mined[hash];
        for i := 0 to |list|
          invariant pending == old(pending) + Txs(list[..i]) && mined == old(mined)
          invariant NetEffect(before, pending, txc)
        {
          assert list[..i + 1] == list[..i] + [list[i]];
          assert list[i] !in pending by { assert list[i] in mined[hash]; }
          RolledBackEffect(before, pending, txc, list[i]);
          pending := pending + {list[i]};
          txc := SetState(txc, list[i], false);
        }
        assert list[..|list|] == list;
        mined := mined - {hash};
      } else {
        assert mined - {hash} == mined;
      }
    }

    /** Looks for pending transactions in a new block; fails if the block cannot be retrieved. */
    method CheckMinedTxs(hash: Hash, remote: Remote, txc0: Changes, ghost before: set<Tx>) returns (txc: Changes, ok: bool)
      requires Filed(pending, mined) && NetEffect(before, pending, txc0) && remote.Valid() && hash !in mined
      modifies this`pending, this`mined
      ensures Filed(pending, mined) && NetEffect(before, pending, txc) && pending <= old(pending)
      ensures Conserved(old(pending), old(mined), pending, mined, {}) && mined.Keys <= old(mined).Keys + {hash}
      ensures forall h :: h in old(mined) ==> h in mined && mined[h] == old(mined)[h]
      ensures ok <==> Passes(remote, hash, old(pending))
      ensures !ok ==> pending == old(pending) && mined == old(mined)
      ensures ok ==> (pending, mined) == Marked(old(pending), old(mined), hash, Found(remote, hash, old(pending)))
      ensures ok && hash in remote.bodies ==> forall t :: t in remote.bodies[hash] ==> t !in pending
      ensures hash in mined ==> hash in remote.bodies && forall t :: t in mined[hash] <==> t in remote.bodies[hash] && t in old(pending)
    {
      hide Filed, NetEffect, Conserved, Local, NoDups, Txs;
      Unchanged(pending, mined);
      txc := txc0;
      if pending == {} {
        return txc, true;
      }
      if hash !in remote.bodies {
        return txc, false;
      }
      var list := GatherLocal(remote.bodies[hash]);
      FoundList(remote, hash, pending, mined);
      if list != [] {
        if hash !in remote.complete {
          return txc, false;
        }
        txc := MarkMined(list, txc, before);
        mined := mined[hash := list];
      }
      ok := true;
    }

    method GatherLocal(body: seq<Tx>) returns (list: seq<Tx>)
      ensures list == Local(body, pending)
    {
      list := [];
      for i := 0 to |body|
        invariant list == Local(body[..i], pending)
      {
        assert body[..i + 1][..i] == body[..i];
        if body[i] in pending {
          list := list + [body[i]];
        }
      }
      assert body[..|body|] == body;
    }

    method MarkMined(list: seq<Tx>, txc0: Changes, ghost before: set<Tx>) returns (txc: Changes)
      requires NetEffect(before, pending, txc0) && NoDups(list) && forall t :: t in list ==> t in pending
      modifies this`pending
      ensures pending == old(pending) - Txs(list) && NetEffect(before, pending, txc)
    {
      txc := txc0;
      for i := 0 to |list|
        invariant pending == old(pending) - Txs(list[..i]) && NetEffect(before, pending, txc)
      {
        assert list[..i + 1] == list[..i] + [list[i]];
        assert list[i] !in list[..i];
        MinedEffect(before, pending, txc, list[i]);
        pending := pending - {list[i]};
        txc := SetState(txc, list[i], true);
      }
      assert list[..|list|] == list;
    }

    /**
    Moves the pool to a new head: rolls back the blocks of the old branch, checks those of the new
    one, and discards what is permanent. If a block cannot be retrieved the head stays at the last
    checked block, and the returned changes are still the net effect so far.
    */
    method ReorgOnNewHead(tree: BlockTree, newHeader: Header, remote: Remote, canon: map<nat, Hash>)
      returns (txc: Changes, ok: bool, fork: Header, ghost o: Outcome)
      requires Valid(tree) && tree.Has(newHeader) && remote.Valid()
      modifies this`pending, this`mined, this`head, this`clearIdx
      ensures Valid(tree) && tree.Has(tree.known[old(head)]) && o.txc == txc && o.ok == ok && o.fork == fork
      ensures Moved(tree, txPermanent, newHeader, remote, canon, old(Now()), o, Now())
      ensures Conserved(old(pending), old(mined), pending, mined, o.discarded)
      ensures Recent(tree, old(mined), old(clearIdx)) && Canonical(tree, newHeader, canon) ==> Recent(tree, mined, clearIdx)
    {
      hide Filed, NetEffect, Conserved, BlockTree.At, BlockTree.Valid, OnLine, Reached, Checked, Branch, Forks, Recent, Canonical;
      hide Rebuilt, Swept, SweptOut, Walked, ListsOf, Above, Below;
      ghost var before := pending;
      txc := map[];
      NoChange(pending);
      Known(tree, head, mined);
      var oldHead := tree.known[head];
      var oldHashes, newHashes;
      fork, oldHashes, newHashes := FindFork(tree, oldHead, newHeader);
      if fork.number < clearIdx {
        clearIdx := fork.number;
      }
      txc := RollbackAll(oldHashes, txc, before);
      ghost var p1, m1 := pending, mined;
      RolledBack(tree, oldHead, newHeader, fork, oldHashes, old(mined), mined);
      RolledExactly(tree, oldHead, fork.number, oldHashes, old(mined), mined);
      RecentBelow(tree, old(mined), mined, old(clearIdx), clearIdx);
      head := fork.hash;
      txc, ok := CheckAll(tree, newHeader, fork, newHashes, remote, txc, before);
      ghost var m2, c2 := mined, clearIdx;
      ConservedStill(old(pending), old(mined), p1, m1, pending, m2);
      RecentAbove(tree, m1, m2, clearIdx, fork.number);
      RebuiltBy(tree, oldHead, newHeader, fork.number, oldHashes, remote, old(mined), m1, m2);
      ghost var discarded := {};
      SweptNothing(m2, canon, c2);
      if ok {
        discarded := ClearOld(newHeader.number, canon);
        StillOnLine(tree, head, m2, mined);
        RecentCleared(tree, newHeader, m2, mined, canon, c2, clearIdx);
      }
      SweptConserves(pending, m2, canon, c2, clearIdx, discarded);
      ConservedTwice(old(pending), old(mined), pending, m2, pending, mined, {}, discarded);
      assert {} + discarded == discarded;
      o := Outcome(txc, ok, fork, m2, discarded);
    }

    /**
    Any run of new heads, each a header whose parent is known: every move is as specified, and a
    transaction is still pending or mined exactly if it was and no move discarded it.
    */
    method Run(tree: BlockTree, events: seq<Event>, ghost universe: BlockTree)
      returns (tree': BlockTree, ghost trees: seq<BlockTree>, ghost states: seq<State>, ghost outcomes: seq<Outcome>)
      requires Valid(tree) && Within(tree, universe)
      requires forall i :: 0 <= i < |events| ==> events[i].remote.Valid() && universe.Has(events[i].header) && events[i].header.number > 0
      modifies this`pending, this`mined, this`head, this`clearIdx
      ensures Valid(tree') && |trees| == |states| == |events| + 1 && |outcomes| == |events|
      ensures trees[0] == tree && states[0] == old(Now()) && states[|events|] == Now()
      ensures forall i :: 0 <= i < |events| ==> Stepped(trees[i], trees[i + 1], txPermanent, events[i], states[i], outcomes[i], states[i + 1])
      ensures Conserved(old(pending), old(mined), pending, mined, Discarded(outcomes))
    {
      hide Filed, Conserved, BlockTree.Valid, OnLine, Stepped, Within, Moved;
      tree' := tree;
      trees, states, outcomes := [tree], [Now()], [];
      Unchanged(pending, mined);
      assert Discarded([]) == {};
      for i := 0 to |events|
        invariant Valid(tree') && Within(tree', universe) && |trees| == |states| == i + 1 && |outcomes| == i
        invariant trees[0] == tree && states[0] == old(Now()) && states[i] == Now() && trees[i] == tree'
        invariant forall j :: 0 <= j < i ==> Stepped(trees[j], trees[j + 1], txPermanent, events[j], states[j], outcomes[j], states[j + 1])
        invariant Conserved(old(pending), old(mined), pending, mined, Discarded(outcomes))
      {
        ghost var p, m := pending, mined;
        ghost var o;
        tree', o := Follow(tree', events[i], universe);
        ConservedTwice(old(pending), old(mined), p, m, pending, mined, Discarded(outcomes), o.discarded);
        DiscardedMore(outcomes, o);
        trees, states, outcomes := trees + [tree'], states + [Now()], outcomes + [o];
      }
    }

    /** One new head: its header is stored, and the pool follows. */
    method Follow(tree: BlockTree, e: Event, ghost universe: BlockTree) returns (tree': BlockTree, ghost o: Outcome)
      requires Valid(tree) && Within(tree, universe) && e.remote.Valid() && universe.Has(e.header) && e.header.number > 0
      modifies this`pending, this`mined, this`head, this`clearIdx
      ensures Valid(tree') && Within(tree', universe)
      ensures Stepped(tree, tree', txPermanent, e, old(Now()), o, Now())
      ensures Conserved(old(pending), old(mined), pending, mined, o.discarded)
    {
      hide Filed, Conserved, BlockTree.Valid, OnLine, Within, Moved;
      tree', o := tree, Outcome(map[], false, e.header, map[], {});
      Unchanged(pending, mined);
      if e.header.parent in tree.known {
        AdmitsWithin(tree, universe, e.header);
        GrowOnLine(tree, e.header, head, mined);
        GrowWithin(tree, universe, e.header);
        tree' := tree.Grow(e.header);
        var txc, ok, fork;
        txc, ok, fork, o := ReorgOnNewHead(tree', e.header, e.remote, e.canon);
      }
    }

    method RollbackAll(hashes: seq<Hash>, txc0: Changes, ghost before: set<Tx>) returns (txc: Changes)
      requires Filed(pending, mined) && NetEffect(before, pending, txc0)
      modifies this`pending, this`mined
      ensures Filed(pending, mined) && NetEffect(before, pending, txc)
      ensures Conserved(old(pending), old(mined), pending, mined, {})
      ensures forall h :: h in mined <==> h in old(mined) && h !in hashes
      ensures forall h :: h in mined ==> mined[h] == old(mined)[h]
      ensures pending == old(pending) + ListsOf(old(mined), hashes)
    {
      hide Filed, NetEffect, Conserved, ListsOf;
      txc := txc0;
      Unchanged(pending, mined);
      assert ListsOf(mined, hashes[..0]) == {} by { NoLists(mined); }
      for i := 0 to |hashes|
        invariant pending == old(pending) + ListsOf(old(mined), hashes[..i])
        invariant Filed(pending, mined) && NetEffect(before, pending, txc)
        invariant Conserved(old(pending), old(mined), pending, mined, {})
        invariant forall h :: h in mined <==> h in old(mined) && h !in hashes[..i]
        invariant forall h :: h in mined ==> mined[h] == old(mined)[h]
      {
        ghost var p, m := pending, mined;
        txc := RollbackTxs(hashes[i], txc, before);
        ConservedStill(old(pending), old(mined), p, m, pending, mined);
        assert hashes[..i + 1] == hashes[..i] + [hashes[i]];
        OneMoreList(old(mined), m, hashes[..i], hashes[i]);
      }
      assert hashes[..|hashes|] == hashes;
    }

    /** Checks the new blocks in order, and stops with the head at the last block that could be checked. */
    method CheckAll(tree: BlockTree, newHeader: Header, fork: Header, hashes: seq<Hash>, remote: Remote, txc0: Changes, ghost before: set<Tx>)
      returns (txc: Changes, ok: bool)
      requires Valid(tree) && tree.Has(newHeader) && fork == tree.At(newHeader, fork.number) && head == fork.hash
      requires Branch(tree, newHeader, fork.number, hashes) && NetEffect(before, pending, txc0) && remote.Valid()
      modifies this`pending, this`mined, this`head
      ensures Valid(tree) && NetEffect(before, pending, txc)
      ensures Conserved(old(pending), old(mined), pending, mined, {})
      ensures Reached(tree, newHeader, fork.number, head) && Checked(tree, newHeader, fork.number, head, remote, pending)
      ensures Walked(tree, newHeader, fork.number, remote, old(pending), old(mined), pending, mined, head)
      ensures ok <==> head == newHeader.hash
      ensures forall h :: h in mined && h !in old(mined) ==> h in tree.known && tree.known[h].number > fork.number
      ensures FromBodies(remote, old(mined), mined)
    {
      hide Filed, NetEffect, Conserved, BlockTree.At, BlockTree.Valid, OnLine, Reached, Checked, Branch, Halfway, Walked, FromBodies, Passes;
      ghost var low := fork.number;
      txc := txc0;
      Turned(tree, newHeader, low, hashes);
      HalfwayFirst(tree, newHeader, low, remote, pending, mined);
      var i := |hashes|;
      while i > 0
        invariant 0 <= i <= |hashes| && Valid(tree) && NetEffect(before, pending, txc)
        invariant Halfway(tree, newHeader, low, remote, old(pending), old(mined), |hashes| - i, pending, mined, head)
      {
        i := i - 1;
        txc, ok := CheckNext(tree, newHeader, low, |hashes| - i - 1, hashes[i], remote, txc, before, old(pending), old(mined));
        if !ok {
          HalfwayStops(tree, newHeader, low, remote, old(pending), old(mined), |hashes| - i - 1, pending, mined, head);
          return;
        }
      }
      ok := true;
      HalfwayStops(tree, newHeader, low, remote, old(pending), old(mined), |hashes|, pending, mined, head);
    }

    /** Checks one more block of the line, and moves the head to it if it passes. */
    method CheckNext(tree: BlockTree, newHeader: Header, ghost low: nat, ghost k: nat, hash: Hash, remote: Remote, txc0: Changes,
                     ghost before: set<Tx>, ghost p0: set<Tx>, ghost m0: Mined)
      returns (txc: Changes, ok: bool)
      requires Valid(tree) && tree.Has(newHeader) && low + k < newHeader.number && hash == LineUp(tree, newHeader, low)[k]
      requires NetEffect(before, pending, txc0) && remote.Valid()
      requires Halfway(tree, newHeader, low, remote, p0, m0, k, pending, mined, head)
      modifies this`pending, this`mined, this`head
      ensures Valid(tree) && NetEffect(before, pending, txc) && ok == Passes(remote, hash, old(pending))
      ensures Halfway(tree, newHeader, low, remote, p0, m0, if ok then k + 1 else k, pending, mined, head)
      ensures !ok ==> pending == old(pending)
    {
      hide Filed, NetEffect, Conserved, BlockTree.At, BlockTree.Valid, OnLine, Reached, Checked, Going, Passes, Found, Marked, FromBodies;
      ghost var p, m := pending, mined;
      NextBlock(tree, newHeader, low + k + 1, mined);
      txc, ok := CheckMinedTxs(hash, remote, txc0, before);
      if ok {
        HalfwayNext(tree, newHeader, low, remote, p0, m0, k, p, m, head, pending, mined);
        MovedUp(tree, newHeader, low + k + 1, m, mined);
        head := hash;
      }
    }

    /** Discards what was mined long ago on the canonical chain. */
    method ClearOld(number: nat, canon: map<nat, Hash>) returns (ghost discarded: set<Tx>)
      requires Filed(pending, mined)
      modifies this`mined, this`clearIdx
      ensures Filed(pending, mined)
      ensures clearIdx == if number > old(clearIdx) + txPermanent then number - txPermanent else old(clearIdx)
      ensures mined == Swept(old(mined), canon, old(clearIdx), clearIdx)
      ensures forall t :: t in discarded <==> SweptOut(old(mined), canon, old(clearIdx), clearIdx, t)
    {
      hide Filed, Swept, SweptOut;
      discarded := {};
      SweptNothing(mined, canon, clearIdx);
      if number > clearIdx + txPermanent {
        var idx := number - txPermanent;
        if |mined| > 0 {
          for i := clearIdx to idx
            invariant Filed(pending, mined) && clearIdx == old(clearIdx)
            invariant mined == Swept(old(mined), canon, clearIdx, i)
            invariant forall t :: t in discarded <==> SweptOut(old(mined), canon, clearIdx, i, t)
          {
            SweptStep(old(mined), canon, clearIdx, i);
            if i in canon && canon[i] in mined {
              Drop(pending, mined, canon[i]);
              discarded := discarded + Txs(mined[canon[i]]);
              mined := mined - {canon[i]};
            }
          }
        } else {
          SweptEmpty(mined, canon, clearIdx, idx);
        }
        clearIdx := idx;
      }
    }
  }

  /** Lists are kept, and new ones hold transactions of their block. */
  ghost predicate FromBodies(remote: Remote, mined: Mined, mined': Mined) {
    && (forall h :: h in mined ==> h in mined' && mined'[h] == mined[h])
    && (forall h :: h in mined' && h !in mined ==> h in remote.bodies && forall t :: t in mined'[h] ==> t in remote.bodies[h])
  }

  /** What the lists of the given blocks hold. */
  ghost function ListsOf(mined: Mined, hashes: seq<Hash>): set<Tx> {
    set h, t | h in hashes && h in mined && t in mined[h] :: t
  }

  lemma NoLists(mined: Mined)
    ensures ListsOf(mined, []) == {}
  {
  }

  lemma OneMoreList(mined: Mined, left: Mined, hashes: seq<Hash>, hash: Hash)
    requires forall h :: h in left <==> h in mined && h !in hashes
    requires forall h :: h in left ==> left[h] == mined[h]
    ensures ListsOf(mined, hashes + [hash]) == ListsOf(mined, hashes) + if hash in left then Txs(left[hash]) else {}
  {
  }

  /** Rolling back the old branch leaves the lists up to the fork. */
  lemma RolledExactly(tree: BlockTree, oldHead: Header, low: nat, oldHashes: seq<Hash>, mined: Mined, m1: Mined)
    requires tree.Valid() && tree.Has(oldHead) && OnLine(tree, oldHead.hash, mined) && Branch(tree, oldHead, low, oldHashes)
    requires forall h :: h in m1 <==> h in mined && h !in oldHashes
    requires forall h :: h in m1 ==> m1[h] == mined[h]
    ensures forall h :: h in mined ==> h in tree.known && (h in oldHashes <==> tree.known[h].number > low)
    ensures m1 == Below(tree, mined, low) && ListsOf(mined, oldHashes) == Above(tree, mined, low)
  {
    forall h | h in mined ensures h in tree.known && (h in oldHashes <==> tree.known[h].number > low) {
      assert LineBlock(tree, oldHead.hash, h);
      var k := tree.known[h].number;
      BranchHas(tree, oldHead, low, oldHashes, k);
      if h in oldHashes {
        var i :| 0 <= i < |oldHashes| && oldHashes[i] == h;
        assert tree.At(oldHead, oldHead.number - i).hash == h;
      }
    }
    hide Branch, OnLine, LineBlock, BlockTree.Valid, BlockTree.At;
  }

  /** The first `k` blocks of the line have passed, with these books. */
  ghost predicate Going(remote: Remote, line: seq<Hash>, p0: set<Tx>, m0: Mined, k: nat, p: set<Tx>, m: Mined) {
    && k <= |line| && (p, m) == After(remote, line[..k], p0, m0)
    && forall i :: 0 <= i < k ==> Passes(remote, line[i], After(remote, line[..i], p0, m0).0)
  }

  lemma GoingFirst(remote: Remote, line: seq<Hash>, p0: set<Tx>, m0: Mined)
    ensures Going(remote, line, p0, m0, 0, p0, m0)
  {
  }

  lemma GoingOn(remote: Remote, line: seq<Hash>, p0: set<Tx>, m0: Mined, k: nat, p: set<Tx>, m: Mined, p': set<Tx>, m': Mined)
    requires k < |line| && Going(remote, line, p0, m0, k, p, m) && Passes(remote, line[k], p)
    requires (p', m') == Marked(p, m, line[k], Found(remote, line[k], p))
    ensures Going(remote, line, p0, m0, k + 1, p', m')
  {
    hide Passes, Marked, Found;
    assert line[..k + 1][..k] == line[..k];
  }

  /** The collected hashes are the line from its top. */
  lemma Turned(tree: BlockTree, h: Header, low: nat, hashes: seq<Hash>)
    requires tree.Valid() && tree.Has(h) && Branch(tree, h, low, hashes)
    ensures low <= h.number && |LineUp(tree, h, low)| == |hashes| == h.number - low
    ensures forall i :: 0 <= i < |hashes| ==> hashes[i] == LineUp(tree, h, low)[|hashes| - 1 - i] == tree.At(h, h.number - i).hash
  {
  }

  lemma Stopped(tree: BlockTree, newHeader: Header, low: nat, remote: Remote, p0: set<Tx>, m0: Mined, k: nat, p: set<Tx>, m: Mined)
    requires tree.Valid() && tree.Has(newHeader) && low + k <= newHeader.number
    requires var line := LineUp(tree, newHeader, low);
      Going(remote, line, p0, m0, k, p, m) && (k < |line| ==> !Passes(remote, line[k], p))
    ensures Walked(tree, newHeader, low, remote, p0, m0, p, m, tree.At(newHeader, low + k).hash)
  {
    hide Passes, After;
    var h := tree.At(newHeader, low + k);
    assert tree.Has(h) && tree.known[h.hash] == h;
  }

  /** Where the checks stand after `k` blocks of the line. */
  ghost predicate Halfway(tree: BlockTree, newHeader: Header, low: nat, remote: Remote, p0: set<Tx>, m0: Mined,
                          k: nat, p: set<Tx>, m: Mined, head: Hash)
    requires tree.Valid() && tree.Has(newHeader)
  {
    && low + k <= newHeader.number && head == tree.At(newHeader, low + k).hash
    && Going(remote, LineUp(tree, newHeader, low), p0, m0, k, p, m) && Conserved(p0, m0, p, m, {}) && FromBodies(remote, m0, m)
    && Reached(tree, newHeader, low, head) && Checked(tree, newHeader, low, head, remote, p)
    && forall h :: h in m && h !in m0 ==> h in tree.known && tree.known[h].number > low
  }

  lemma HalfwayFirst(tree: BlockTree, newHeader: Header, low: nat, remote: Remote, p: set<Tx>, m: Mined)
    requires tree.Valid() && tree.Has(newHeader) && low <= newHeader.number
    ensures Halfway(tree, newHeader, low, remote, p, m, 0, p, m, tree.At(newHeader, low).hash)
  {
    hide BlockTree.Valid, BlockTree.At, Going, Conserved, Reached, Checked;
    Unchanged(p, m);
    GoingFirst(remote, LineUp(tree, newHeader, low), p, m);
    AtFork(tree, newHeader, tree.At(newHeader, low), remote, p);
  }

  lemma HalfwayNext(tree: BlockTree, newHeader: Header, low: nat, remote: Remote, p0: set<Tx>, m0: Mined,
                    k: nat, p: set<Tx>, m: Mined, head: Hash, p': set<Tx>, m': Mined)
    requires tree.Valid() && tree.Has(newHeader) && low + k < newHeader.number
    requires Halfway(tree, newHeader, low, remote, p0, m0, k, p, m, head)
    requires var hash := LineUp(tree, newHeader, low)[k];
      && Passes(remote, hash, p) && (p', m') == Marked(p, m, hash, Found(remote, hash, p)) && Cleared(remote, hash, p')
      && (forall h :: h in m ==> h in m' && m'[h] == m[h]) && m'.Keys <= m.Keys + {hash}
      && (hash in m' ==> hash in m || (hash in remote.bodies && forall t :: t in m'[hash] ==> t in remote.bodies[hash]))
    requires Conserved(p, m, p', m', {}) && p' <= p
    ensures Halfway(tree, newHeader, low, remote, p0, m0, k + 1, p', m', LineUp(tree, newHeader, low)[k])
  {
    hide BlockTree.Valid, BlockTree.At, Going, Conserved, Reached, Checked, Passes, Marked, Found, Cleared;
    GoingOn(remote, LineUp(tree, newHeader, low), p0, m0, k, p, m, p', m');
    ConservedStill(p0, m0, p, m, p', m');
    NowChecked(tree, newHeader, low, low + k + 1, remote, p, p');
    var next := tree.At(newHeader, low + k + 1);
    assert tree.Has(next) && tree.known[next.hash] == next by { OwnHash(tree, next); }
  }

  lemma OwnHash(tree: BlockTree, h: Header)
    requires tree.Valid() && tree.Has(h)
    ensures h.hash in tree.known && tree.known[h.hash] == h
  {
  }

  lemma HalfwayStops(tree: BlockTree, newHeader: Header, low: nat, remote: Remote, p0: set<Tx>, m0: Mined,
                     k: nat, p: set<Tx>, m: Mined, head: Hash)
    requires tree.Valid() && tree.Has(newHeader) && low + k <= newHeader.number
    requires Halfway(tree, newHeader, low, remote, p0, m0, k, p, m, head)
    requires low + k < newHeader.number ==> !Passes(remote, LineUp(tree, newHeader, low)[k], p)
    ensures Walked(tree, newHeader, low, remote, p0, m0, p, m, head) && (head == newHeader.hash <==> low + k == newHeader.number)
    ensures Conserved(p0, m0, p, m, {}) && Reached(tree, newHeader, low, head) && Checked(tree, newHeader, low, head, remote, p)
    ensures FromBodies(remote, m0, m) && forall h :: h in m && h !in m0 ==> h in tree.known && tree.known[h].number > low
  {
    hide BlockTree.Valid, BlockTree.At, Going, Conserved, Reached, Checked, Passes, Walked, FromBodies;
    Stopped(tree, newHeader, low, remote, p0, m0, k, p, m);
    Top(tree, newHeader);
    if low + k < newHeader.number {
      NotThere(tree, newHeader, low + k);
    }
  }

  /** If every new block can be retrieved with its receipts, the move is completed. */
  lemma Completes(tree: BlockTree, permanent: nat, newHeader: Header, remote: Remote, canon: map<nat, Hash>, s: State, o: Outcome, s': State)
    requires tree.Valid() && tree.Has(newHeader) && s.head in tree.known && tree.Has(tree.known[s.head])
    requires Moved(tree, permanent, newHeader, remote, canon, s, o, s')
    requires forall n: nat :: o.fork.number < n <= newHeader.number ==>
      var hash := tree.At(newHeader, n).hash; hash in remote.bodies && hash in remote.complete
    ensures o.ok
    ensures forall n: nat, t :: o.fork.number < n <= newHeader.number && t in remote.bodies[tree.At(newHeader, n).hash] ==> t !in s'.pending
  {
    hide After, Rebuilt, Swept, SweptOut, Conserved, Filed, NetEffect, Forks;
    var low := o.fork.number;
    var line, k := LineUp(tree, newHeader, low), tree.known[s'.head].number - low;
    assert forall i :: 0 <= i < |line| ==> Passes(remote, line[i], s'.pending);
    assert k == |line|;
    assert tree.known[s'.head] == tree.At(newHeader, newHeader.number) == newHeader;
    forall n: nat | low < n <= newHeader.number ensures Cleared(remote, tree.At(newHeader, n).hash, s'.pending) { }
  }

  lemma RebuiltBy(tree: BlockTree, oldHead: Header, newHeader: Header, low: nat, oldHashes: seq<Hash>, remote: Remote,
                  mined: Mined, m1: Mined, m2: Mined)
    requires tree.Valid() && tree.Has(oldHead) && tree.Has(newHeader) && OnLine(tree, oldHead.hash, mined)
    requires Branch(tree, oldHead, low, oldHashes)
    requires forall h :: h in m1 <==> h in mined && h !in oldHashes
    requires forall h :: h in m1 ==> m1[h] == mined[h]
    requires FromBodies(remote, m1, m2)
    requires forall h :: h in m2 && h !in m1 ==> h in tree.known && tree.known[h].number > low
    ensures Rebuilt(tree, low, remote, mined, m2)
  {
    RolledExactly(tree, oldHead, low, oldHashes, mined, m1);
    hide Branch, OnLine, LineBlock, BlockTree.Valid, BlockTree.At;
  }

  lemma SweptNothing(mined: Mined, canon: map<nat, Hash>, c: nat)
    ensures Swept(mined, canon, c, c) == mined && forall t :: !SweptOut(mined, canon, c, c, t)
  {
  }

  lemma SweptEmpty(mined: Mined, canon: map<nat, Hash>, lo: nat, hi: nat)
    requires |mined| == 0
    ensures Swept(mined, canon, lo, hi) == mined && forall t :: !SweptOut(mined, canon, lo, hi, t)
  {
  }

  lemma SweptStep(mined: Mined, canon: map<nat, Hash>, lo: nat, i: nat)
    requires lo <= i
    ensures var m, m' := Swept(mined, canon, lo, i), Swept(mined, canon, lo, i + 1);
      if i in canon && canon[i] in m then
        && m' == m - {canon[i]}
        && forall t :: SweptOut(mined, canon, lo, i + 1, t) <==> SweptOut(mined, canon, lo, i, t) || t in Txs(m[canon[i]])
      else
        m' == m && forall t :: SweptOut(mined, canon, lo, i + 1, t) <==> SweptOut(mined, canon, lo, i, t)
  {
    forall h ensures CanonicalIn(canon, lo, i + 1, h) <==> CanonicalIn(canon, lo, i, h) || (i in canon && canon[i] == h) {
      if i in canon && canon[i] == h {
        assert lo <= i < i + 1;
      }
    }
    hide CanonicalIn;
  }

  lemma SweptConserves(pending: set<Tx>, mined: Mined, canon: map<nat, Hash>, lo: nat, hi: nat, discarded: set<Tx>)
    requires Filed(pending, mined) && forall t :: t in discarded <==> SweptOut(mined, canon, lo, hi, t)
    ensures Conserved(pending, mined, pending, Swept(mined, canon, lo, hi), discarded)
  {
    hide CanonicalIn;
    var mined' := Swept(mined, canon, lo, hi);
    forall t: Tx ensures Has(pending, mined', t) <==> Has(pending, mined, t) && t !in discarded {
      if h :| h in mined && t in mined[h] {
        if !CanonicalIn(canon, lo, hi, h) {
          assert h in mined' && t in mined'[h];
        }
      }
    }
  }

  /** The head is a block of the new line, no lower than the fork. */
  ghost predicate Reached(tree: BlockTree, newHeader: Header, low: nat, head: Hash)
    requires tree.Valid() && tree.Has(newHeader)
  {
    head in tree.known && low <= tree.known[head].number && tree.At(newHeader, tree.known[head].number) == tree.known[head]
  }

  /** No transaction of a block between the fork and the head is still pending. */
  ghost predicate Checked(tree: BlockTree, newHeader: Header, low: nat, head: Hash, remote: Remote, pending: set<Tx>)
    requires tree.Valid() && tree.Has(newHeader)
  {
    head in tree.known && forall n: nat :: low < n <= tree.known[head].number ==> Cleared(remote, tree.At(newHeader, n).hash, pending)
  }

  ghost predicate Cleared(remote: Remote, hash: Hash, pending: set<Tx>) {
    hash in remote.bodies ==> forall t :: t in remote.bodies[hash] ==> t !in pending
  }

  lemma Unchanged(pending: set<Tx>, mined: Mined)
    ensures Conserved(pending, mined, pending, mined, {})
  {
  }

  lemma AtFork(tree: BlockTree, newHeader: Header, fork: Header, remote: Remote, pending: set<Tx>)
    requires tree.Valid() && tree.Has(newHeader) && fork == tree.At(newHeader, fork.number)
    ensures Reached(tree, newHeader, fork.number, fork.hash) && Checked(tree, newHeader, fork.number, fork.hash, remote, pending)
  {
  }

  lemma Top(tree: BlockTree, h: Header)
    requires tree.Valid() && tree.Has(h)
    ensures tree.At(h, h.number) == h
  {
  }

  /** The next block of the line has no mined list yet. */
  lemma NextBlock(tree: BlockTree, newHeader: Header, n: nat, mined: Mined)
    requires tree.Valid() && tree.Has(newHeader) && 0 < n <= newHeader.number && OnLine(tree, tree.At(newHeader, n - 1).hash, mined)
    ensures tree.At(newHeader, n).hash !in mined
  {
    var head := tree.At(newHeader, n - 1);
    assert tree.At(newHeader, n).hash in mined ==> LineBlock(tree, head.hash, tree.At(newHeader, n).hash);
  }

  lemma MovedUp(tree: BlockTree, newHeader: Header, n: nat, mined: Mined, mined': Mined)
    requires tree.Valid() && tree.Has(newHeader) && 0 < n <= newHeader.number && OnLine(tree, tree.At(newHeader, n - 1).hash, mined)
    requires mined'.Keys <= mined.Keys + {tree.At(newHeader, n).hash}
    ensures OnLine(tree, tree.At(newHeader, n).hash, mined')
    ensures tree.At(newHeader, n).hash in tree.known && tree.known[tree.At(newHeader, n).hash].number == n
  {
    var head, next := tree.At(newHeader, n - 1), tree.At(newHeader, n);
    forall h | h in mined' ensures LineBlock(tree, next.hash, h) {
      if h != next.hash {
        assert LineBlock(tree, head.hash, h);
        var k := tree.known[h].number;
        if k <= n - 1 {
          AtAt(tree, newHeader, n, k);
          AtAt(tree, newHeader, n - 1, k);
        }
      }
    }
  }

  lemma NowChecked(tree: BlockTree, newHeader: Header, low: nat, n: nat, remote: Remote, pending: set<Tx>, pending': set<Tx>)
    requires tree.Valid() && tree.Has(newHeader) && low < n <= newHeader.number && pending' <= pending
    requires Checked(tree, newHeader, low, tree.At(newHeader, n - 1).hash, remote, pending)
    requires Cleared(remote, tree.At(newHeader, n).hash, pending')
    ensures Checked(tree, newHeader, low, tree.At(newHeader, n).hash, remote, pending')
    ensures Reached(tree, newHeader, low, tree.At(newHeader, n).hash)
  {
    forall k: nat | low < k <= n ensures Cleared(remote, tree.At(newHeader, k).hash, pending') {
      if k < n {
        assert Cleared(remote, tree.At(newHeader, k).hash, pending);
      }
    }
  }

  lemma NotThere(tree: BlockTree, newHeader: Header, n: nat)
    requires tree.Valid() && tree.Has(newHeader) && n < newHeader.number
    ensures tree.At(newHeader, n).hash != newHeader.hash
  {
  }

  /** The mined blocks are no older than the clearing index. */
  ghost predicate Recent(tree: BlockTree, mined: Mined, clearIdx: nat) {
    forall h :: h in mined ==> h in tree.known && tree.known[h].number >= clearIdx
  }

  /** The canonical table is the line of the header. */
  ghost predicate Canonical(tree: BlockTree, h: Header, canon: map<nat, Hash>)
    requires tree.Valid() && tree.Has(h)
  {
    forall n: nat :: n <= h.number ==> n in canon && canon[n] == tree.At(h, n).hash
  }

  lemma NoChange(pending: set<Tx>)
    ensures NetEffect(pending, pending, map[])
  {
  }

  lemma Known(tree: BlockTree, head: Hash, mined: Mined)
    requires tree.Valid() && OnLine(tree, head, mined)
    ensures head in tree.known && tree.Has(tree.known[head]) && tree.known[head].hash == head
  {
  }

  /** What is left after the rollback lies on the common line. */
  lemma RolledBack(tree: BlockTree, oldHead: Header, newHeader: Header, fork: Header, oldHashes: seq<Hash>, mined: Mined, mined': Mined)
    requires tree.Valid() && tree.Has(oldHead) && tree.Has(newHeader) && tree.Has(fork) && OnLine(tree, oldHead.hash, mined)
    requires Forks(tree, oldHead, newHeader, fork.number) && fork == tree.At(newHeader, fork.number)
    requires Branch(tree, oldHead, fork.number, oldHashes)
    requires forall h :: h in mined' <==> h in mined && h !in oldHashes
    ensures OnLine(tree, fork.hash, mined')
  {
    forall h | h in mined' ensures LineBlock(tree, fork.hash, h) {
      assert LineBlock(tree, oldHead.hash, h);
      var k := tree.known[h].number;
      BranchHas(tree, oldHead, fork.number, oldHashes, k);
      AtAt(tree, oldHead, fork.number, k);
    }
  }

  lemma BranchHas(tree: BlockTree, h: Header, low: nat, hashes: seq<Hash>, k: nat)
    requires tree.Valid() && tree.Has(h) && Branch(tree, h, low, hashes)
    ensures low < k <= h.number ==> tree.At(h, k).hash in hashes
  {
    if low < k <= h.number {
      assert hashes[h.number - k] == tree.At(h, k).hash;
    }
  }

  lemma StillOnLine(tree: BlockTree, head: Hash, mined: Mined, mined': Mined)
    requires tree.Valid() && OnLine(tree, head, mined) && mined'.Keys <= mined.Keys
    ensures OnLine(tree, head, mined')
  {
  }

  lemma RecentBelow(tree: BlockTree, mined: Mined, mined': Mined, clearIdx: nat, clearIdx': nat)
    requires mined'.Keys <= mined.Keys && clearIdx' <= clearIdx
    ensures Recent(tree, mined, clearIdx) ==> Recent(tree, mined', clearIdx')
  {
  }

  lemma RecentAbove(tree: BlockTree, mined: Mined, mined': Mined, clearIdx: nat, low: nat)
    requires clearIdx <= low && forall h :: h in mined' && h !in mined ==> h in tree.known && tree.known[h].number > low
    ensures Recent(tree, mined, clearIdx) ==> Recent(tree, mined', clearIdx)
  {
  }

  lemma RecentCleared(tree: BlockTree, newHeader: Header, mined: Mined, mined': Mined, canon: map<nat, Hash>, clearIdx: nat, clearIdx': nat)
    requires tree.Valid() && tree.Has(newHeader) && OnLine(tree, newHeader.hash, mined) && mined'.Keys <= mined.Keys
    requires clearIdx' <= newHeader.number || clearIdx' == clearIdx
    requires mined' == Swept(mined, canon, clearIdx, clearIdx')
    ensures Recent(tree, mined, clearIdx) && Canonical(tree, newHeader, canon) ==> Recent(tree, mined', clearIdx')
  {
    if Recent(tree, mined, clearIdx) && Canonical(tree, newHeader, canon) {
      forall h | h in mined' ensures h in tree.known && tree.known[h].number >= clearIdx' {
        assert LineBlock(tree, newHeader.hash, h);
        var n := tree.known[h].number;
        assert n <= newHeader.number;
        assert canon[n] == h;
      }
    }
  }
}
