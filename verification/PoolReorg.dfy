/** The transactions that a reorganisation takes off the chain, and the pool's reset that takes them back. */
module PoolReorgs {
  import opened Options
  import opened Ancestry
  import opened Ledgers
  import opened Transactions
  import opened PoolStates
  import opened PoolSteps
  import opened PoolSpecs
  import opened PoolReturns
  import opened TxPools

  /** Heads further apart than this are not reconciled. */
  const MAX_DEPTH: nat := 64

  function Depth(a: Header, b: Header): nat {
    if a.number < b.number then b.number - a.number else a.number - b.number
  }

  /** What a move of the head takes off the chain: nothing for a child or across too great a distance. */
  ghost predicate TakesOff(l: Ledger, oldHead: Header, newHead: Header, off: seq<TxHash>)
    requires l.Valid() && l.tree.Has(oldHead) && l.tree.Has(newHead)
  {
    if oldHead.hash == newHead.parent || oldHead.number > newHead.number + 64 || newHead.number > oldHead.number + 64 then off == []
    else exists c: nat :: Forks(l.tree, oldHead, newHead, c) && off == Difference(TxsAbove(l, oldHead, c), TxsAbove(l, newHead, c))
  }

  /** Walks back from both heads, collecting what each branch holds. */
  method Reconcile(l: Ledger, oldHead: Header, newHead: Header) returns (off: seq<TxHash>)
    requires l.Valid() && l.tree.Has(oldHead) && l.tree.Has(newHead)
    ensures TakesOff(l, oldHead, newHead, off)
  {
    if oldHead.hash == newHead.parent || Depth(oldHead, newHead) > MAX_DEPTH {
      return [];
    }
    hide Ledger.Valid, BlockTree.Valid, BlockTree.At, TxsAbove;
    var rem, add := oldHead, newHead;
    var discarded, included: seq<TxHash> := [], [];
    AtTop(l, oldHead);
    AtTop(l, newHead);
    while rem.number > add.number
      invariant Collected(l, oldHead, rem, discarded) && (rem == oldHead || rem.number >= add.number)
      decreases rem.number
    {
      CollectStep(l, oldHead, rem, discarded);
      discarded := discarded + l.bodies[rem.hash];
      rem := l.tree.Parent(rem);
    }
    while add.number > rem.number
      invariant Collected(l, newHead, add, included) && (add == newHead || add.number >= rem.number)
      decreases add.number
    {
      CollectStep(l, newHead, add, included);
      included := included + l.bodies[add.hash];
      add := l.tree.Parent(add);
    }
    while rem.hash != add.hash
      invariant Collected(l, oldHead, rem, discarded) && Collected(l, newHead, add, included)
      invariant rem.number == add.number && Apart(l.tree, oldHead, newHead, rem.number, add.number)
      decreases rem.number
    {
      NotGenesis(l.tree, rem, add);
      StillApart(l.tree, oldHead, newHead, rem, add);
      CollectStep(l, oldHead, rem, discarded);
      discarded := discarded + l.bodies[rem.hash];
      rem := l.tree.Parent(rem);
      CollectStep(l, newHead, add, included);
      included := included + l.bodies[add.hash];
      add := l.tree.Parent(add);
    }
    SameHash(l.tree, rem, add);
    off := TxDifference(discarded, included);
    assert Forks(l.tree, oldHead, newHead, rem.number);
  }

  /** The walk from `start` has reached `h` with the transactions of all blocks above it. */
  ghost predicate Collected(l: Ledger, start: Header, h: Header, txs: seq<TxHash>) {
    && l.Valid() && l.tree.Has(start) && l.tree.Has(h) && h.number <= start.number && h == l.tree.At(start, h.number)
    && txs == TxsAbove(l, start, h.number)
  }

  lemma AtTop(l: Ledger, h: Header)
    requires l.Valid() && l.tree.Has(h)
    ensures Collected(l, h, h, [])
  {
  }

  lemma CollectStep(l: Ledger, start: Header, h: Header, txs: seq<TxHash>)
    requires Collected(l, start, h, txs) && h.number > 0
    ensures h.hash in l.bodies && Collected(l, start, l.tree.Parent(h), txs + l.bodies[h.hash])
  {
    TxsAboveStep(l, start, h.number);
    StepDown(l.tree, start, h.number);
  }

  /** The pool's view of transactions: their content and facts by hash. */
  type Contents = map<TxHash, (Tx, Facts)>

  function Fetched(contents: Contents, hashes: seq<TxHash>): seq<(Tx, Facts)>
    requires forall t :: t in hashes ==> t in contents
  {
    seq(|hashes|, i requires 0 <= i < |hashes| => contents[hashes[i]])
  }

  /** Resets the pool to a new head, taking back what the move of the head takes off the chain. */
  method ResetToHead(pool: TxPool, l: Ledger, oldHead: Option<Header>, newHead: Header, contents: Contents,
                     newState: ChainState, beats: map<Address, nat>)
    returns (ghost off: seq<TxHash>, ghost trace: Trace)
    requires pool.AtRest() && l.Valid() && l.tree.Has(newHead) && (oldHead.Some? ==> l.tree.Has(oldHead.value))
    requires forall h, t :: h in l.bodies && t in l.bodies[h] ==> t in contents
    modifies pool, pool.priced
    ensures pool.AtRest() && pool.state == newState && pool.gasPrice == old(pool.gasPrice)
    ensures if oldHead.Some? then TakesOff(l, oldHead.value, newHead, off) else off == []
    ensures forall t :: t in off ==> t in contents
    ensures WasReset(pool.config, newState, pool.gasPrice, old(pool.Books()), Fetched(contents, off), beats, trace, pool.Books())
    ensures Rebased(newState, trace.injected.pending, trace.injected.nonces) ==> pool.GapFreePending()
    ensures old(pool.GapFreePending()) && off == [] ==> pool.GapFreePending()
    ensures old(pool.GapFreePending()) ==>
      Restores(pool.config, old(pool.state), newState, pool.gasPrice, old(pool.Books()), Fetched(contents, off)) ==> pool.GapFreePending()
  {
    hide TxPool.AtRest, TxPool.GapFreePending, WasReset, TakesOff, Rebased;
    var reinject: seq<TxHash> := [];
    if oldHead.Some? {
      reinject := Reconcile(l, oldHead.value, newHead);
      OffInBodies(l, oldHead.value, newHead, reinject);
    }
    off := reinject;
    trace := pool.Reset(newState, Fetched(contents, reinject), beats);
  }

  lemma OffInBodies(l: Ledger, oldHead: Header, newHead: Header, off: seq<TxHash>)
    requires l.Valid() && l.tree.Has(oldHead) && l.tree.Has(newHead) && TakesOff(l, oldHead, newHead, off)
    ensures forall t :: t in off ==> exists h :: h in l.bodies && t in l.bodies[h]
  {
    if c: nat :| Forks(l.tree, oldHead, newHead, c) && off == Difference(TxsAbove(l, oldHead, c), TxsAbove(l, newHead, c)) {
      forall t | t in off ensures exists h :: h in l.bodies && t in l.bodies[h] {
        DifferenceIn(TxsAbove(l, oldHead, c), TxsAbove(l, newHead, c), t);
        AboveInBodies(l, oldHead, c, t);
      }
    }
  }

  lemma {:induction false} DifferenceIn(a: seq<TxHash>, b: seq<TxHash>, t: TxHash)
    requires t in Difference(a, b)
    ensures t in a && t !in b
  {
    if a != [] && t in Difference(a[..|a| - 1], b) {
      DifferenceIn(a[..|a| - 1], b, t);
    }
  }

  lemma {:induction false} AboveInBodies(l: Ledger, h: Header, c: nat, t: TxHash)
    requires l.Valid() && l.tree.Has(h) && t in TxsAbove(l, h, c)
    ensures exists k :: k in l.bodies && t in l.bodies[k]
    decreases h.number
  {
    if t in l.bodies[h.hash] {
      assert h.hash in l.bodies;
    } else {
      AboveInBodies(l, l.tree.Parent(h), c, t);
    }
  }
}
