/**
When a reset that takes transactions back leaves no hole: if every nonce that the chain gave up in
front of an executable list comes back as a valid transaction, and the pool has room for all of them.
*/
module PoolReturns {
  import opened Sums
  import opened Transactions
  import opened TxLists
  import opened PoolStates
  import opened PoolLimits
  import opened PoolDemotions
  import opened PoolSteps
  import opened PoolPromotions
  import opened PoolSpecs

  /** The batch holds a transaction for the nonce that is valid in the new state and not yet pooled. */
  ghost predicate Returns(config: Config, state: ChainState, gasPrice: nat, s: Snap, batch: seq<(Tx, Facts)>, a: Address, n: nat) {
    exists i :: 0 <= i < |batch| && Welcome(config, state, gasPrice, s, batch[i]) && batch[i].0.sender == a && batch[i].0.nonce == n
  }

  ghost predicate Welcome(config: Config, state: ChainState, gasPrice: nat, s: Snap, x: (Tx, Facts)) {
    x.0 !in s.all && Check(config, state, gasPrice, s.locals, x.0, false, x.1).Fine?
  }

  /**
  What a caller can check before the reset: the executable limit leaves room for the whole batch, and
  in front of every executable list all nonces back to the new state nonce return, none of them queued.
  */
  ghost predicate Restores(config: Config, was: ChainState, state: ChainState, gasPrice: nat, s: Snap, batch: seq<(Tx, Facts)>) {
    && |s.all| + |batch| <= config.globalSlots
    && (config.isBitmed ==> forall a: Address, n :: n in Of(s.queue, a, false).items ==> CanPay(state, Of(s.queue, a, false).items[n]))
    && forall a: Address, n: nat :: Of(s.pending, a, true).items != map[] && state.Nonce(a) <= n < was.Nonce(a) ==>
         n !in Of(s.queue, a, false).items && Returns(config, state, gasPrice, s, batch, a, n)
  }

  /** A queued transaction is payable or was queued before. */
  ghost predicate Sound(state: ChainState, q0: Items, q: Items) {
    q0.Keys <= q.Keys && forall n :: n in q ==> CanPay(state, q[n]) || (n in q0 && q[n] == q0[n])
  }

  ghost predicate HasNonce(s: Snap, t: Tx) {
    t.nonce in Of(s.pending, t.sender, true).items || t.nonce in Of(s.queue, t.sender, false).items
  }

  /** Additions into a pool with room: executable nonces stay, queues only gain, and what is new is listed. */
  ghost predicate Taken(state: ChainState, s0: Snap, s: Snap) {
    && s.nonces == s0.nonces && s.locals == s0.locals && (forall t :: t in s.all && t !in s0.all ==> HasNonce(s, t))
    && forall a: Address ::
         && Of(s.pending, a, true).items.Keys == Of(s0.pending, a, true).items.Keys
         && Sound(state, Of(s0.queue, a, false).items, Of(s.queue, a, false).items)
  }

  /** A valid addition into a pool with room changes its sender's lists at its nonce at most. */
  lemma PlacedTaken(config: Config, state: ChainState, s0: Snap, s: Snap, tx: Tx, r: AddResult, s': Snap)
    requires Taken(state, s0, s) && PutInto(config, s, tx, false, r, s') && CanPay(state, tx)
    ensures Taken(state, s0, s') && HasNonce(s', tx)
  {
    hide CanPay, Rival;
    forall a: Address
      ensures Of(s'.pending, a, true).items.Keys == Of(s.pending, a, true).items.Keys
      ensures Of(s.queue, a, false).items.Keys <= Of(s'.queue, a, false).items.Keys
      ensures Sound(state, Of(s0.queue, a, false).items, Of(s'.queue, a, false).items)
    {
      assert Sound(state, Of(s0.queue, a, false).items, Of(s.queue, a, false).items);
      var p := Of(s.pending, a, true).items;
      if a == tx.sender && tx.nonce in p {
        assert p[tx.nonce := tx].Keys == p.Keys;
      }
    }
    hide Of, Sound, Placed;
    forall t | t in s'.all && t !in s0.all ensures HasNonce(s', t) {
      if t != tx {
        assert HasNonce(s, t);
      } else {
        PlacedIs(config, s, tx, r, s');
      }
    }
    PlacedIs(config, s, tx, r, s');
  }

  lemma PlacedIs(config: Config, s: Snap, tx: Tx, r: AddResult, s': Snap)
    requires Placed(config, s, tx, r, s')
    ensures HasNonce(s', tx)
  {
  }

  lemma TakenStep(config: Config, state: ChainState, gasPrice: nat, s0: Snap, s: Snap, x: (Tx, Facts), r: AddResult, s': Snap)
    requires Taken(state, s0, s) && Added(config, state, gasPrice, s, x.0, false, x.1, r, s') && |s.all| < config.Capacity()
    ensures Taken(state, s0, s') && |s'.all| <= |s.all| + 1
    ensures Welcome(config, state, gasPrice, s0, x) ==> HasNonce(s', x.0)
  {
    hide Of, PutInto, HasNonce, Sound;
    AddedGrows(config, state, gasPrice, s, x.0, false, x.1, r, s');
    if x.0 !in s.all && Check(config, state, gasPrice, s.locals, x.0, false, x.1).Fine? {
      AddedWithRoom(config, state, gasPrice, s, x.0, false, x.1, r, s');
      FineCanPay(config, state, gasPrice, s.locals, x);
      PlacedTaken(config, state, s0, s, x.0, r, s');
    }
  }

  lemma FineCanPay(config: Config, state: ChainState, gasPrice: nat, locals: set<Address>, x: (Tx, Facts))
    requires Check(config, state, gasPrice, locals, x.0, false, x.1).Fine?
    ensures CanPay(state, x.0)
  {
  }

  /** Over a batch every welcome transaction's nonce ends up listed. */
  lemma {:induction false} BatchTaken(config: Config, state: ChainState, gasPrice: nat, batch: seq<(Tx, Facts)>,
                                      rs: seq<AddResult>, snaps: seq<Snap>, i: nat)
    requires Batch(config, state, gasPrice, batch, false, rs, snaps) && i <= |batch|
    requires |snaps[0].all| + |batch| <= config.globalSlots
    ensures Taken(state, snaps[0], snaps[i]) && |snaps[i].all| <= |snaps[0].all| + i
    ensures forall j :: 0 <= j < i && Welcome(config, state, gasPrice, snaps[0], batch[j]) ==> HasNonce(snaps[i], batch[j].0)
  {
    hide Added, Welcome, Taken, HasNonce, BooksOk;
    if i == 0 {
      NothingTaken(state, snaps[0]);
    } else {
      BatchTaken(config, state, gasPrice, batch, rs, snaps, i - 1);
      TakenStep(config, state, gasPrice, snaps[0], snaps[i - 1], batch[i - 1], rs[i - 1], snaps[i]);
      StillListed(config, state, gasPrice, snaps[i - 1], batch[i - 1], rs[i - 1], snaps[i]);
      forall j | 0 <= j < i && Welcome(config, state, gasPrice, snaps[0], batch[j]) ensures HasNonce(snaps[i], batch[j].0) {
        if j < i - 1 {
          assert HasNonce(snaps[i - 1], batch[j].0);
        }
      }
    }
  }

  lemma NothingTaken(state: ChainState, s: Snap)
    ensures Taken(state, s, s)
  {
  }

  lemma StillListed(config: Config, state: ChainState, gasPrice: nat, s: Snap, x: (Tx, Facts), r: AddResult, s': Snap)
    requires Added(config, state, gasPrice, s, x.0, false, x.1, r, s') && |s.all| < config.Capacity()
    ensures forall t :: HasNonce(s, t) ==> HasNonce(s', t)
  {
    if x.0 !in s.all && Check(config, state, gasPrice, s.locals, x.0, false, x.1).Fine? {
      AddedWithRoom(config, state, gasPrice, s, x.0, false, x.1, r, s');
      hide Added, Check;
      forall t | HasNonce(s, t) ensures HasNonce(s', t) { }
    }
  }

  /** The run that promotion moves is empty or starts at the state nonce and ends at the first nonce not queued. */
  lemma RunFromNonce(ok: Items, nonce: nat)
    requires forall n :: n in ok ==> n >= nonce
    ensures var (lo, hi) := ReadyRange(ok, nonce);
      lo == hi || (lo == nonce && hi !in ok && forall n :: nonce <= n < hi ==> n in ok)
  {
    hide MinOf, RunEnd;
    if ok != map[] {
      assert MinOf(ok.Keys) in ok;
    }
  }

  /** A list that was contiguous, with the run in front of it or behind the state nonce, has no hole above that nonce. */
  ghost predicate Whole(p: Items, nonce: nat) {
    forall hole: nat, n: nat :: nonce < hole < n && nonce in p && n in p ==> hole in p
  }

  lemma JoinsUp(keys: set<nat>, p': Items, first: nat, len: nat, nonce: nat, hi: nat)
    requires forall n :: n in keys <==> first <= n < first + len
    requires nonce < hi && forall n :: n in p' <==> n in keys || nonce <= n < hi
    requires forall n :: nonce <= n < hi ==> n !in keys
    requires len > 0 && nonce < first ==> hi == first
    ensures Whole(p', nonce)
  {
  }

  /** One account after its promotion: no hole, and a virtual nonce that moved has a payable transaction behind it. */
  lemma PromotedWhole(config: Config, was: ChainState, state: ChainState, locals: set<Address>, a: Address, all: set<Tx>,
                      l0: List, q0: Items, l: List, q: List, p': Items, q': Items, nonce': nat)
    requires l0.Contiguous(was.Nonce(a)) && l.items.Keys == l0.items.Keys && AccountOk(a, l, q, all) && Sound(state, q0, q.items)
    requires config.isBitmed ==> forall n :: n in q0 ==> CanPay(state, q0[n])
    requires forall n: nat :: l0.items != map[] && state.Nonce(a) <= n < was.Nonce(a) ==> n in q.items && n !in q0
    requires Promoted(config, state, locals, a, l.items, q, state.Nonce(a), p', q', nonce')
    ensures Whole(p', state.Nonce(a))
    ensures nonce' == state.Nonce(a) || (state.Nonce(a) in p' && CanPay(state, p'[state.Nonce(a)]))
  {
    hide Payable, ReadyRange, Limited, Without, CanPay, Sound, Whole, Owned, Between, List.Contiguous;
    var ok, nonce := Payable(config, state, a, q).items, state.Nonce(a);
    ReadyPays(config, state, a, all, q0, q);
    RunFromNonce(ok, nonce);
    var (lo, hi) := ReadyRange(ok, nonce);
    if lo == hi {
      NoRun(l.items, ok, lo);
      ContiguousWhole(l0, p', was.Nonce(a), nonce);
    } else {
      RunJoins(ok, nonce, hi, l0, l.items, p', was.Nonce(a));
    }
  }

  lemma ReadyPays(config: Config, state: ChainState, a: Address, all: set<Tx>, q0: Items, q: List)
    requires Owned(q, a, all) && !q.strict && Sound(state, q0, q.items)
    requires config.isBitmed ==> forall n :: n in q0 ==> CanPay(state, q0[n])
    ensures var ok := Payable(config, state, a, q).items;
      && ok.Keys <= q.items.Keys && (forall n :: n in ok ==> n >= state.Nonce(a) && CanPay(state, ok[n]))
      && (forall n :: n in q.items && n !in q0 && n >= state.Nonce(a) ==> n in ok)
  {
    hide Payable, CanPay;
    PayableIs(config, state, a, q, all);
  }

  lemma NoRun(p: Items, ok: Items, n: nat)
    ensures p + Between(ok, n, n) == p
  {
  }

  lemma ContiguousWhole(l: List, p: Items, first: nat, nonce: nat)
    requires l.Contiguous(first) && p.Keys == l.items.Keys
    ensures Whole(p, nonce)
  {
    assert forall n :: n in p <==> n in l.items;
  }

  lemma RunJoins(ok: Items, nonce: nat, hi: nat, l0: List, p: Items, p': Items, first: nat)
    requires l0.Contiguous(first) && p.Keys == l0.items.Keys && p' == p + Between(ok, nonce, hi) && p.Keys !! ok.Keys
    requires nonce < hi && hi !in ok && forall n :: nonce <= n < hi ==> n in ok
    requires forall n: nat :: l0.items != map[] && nonce <= n < first ==> n in ok
    ensures Whole(p', nonce) && nonce in p' && p'[nonce] == ok[nonce]
  {
    hide Whole;
    var len := |l0.items|;
    assert forall n :: n in p <==> first <= n < first + len;
    assert forall n :: n in ok ==> n !in p;
    if len > 0 && nonce < first {
      assert first in p;
      assert first !in ok;
    }
    assert nonce in Between(ok, nonce, hi);
    JoinsUp(p.Keys, p', first, len, nonce, hi);
  }

  /** The items are pooled transactions of the account, each under its nonce. */
  ghost predicate OwnItems(items: Items, a: Address, all: set<Tx>) {
    forall n :: n in items ==> items[n].sender == a && items[n].nonce == n && items[n] in all
  }

  lemma {:induction false} ItemsWithin(items: Items, a: Address, all: set<Tx>)
    requires OwnItems(items, a, all)
    ensures |items| <= |all|
    decreases |items|
  {
    if items != map[] {
      var n :| n in items;
      var rest := items - {n};
      assert |rest.Keys| == |items.Keys| - 1 by { assert rest.Keys == items.Keys - {n}; }
      ItemsWithin(rest, a, all - {items[n]});
    }
  }

  lemma OthersOwn(items: Items, a: Address, b: Address, all: set<Tx>, own: set<Tx>)
    requires OwnItems(items, b, all) && (forall t :: t in own <==> t in all && t.sender == a)
    ensures if a == b then OwnItems(items, b, own) else OwnItems(items, b, all - own)
  {
  }

  /** A book of pooled transactions is no larger than the pool. */
  lemma {:induction false} SumWithin(book: Book, keys: set<Address>, all: set<Tx>)
    requires forall a: Address :: a in keys ==> OwnItems(Of(book, a, true).items, a, all)
    ensures SumOver(Lengths(book), keys) <= |all|
    decreases |keys|
  {
    hide OwnItems, Of, Lengths, SumOver;
    if keys == {} {
      NoSum(Lengths(book));
    } else {
      var a :| a in keys;
      SumSplit(Lengths(book), keys, a);
      var own := set t | t in all && t.sender == a;
      forall b | b in keys ensures if a == b then OwnItems(Of(book, b, true).items, b, own) else OwnItems(Of(book, b, true).items, b, all - own) {
        OthersOwn(Of(book, b, true).items, a, b, all, own);
      }
      SumWithin(book, keys - {a}, all - own);
      ItemsWithin(Of(book, a, true).items, a, own);
      LengthIs(book, a);
      assert own <= all;
      assert |all - own| + |own| == |all| by { assert all == own + (all - own); }
    }
  }

  lemma NoSum(m: Table)
    ensures SumOver(m, {}) == 0
  {
  }

  lemma LengthIs(book: Book, a: Address)
    ensures Get(Lengths(book), a) == |Of(book, a, true).items|
  {
  }

  lemma TotalWithin(book: Book, all: set<Tx>)
    requires forall a: Address :: OwnItems(Of(book, a, true).items, a, all)
    ensures Total(book) <= |all|
  {
    SumWithin(book, book.Keys, all);
  }

  /** What promotion makes executable was listed before. */
  lemma PromotedOwn(config: Config, state: ChainState, locals: set<Address>, a: Address, all: set<Tx>, l: List, q: List,
                    nonce: nat, p': Items, q': Items, nonce': nat)
    requires AccountOk(a, l, q, all) && Promoted(config, state, locals, a, l.items, q, nonce, p', q', nonce')
    ensures OwnItems(p', a, all)
  {
    hide Payable, ReadyRange, Limited, Without, CanPay;
    PayableIs(config, state, a, q, all);
  }

  lemma PromotionOwn(config: Config, state: ChainState, s: Snap, accounts: set<Address>, p': Book, q': Book, nonces': map<Address, nat>)
    requires s.Consistent() && Promotion(config, state, s.locals, accounts, s.pending, s.queue, s.nonces, p', q', nonces')
    ensures forall a: Address :: OwnItems(Of(p', a, true).items, a, s.all)
  {
    hide Of, AccountOk, Promoted, OwnItems, VirtualNonce;
    forall a: Address ensures OwnItems(Of(p', a, true).items, a, s.all) {
      var l, q := Of(s.pending, a, true), Of(s.queue, a, false);
      assert AccountOk(a, l, q, s.all);
      if a in accounts {
        PromotedOwn(config, state, s.locals, a, s.all, l, q, VirtualNonce(state, s.nonces, a),
                    Of(p', a, true).items, Of(q', a, false).items, VirtualNonce(state, nonces', a));
      } else {
        ListOwn(a, l, q, s.all);
      }
    }
  }

  lemma ListOwn(a: Address, l: List, q: List, all: set<Tx>)
    requires AccountOk(a, l, q, all)
    ensures OwnItems(l.items, a, all)
  {
  }

  /** One account of the rebase condition. */
  lemma WholeRebased(state: ChainState, a: Address, l: List, q: List, all: set<Tx>, nonce: nat)
    requires AccountOk(a, l, q, all) && Whole(l.items, state.Nonce(a))
    requires nonce == state.Nonce(a) || (state.Nonce(a) in l.items && CanPay(state, l.items[state.Nonce(a)]))
    ensures forall hole: nat, n: nat :: !Holed(state, a, l.items, hole, n)
    ensures Runnable(state, a, l) == map[] ==> nonce == state.Nonce(a)
  {
    hide Runnable, CanPay, List.Valid;
    RunnableMeaning(state, a, l, state.Nonce(a));
  }

  /** The nonces in front of an executable list are queued after the batch. */
  lemma NoncesReturned(config: Config, was: ChainState, state: ChainState, gasPrice: nat, batch: seq<(Tx, Facts)>,
                       rs: seq<AddResult>, snaps: seq<Snap>, a: Address)
    requires Batch(config, state, gasPrice, batch, false, rs, snaps) && Restores(config, was, state, gasPrice, snaps[0], batch)
    requires Of(snaps[0].pending, a, true).Contiguous(was.Nonce(a))
    ensures forall n: nat :: Of(snaps[0].pending, a, true).items != map[] && state.Nonce(a) <= n < was.Nonce(a) ==>
      n in Of(snaps[|batch|].queue, a, false).items && n !in Of(snaps[0].queue, a, false).items
  {
    hide Of, Added, Welcome, Sound;
    BatchTaken(config, state, gasPrice, batch, rs, snaps, |batch|);
    var s, last := snaps[0], snaps[|batch|];
    forall n: nat | Of(s.pending, a, true).items != map[] && state.Nonce(a) <= n < was.Nonce(a)
      ensures n in Of(last.queue, a, false).items && n !in Of(s.queue, a, false).items
    {
      assert Returns(config, state, gasPrice, s, batch, a, n);
      var i :| 0 <= i < |batch| && Welcome(config, state, gasPrice, s, batch[i]) && batch[i].0.sender == a && batch[i].0.nonce == n;
      assert HasNonce(last, batch[i].0);
      assert n !in Of(last.pending, a, true).items.Keys;
    }
  }

  /** One account after the batch and the promotion it triggers. */
  lemma AccountRestored(config: Config, was: ChainState, state: ChainState, gasPrice: nat, batch: seq<(Tx, Facts)>,
                        rs: seq<AddResult>, snaps: seq<Snap>, accounts: set<Address>, p': Book, q': Book, nonces': map<Address, nat>, a: Address)
    requires Batch(config, state, gasPrice, batch, false, rs, snaps) && Restores(config, was, state, gasPrice, snaps[0], batch)
    requires Of(snaps[0].pending, a, true).Contiguous(was.Nonce(a)) && snaps[0].nonces == map[]
    requires snaps[|batch|].Consistent()
    requires var s := snaps[|batch|]; Promotion(config, state, s.locals, accounts, s.pending, s.queue, s.nonces, p', q', nonces')
    ensures Whole(Of(p', a, true).items, state.Nonce(a))
    ensures VirtualNonce(state, nonces', a) == state.Nonce(a)
      || (state.Nonce(a) in Of(p', a, true).items && CanPay(state, Of(p', a, true).items[state.Nonce(a)]))
  {
    hide Of, Added, AccountOk, Promoted, Sound, Whole, CanPay, Returns, List.Contiguous;
    var s, last := snaps[0], snaps[|batch|];
    BatchTaken(config, state, gasPrice, batch, rs, snaps, |batch|);
    NoncesReturned(config, was, state, gasPrice, batch, rs, snaps, a);
    var l, q := Of(last.pending, a, true), Of(last.queue, a, false);
    assert AccountOk(a, l, q, last.all);
    if a in accounts {
      PromotedWhole(config, was, state, last.locals, a, last.all, Of(s.pending, a, true), Of(s.queue, a, false).items, l, q,
                    Of(p', a, true).items, Of(q', a, false).items, VirtualNonce(state, nonces', a));
    } else {
      ContiguousWhole(Of(s.pending, a, true), l.items, was.Nonce(a), state.Nonce(a));
    }
  }

  /** With room for the batch, all that happens to the executable lists after it is a promotion. */
  lemma OnlyPromoted(config: Config, state: ChainState, gasPrice: nat, s: Snap, batch: seq<(Tx, Facts)>, beats: map<Address, nat>,
                     t: BatchTrace, s': Snap)
    returns (accounts: set<Address>, q': Book)
    requires BatchAdded(config, state, gasPrice, batch, false, beats, s, t, s') && |s.all| + |batch| <= config.globalSlots
    ensures Batch(config, state, gasPrice, batch, false, t.results, t.snaps) && t.snaps[0] == s && t.snaps[|batch|].Consistent()
    ensures var last := t.snaps[|batch|];
      Promotion(config, state, last.locals, accounts, last.pending, last.queue, last.nonces, s'.pending, q', s'.nonces)
  {
    hide Added, BooksOk, Promotion, FairlyCut, QueueCut, Shed, Dirty, Total;
    var last := t.snaps[|batch|];
    accounts := Dirty(batch, t.results);
    if accounts == {} {
      q' := last.queue;
      PromotionNone(config, state, last.locals, last.pending, last.queue, last.nonces);
    } else {
      q' := t.waiting;
      NoEviction(config, state, gasPrice, batch, t.results, t.snaps, accounts, t.promoted, q', t.nonces);
      SmallUncut(t.promoted, s'.pending, last.locals, config.accountSlots, config.globalSlots);
    }
  }

  /** A batch that restores what the chain gave up leaves nothing that the rebase could turn into a hole. */
  lemma BatchRestores(config: Config, was: ChainState, state: ChainState, gasPrice: nat, s: Snap, nonces: map<Address, nat>,
                      batch: seq<(Tx, Facts)>, beats: map<Address, nat>, t: BatchTrace, s': Snap)
    requires AllGapFree(was, s.pending, nonces) && s.nonces == map[] && Restores(config, was, state, gasPrice, s, batch)
    requires BatchAdded(config, state, gasPrice, batch, false, beats, s, t, s') && s'.Consistent()
    ensures Rebased(state, s'.pending, s'.nonces)
  {
    assert |s.all| + |batch| <= config.globalSlots;
    hide Of, Batch, BatchAdded, AccountOk, Whole, CanPay, Promotion, Restores, Holed, Runnable, List.Contiguous, VirtualNonce;
    var accounts, q' := OnlyPromoted(config, state, gasPrice, s, batch, beats, t, s');
    forall a: Address
      ensures forall hole: nat, n: nat :: !Holed(state, a, Of(s'.pending, a, true).items, hole, n)
      ensures Runnable(state, a, Of(s'.pending, a, true)) == map[] ==> VirtualNonce(state, s'.nonces, a) == state.Nonce(a)
    {
      assert GapFree(Of(s.pending, a, true), was.Nonce(a), VirtualNonce(was, nonces, a));
      AccountRestored(config, was, state, gasPrice, batch, t.results, t.snaps, accounts, s'.pending, q', s'.nonces, a);
      assert AccountOk(a, Of(s'.pending, a, true), Of(s'.queue, a, false), s'.all);
      WholeRebased(state, a, Of(s'.pending, a, true), Of(s'.queue, a, false), s'.all, VirtualNonce(state, s'.nonces, a));
    }
  }

  lemma SmallUncut(p: Book, p': Book, locals: set<Address>, slots: nat, limit: nat)
    requires FairlyCut(p, p', locals, slots, limit) && Total(p) <= limit
    ensures p' == p
  {
  }

  lemma NoEviction(config: Config, state: ChainState, gasPrice: nat, batch: seq<(Tx, Facts)>, rs: seq<AddResult>, snaps: seq<Snap>,
                   accounts: set<Address>, p': Book, q': Book, nonces': map<Address, nat>)
    requires Batch(config, state, gasPrice, batch, false, rs, snaps) && |snaps[0].all| + |batch| <= config.globalSlots
    requires snaps[|batch|].Consistent()
    requires var s := snaps[|batch|]; Promotion(config, state, s.locals, accounts, s.pending, s.queue, s.nonces, p', q', nonces')
    ensures Total(p') <= config.globalSlots
  {
    hide Added, Promotion, Total, OwnItems, Of, Taken;
    BatchTaken(config, state, gasPrice, batch, rs, snaps, |batch|);
    PromotionOwn(config, state, snaps[|batch|], accounts, p', q', nonces');
    TotalWithin(p', snaps[|batch|].all);
  }

  lemma RestoresAnyway(config: Config, was: ChainState, state: ChainState, gasPrice: nat, s: Snap, s': Snap, batch: seq<(Tx, Facts)>)
    requires s' == s.(nonces := map[]) && Restores(config, was, state, gasPrice, s, batch)
    ensures Restores(config, was, state, gasPrice, s', batch)
  {
    hide Of, Check;
    assert forall x :: Welcome(config, state, gasPrice, s, x) <==> Welcome(config, state, gasPrice, s', x);
    forall a: Address, n: nat | Returns(config, state, gasPrice, s, batch, a, n) ensures Returns(config, state, gasPrice, s', batch, a, n) {
      var i :| 0 <= i < |batch| && Welcome(config, state, gasPrice, s, batch[i]) && batch[i].0.sender == a && batch[i].0.nonce == n;
      assert Welcome(config, state, gasPrice, s', batch[i]);
    }
  }
}
