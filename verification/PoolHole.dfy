/** A run of the pool after which an executable list has a hole. */
module PoolHoles {
  import opened Transactions
  import opened TxLists
  import opened PoolStates
  import opened PoolLimits
  import opened PoolDemotions
  import opened PoolSteps
  import opened PricedLists
  import opened PoolSpecs
  import opened TxPools
  import opened Options
  import opened Ancestry
  import opened Ledgers
  import opened PoolReorgs

  const ACCOUNT: Address := 7

  function TxAt(nonce: nat): Tx {
    Tx(nonce, ACCOUNT, nonce, 1, 1, 0)
  }

  function StateAt(nonce: nat): ChainState {
    ChainState(map[ACCOUNT := nonce], map[ACCOUNT := 100], 100)
  }

  const CONFIG := Config(10, 16, 4096, 64, 1024, false)
  const FACTS := Facts(false, false, true, 1)

  /** Adds the account's transaction at its virtual nonce; it becomes executable at once. */
  method AddNext(pool: TxPool, nonce: nat)
    requires pool.AtRest() && pool.config == CONFIG && pool.gasPrice == 1 && pool.state.Nonce(ACCOUNT) <= nonce
    requires pool.state == StateAt(pool.state.Nonce(ACCOUNT)) && pool.GetNonce(ACCOUNT) == nonce
    requires pool.Que(ACCOUNT).items == map[] && nonce !in pool.Pend(ACCOUNT).items && TxAt(nonce) !in pool.all
    requires |pool.Pend(ACCOUNT).items| < 16 && |pool.all| < 16
    modifies pool`pending, pool`queue, pool`all, pool`pendingNonces, pool`dropping, pool`locals, pool.priced
    ensures pool.AtRest() && (old(pool.GapFreePending()) ==> pool.GapFreePending()) && pool.all <= old(pool.all) + {TxAt(nonce)}
    ensures pool.locals == old(pool.locals)
    ensures pool.Pend(ACCOUNT).items == old(pool.Pend(ACCOUNT)).items[nonce := TxAt(nonce)] && pool.Que(ACCOUNT).items == map[]
  {
    hide TxPool.AtRest, TxPool.GapFreePending, FairlyCut, QueueCut, Promotion, List.Add, Of, Added, Shed;
    var tx := TxAt(nonce);
    LooseQueue(pool);
    ghost var s0 := pool.Books();
    var r, s, promoted, waiting, nonces := pool.AddTx(tx, false, FACTS, map[]);
    AddedFresh(pool.config, pool.state, pool.gasPrice, s0, nonce, r, s);
    AddedAlone(pool.config, pool.state, pool.locals, s0.pending, s0.queue, s.queue, s0.nonces,
      promoted, waiting, nonces, pool.pending, pool.queue, nonce);
    ShedIsLess(s.all, pool.all, s.pending, s.queue, pool.pending, pool.queue);
  }

  lemma AddedFresh(config: Config, state: ChainState, gasPrice: nat, s: Snap, nonce: nat, r: AddResult, s': Snap)
    requires config == CONFIG && gasPrice == 1 && state == StateAt(state.Nonce(ACCOUNT)) && state.Nonce(ACCOUNT) <= nonce
    requires Added(config, state, gasPrice, s, TxAt(nonce), false, FACTS, r, s')
    requires TxAt(nonce) !in s.all && |s.all| < 16
    requires nonce !in Of(s.pending, ACCOUNT, true).items && Of(s.queue, ACCOUNT, false).items == map[]
    ensures r == Accepted(false) && s'.pending == s.pending && s'.nonces == s.nonces && s'.locals == s.locals
    ensures s'.queue == s.queue[ACCOUNT := Of(s.queue, ACCOUNT, false).Add(TxAt(nonce))] && s'.all <= s.all + {TxAt(nonce)}
  {
    assert Check(config, state, gasPrice, s.locals, TxAt(nonce), false, FACTS).Fine?;
    hide Added;
    AddedWithRoom(config, state, gasPrice, s, TxAt(nonce), false, FACTS, r, s');
  }

  lemma LooseQueue(pool: TxPool)
    requires pool.AtRest()
    ensures !pool.Que(ACCOUNT).strict
  {
    assert AccountOk(ACCOUNT, pool.Pend(ACCOUNT), pool.Que(ACCOUNT), pool.all);
  }

  lemma AddedAlone(config: Config, state: ChainState, locals: set<Address>, p: Book, q: Book, added: Book, nonces: map<Address, nat>,
                   promoted: Book, waiting: Book, nonces': map<Address, nat>, p': Book, q': Book, nonce: nat)
    requires config == CONFIG && state == StateAt(state.Nonce(ACCOUNT)) && state.Nonce(ACCOUNT) <= nonce
    requires VirtualNonce(state, nonces, ACCOUNT) == nonce && !Of(q, ACCOUNT, false).strict
    requires Of(q, ACCOUNT, false).items == map[] && nonce !in Of(p, ACCOUNT, true).items && |Of(p, ACCOUNT, true).items| < 16
    requires added == q[ACCOUNT := Of(q, ACCOUNT, false).Add(TxAt(nonce))]
    requires Promotion(config, state, locals, {ACCOUNT}, p, added, nonces, promoted, waiting, nonces')
    requires FairlyCut(promoted, p', locals, config.accountSlots, config.globalSlots)
    requires QueueCut(waiting, q', locals, map[], config.globalQueue)
    ensures Of(p', ACCOUNT, true).items == Of(p, ACCOUNT, true).items[nonce := TxAt(nonce)] && Of(q', ACCOUNT, false).items == map[]
  {
    hide Promoted, FairlyCut, Total, Trimmed, LatestFirst, OnlyLocals;
    PromotedAlone(config, state, locals, ACCOUNT, TxAt(nonce), Of(p, ACCOUNT, true).items, Of(added, ACCOUNT, false), nonce,
      Of(promoted, ACCOUNT, true).items, Of(waiting, ACCOUNT, false).items, VirtualNonce(state, nonces', ACCOUNT));
    ShareKept(promoted, p', locals, config.accountSlots, config.globalSlots, ACCOUNT);
    QueueStaysEmpty(waiting, q', locals, map[], config.globalQueue, ACCOUNT);
  }

  lemma QueueStaysEmpty(q: Book, q': Book, locals: set<Address>, beats: map<Address, nat>, limit: nat, a: Address)
    requires QueueCut(q, q', locals, beats, limit) && Of(q, a, false).items == map[]
    ensures Of(q', a, false).items == map[]
  {
    hide Total, LatestFirst, OnlyLocals;
  }

  /** A pool whose only transaction, at the state nonce 5, is executable. */
  method OneExecutable() returns (pool: TxPool)
    ensures fresh(pool) && fresh(pool.priced) && pool.AtRest() && pool.config == CONFIG && pool.gasPrice == 1
    ensures pool.state == StateAt(5) && pool.Pend(ACCOUNT).items == map[5 := TxAt(5)] && pool.Que(ACCOUNT).items == map[]
    ensures |pool.all| < 15 && TxAt(3) !in pool.all && CHEAP !in pool.all && pool.locals == {}
  {
    hide BooksOk, AllGapFree, TxPricedList.Valid, Of;
    pool := new TxPool(CONFIG, StateAt(5), 1);
    Empty(pool.pending, pool.queue, pool.state, pool.pendingNonces);
    AddNext(pool, 5);
    Few(pool.all);
  }

  /** Transaction 4 pays less than the pool asks. */
  const CHEAP: Tx := Tx(4, ACCOUNT, 4, 0, 1, 0)

  const GENESIS: Header := Header(1, NO_HASH, 0, 1)
  const OLD_HEAD: Header := Header(2, 1, 1, 1)
  const NEW_HEAD: Header := Header(3, 1, 1, 1)

  /** Two blocks after the genesis block: the old one holds transactions 3 and 4, the new one none. */
  const LEDGER: Ledger := Ledger(
    BlockTree(map[1 := GENESIS, 2 := OLD_HEAD, 3 := NEW_HEAD], GENESIS),
    map[1 := [], 2 := [3, 4], 3 := []])

  const CONTENTS: Contents := map[3 := (TxAt(3), FACTS), 4 := (CHEAP, FACTS)]

  /**
  Transaction 5 is executable when the block with 3 and 4 is replaced by an empty one. Both return,
  but 4 is refused as underpriced. After the reset nonce 4 is missing in front of 5.
  */
  method HoleAfterReorg() returns (pool: TxPool)
    ensures pool.AtRest() && pool.state == StateAt(3) && !pool.GapFreePending()
    ensures pool.Pend(ACCOUNT).items == map[5 := TxAt(5), 3 := TxAt(3)]
  {
    hide BooksOk, AllGapFree, TxPricedList.Valid, Of, Rebased, WasReset, TakesOff, Ledger.Valid, Fetched;
    pool := OneExecutable();
    LooseQueue(pool);
    LedgerOk();
    ghost var s := pool.Books();
    ghost var off, trace := ResetToHead(pool, LEDGER, Some(OLD_HEAD), NEW_HEAD, CONTENTS, StateAt(3), map[]);
    BothReturn(off);
    HoleReset(pool.config, pool.state, pool.gasPrice, s, trace, pool.Books());
    NotGapFree(pool.state, pool.pending, pool.pendingNonces);
  }

  const RETURNED: seq<(Tx, Facts)> := [(TxAt(3), FACTS), (CHEAP, FACTS)]

  lemma LedgerOk()
    ensures LEDGER.Valid() && LEDGER.tree.Has(OLD_HEAD) && LEDGER.tree.Has(NEW_HEAD)
    ensures forall h, t :: h in LEDGER.bodies && t in LEDGER.bodies[h] ==> t in CONTENTS
  {
    var t := LEDGER.tree;
    assert t.Linked(1) && t.Linked(2) && t.Linked(3);
  }

  /** The move of the head takes both transactions off the chain. */
  lemma BothReturn(off: seq<TxHash>)
    requires LEDGER.Valid() && TakesOff(LEDGER, OLD_HEAD, NEW_HEAD, off) && forall t :: t in off ==> t in CONTENTS
    ensures Fetched(CONTENTS, off) == RETURNED
  {
    hide BlockTree.At, Ledger.Valid, Difference, TxsAbove;
    var c: nat :| Forks(LEDGER.tree, OLD_HEAD, NEW_HEAD, c)
                  && off == Difference(TxsAbove(LEDGER, OLD_HEAD, c), TxsAbove(LEDGER, NEW_HEAD, c));
    Branches(c);
    BothMissing();
  }

  lemma Branches(c: nat)
    requires LEDGER.Valid() && Forks(LEDGER.tree, OLD_HEAD, NEW_HEAD, c)
    ensures TxsAbove(LEDGER, OLD_HEAD, c) == [3, 4] && TxsAbove(LEDGER, NEW_HEAD, c) == []
  {
    var t := LEDGER.tree;
    assert t.At(OLD_HEAD, 1) == OLD_HEAD && t.At(NEW_HEAD, 1) == NEW_HEAD;
    hide BlockTree.At;
    assert c == 0;
    assert t.Parent(OLD_HEAD) == GENESIS == t.Parent(NEW_HEAD) && TxsAbove(LEDGER, GENESIS, 0) == [];
  }

  lemma BothMissing()
    ensures Difference([3, 4], []) == [3, 4]
  {
    assert [3, 4][..1] == [3] && [3][..0] == [];
    assert Difference([3], []) == [3];
  }

  lemma HoleReset(config: Config, state: ChainState, gasPrice: nat, s: Snap, t: Trace, s': Snap)
    requires config == CONFIG && gasPrice == 1 && state == StateAt(3) && TxAt(3) !in s.all && CHEAP !in s.all && |s.all| < 15
    requires Of(s.pending, ACCOUNT, true).items == map[5 := TxAt(5)] && s.locals == {}
    requires Of(s.queue, ACCOUNT, false).items == map[] && !Of(s.queue, ACCOUNT, false).strict
    requires WasReset(config, state, gasPrice, s, RETURNED, map[], t, s')
    ensures Of(s'.pending, ACCOUNT, true).items == HOLED
  {
    hide BatchAdded, Demotes, Settled, Of, Snap.Consistent;
    HoleInjected(config, state, gasPrice, s.(nonces := map[]), t.batch, t.injected);
    HoleDemoted(state, t.injected, t.demoted);
    HoleSettled(config, state, t.demoted, t.promoted, t.waiting, t.nonces, s');
  }

  const HOLED: Items := map[5 := TxAt(5), 3 := TxAt(3)]

  lemma HoleInjected(config: Config, state: ChainState, gasPrice: nat, s: Snap, t: BatchTrace, s': Snap)
    requires config == CONFIG && gasPrice == 1 && state == StateAt(3) && s.nonces == map[] && |s.all| < 15
    requires TxAt(3) !in s.all && CHEAP !in s.all && s.locals == {}
    requires Of(s.pending, ACCOUNT, true).items == map[5 := TxAt(5)]
    requires Of(s.queue, ACCOUNT, false).items == map[] && !Of(s.queue, ACCOUNT, false).strict
    requires BatchAdded(config, state, gasPrice, RETURNED, false, map[], s, t, s')
    ensures Of(s'.pending, ACCOUNT, true).items == HOLED && Of(s'.queue, ACCOUNT, false).items == map[]
  {
    hide Added, Of, Promotion, FairlyCut, QueueCut, List.Add, Shed;
    var txs := RETURNED;
    assert Added(config, state, gasPrice, t.snaps[0], txs[0].0, false, txs[0].1, t.results[0], t.snaps[1]);
    AddedFresh(config, state, gasPrice, s, 3, t.results[0], t.snaps[1]);
    assert Added(config, state, gasPrice, t.snaps[1], txs[1].0, false, txs[1].1, t.results[1], t.snaps[2]);
    TooCheap(config, state, gasPrice, t.snaps[1], t.results[1], t.snaps[2]);
    DirtyOne(t.results);
    AddedAlone(config, state, s.locals, s.pending, s.queue, t.snaps[1].queue, s.nonces,
      t.promoted, t.waiting, t.nonces, s'.pending, s'.queue, 3);
  }

  lemma DirtyOne(rs: seq<AddResult>)
    requires |rs| == 2 && rs[0] == Accepted(false) && rs[1].Rejected?
    ensures Dirty(RETURNED, rs) == {ACCOUNT}
  {
    assert RETURNED[0].0.sender == ACCOUNT;
  }

  lemma TooCheap(config: Config, state: ChainState, gasPrice: nat, s: Snap, r: AddResult, s': Snap)
    requires config == CONFIG && gasPrice == 1 && state == StateAt(3) && CHEAP !in s.all && s.locals == {}
    requires Added(config, state, gasPrice, s, CHEAP, false, FACTS, r, s')
    ensures r == Rejected(Underpriced) && s' == s
  {
  }

  lemma HoleDemoted(state: ChainState, s: Snap, s': Snap)
    requires state == StateAt(3) && s.Consistent() && Demotes(state, s, s')
    requires Of(s.pending, ACCOUNT, true).items == HOLED && Of(s.queue, ACCOUNT, false).items == map[]
    ensures Of(s'.pending, ACCOUNT, true).items == HOLED && Of(s'.queue, ACCOUNT, false).items == map[]
  {
    hide Runnable, Postponed, Of, Demotes;
    var l := Of(s.pending, ACCOUNT, true);
    HoledListOk(s, l);
    HoleRuns(state, l);
    QueueKeeps(state, s, s');
    PendingRuns(state, s, s');
  }

  lemma HoledListOk(s: Snap, l: List)
    requires s.Consistent() && l == Of(s.pending, ACCOUNT, true)
    ensures l.Valid() && l.strict
  {
    hide List.Valid;
    assert AccountOk(ACCOUNT, l, Of(s.queue, ACCOUNT, false), s.all);
  }

  lemma PendingRuns(state: ChainState, s: Snap, s': Snap)
    requires Demotes(state, s, s')
    ensures Of(s'.pending, ACCOUNT, true).items == Runnable(state, ACCOUNT, Of(s.pending, ACCOUNT, true))
  {
    hide Runnable, Of, Drops, Demotion;
    RunnableIs(state, s.pending, s.queue, s'.pending, s'.queue, ACCOUNT);
  }

  /** Both transactions of the list can be paid from the state nonce on, so demotion keeps them. */
  lemma HoleRuns(state: ChainState, l: List)
    requires state == StateAt(3) && l.Valid() && l.strict && l.items == HOLED
    ensures Runnable(state, ACCOUNT, l) == HOLED && Postponed(state, ACCOUNT, l) == map[]
  {
    hide Runnable, Postponed, Discarded, List.Valid;
    RunnableMeaning(state, ACCOUNT, l, 3);
    RunnableMeaning(state, ACCOUNT, l, 5);
    DemotionConserves(state, ACCOUNT, l);
    AllRuns(l.items, Runnable(state, ACCOUNT, l), Postponed(state, ACCOUNT, l), Discarded(state, ACCOUNT, l));
  }

  lemma AllRuns(items: Items, r: Items, p: Items, d: Items)
    requires items == HOLED && items == r + p + d && r.Keys !! p.Keys && r.Keys !! d.Keys && p.Keys !! d.Keys && 3 in r && 5 in r
    ensures r == HOLED && p == map[]
  {
    assert items.Keys == {3, 5};
    assert items.Keys == r.Keys + p.Keys + d.Keys;
    assert p.Keys == {};
  }

  lemma QueueKeeps(state: ChainState, s: Snap, s': Snap)
    requires Demotes(state, s, s') && Of(s.queue, ACCOUNT, false).items == map[]
    requires Postponed(state, ACCOUNT, Of(s.pending, ACCOUNT, true)) == map[]
    ensures Of(s'.queue, ACCOUNT, false).items == map[]
  {
    hide Runnable, Postponed, Of, Drops, Renumbered;
  }

  lemma HoleSettled(config: Config, state: ChainState, s: Snap, promoted: Book, waiting: Book, nonces: map<Address, nat>, s': Snap)
    requires config == CONFIG && Settled(config, state, s, s.queue.Keys, map[], promoted, waiting, nonces, s')
    requires Of(s.pending, ACCOUNT, true).items == HOLED && Of(s.queue, ACCOUNT, false).items == map[] && s.Consistent()
    ensures Of(s'.pending, ACCOUNT, true).items == HOLED
  {
    hide Promotion, FairlyCut, QueueCut, Of;
    assert AccountOk(ACCOUNT, Of(s.pending, ACCOUNT, true), Of(s.queue, ACCOUNT, false), s.all);
    hide BooksOk;
    PromotedNothing(config, state, s.locals, s, promoted, waiting, nonces);
    assert HOLED.Keys == {3, 5};
    ShareKept(promoted, s'.pending, s.locals, config.accountSlots, config.globalSlots, ACCOUNT);
  }

  lemma PromotedNothing(config: Config, state: ChainState, locals: set<Address>, s: Snap, promoted: Book, waiting: Book, nonces: map<Address, nat>)
    requires Promotion(config, state, locals, s.queue.Keys, s.pending, s.queue, s.nonces, promoted, waiting, nonces)
    requires Of(s.queue, ACCOUNT, false).items == map[] && Of(s.queue, ACCOUNT, false).Valid() && !Of(s.queue, ACCOUNT, false).strict
    ensures Of(promoted, ACCOUNT, true).items == Of(s.pending, ACCOUNT, true).items
  {
    hide ReadyRange, Limited, Without;
    var q := Of(s.queue, ACCOUNT, false);
    assert Payable(config, state, ACCOUNT, q).items == map[];
    hide Payable;
    var (lo, hi) := ReadyRange(Payable(config, state, ACCOUNT, q).items, VirtualNonce(state, s.nonces, ACCOUNT));
    assert Between(map[], lo, hi) == map[];
    assert Of(s.pending, ACCOUNT, true).items + map[] == Of(s.pending, ACCOUNT, true).items;
  }

  lemma NotGapFree(state: ChainState, p: Book, nonces: map<Address, nat>)
    requires state == StateAt(3) && Of(p, ACCOUNT, true).items == HOLED
    ensures !AllGapFree(state, p, nonces)
  {
    var l := Of(p, ACCOUNT, true);
    assert l.items.Keys == {3, 5} && 4 !in l.items;
    assert !l.Contiguous(3);
    assert !GapFree(l, state.Nonce(ACCOUNT), VirtualNonce(state, nonces, ACCOUNT));
  }

  lemma Empty(p: Book, q: Book, state: ChainState, nonces: map<Address, nat>)
    requires p == map[] && q == map[] && AllGapFree(state, p, nonces)
    ensures Of(p, ACCOUNT, true).items == map[] && Of(q, ACCOUNT, false).items == map[]
    ensures VirtualNonce(state, nonces, ACCOUNT) == state.Nonce(ACCOUNT)
  {
    assert GapFree(Of(p, ACCOUNT, true), state.Nonce(ACCOUNT), VirtualNonce(state, nonces, ACCOUNT));
  }

  lemma Few(all: set<Tx>)
    requires all <= {TxAt(5)}
    ensures |all| < 15 && TxAt(3) !in all && CHEAP !in all
  {
    assert all == {} || all == {TxAt(5)};
  }
}
