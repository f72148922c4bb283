/** A run of the pool in which the queue limit drops the younger of two accounts and keeps the older. */
module QueueRuns {
  import opened Sums
  import opened Transactions
  import opened TxLists
  import opened PricedLists
  import opened PoolStates
  import opened PoolLimits
  import opened PoolSteps
  import opened PoolSpecs
  import opened TxPools
  import opened QueueOrders

  /** One transaction may wait in the queue. */
  const CONFIG := Config(10, 16, 4096, 64, 1, false)
  const STATE := ChainState(map[], map[OLDER := 100, YOUNGER := 100], 100)
  const FACTS := Facts(false, false, true, 1)

  const OLDER: Address := 1
  const YOUNGER: Address := 2
  const BEATS: map<Address, nat> := map[OLDER := 1, YOUNGER := 2]

  function TxAt(a: Address, nonce: nat): Tx {
    Tx(10 * a + nonce, a, nonce, 1, 1, 0)
  }

  /** What waits in the queue, account by account. */
  ghost predicate QueueIs(queue: Book, v: map<Address, Items>) {
    forall a: Address :: Of(queue, a, false).items == (if a in v then v[a] else map[])
  }

  ghost predicate Short(pending: Book) {
    forall a: Address :: |Of(pending, a, true).items| <= 1
  }

  /** The pool of the run: small, without local accounts, and with the given queue. */
  ghost predicate Small(pool: TxPool, n: nat, v: map<Address, Items>)
    reads pool, pool.priced
  {
    && pool.AtRest() && pool.config == CONFIG && pool.state == STATE && pool.gasPrice == 1
    && pool.locals == {} && |pool.all| <= n && QueueIs(pool.queue, v)
  }

  /** Adds a transaction that is alone in its account's queue. */
  method AddOne(pool: TxPool, a: Address, nonce: nat, n: nat, ghost v: map<Address, Items>)
    returns (ghost s: Snap, ghost promoted: Book, ghost waiting: Book, ghost nonces: map<Address, nat>)
    requires Small(pool, n, v) && n < 10 && a !in v && (a == OLDER || a == YOUNGER)
    requires nonce !in pool.Pend(a).items && TxAt(a, nonce) !in pool.all
    modifies pool`pending, pool`queue, pool`all, pool`pendingNonces, pool`dropping, pool`locals, pool.priced
    ensures pool.AtRest() && pool.locals == {} && |pool.all| <= n + 1 && pool.all <= old(pool.all) + {TxAt(a, nonce)}
    ensures old(pool.GapFreePending()) ==> pool.GapFreePending()
    ensures Settled(CONFIG, STATE, s, {a}, BEATS, promoted, waiting, nonces, pool.Books())
    ensures s.pending == old(pool.pending) && s.nonces == old(pool.pendingNonces) && s.locals == {}
    ensures QueueIs(s.queue, v[a := map[nonce := TxAt(a, nonce)]]) && !Of(s.queue, a, false).strict
  {
    hide BooksOk, AllGapFree, TxPricedList.Valid, Added, Settled, QueueIs, Of;
    ghost var s0, tx := pool.Books(), TxAt(a, nonce);
    LooseQueue(pool.pending, pool.queue, pool.all, a);
    var r;
    r, s, promoted, waiting, nonces := pool.AddTx(TxAt(a, nonce), false, FACTS, BEATS);
    AddedFresh(s0, a, nonce, r, s, v);
    SettledLess(s, {a}, promoted, waiting, nonces, pool.Books());
    Card(s0.all, tx, pool.all);
  }

  lemma LooseQueue(pending: Book, queue: Book, all: set<Tx>, a: Address)
    requires BooksOk(pending, queue, all)
    ensures !Of(queue, a, false).strict
  {
    assert AccountOk(a, Of(pending, a, true), Of(queue, a, false), all);
  }

  lemma SettledLess(s: Snap, accounts: set<Address>, promoted: Book, waiting: Book, nonces: map<Address, nat>, s': Snap)
    requires Settled(CONFIG, STATE, s, accounts, BEATS, promoted, waiting, nonces, s')
    ensures s'.all <= s.all && s'.locals == s.locals
  {
    hide Promotion, FairlyCut, QueueCut, Shed;
    ShedIsLess(s.all, s'.all, s.pending, s.queue, s'.pending, s'.queue);
  }

  lemma Card(all: set<Tx>, tx: Tx, all': set<Tx>)
    requires all' <= all + {tx}
    ensures |all'| <= |all| + 1
  {
    var most := all + {tx};
    assert all' + (most - all') == most;
    assert |all'| + |most - all'| == |most| <= |all| + 1;
  }

  lemma AddedFresh(s: Snap, a: Address, nonce: nat, r: AddResult, s': Snap, v: map<Address, Items>)
    requires Added(CONFIG, STATE, 1, s, TxAt(a, nonce), false, FACTS, r, s') && (a == OLDER || a == YOUNGER)
    requires TxAt(a, nonce) !in s.all && |s.all| < 10 && s.locals == {} && !Of(s.queue, a, false).strict
    requires nonce !in Of(s.pending, a, true).items && QueueIs(s.queue, v) && a !in v
    ensures r == Accepted(false) && s'.pending == s.pending && s'.nonces == s.nonces && s'.locals == {}
    ensures s'.all <= s.all + {TxAt(a, nonce)} && QueueIs(s'.queue, v[a := map[nonce := TxAt(a, nonce)]]) && !Of(s'.queue, a, false).strict
  {
    assert Check(CONFIG, STATE, 1, s.locals, TxAt(a, nonce), false, FACTS).Fine?;
    hide Added;
    AddedWithRoom(CONFIG, STATE, 1, s, TxAt(a, nonce), false, FACTS, r, s');
    var q := Of(s.queue, a, false);
    assert q.Add(TxAt(a, nonce)).items == map[nonce := TxAt(a, nonce)];
  }

  /** At the virtual nonce the transaction becomes executable, and the queue is as before. */
  method AddNext(pool: TxPool, a: Address, n: nat)
    requires Small(pool, n, map[]) && n < 10 && (a == OLDER || a == YOUNGER) && Short(pool.pending)
    requires pool.Pend(a).items == map[] && TxAt(a, 0) !in pool.all && pool.GapFreePending()
    modifies pool`pending, pool`queue, pool`all, pool`pendingNonces, pool`dropping, pool`locals, pool.priced
    ensures Small(pool, n + 1, map[]) && pool.GapFreePending() && pool.all <= old(pool.all) + {TxAt(a, 0)} && Short(pool.pending)
    ensures pool.Pend(a).items == map[0 := TxAt(a, 0)]
    ensures forall b: Address :: b != a ==> pool.Pend(b) == old(pool.Pend(b))
  {
    hide BooksOk, AllGapFree, TxPricedList.Valid, Settled, QueueIs, Of, Short;
    VirtualZero(pool.state, pool.pending, pool.pendingNonces, a);
    ghost var s, promoted, waiting, nonces := AddOne(pool, a, 0, n, map[]);
    NextSettled(s, a, promoted, waiting, nonces, pool.Books());
  }

  lemma VirtualZero(state: ChainState, pending: Book, nonces: map<Address, nat>, a: Address)
    requires AllGapFree(state, pending, nonces) && state == STATE
    ensures VirtualNonce(state, nonces, a) == |Of(pending, a, true).items|
  {
    assert GapFree(Of(pending, a, true), state.Nonce(a), VirtualNonce(state, nonces, a));
  }

  lemma NextSettled(s: Snap, a: Address, promoted: Book, waiting: Book, nonces: map<Address, nat>, s': Snap)
    requires Settled(CONFIG, STATE, s, {a}, BEATS, promoted, waiting, nonces, s') && (a == OLDER || a == YOUNGER) && s.locals == {}
    requires QueueIs(s.queue, map[a := map[0 := TxAt(a, 0)]]) && !Of(s.queue, a, false).strict
    requires VirtualNonce(STATE, s.nonces, a) == 0 && Of(s.pending, a, true).items == map[] && Short(s.pending)
    ensures QueueIs(s'.queue, map[]) && Of(s'.pending, a, true).items == map[0 := TxAt(a, 0)] && Short(s'.pending)
    ensures forall b: Address :: b != a ==> Of(s'.pending, b, true) == Of(s.pending, b, true)
  {
    hide Promoted, FairlyCut, QueueCut, Of, Shed;
    assert Promoted(CONFIG, STATE, s.locals, a, Of(s.pending, a, true).items, Of(s.queue, a, false), 0,
                    Of(promoted, a, true).items, Of(waiting, a, false).items, VirtualNonce(STATE, nonces, a));
    PromotedAlone(CONFIG, STATE, s.locals, a, TxAt(a, 0), Of(s.pending, a, true).items, Of(s.queue, a, false), 0,
      Of(promoted, a, true).items, Of(waiting, a, false).items, VirtualNonce(STATE, nonces, a));
    assert QueueIs(waiting, map[]);
    StaysEmpty(waiting, s'.queue);
    forall b: Address ensures Of(s'.pending, b, true) == Of(promoted, b, true) {
      assert |map[0 := TxAt(a, 0)]| == 1;
      ShareKept(promoted, s'.pending, s.locals, CONFIG.accountSlots, CONFIG.globalSlots, b);
    }
    assert |map[0 := TxAt(a, 0)]| == 1;
  }

  lemma StaysEmpty(q: Book, q': Book)
    requires QueueCut(q, q', {}, BEATS, 1) && QueueIs(q, map[])
    ensures QueueIs(q', map[])
  {
    hide Total, LatestFirst, OnlyLocals, Of, Trimmed;
    if Total(q) > 1 {
      TrimmedKeepsEmpty(q, q', {});
    }
  }

  /** Beyond the virtual nonce the transaction waits, and nothing becomes executable. */
  lemma FutureSettled(s: Snap, a: Address, promoted: Book, waiting: Book, nonces: map<Address, nat>, s': Snap, v: map<Address, Items>)
    requires Settled(CONFIG, STATE, s, {a}, BEATS, promoted, waiting, nonces, s') && (a == OLDER || a == YOUNGER) && s.locals == {}
    requires QueueIs(s.queue, v) && a in v && v[a] == map[5 := TxAt(a, 5)] && !Of(s.queue, a, false).strict
    requires VirtualNonce(STATE, s.nonces, a) < 5 && Short(s.pending)
    ensures QueueIs(waiting, v) && QueueCut(waiting, s'.queue, {}, BEATS, 1)
    ensures forall b: Address :: Of(s'.pending, b, true).items == Of(s.pending, b, true).items
  {
    hide Promotion, FairlyCut, QueueCut, Of, Shed, QueueIs;
    FuturePromotion(s, a, promoted, waiting, nonces, v);
    forall b: Address ensures Of(s'.pending, b, true).items == Of(s.pending, b, true).items {
      ShareKept(promoted, s'.pending, s.locals, CONFIG.accountSlots, CONFIG.globalSlots, b);
    }
  }

  lemma FuturePromotion(s: Snap, a: Address, promoted: Book, waiting: Book, nonces: map<Address, nat>, v: map<Address, Items>)
    requires Promotion(CONFIG, STATE, {}, {a}, s.pending, s.queue, s.nonces, promoted, waiting, nonces) && (a == OLDER || a == YOUNGER)
    requires QueueIs(s.queue, v) && a in v && v[a] == map[5 := TxAt(a, 5)] && !Of(s.queue, a, false).strict
    requires VirtualNonce(STATE, s.nonces, a) < 5
    ensures QueueIs(waiting, v) && forall b: Address :: Of(promoted, b, true).items == Of(s.pending, b, true).items
  {
    hide Promoted, Of;
    PromotedLater(CONFIG, STATE, {}, a, TxAt(a, 5), Of(s.pending, a, true).items, Of(s.queue, a, false), VirtualNonce(STATE, s.nonces, a),
      Of(promoted, a, true).items, Of(waiting, a, false).items, VirtualNonce(STATE, nonces, a));
  }

  lemma PromotedLater(config: Config, state: ChainState, locals: set<Address>, a: Address, tx: Tx, p: Items, q: List, virtualNonce: nat,
                      p': Items, q': Items, virtualNonce': nat)
    requires Promoted(config, state, locals, a, p, q, virtualNonce, p', q', virtualNonce') && config.accountQueue > 0
    requires !q.strict && q.items == map[tx.nonce := tx] && state.Nonce(a) <= tx.nonce && virtualNonce < tx.nonce
    requires tx.Cost() <= state.Balance(a) && tx.gas <= state.maxGas
    ensures p' == p && q' == q.items && virtualNonce' == virtualNonce
  {
    hide Payable, Lowest, Tx.Cost;
    PayableAlone(config, state, a, tx, q);
    var items := map[tx.nonce := tx];
    assert items.Keys == {tx.nonce};
    assert ReadyRange(items, virtualNonce) == (0, 0);
    assert Between(items, 0, 0) == map[] && Without(items, 0, 0) == items && p + map[] == p;
    assert |items| == 1;
    LowestWhole(items, config.accountQueue);
  }

  lemma LowestWhole(items: Items, k: nat)
    requires |items| <= k
    ensures Lowest(items, k) == items
  {
  }

  /** A pool with one executable transaction in either account. */
  method BothExecutable() returns (pool: TxPool)
    ensures fresh(pool) && fresh(pool.priced) && Small(pool, 2, map[]) && pool.GapFreePending() && Short(pool.pending)
    ensures pool.Pend(OLDER).items == map[0 := TxAt(OLDER, 0)] && pool.Pend(YOUNGER).items == map[0 := TxAt(YOUNGER, 0)]
    ensures pool.all <= {TxAt(OLDER, 0), TxAt(YOUNGER, 0)}
  {
    hide BooksOk, AllGapFree, TxPricedList.Valid, QueueIs, Of, Short;
    pool := new TxPool(CONFIG, STATE, 1);
    NothingYet(pool.pending, pool.queue);
    AddNext(pool, OLDER, 0);
    AddNext(pool, YOUNGER, 1);
  }

  lemma NothingYet(p: Book, q: Book)
    requires p == map[] && q == map[]
    ensures QueueIs(q, map[]) && Short(p) && forall a: Address :: Of(p, a, true).items == map[]
  {
  }

  /**
  Both accounts have an executable transaction, the younger one's being the later, when each queues
  another. The queue is one over its limit: the younger queue goes and the older one stays.
  */
  method YoungestFirst() returns (pool: TxPool, ghost waiting: Book)
    ensures pool.AtRest() && pool.locals == {} && Total(waiting) == 2 && RemoteTotal(waiting, {}) == 2
    ensures QueueCut(waiting, pool.queue, {}, BEATS, 1) && Beat(BEATS, OLDER) < Beat(BEATS, YOUNGER)
    ensures pool.Que(OLDER).items == map[5 := TxAt(OLDER, 5)] && pool.Que(YOUNGER).items == map[]
    ensures !OldestFirst(waiting, pool.queue, {}, BEATS)
  {
    hide BooksOk, AllGapFree, TxPricedList.Valid, QueueIs, Of, Short, Settled, Total, RemoteTotal, QueueCut, OldestFirst;
    pool := OlderWaits();
    VirtualZero(pool.state, pool.pending, pool.pendingNonces, YOUNGER);
    ghost var s, promoted, nonces;
    s, promoted, waiting, nonces := AddOne(pool, YOUNGER, 5, 3, OLDER_WAITS);
    FutureSettled(s, YOUNGER, promoted, waiting, nonces, pool.Books(), BOTH_WAIT);
    YoungerGoes(waiting, pool.queue);
  }

  const OLDER_WAITS: map<Address, Items> := map[OLDER := map[5 := TxAt(OLDER, 5)]]
  const BOTH_WAIT: map<Address, Items> := OLDER_WAITS[YOUNGER := map[5 := TxAt(YOUNGER, 5)]]

  /** The older account's second transaction waits. */
  method OlderWaits() returns (pool: TxPool)
    ensures fresh(pool) && fresh(pool.priced) && Small(pool, 3, OLDER_WAITS) && pool.GapFreePending() && Short(pool.pending)
    ensures 5 !in pool.Pend(YOUNGER).items && |pool.Pend(YOUNGER).items| == 1 && TxAt(YOUNGER, 5) !in pool.all
  {
    hide BooksOk, AllGapFree, TxPricedList.Valid, QueueIs, Of, Short, Settled, Total, QueueCut;
    pool := BothExecutable();
    assert |map[0 := TxAt(OLDER, 0)]| == 1 && |map[0 := TxAt(YOUNGER, 0)]| == 1;
    VirtualZero(pool.state, pool.pending, pool.pendingNonces, OLDER);
    ghost var before := pool.pending;
    ghost var s, promoted, waiting, nonces := AddOne(pool, OLDER, 5, 2, map[]);
    FutureSettled(s, OLDER, promoted, waiting, nonces, pool.Books(), OLDER_WAITS);
    OneFits(waiting, pool.queue);
    StillShort(before, pool.pending);
  }

  lemma StillShort(p: Book, p': Book)
    requires Short(p) && forall b: Address :: Of(p', b, true).items == Of(p, b, true).items
    ensures Short(p')
  {
    hide Of;
  }

  /** The total of a queue of single transactions. */
  lemma Totals(queue: Book)
    ensures QueueIs(queue, OLDER_WAITS) ==> Total(queue) == 1
    ensures QueueIs(queue, BOTH_WAIT) ==> Total(queue) == 2
    ensures QueueIs(queue, map[]) ==> Total(queue) == 0
    ensures RemoteTotal(queue, {}) == Total(queue)
  {
    hide Sum;
    assert |map[5 := TxAt(OLDER, 5)]| == 1 && |map[5 := TxAt(YOUNGER, 5)]| == 1;
    forall a: Address ensures Get(Lengths(queue), a) == |Of(queue, a, false).items| { LengthOf(queue, a); }
    SumPut(map[], OLDER, 1);
    SumPut(map[OLDER := 1], YOUNGER, 1);
    assert Sum(map[]) == 0 by { SumOfNothing(); }
    if QueueIs(queue, OLDER_WAITS) {
      SumEqual(Lengths(queue), map[][OLDER := 1]);
    }
    if QueueIs(queue, BOTH_WAIT) {
      SumEqual(Lengths(queue), map[OLDER := 1][YOUNGER := 1]);
    }
    if QueueIs(queue, map[]) {
      SumEqual(Lengths(queue), map[]);
    }
    AllRemote(queue);
  }

  lemma SumOfNothing()
    ensures Sum(map[]) == 0
  {
  }

  lemma AllRemote(queue: Book)
    ensures RemoteTotal(queue, {}) == Total(queue)
  {
    assert queue.Keys - {} == queue.Keys;
  }

  lemma OneFits(waiting: Book, queue: Book)
    requires QueueIs(waiting, OLDER_WAITS) && QueueCut(waiting, queue, {}, BEATS, 1)
    ensures QueueIs(queue, OLDER_WAITS)
  {
    hide QueueIs;
    Totals(waiting);
  }

  lemma YoungerGoes(waiting: Book, queue: Book)
    requires QueueIs(waiting, BOTH_WAIT) && QueueCut(waiting, queue, {}, BEATS, 1)
    ensures Total(waiting) == 2 && RemoteTotal(waiting, {}) == 2
    ensures Of(queue, OLDER, false).items == map[5 := TxAt(OLDER, 5)] && Of(queue, YOUNGER, false).items == map[]
    ensures !OldestFirst(waiting, queue, {}, BEATS)
  {
    hide Total, RemoteTotal, Of, Trimmed, LatestFirst, QueueIs, OnlyLocals;
    Totals(waiting);
    Totals(queue);
    assert Total(queue) != 0 && Total(queue) != 2 by { NotOnlyLocal(waiting, queue); }
    OneStays(waiting, queue);
  }

  lemma NotOnlyLocal(waiting: Book, queue: Book)
    requires QueueCut(waiting, queue, {}, BEATS, 1) && Total(waiting) == 2
    ensures Total(queue) == 1
  {
    hide Total, Trimmed, LatestFirst;
    if OnlyLocals(queue, {}) {
      assert QueueIs(queue, map[]);
      Totals(queue);
    }
  }

  lemma OneStays(waiting: Book, queue: Book)
    requires QueueIs(waiting, BOTH_WAIT) && Trimmed(waiting, queue, {}) && LatestFirst(waiting, queue, {}, BEATS)
    requires !QueueIs(queue, map[]) && !QueueIs(queue, BOTH_WAIT)
    ensures Of(queue, OLDER, false).items == map[5 := TxAt(OLDER, 5)] && Of(queue, YOUNGER, false).items == map[]
    ensures !OldestFirst(waiting, queue, {}, BEATS)
  {
    hide Of, Trimmed;
    TrimmedKeepsEmpty(waiting, queue, {});
    Single(waiting, queue, OLDER);
    Single(waiting, queue, YOUNGER);
    hide LatestFirst;
    if Lost(waiting, queue, OLDER) {
      OlderLast(waiting, queue);
    }
    assert Lost(waiting, queue, YOUNGER);
  }

  lemma OlderLast(waiting: Book, queue: Book)
    requires LatestFirst(waiting, queue, {}, BEATS) && Lost(waiting, queue, OLDER)
    ensures Of(queue, YOUNGER, false).items == map[]
  {
    hide Of;
  }

  /** A single queued transaction goes or stays. */
  lemma Single(waiting: Book, queue: Book, a: Address)
    requires Trimmed(waiting, queue, {}) && Of(waiting, a, false).items == map[5 := TxAt(a, 5)]
    ensures Of(queue, a, false).items == map[] || Of(queue, a, false).items == Of(waiting, a, false).items
  {
    hide Of;
    var items := Of(queue, a, false).items;
    assert items.Keys <= {5};
    if 5 in items {
      assert items == map[5 := TxAt(a, 5)];
    } else {
      assert items.Keys == {};
    }
  }
}
