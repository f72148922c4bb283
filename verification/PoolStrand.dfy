/** Removing the lowest of several executable transactions leaves the others in the pool but in no list. */
module PoolStrands {
  import opened Transactions
  import opened TxLists
  import opened PoolStates
  import opened PoolLimits
  import opened PoolDemotions
  import opened PoolSteps
  import opened PricedLists
  import opened PoolSpecs
  import opened TxPools
  import opened PoolHoles

  /** The transaction is in a list of its sender. */
  ghost predicate Home(s: Snap, t: Tx) {
    var p, q := Of(s.pending, t.sender, true).items, Of(s.queue, t.sender, false).items;
    (t.nonce in p && p[t.nonce] == t) || (t.nonce in q && q[t.nonce] == t)
  }

  /** Every pooled transaction is in a list. */
  ghost predicate Accounted(s: Snap) {
    forall t :: t in s.all ==> Home(s, t)
  }

  /** The transaction is the lowest executable one of its sender. */
  ghost predicate Lowermost(s: Snap, tx: Tx) {
    var p := Of(s.pending, tx.sender, true).items;
    tx.nonce in p && forall n :: n in p ==> tx.nonce <= n
  }

  /** A later executable transaction of the same sender. */
  ghost predicate Follows(s: Snap, tx: Tx, t: Tx) {
    t.sender == tx.sender && t.nonce > tx.nonce && t.nonce in Of(s.pending, t.sender, true).items
  }

  /** A removal leaves the others in their lists, except those that follow the lowest executable one. */
  lemma RemovedHome(state: ChainState, s: Snap, tx: Tx, s': Snap, t: Tx)
    requires Removed(state, s, tx, s') && s.Consistent() && tx in s.all && t != tx && Home(s, t) && Home(s, tx)
    ensures Home(s', t) <==> !(Lowermost(s, tx) && Follows(s, tx, t))
  {
    var a := tx.sender;
    var p, q := Of(s.pending, a, true), Of(s.queue, a, false);
    assert AccountOk(a, p, q, s.all);
    if t.sender != a {
      OtherAccount(state, s, tx, s', t.sender);
    } else if tx.nonce in p.items {
      PendingCut(state, s, tx, s');
    } else {
      QueueCutAt(state, s, tx, s');
    }
  }

  lemma OtherAccount(state: ChainState, s: Snap, tx: Tx, s': Snap, b: Address)
    requires Removed(state, s, tx, s') && b != tx.sender
    ensures Of(s'.pending, b, true) == Of(s.pending, b, true) && Of(s'.queue, b, false) == Of(s.queue, b, false)
  {
  }

  lemma PendingCut(state: ChainState, s: Snap, tx: Tx, s': Snap)
    requires Removed(state, s, tx, s') && tx in s.all && Of(s.pending, tx.sender, true).strict
    requires tx.nonce in Of(s.pending, tx.sender, true).items
    ensures var p, q := Of(s.pending, tx.sender, true).items, Of(s.queue, tx.sender, false).items;
      && Of(s'.pending, tx.sender, true).items == Below(p, tx.nonce)
      && Of(s'.queue, tx.sender, false).items == q + (if Below(p, tx.nonce) == map[] then map[] else From(p, tx.nonce + 1))
      && (Below(p, tx.nonce) == map[] <==> Lowermost(s, tx))
  {
    var p := Of(s.pending, tx.sender, true).items;
    if Below(p, tx.nonce) == map[] {
      forall n | n in p ensures tx.nonce <= n {
        assert n !in Below(p, tx.nonce);
      }
    }
  }

  lemma QueueCutAt(state: ChainState, s: Snap, tx: Tx, s': Snap)
    requires Removed(state, s, tx, s') && tx in s.all && !Of(s.queue, tx.sender, false).strict
    requires tx.nonce !in Of(s.pending, tx.sender, true).items
    ensures Of(s'.pending, tx.sender, true) == Of(s.pending, tx.sender, true)
    ensures Of(s'.queue, tx.sender, false).items == Of(s.queue, tx.sender, false).items - {tx.nonce}
  {
  }

  /** Every pooled transaction stays in a list if and only if the removed one was not the lowest of several executable ones. */
  lemma RemovedAccounts(state: ChainState, s: Snap, tx: Tx, s': Snap)
    requires Removed(state, s, tx, s') && s.Consistent() && Accounted(s)
    ensures Accounted(s') <==> !(tx in s.all && Lowermost(s, tx) && |Of(s.pending, tx.sender, true).items| > 1)
  {
    hide Removed, Home, Lowermost, Of;
    if tx in s.all {
      assert s'.all == s.all - {tx} by { RemovedAll(state, s, tx, s'); }
      forall t | t in s'.all ensures Home(s', t) <==> !(Lowermost(s, tx) && Follows(s, tx, t)) {
        RemovedHome(state, s, tx, s', t);
      }
      if Lowermost(s, tx) {
        Followers(s, tx);
      }
    } else {
      assert s' == s by { RemovedAll(state, s, tx, s'); }
    }
  }

  lemma RemovedAll(state: ChainState, s: Snap, tx: Tx, s': Snap)
    requires Removed(state, s, tx, s')
    ensures if tx in s.all then s'.all == s.all - {tx} else s' == s
  {
  }

  /** The lowest of several executable ones is followed by a pooled one, and a lone one by none. */
  lemma Followers(s: Snap, tx: Tx)
    requires s.Consistent() && tx in s.all && Lowermost(s, tx)
    ensures (exists t :: t in s.all - {tx} && Follows(s, tx, t)) <==> |Of(s.pending, tx.sender, true).items| > 1
  {
    var p := Of(s.pending, tx.sender, true).items;
    assert AccountOk(tx.sender, Of(s.pending, tx.sender, true), Of(s.queue, tx.sender, false), s.all);
    if |p| > 1 {
      assert p.Keys != {tx.nonce};
      var n :| n in p && n != tx.nonce;
      assert Follows(s, tx, p[n]);
    } else if t :| t in s.all - {tx} && Follows(s, tx, t) {
      TwoMembers(p, tx.nonce, t.nonce);
      assert false;
    }
  }

  lemma TwoMembers(p: Items, n: nat, m: nat)
    requires n in p && m in p && n != m
    ensures |p| > 1
  {
    assert {n, m} <= p.Keys;
    assert |p.Keys - {n, m}| == |p.Keys| - 2;
  }

  lemma HomeInBooks(s: Snap, t: Tx)
    ensures Home(s, t) <==> InBooks(s.pending, s.queue, t)
  {
  }

  /** Promotion and the limits drop from the pool exactly what they drop from the lists. */
  lemma SettledAccounts(config: Config, state: ChainState, s: Snap, accounts: set<Address>, beats: map<Address, nat>,
                        promoted: Book, waiting: Book, nonces: map<Address, nat>, s': Snap)
    requires Settled(config, state, s, accounts, beats, promoted, waiting, nonces, s') && Accounted(s)
    ensures Accounted(s')
  {
    hide Home, InBooks, Promotion, FairlyCut, QueueCut, Total;
    forall t | t in s'.all ensures Home(s', t) {
      HomeInBooks(s, t);
      HomeInBooks(s', t);
    }
  }

  /** Demotion moves what it does not drop. */
  lemma DemotesAccounts(state: ChainState, s: Snap, s': Snap)
    requires Demotes(state, s, s') && s.Consistent() && Accounted(s)
    ensures Accounted(s')
  {
    hide Home, Drops, Demotion, Renumbered;
    forall t | t in s'.all ensures Home(s', t) {
      DemotedHome(state, s, s', t);
    }
  }

  lemma DemotedHome(state: ChainState, s: Snap, s': Snap, t: Tx)
    requires Demotion(state, s.pending.Keys, s.pending, s.queue, s'.pending, s'.queue) && s.Consistent()
    requires Home(s, t) && !Drops(state, s.pending, t)
    ensures Home(s', t)
  {
    hide Runnable, Postponed, Discarded, List.Valid;
    var a := t.sender;
    var l := Of(s.pending, a, true);
    assert AccountOk(a, l, Of(s.queue, a, false), s.all);
    DemotionConserves(state, a, l);
  }

  /** Putting a transaction into place replaces in the pool what it replaces in a list. */
  lemma PutAccounts(config: Config, s: Snap, tx: Tx, local: bool, r: AddResult, s': Snap)
    requires PutInto(config, s, tx, local, r, s') && s.Consistent() && Accounted(s) && tx !in s.all
    ensures Accounted(s')
  {
    hide Placed, Rival, Home, BooksOk;
    if r.Accepted? && r.replaced {
      var u := Ousted(s.all, s'.all, tx);
      forall t | t in s'.all ensures Home(s', t) {
        PlacedHome(config, s, tx, r, s', t, u);
      }
    } else {
      forall t | t in s'.all ensures Home(s', t) {
        PlacedHome(config, s, tx, r, s', t, tx);
      }
    }
  }

  /** One transaction made way for another. */
  lemma Ousted(all: set<Tx>, all': set<Tx>, tx: Tx) returns (u: Tx)
    requires tx !in all && tx in all' && all' <= all + {tx} && |all'| == |all|
    ensures u in all && u !in all'
  {
    if all <= all' {
      Grown(all, all', tx);
    }
    u :| u in all && u !in all';
  }

  lemma Grown(all: set<Tx>, all': set<Tx>, tx: Tx)
    requires all <= all' && tx in all' && tx !in all
    ensures |all'| > |all|
  {
    assert |all' - all| + |all| == |all'| by { assert all' == (all' - all) + all; }
    assert tx in all' - all;
  }

  lemma PlacedHome(config: Config, s: Snap, tx: Tx, r: AddResult, s': Snap, t: Tx, u: Tx)
    requires Placed(config, s, tx, r, s') && s.Consistent() && (t == tx ==> r.Accepted?) && (t != tx ==> Home(s, t) && t != u)
    requires r.Accepted? && r.replaced ==> Home(s, u) && Rival(u, tx)
    ensures Home(s', t)
  {
    assert AccountOk(tx.sender, Of(s.pending, tx.sender, true), Of(s.queue, tx.sender, false), s.all);
  }

  /** With room, an addition keeps every pooled transaction in a list. */
  lemma AddedAccounts(config: Config, state: ChainState, gasPrice: nat, s: Snap, tx: Tx, local: bool, facts: Facts, r: AddResult, s': Snap)
    requires Added(config, state, gasPrice, s, tx, local, facts, r, s') && |s.all| < config.Capacity() && s.Consistent() && Accounted(s)
    ensures Accounted(s')
  {
    hide Home, BooksOk, Placed;
    if tx !in s.all && Check(config, state, gasPrice, s.locals, tx, local, facts).Fine? {
      AddedWithRoom(config, state, gasPrice, s, tx, local, facts, r, s');
      hide Added;
      PutAccounts(config, s, tx, local, r, s');
    }
  }

  lemma {:induction false} BatchAccounts(config: Config, state: ChainState, gasPrice: nat, txs: seq<(Tx, Facts)>, local: bool,
                                         rs: seq<AddResult>, snaps: seq<Snap>, i: nat)
    requires Batch(config, state, gasPrice, txs, local, rs, snaps) && i <= |txs|
    requires |snaps[0].all| + |txs| <= config.Capacity() && Accounted(snaps[0])
    ensures Accounted(snaps[i]) && |snaps[i].all| <= |snaps[0].all| + i
  {
    hide Added, Accounted, BooksOk;
    if i > 0 {
      BatchAccounts(config, state, gasPrice, txs, local, rs, snaps, i - 1);
      AddedAccounts(config, state, gasPrice, snaps[i - 1], txs[i - 1].0, local, txs[i - 1].1, rs[i - 1], snaps[i]);
      AddedGrows(config, state, gasPrice, snaps[i - 1], txs[i - 1].0, local, txs[i - 1].1, rs[i - 1], snaps[i]);
    }
  }

  lemma BatchAddedAccounts(config: Config, state: ChainState, gasPrice: nat, txs: seq<(Tx, Facts)>, local: bool, beats: map<Address, nat>,
                           s: Snap, t: BatchTrace, s': Snap)
    requires BatchAdded(config, state, gasPrice, txs, local, beats, s, t, s') && |s.all| + |txs| <= config.Capacity() && Accounted(s)
    ensures Accounted(s')
  {
    hide Added, Accounted, BooksOk, Settled;
    BatchAccounts(config, state, gasPrice, txs, local, t.results, t.snaps, |txs|);
    var dirty, last := Dirty(txs, t.results), t.snaps[|txs|];
    if dirty != {} {
      SettledAccounts(config, state, last, dirty, beats, t.promoted, t.waiting, t.nonces, s');
    }
  }

  lemma ResetAccounts(config: Config, state: ChainState, gasPrice: nat, s: Snap, reinject: seq<(Tx, Facts)>, beats: map<Address, nat>,
                      t: Trace, s': Snap)
    requires WasReset(config, state, gasPrice, s, reinject, beats, t, s') && |s.all| + |reinject| <= config.Capacity() && Accounted(s)
    ensures Accounted(s')
  {
    hide Home, BatchAdded, BooksOk, Settled, Demotes;
    var start := s.(nonces := map[]);
    assert Accounted(start) by { forall t | t in start.all ensures Home(start, t) { SameHome(s, start, t); } }
    hide Accounted;
    BatchAddedAccounts(config, state, gasPrice, reinject, false, beats, start, t.batch, t.injected);
    DemotesAccounts(state, t.injected, t.demoted);
    SettledAccounts(config, state, t.demoted, t.demoted.queue.Keys, beats, t.promoted, t.waiting, t.nonces, s');
  }

  lemma SameHome(s: Snap, s': Snap, t: Tx)
    requires s'.pending == s.pending && s'.queue == s.queue
    ensures Home(s', t) <==> Home(s, t)
  {
  }

  /** No transaction of the pool has to give way, and none that goes strands another. */
  ghost predicate Gentle(config: Config, v: View, op: Op) {
    match op
    case AddOne(_, _, _) => |v.books.all| < config.Capacity()
    case AddMany(txs, _) => |v.books.all| + |txs| <= config.Capacity()
    case Remove(tx) => !(tx in v.books.all && Lowermost(v.books, tx) && |Of(v.books.pending, tx.sender, true).items| > 1)
    case Reprice(price) => forall t :: t in v.books.all ==> t.sender in v.books.locals || t.price >= price
    case NewState(_, reinject) => |v.books.all| + |reinject| <= config.Capacity()
  }

  /** A gentle operation keeps each pooled transaction in a list of its sender, and so does a run of them. */
  lemma StepAccounts(config: Config, v: View, op: Op, v': View)
    requires CarriedOut(config, v, op, v') && Gentle(config, v, op) && v.books.Consistent() && Accounted(v.books)
    ensures Accounted(v'.books)
  {
    hide Accounted, BooksOk, Added, Settled, BatchAdded, WasReset, Removed, Removals, Lowermost;
    match op
    case AddOne(tx, local, facts) =>
      var beats, r, s, promoted, waiting, nonces :| AddedOne(config, v, tx, local, facts, beats, r, s, promoted, waiting, nonces, v'.books);
      AddedAccounts(config, v.state, v.gasPrice, v.books, tx, local, facts, r, s);
      if r.Accepted? && !r.replaced {
        SettledAccounts(config, v.state, s, {tx.sender}, beats, promoted, waiting, nonces, v'.books);
      }
    case AddMany(txs, local) =>
      var beats, t :| BatchAdded(config, v.state, v.gasPrice, txs, local, beats, v.books, t, v'.books);
      BatchAddedAccounts(config, v.state, v.gasPrice, txs, local, beats, v.books, t, v'.books);
    case Remove(tx) =>
      RemovedAccounts(v.state, v.books, tx, v'.books);
    case Reprice(price) =>
      var drop, snaps :| Repriced(v, price, drop, snaps, v'.books);
      NothingDropped(v, price, drop, snaps, v'.books);
    case NewState(state, reinject) =>
      var beats, t :| WasReset(config, state, v.gasPrice, v.books, reinject, beats, t, v'.books);
      ResetAccounts(config, state, v.gasPrice, v.books, reinject, beats, t, v'.books);
  }

  lemma {:induction false} RunAccounts(config: Config, ops: seq<Op>, views: seq<View>, k: nat)
    requires |views| == |ops| + 1 && k <= |ops| && Accounted(views[0].books)
    requires forall i :: 0 <= i < |ops| ==>
      CarriedOut(config, views[i], ops[i], views[i + 1]) && Gentle(config, views[i], ops[i]) && views[i].books.Consistent()
    ensures Accounted(views[k].books)
  {
    hide CarriedOut, Gentle, Accounted, BooksOk;
    if k > 0 {
      RunAccounts(config, ops, views, k - 1);
      StepAccounts(config, views[k - 1], ops[k - 1], views[k]);
    }
  }

  /** Without a transaction below the new price nothing is removed. */
  lemma NothingDropped(v: View, price: nat, drop: seq<Tx>, snaps: seq<Snap>, books: Snap)
    requires Repriced(v, price, drop, snaps, books) && books.all == v.books.all
    ensures books == v.books
  {
    hide Removed;
    var i := 0;
    while i < |drop|
      invariant 0 <= i <= |drop| && snaps[i] == v.books
    {
      RemovalsAll(v.state, drop, snaps, |drop|);
      assert drop[..|drop|] == drop;
      assert drop[i] in Txs(drop);
      assert drop[i] !in v.books.all;
      assert Removed(v.state, snaps[i], drop[i], snaps[i + 1]);
      RemovedAll(v.state, snaps[i], drop[i], snaps[i + 1]);
      i := i + 1;
    }
  }

  /** Transactions 5 and 6 are executable, and 5 is removed: 6 is still pooled, but in no list. */
  method Stranded() returns (pool: TxPool)
    ensures pool.AtRest() && TxAt(6) in pool.all && !Home(pool.Books(), TxAt(6))
  {
    hide BooksOk, AllGapFree, TxPricedList.Valid, Of, Removed;
    pool := new TxPool(CONFIG, StateAt(5), 1);
    Empty(pool.pending, pool.queue, pool.state, pool.pendingNonces);
    AddNext(pool, 5);
    NextNonce(pool);
    AddNext(pool, 6);
    BothPooled(pool);
    ghost var s := pool.Books();
    pool.RemoveTx(TxAt(5));
    SixStranded(pool.state, s, pool.Books());
  }

  lemma NextNonce(pool: TxPool)
    requires pool.GapFreePending() && pool.state == StateAt(5) && pool.Pend(ACCOUNT).items == map[5 := TxAt(5)] && pool.all <= {TxAt(5)}
    ensures pool.GetNonce(ACCOUNT) == 6 && TxAt(6) !in pool.all && |pool.all| < 16
  {
    assert GapFree(pool.Pend(ACCOUNT), 5, pool.GetNonce(ACCOUNT));
    Few(pool.all);
  }

  lemma BothPooled(pool: TxPool)
    requires pool.AtRest() && pool.Pend(ACCOUNT).items == map[5 := TxAt(5), 6 := TxAt(6)]
    ensures TxAt(5) in pool.all && TxAt(6) in pool.all && pool.Pend(ACCOUNT).strict
  {
    var p := pool.Pend(ACCOUNT);
    assert AccountOk(ACCOUNT, p, pool.Que(ACCOUNT), pool.all);
    assert p.items[5] == TxAt(5) && p.items[6] == TxAt(6);
  }

  lemma SixStranded(state: ChainState, s: Snap, s': Snap)
    requires Removed(state, s, TxAt(5), s') && TxAt(5) in s.all && TxAt(6) in s.all && Of(s.pending, ACCOUNT, true).strict
    requires Of(s.pending, ACCOUNT, true).items == map[5 := TxAt(5), 6 := TxAt(6)] && Of(s.queue, ACCOUNT, false).items == map[]
    ensures TxAt(6) in s'.all && !Home(s', TxAt(6))
  {
    PendingCut(state, s, TxAt(5), s');
    hide Removed;
    RemovedAll(state, s, TxAt(5), s');
    assert Below(Of(s.pending, ACCOUNT, true).items, 5) == map[];
  }
}
