/** What promotion means for one account, said of single nonces: which move, which stay queued, and which are dropped. */
module PoolPromotions {
  import opened Transactions
  import opened TxLists
  import opened PoolStates
  import opened PoolLimits
  import opened PoolDemotions
  import opened PoolSteps

  /** A queued nonce that promotion considers: not used yet, and payable unless gas is free. */
  predicate Good(config: Config, state: ChainState, a: Address, q: Items, n: nat) {
    n in q && n >= state.Nonce(a) && (config.isBitmed || CanPay(state, q[n]))
  }

  /** All nonces from `f` to `n` are good, none below is, and the run starts no later than the virtual nonce. */
  ghost predicate RunTo(config: Config, state: ChainState, a: Address, q: Items, virtualNonce: nat, f: nat, n: nat) {
    && f <= virtualNonce && f <= n && (forall m :: f <= m <= n ==> Good(config, state, a, q, m))
    && (forall m :: Good(config, state, a, q, m) ==> f <= m)
  }

  /** The nonce becomes executable. */
  ghost predicate Moves(config: Config, state: ChainState, a: Address, q: Items, virtualNonce: nat, n: nat) {
    exists f: nat :: RunTo(config, state, a, q, virtualNonce, f, n)
  }

  /** Exactly the good nonces pass the clean-up of the queue. */
  lemma PayableIs(config: Config, state: ChainState, a: Address, q: List, all: set<Tx>)
    requires Owned(q, a, all) && !q.strict
    ensures var ok := Payable(config, state, a, q).items;
      && (forall n :: n in ok <==> Good(config, state, a, q.items, n)) && (forall n :: n in ok ==> ok[n] == q.items[n])
  {
    hide Tx.Cost;
  }

  /** The range that becomes executable, said of single nonces. */
  lemma ReadyIs(config: Config, state: ChainState, a: Address, q: Items, ok: Items, virtualNonce: nat)
    requires forall n :: n in ok <==> Good(config, state, a, q, n)
    ensures var (lo, hi) := ReadyRange(ok, virtualNonce);
      forall n: nat :: lo <= n < hi <==> Moves(config, state, a, q, virtualNonce, n)
  {
    hide Good, MinOf, RunEnd;
    var (lo, hi) := ReadyRange(ok, virtualNonce);
    if ok != map[] {
      assert MinOf(ok.Keys) in ok;
      assert forall m :: m in ok ==> MinOf(ok.Keys) <= m;
    }
    forall n: nat ensures lo <= n < hi <==> Moves(config, state, a, q, virtualNonce, n) {
      if lo <= n < hi {
        assert RunTo(config, state, a, q, virtualNonce, lo, n);
      }
      if Moves(config, state, a, q, virtualNonce, n) {
        var f: nat :| RunTo(config, state, a, q, virtualNonce, f, n);
        assert f in ok && n in ok;
        assert f == MinOf(ok.Keys) == lo;
        assert forall m :: f <= m <= n ==> m in ok;
      }
    }
  }

  /** The executable list gains exactly the nonces that move, and a virtual nonce that changes is right behind the last of them. */
  ghost predicate MovedUp(config: Config, state: ChainState, a: Address, p: Items, q: Items, virtualNonce: nat, p': Items, virtualNonce': nat) {
    && (forall n: nat :: n in p' <==> n in p || Moves(config, state, a, q, virtualNonce, n))
    && (forall n: nat :: n in p' ==> if n in p then p'[n] == p[n] else n in q && p'[n] == q[n])
    && (forall n: nat :: Moves(config, state, a, q, virtualNonce, n) ==> n < virtualNonce')
    && (virtualNonce' == virtualNonce || (virtualNonce' > 0 && Moves(config, state, a, q, virtualNonce, virtualNonce' - 1)))
  }

  /**
  What stays queued is good and did not move; a remote account keeps at most its limit; and what is
  good but neither moved nor stayed belongs to a remote account whose limit is used up by lower nonces.
  A local account thus loses nothing good.
  */
  ghost predicate QueueLimited(config: Config, state: ChainState, locals: set<Address>, a: Address, q: Items, virtualNonce: nat, q': Items) {
    && (forall n: nat :: n in q' ==>
          n in q && q'[n] == q[n] && Good(config, state, a, q, n) && !Moves(config, state, a, q, virtualNonce, n))
    && (a !in locals ==> |q'| <= config.accountQueue)
    && (forall n: nat :: Good(config, state, a, q, n) && !Moves(config, state, a, q, virtualNonce, n) && n !in q' ==>
          a !in locals && |q'| == config.accountQueue && forall m :: m in q' ==> m < n)
  }

  lemma PromotedMoves(config: Config, state: ChainState, locals: set<Address>, a: Address, all: set<Tx>,
                      p: Items, q: List, virtualNonce: nat, p': Items, q': Items, virtualNonce': nat)
    requires Owned(q, a, all) && !q.strict && p.Keys !! q.items.Keys
    requires Promoted(config, state, locals, a, p, q, virtualNonce, p', q', virtualNonce')
    ensures MovedUp(config, state, a, p, q.items, virtualNonce, p', virtualNonce')
  {
    hide Payable, ReadyRange, Limited, Without, Good, Moves, Owned;
    var ok := Payable(config, state, a, q).items;
    PayableIs(config, state, a, q, all);
    ReadyIs(config, state, a, q.items, ok, virtualNonce);
    assert forall n :: n in ok ==> n in q.items by { GoodQueued(config, state, a, q.items); }
  }

  lemma NothingToDrop(items: Items, k: nat)
    ensures |items| <= k ==> Lowest(items, k) == items
  {
  }

  lemma GoodQueued(config: Config, state: ChainState, a: Address, q: Items)
    ensures forall n :: Good(config, state, a, q, n) ==> n in q
  {
  }

  lemma PromotedKeeps(config: Config, state: ChainState, locals: set<Address>, a: Address, all: set<Tx>,
                      p: Items, q: List, virtualNonce: nat, p': Items, q': Items, virtualNonce': nat)
    requires Owned(q, a, all) && !q.strict
    requires Promoted(config, state, locals, a, p, q, virtualNonce, p', q', virtualNonce')
    ensures QueueLimited(config, state, locals, a, q.items, virtualNonce, q')
  {
    hide Payable, ReadyRange, Good, Moves, Owned, Lowest;
    var ok := Payable(config, state, a, q).items;
    PayableIs(config, state, a, q, all);
    ReadyIs(config, state, a, q.items, ok, virtualNonce);
    GoodQueued(config, state, a, q.items);
    var (lo, hi) := ReadyRange(ok, virtualNonce);
    assert forall n :: n in Without(ok, lo, hi) <==> n in ok && !(lo <= n < hi);
    NothingToDrop(Without(ok, lo, hi), config.accountQueue);
  }

  lemma AccountIsOk(pending: Book, queue: Book, all: set<Tx>, a: Address)
    requires BooksOk(pending, queue, all)
    ensures AccountOk(a, Of(pending, a, true), Of(queue, a, false), all)
  {
  }

  /** One account of consistent books. */
  lemma AccountMeaning(config: Config, state: ChainState, locals: set<Address>, a: Address, all: set<Tx>, l: List, q: List,
                       virtualNonce: nat, p': Items, q': Items, virtualNonce': nat)
    requires AccountOk(a, l, q, all) && Promoted(config, state, locals, a, l.items, q, virtualNonce, p', q', virtualNonce')
    ensures MovedUp(config, state, a, l.items, q.items, virtualNonce, p', virtualNonce')
    ensures QueueLimited(config, state, locals, a, q.items, virtualNonce, q')
  {
    hide Promoted, MovedUp, QueueLimited, Owned;
    PromotedMoves(config, state, locals, a, all, l.items, q, virtualNonce, p', q', virtualNonce');
    PromotedKeeps(config, state, locals, a, all, l.items, q, virtualNonce, p', q', virtualNonce');
  }

  /** Every promoted account has moved up what can run and keeps no more than its limit. */
  lemma PromotionMeaning(config: Config, state: ChainState, locals: set<Address>, accounts: set<Address>, all: set<Tx>,
                         p: Book, q: Book, nonces: map<Address, nat>, p': Book, q': Book, nonces': map<Address, nat>)
    requires BooksOk(p, q, all) && Promotion(config, state, locals, accounts, p, q, nonces, p', q', nonces')
    ensures forall a: Address :: a in accounts ==>
      && MovedUp(config, state, a, Of(p, a, true).items, Of(q, a, false).items, VirtualNonce(state, nonces, a),
                 Of(p', a, true).items, VirtualNonce(state, nonces', a))
      && QueueLimited(config, state, locals, a, Of(q, a, false).items, VirtualNonce(state, nonces, a), Of(q', a, false).items)
  {
    hide Promoted, MovedUp, QueueLimited, AccountOk, Of, VirtualNonce;
    forall a: Address | a in accounts
      ensures MovedUp(config, state, a, Of(p, a, true).items, Of(q, a, false).items, VirtualNonce(state, nonces, a),
                      Of(p', a, true).items, VirtualNonce(state, nonces', a))
      ensures QueueLimited(config, state, locals, a, Of(q, a, false).items, VirtualNonce(state, nonces, a), Of(q', a, false).items)
    {
      assert AccountOk(a, Of(p, a, true), Of(q, a, false), all);
      AccountMeaning(config, state, locals, a, all, Of(p, a, true), Of(q, a, false), VirtualNonce(state, nonces, a),
                     Of(p', a, true).items, Of(q', a, false).items, VirtualNonce(state, nonces', a));
    }
  }

  /** The global limit leaves no queue longer than it was. */
  lemma CutNoLonger(queue: Book, queue': Book, locals: set<Address>, beats: map<Address, nat>, limit: nat)
    requires QueueCut(queue, queue', locals, beats, limit)
    ensures forall a: Address :: |Of(queue', a, false).items| <= |Of(queue, a, false).items|
  {
    hide Total, LatestFirst, OnePart, OnlyLocals, Of;
  }
}
