/**
The transaction pool: executable and future transactions by account, the set of all
pooled transactions, virtual nonces and the price heap.
*/
module TxPools {
  import opened Transactions
  import opened TxLists
  import opened PricedLists
  import opened PoolStates
  import opened PoolLimits
  import opened PoolDemotions
  import opened PoolSteps
  import opened PoolPromotions
  import opened PoolSpecs
  import opened PoolReturns

  /** An operation on the pool from outside. */
  datatype Op =
    | AddOne(tx: Tx, local: bool, facts: Facts)
    | AddMany(txs: seq<(Tx, Facts)>, local: bool)
    | Remove(tx: Tx)
    | Reprice(price: nat)
    | NewState(state: ChainState, reinject: seq<(Tx, Facts)>)
  {
    predicate Remote() {
      match this
      case AddOne(_, local, _) => !local
      case AddMany(_, local) => !local
      case _ => true
    }
  }

  /** The pool at one moment. */
  datatype View = View(state: ChainState, gasPrice: nat, books: Snap)

  /** An addition and the promotion that a newly queued nonce sets off. */
  ghost predicate AddedOne(config: Config, v: View, tx: Tx, local: bool, facts: Facts, beats: map<Address, nat>,
                           r: AddResult, s: Snap, promoted: Book, waiting: Book, nonces: map<Address, nat>, books: Snap)
  {
    && Added(config, v.state, v.gasPrice, v.books, tx, local, facts, r, s)
    && if r.Accepted? && !r.replaced then Settled(config, v.state, s, {tx.sender}, beats, promoted, waiting, nonces, books)
       else books == s
  }

  /** The transactions below a new minimum price go one by one, unless they are local. */
  ghost predicate Repriced(v: View, price: nat, drop: seq<Tx>, snaps: seq<Snap>, books: Snap) {
    && Removals(v.state, drop, snaps) && snaps[0] == v.books && snaps[|drop|] == books
    && forall t :: t in books.all <==> t in v.books.all && (t.sender in v.books.locals || t.price >= price)
  }

  /** What an operation does to the pool. */
  ghost predicate CarriedOut(config: Config, v: View, op: Op, v': View) {
    match op
    case AddOne(tx, local, facts) =>
      && v' == v.(books := v'.books)
      && exists beats, r, s, promoted, waiting, nonces ::
           AddedOne(config, v, tx, local, facts, beats, r, s, promoted, waiting, nonces, v'.books)
    case AddMany(txs, local) =>
      v' == v.(books := v'.books) && exists beats, t :: BatchAdded(config, v.state, v.gasPrice, txs, local, beats, v.books, t, v'.books)
    case Remove(tx) => v' == v.(books := v'.books) && Removed(v.state, v.books, tx, v'.books)
    case Reprice(price) =>
      v' == View(v.state, price, v'.books) && exists drop, snaps :: Repriced(v, price, drop, snaps, v'.books)
    case NewState(state, reinject) =>
      && v' == View(state, v.gasPrice, v'.books)
      && exists beats, t :: WasReset(config, state, v.gasPrice, v.books, reinject, beats, t, v'.books)
  }

  lemma OneCarriedOut(config: Config, v: View, op: Op, beats: map<Address, nat>, r: AddResult, s: Snap,
                      promoted: Book, waiting: Book, nonces: map<Address, nat>, v': View)
    requires op.AddOne? && v' == v.(books := v'.books) && Added(config, v.state, v.gasPrice, v.books, op.tx, op.local, op.facts, r, s)
    requires if r.Accepted? && !r.replaced then Settled(config, v.state, s, {op.tx.sender}, beats, promoted, waiting, nonces, v'.books)
             else v'.books == s
    ensures CarriedOut(config, v, op, v')
  {
    assert AddedOne(config, v, op.tx, op.local, op.facts, beats, r, s, promoted, waiting, nonces, v'.books);
  }

  lemma BatchCarriedOut(config: Config, v: View, op: Op, beats: map<Address, nat>, t: BatchTrace, v': View)
    requires op.AddMany? && v' == v.(books := v'.books)
    requires BatchAdded(config, v.state, v.gasPrice, op.txs, op.local, beats, v.books, t, v'.books)
    ensures CarriedOut(config, v, op, v')
  {
  }

  lemma RepriceCarriedOut(config: Config, v: View, op: Op, drop: seq<Tx>, snaps: seq<Snap>, v': View)
    requires op.Reprice? && v' == View(v.state, op.price, v'.books)
    requires Removals(v.state, drop, snaps) && snaps[0] == v.books && snaps[|drop|] == v'.books
    requires forall t :: t in v'.books.all <==> t in v.books.all && (t.sender in v.books.locals || t.price >= op.price)
    ensures CarriedOut(config, v, op, v')
  {
    assert Repriced(v, op.price, drop, snaps, v'.books);
  }

  lemma ResetCarriedOut(config: Config, v: View, op: Op, beats: map<Address, nat>, t: Trace, v': View)
    requires op.NewState? && v' == View(op.state, v.gasPrice, v'.books)
    requires WasReset(config, op.state, v.gasPrice, v.books, op.reinject, beats, t, v'.books)
    ensures CarriedOut(config, v, op, v')
  {
  }

  class TxPool {
    const config: Config
    const priced: TxPricedList

    var state: ChainState
    var pendingNonces: map<Address, nat>
    var gasPrice: nat
    var locals: set<Address>

    var pending: Book
    var queue: Book
    var all: set<Tx>

    /** Transactions taken off the price heap that are about to be removed. */
    ghost var dropping: set<Tx>

    ghost predicate Valid()
      reads this, priced
    {
      BooksOk(pending, queue, all) && HeapValid()
    }

    ghost predicate HeapValid()
      reads this, priced
    {
      priced.Valid() && priced.Covers(all - dropping)
    }

    /** Valid between two pool operations. */
    ghost predicate AtRest()
      reads this, priced
    {
      Valid() && dropping == {}
    }

    ghost predicate GapFreePending()
      reads this
    {
      AllGapFree(state, pending, pendingNonces)
    }

    function Pend(a: Address): List
      reads this
    {
      Of(pending, a, true)
    }

    function Que(a: Address): List
      reads this
    {
      Of(queue, a, false)
    }

    function GetNonce(a: Address): nat
      reads this
    {
      VirtualNonce(state, pendingNonces, a)
    }

    constructor (config: Config, state: ChainState, gasPrice: nat)
      ensures AtRest() && fresh(priced) && GapFreePending()
      ensures pending == map[] && queue == map[] && all == {} && locals == {}
      ensures this.config == config && this.state == state && this.gasPrice == gasPrice
    {
      this.config, this.state, this.gasPrice := config, state, gasPrice;
      priced := new TxPricedList();
      pendingNonces, locals := map[], {};
      pending, queue, all, dropping := map[], map[], {}, {};
    }

    /** Forgets one transaction that no list holds any more. */
    method Forget(tx: Tx)
      requires HeapValid()
      modifies this`all, priced
      ensures all == old(all) - {tx} && HeapValid()
    {
      all := all - {tx};
      ghost var before := priced.items;
      priced.Removed(all);
      StillCovered(all, dropping, before, priced.items);
    }

    /** Forgets a batch of transactions that left their list. */
    method ForgetAll(dropped: Items)
      requires HeapValid()
      modifies this`all, priced
      ensures all == old(all) - dropped.Values && HeapValid()
    {
      var todo := dropped.Keys;
      ghost var gone: set<Tx> := {};
      while todo != {}
        invariant todo <= dropped.Keys && gone == (set n | n in dropped && n !in todo :: dropped[n])
        invariant all == old(all) - gone && HeapValid()
        decreases |todo|
      {
        var n :| n in todo;
        Forget(dropped[n]);
        gone := gone + {dropped[n]};
        todo := todo - {n};
      }
      assert gone == dropped.Values;
    }

    /** Puts a transaction into the future queue unless its nonce is taken by a better one. */
    method EnqueueTx(tx: Tx) returns (ok: bool, replaced: bool)
      requires Valid() && tx.nonce !in Pend(tx.sender).items
      modifies this`queue, this`all, priced
      ensures Valid() && ok == old(Que(tx.sender)).Accepts(tx, config.priceBump)
      ensures queue == if ok then old(queue)[tx.sender := old(Que(tx.sender)).Add(tx)] else old(queue)
      ensures replaced == (ok && tx.nonce in old(Que(tx.sender)).items)
      ensures all == if !ok then old(all)
                     else if replaced then old(all) - {old(Que(tx.sender)).items[tx.nonce]} + {tx}
                     else old(all) + {tx}
      ensures tx.nonce in old(Que(tx.sender)).items ==>
        var t := old(Que(tx.sender)).items[tx.nonce]; t.sender == tx.sender && t.nonce == tx.nonce && t in old(all)
    {
      hide BooksOk, TxPricedList.Valid, List.Valid;
      ghost var queue0, all0 := queue, all;
      var from := tx.sender;
      var list := Que(from);
      EnqueueOk(pending, queue0, all0, tx);
      if !list.Accepts(tx, config.priceBump) {
        return false, false;
      }
      ok := true;
      queue := queue[from := list.Add(tx)];
      replaced := tx.nonce in list.items;
      if replaced {
        Forget(list.items[tx.nonce]);
      }
      all := all + {tx};
      ghost var before := priced.items;
      priced.Put(tx);
      MoreCovered(all - dropping, before, priced.items, tx);
    }

    /** Moves a batch of transactions, whose nonces neither list of the account holds, to the queue. */
    method EnqueueAll(a: Address, txs: Items)
      requires Valid() && Filed(txs) && forall n :: n in txs ==> txs[n].sender == a && txs[n] in all
      requires txs.Keys !! Pend(a).items.Keys && txs.Keys !! Que(a).items.Keys
      modifies this`queue, this`all, priced
      ensures Valid() && all == old(all)
      ensures Que(a).items == old(Que(a)).items + txs && OnlyAt(old(queue), queue, a, false)
    {
      hide BooksOk, TxPricedList.Valid, OnlyAt, Of, TakenOver;
      ghost var queue0, items0 := queue, Que(a).items;
      var todo := txs.Keys;
      TakenNone(items0, txs);
      SameOnly(queue, a);
      while todo != {}
        invariant todo <= txs.Keys && Valid() && all == old(all)
        invariant Que(a).items == TakenOver(items0, txs, todo) && OnlyAt(queue0, queue, a, false)
        decreases |todo|
      {
        var n :| n in todo;
        TakenOne(items0, txs, todo, n);
        ghost var queue1 := queue;
        EnqueueNew(a, txs[n]);
        OnlyAtTwice(queue0, queue1, queue, a, false);
        todo := todo - {n};
      }
    }

    /** Queues a pooled transaction whose nonce is free; it is always accepted. */
    method EnqueueNew(a: Address, tx: Tx)
      requires Valid() && tx.sender == a && tx in all && tx.nonce !in Pend(a).items && tx.nonce !in Que(a).items
      modifies this`queue, this`all, priced
      ensures Valid() && all == old(all)
      ensures Que(a).items == old(Que(a)).items[tx.nonce := tx] && OnlyAt(old(queue), queue, a, false)
    {
      hide BooksOk, TxPricedList.Valid, List.Valid;
      var ok, replaced := EnqueueTx(tx);
      assert all == old(all);
    }

    /** Adds a transaction to the executable list unless its nonce is taken by a better one. */
    method PromoteTx(a: Address, tx: Tx)
      requires Valid() && tx.sender == a && tx.nonce !in Que(a).items
      requires tx.nonce in Pend(a).items ==> tx != Pend(a).items[tx.nonce]
      modifies this`pending, this`all, this`pendingNonces, priced
      ensures Valid()
      ensures var list, ok := old(Pend(a)), old(Pend(a)).Accepts(tx, config.priceBump);
        && pending == (if ok then old(pending)[a := list.Add(tx)] else old(pending))
        && pendingNonces == (if ok then old(pendingNonces)[a := tx.nonce + 1] else old(pendingNonces))
        && all == if !ok then old(all) - {tx}
                  else if tx.nonce in list.items then old(all) - {list.items[tx.nonce]} + {tx}
                  else old(all) + {tx}
    {
      hide BooksOk, TxPricedList.Valid, List.Valid;
      ghost var pending0, all0 := pending, all;
      var list := Pend(a);
      if !list.Accepts(tx, config.priceBump) {
        RejectOk(pending, queue, all, tx, config.priceBump);
        Forget(tx);
        return;
      }
      pending := pending[a := list.Add(tx)];
      PromoteOk(pending0, queue, all0, tx);
      if tx.nonce in list.items {
        Forget(list.items[tx.nonce]);
      }
      if tx !in all {
        all := all + {tx};
        ghost var before := priced.items;
        priced.Put(tx);
        MoreCovered(all - dropping, before, priced.items, tx);
      }
      assert all == (if tx.nonce in list.items then all0 - {list.items[tx.nonce]} + {tx} else all0 + {tx});
      pendingNonces := pendingNonces[a := tx.nonce + 1];
    }

    /**
    Removes a pooled transaction. If its nonce is executable, the list is cut there and what
    followed goes back to the queue (unless nothing is left in front), and the virtual nonce
    falls back; otherwise its nonce is taken out of the queue.
    */
    method RemoveTx(tx: Tx)
      requires Valid()
      modifies this`pending, this`queue, this`all, this`pendingNonces, priced
      ensures Valid() && (old(GapFreePending()) ==> GapFreePending())
      ensures Removed(state, old(Books()), tx, Books())
    {
      hide BooksOk, AllGapFree, TxPricedList.Valid, List.Valid, List.Remove, OnlyAt;
      if tx !in all {
        return;
      }
      if tx.nonce in Pend(tx.sender).items {
        CutPending(tx);
      } else {
        TakeQueued(tx);
      }
    }

    method CutPending(tx: Tx)
      requires Valid() && tx.nonce in Pend(tx.sender).items
      modifies this`pending, this`queue, this`all, this`pendingNonces, priced
      ensures Valid() && all == old(all) - {tx}
      ensures old(GapFreePending()) ==> GapFreePending()
      ensures var a, l := tx.sender, old(Pend(tx.sender));
        && pending == With(old(pending), a, l.Remove(tx.nonce)) && OnlyAt(old(queue), queue, a, false)
        && Que(a).items == old(Que(a)).items + Requeued(l, tx.nonce)
        && pendingNonces == (if old(GetNonce(a)) > tx.nonce then old(pendingNonces)[a := tx.nonce] else old(pendingNonces))
    {
      hide BooksOk, AllGapFree, TxPricedList.Valid, List.Valid, List.Remove, OnlyAt, From;
      ghost var pending0, nonces0 := pending, pendingNonces;
      var a, nonce := tx.sender, tx.nonce;
      var list := Pend(a);
      RemoveFromPending(pending, queue, all, tx);
      SameBook(queue, a, false);
      Forget(tx);
      var rest := list.Remove(nonce);
      pending := With(pending, a, rest);
      if rest.items != map[] {
        EnqueueAll(a, From(list.items, nonce + 1));
      }
      if GetNonce(a) > nonce {
        pendingNonces := pendingNonces[a := nonce];
      }
      if AllGapFree(state, pending0, nonces0) {
        RemoveKeepsGapFree(state, pending0, nonces0, tx);
      }
    }

    method TakeQueued(tx: Tx)
      requires Valid() && tx.nonce !in Pend(tx.sender).items
      modifies this`queue, this`all, priced
      ensures Valid() && all == old(all) - {tx}
      ensures queue == With(old(queue), tx.sender, old(Que(tx.sender)).Remove(tx.nonce))
    {
      hide BooksOk, TxPricedList.Valid, List.Valid, List.Remove;
      var a := tx.sender;
      RemoveFromQueue(pending, queue, all, tx);
      Forget(tx);
      if a in queue {
        queue := With(queue, a, queue[a].Remove(tx.nonce));
      }
    }

    /** Removes what has been taken off the price heap. */
    method RemoveDropped(drop: seq<Tx>) returns (ghost snaps: seq<Snap>)
      requires Valid() && dropping == Txs(drop)
      modifies this`pending, this`queue, this`all, this`pendingNonces, this`dropping, priced
      ensures AtRest() && all == old(all) - Txs(drop)
      ensures Removals(state, drop, snaps) && snaps[0] == old(Books()) && snaps[|drop|] == Books()
      ensures old(GapFreePending()) ==> GapFreePending()
    {
      hide BooksOk, AllGapFree, TxPricedList.Valid, Removed;
      snaps := [Books()];
      for i := 0 to |drop|
        invariant Valid() && dropping == old(dropping)
        invariant Removals(state, drop[..i], snaps) && snaps[0] == old(Books()) && snaps[i] == Books()
        invariant old(GapFreePending()) ==> GapFreePending()
      {
        RemoveTx(drop[i]);
        RemovalsGrow(state, drop, snaps, i, Books());
        snaps := snaps + [Books()];
      }
      assert drop[..|drop|] == drop;
      RemovalsAll(state, drop, snaps, |drop|);
      assert forall t :: t in all ==> t in all - dropping;
      dropping := {};
    }

    /** Raises or lowers the price floor and drops every remote transaction below it. */
    method SetGasPrice(price: nat) returns (ghost drop: seq<Tx>, ghost snaps: seq<Snap>)
      requires AtRest()
      modifies this`gasPrice, this`pending, this`queue, this`all, this`pendingNonces, this`dropping, priced
      ensures AtRest() && gasPrice == price
      ensures forall t :: t in all <==> t in old(all) && (t.sender in locals || t.price >= price)
      ensures Removals(state, drop, snaps) && snaps[0] == old(Books()) && snaps[|drop|] == Books()
      ensures old(GapFreePending()) ==> GapFreePending()
    {
      hide BooksOk, AllGapFree, TxPricedList.Valid, Removals;
      gasPrice := price;
      assert all - {} == all;
      var cheap := priced.Cap(price, locals, all);
      drop := cheap;
      dropping := Txs(cheap);
      snaps := RemoveDropped(cheap);
    }

    /** Shrinks an account's queue to `l` and forgets what it lost. */
    method TrimQueue(a: Address, l: List)
      requires Valid() && a in queue && !l.strict && l.Valid() && SubMap(l.items, queue[a].items)
      modifies this`queue, this`all, priced
      ensures Valid() && queue == old(queue)[a := l]
      ensures Shed(old(all), all, pending, old(queue), pending, queue)
    {
      hide BooksOk, TxPricedList.Valid, List.Valid, SubMap, PoolShrank, Shed;
      TrimOk(pending, queue, all, a, l);
      TrimShrinks(pending, queue, all, a, l);
      QueueShrankSheds(all, all - (queue[a].items - l.items.Keys).Values, pending, queue, queue[a := l]);
      var dropped := queue[a].items - l.items.Keys;
      queue := queue[a := l];
      ForgetAll(dropped);
    }

    /** Promotes a contiguous batch of transactions that has left the queue. */
    method PromoteRun(a: Address, run: Items, lo: nat, hi: nat)
      requires Valid() && Filed(run) && lo <= hi && forall n :: n in run <==> lo <= n < hi
      requires forall n :: n in run ==> run[n].sender == a && run[n] in all
      requires run.Keys !! Pend(a).items.Keys && run.Keys !! Que(a).items.Keys
      modifies this`pending, this`all, this`pendingNonces, priced
      ensures Valid() && all == old(all) && OnlyAt(old(pending), pending, a, true)
      ensures Pend(a).items == old(Pend(a)).items + run
      ensures pendingNonces == if lo < hi then old(pendingNonces)[a := hi] else old(pendingNonces)
      ensures old(GapFreePending()) && (lo < hi ==> old(GetNonce(a)) == lo) ==> GapFreePending()
    {
      hide BooksOk, AllGapFree, TxPricedList.Valid, List.Valid;
      hide OnlyAt, Below;
      SameBook(pending, a, true);
      ghost var pending0, items0 := pending, Pend(a).items;
      ghost var tight := GapFreePending() && (lo < hi ==> GetNonce(a) == lo);
      RunNone(items0, run, lo);
      for n := lo to hi
        invariant Valid() && all == old(all) && OnlyAt(pending0, pending, a, true)
        invariant Pend(a).items == items0 + Below(run, n)
        invariant pendingNonces == if lo < n then old(pendingNonces)[a := n] else old(pendingNonces)
        invariant tight ==> GapFreePending() && (lo < hi ==> GetNonce(a) == n)
      {
        RunOne(items0, run, n);
        if tight {
          AppendKeepsGapFree(state, pending, pendingNonces, run[n]);
        }
        PutOnlyAt(pending0, pending, a, Pend(a).Add(run[n]), true);
        PromoteFresh(a, run[n]);
      }
      BelowAll(run, hi);
    }

    /** Promotion into a free nonce always succeeds. */
    method PromoteFresh(a: Address, tx: Tx)
      requires Valid() && tx.sender == a && tx in all && tx.nonce !in Que(a).items && tx.nonce !in Pend(a).items
      modifies this`pending, this`all, this`pendingNonces, priced
      ensures Valid() && all == old(all)
      ensures pending == old(pending)[a := old(Pend(a)).Add(tx)] && pendingNonces == old(pendingNonces)[a := tx.nonce + 1]
    {
      hide BooksOk, TxPricedList.Valid, List.Valid;
      PromoteTx(a, tx);
      assert all == old(all);
    }

    /** Promotes whatever has become executable in one account's queue, after dropping what is stale or unpayable. */
    method PromoteAccount(a: Address)
      requires Valid()
      modifies this`pending, this`queue, this`all, this`pendingNonces, priced
      ensures Valid() && OnlyAt(old(pending), pending, a, true) && OnlyAt(old(queue), queue, a, false)
      ensures Shed(old(all), all, old(pending), old(queue), pending, queue)
      ensures var q := Payable(config, state, a, old(Que(a)));
        var (lo, hi) := ReadyRange(q.items, old(GetNonce(a)));
        && Pend(a).items == old(Pend(a)).items + Between(q.items, lo, hi)
        && pendingNonces == (if lo < hi then old(pendingNonces)[a := hi] else old(pendingNonces))
        && Que(a).items == Limited(config, locals, a, Without(q.items, lo, hi))
        && (old(GapFreePending()) ==> GapFreePending() && (lo < hi ==> lo == old(GetNonce(a))))
      ensures MovedUp(config, state, a, old(Pend(a)).items, old(Que(a)).items, old(GetNonce(a)), Pend(a).items, GetNonce(a))
      ensures QueueLimited(config, state, locals, a, old(Que(a)).items, old(GetNonce(a)), Que(a).items)
    {
      hide BooksOk, AllGapFree, TxPricedList.Valid, List.Valid, Payable, Limited, ReadyRange, Without, Between, Shed, MovedUp, QueueLimited;
      assert AccountOk(a, Pend(a), Que(a), all) by { AccountIsOk(pending, queue, all, a); }
      SameBook(pending, a, true);
      SameBook(queue, a, false);
      ShedNothing(all, pending, queue);
      if a !in queue {
        NothingQueued(config, state, locals, a, GetNonce(a), Pend(a).items);
        AccountMeaning(config, state, locals, a, all, Pend(a), Que(a), GetNonce(a), Pend(a).items, Que(a).items, GetNonce(a));
        return;
      }
      CleanQueue(a);
      ghost var s1 := Books();
      PromoteReady(a);
      ghost var s2 := Books();
      ShedTwice(old(all), s1.all, s2.all, old(pending), old(queue), s1.pending, s1.queue, s2.pending, s2.queue);
      LimitQueue(a);
      ShedTwice(old(all), s2.all, all, old(pending), old(queue), s2.pending, s2.queue, pending, queue);
      AccountMeaning(config, state, locals, a, old(all), old(Pend(a)), old(Que(a)), old(GetNonce(a)), Pend(a).items, Que(a).items, GetNonce(a));
    }

    /** Drops old nonces and, unless gas is free, unpayable transactions from a queue. */
    method CleanQueue(a: Address)
      requires Valid() && a in queue
      modifies this`queue, this`all, priced
      ensures Valid() && queue == old(queue)[a := Payable(config, state, a, old(queue)[a])]
      ensures Shed(old(all), all, pending, old(queue), pending, queue)
      ensures forall n :: n in queue[a].items ==> n >= state.Nonce(a)
    {
      hide BooksOk, TxPricedList.Valid, List.Valid, List.Forward, List.Filter, Shed;
      QueueLoose(pending, queue, all, a);
      PayableFrom(config, state, a, queue[a]);
      ForwardOk(pending, queue, all, a, state.Nonce(a));
      TrimQueue(a, queue[a].Forward(state.Nonce(a)));
      if !config.isBitmed {
        ghost var s1 := Books();
        FilterOk(pending, queue, all, a, state.Balance(a), state.maxGas);
        TrimQueue(a, queue[a].Filter(state.Balance(a), state.maxGas));
        ShedTwice(old(all), s1.all, all, pending, old(queue), pending, s1.queue, pending, queue);
      }
    }

    /** Moves the ready run of a queue to the executable list. */
    method PromoteReady(a: Address)
      requires Valid() && a in queue && forall n :: n in queue[a].items ==> n >= state.Nonce(a)
      modifies this`pending, this`queue, this`all, this`pendingNonces, priced
      ensures Valid() && OnlyAt(old(pending), pending, a, true) && Shed(old(all), all, old(pending), old(queue), pending, queue)
      ensures var q := old(queue)[a];
        var (lo, hi) := ReadyRange(q.items, old(GetNonce(a)));
        && queue == old(queue)[a := q.(items := Without(q.items, lo, hi))]
        && Pend(a).items == old(Pend(a)).items + Between(q.items, lo, hi)
        && pendingNonces == (if lo < hi then old(pendingNonces)[a := hi] else old(pendingNonces))
        && (old(GapFreePending()) ==> GapFreePending() && (lo < hi ==> lo == old(GetNonce(a))))
    {
      hide BooksOk, AllGapFree, TxPricedList.Valid, List.Valid, ReadyRange, Without, Between, OnlyAt, Shed;
      var (lo, hi) := ReadyRange(queue[a].items, GetNonce(a));
      var run := Between(queue[a].items, lo, hi);
      DetachOk(pending, queue, all, a, lo, hi);
      if AllGapFree(state, pending, pendingNonces) {
        RunStartsAtVirtual(state, pending, pendingNonces, queue, all, a);
      }
      queue := queue[a := queue[a].(items := Without(queue[a].items, lo, hi))];
      PromoteRun(a, run, lo, hi);
      RunSheds(all, old(pending), old(queue), pending, a, lo, hi);
    }

    /** Applies the per-account queue limit and deletes a queue that became empty. */
    method LimitQueue(a: Address)
      requires Valid() && a in queue
      modifies this`queue, this`all, priced
      ensures Valid() && OnlyAt(old(queue), queue, a, false) && Shed(old(all), all, pending, old(queue), pending, queue)
      ensures Que(a).items == Limited(config, locals, a, old(queue)[a].items)
    {
      hide BooksOk, TxPricedList.Valid, List.Valid, Lowest, Shed;
      ShedNothing(all, pending, queue);
      if a !in locals {
        CapOk(pending, queue, all, a, config.accountQueue);
        TrimQueue(a, queue[a].Cap(config.accountQueue));
      }
      ghost var s1 := Books();
      QueueTidied(pending, queue, all, a);
      TidySheds(all, pending, queue, a);
      queue := With(queue, a, queue[a]);
      ShedTwice(old(all), s1.all, all, pending, old(queue), pending, s1.queue, pending, queue);
    }

    /** Promotion account by account, in any order. */
    method PromoteEach(accounts: set<Address>)
      requires Valid()
      modifies this`pending, this`queue, this`all, this`pendingNonces, priced
      ensures Valid() && (old(GapFreePending()) ==> GapFreePending())
      ensures Shed(old(all), all, old(pending), old(queue), pending, queue)
      ensures Promotion(config, state, locals, accounts, old(pending), old(queue), old(pendingNonces), pending, queue, pendingNonces)
    {
      hide BooksOk, AllGapFree, TxPricedList.Valid, Promotion, Shed;
      ShedNothing(all, pending, queue);
      ghost var done: set<Address> := {};
      var todo := accounts;
      PromotionNone(config, state, locals, pending, queue, pendingNonces);
      while todo != {}
        invariant Valid() && (old(GapFreePending()) ==> GapFreePending())
        invariant Shed(old(all), all, old(pending), old(queue), pending, queue)
        invariant done !! todo && done + todo == accounts
        invariant Promotion(config, state, locals, done, old(pending), old(queue), old(pendingNonces), pending, queue, pendingNonces)
        decreases |todo|
      {
        var a :| a in todo;
        PromoteNext(a, done, old(pending), old(queue), old(pendingNonces), old(all));
        todo, done := todo - {a}, done + {a};
      }
    }

    method PromoteNext(a: Address, ghost done: set<Address>, ghost p0: Book, ghost q0: Book, ghost nonces0: map<Address, nat>,
                       ghost all0: set<Tx>)
      requires Valid() && a !in done && Shed(all0, all, p0, q0, pending, queue)
      requires Promotion(config, state, locals, done, p0, q0, nonces0, pending, queue, pendingNonces)
      modifies this`pending, this`queue, this`all, this`pendingNonces, priced
      ensures Valid() && (old(GapFreePending()) ==> GapFreePending()) && Shed(all0, all, p0, q0, pending, queue)
      ensures Promotion(config, state, locals, done + {a}, p0, q0, nonces0, pending, queue, pendingNonces)
    {
      hide BooksOk, AllGapFree, TxPricedList.Valid, Promotion, Payable, Limited, ReadyRange, Without, Between, OnlyAt, Of, Shed;
      PromoteAccount(a);
      ShedTwice(all0, old(all), all, p0, q0, old(pending), old(queue), pending, queue);
      PromotionStep(config, state, locals, done, p0, q0, nonces0, old(pending), old(queue), old(pendingNonces), pending, queue, pendingNonces, a);
    }

    function Books(): Snap
      reads this
    {
      Snap(pending, queue, all, pendingNonces, locals)
    }

    /**
    Validates a transaction, makes room for it if the pool is full, and puts it in place of a
    pending one of the same nonce or else into the queue.
    */
    method Add(tx: Tx, local: bool, facts: Facts) returns (r: AddResult)
      requires AtRest()
      modifies this`pending, this`queue, this`all, this`pendingNonces, this`dropping, this`locals, priced
      ensures AtRest() && (old(GapFreePending()) ==> GapFreePending())
      ensures Added(config, state, gasPrice, old(Books()), tx, local, facts, r, Books())
    {
      hide BooksOk, AllGapFree, TxPricedList.Valid, Check, Refuses, Roomed, PutInto;
      if tx in all {
        return Rejected(KnownTx);
      }
      var v := Check(config, state, gasPrice, locals, tx, local, facts);
      if v.Bad? {
        return Rejected(v.error);
      }
      var room;
      ghost var drop, snaps;
      room, drop, snaps := MakeRoom(tx);
      if !room {
        return Rejected(Underpriced);
      }
      r := Place(tx, local);
      assert AddedVia(config, state, old(Books()), drop, snaps, tx, local, r, Books());
    }

    /** Puts a transaction in place of a pending one of the same nonce, or else into the queue. */
    method Place(tx: Tx, local: bool) returns (r: AddResult)
      requires AtRest() && tx !in all
      modifies this`pending, this`queue, this`all, this`locals, priced
      ensures AtRest() && (old(GapFreePending()) ==> GapFreePending())
      ensures PutInto(config, old(Books()), tx, local, r, Books())
    {
      hide BooksOk, AllGapFree, TxPricedList.Valid, List.Valid, List.Accepts, List.Add, Of, PutInto;
      if tx.nonce in Pend(tx.sender).items {
        var inserted := ReplacePending(tx);
        ReplacedInto(config, old(Books()), tx, local, inserted, Books());
        return if inserted then Accepted(true) else Rejected(ReplaceUnderpriced);
      }
      var ok, replaced := EnqueueTx(tx);
      if ok && local {
        locals := locals + {tx.sender};
      }
      EnqueuedInto(config, old(Books()), tx, local, ok, Books());
      r := if ok then Accepted(replaced) else Rejected(ReplaceUnderpriced);
    }

    /** In a full pool, refuses a transaction no better than the cheapest, or else drops the cheapest. */
    method MakeRoom(tx: Tx) returns (room: bool, ghost drop: seq<Tx>, ghost snaps: seq<Snap>)
      requires AtRest() && tx !in all
      modifies this`pending, this`queue, this`all, this`pendingNonces, this`dropping, priced
      ensures AtRest() && (old(GapFreePending()) ==> GapFreePending()) && tx !in all
      ensures room == !Refuses(config, old(Books()), tx)
      ensures if room then Roomed(config, state, old(Books()), drop, snaps) && snaps[|drop|] == Books() else Books() == old(Books())
    {
      hide BooksOk, AllGapFree, TxPricedList.Valid, Removals, Roomed;
      drop, snaps := [], [Books()];
      if |all| < config.Capacity() {
        RoomAlready(config, state, Books());
        return true, drop, snaps;
      }
      assert all - {} == all;
      if !config.isBitmed {
        var under := priced.Underpriced(tx, locals, all);
        if under {
          return false, drop, snaps;
        }
      }
      var cheap := priced.Discard(|all| + 1 - config.Capacity(), locals, all);
      assert forall t :: t in all ==> t in priced.items || t in cheap;
      ghost var items := priced.items;
      drop := cheap;
      dropping := Txs(cheap);
      snaps := RemoveDropped(cheap);
      RoomByDropping(config, state, old(Books()), items, drop, snaps);
      room := true;
    }

    /** Replaces a pending transaction of the same nonce if it is outbid. */
    method ReplacePending(tx: Tx) returns (inserted: bool)
      requires Valid() && tx !in all && tx.nonce in Pend(tx.sender).items
      modifies this`pending, this`all, priced
      ensures Valid() && inserted == old(Pend(tx.sender)).Accepts(tx, config.priceBump)
      ensures pending == if inserted then old(pending)[tx.sender := old(Pend(tx.sender)).Add(tx)] else old(pending)
      ensures all == if inserted then old(all) - {old(Pend(tx.sender)).items[tx.nonce]} + {tx} else old(all)
      ensures old(GapFreePending()) ==> GapFreePending()
      ensures var t := old(Pend(tx.sender)).items[tx.nonce]; t.sender == tx.sender && t.nonce == tx.nonce && t in old(all)
    {
      hide BooksOk, AllGapFree, TxPricedList.Valid, List.Valid;
      var a, list := tx.sender, Pend(tx.sender);
      ReplaceOk(state, pending, queue, all, pendingNonces, tx);
      if !list.Accepts(tx, config.priceBump) {
        return false;
      }
      pending := pending[a := list.Add(tx)];
      Forget(list.items[tx.nonce]);
      all := all + {tx};
      ghost var before := priced.items;
      priced.Put(tx);
      MoreCovered(all - dropping, before, priced.items, tx);
      inserted := true;
    }

    /** Drops the highest executable transaction of an account and lowers its virtual nonce to it. */
    method DropHighest(a: Address)
      requires Valid() && a in pending && pending[a].items != map[]
      modifies this`pending, this`all, this`pendingNonces, priced
      ensures Valid() && (old(GapFreePending()) ==> GapFreePending())
      ensures var l := old(pending)[a];
        pending == old(pending)[a := l.Cap(|l.items| - 1)] && PoolShrank(old(all), all, old(pending), pending)
    {
      hide BooksOk, AllGapFree, TxPricedList.Valid, List.Valid, Lowest, PoolShrank;
      var list := pending[a];
      var nonce := MaxOf(list.items.Keys);
      DropTopOk(pending, queue, all, a);
      if AllGapFree(state, pending, pendingNonces) {
        DropTopKeepsGapFree(state, pending, queue, all, pendingNonces, a);
      }
      pending := pending[a := list.Cap(|list.items| - 1)];
      Forget(list.items[nonce]);
      if GetNonce(a) > nonce {
        pendingNonces := pendingNonces[a := nonce];
      }
    }

    /** One round of fair eviction: every account at the level loses its highest transaction. */
    method EvictRound(os: seq<Address>, count: nat, ghost base: Book, ghost s: set<Address>, ghost level: nat, ghost all0: set<Tx>)
      returns (count': nat)
      requires Valid() && level > 0 && pending == CapBook(base, s, level) && AtLevel(base, s, level, os)
      requires count == Total(pending) && PoolShrank(all0, all, base, pending)
      modifies this`pending, this`all, this`pendingNonces, priced
      ensures Valid() && (old(GapFreePending()) ==> GapFreePending())
      ensures pending == CapBook(base, s, level - 1) && count' == Total(pending) && PoolShrank(all0, all, base, pending)
    {
      hide BooksOk, AllGapFree, TxPricedList.Valid, List.Valid, Lowest, PoolShrank, Total, CapBook, Mixed;
      count' := count;
      MixedStart(base, s, level);
      assert Elems(os[..0]) == {};
      for i := 0 to |os|
        invariant Valid() && (old(GapFreePending()) ==> GapFreePending())
        invariant pending == Mixed(base, s, level, Elems(os[..i]))
        invariant count' == Total(pending) && PoolShrank(all0, all, base, pending)
      {
        ghost var before, allBefore := pending, all;
        NextInRound(base, s, level, os, i);
        TotalPut(pending, os[i], pending[os[i]].Cap(level - 1));
        DropHighest(os[i]);
        ShrankTwice(all0, allBefore, all, base, before, pending);
        count' := count' - 1;
      }
      assert os[..|os|] == os;
      MixedDone(base, s, level, Elems(os));
    }

    /**
    Promotes the given accounts, then enforces the two global limits. `promoted`, `waiting` and
    `nonces` are the books and virtual nonces between the two steps.
    */
    method PromoteExecutables(accounts: set<Address>, beats: map<Address, nat>)
      returns (ghost promoted: Book, ghost waiting: Book, ghost nonces: map<Address, nat>)
      requires Valid()
      modifies this`pending, this`queue, this`all, this`pendingNonces, priced
      ensures Valid() && (old(GapFreePending()) ==> GapFreePending())
      ensures Shed(old(all), all, old(pending), old(queue), pending, queue)
      ensures Promotion(config, state, locals, accounts, old(pending), old(queue), old(pendingNonces), promoted, waiting, nonces)
      ensures FairlyCut(promoted, pending, locals, config.accountSlots, config.globalSlots)
      ensures Total(promoted) <= config.globalSlots ==> pendingNonces == nonces
      ensures forall a :: a in accounts && a !in locals ==> |Que(a).items| <= config.accountQueue
      ensures QueueCut(waiting, queue, locals, beats, config.globalQueue)
    {
      hide BooksOk, AllGapFree, TxPricedList.Valid, Promotion, FairlyCut, QueueCut, PoolShrank, Shed;
      PromoteEach(accounts);
      promoted, waiting, nonces := pending, queue, pendingNonces;
      ghost var all1 := all;
      EvictPending();
      ghost var all2 := all;
      ShrankSheds(all1, all2, promoted, waiting, pending);
      ShedTwice(old(all), all1, all2, old(pending), old(queue), promoted, waiting, pending, waiting);
      PromotionMeaning(config, state, locals, accounts, old(all), old(pending), old(queue), old(pendingNonces), promoted, waiting, nonces);
      TruncateQueue(beats);
      CutNoLonger(waiting, queue, locals, beats, config.globalQueue);
      QueueShrankSheds(all2, all, pending, waiting, queue);
      ShedTwice(old(all), all2, all, old(pending), old(queue), pending, waiting, pending, queue);
    }

    /**
    Fair eviction. When the executable transactions exceed the global limit, remote accounts
    above their guaranteed share are cut to one common level: the highest one that respects
    the limit, but never below the guaranteed share.
    */
    method EvictPending()
      requires Valid()
      modifies this`pending, this`all, this`pendingNonces, priced
      ensures Valid() && (old(GapFreePending()) ==> GapFreePending())
      ensures PoolShrank(old(all), all, old(pending), pending)
      ensures FairlyCut(old(pending), pending, locals, config.accountSlots, config.globalSlots)
      ensures Total(old(pending)) <= config.globalSlots ==> pendingNonces == old(pendingNonces)
    {
      hide BooksOk, AllGapFree, TxPricedList.Valid, PoolShrank, CapBook, Total;
      SameShrank(all, pending);
      var count := CountTxs(pending);
      if count > config.globalSlots {
        ghost var level := EvictFrom(Spammers(pending, locals, config.accountSlots), count);
        assert CutAt(old(pending), pending, locals, config.accountSlots, config.globalSlots, level);
      }
    }

    /** Cuts the given accounts, all above their guaranteed share, longest first. */
    method EvictFrom(s: set<Address>, total: nat) returns (ghost level: nat)
      requires Valid() && s <= pending.Keys && (forall a :: a in s ==> |pending[a].items| > config.accountSlots)
      requires total == Total(pending) > config.globalSlots
      modifies this`pending, this`all, this`pendingNonces, priced
      ensures Valid() && (old(GapFreePending()) ==> GapFreePending())
      ensures PoolShrank(old(all), all, old(pending), pending)
      ensures pending == CapBook(old(pending), s, level) && (s != {} ==> level >= config.accountSlots)
      ensures Total(pending) <= config.globalSlots || s == {} || level == config.accountSlots
      ensures Total(CapBook(old(pending), s, level + 1)) > config.globalSlots
    {
      hide BooksOk, AllGapFree, TxPricedList.Valid, PoolShrank, CapBook, Total, Evicting, AtLevel, Leveling;
      ghost var base, all0 := pending, all;
      SameShrank(all, pending);
      EvictStart(base, s, config.accountSlots, config.globalSlots);
      var count: nat, rest, offenders: seq<Address> := total, s, [];
      level := count;
      while count > config.globalSlots && rest != {}
        invariant Valid() && (old(GapFreePending()) ==> GapFreePending()) && PoolShrank(all0, all, base, pending)
        invariant pending == CapBook(base, s, level)
        invariant Evicting(base, s, config.accountSlots, config.globalSlots, offenders, rest, level, count)
        invariant offenders == [] ==> count > config.globalSlots
        decreases |rest|
      {
        var o;
        o, count, level := NextOffender(offenders, rest, count, base, s, level, all0);
        offenders := offenders + [o];
        rest := rest - {o};
      }
      EvictPhaseOne(base, s, config.accountSlots, config.globalSlots, offenders, rest, level, count);
      if count > config.globalSlots && |offenders| > 0 {
        count, level := ReduceToLimit(offenders, count, base, s, level, all0);
        LevelingKept(base, s, config.globalSlots, offenders, level);
      }
    }

    /** Takes the longest remaining spammer as an offender, after cutting the earlier offenders down to it. */
    method NextOffender(os: seq<Address>, rest: set<Address>, count0: nat, ghost base: Book, ghost s: set<Address>,
                        ghost level0: nat, ghost all0: set<Tx>)
      returns (o: Address, count: nat, ghost level: nat)
      requires Valid() && PoolShrank(all0, all, base, pending) && pending == CapBook(base, s, level0)
      requires Evicting(base, s, config.accountSlots, config.globalSlots, os, rest, level0, count0)
      requires count0 > config.globalSlots && rest != {}
      modifies this`pending, this`all, this`pendingNonces, priced
      ensures Valid() && (old(GapFreePending()) ==> GapFreePending()) && PoolShrank(all0, all, base, pending)
      ensures o in rest && pending == CapBook(base, s, level)
      ensures Evicting(base, s, config.accountSlots, config.globalSlots, os + [o], rest - {o}, level, count)
    {
      hide BooksOk, AllGapFree, TxPricedList.Valid, PoolShrank, CapBook, Total, Evicting, AtLevel, Closing;
      count, level := count0, level0;
      RestUncut(base, s, config.accountSlots, config.globalSlots, os, rest, level, count);
      o := Longest(pending, rest, base);
      if os == [] {
        FirstOffender(base, s, config.accountSlots, config.globalSlots, rest, level, count, o);
        level := |base[o].items|;
        assert os + [o] == [o];
      } else {
        ClosingStart(base, s, config.accountSlots, config.globalSlots, os, rest, o, level, count);
        count, level := Equalize(os, |pending[o].items|, count, base, s, rest, o, level, all0);
        ClosingDone(base, s, config.accountSlots, config.globalSlots, os, rest, o, level, count);
      }
    }

    /** Cuts the earlier offenders round by round until they are as short as the next one or the limit is met. */
    method Equalize(os: seq<Address>, threshold: nat, count0: nat, ghost base: Book, ghost s: set<Address>,
                    ghost rest: set<Address>, ghost o: Address, ghost level0: nat, ghost all0: set<Tx>)
      returns (count: nat, ghost level: nat)
      requires Valid() && Closing(base, s, config.accountSlots, config.globalSlots, os, rest, o, level0, count0)
      requires pending == CapBook(base, s, level0) && threshold == |base[o].items| && PoolShrank(all0, all, base, pending)
      modifies this`pending, this`all, this`pendingNonces, priced
      ensures Valid() && (old(GapFreePending()) ==> GapFreePending()) && PoolShrank(all0, all, base, pending)
      ensures pending == CapBook(base, s, level)
      ensures Closing(base, s, config.accountSlots, config.globalSlots, os, rest, o, level, count)
      ensures count > config.globalSlots ==> level <= threshold
    {
      hide BooksOk, AllGapFree, TxPricedList.Valid, PoolShrank, CapBook, Total, AtLevel;
      count, level := count0, level0;
      if count > config.globalSlots {
        RoundIsFair(base, s, config.accountSlots, config.globalSlots, os, rest, o, level, count);
      }
      hide Closing;
      while count > config.globalSlots && |pending[os[|os| - 1]].items| > threshold
        invariant os != [] && os[|os| - 1] in pending
        invariant Valid() && (old(GapFreePending()) ==> GapFreePending()) && PoolShrank(all0, all, base, pending)
        invariant pending == CapBook(base, s, level)
        invariant Closing(base, s, config.accountSlots, config.globalSlots, os, rest, o, level, count)
        invariant count > config.globalSlots ==> |pending[os[|os| - 1]].items| == level
        decreases level
      {
        RoundIsFair(base, s, config.accountSlots, config.globalSlots, os, rest, o, level, count);
        CountIs(base, s, config.accountSlots, config.globalSlots, os, rest, o, level, count);
        count := EvictRound(os, count, base, s, level, all0);
        level := level - 1;
        if count > config.globalSlots {
          RoundIsFair(base, s, config.accountSlots, config.globalSlots, os, rest, o, level, count);
        }
      }
    }

    /** Cuts all offenders round by round until the limit is met or they are down to the guaranteed share. */
    method ReduceToLimit(os: seq<Address>, count0: nat, ghost base: Book, ghost s: set<Address>, ghost level0: nat, ghost all0: set<Tx>)
      returns (count: nat, ghost level: nat)
      requires Valid() && Leveling(base, s, config.globalSlots, os, level0) && level0 >= config.accountSlots
      requires pending == CapBook(base, s, level0) && count0 == Total(pending) && PoolShrank(all0, all, base, pending)
      modifies this`pending, this`all, this`pendingNonces, priced
      ensures Valid() && (old(GapFreePending()) ==> GapFreePending()) && PoolShrank(all0, all, base, pending)
      ensures pending == CapBook(base, s, level) && count == Total(pending) && level >= config.accountSlots
      ensures Leveling(base, s, config.globalSlots, os, level)
      ensures count <= config.globalSlots || level == config.accountSlots
    {
      hide BooksOk, AllGapFree, TxPricedList.Valid, PoolShrank, CapBook, Total, AtLevel;
      count, level := count0, level0;
      LastRounds(base, s, config.globalSlots, os, level);
      hide Leveling;
      while count > config.globalSlots && |pending[os[|os| - 1]].items| > config.accountSlots
        invariant os != [] && os[|os| - 1] in pending
        invariant Valid() && (old(GapFreePending()) ==> GapFreePending()) && PoolShrank(all0, all, base, pending)
        invariant pending == CapBook(base, s, level) && count == Total(pending) && level >= config.accountSlots
        invariant Leveling(base, s, config.globalSlots, os, level) && |pending[os[|os| - 1]].items| == level
        decreases level
      {
        LastRounds(base, s, config.globalSlots, os, level);
        count := EvictRound(os, count, base, s, level, all0);
        level := level - 1;
        LastRounds(base, s, config.globalSlots, os, level);
      }
    }

    /**
    The global queue limit. Whole queues of remote accounts go, latest heartbeat first; of the
    last one only the highest nonces.
    */
    method TruncateQueue(beats: map<Address, nat>)
      requires Valid()
      modifies this`pending, this`queue, this`all, this`pendingNonces, priced
      ensures Valid() && pending == old(pending) && pendingNonces == old(pendingNonces)
      ensures PoolShrank(old(all), all, old(queue), queue)
      ensures QueueCut(old(queue), queue, locals, beats, config.globalQueue)
    {
      hide BooksOk, TxPricedList.Valid, PoolShrank, Total, Trimmed, LatestFirst, OnePart, OnlyLocals, Truncating, Of, Lowest, OnlyAt;
      ghost var base := queue;
      SameShrank(all, queue);
      var queued := CountTxs(queue);
      if queued <= config.globalQueue {
        return;
      }
      var drop: nat, rest := queued - config.globalQueue, queue.Keys - locals;
      TruncateStart(base, locals, beats, config.globalQueue);
      while drop > 0 && rest != {}
        invariant Valid() && pending == old(pending) && pendingNonces == old(pendingNonces)
        invariant PoolShrank(old(all), all, base, queue)
        invariant Truncating(base, queue, locals, beats, config.globalQueue, rest, drop)
        decreases |rest|
      {
        rest, drop := TruncateNext(beats, rest, drop, base, old(all));
      }
      TruncateEnd(base, queue, locals, beats, config.globalQueue, rest, drop);
    }

    /** Truncates the queue of the account with the latest heartbeat. */
    method TruncateNext(beats: map<Address, nat>, rest: set<Address>, drop: nat, ghost base: Book, ghost all0: set<Tx>)
      returns (rest': set<Address>, drop': nat)
      requires Valid() && rest != {} && drop > 0 && PoolShrank(all0, all, base, queue)
      requires Truncating(base, queue, locals, beats, config.globalQueue, rest, drop)
      modifies this`pending, this`queue, this`all, this`pendingNonces, priced
      ensures Valid() && pending == old(pending) && pendingNonces == old(pendingNonces)
      ensures PoolShrank(all0, all, base, queue) && |rest'| < |rest|
      ensures Truncating(base, queue, locals, beats, config.globalQueue, rest', drop')
    {
      hide BooksOk, TxPricedList.Valid, PoolShrank, Total, Truncating, Of, Lowest, OnlyAt, IsLatest;
      var a := Latest(beats, rest);
      var k := DropUpTo(a, drop);
      TruncateStep(base, old(queue), queue, locals, beats, config.globalQueue, rest, drop, a, k);
      ShrankTwice(all0, old(all), all, base, old(queue), queue);
      rest', drop' := rest - {a}, drop - k;
    }

    /** Removes at most `n` queued transactions of an account: its whole queue, or its highest nonces. */
    method DropUpTo(a: Address, n: nat) returns (k: nat)
      requires Valid()
      modifies this`pending, this`queue, this`all, this`pendingNonces, priced
      ensures Valid() && pending == old(pending) && pendingNonces == old(pendingNonces)
      ensures k == if |old(Que(a)).items| <= n then |old(Que(a)).items| else n
      ensures OnlyAt(old(queue), queue, a, false) && Que(a).items == Lowest(old(Que(a)).items, |old(Que(a)).items| - k)
      ensures Total(old(queue)) == Total(queue) + k && PoolShrank(old(all), all, old(queue), queue)
    {
      hide BooksOk, TxPricedList.Valid, PoolShrank, Total, Of, OnlyAt, Lowest;
      var size := |Que(a).items|;
      if size <= n {
        k := size;
        DropQueue(a);
      } else {
        k := n;
        DropQueueTail(a, n);
      }
    }

    /** Removes an account's whole queue, lowest nonce first. */
    method DropQueue(a: Address)
      requires Valid()
      modifies this`pending, this`queue, this`all, this`pendingNonces, priced
      ensures Valid() && pending == old(pending) && pendingNonces == old(pendingNonces)
      ensures OnlyAt(old(queue), queue, a, false) && Que(a).items == Lowest(old(Que(a)).items, 0)
      ensures Total(old(queue)) == Total(queue) + |old(Que(a)).items| && PoolShrank(old(all), all, old(queue), queue)
    {
      hide BooksOk, TxPricedList.Valid, PoolShrank, Total, List.Valid, List.Remove, Of, MinOf;
      SameShrank(all, queue);
      while Que(a).items != map[]
        invariant Valid() && pending == old(pending) && pendingNonces == old(pendingNonces)
        invariant OnlyAt(old(queue), queue, a, false) && PoolShrank(old(all), all, old(queue), queue)
        invariant Total(old(queue)) - |old(Que(a)).items| == Total(queue) - |Que(a).items|
        decreases |Que(a).items|
      {
        DropQueued(a, MinOf(Que(a).items.Keys), old(all), old(queue));
      }
    }

    /** Removes an account's highest queued nonces, highest first. */
    method DropQueueTail(a: Address, n: nat)
      requires Valid() && n <= |Que(a).items|
      modifies this`pending, this`queue, this`all, this`pendingNonces, priced
      ensures Valid() && pending == old(pending) && pendingNonces == old(pendingNonces)
      ensures OnlyAt(old(queue), queue, a, false) && Que(a).items == Lowest(old(Que(a)).items, |old(Que(a)).items| - n)
      ensures Total(old(queue)) == Total(queue) + n && PoolShrank(old(all), all, old(queue), queue)
    {
      hide BooksOk, TxPricedList.Valid, PoolShrank, Total, OnlyAt, Of, Lowest;
      SameShrank(all, queue);
      SameOnly(queue, a);
      ghost var items := Que(a).items;
      LowestAll(items);
      for i := 0 to n
        invariant Valid() && pending == old(pending) && pendingNonces == old(pendingNonces)
        invariant OnlyAt(old(queue), queue, a, false) && PoolShrank(old(all), all, old(queue), queue)
        invariant Total(old(queue)) == Total(queue) + i && Que(a).items == Lowest(items, |items| - i)
      {
        DropQueuedTop(a, items, |items| - i, old(all), old(queue));
      }
    }

    method DropQueuedTop(a: Address, ghost items: Items, ghost k: nat, ghost all0: set<Tx>, ghost queue0: Book)
      requires Valid() && 0 < k <= |items| && Que(a).items == Lowest(items, k)
      requires PoolShrank(all0, all, queue0, queue) && OnlyAt(queue0, queue, a, false)
      modifies this`pending, this`queue, this`all, this`pendingNonces, priced
      ensures Valid() && pending == old(pending) && pendingNonces == old(pendingNonces)
      ensures Que(a).items == Lowest(items, k - 1) && Total(old(queue)) == Total(queue) + 1
      ensures PoolShrank(all0, all, queue0, queue) && OnlyAt(queue0, queue, a, false)
    {
      hide BooksOk, TxPricedList.Valid, PoolShrank, Total, Of, Lowest, MaxOf;
      LowestLowest(items, k, k - 1);
      LowestDropsMax(Que(a).items);
      DropQueued(a, MaxOf(Que(a).items.Keys), all0, queue0);
    }

    /** Removes one queued transaction. */
    method DropQueued(a: Address, n: nat, ghost all0: set<Tx>, ghost queue0: Book)
      requires Valid() && n in Que(a).items && PoolShrank(all0, all, queue0, queue)
      modifies this`pending, this`queue, this`all, this`pendingNonces, priced
      ensures Valid() && pending == old(pending) && pendingNonces == old(pendingNonces)
      ensures OnlyAt(old(queue), queue, a, false) && Que(a).items == old(Que(a)).items - {n}
      ensures |Que(a).items| + 1 == |old(Que(a)).items|
      ensures Total(old(queue)) == Total(queue) + 1 && PoolShrank(all0, all, queue0, queue)
    {
      hide BooksOk, TxPricedList.Valid, PoolShrank, Total;
      DropQueuedOk(pending, queue, all, a, n);
      RemoveTx(Que(a).items[n]);
      ShrankTwice(all0, old(all), all, queue0, old(queue), queue);
    }

    /**
    After a change of the chain state: drops what is used or unpayable from every executable
    list, and queues what can no longer run.
    */
    method DemoteUnexecutables()
      requires Valid()
      modifies this`pending, this`queue, this`all, priced
      ensures Valid() && Demotion(state, old(pending).Keys, old(pending), old(queue), pending, queue)
      ensures forall t :: t in all <==> t in old(all) && !Drops(state, old(pending), t)
      ensures forall a :: a in pending ==> state.Nonce(a) in pending[a].items
    {
      hide BooksOk, TxPricedList.Valid, Demotion, Drops;
      ghost var done: set<Address> := {};
      var todo := pending.Keys;
      DemotionNone(state, pending, queue);
      while todo != {}
        invariant Valid() && done !! todo && done + todo == old(pending).Keys
        invariant todo <= pending.Keys <= old(pending).Keys
        invariant Demotion(state, done, old(pending), old(queue), pending, queue)
        invariant forall t :: t in all <==> t in old(all) && !(t.sender in done && Drops(state, old(pending), t))
        invariant forall a :: a in done && a in pending ==> state.Nonce(a) in pending[a].items
        decreases |todo|
      {
        var a :| a in todo;
        DemoteNext(a, done, old(pending), old(queue), old(all));
        todo, done := todo - {a}, done + {a};
      }
      UnlistedKept(state, old(pending));
    }

    method DemoteNext(a: Address, ghost done: set<Address>, ghost p0: Book, ghost q0: Book, ghost all0: set<Tx>)
      requires Valid() && a in pending && a !in done && Demotion(state, done, p0, q0, pending, queue)
      requires forall t :: t in all <==> t in all0 && !(t.sender in done && Drops(state, p0, t))
      modifies this`pending, this`queue, this`all, priced
      ensures Valid() && Demotion(state, done + {a}, p0, q0, pending, queue)
      ensures forall t :: t in all <==> t in all0 && !(t.sender in done + {a} && Drops(state, p0, t))
      ensures SameElsewhere(old(pending), pending, a) && (a in pending ==> state.Nonce(a) in pending[a].items)
    {
      hide BooksOk, TxPricedList.Valid, Demotion, Demoted, Of, OnlyAt, Discarded, Drops;
      SameUntil(state, done, p0, q0, pending, queue, a);
      DropsIn(state, p0, a, Pend(a));
      DroppedOwned(state, pending, queue, all, a);
      DemoteAccount(a);
      DemotionStep(state, done, p0, q0, old(pending), old(queue), pending, queue, a);
    }

    /** Demotes one account. */
    method DemoteAccount(a: Address)
      requires Valid() && a in pending
      modifies this`pending, this`queue, this`all, priced
      ensures Valid() && OnlyAt(old(pending), pending, a, true) && OnlyAt(old(queue), queue, a, false)
      ensures Demoted(state, a, old(Pend(a)), old(Que(a)), Pend(a), Que(a))
      ensures all == old(all) - Discarded(state, a, old(Pend(a))).Values
      ensures SameElsewhere(old(pending), pending, a) && (a in pending ==> state.Nonce(a) in pending[a].items)
    {
      hide BooksOk, TxPricedList.Valid, Affordable, Discarded, List.Invalidated, OnlyAt, With, Demoted, SameElsewhere, List.Cap;
      KeepAffordable(a);
      ghost var q1 := queue;
      PostponeHeadless(a);
      DemotedBoth(state, a, old(pending), pending, old(queue), q1, queue);
    }

    /** Drops used nonces and unpayable transactions, and queues what the latter invalidate. */
    method KeepAffordable(a: Address)
      requires Valid() && a in pending
      modifies this`pending, this`queue, this`all, priced
      ensures Valid() && OnlyAt(old(queue), queue, a, false)
      ensures var l := old(pending)[a];
        && pending == old(pending)[a := Affordable(state, a, l)] && all == old(all) - Discarded(state, a, l).Values
        && Que(a).items == old(Que(a)).items + l.Forward(state.Nonce(a)).Invalidated(state.Balance(a), state.maxGas)
    {
      hide BooksOk, TxPricedList.Valid, List.Valid, List.Forward, List.Filter, List.Unpayable, List.Invalidated, SubMap, Below, OnlyAt;
      var nonce, cost, gas := state.Nonce(a), state.Balance(a), state.maxGas;
      var l := pending[a];
      ListOk(pending, queue, all, a);
      BelowFrom(l, nonce);
      TwoParts(l.items, Below(l.items, nonce), l.Forward(nonce).items);
      TrimPending(a, l.Forward(nonce), Below(l.items, nonce));
      var f := pending[a];
      FilterSplits(f, cost, gas);
      var bad, invalid := f.Unpayable(cost, gas), f.Invalidated(cost, gas);
      DisjointParts(l.items, Below(l.items, nonce), f.items, bad);
      ValuesOfBoth(Below(l.items, nonce), bad);
      MoveOut(a, f.Filter(cost, gas), bad, invalid);
    }

    /** If the state nonce is missing in front, queues the whole list; deletes a list that became empty. */
    method PostponeHeadless(a: Address)
      requires Valid() && a in pending
      modifies this`pending, this`queue, this`all, priced
      ensures Valid() && OnlyAt(old(queue), queue, a, false) && all == old(all)
      ensures var l := old(pending)[a]; var headed := state.Nonce(a) in l.items;
        && pending == With(old(pending), a, if headed then l else l.Cap(0))
        && Que(a).items == old(Que(a)).items + (if headed then map[] else l.items)
    {
      hide BooksOk, TxPricedList.Valid, List.Valid, SubMap, OnlyAt, Lowest;
      var l := pending[a];
      ListOk(pending, queue, all, a);
      SameBook(queue, a, false);
      CapNothing(l);
      if l.items != map[] && state.Nonce(a) !in l.items {
        MoveOut(a, l.Cap(0), map[], l.items);
      }
      TidyPending(a);
    }

    /** Shrinks an executable list to `l` and forgets part of what it lost. */
    method TrimPending(a: Address, l: List, dropped: Items)
      requires Valid() && a in pending && l.strict && l.Valid() && SubMap(l.items, pending[a].items)
      requires SubMap(dropped, pending[a].items) && dropped.Keys !! l.items.Keys
      modifies this`pending, this`all, priced
      ensures Valid() && pending == old(pending)[a := l] && all == old(all) - dropped.Values
    {
      hide BooksOk, TxPricedList.Valid, List.Valid;
      TrimPendingOk(pending, queue, all, a, l, dropped);
      pending := pending[a := l];
      ForgetAll(dropped);
    }

    /** Shrinks an executable list to `l`, forgets part of what it lost and queues another part. */
    method MoveOut(a: Address, l: List, dropped: Items, moved: Items)
      requires Valid() && a in pending && l.strict && l.Valid() && SubMap(l.items, pending[a].items)
      requires SubMap(dropped, pending[a].items) && dropped.Keys !! l.items.Keys
      requires SubMap(moved, pending[a].items) && moved.Keys !! l.items.Keys && moved.Keys !! dropped.Keys
      modifies this`pending, this`queue, this`all, priced
      ensures Valid() && pending == old(pending)[a := l] && all == old(all) - dropped.Values
      ensures OnlyAt(old(queue), queue, a, false) && Que(a).items == old(Que(a)).items + moved
    {
      hide BooksOk, TxPricedList.Valid, List.Valid, SubMap, OnlyAt;
      MovedFree(pending, queue, all, a, dropped, moved);
      TrimPending(a, l, dropped);
      EnqueueAll(a, moved);
    }

    /** Deletes an executable list that became empty. */
    method TidyPending(a: Address)
      requires Valid() && a in pending
      modifies this`pending
      ensures Valid() && pending == With(old(pending), a, old(pending)[a])
    {
      hide BooksOk;
      TidyOk(pending, queue, all, a);
      pending := With(pending, a, pending[a]);
    }

    /** Adds one transaction, and promotes its sender's account if a new nonce was queued. */
    method AddTx(tx: Tx, local: bool, facts: Facts, beats: map<Address, nat>)
      returns (r: AddResult, ghost s: Snap, ghost promoted: Book, ghost waiting: Book, ghost nonces: map<Address, nat>)
      requires AtRest()
      modifies this`pending, this`queue, this`all, this`pendingNonces, this`dropping, this`locals, priced
      ensures AtRest() && (old(GapFreePending()) ==> GapFreePending())
      ensures Added(config, state, gasPrice, old(Books()), tx, local, facts, r, s)
      ensures if r.Accepted? && !r.replaced
              then Settled(config, state, s, {tx.sender}, beats, promoted, waiting, nonces, Books())
              else Books() == s
    {
      hide BooksOk, AllGapFree, TxPricedList.Valid, Promotion, FairlyCut, QueueCut, Added;
      r := Add(tx, local, facts);
      s, promoted, waiting, nonces := Books(), pending, queue, pendingNonces;
      if r.Accepted? && !r.replaced {
        promoted, waiting, nonces := PromoteExecutables({tx.sender}, beats);
      }
    }

    /** Adds a batch one by one, and then promotes the accounts for which a new nonce was queued. */
    method AddTxs(txs: seq<(Tx, Facts)>, local: bool, beats: map<Address, nat>) returns (ghost trace: BatchTrace)
      requires AtRest()
      modifies this`pending, this`queue, this`all, this`pendingNonces, this`dropping, this`locals, priced
      ensures AtRest() && (old(GapFreePending()) ==> GapFreePending())
      ensures BatchAdded(config, state, gasPrice, txs, local, beats, old(Books()), trace, Books())
    {
      hide BooksOk, AllGapFree, TxPricedList.Valid, Promotion, FairlyCut, QueueCut, Added;
      var dirty: set<Address> := {};
      ghost var rs, snaps := [], [Books()];
      for i := 0 to |txs|
        invariant AtRest() && (old(GapFreePending()) ==> GapFreePending())
        invariant Batch(config, state, gasPrice, txs[..i], local, rs, snaps)
        invariant snaps[0] == old(Books()) && snaps[i] == Books() && dirty == Dirty(txs[..i], rs)
      {
        var r := Add(txs[i].0, local, txs[i].1);
        BatchGrows(config, state, gasPrice, txs, local, rs, snaps, i, r, Books());
        if r.Accepted? && !r.replaced {
          dirty := dirty + {txs[i].0.sender};
        }
        rs, snaps := rs + [r], snaps + [Books()];
      }
      assert txs[..|txs|] == txs;
      ghost var promoted, waiting, nonces := pending, queue, pendingNonces;
      if dirty != {} {
        promoted, waiting, nonces := PromoteExecutables(dirty, beats);
      }
      trace := BatchTrace(rs, snaps, promoted, waiting, nonces);
    }

    /**
    Moves the pool to a new chain state: takes back what a reorganisation discarded, demotes what
    can no longer run, renumbers, and promotes what can run.
    */
    method Reset(newState: ChainState, reinject: seq<(Tx, Facts)>, beats: map<Address, nat>) returns (ghost trace: Trace)
      requires AtRest()
      modifies this
      modifies priced
      ensures AtRest() && state == newState && gasPrice == old(gasPrice)
      ensures WasReset(config, state, gasPrice, old(Books()), reinject, beats, trace, Books())
      ensures Rebased(state, trace.injected.pending, trace.injected.nonces) ==> GapFreePending()
      ensures old(GapFreePending()) && reinject == [] ==> GapFreePending()
      ensures old(GapFreePending()) && Restores(config, old(state), newState, gasPrice, old(Books()), reinject) ==> GapFreePending()
    {
      hide BooksOk, AllGapFree, TxPricedList.Valid, Promotion, FairlyCut, QueueCut, Rebased, Demotion, Drops, Renumbered;
      hide BatchAdded, Restores, Shed;
      ghost var batch := TakeBack(newState, reinject, beats);
      ghost var injected := Books();
      Rebase();
      ghost var demoted := Books();
      ghost var promoted, waiting, nonces := PromoteExecutables(queue.Keys, beats);
      trace := Trace(batch, injected, demoted, promoted, waiting, nonces);
    }

    /** Switches to the new chain state, forgets the virtual nonces and adds what is taken back. */
    method TakeBack(newState: ChainState, reinject: seq<(Tx, Facts)>, beats: map<Address, nat>) returns (ghost batch: BatchTrace)
      requires AtRest()
      modifies this, priced
      ensures AtRest() && state == newState && gasPrice == old(gasPrice)
      ensures BatchAdded(config, state, gasPrice, reinject, false, beats, old(Books()).(nonces := map[]), batch, Books())
      ensures old(GapFreePending()) && (reinject == [] || Restores(config, old(state), newState, gasPrice, old(Books()), reinject)) ==>
        Rebased(state, pending, pendingNonces)
    {
      hide BooksOk, AllGapFree, TxPricedList.Valid, Rebased, BatchAdded, Restores;
      if AllGapFree(state, pending, pendingNonces) {
        RebasedFromGapFree(state, newState, pending, pendingNonces);
      }
      state, pendingNonces := newState, map[];
      ghost var start := Books();
      batch := AddTxs(reinject, false, beats);
      if reinject == [] {
        EmptyBatch(config, state, gasPrice, beats, start, batch, Books());
      }
      if old(GapFreePending()) && Restores(config, old(state), newState, gasPrice, old(Books()), reinject) {
        RestoresAnyway(config, old(state), newState, gasPrice, old(Books()), start, reinject);
        BatchRestores(config, old(state), newState, gasPrice, start, old(pendingNonces), reinject, beats, batch, Books());
      }
    }

    /** Demotes what cannot run in the current state, and sets every virtual nonce behind the last executable one. */
    method Rebase()
      requires Valid()
      modifies this`pending, this`queue, this`all, this`pendingNonces, priced
      ensures Valid() && Demotion(state, old(pending).Keys, old(pending), old(queue), pending, queue)
      ensures forall t :: t in all <==> t in old(all) && !Drops(state, old(pending), t)
      ensures Renumbered(state, pending, old(pendingNonces), pendingNonces)
      ensures GapFreePending() <==> Rebased(state, old(pending), old(pendingNonces))
    {
      hide BooksOk, TxPricedList.Valid, Demotion, Drops, AllGapFree, Rebased, NonceBehind;
      ghost var p0, q0, all0, nonces0 := pending, queue, all, pendingNonces;
      DemoteUnexecutables();
      SetNonces();
      RebasedIff(state, p0, q0, all0, nonces0, pending, queue, pendingNonces);
    }

    /** Sets the virtual nonce of every account with executable transactions behind the last of them. */
    method SetNonces()
      requires forall a :: a in pending ==> pending[a].items != map[]
      modifies this`pendingNonces
      ensures Renumbered(state, pending, old(pendingNonces), pendingNonces)
    {
      var todo := pending.Keys;
      while todo != {}
        invariant todo <= pending.Keys
        invariant forall a: Address :: a !in todo ==> GetNonce(a) == NonceBehind(Pend(a), VirtualNonce(state, old(pendingNonces), a))
        invariant forall a: Address :: a in todo ==> GetNonce(a) == VirtualNonce(state, old(pendingNonces), a)
        decreases |todo|
      {
        var a :| a in todo;
        pendingNonces := pendingNonces[a := MaxOf(pending[a].items.Keys) + 1];
        todo := todo - {a};
      }
    }

    /**
    Any run of operations keeps the books consistent and the price heap complete; as long as no
    reset takes transactions back, it also keeps every executable list gap-free; and as long as no
    account is local, it keeps the pool within its capacity.
    */
    method Run(ops: seq<Op>) returns (ghost views: seq<View>)
      requires AtRest()
      modifies this, priced
      ensures AtRest() && |views| == |ops| + 1 && views[0] == old(Now()) && views[|ops|] == Now()
      ensures forall i :: 0 <= i < |ops| ==> CarriedOut(config, views[i], ops[i], views[i + 1])
      ensures forall i :: 0 <= i <= |ops| ==> views[i].books.Consistent()
      ensures old(GapFreePending()) && (forall i :: 0 <= i < |ops| && ops[i].NewState? ==> ops[i].reinject == []) ==> GapFreePending()
      ensures old(WithinCapacity(config, Books())) && config.Capacity() > 0 && (forall i :: 0 <= i < |ops| ==> ops[i].Remote()) ==>
        WithinCapacity(config, Books())
    {
      hide WithinCapacity, CarriedOut, BooksOk, TxPricedList.Valid;
      views := [Now()];
      for i := 0 to |ops|
        invariant AtRest() && |views| == i + 1 && views[0] == old(Now()) && views[i] == Now()
        invariant forall j :: 0 <= j < i ==> CarriedOut(config, views[j], ops[j], views[j + 1])
        invariant forall j :: 0 <= j <= i ==> views[j].books.Consistent()
        invariant old(GapFreePending()) && (forall j :: 0 <= j < i && ops[j].NewState? ==> ops[j].reinject == []) ==> GapFreePending()
        invariant old(WithinCapacity(config, Books())) && config.Capacity() > 0 && (forall j :: 0 <= j < i ==> ops[j].Remote()) ==>
          WithinCapacity(config, Books())
      {
        Apply(ops[i]);
        views := views + [Now()];
      }
    }

    ghost function Now(): View
      reads this
    {
      View(state, gasPrice, Books())
    }

    method Apply(op: Op)
      requires AtRest()
      modifies this, priced
      ensures AtRest() && CarriedOut(config, old(Now()), op, Now())
      ensures old(GapFreePending()) && (op.NewState? ==> op.reinject == []) ==> GapFreePending()
      ensures old(WithinCapacity(config, Books())) && config.Capacity() > 0 && op.Remote() ==> WithinCapacity(config, Books())
    {
      hide BooksOk, AllGapFree, TxPricedList.Valid, Rebased, WasReset, Added, BatchAdded, Settled, Removals, WithinCapacity, Restores;
      ghost var v := Now();
      var beats: map<Address, nat> := *;
      ghost var s0 := Books();
      ghost var fits := WithinCapacity(config, s0) && config.Capacity() > 0 && op.Remote();
      match op
      case AddOne(tx, local, facts) =>
        ghost var r, s, promoted, waiting, nonces := AddTx(tx, local, facts, beats);
        OneCarriedOut(config, v, op, beats, r, s, promoted, waiting, nonces, Now());
        if fits {
          AddedWithin(config, state, gasPrice, s0, tx, facts, r, s);
          if r.Accepted? && !r.replaced {
            SettledWithin(config, state, s, {tx.sender}, beats, promoted, waiting, nonces, Books());
          }
        }
      case AddMany(txs, local) =>
        ghost var trace := AddTxs(txs, local, beats);
        BatchCarriedOut(config, v, op, beats, trace, Now());
        if fits {
          BatchAddedWithin(config, state, gasPrice, txs, beats, s0, trace, Books());
        }
      case Remove(tx) =>
        RemoveTx(tx);
        if fits {
          SmallerWithin(config, s0, Books());
        }
      case Reprice(price) =>
        ghost var drop, snaps := SetGasPrice(price);
        RepriceCarriedOut(config, v, op, drop, snaps, Now());
        if fits {
          SmallerWithin(config, s0, Books());
        }
      case NewState(newState, reinject) =>
        ghost var trace := Reset(newState, reinject, beats);
        ResetCarriedOut(config, v, op, beats, trace, Now());
        if fits {
          ResetWithin(config, state, gasPrice, s0, reinject, beats, trace, Books());
        }
    }
  }

  /** The head of the spammer queue: an account with the most transactions. */
  method Longest(book: Book, rest: set<Address>, ghost base: Book) returns (o: Address)
    requires rest != {} && rest <= book.Keys && rest <= base.Keys && forall b :: b in rest ==> book[b].items == base[b].items
    ensures o in rest && book[o].items == base[o].items && forall b :: b in rest ==> |base[b].items| <= |base[o].items|
  {
    LongestExists(book, rest);
    o :| o in rest && forall b :: b in rest ==> |book[b].items| <= |book[o].items|;
  }

  /** The last of the accounts sorted by heartbeat. */
  method Latest(beats: map<Address, nat>, rest: set<Address>) returns (a: Address)
    requires rest != {}
    ensures a in rest && IsLatest(beats, rest, a)
  {
    LatestExists(beats, rest);
    a :| a in rest && IsLatest(beats, rest, a);
  }
}
