/** What the pool's operations do to its books, as values: each step keeps the invariants. */
module PoolSteps {
  import opened Transactions
  import opened TxLists
  import opened PoolStates
  import opened PoolLimits
  import opened PoolDemotions

  /** The successors that go back to the queue when a nonce is removed: none if nothing is left in front. */
  function Requeued(l: List, nonce: nat): Items {
    if l.Remove(nonce).items == map[] then map[] else From(l.items, nonce + 1)
  }

  function Between(items: Items, lo: nat, hi: nat): Items {
    map n | n in items && lo <= n < hi :: items[n]
  }

  /** A queue without old nonces and, unless gas is free, without unpayable transactions. */
  function Payable(config: Config, state: ChainState, a: Address, q: List): List {
    var q' := q.Forward(state.Nonce(a));
    if config.isBitmed then q' else q'.Filter(state.Balance(a), state.maxGas)
  }

  /** The per-account queue limit, from which local accounts are exempt. */
  function Limited(config: Config, locals: set<Address>, a: Address, items: Items): Items {
    if a in locals then items else Lowest(items, config.accountQueue)
  }

  /**
  One account promoted: what is stale, unpayable or above its queue limit is gone, and the run
  that starts at the virtual nonce has moved from the queue to the executable list.
  */
  ghost predicate Promoted(config: Config, state: ChainState, locals: set<Address>, a: Address,
                           p: Items, q: List, virtualNonce: nat, p': Items, q': Items, virtualNonce': nat)
  {
    var ok := Payable(config, state, a, q);
    var (lo, hi) := ReadyRange(ok.items, virtualNonce);
    && p' == p + Between(ok.items, lo, hi) && q' == Limited(config, locals, a, Without(ok.items, lo, hi))
    && virtualNonce' == if lo < hi then hi else virtualNonce
  }

  /** The given accounts promoted, the others as they were. */
  ghost predicate Promotion(config: Config, state: ChainState, locals: set<Address>, accounts: set<Address>,
                            p: Book, q: Book, nonces: map<Address, nat>, p': Book, q': Book, nonces': map<Address, nat>)
  {
    forall a: Address ::
      if a in accounts then
        Promoted(config, state, locals, a, Of(p, a, true).items, Of(q, a, false), VirtualNonce(state, nonces, a),
                 Of(p', a, true).items, Of(q', a, false).items, VirtualNonce(state, nonces', a))
      else
        && Of(p', a, true) == Of(p, a, true) && Of(q', a, false) == Of(q, a, false)
        && VirtualNonce(state, nonces', a) == VirtualNonce(state, nonces, a)
  }

  lemma PromotionNone(config: Config, state: ChainState, locals: set<Address>, p: Book, q: Book, nonces: map<Address, nat>)
    ensures Promotion(config, state, locals, {}, p, q, nonces, p, q, nonces)
  {
  }

  lemma PromotionStep(config: Config, state: ChainState, locals: set<Address>, done: set<Address>,
                      p0: Book, q0: Book, nonces0: map<Address, nat>, p: Book, q: Book, nonces: map<Address, nat>,
                      p': Book, q': Book, nonces': map<Address, nat>, a: Address)
    requires Promotion(config, state, locals, done, p0, q0, nonces0, p, q, nonces) && a !in done
    requires OnlyAt(p, p', a, true) && OnlyAt(q, q', a, false)
    requires var ok := Payable(config, state, a, Of(q, a, false));
      var (lo, hi) := ReadyRange(ok.items, VirtualNonce(state, nonces, a));
      && Of(p', a, true).items == Of(p, a, true).items + Between(ok.items, lo, hi)
      && nonces' == (if lo < hi then nonces[a := hi] else nonces)
      && Of(q', a, false).items == Limited(config, locals, a, Without(ok.items, lo, hi))
    ensures Promotion(config, state, locals, done + {a}, p0, q0, nonces0, p', q', nonces')
  {
    hide Payable, Limited, ReadyRange, Without, Between, Of;
  }

  /** A list that has taken over all of `txs` but the nonces still to do. */
  ghost function TakenOver(items: Items, txs: Items, todo: set<nat>): Items {
    items + (txs - todo)
  }

  lemma TakenNone(items: Items, txs: Items)
    ensures TakenOver(items, txs, txs.Keys) == items && TakenOver(items, txs, {}) == items + txs
  {
    assert txs - {} == txs;
  }

  lemma TakenOne(items: Items, txs: Items, todo: set<nat>, n: nat)
    requires n in todo && todo <= txs.Keys && items.Keys !! txs.Keys
    ensures n !in TakenOver(items, txs, todo)
    ensures TakenOver(items, txs, todo)[n := txs[n]] == TakenOver(items, txs, todo - {n})
  {
  }

  lemma StillCovered(all: set<Tx>, dropping: set<Tx>, before: seq<Tx>, after: seq<Tx>)
    requires forall t :: t in all - dropping ==> t in before
    requires after == before || multiset(after) == multiset(all)
    ensures forall t :: t in all - dropping ==> t in after
  {
    assert forall t :: t in after <==> t in multiset(after);
  }

  lemma MoreCovered(all: set<Tx>, before: seq<Tx>, after: seq<Tx>, tx: Tx)
    requires (forall t :: t in all ==> t in before || t == tx) && multiset(after) == multiset(before) + multiset{tx}
    ensures forall t :: t in all ==> t in after
  {
    assert forall t :: t in after <==> t in multiset(after);
    assert forall t :: t in before <==> t in multiset(before);
  }

  lemma EnqueueOk(pending: Book, queue: Book, all: set<Tx>, tx: Tx)
    requires BooksOk(pending, queue, all) && tx.nonce !in Of(pending, tx.sender, true).items
    ensures var list := Of(queue, tx.sender, false);
      && (tx.nonce !in list.items ==> BooksOk(pending, queue[tx.sender := list.Add(tx)], all + {tx}))
      && (tx.nonce in list.items ==>
            && BooksOk(pending, queue[tx.sender := list.Add(tx)], all - {list.items[tx.nonce]} + {tx})
            && list.items[tx.nonce].sender == tx.sender && list.items[tx.nonce].nonce == tx.nonce && list.items[tx.nonce] in all)
  {
    var a := tx.sender;
    var p, list := Of(pending, a, true), Of(queue, a, false);
    assert AccountOk(a, p, list, all);
    var queue' := queue[a := list.Add(tx)];
    var all' := if tx.nonce in list.items then all - {list.items[tx.nonce]} + {tx} else all + {tx};
    AddedOwned(list, a, all, all', tx);
    AccountChange(pending, queue, all, pending, queue', all', a);
  }

  lemma AddedOwned(l: List, a: Address, all: set<Tx>, all': set<Tx>, tx: Tx)
    requires Owned(l, a, all) && tx.sender == a && tx in all'
    requires forall t :: t in all && t !in all' ==> tx.nonce in l.items && t == l.items[tx.nonce]
    ensures Owned(l.Add(tx), a, all')
  {
  }

  lemma PromoteOk(pending: Book, queue: Book, all: set<Tx>, tx: Tx)
    requires BooksOk(pending, queue, all) && tx.nonce !in Of(queue, tx.sender, false).items
    ensures var list := Of(pending, tx.sender, true);
      && (tx.nonce !in list.items ==> BooksOk(pending[tx.sender := list.Add(tx)], queue, all + {tx}))
      && (tx.nonce in list.items ==>
            BooksOk(pending[tx.sender := list.Add(tx)], queue, all - {list.items[tx.nonce]} + {tx}))
  {
    var a := tx.sender;
    var q, list := Of(queue, a, false), Of(pending, a, true);
    assert AccountOk(a, list, q, all);
    var pending' := pending[a := list.Add(tx)];
    var all' := if tx.nonce in list.items then all - {list.items[tx.nonce]} + {tx} else all + {tx};
    AddedOwned(list, a, all, all', tx);
    AccountChange(pending, queue, all, pending', queue, all', a);
  }

  /** A transaction that an occupied nonce turns away is in neither list of its account. */
  lemma RejectOk(pending: Book, queue: Book, all: set<Tx>, tx: Tx, bump: nat)
    requires BooksOk(pending, queue, all) && tx.nonce !in Of(queue, tx.sender, false).items
    requires !Of(pending, tx.sender, true).Accepts(tx, bump)
    requires tx.nonce in Of(pending, tx.sender, true).items ==> tx != Of(pending, tx.sender, true).items[tx.nonce]
    ensures BooksOk(pending, queue, all - {tx})
  {
    var a := tx.sender;
    assert AccountOk(a, Of(pending, a, true), Of(queue, a, false), all);
    AccountChange(pending, queue, all, pending, queue, all - {tx}, a);
  }

  lemma SameBook(book: Book, a: Address, strict: bool)
    ensures OnlyAt(book, book, a, strict)
    ensures Of(book, a, strict).items + map[] == Of(book, a, strict).items
  {
  }

  lemma PutOnlyAt(book: Book, book': Book, a: Address, l: List, strict: bool)
    requires OnlyAt(book, book', a, strict)
    ensures OnlyAt(book, book'[a := l], a, strict)
  {
  }

  lemma BelowAll(run: Items, hi: nat)
    requires forall n :: n in run ==> n < hi
    ensures Below(run, hi) == run
  {
  }

  lemma WithOnlyAt(book: Book, a: Address, l: List, strict: bool)
    ensures OnlyAt(book, With(book, a, l), a, strict)
    ensures Of(With(book, a, l), a, strict).items == l.items
    ensures l.strict == strict ==> Of(With(book, a, l), a, strict).strict == strict
    ensures l.items != map[] ==> Of(With(book, a, l), a, strict) == l
  {
  }

  lemma {:induction false} RemovedOwned(l: List, a: Address, all: set<Tx>, nonce: nat, gone: Tx)
    requires Owned(l, a, all) && gone.nonce == nonce
    ensures Owned(l.Remove(nonce), a, all - {gone})
  {
  }

  lemma RemoveFromPending(pending: Book, queue: Book, all: set<Tx>, tx: Tx)
    requires BooksOk(pending, queue, all) && tx.nonce in Of(pending, tx.sender, true).items
    ensures var a := tx.sender;
      var list := Of(pending, a, true);
      var tail := From(list.items, tx.nonce + 1);
      var pending' := With(pending, a, list.Remove(tx.nonce));
      && list.strict && BooksOk(pending', queue, all - {tx})
      && Filed(tail) && (forall n :: n in tail ==> tail[n].sender == a && tail[n] in all - {tx})
      && tail.Keys !! Of(pending', a, true).items.Keys && tail.Keys !! Of(queue, a, false).items.Keys
  {
    var a := tx.sender;
    var list, q := Of(pending, a, true), Of(queue, a, false);
    assert AccountOk(a, list, q, all);
    WithOnlyAt(pending, a, list.Remove(tx.nonce), true);
    SameBook(queue, a, false);
    RemovedOwned(list, a, all, tx.nonce, tx);
    AccountChange(pending, queue, all, With(pending, a, list.Remove(tx.nonce)), queue, all - {tx}, a);
  }

  lemma RemoveFromQueue(pending: Book, queue: Book, all: set<Tx>, tx: Tx)
    requires BooksOk(pending, queue, all) && tx.nonce !in Of(pending, tx.sender, true).items
    ensures var a := tx.sender; BooksOk(pending, With(queue, a, Of(queue, a, false).Remove(tx.nonce)), all - {tx})
    ensures var a := tx.sender; a !in queue ==> With(queue, a, Of(queue, a, false).Remove(tx.nonce)) == queue
  {
    var a := tx.sender;
    var p, q := Of(pending, a, true), Of(queue, a, false);
    assert AccountOk(a, p, q, all);
    WithOnlyAt(queue, a, q.Remove(tx.nonce), false);
    SameBook(pending, a, true);
    RemovedOwned(q, a, all, tx.nonce, tx);
    AccountChange(pending, queue, all, pending, With(queue, a, q.Remove(tx.nonce)), all - {tx}, a);
  }

  lemma RemoveKeepsGapFree(state: ChainState, pending: Book, nonces: map<Address, nat>, tx: Tx)
    requires AllGapFree(state, pending, nonces) && tx.nonce in Of(pending, tx.sender, true).items
    requires Of(pending, tx.sender, true).strict
    ensures var a := tx.sender;
      && VirtualNonce(state, nonces, a) > tx.nonce
      && AllGapFree(state, With(pending, a, Of(pending, a, true).Remove(tx.nonce)), nonces[a := tx.nonce])
  {
    var a := tx.sender;
    var list := Of(pending, a, true);
    assert GapFree(list, state.Nonce(a), VirtualNonce(state, nonces, a));
    GapFreeRemove(list, state.Nonce(a), VirtualNonce(state, nonces, a), tx.nonce);
    WithOnlyAt(pending, a, list.Remove(tx.nonce), true);
    GapFreeChange(state, pending, nonces, With(pending, a, list.Remove(tx.nonce)), nonces[a := tx.nonce], a);
  }

  lemma TrimOk(pending: Book, queue: Book, all: set<Tx>, a: Address, l: List)
    requires BooksOk(pending, queue, all) && a in queue && !l.strict && l.Valid() && SubMap(l.items, queue[a].items)
    ensures BooksOk(pending, queue[a := l], all - (queue[a].items - l.items.Keys).Values)
  {
    var gone := queue[a].items - l.items.Keys;
    var all' := all - gone.Values;
    var p := Of(pending, a, true);
    assert AccountOk(a, p, Of(queue, a, false), all);
    forall t | t in gone.Values ensures t.sender == a && t.nonce in queue[a].items && t.nonce !in l.items {
      var n :| n in gone && gone[n] == t;
    }
    AccountChange(pending, queue, all, pending, queue[a := l], all', a);
  }

  lemma RunNone(items: Items, run: Items, lo: nat)
    requires forall n :: n in run ==> lo <= n
    ensures items + Below(run, lo) == items
  {
  }

  lemma RunOne(items: Items, run: Items, n: nat)
    requires n in run && items.Keys !! run.Keys
    ensures n !in items + Below(run, n)
    ensures (items + Below(run, n))[n := run[n]] == items + Below(run, n + 1)
  {
  }

  lemma AppendKeepsGapFree(state: ChainState, pending: Book, nonces: map<Address, nat>, tx: Tx)
    requires AllGapFree(state, pending, nonces) && VirtualNonce(state, nonces, tx.sender) == tx.nonce
    ensures var a := tx.sender; AllGapFree(state, pending[a := Of(pending, a, true).Add(tx)], nonces[a := tx.nonce + 1])
  {
    var a := tx.sender;
    var list := Of(pending, a, true);
    assert GapFree(list, state.Nonce(a), VirtualNonce(state, nonces, a));
    GapFreeAppend(list, state.Nonce(a), tx);
    GapFreeChange(state, pending, nonces, pending[a := list.Add(tx)], nonces[a := tx.nonce + 1], a);
  }

  lemma NothingQueued(config: Config, state: ChainState, locals: set<Address>, a: Address, virtualNonce: nat, items: Items)
    ensures var q := Payable(config, state, a, List(false, map[], 0, 0));
      && ReadyRange(q.items, virtualNonce) == (0, 0) && items + Between(q.items, 0, 0) == items
      && Limited(config, locals, a, Without(q.items, 0, 0)) == map[]
  {
    var q := Payable(config, state, a, List(false, map[], 0, 0));
    assert q.items == map[] && Without(q.items, 0, 0) == map[] && Between(q.items, 0, 0) == map[];
  }

  lemma ForwardOk(pending: Book, queue: Book, all: set<Tx>, a: Address, threshold: nat)
    requires BooksOk(pending, queue, all) && a in queue
    ensures var l := queue[a].Forward(threshold); !l.strict && l.Valid() && SubMap(l.items, queue[a].items)
  {
    assert AccountOk(a, Of(pending, a, true), Of(queue, a, false), all);
  }

  lemma FilterOk(pending: Book, queue: Book, all: set<Tx>, a: Address, costLimit: nat, gasLimit: nat)
    requires BooksOk(pending, queue, all) && a in queue
    ensures var l := queue[a].Filter(costLimit, gasLimit); !l.strict && l.Valid() && SubMap(l.items, queue[a].items)
  {
    assert AccountOk(a, Of(pending, a, true), Of(queue, a, false), all);
    ScannedValid(queue[a], costLimit, gasLimit);
  }

  lemma CapOk(pending: Book, queue: Book, all: set<Tx>, a: Address, k: nat)
    requires BooksOk(pending, queue, all) && a in queue
    ensures var l := queue[a].Cap(k); !l.strict && l.Valid() && SubMap(l.items, queue[a].items)
  {
    hide Lowest;
    assert AccountOk(a, Of(pending, a, true), Of(queue, a, false), all);
  }

  lemma DetachOk(pending: Book, queue: Book, all: set<Tx>, a: Address, lo: nat, hi: nat)
    requires BooksOk(pending, queue, all) && a in queue
    requires lo <= hi && forall n :: lo <= n < hi ==> n in queue[a].items
    ensures var run := Between(queue[a].items, lo, hi);
      var rest := queue[a].(items := Without(queue[a].items, lo, hi));
      && BooksOk(pending, queue[a := rest], all)
      && Filed(run) && (forall n :: n in run <==> lo <= n < hi)
      && (forall n :: n in run ==> run[n].sender == a && run[n] in all)
      && run.Keys !! Of(pending, a, true).items.Keys && run.Keys !! rest.items.Keys
  {
    assert AccountOk(a, Of(pending, a, true), Of(queue, a, false), all);
    var rest := queue[a].(items := Without(queue[a].items, lo, hi));
    AccountChange(pending, queue, all, pending, queue[a := rest], all, a);
  }

  /** In a gap-free account the ready run starts exactly at the virtual nonce. */
  lemma RunStartsAtVirtual(state: ChainState, pending: Book, nonces: map<Address, nat>, queue: Book, all: set<Tx>, a: Address)
    requires BooksOk(pending, queue, all) && AllGapFree(state, pending, nonces) && a in queue
    requires forall n :: n in queue[a].items ==> n >= state.Nonce(a)
    ensures var v := VirtualNonce(state, nonces, a);
      var (lo, hi) := ReadyRange(queue[a].items, v);
      lo < hi ==> lo == v
  {
    var p, q, v := Of(pending, a, true), Of(queue, a, false), VirtualNonce(state, nonces, a);
    assert AccountOk(a, p, q, all);
    assert GapFree(p, state.Nonce(a), v);
    QueueAfterVirtual(a, p, q, all, state.Nonce(a), v);
  }

  lemma QueueLoose(pending: Book, queue: Book, all: set<Tx>, a: Address)
    requires BooksOk(pending, queue, all) && a in queue
    ensures queue[a].Valid() && !queue[a].strict
  {
    assert AccountOk(a, Of(pending, a, true), Of(queue, a, false), all);
  }

  lemma PayableFrom(config: Config, state: ChainState, a: Address, q: List)
    requires q.Valid() && !q.strict
    ensures forall n :: n in Payable(config, state, a, q).items ==> n >= state.Nonce(a)
  {
  }

  lemma QueueTidied(pending: Book, queue: Book, all: set<Tx>, a: Address)
    requires BooksOk(pending, queue, all) && a in queue
    ensures BooksOk(pending, With(queue, a, queue[a]), all) && OnlyAt(queue, With(queue, a, queue[a]), a, false)
    ensures Of(With(queue, a, queue[a]), a, false).items == queue[a].items
  {
    assert AccountOk(a, Of(pending, a, true), Of(queue, a, false), all);
    WithOnlyAt(queue, a, queue[a], false);
    AccountChange(pending, queue, all, pending, With(queue, a, queue[a]), all, a);
  }

  lemma ReplaceOk(state: ChainState, pending: Book, queue: Book, all: set<Tx>, nonces: map<Address, nat>, tx: Tx)
    requires BooksOk(pending, queue, all) && tx.nonce in Of(pending, tx.sender, true).items
    ensures var a, list := tx.sender, Of(pending, tx.sender, true);
      && BooksOk(pending[a := list.Add(tx)], queue, all - {list.items[tx.nonce]} + {tx})
      && list.items[tx.nonce].sender == a && list.items[tx.nonce].nonce == tx.nonce && list.items[tx.nonce] in all
      && (AllGapFree(state, pending, nonces) ==> AllGapFree(state, pending[a := list.Add(tx)], nonces))
  {
    var a, list := tx.sender, Of(pending, tx.sender, true);
    assert AccountOk(a, list, Of(queue, a, false), all);
    PromoteOk(pending, queue, all, tx);
    if AllGapFree(state, pending, nonces) {
      assert GapFree(list, state.Nonce(a), VirtualNonce(state, nonces, a));
      GapFreeReplace(list, state.Nonce(a), VirtualNonce(state, nonces, a), tx);
      GapFreeChange(state, pending, nonces, pending[a := list.Add(tx)], nonces, a);
    }
  }

  lemma DropTopOk(pending: Book, queue: Book, all: set<Tx>, a: Address)
    requires BooksOk(pending, queue, all) && a in pending && pending[a].items != map[]
    ensures var l, top := pending[a], MaxOf(pending[a].items.Keys);
      && |l.items| > 0 && l.Cap(|l.items| - 1).items == l.items - {top}
      && BooksOk(pending[a := l.Cap(|l.items| - 1)], queue, all - {l.items[top]})
      && PoolShrank(all, all - {l.items[top]}, pending, pending[a := l.Cap(|l.items| - 1)])
  {
    var l, top := pending[a], MaxOf(pending[a].items.Keys);
    assert AccountOk(a, Of(pending, a, true), Of(queue, a, false), all);
    LowestDropsMax(l.items);
    hide Lowest, MaxOf;
    var l' := l.(items := l.items - {top});
    assert Owned(l', a, all - {l.items[top]});
    AccountChange(pending, queue, all, pending[a := l'], queue, all - {l.items[top]}, a);
    ListedWithout(pending, a, l, top);
  }

  lemma ListedWithout(book: Book, a: Address, l: List, n: nat)
    requires a in book && book[a] == l && n in l.items && l.items[n].sender == a && l.items[n].nonce == n
    ensures forall t :: Listed(book[a := l.(items := l.items - {n})], t) <==> Listed(book, t) && t != l.items[n]
  {
  }

  lemma DropTopKeepsGapFree(state: ChainState, pending: Book, queue: Book, all: set<Tx>, nonces: map<Address, nat>, a: Address)
    requires BooksOk(pending, queue, all) && AllGapFree(state, pending, nonces) && a in pending && pending[a].items != map[]
    ensures var l, top := pending[a], MaxOf(pending[a].items.Keys);
      && |l.items| > 0 && VirtualNonce(state, nonces, a) == top + 1
      && AllGapFree(state, pending[a := l.Cap(|l.items| - 1)], nonces[a := top])
  {
    var l, top := pending[a], MaxOf(pending[a].items.Keys);
    assert GapFree(Of(pending, a, true), state.Nonce(a), VirtualNonce(state, nonces, a));
    assert |l.items| > 0 by {
      assert top in l.items;
    }
    assert state.Nonce(a) + |l.items| - 1 in l.items;
    CapContiguous(l, state.Nonce(a), |l.items| - 1);
    GapFreeChange(state, pending, nonces, pending[a := l.Cap(|l.items| - 1)], nonces[a := top], a);
  }

  lemma ShrankTwice(all: set<Tx>, all': set<Tx>, all'': set<Tx>, book: Book, book': Book, book'': Book)
    requires PoolShrank(all, all', book, book') && PoolShrank(all', all'', book', book'')
    ensures PoolShrank(all, all'', book, book'')
  {
  }

  lemma NextInRound(base: Book, s: set<Address>, level: nat, os: seq<Address>, i: nat)
    requires level > 0 && AtLevel(base, s, level, os) && i < |os|
    ensures var done := Elems(os[..i]);
      var m := Mixed(base, s, level, done);
      && os[i] in m && |m[os[i]].items| == level && m[os[i]].items != map[]
      && m[os[i] := m[os[i]].Cap(level - 1)] == Mixed(base, s, level, Elems(os[..i + 1]))
      && |m[os[i]].Cap(level - 1).items| == level - 1
  {
    var done := Elems(os[..i]);
    assert os[i] !in done;
    assert os[i] in os;
    MixedStep(base, s, level, done, os[i]);
    assert os[..i + 1] == os[..i] + [os[i]];
    assert Elems(os[..i + 1]) == done + {os[i]};
  }

  lemma SameShrank(all: set<Tx>, book: Book)
    ensures PoolShrank(all, all, book, book)
  {
  }

  lemma DropQueuedOk(pending: Book, queue: Book, all: set<Tx>, a: Address, n: nat)
    requires BooksOk(pending, queue, all) && n in Of(queue, a, false).items
    ensures var l := Of(queue, a, false); var queue' := With(queue, a, l.Remove(n)); var tx := l.items[n];
      && tx in all && tx.sender == a && tx.nonce == n && n !in Of(pending, a, true).items
      && Of(queue', a, false).items == l.items - {n} && |l.items| == |l.items - {n}| + 1
      && OnlyAt(queue, queue', a, false)
      && Total(queue) == Total(queue') + 1 && PoolShrank(all, all - {tx}, queue, queue')
  {
    hide Total, PoolShrank, Listed;
    var l := queue[a];
    assert AccountOk(a, Of(pending, a, true), l, all);
    hide BooksOk;
    assert l.Remove(n).items.Keys == l.items.Keys - {n};
    TotalWith(queue, a, l.Remove(n));
    ShrankWithout(all, queue, a, n);
  }

  lemma TotalWith(book: Book, a: Address, l: List)
    requires a in book
    ensures Total(With(book, a, l)) + |book[a].items| == Total(book) + |l.items|
  {
    hide Total;
    TotalPut(book, a, l);
    if l.items == map[] {
      TotalDelete(book[a := l], a);
      assert book[a := l] - {a} == book - {a};
    }
  }

  lemma ShrankWithout(all: set<Tx>, book: Book, a: Address, n: nat)
    requires a in book && n in book[a].items && !book[a].strict && book[a].items[n].sender == a && book[a].items[n].nonce == n
    ensures PoolShrank(all, all - {book[a].items[n]}, book, With(book, a, book[a].Remove(n)))
  {
    ListedWithout(book, a, book[a], n);
    var book' := book[a := book[a].(items := book[a].items - {n})];
    assert book[a].Remove(n) == book'[a];
    hide List.Remove;
    forall t ensures Listed(With(book, a, book[a].Remove(n)), t) <==> Listed(book', t) { }
    hide Listed;
  }

  lemma LowestAll(items: Items)
    ensures Lowest(items, |items|) == items
  {
  }

  lemma SameOnly(book: Book, a: Address)
    ensures OnlyAt(book, book, a, false)
  {
  }

  lemma ListOk(pending: Book, queue: Book, all: set<Tx>, a: Address)
    requires BooksOk(pending, queue, all) && a in pending
    ensures pending[a].Valid() && pending[a].strict
  {
    assert AccountOk(a, Of(pending, a, true), Of(queue, a, false), all);
  }

  lemma TwoParts(all: Items, b: Items, f: Items)
    requires all == b + f && b.Keys !! f.Keys
    ensures SubMap(b, all) && SubMap(f, all)
  {
  }

  lemma ValuesOfBoth(b: Items, u: Items)
    requires b.Keys !! u.Keys
    ensures (b + u).Values == b.Values + u.Values
  {
    forall t | t in b.Values + u.Values ensures t in (b + u).Values {
      if n :| n in b && b[n] == t {
        assert (b + u)[n] == t;
      } else {
        var m :| m in u && u[m] == t;
        assert (b + u)[m] == t;
      }
    }
  }

  lemma CapNothing(l: List)
    requires l.Valid()
    ensures l.Cap(0).items == map[] && l.Cap(0).Valid() && SubMap(map[], l.items) && SubMap(l.items, l.items)
  {
    assert |l.Cap(0).items| == 0;
  }

  lemma TrimPendingOk(pending: Book, queue: Book, all: set<Tx>, a: Address, l: List, dropped: Items)
    requires BooksOk(pending, queue, all) && a in pending && l.strict && l.Valid() && SubMap(l.items, pending[a].items)
    requires SubMap(dropped, pending[a].items) && dropped.Keys !! l.items.Keys
    ensures BooksOk(pending[a := l], queue, all - dropped.Values)
  {
    var all' := all - dropped.Values;
    var q := Of(queue, a, false);
    assert AccountOk(a, Of(pending, a, true), q, all);
    forall t | t in dropped.Values ensures t.sender == a && t.nonce in dropped { }
    assert Owned(q, a, all') && Owned(l, a, all');
    AccountChange(pending, queue, all, pending[a := l], queue, all', a);
  }

  lemma MovedFree(pending: Book, queue: Book, all: set<Tx>, a: Address, dropped: Items, moved: Items)
    requires BooksOk(pending, queue, all) && a in pending && SubMap(dropped, pending[a].items)
    requires SubMap(moved, pending[a].items) && moved.Keys !! dropped.Keys
    ensures Filed(moved) && moved.Keys !! Of(queue, a, false).items.Keys
    ensures forall n :: n in moved ==> moved[n].sender == a && moved[n] in all - dropped.Values
  {
    assert AccountOk(a, Of(pending, a, true), Of(queue, a, false), all);
    forall t | t in dropped.Values ensures t.nonce in dropped { }
  }

  lemma TidyOk(pending: Book, queue: Book, all: set<Tx>, a: Address)
    requires BooksOk(pending, queue, all) && a in pending
    ensures BooksOk(With(pending, a, pending[a]), queue, all)
  {
    assert AccountOk(a, Of(pending, a, true), Of(queue, a, false), all);
    WithOnlyAt(pending, a, pending[a], true);
    AccountChange(pending, queue, all, With(pending, a, pending[a]), queue, all, a);
  }

  lemma SameUntil(state: ChainState, done: set<Address>, p0: Book, q0: Book, p: Book, q: Book, a: Address)
    requires Demotion(state, done, p0, q0, p, q) && a !in done
    ensures Of(p, a, true) == Of(p0, a, true) && Of(q, a, false) == Of(q0, a, false)
  {
    hide Of;
  }

  lemma DropsIn(state: ChainState, p: Book, a: Address, l: List)
    requires l == Of(p, a, true)
    ensures var d := Discarded(state, a, l);
      forall t: Tx :: t.sender == a ==> (Drops(state, p, t) <==> t.nonce in d && d[t.nonce] == t)
  {
    hide Of, Discarded;
  }

  lemma DroppedOwned(state: ChainState, pending: Book, queue: Book, all: set<Tx>, a: Address)
    requires BooksOk(pending, queue, all)
    ensures var d := Discarded(state, a, Of(pending, a, true));
      forall t: Tx :: t in d.Values <==> t.sender == a && t.nonce in d && d[t.nonce] == t
  {
    var l := Of(pending, a, true);
    assert AccountOk(a, l, Of(queue, a, false), all);
    DemotionConserves(state, a, l);
    var r, p, d := Runnable(state, a, l), Postponed(state, a, l), Discarded(state, a, l);
    hide Runnable, Postponed, Discarded, Of, BooksOk;
    forall t: Tx ensures t in d.Values <==> t.sender == a && t.nonce in d && d[t.nonce] == t {
      if n :| n in d && d[n] == t {
        assert n in l.items && l.items[n] == t;
      }
    }
  }

  lemma UnlistedKept(state: ChainState, p: Book)
    ensures forall t: Tx :: Drops(state, p, t) ==> t.sender in p
  {
  }

  lemma QueuedTwice(q: Items, i: Items, r: Items)
    ensures q + i + r == q + (i + r)
  {
  }

  ghost predicate SameElsewhere(book: Book, book': Book, a: Address) {
    forall b :: b != a ==> (b in book' <==> b in book) && (b in book ==> book'[b] == book[b])
  }

  lemma OnlyAtTwice(book: Book, book': Book, book'': Book, a: Address, strict: bool)
    requires OnlyAt(book, book', a, strict) && OnlyAt(book', book'', a, strict)
    ensures OnlyAt(book, book'', a, strict)
  {
    hide Of;
  }

  lemma DisjointParts(all: Items, b: Items, f: Items, u: Items)
    requires b.Keys !! f.Keys && SubMap(u, f)
    ensures b.Keys !! u.Keys
  {
  }

  lemma DemotedBoth(state: ChainState, a: Address, p: Book, p': Book, q: Book, q1: Book, q': Book)
    requires a in p && OnlyAt(q, q1, a, false) && OnlyAt(q1, q', a, false)
    requires var f := Affordable(state, a, p[a]); var headed := state.Nonce(a) in f.items;
      && p' == With(p[a := f], a, if headed then f else f.Cap(0))
      && Of(q1, a, false).items == Of(q, a, false).items + p[a].Forward(state.Nonce(a)).Invalidated(state.Balance(a), state.maxGas)
      && Of(q', a, false).items == Of(q1, a, false).items + (if headed then map[] else f.items)
    ensures Demoted(state, a, Of(p, a, true), Of(q, a, false), Of(p', a, true), Of(q', a, false))
    ensures OnlyAt(p, p', a, true) && OnlyAt(q, q', a, false) && SameElsewhere(p, p', a)
    ensures a in p' ==> state.Nonce(a) in p'[a].items
  {
    hide Affordable, Runnable, Postponed, OnlyAt, List.Invalidated, SameElsewhere;
    OnlyAtTwice(q, q1, q', a, false);
    var f := Affordable(state, a, p[a]);
    DemotedItems(state, a, p[a], f, Of(q, a, false).items);
    PutElsewhere(p, a, f, if state.Nonce(a) in f.items then f else f.Cap(0));
  }

  lemma PutElsewhere(p: Book, a: Address, l: List, l': List)
    ensures var p' := With(p[a := l], a, l');
      && OnlyAt(p, p', a, true) && SameElsewhere(p, p', a) && Of(p', a, true).items == l'.items
      && (a in p' ==> p'[a] == l' && l'.items != map[])
  {
  }

  lemma DemotedItems(state: ChainState, a: Address, l: List, f: List, q: Items)
    requires f == Affordable(state, a, l)
    ensures var i := l.Forward(state.Nonce(a)).Invalidated(state.Balance(a), state.maxGas);
      q + i + (if state.Nonce(a) in f.items then map[] else f.items) == q + Postponed(state, a, l)
    ensures (if state.Nonce(a) in f.items then f else f.Cap(0)).items == Runnable(state, a, l)
    ensures f.Cap(0).items == map[]
  {
    hide Affordable, List.Invalidated;
    assert |f.Cap(0).items| == 0;
    QueuedTwice(q, l.Forward(state.Nonce(a)).Invalidated(state.Balance(a), state.maxGas), f.items);
    QueuedTwice(q, l.Forward(state.Nonce(a)).Invalidated(state.Balance(a), state.maxGas), map[]);
  }

  /** No executable list has a hole below a transaction that demotion keeps, and no emptied account has a stale virtual nonce. */
  ghost predicate Rebased(state: ChainState, p: Book, nonces: map<Address, nat>) {
    forall a: Address ::
      && (forall hole: nat, n: nat :: !Holed(state, a, Of(p, a, true).items, hole, n))
      && (Runnable(state, a, Of(p, a, true)) == map[] ==> VirtualNonce(state, nonces, a) == state.Nonce(a))
  }

  /** The nonce behind the last executable transaction, or the given one if there is none. */
  function NonceBehind(l: List, otherwise: nat): nat {
    if l.items == map[] then otherwise else MaxOf(l.items.Keys) + 1
  }

  /** Every virtual nonce is right behind the account's last executable transaction, if it has one. */
  ghost predicate Renumbered(state: ChainState, p: Book, nonces: map<Address, nat>, nonces': map<Address, nat>) {
    forall a: Address :: VirtualNonce(state, nonces', a) == NonceBehind(Of(p, a, true), VirtualNonce(state, nonces, a))
  }

  lemma RebasedFromGapFree(state: ChainState, newState: ChainState, p: Book, nonces: map<Address, nat>)
    requires AllGapFree(state, p, nonces)
    ensures Rebased(newState, p, map[])
  {
    hide Runnable, PaidUpTo;
    forall a: Address, hole: nat, n: nat ensures !Holed(newState, a, Of(p, a, true).items, hole, n) {
      assert GapFree(Of(p, a, true), state.Nonce(a), VirtualNonce(state, nonces, a));
    }
    hide Holed, Of, AllGapFree;
  }

  lemma RebasedIff(state: ChainState, p: Book, q: Book, all: set<Tx>, nonces: map<Address, nat>, p': Book, q': Book, nonces': map<Address, nat>)
    requires BooksOk(p, q, all) && Demotion(state, p.Keys, p, q, p', q')
    requires Renumbered(state, p', nonces, nonces')
    ensures AllGapFree(state, p', nonces') <==> Rebased(state, p, nonces)
  {
    hide Demotion, BooksOk, Of, Runnable, Holed, MaxOf;
    forall a: Address
      ensures GapFree(Of(p', a, true), state.Nonce(a), VirtualNonce(state, nonces', a)) <==>
        && (forall hole: nat, n: nat :: !Holed(state, a, Of(p, a, true).items, hole, n))
        && (Runnable(state, a, Of(p, a, true)) == map[] ==> VirtualNonce(state, nonces, a) == state.Nonce(a))
    {
      DemotedGapFree(state, p, q, p', q', all, a);
      RunnableIs(state, p, q, p', q', a);
      if Of(p', a, true).Contiguous(state.Nonce(a)) && Of(p', a, true).items != map[] {
        TopOfRun(Of(p', a, true), state.Nonce(a));
      }
    }
  }

  lemma RunnableIs(state: ChainState, p: Book, q: Book, p': Book, q': Book, a: Address)
    requires Demotion(state, p.Keys, p, q, p', q')
    ensures Of(p', a, true).items == Runnable(state, a, Of(p, a, true))
  {
    hide List.Filter, List.Forward;
    if a !in p {
      assert Of(p', a, true) == List(true, map[], 0, 0);
      RunnableMeaning(state, a, List(true, map[], 0, 0), state.Nonce(a));
    }
  }

  lemma TopOfRun(l: List, lo: nat)
    requires l.Contiguous(lo) && l.items != map[]
    ensures MaxOf(l.items.Keys) + 1 == lo + |l.items|
  {
    assert lo + |l.items| - 1 in l.items;
  }

  /** A payable transaction alone in the queue, at the virtual nonce, becomes executable at once. */
  lemma PromotedAlone(config: Config, state: ChainState, locals: set<Address>, a: Address, tx: Tx, p: Items, q: List, virtualNonce: nat,
                      p': Items, q': Items, virtualNonce': nat)
    requires Promoted(config, state, locals, a, p, q, virtualNonce, p', q', virtualNonce')
    requires !q.strict && q.items == map[tx.nonce := tx] && state.Nonce(a) <= tx.nonce == virtualNonce
    requires tx.Cost() <= state.Balance(a) && tx.gas <= state.maxGas
    ensures p' == p[tx.nonce := tx] && q' == map[] && virtualNonce' == tx.nonce + 1
  {
    hide Payable, ReadyRange, Between, Without, Lowest, Tx.Cost;
    PayableAlone(config, state, a, tx, q);
    ReadyAlone(tx);
    assert p + map[tx.nonce := tx] == p[tx.nonce := tx];
    LowestNone(config.accountQueue);
  }

  lemma PayableAlone(config: Config, state: ChainState, a: Address, tx: Tx, q: List)
    requires !q.strict && q.items == map[tx.nonce := tx] && state.Nonce(a) <= tx.nonce
    requires tx.Cost() <= state.Balance(a) && tx.gas <= state.maxGas
    ensures Payable(config, state, a, q).items == q.items
  {
    hide List.Filter, Tx.Cost;
    assert From(q.items, state.Nonce(a)) == q.items;
    FilterNothing(q.Forward(state.Nonce(a)), state.Balance(a), state.maxGas);
  }

  lemma ReadyAlone(tx: Tx)
    ensures var items, n := map[tx.nonce := tx], tx.nonce;
      && ReadyRange(items, n) == (n, n + 1) && Between(items, n, n + 1) == items && Without(items, n, n + 1) == map[]
  {
    var items, n := map[tx.nonce := tx], tx.nonce;
    assert items.Keys == {n};
    hide MinOf;
    assert n in items && n + 1 !in items;
    assert RunEnd(items, n) == n + 1;
  }

  lemma LowestNone(k: nat)
    ensures Lowest(map[], k) == map[]
  {
  }

  lemma FilterNothing(l: List, costLimit: nat, gasLimit: nat)
    requires !l.strict && forall n :: n in l.items ==> l.items[n].Cost() <= costLimit && l.items[n].gas <= gasLimit
    ensures l.Filter(costLimit, gasLimit).items == l.items
  {
    hide Tx.Cost;
    assert l.Unpayable(costLimit, gasLimit) == map[];
  }

  lemma ShedNothing(all: set<Tx>, p: Book, q: Book)
    ensures Shed(all, all, p, q, p, q)
  {
  }

  lemma ShedTwice(all: set<Tx>, all': set<Tx>, all'': set<Tx>, p: Book, q: Book, p': Book, q': Book, p'': Book, q'': Book)
    requires Shed(all, all', p, q, p', q') && Shed(all', all'', p', q', p'', q'')
    ensures Shed(all, all'', p, q, p'', q'')
  {
    hide InBooks;
  }

  lemma ShedIsLess(all: set<Tx>, all': set<Tx>, p: Book, q: Book, p': Book, q': Book)
    requires Shed(all, all', p, q, p', q')
    ensures all' <= all
  {
    hide InBooks;
  }

  /** No transaction is both executable and queued. */
  lemma ListedOnce(p: Book, q: Book, all: set<Tx>, t: Tx)
    requires BooksOk(p, q, all)
    ensures !(Listed(p, t) && Listed(q, t))
  {
    assert AccountOk(t.sender, Of(p, t.sender, true), Of(q, t.sender, false), all);
  }

  lemma ShrankSheds(all: set<Tx>, all': set<Tx>, p: Book, q: Book, p': Book)
    requires PoolShrank(all, all', p, p') && BooksOk(p, q, all)
    ensures Shed(all, all', p, q, p', q)
  {
    forall t ensures !(Listed(p, t) && Listed(q, t)) { ListedOnce(p, q, all, t); }
    hide BooksOk, Listed;
  }

  lemma QueueShrankSheds(all: set<Tx>, all': set<Tx>, p: Book, q: Book, q': Book)
    requires PoolShrank(all, all', q, q') && BooksOk(p, q, all)
    ensures Shed(all, all', p, q, p, q')
  {
    forall t ensures !(Listed(p, t) && Listed(q, t)) { ListedOnce(p, q, all, t); }
    hide BooksOk, Listed;
  }

  /** Cutting a queue down to a part of it. */
  lemma TrimShrinks(pending: Book, queue: Book, all: set<Tx>, a: Address, l: List)
    requires BooksOk(pending, queue, all) && a in queue && SubMap(l.items, queue[a].items)
    ensures PoolShrank(all, all - (queue[a].items - l.items.Keys).Values, queue, queue[a := l])
  {
    var gone := queue[a].items - l.items.Keys;
    assert AccountOk(a, Of(pending, a, true), Of(queue, a, false), all);
    forall t ensures t in gone.Values <==> Listed(queue, t) && !Listed(queue[a := l], t) {
      if Listed(queue, t) && t.sender == a && t.nonce !in l.items {
        assert t.nonce in gone && gone[t.nonce] == t;
      }
    }
    forall t | Listed(queue[a := l], t) ensures Listed(queue, t) { }
    hide BooksOk, Listed;
  }

  /** Moving a run from the queue to the executable list changes neither what is listed nor what is pooled. */
  lemma RunSheds(all: set<Tx>, p: Book, q: Book, p': Book, a: Address, lo: nat, hi: nat)
    requires BooksOk(p, q, all) && a in q && OnlyAt(p, p', a, true)
    requires Of(p', a, true).items == Of(p, a, true).items + Between(q[a].items, lo, hi)
    ensures var q' := q[a := q[a].(items := Without(q[a].items, lo, hi))]; Shed(all, all, p, q, p', q')
  {
    var q' := q[a := q[a].(items := Without(q[a].items, lo, hi))];
    assert AccountOk(a, Of(p, a, true), Of(q, a, false), all);
    forall t ensures InBooks(p', q', t) <==> InBooks(p, q, t) {
      ListedIn(p, t, true);
      ListedIn(p', t, true);
      ListedIn(q, t, false);
      ListedIn(q', t, false);
    }
    hide InBooks, BooksOk;
  }

  lemma ListedIn(book: Book, t: Tx, strict: bool)
    ensures Listed(book, t) <==> t.nonce in Of(book, t.sender, strict).items && Of(book, t.sender, strict).items[t.nonce] == t
  {
  }

  lemma TidySheds(all: set<Tx>, p: Book, q: Book, a: Address)
    requires a in q
    ensures Shed(all, all, p, q, p, With(q, a, q[a]))
  {
    forall t ensures Listed(With(q, a, q[a]), t) <==> Listed(q, t) { }
    hide Listed;
  }
}
