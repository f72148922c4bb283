/** What a new chain state makes of an executable list: which transactions stay, go back to the queue, or are dropped. */
module PoolDemotions {
  import opened Transactions
  import opened TxLists
  import opened PoolStates

  ghost predicate SubMap(m: Items, m': Items) {
    m.Keys <= m'.Keys && forall n :: n in m ==> m[n] == m'[n]
  }

  /** The list without old nonces, unpayable transactions, and what an unpayable one invalidates. */
  function Affordable(state: ChainState, a: Address, l: List): List {
    l.Forward(state.Nonce(a)).Filter(state.Balance(a), state.maxGas)
  }

  /** What stays executable: nothing at all if the state nonce itself is missing. */
  function Runnable(state: ChainState, a: Address, l: List): Items {
    if state.Nonce(a) in Affordable(state, a, l).items then Affordable(state, a, l).items else map[]
  }

  /** What goes back to the queue. */
  function Postponed(state: ChainState, a: Address, l: List): Items {
    var invalid := l.Forward(state.Nonce(a)).Invalidated(state.Balance(a), state.maxGas);
    if state.Nonce(a) in Affordable(state, a, l).items then invalid else invalid + Affordable(state, a, l).items
  }

  /** What is dropped: old nonces, and what the account cannot pay. */
  function Discarded(state: ChainState, a: Address, l: List): Items {
    Below(l.items, state.Nonce(a)) + l.Forward(state.Nonce(a)).Unpayable(state.Balance(a), state.maxGas)
  }

  /** The account can pay for the transaction, and a block can hold it. */
  predicate CanPay(state: ChainState, t: Tx) {
    t.Cost() <= state.Balance(t.sender) && t.gas <= state.maxGas
  }

  /** The account's own nonces from the state nonce up to `n` are all payable. */
  ghost predicate PaidUpTo(state: ChainState, a: Address, items: Items, n: nat) {
    forall m :: m in items && state.Nonce(a) <= m <= n ==> CanPay(state, items[m])
  }

  /** Nothing is lost: a list splits into what stays, what is postponed and what is dropped. */
  lemma DemotionConserves(state: ChainState, a: Address, l: List)
    requires l.Valid()
    ensures var r, p, d := Runnable(state, a, l), Postponed(state, a, l), Discarded(state, a, l);
      && r.Keys !! p.Keys && r.Keys !! d.Keys && p.Keys !! d.Keys && l.items == r + p + d
  {
    hide List.Filter, List.Unpayable, List.Invalidated, Tx.Cost, Below, From;
    var f, n, cost, gas := l.Forward(state.Nonce(a)), state.Nonce(a), state.Balance(a), state.maxGas;
    BelowFrom(l, n);
    FilterSplits(f, cost, gas);
    if n in f.Filter(cost, gas).items {
      Regroup(l.items, Below(l.items, n), f.items, f.Unpayable(cost, gas), f.Invalidated(cost, gas), f.Filter(cost, gas).items);
    } else {
      RegroupAll(l.items, Below(l.items, n), f.items, f.Unpayable(cost, gas), f.Invalidated(cost, gas), f.Filter(cost, gas).items);
    }
  }

  lemma BelowFrom(l: List, n: nat)
    requires l.Valid()
    ensures l.items == Below(l.items, n) + l.Forward(n).items && Below(l.items, n).Keys !! l.Forward(n).items.Keys
    ensures l.Forward(n).Valid() && l.Forward(n).strict == l.strict
  {
  }

  lemma Regroup(all: Items, b: Items, f: Items, u: Items, i: Items, r: Items)
    requires all == b + f && b.Keys !! f.Keys && f == u + i + r && u.Keys !! i.Keys && u.Keys !! r.Keys && i.Keys !! r.Keys
    ensures r.Keys !! i.Keys && r.Keys !! (b + u).Keys && i.Keys !! (b + u).Keys && all == r + i + (b + u)
  {
  }

  lemma RegroupAll(all: Items, b: Items, f: Items, u: Items, i: Items, r: Items)
    requires all == b + f && b.Keys !! f.Keys && f == u + i + r && u.Keys !! i.Keys && u.Keys !! r.Keys && i.Keys !! r.Keys
    ensures (i + r).Keys !! (b + u).Keys && all == map[] + (i + r) + (b + u)
  {
  }

  lemma ThreeParts(all: Items, u: Items, i: Items, r: Items)
    requires u.Keys !! i.Keys && u.Keys !! r.Keys && i.Keys !! r.Keys && all == u + i + r
    ensures SubMap(u, all) && SubMap(i, all) && SubMap(r, all)
  {
  }

  /** Filtering splits a list, whether it scans or takes its short cut. */
  lemma FilterSplits(l: List, costLimit: nat, gasLimit: nat)
    requires l.Valid()
    ensures var u, i, r := l.Unpayable(costLimit, gasLimit), l.Invalidated(costLimit, gasLimit), l.Filter(costLimit, gasLimit);
      && u.Keys !! i.Keys && u.Keys !! r.items.Keys && i.Keys !! r.items.Keys && l.items == u + i + r.items
      && r.items == l.Scanned(costLimit, gasLimit) && r.Valid() && r.strict == l.strict
      && SubMap(u, l.items) && SubMap(i, l.items) && SubMap(r.items, l.items)
  {
    hide List.Unpayable, List.Invalidated, List.Scanned, Tx.Cost, SubMap;
    ScanConserves(l, costLimit, gasLimit);
    ScannedValid(l, costLimit, gasLimit);
    ThreeParts(l.items, l.Unpayable(costLimit, gasLimit), l.Invalidated(costLimit, gasLimit), l.Scanned(costLimit, gasLimit));
    if l.costcap <= costLimit && l.gascap <= gasLimit {
      ShortCut(l, costLimit, gasLimit);
    }
  }

  /** A transaction is dropped exactly if its nonce is used or it cannot be paid. */
  lemma DiscardedMeaning(state: ChainState, a: Address, l: List, n: nat)
    requires l.Valid() && n in l.items && l.items[n].sender == a
    ensures n in Discarded(state, a, l) <==> n < state.Nonce(a) || !CanPay(state, l.items[n])
  {
  }

  /**
  A transaction stays executable exactly if the state nonce is in the list and everything from
  there up to the transaction can be paid.
  */
  lemma RunnableMeaning(state: ChainState, a: Address, l: List, n: nat)
    requires l.Valid() && l.strict && forall m :: m in l.items ==> l.items[m].sender == a
    ensures n in Runnable(state, a, l) <==>
      n in l.items && n >= state.Nonce(a) && state.Nonce(a) in l.items && PaidUpTo(state, a, l.items, n)
  {
    hide List.Filter, List.Scanned, List.Unpayable, List.Invalidated, Tx.Cost, SubMap;
    var f, cost, gas := l.Forward(state.Nonce(a)), state.Balance(a), state.maxGas;
    BelowFrom(l, state.Nonce(a));
    FilterSplits(f, cost, gas);
    forall k: nat ensures k in f.Scanned(cost, gas) <==>
      k in l.items && k >= state.Nonce(a) && PaidUpTo(state, a, l.items, k)
    {
      StrictScan(f, cost, gas, k);
    }
    hide List.Valid;
  }

  /** A strict scan keeps what is payable together with everything below it. */
  lemma StrictScan(l: List, costLimit: nat, gasLimit: nat, n: nat)
    requires l.strict
    ensures n in l.Scanned(costLimit, gasLimit) <==>
      n in l.items && forall m :: m in l.items && m <= n ==> !TooMuch(costLimit, gasLimit)(l.items[m])
  {
    var bad := l.Unpayable(costLimit, gasLimit);
    hide TooMuch;
    if n in l.items {
      if m :| m in l.items && m <= n && TooMuch(costLimit, gasLimit)(l.items[m]) {
        assert m in bad;
      }
    }
  }

  /** A hole below a transaction that is kept: the demotion does not look for these. */
  ghost predicate Holed(state: ChainState, a: Address, items: Items, hole: nat, n: nat) {
    && state.Nonce(a) < hole < n && hole !in items && state.Nonce(a) in items && n in items && PaidUpTo(state, a, items, n)
  }

  /** The demoted list is a gap-free run if and only if the list had no such hole. */
  lemma RunnableGapFree(state: ChainState, a: Address, l: List)
    requires l.Valid() && l.strict && forall m :: m in l.items ==> l.items[m].sender == a
    ensures l.(items := Runnable(state, a, l)).Contiguous(state.Nonce(a)) <==> !exists hole, n :: Holed(state, a, l.items, hole, n)
  {
    var r := Runnable(state, a, l);
    forall n: nat ensures n in r <==> n in l.items && n >= state.Nonce(a) && state.Nonce(a) in l.items && PaidUpTo(state, a, l.items, n) {
      RunnableMeaning(state, a, l, n);
    }
    hide Runnable, CanPay, List.Valid;
    if hole, n :| Holed(state, a, l.items, hole, n) {
      assert n in r && hole !in r;
    } else if r != map[] {
      NoHoles(state, a, l.items, r);
    }
  }

  /** A list that was contiguous from anywhere becomes a run from the state nonce. */
  lemma ContiguousRuns(state: ChainState, a: Address, l: List, lo: nat)
    requires l.Valid() && l.strict && (forall m :: m in l.items ==> l.items[m].sender == a) && l.Contiguous(lo)
    ensures l.(items := Runnable(state, a, l)).Contiguous(state.Nonce(a))
  {
    hide Runnable, PaidUpTo, List.Valid;
    RunnableGapFree(state, a, l);
  }

  lemma NoHoles(state: ChainState, a: Address, items: Items, r: Items)
    requires r != map[] && !exists hole, n :: Holed(state, a, items, hole, n)
    requires forall n :: n in r <==> n in items && n >= state.Nonce(a) && state.Nonce(a) in items && PaidUpTo(state, a, items, n)
    ensures forall n :: n in r <==> state.Nonce(a) <= n < state.Nonce(a) + |r|
  {
    hide CanPay, MaxOf;
    var lo, top := state.Nonce(a), MaxOf(r.Keys);
    assert top in items && lo in items && PaidUpTo(state, a, items, top);
    forall n: nat | lo <= n <= top ensures n in r {
      PaidBelow(state, a, items, n, top);
      assert n in items || n == lo || Holed(state, a, items, n, top);
    }
    hide PaidUpTo, Holed;
    RangeSize(r.Keys, lo, top + 1);
  }

  lemma PaidBelow(state: ChainState, a: Address, items: Items, n: nat, top: nat)
    requires PaidUpTo(state, a, items, top) && n <= top
    ensures PaidUpTo(state, a, items, n)
  {
  }

  /** One account demoted. */
  ghost predicate Demoted(state: ChainState, a: Address, p: List, q: List, p': List, q': List) {
    && p'.items == Runnable(state, a, p) && q'.items == q.items + Postponed(state, a, p)
  }

  /** The given accounts demoted, the others as they were. */
  ghost predicate Demotion(state: ChainState, accounts: set<Address>, p: Book, q: Book, p': Book, q': Book) {
    forall a: Address ::
      if a in accounts then Demoted(state, a, Of(p, a, true), Of(q, a, false), Of(p', a, true), Of(q', a, false))
      else Of(p', a, true) == Of(p, a, true) && Of(q', a, false) == Of(q, a, false)
  }

  /** The transaction is dropped from its sender's list. */
  ghost predicate Drops(state: ChainState, book: Book, t: Tx) {
    var d := Discarded(state, t.sender, Of(book, t.sender, true));
    t.nonce in d && d[t.nonce] == t
  }

  lemma DemotionNone(state: ChainState, p: Book, q: Book)
    ensures Demotion(state, {}, p, q, p, q)
  {
  }

  lemma DemotionStep(state: ChainState, done: set<Address>, p0: Book, q0: Book, p: Book, q: Book, p': Book, q': Book, a: Address)
    requires Demotion(state, done, p0, q0, p, q) && a !in done
    requires OnlyAt(p, p', a, true) && OnlyAt(q, q', a, false)
    requires Demoted(state, a, Of(p, a, true), Of(q, a, false), Of(p', a, true), Of(q', a, false))
    ensures Demotion(state, done + {a}, p0, q0, p', q')
  {
    hide Of, Demoted;
  }

  /** What a demotion leaves is gap-free if there were no holes, and only then. */
  lemma DemotionGapFree(state: ChainState, p: Book, q: Book, p': Book, q': Book, all: set<Tx>)
    requires BooksOk(p, q, all) && Demotion(state, p.Keys, p, q, p', q')
    ensures (forall a: Address :: Of(p', a, true).Contiguous(state.Nonce(a))) <==>
      forall a: Address, hole: nat, n: nat :: !Holed(state, a, Of(p, a, true).items, hole, n)
  {
    forall a: Address
      ensures Of(p', a, true).Contiguous(state.Nonce(a)) <==> !exists hole, n :: Holed(state, a, Of(p, a, true).items, hole, n)
    {
      DemotedGapFree(state, p, q, p', q', all, a);
    }
    hide Of, Holed, List.Contiguous;
  }

  lemma DemotedGapFree(state: ChainState, p: Book, q: Book, p': Book, q': Book, all: set<Tx>, a: Address)
    requires BooksOk(p, q, all) && Demotion(state, p.Keys, p, q, p', q')
    ensures Of(p', a, true).Contiguous(state.Nonce(a)) <==> !exists hole, n :: Holed(state, a, Of(p, a, true).items, hole, n)
  {
    hide Runnable, Postponed, PaidUpTo;
    var l := Of(p, a, true);
    assert AccountOk(a, l, Of(q, a, false), all);
    RunnableGapFree(state, a, l);
  }
}
