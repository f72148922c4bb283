/**
One account's transaction list: a sorted map with upper bounds on cost and gas that let
`Filter` skip its scan. `List` is the value of such a list, with what each operation does
to it; the class `TxList` carries the operations out.
*/
module TxLists {
  import opened Options
  import opened Transactions
  import opened TxSortedMaps

  function Max(a: nat, b: nat): nat {
    if a < b then b else a
  }

  datatype List = List(strict: bool, items: Items, costcap: nat, gascap: nat) {

    /** Filed under own nonces, and the caps bound every member. */
    ghost predicate Valid() {
      && Filed(items)
      && forall n :: n in items ==> items[n].Cost() <= costcap && items[n].gas <= gascap
    }

    /** A new transaction must outbid the one it replaces by `bump` per cent. */
    predicate Accepts(tx: Tx, bump: nat) {
      tx.nonce in items ==> items[tx.nonce].price * (100 + bump) / 100 < tx.price
    }

    function Add(tx: Tx): List {
      this.(items := items[tx.nonce := tx], costcap := Max(costcap, tx.Cost()), gascap := Max(gascap, tx.gas))
    }

    function Forward(threshold: nat): List {
      this.(items := From(items, threshold))
    }

    function Cap(k: nat): List {
      this.(items := Lowest(items, k))
    }

    /** What a full scan finds too expensive. */
    function Unpayable(costLimit: nat, gasLimit: nat): Items {
      Where(items, TooMuch(costLimit, gasLimit))
    }

    /** What a strict list loses beyond that: everything above the lowest unpayable nonce. */
    function Invalidated(costLimit: nat, gasLimit: nat): Items {
      var bad := Unpayable(costLimit, gasLimit);
      if strict && bad != map[] then From(items, MinOf(bad.Keys)) - bad.Keys else map[]
    }

    /** The list after a full scan, without any short cut. */
    function Scanned(costLimit: nat, gasLimit: nat): Items {
      items - Unpayable(costLimit, gasLimit).Keys - Invalidated(costLimit, gasLimit).Keys
    }

    /** The list after filtering: untouched if the caps already keep the limits. */
    function Filter(costLimit: nat, gasLimit: nat): List {
      if costcap <= costLimit && gascap <= gasLimit then this
      else List(strict, Scanned(costLimit, gasLimit), costLimit, gasLimit)
    }

    /** The list after removing a nonce; a strict list loses everything above it too. */
    function Remove(nonce: nat): List {
      this.(items := if nonce !in items then items else if strict then Below(items, nonce) else items - {nonce})
    }

    ghost predicate Contiguous(lo: nat) {
      forall n :: n in items <==> lo <= n < lo + |items|
    }
  }

  function TooMuch(costLimit: nat, gasLimit: nat): Tx -> bool {
    (t: Tx) => t.Cost() > costLimit || t.gas > gasLimit
  }

  /** The short cut of Filter is sound: below the caps a scan would find nothing. */
  lemma ShortCut(l: List, costLimit: nat, gasLimit: nat)
    requires l.Valid() && l.costcap <= costLimit && l.gascap <= gasLimit
    ensures l.Unpayable(costLimit, gasLimit) == map[] == l.Invalidated(costLimit, gasLimit)
    ensures l.Scanned(costLimit, gasLimit) == l.items && Lists(map[], [])
  {
    hide Tx.Cost;
    var bad := l.Unpayable(costLimit, gasLimit);
    assert bad == map[] by {
      assert forall n :: n in l.items ==> !TooMuch(costLimit, gasLimit)(l.items[n]);
    }
    hide Where, List.Unpayable;
    MinusNothing(l.items, map[]);
  }

  lemma MinusNothing(items: Items, none: Items)
    requires none == map[]
    ensures items - none.Keys - none.Keys == items
  {
  }

  /** A scan splits the list: what stays, what is unpayable, what is invalidated. */
  lemma ScanConserves(l: List, costLimit: nat, gasLimit: nat)
    ensures var u, i, r := l.Unpayable(costLimit, gasLimit), l.Invalidated(costLimit, gasLimit), l.Scanned(costLimit, gasLimit);
      && u.Keys !! i.Keys && u.Keys !! r.Keys && i.Keys !! r.Keys && l.items == u + i + r
  {
  }

  /** Forwarding a contiguous list leaves a contiguous list that starts no lower. */
  lemma ForwardContiguous(l: List, lo: nat, threshold: nat)
    requires l.Contiguous(lo)
    ensures var start := if threshold <= lo then lo else if threshold <= lo + |l.items| then threshold else lo + |l.items|;
      l.Forward(threshold).Contiguous(start)
  {
    var start := if threshold <= lo then lo else if threshold <= lo + |l.items| then threshold else lo + |l.items|;
    RangeSize(l.Forward(threshold).items.Keys, start, lo + |l.items|);
  }

  /** Everything else a strict list can lose is at its end. */
  lemma CapContiguous(l: List, lo: nat, k: nat)
    requires l.Contiguous(lo)
    ensures l.Cap(k).Contiguous(lo)
  {
    PrefixOfRange(l.items.Keys, l.Cap(k).items.Keys, lo, lo + |l.items|);
  }

  lemma RemoveContiguous(l: List, lo: nat, nonce: nat)
    requires l.Contiguous(lo) && l.strict
    ensures l.Remove(nonce).Contiguous(lo)
  {
    if nonce in l.items {
      RangeSize(Below(l.items, nonce).Keys, lo, nonce);
    }
  }

  lemma ScanContiguous(l: List, lo: nat, costLimit: nat, gasLimit: nat)
    requires l.Contiguous(lo) && l.strict
    ensures l.(items := l.Scanned(costLimit, gasLimit)).Contiguous(lo)
  {
    hide Tx.Cost, TooMuch;
    var bad := l.Unpayable(costLimit, gasLimit);
    if bad == map[] {
      assert l.Scanned(costLimit, gasLimit) == l.items;
    } else {
      var m := MinOf(bad.Keys);
      assert l.Scanned(costLimit, gasLimit).Keys == Below(l.items, m).Keys;
      RangeSize(Below(l.items, m).Keys, lo, m);
    }
  }

  lemma {:induction false} RangeSize(s: set<nat>, lo: nat, hi: nat)
    requires lo <= hi && forall n :: n in s <==> lo <= n < hi
    ensures |s| == hi - lo
    decreases hi
  {
    if lo < hi {
      assert s == (s - {hi - 1}) + {hi - 1};
      RangeSize(s - {hi - 1}, lo, hi - 1);
    } else {
      assert s == {};
    }
  }

  /** A downward-closed part of a range is a range. */
  lemma PrefixOfRange(s: set<nat>, r: set<nat>, lo: nat, hi: nat)
    requires (forall n :: n in s <==> lo <= n < hi) && r <= s
    requires forall n, m :: n in r && m in s && m !in r ==> n < m
    ensures forall n :: n in r <==> lo <= n < lo + |r|
  {
    if r == {} {
    } else {
      var top := MaxOf(r);
      assert forall n :: n in r <==> lo <= n < top + 1;
      RangeSize(r, lo, top + 1);
    }
  }

  /** A transaction is accepted if and only if its nonce is free or its price is more than `bump` per cent above the old one. */
  lemma AcceptsIff(l: List, tx: Tx, bump: nat)
    ensures l.Accepts(tx, bump) <==> tx.nonce in l.items ==> 100 * tx.price > 100 * l.items[tx.nonce].price + bump * l.items[tx.nonce].price
  {
    if tx.nonce in l.items {
      var x := l.items[tx.nonce].price;
      assert x * (100 + bump) == 100 * x + bump * x;
    }
  }

  /** The list after offering transactions to it in turn; those it does not accept leave it as it is. */
  ghost function Offered(l: List, txs: seq<Tx>, bump: nat): List {
    if txs == [] then l
    else
      var m, tx := Offered(l, txs[..|txs| - 1], bump), txs[|txs| - 1];
      if m.Accepts(tx, bump) then m.Add(tx) else m
  }

  /** How many of the offered transactions were accepted at a nonce. */
  ghost function Accepted(l: List, txs: seq<Tx>, bump: nat, nonce: nat): nat {
    if txs == [] then 0
    else
      var before, tx := txs[..|txs| - 1], txs[|txs| - 1];
      Accepted(l, before, bump, nonce) + if tx.nonce == nonce && Offered(l, before, bump).Accepts(tx, bump) then 1 else 0
  }

  /** Over any run of offers a taken nonce stays taken, and each accepted replacement raises its price by at least one. */
  lemma {:induction false} Outbid(l: List, txs: seq<Tx>, bump: nat, nonce: nat)
    requires nonce in l.items
    ensures nonce in Offered(l, txs, bump).items
    ensures Offered(l, txs, bump).items[nonce].price >= l.items[nonce].price + Accepted(l, txs, bump, nonce)
  {
    if txs != [] {
      var before := txs[..|txs| - 1];
      Outbid(l, before, bump, nonce);
      BumpUp(Offered(l, before, bump).items[nonce].price, bump);
    }
  }

  lemma BumpUp(price: nat, bump: nat)
    ensures price * (100 + bump) / 100 >= price
  {
    assert price * (100 + bump) == price * 100 + price * bump;
  }

  class TxList {
    const strict: bool
    const txs: TxSortedMap
    var costcap: nat
    var gascap: nat

    ghost function Value(): List
      reads this, txs
    {
      List(strict, txs.items, costcap, gascap)
    }

    ghost predicate Valid()
      reads this, txs
    {
      txs.Valid() && Value().Valid()
    }

    constructor (strict: bool)
      ensures Valid() && fresh(txs) && Value() == List(strict, map[], 0, 0)
    {
      this.strict := strict;
      txs := new TxSortedMap();
      costcap, gascap := 0, 0;
    }

    method Overlaps(tx: Tx) returns (r: bool)
      ensures r == (tx.nonce in Value().items)
    {
      r := tx.nonce in txs.items;
    }

    /** Accepts a transaction unless its nonce is taken by one it does not outbid. */
    method Add(tx: Tx, bump: nat) returns (inserted: bool, replaced: Option<Tx>)
      requires Valid()
      modifies this, txs
      ensures Valid() && inserted == old(Value()).Accepts(tx, bump)
      ensures Value() == if inserted then old(Value()).Add(tx) else old(Value())
      ensures replaced == if inserted && tx.nonce in old(Value()).items then Some(old(Value()).items[tx.nonce]) else None
    {
      replaced := None;
      if tx.nonce in txs.items {
        var threshold := txs.items[tx.nonce].price * (100 + bump) / 100;
        if threshold >= tx.price {
          return false, None;
        }
        replaced := Some(txs.items[tx.nonce]);
      }
      txs.Put(tx);
      if costcap < tx.Cost() {
        costcap := tx.Cost();
      }
      if gascap < tx.gas {
        gascap := tx.gas;
      }
      inserted := true;
    }

    method Forward(threshold: nat) returns (removed: seq<Tx>)
      requires Valid()
      modifies txs
      ensures Valid() && Value() == old(Value()).Forward(threshold)
      ensures View(Below(old(Value()).items, threshold), removed)
    {
      removed := txs.Forward(threshold);
    }

    /**
    Removes what is too expensive and, from a strict list, what that invalidates: exactly
    what a full scan would, although the caps often spare it.
    */
    method Filter(costLimit: nat, gasLimit: nat) returns (removed: seq<Tx>, invalids: seq<Tx>)
      requires Valid()
      modifies this, txs
      ensures Valid() && Value() == old(Value()).Filter(costLimit, gasLimit)
      ensures Value().items == old(Value()).Scanned(costLimit, gasLimit)
      ensures Lists(old(Value()).Unpayable(costLimit, gasLimit), removed)
      ensures Lists(old(Value()).Invalidated(costLimit, gasLimit), invalids)
    {
      hide Lists, View, TxSortedMap.Valid, List.Valid, List.Scanned, List.Invalidated, Where, WhereNot, TooMuch;
      ghost var l := Value();
      if costcap <= costLimit && gascap <= gasLimit {
        ShortCut(l, costLimit, gasLimit);
        return [], [];
      }
      ScannedValid(l, costLimit, gasLimit);
      costcap, gascap := costLimit, gasLimit;
      removed := txs.Filter(TooMuch(costLimit, gasLimit));
      invalids := [];
      if strict && |removed| > 0 {
        var lowest := LowestNonce(removed);
        ScanStrict(l, costLimit, gasLimit, removed, lowest);
        invalids := txs.Filter(AboveNonce(lowest));
      } else {
        ScanLoose(l, costLimit, gasLimit, removed);
      }
    }

    method Cap(threshold: nat) returns (drops: seq<Tx>)
      requires Valid()
      modifies txs
      ensures Valid() && Value() == old(Value()).Cap(threshold)
      ensures Lists(old(Value()).items - Value().items.Keys, drops)
    {
      drops := txs.Cap(threshold);
    }

    method Remove(tx: Tx) returns (found: bool, invalids: seq<Tx>)
      requires Valid()
      modifies txs
      ensures Valid() && Value() == old(Value()).Remove(tx.nonce) && found == (tx.nonce in old(Value()).items)
      ensures found && strict ==> Lists(From(old(Value()).items, tx.nonce + 1), invalids)
      ensures !(found && strict) ==> invalids == []
    {
      hide Lists, View, Where, WhereNot, From, Below;
      ghost var l := Value();
      var nonce := tx.nonce;
      RemoveValid(l, nonce);
      found := txs.Remove(nonce);
      if !found {
        KeepAll(l.items, nonce);
        return false, [];
      }
      if strict {
        RemoveAbove(l.items, nonce);
        invalids := txs.Filter(AboveNonce(nonce));
      } else {
        invalids := [];
      }
    }

    method Ready(start: nat) returns (ready: seq<Tx>)
      requires Valid()
      modifies txs
      ensures Valid() && IsReady(old(Value()).items, start, Value().items, ready)
      ensures Value() == old(Value()).(items := Value().items)
    {
      ready := txs.Ready(start);
    }
  }

  method LowestNonce(s: seq<Tx>) returns (lowest: nat)
    requires s != []
    ensures (exists i :: 0 <= i < |s| && s[i].nonce == lowest) && forall i :: 0 <= i < |s| ==> lowest <= s[i].nonce
  {
    lowest := s[0].nonce;
    for i := 1 to |s|
      invariant exists j :: 0 <= j < i && s[j].nonce == lowest
      invariant forall j :: 0 <= j < i ==> lowest <= s[j].nonce
    {
      if s[i].nonce < lowest {
        lowest := s[i].nonce;
      }
    }
  }

  lemma ScanStrict(l: List, costLimit: nat, gasLimit: nat, removed: seq<Tx>, lowest: nat)
    requires l.Valid() && l.strict && Lists(l.Unpayable(costLimit, gasLimit), removed)
    requires exists i :: 0 <= i < |removed| && removed[i].nonce == lowest
    requires forall i :: 0 <= i < |removed| ==> lowest <= removed[i].nonce
    ensures var rest := WhereNot(l.items, TooMuch(costLimit, gasLimit));
      && Where(rest, AboveNonce(lowest)) == l.Invalidated(costLimit, gasLimit)
      && WhereNot(rest, AboveNonce(lowest)) == l.Scanned(costLimit, gasLimit)
  {
    var bad := l.Unpayable(costLimit, gasLimit);
    LowestListed(bad, removed, lowest);
    var rest := WhereNot(l.items, TooMuch(costLimit, gasLimit));
    hide MinOf, Lists;
    assert From(l.items, lowest) - bad.Keys == Where(rest, AboveNonce(lowest));
  }

  lemma LowestListed(items: Items, s: seq<Tx>, lowest: nat)
    requires Lists(items, s) && exists i :: 0 <= i < |s| && s[i].nonce == lowest
    requires forall i :: 0 <= i < |s| ==> lowest <= s[i].nonce
    ensures lowest in items && items != map[] && MinOf(items.Keys) == lowest
  {
    assert lowest in items.Keys;
    var i := Covered(items, s, MinOf(items.Keys));
  }

  lemma ScanLoose(l: List, costLimit: nat, gasLimit: nat, removed: seq<Tx>)
    requires l.Valid() && Lists(l.Unpayable(costLimit, gasLimit), removed) && (!l.strict || removed == [])
    ensures WhereNot(l.items, TooMuch(costLimit, gasLimit)) == l.Scanned(costLimit, gasLimit)
    ensures l.Invalidated(costLimit, gasLimit) == map[] && Lists(map[], [])
  {
    var bad := l.Unpayable(costLimit, gasLimit);
    assert |bad| == 0 ==> bad == map[];
  }

  lemma ScannedValid(l: List, costLimit: nat, gasLimit: nat)
    requires l.Valid()
    ensures List(l.strict, l.Scanned(costLimit, gasLimit), costLimit, gasLimit).Valid()
  {
    hide List.Invalidated;
  }

  lemma RemoveValid(l: List, nonce: nat)
    requires l.Valid()
    ensures l.Remove(nonce).Valid()
  {
  }

  lemma KeepAll(items: Items, nonce: nat)
    ensures nonce !in items ==> items - {nonce} == items
  {
  }

  lemma RemoveAbove(items: Items, nonce: nat)
    requires Filed(items)
    ensures Where(items - {nonce}, AboveNonce(nonce)) == From(items, nonce + 1)
    ensures WhereNot(items - {nonce}, AboveNonce(nonce)) == Below(items, nonce)
  {
    var rest := items - {nonce};
    assert Where(rest, AboveNonce(nonce)) == From(items, nonce + 1);
    assert WhereNot(rest, AboveNonce(nonce)) == Below(items, nonce);
  }
}
