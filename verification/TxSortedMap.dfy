/**
A nonce-to-transaction map with a heap of its nonces and a cached sorted copy. Every
operation keeps the three in step and does to the map what its specification says.
*/
module TxSortedMaps {
  import opened Heaps
  import opened Options
  import opened Transactions

  function NonceKey(n: nat): int {
    n
  }

  /** The index is a duplicate-free min-heap of exactly the nonces of the map. */
  ghost predicate IndexOk(index: seq<nat>, items: Items) {
    IsHeap(index, NonceKey) && multiset(index) == multiset(items.Keys)
  }

  lemma IndexFacts(index: seq<nat>, items: Items)
    requires multiset(index) == multiset(items.Keys)
    ensures |index| == |items| && forall n :: n in index <==> n in items
  {
    assert |multiset(items.Keys)| == |items.Keys|;
    assert forall n :: n in index <==> n in multiset(index);
  }

  lemma KeysAfterPut(items: Items, n: nat, tx: Tx)
    ensures Filed(items) && tx.nonce == n ==> Filed(items[n := tx])
    ensures n in items ==> items[n := tx].Keys == items.Keys
    ensures n !in items ==> multiset(items[n := tx].Keys) == multiset(items.Keys) + multiset{n}
  {
    assert items[n := tx].Keys == items.Keys + {n};
  }

  lemma KeysAfterRemove(index: seq<nat>, index': seq<nat>, items: Items, n: nat)
    requires multiset(index) == multiset(items.Keys) && multiset(index) == multiset(index') + multiset{n}
    ensures n in items && |index'| < |index| && multiset(index') == multiset((items - {n}).Keys)
  {
    assert |multiset(index)| == |multiset(index')| + 1;
    assert n in multiset(items.Keys);
    assert (items - {n}).Keys == items.Keys - {n};
    assert multiset(items.Keys - {n}) == multiset(items.Keys) - multiset{n};
  }

  /** All elements of a set, in no particular order. */
  method Elements(s: set<nat>) returns (r: seq<nat>)
    ensures multiset(r) == multiset(s)
  {
    r := [];
    var todo := s;
    while todo != {}
      invariant todo <= s && multiset(r) + multiset(todo) == multiset(s)
      decreases |todo|
    {
      var n :| n in todo;
      todo := todo - {n};
      r := r + [n];
    }
  }

  ghost predicate SortedBy<T>(s: seq<T>, key: T -> int) {
    forall i, j :: 0 <= i < j < |s| ==> key(s[i]) <= key(s[j])
  }

  method SortBy<T>(s: seq<T>, key: T -> int) returns (r: seq<T>)
    ensures multiset(r) == multiset(s) && SortedBy(r, key)
  {
    r := [];
    for i := 0 to |s|
      invariant multiset(r) == multiset(s[..i]) && SortedBy(r, key)
    {
      assert s[..i + 1] == s[..i] + [s[i]];
      r := InsertSorted(r, key, s[i]);
    }
    assert s[..|s|] == s;
  }

  method InsertSorted<T>(r0: seq<T>, key: T -> int, x: T) returns (r: seq<T>)
    requires SortedBy(r0, key)
    ensures multiset(r) == multiset(r0) + multiset{x} && SortedBy(r, key)
  {
    var k := 0;
    while k < |r0| && key(r0[k]) <= key(x)
      invariant 0 <= k <= |r0| && forall a :: 0 <= a < k ==> key(r0[a]) <= key(x)
    {
      k := k + 1;
    }
    SortedInsert(r0, key, k, x);
    r := r0[..k] + ([x] + r0[k..]);
  }

  lemma SortedInsert<T>(r: seq<T>, key: T -> int, k: nat, x: T)
    requires k <= |r| && SortedBy(r, key)
    requires (forall a :: 0 <= a < k ==> key(r[a]) <= key(x)) && (k < |r| ==> key(x) <= key(r[k]))
    ensures var q := r[..k] + ([x] + r[k..]); multiset(q) == multiset(r) + multiset{x} && SortedBy(q, key)
  {
    var q := r[..k] + ([x] + r[k..]);
    InsertCounts(r, k, x);
    forall i, j | 0 <= i < j < |q| ensures key(q[i]) <= key(q[j]) {
      assert q[i] == (if i < k then r[i] else if i == k then x else r[i - 1]);
      assert q[j] == (if j < k then r[j] else if j == k then x else r[j - 1]);
    }
  }

  lemma InsertCounts<T>(r: seq<T>, k: nat, x: T)
    requires k <= |r|
    ensures multiset(r[..k] + ([x] + r[k..])) == multiset(r) + multiset{x}
  {
    assert r == r[..k] + r[k..];
  }

  class TxSortedMap {
    var items: Items
    var index: seq<nat>
    var cache: Option<seq<Tx>>

    ghost predicate Valid()
      reads this
    {
      Filed(items) && IndexOk(index, items) && (cache.Some? ==> View(items, cache.value))
    }

    constructor ()
      ensures Valid() && items == map[]
    {
      items, index, cache := map[], [], None;
    }

    method Put(tx: Tx)
      requires Valid()
      modifies this
      ensures Valid() && items == old(items)[tx.nonce := tx]
    {
      hide IsHeap, View, Filed;
      KeysAfterPut(items, tx.nonce, tx);
      if tx.nonce !in items {
        index := Push(index, NonceKey, tx.nonce);
      }
      items, cache := items[tx.nonce := tx], None;
    }

    /** Takes the lowest nonce out of the index and the map. */
    method PopLowest() returns (tx: Tx)
      requires Filed(items) && IndexOk(index, items) && index != []
      modifies this`items, this`index
      ensures Filed(items) && IndexOk(index, items) && |index| < |old(index)|
      ensures old(index[0]) in old(items) && tx == old(items[index[0]])
      ensures items == old(items) - {old(index[0])}
    {
      LeastKey(index, items);
      hide IsHeap;
      var nonce := index[0];
      var index', x := Pop(index, NonceKey);
      KeysAfterRemove(index, index', items, nonce);
      tx := items[nonce];
      items, index := items - {nonce}, index';
    }

    /** Removes everything below a nonce and returns it in nonce order. */
    method Forward(threshold: nat) returns (removed: seq<Tx>)
      requires Valid()
      modifies this
      ensures Valid() && items == From(old(items), threshold)
      ensures View(Below(old(items), threshold), removed)
    {
      hide IndexOk, View, Forwarded, Filed;
      ghost var items0 := items;
      removed := [];
      ForwardStart(items0, threshold);
      while index != [] && index[0] < threshold
        invariant Filed(items) && IndexOk(index, items) && cache == old(cache)
        invariant Forwarded(items0, items, removed, threshold)
        decreases |index|
      {
        LeastKey(index, items);
        ForwardStep(items0, items, removed, threshold, index[0]);
        var tx := PopLowest();
        removed := removed + [tx];
      }
      ForwardDone(items0, items, removed, threshold, index);
      if cache.Some? {
        ViewCut(items0, cache.value, threshold);
        ViewSize(Below(items0, threshold), removed);
        cache := Some(cache.value[|removed|..]);
      }
    }

    /** Removes and returns, in no particular order, all transactions that satisfy a predicate. */
    method Filter(filter: Tx -> bool) returns (removed: seq<Tx>)
      requires Valid()
      modifies this
      ensures Valid() && items == WhereNot(old(items), filter)
      ensures Lists(Where(old(items), filter), removed)
    {
      hide IsHeap, View, Lists, Filtered;
      ghost var items0 := items;
      removed := [];
      var todo := items.Keys;
      FilterStart(items0, filter);
      while todo != {}
        invariant index == old(index) && cache == old(cache)
        invariant todo <= items.Keys && Filtered(items0, items, removed, todo, filter)
        decreases |todo|
      {
        var nonce :| nonce in todo;
        FilterStep(items0, items, removed, todo, filter, nonce);
        todo := todo - {nonce};
        if filter(items[nonce]) {
          removed := removed + [items[nonce]];
          items := items - {nonce};
        }
      }
      FilterDone(items0, items, removed, filter);
      if |removed| > 0 {
        var fresh' := Elements(items.Keys);
        index := Init(fresh', NonceKey);
        cache := None;
      }
    }

    /** Drops the highest nonces until at most `threshold` are left, and returns them highest first. */
    method Cap(threshold: nat) returns (drops: seq<Tx>)
      requires Valid()
      modifies this
      ensures Valid() && items == Lowest(old(items), threshold)
      ensures Lists(old(items) - items.Keys, drops)
      ensures forall i, j :: 0 <= i < j < |drops| ==> drops[i].nonce > drops[j].nonce
    {
      hide IsHeap, View, Lists, Capped, Lowest, SortedBy, Filed;
      ghost var items0 := items;
      drops := [];
      if |items| <= threshold {
        LowestOrMore(items, threshold);
        return;
      }
      IndexFacts(index, items);
      var sorted := SortBy(index, NonceKey);
      CapStart(items, sorted, threshold);
      var size := |items|;
      while size > threshold
        invariant threshold <= size <= |sorted| && index == old(index) && cache == old(cache)
        invariant Capped(items0, items, drops, sorted, size, threshold)
      {
        CapStep(items0, items, drops, sorted, size, threshold);
        drops := drops + [items[sorted[size - 1]]];
        items := items - {sorted[size - 1]};
        size := size - 1;
      }
      CapDone(items0, items, drops, sorted, threshold);
      index := Init(sorted[..threshold], NonceKey);
      if cache.Some? {
        ViewSize(items0, cache.value);
        ViewLowest(items0, cache.value, threshold);
        cache := Some(cache.value[..|cache.value| - |drops|]);
      }
    }

    method Remove(nonce: nat) returns (found: bool)
      requires Valid()
      modifies this
      ensures Valid() && items == old(items) - {nonce} && found == (nonce in old(items))
    {
      hide IsHeap, View;
      if nonce !in items {
        return false;
      }
      IndexFacts(index, items);
      var i := 0;
      while index[i] != nonce
        invariant i < |index| && nonce in index[i..]
        decreases |index| - i
      {
        assert index[i..] == [index[i]] + index[i + 1..];
        i := i + 1;
      }
      ghost var before := index;
      var x;
      index, x := Heaps.Remove(index, NonceKey, i);
      KeysAfterRemove(before, index, items, nonce);
      assert Filed(items - {nonce});
      items, cache := items - {nonce}, None;
      found := true;
    }

    /** Takes out the contiguous run at the front, if it starts no later than `start`. */
    method Ready(start: nat) returns (ready: seq<Tx>)
      requires Valid()
      modifies this
      ensures Valid() && IsReady(old(items), start, items, ready)
    {
      hide IndexOk, View, Running, IsReady, Filed;
      ready := [];
      if index == [] || index[0] > start {
        NotReady(index, items, start);
        return;
      }
      ghost var items0, first := items, index[0];
      RunStart(index, items);
      var next := index[0];
      while index != [] && index[0] == next
        invariant Filed(items) && IndexOk(index, items)
        invariant next == first + |ready| && Running(items0, items, first, next, ready)
        decreases |index|
      {
        LeastKey(index, items);
        RunStep(items0, items, first, next, ready);
        var tx := PopLowest();
        ready := ready + [tx];
        next := next + 1;
      }
      RunDone(items0, start, items, first, next, ready, index);
      cache := None;
    }

    method Flatten() returns (txs: seq<Tx>)
      requires Valid()
      modifies this`cache
      ensures Valid() && View(items, txs) && forall s :: View(items, s) ==> s == txs
    {
      hide IsHeap, View;
      if cache.None? {
        var nonces := Elements(items.Keys);
        IndexFacts(nonces, items);
        var m := items;
        var all := seq(|nonces|, i requires 0 <= i < |nonces| => m[nonces[i]]);
        ValuesListed(items, nonces, all);
        var sorted := SortBy(all, (t: Tx) => t.nonce);
        SortedListing(items, all, sorted);
        cache := Some(sorted);
      }
      txs := cache.value;
      forall s | View(items, s) ensures s == txs { ViewUnique(items, s, txs); }
    }
  }

  lemma ViewSize(items: Items, s: seq<Tx>)
    requires View(items, s)
    ensures |s| == |items|
  {
  }

  /** Popping so far has taken a sorted prefix out of the map. */
  ghost predicate Forwarded(items0: Items, items: Items, removed: seq<Tx>, threshold: nat) {
    && items.Keys <= items0.Keys && (forall n :: n in items ==> items[n] == items0[n])
    && View(items0 - items.Keys, removed)
    && (forall n, m :: n in items0 && n !in items && m in items ==> n < m)
    && (forall n :: n in items0 && n !in items ==> n < threshold)
  }

  lemma ForwardStart(items: Items, threshold: nat)
    ensures Forwarded(items, items, [], threshold)
  {
    assert items - items.Keys == map[];
  }

  lemma ForwardStep(items0: Items, items: Items, removed: seq<Tx>, threshold: nat, nonce: nat)
    requires Filed(items) && Forwarded(items0, items, removed, threshold) && nonce < threshold
    requires nonce in items && forall n :: n in items ==> nonce <= n
    ensures Forwarded(items0, items - {nonce}, removed + [items[nonce]], threshold)
  {
    ViewExtend(items0 - items.Keys, removed, items[nonce]);
    hide View;
    assert items0 - (items - {nonce}).Keys == (items0 - items.Keys)[nonce := items[nonce]];
  }

  lemma ForwardDone(items0: Items, items: Items, removed: seq<Tx>, threshold: nat, index: seq<nat>)
    requires Forwarded(items0, items, removed, threshold) && IndexOk(index, items)
    requires index != [] ==> index[0] >= threshold
    ensures items == From(items0, threshold) && View(Below(items0, threshold), removed)
  {
    hide View;
    IndexFacts(index, items);
    if index != [] {
      LeastKey(index, items);
    }
    assert forall n :: n in items ==> n >= threshold;
    assert items0 - items.Keys == Below(items0, threshold);
  }

  ghost predicate Filtered(items0: Items, items: Items, removed: seq<Tx>, todo: set<nat>, p: Tx -> bool) {
    && items.Keys <= items0.Keys && (forall n :: n in items ==> items[n] == items0[n])
    && (forall n :: n in items0 && n !in todo ==> (n in items <==> !p(items0[n])))
    && Lists(items0 - items.Keys, removed)
  }

  lemma FilterStart(items: Items, p: Tx -> bool)
    ensures Filtered(items, items, [], items.Keys, p)
  {
    assert items - items.Keys == map[];
  }

  lemma ListsExtend(items: Items, s: seq<Tx>, t: Tx)
    requires Lists(items, s) && t.nonce !in items
    ensures Lists(items[t.nonce := t], s + [t])
  {
  }

  lemma FilterStep(items0: Items, items: Items, removed: seq<Tx>, todo: set<nat>, p: Tx -> bool, n: nat)
    requires Filed(items0) && Filtered(items0, items, removed, todo, p) && n in todo && todo <= items.Keys
    ensures if p(items[n]) then Filtered(items0, items - {n}, removed + [items[n]], todo - {n}, p)
            else Filtered(items0, items, removed, todo - {n}, p)
  {
    hide Lists;
    if p(items[n]) {
      ListsExtend(items0 - items.Keys, removed, items[n]);
      assert items0 - (items - {n}).Keys == (items0 - items.Keys)[n := items[n]];
    }
  }

  lemma FilterDone(items0: Items, items: Items, removed: seq<Tx>, p: Tx -> bool)
    requires Filed(items0) && Filtered(items0, items, removed, {}, p)
    ensures Filed(items) && items == WhereNot(items0, p) && Lists(Where(items0, p), removed)
    ensures removed == [] ==> items == items0
  {
    assert |removed| == |items0 - items.Keys|;
    hide Lists;
    assert items0 - items.Keys == Where(items0, p);
    NothingGone(items0, items);
  }

  lemma NothingGone(items0: Items, items: Items)
    requires items.Keys <= items0.Keys && forall n :: n in items ==> items[n] == items0[n]
    ensures |items0 - items.Keys| == 0 ==> items == items0
  {
    var gone := items0 - items.Keys;
    assert |gone| == 0 ==> gone == map[];
    assert forall n :: n in items0 && n !in items ==> n in gone;
  }

  lemma LowestOrMore(items: Items, k: nat)
    requires |items| <= k
    ensures Lowest(items, k) == items && Lists(items - items.Keys, [])
  {
    assert items - items.Keys == map[];
  }

  /** The drops are what is missing, highest first and above everything left. */
  ghost predicate DroppedTop(items0: Items, items: Items, drops: seq<Tx>) {
    && items.Keys <= items0.Keys && (forall n :: n in items ==> items[n] == items0[n])
    && Lists(items0 - items.Keys, drops)
    && (forall i, j :: 0 <= i < j < |drops| ==> drops[i].nonce > drops[j].nonce)
    && (forall i, n :: 0 <= i < |drops| && n in items ==> n < drops[i].nonce)
  }

  ghost predicate Capped(items0: Items, items: Items, drops: seq<Tx>, sorted: seq<nat>, size: nat, k: nat) {
    && k <= size <= |sorted| && multiset(sorted[..size]) == multiset(items.Keys) && SortedBy(sorted, NonceKey)
    && Filed(items) && Lowest(items, k) == Lowest(items0, k) && DroppedTop(items0, items, drops)
  }

  lemma CapStart(items: Items, sorted: seq<nat>, k: nat)
    requires Filed(items) && k < |items| && multiset(sorted) == multiset(items.Keys) && SortedBy(sorted, NonceKey)
    ensures |sorted| == |items| && Capped(items, items, [], sorted, |items|, k)
  {
    hide Lowest;
    IndexFacts(sorted, items);
    assert sorted[..|items|] == sorted && items - items.Keys == map[];
  }

  /** The last of the sorted nonces is the greatest one left, so dropping it is a step of `Lowest`. */
  lemma CapStep(items0: Items, items: Items, drops: seq<Tx>, sorted: seq<nat>, size: nat, k: nat)
    requires Capped(items0, items, drops, sorted, size, k) && k < size
    ensures sorted[size - 1] in items
    ensures Capped(items0, items - {sorted[size - 1]}, drops + [items[sorted[size - 1]]], sorted, size - 1, k)
  {
    var top := sorted[size - 1];
    assert sorted[..size] == sorted[..size - 1] + [top];
    hide DroppedTop, Lowest;
    KeysAfterRemove(sorted[..size], sorted[..size - 1], items, top);
    assert SortedBy(sorted[..size], NonceKey);
    TopStep(items, sorted[..size], top, k);
    DropTop(items0, items, drops, top);
    assert Filed(items - {top});
  }

  lemma DropTop(items0: Items, items: Items, drops: seq<Tx>, top: nat)
    requires DroppedTop(items0, items, drops) && Filed(items) && top in items && forall n :: n in items ==> n <= top
    ensures DroppedTop(items0, items - {top}, drops + [items[top]])
  {
    ListsExtend(items0 - items.Keys, drops, items[top]);
    hide Lists;
    assert items0 - (items - {top}).Keys == (items0 - items.Keys)[top := items[top]];
  }

  lemma TopStep(items: Items, sorted: seq<nat>, top: nat, k: nat)
    requires k < |sorted| && sorted[|sorted| - 1] == top && multiset(sorted) == multiset(items.Keys)
    requires SortedBy(sorted, NonceKey)
    ensures top in items && Lowest(items - {top}, k) == Lowest(items, k)
    ensures forall n :: n in items ==> n <= top
  {
    hide Lowest, MaxOf;
    IndexFacts(sorted, items);
    assert items.Keys != {};
    var m := MaxOf(items.Keys);
    var i :| 0 <= i < |sorted| && sorted[i] == m;
    assert NonceKey(sorted[i]) <= NonceKey(top);
    LowestSkipsTop(items, k);
  }

  lemma LowestSkipsTop(items: Items, k: nat)
    requires k < |items| && items.Keys != {}
    ensures Lowest(items - {MaxOf(items.Keys)}, k) == Lowest(items, k)
  {
  }

  lemma CapDone(items0: Items, items: Items, drops: seq<Tx>, sorted: seq<nat>, k: nat)
    requires Capped(items0, items, drops, sorted, k, k)
    ensures Filed(items) && items == Lowest(items0, k) && |drops| == |items0| - k
    ensures multiset(sorted[..k]) == multiset(items.Keys) && Lists(items0 - items.Keys, drops)
    ensures forall i, j :: 0 <= i < j < |drops| ==> drops[i].nonce > drops[j].nonce
  {
    IndexFacts(sorted[..k], items);
    assert (items0 - items.Keys).Keys == items0.Keys - items.Keys;
  }

  lemma LeastKey(index: seq<nat>, items: Items)
    requires IndexOk(index, items) && index != []
    ensures items != map[] && index[0] in items && MinOf(items.Keys) == index[0]
    ensures forall n :: n in items ==> index[0] <= n
  {
    IndexFacts(index, items);
    assert index[0] in items.Keys;
    var m := MinOf(items.Keys);
    var k :| 0 <= k < |index| && index[k] == m;
    RootIsLeast(index, NonceKey, k);
  }

  lemma NotReady(index: seq<nat>, items: Items, start: nat)
    requires IndexOk(index, items) && (index == [] || index[0] > start)
    ensures IsReady(items, start, items, [])
  {
    IndexFacts(index, items);
    if index != [] {
      LeastKey(index, items);
    } else {
      assert |items| == 0;
    }
    assert Without(items, 0, 0) == items;
  }

  ghost predicate Running(items0: Items, items: Items, first: nat, next: nat, ready: seq<Tx>) {
    && first <= next && items == Without(items0, first, next) && |ready| == next - first
    && (forall n :: first <= n < next ==> n in items0 && ready[n - first] == items0[n])
    && (forall n :: n in items0 ==> first <= n)
  }

  lemma RunStart(index: seq<nat>, items: Items)
    requires IndexOk(index, items) && index != []
    ensures items != map[] && MinOf(items.Keys) == index[0] && Running(items, items, index[0], index[0], [])
  {
    LeastKey(index, items);
    assert Without(items, index[0], index[0]) == items;
  }

  lemma RunStep(items0: Items, items: Items, first: nat, next: nat, ready: seq<Tx>)
    requires Running(items0, items, first, next, ready) && next in items
    ensures Running(items0, items - {next}, first, next + 1, ready + [items[next]])
  {
    assert items - {next} == Without(items0, first, next + 1);
  }

  lemma RunDone(items0: Items, start: nat, items: Items, first: nat, next: nat, ready: seq<Tx>, index: seq<nat>)
    requires Running(items0, items, first, next, ready) && IndexOk(index, items)
    requires index == [] || index[0] != next
    requires items0 != map[] && MinOf(items0.Keys) == first <= start
    ensures IsReady(items0, start, items, ready)
  {
    hide MinOf, IndexOk, RunEnd;
    RunStops(items, next, index);
    RunEndIs(items0, first, next);
    assert ReadyRange(items0, start) == (first, next);
    hide ReadyRange;
    forall i | 0 <= i < |ready| ensures ready[i] == items0[first + i] {
      assert first <= first + i < next;
      assert ready[(first + i) - first] == items0[first + i];
    }
  }

  lemma RunEndIs(items: Items, first: nat, next: nat)
    requires first <= next && next !in items && forall n :: first <= n < next ==> n in items
    ensures RunEnd(items, first) == next
  {
    hide RunEnd;
    var end := RunEnd(items, first);
    if next < end {
      assert false;
    } else if end < next {
      assert false;
    }
  }

  lemma RunStops(items: Items, next: nat, index: seq<nat>)
    requires IndexOk(index, items) && (index == [] || index[0] != next) && forall n :: n in items ==> next <= n
    ensures next !in items
  {
    IndexFacts(index, items);
    if index != [] {
      LeastKey(index, items);
    }
  }

  lemma ValuesListed(items: Items, nonces: seq<nat>, all: seq<Tx>)
    requires Filed(items) && multiset(nonces) == multiset(items.Keys) && |all| == |nonces|
    requires forall i :: 0 <= i < |nonces| ==> nonces[i] in items && all[i] == items[nonces[i]]
    ensures Lists(items, all)
  {
    IndexFacts(nonces, items);
    forall i, j | 0 <= i < j < |nonces| ensures nonces[i] != nonces[j] { CountOnce(nonces, i, j, items); }
  }

  lemma CountOnce(s: seq<nat>, i: nat, j: nat, items: Items)
    requires multiset(s) == multiset(items.Keys) && i < j < |s|
    ensures s[i] != s[j]
  {
    if s[i] == s[j] {
      TwiceCounted(s, i, j);
    }
  }

  lemma TwiceCounted<T>(s: seq<T>, i: nat, j: nat)
    requires i < j < |s| && s[i] == s[j]
    ensures multiset(s)[s[i]] >= 2
  {
    assert s == s[..j] + [s[j]] + s[j + 1..];
    assert s[i] in s[..j];
  }

  lemma {:induction false} DistinctCounts(items: Items, s: seq<Tx>, t: Tx)
    requires forall i, j :: 0 <= i < j < |s| ==> s[i].nonce != s[j].nonce
    ensures multiset(s)[t] <= 1
  {
    if s != [] {
      var k := |s| - 1;
      assert s == s[..k] + [s[k]];
      DistinctCounts(items, s[..k], t);
      if t == s[k] {
        assert forall i :: 0 <= i < k ==> s[..k][i] != t;
      }
    }
  }

  /** A sorted permutation of a listing is the sorted listing. */
  lemma SortedListing(items: Items, all: seq<Tx>, sorted: seq<Tx>)
    requires Lists(items, all) && multiset(sorted) == multiset(all)
    requires SortedBy(sorted, (t: Tx) => t.nonce)
    ensures View(items, sorted)
  {
    assert |multiset(sorted)| == |sorted| && |multiset(all)| == |all|;
    forall i | 0 <= i < |sorted| ensures sorted[i].nonce in items && items[sorted[i].nonce] == sorted[i] {
      assert sorted[i] in multiset(all);
      var k :| 0 <= k < |all| && all[k] == sorted[i];
    }
    forall i, j | 0 <= i < j < |sorted| ensures sorted[i].nonce != sorted[j].nonce {
      if sorted[i].nonce == sorted[j].nonce {
        TwiceCounted(sorted, i, j);
        DistinctCounts(items, all, sorted[i]);
      }
    }
  }
}
