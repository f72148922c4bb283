/**
Transactions, and one account's transactions as a map from nonce to transaction: the
specification that the heap-indexed lists of the pool are measured against.
*/
module Transactions {

  type Address = nat

  /** A transaction stands for its hash: equal transactions are the same transaction. */
  datatype Tx = Tx(id: nat, sender: Address, nonce: nat, price: nat, gas: nat, value: nat) {
    function Cost(): nat {
      value + price * gas
    }
  }

  type Items = map<nat, Tx>

  /** Every transaction is filed under its own nonce. */
  ghost predicate Filed(items: Items) {
    forall n :: n in items ==> items[n].nonce == n
  }

  predicate IsMax(s: set<nat>, m: nat) {
    m in s && forall x :: x in s ==> x <= m
  }

  predicate IsMin(s: set<nat>, m: nat) {
    m in s && forall x :: x in s ==> m <= x
  }

  lemma {:induction false} MaxExists(s: set<nat>)
    requires s != {}
    ensures exists m :: IsMax(s, m)
    decreases |s|
  {
    var x :| x in s;
    var rest := s - {x};
    assert forall z :: z in s <==> z == x || z in rest;
    if rest == {} {
      assert IsMax(s, x);
    } else {
      MaxExists(rest);
      var m :| IsMax(rest, m);
      assert IsMax(s, if x > m then x else m);
    }
  }

  lemma {:induction false} MinExists(s: set<nat>)
    requires s != {}
    ensures exists m :: IsMin(s, m)
    decreases |s|
  {
    var x :| x in s;
    var rest := s - {x};
    assert forall z :: z in s <==> z == x || z in rest;
    if rest == {} {
      assert IsMin(s, x);
    } else {
      MinExists(rest);
      var m :| IsMin(rest, m);
      assert IsMin(s, if x < m then x else m);
    }
  }

  function MaxOf(s: set<nat>): (m: nat)
    requires s != {}
    ensures m in s && forall x :: x in s ==> x <= m
  {
    MaxExists(s);
    var m :| m in s && IsMax(s, m);
    m
  }

  function MinOf(s: set<nat>): (m: nat)
    requires s != {}
    ensures m in s && forall x :: x in s ==> m <= x
  {
    MinExists(s);
    var m :| m in s && IsMin(s, m);
    m
  }

  /** The least number from `n` on that is not a key. */
  function RunEnd(items: Items, n: nat): (m: nat)
    ensures m >= n && m !in items && forall k :: n <= k < m ==> k in items
    decreases |From(items, n)|
  {
    if n !in items then n
    else
      assert From(items, n).Keys == From(items, n + 1).Keys + {n};
      RunEnd(items, n + 1)
  }

  function Below(items: Items, threshold: nat): Items {
    map n | n in items && n < threshold :: items[n]
  }

  function From(items: Items, threshold: nat): Items {
    map n | n in items && n >= threshold :: items[n]
  }

  function Where(items: Items, p: Tx -> bool): Items {
    map n | n in items && p(items[n]) :: items[n]
  }

  function WhereNot(items: Items, p: Tx -> bool): Items {
    map n | n in items && !p(items[n]) :: items[n]
  }

  function AboveNonce(nonce: nat): Tx -> bool {
    (t: Tx) => t.nonce > nonce
  }

  /** The entries that remain when the greatest nonce is dropped until at most `k` are left. */
  function Lowest(items: Items, k: nat): (r: Items)
    ensures r.Keys <= items.Keys && (forall n :: n in r ==> r[n] == items[n])
    ensures |r| == if |items| < k then |items| else k
    ensures forall n, m :: n in r && m in items && m !in r ==> n < m
    decreases |items|
  {
    if |items| <= k then items
    else
      var top := MaxOf(items.Keys);
      assert (items - {top}).Keys == items.Keys - {top};
      Lowest(items - {top}, k)
  }

  function Without(items: Items, lo: nat, hi: nat): Items {
    map n | n in items && !(lo <= n < hi) :: items[n]
  }

  /**
  The nonces that are ready from `start`: the contiguous run at the front, provided the
  front is not past `start`. An empty range stands for none.
  */
  function ReadyRange(items: Items, start: nat): (r: (nat, nat))
    ensures r.0 <= r.1 && forall n :: r.0 <= n < r.1 ==> n in items
  {
    if items == map[] || MinOf(items.Keys) > start then (0, 0)
    else (MinOf(items.Keys), RunEnd(items, MinOf(items.Keys)))
  }

  ghost predicate IsReady(items: Items, start: nat, rest: Items, ready: seq<Tx>) {
    var (lo, hi) := ReadyRange(items, start);
    && rest == Without(items, lo, hi)
    && |ready| == hi - lo && forall i :: 0 <= i < |ready| ==> ready[i] == items[lo + i]
  }

  /** `s` lists the entries of `items`, each once, in any order. */
  ghost predicate Lists(items: Items, s: seq<Tx>) {
    && |s| == |items|
    && (forall i :: 0 <= i < |s| ==> s[i].nonce in items && items[s[i].nonce] == s[i])
    && (forall i, j :: 0 <= i < j < |s| ==> s[i].nonce != s[j].nonce)
  }

  ghost predicate Ascending(s: seq<Tx>) {
    forall i, j :: 0 <= i < j < |s| ==> s[i].nonce < s[j].nonce
  }

  /** `s` is `items` sorted by nonce. */
  ghost predicate View(items: Items, s: seq<Tx>) {
    Lists(items, s) && Ascending(s)
  }

  ghost function Nonces(s: seq<Tx>): (r: set<nat>)
    ensures (forall i, j :: 0 <= i < j < |s| ==> s[i].nonce != s[j].nonce) ==> |r| == |s|
    ensures forall n :: n in r <==> exists i :: 0 <= i < |s| && s[i].nonce == n
  {
    if s == [] then {}
    else
      var k := |s| - 1;
      assert s == s[..k] + [s[k]];
      Nonces(s[..k]) + {s[k].nonce}
  }

  /** A listing misses nothing. */
  lemma Covered(items: Items, s: seq<Tx>, n: nat) returns (i: nat)
    requires Lists(items, s) && n in items
    ensures i < |s| && s[i] == items[n] && s[i].nonce == n
  {
    assert Nonces(s) <= items.Keys;
    SameSize(Nonces(s), items.Keys);
    i :| 0 <= i < |s| && s[i].nonce == n;
  }

  lemma SameSize(a: set<nat>, b: set<nat>)
    requires a <= b && |a| == |b|
    ensures a == b
  {
    assert |b - a| == 0;
  }

  lemma ViewLast(items: Items, s: seq<Tx>)
    requires View(items, s) && s != []
    ensures var top := s[|s| - 1].nonce;
      && top in items && (forall n :: n in items ==> n <= top)
      && View(items - {top}, s[..|s| - 1])
  {
    var top := s[|s| - 1].nonce;
    assert (items - {top}).Keys == items.Keys - {top};
    forall n | n in items ensures n <= top {
      var i := Covered(items, s, n);
    }
  }

  /** Sorting has one result. */
  lemma {:induction false} ViewUnique(items: Items, s: seq<Tx>, t: seq<Tx>)
    requires View(items, s) && View(items, t)
    ensures s == t
    decreases |s|
  {
    if s != [] {
      ViewLast(items, s);
      ViewLast(items, t);
      var i, j := |s| - 1, |t| - 1;
      assert s[i] == items[s[i].nonce] == t[j];
      hide View;
      ViewUnique(items - {s[i].nonce}, s[..i], t[..j]);
      assert s == s[..i] + [s[i]] && t == t[..j] + [t[j]];
    }
  }

  /** A threshold cuts a sorted list in two. */
  lemma {:induction false} ViewCut(items: Items, s: seq<Tx>, threshold: nat)
    requires View(items, s)
    ensures var k := |Below(items, threshold)|;
      k <= |s| && View(Below(items, threshold), s[..k]) && View(From(items, threshold), s[k..])
    decreases |s|
  {
    if s == [] || s[|s| - 1].nonce < threshold {
      ViewAllBelow(items, s, threshold);
    } else {
      ViewLast(items, s);
      var t, init := s[|s| - 1], s[..|s| - 1];
      assert t == items[t.nonce];
      hide View;
      var rest := items - {t.nonce};
      ViewCut(rest, init, threshold);
      assert Below(rest, threshold) == Below(items, threshold);
      var k := |Below(items, threshold)|;
      ViewExtend(From(rest, threshold), init[k..], t);
      assert init[..k] == s[..k] && s[k..] == init[k..] + [t];
      assert From(rest, threshold)[t.nonce := t] == From(items, threshold);
    }
  }

  lemma ViewAllBelow(items: Items, s: seq<Tx>, threshold: nat)
    requires View(items, s) && (s == [] || s[|s| - 1].nonce < threshold)
    ensures Below(items, threshold) == items && From(items, threshold) == map[]
    ensures |Below(items, threshold)| == |s| && s[..|s|] == s && View(map[], s[|s|..])
  {
    if s != [] {
      ViewLast(items, s);
    } else {
      assert items == map[];
    }
  }

  lemma ViewExtend(items: Items, s: seq<Tx>, t: Tx)
    requires View(items, s) && forall n :: n in items ==> n < t.nonce
    ensures View(items[t.nonce := t], s + [t])
  {
  }

  lemma {:induction false} ViewLowest(items: Items, s: seq<Tx>, k: nat)
    requires View(items, s) && k <= |s|
    ensures View(Lowest(items, k), s[..k])
    decreases |s|
  {
    if k < |s| {
      ViewLast(items, s);
      hide View;
      assert MaxOf(items.Keys) == s[|s| - 1].nonce;
      ViewLowest(items - {s[|s| - 1].nonce}, s[..|s| - 1], k);
      assert s[..|s| - 1][..k] == s[..k];
    } else {
      assert s[..k] == s;
    }
  }
}
