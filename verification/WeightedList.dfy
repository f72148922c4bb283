/**
The flat weighted list that the selection tree stands for: slots in index order, free or
taken by an item with a positive weight. A value below the total weight selects the slot
whose prefix-sum interval contains it.
*/
module WeightedLists {

  type Item = nat

  datatype Slot = Free | Taken(item: Item, weight: nat)

  function WeightOf(s: Slot): nat {
    if s.Taken? then s.weight else 0
  }

  function Sum(s: seq<Slot>): nat {
    if s == [] then 0 else WeightOf(s[0]) + Sum(s[1..])
  }

  function Count(s: seq<Slot>): (n: nat)
    ensures n <= |s|
    ensures n == |s| <==> forall i :: 0 <= i < |s| ==> s[i].Taken?
  {
    if s == [] then 0 else (if s[0].Taken? then 1 else 0) + Count(s[1..])
  }

  /** The least index of a free slot. */
  function FirstFree(s: seq<Slot>): (i: nat)
    requires Count(s) < |s|
    ensures i < |s| && s[i].Free? && forall j :: 0 <= j < i ==> s[j].Taken?
  {
    if s[0].Free? then 0 else 1 + FirstFree(s[1..])
  }

  /** The slot that a value selects. */
  function Pick(s: seq<Slot>, val: nat): (i: nat)
    requires val < Sum(s)
    ensures i < |s| && s[i].Taken?
  {
    if val < WeightOf(s[0]) then 0 else 1 + Pick(s[1..], val - WeightOf(s[0]))
  }

  function AllFree(n: nat): (s: seq<Slot>)
    ensures |s| == n && forall i :: 0 <= i < n ==> s[i] == Free
  {
    seq(n, _ => Free)
  }

  lemma {:induction false} SumConcat(a: seq<Slot>, b: seq<Slot>)
    ensures Sum(a + b) == Sum(a) + Sum(b) && Count(a + b) == Count(a) + Count(b)
  {
    if a == [] {
      assert a + b == b;
    } else {
      assert (a + b)[1..] == a[1..] + b;
      SumConcat(a[1..], b);
    }
  }

  lemma {:induction false} SumFree(n: nat)
    ensures Sum(AllFree(n)) == 0 && Count(AllFree(n)) == 0
  {
    if n > 0 {
      assert AllFree(n)[1..] == AllFree(n - 1);
      SumFree(n - 1);
    }
  }

  lemma {:induction false} SumUpdate(s: seq<Slot>, i: nat, x: Slot)
    requires i < |s|
    ensures Sum(s[i := x]) == Sum(s) - WeightOf(s[i]) + WeightOf(x)
    ensures Count(s[i := x]) == Count(s) - (if s[i].Taken? then 1 else 0) + (if x.Taken? then 1 else 0)
  {
    if i > 0 {
      assert s[i := x][1..] == s[1..][i - 1 := x];
      SumUpdate(s[1..], i - 1, x);
    }
  }

  lemma {:induction false} PrefixGrows(s: seq<Slot>, i: nat, j: nat)
    requires i <= j <= |s|
    ensures Sum(s[..i]) <= Sum(s[..j]) <= Sum(s)
  {
    SumConcat(s[..i], s[i..j]);
    assert s[..i] + s[i..j] == s[..j];
    SumConcat(s[..j], s[j..]);
    assert s[..j] + s[j..] == s;
  }

  /** Slot `i` is selected by exactly the values of its prefix-sum interval. */
  lemma {:induction false} PickInterval(s: seq<Slot>, val: nat, i: nat)
    requires val < Sum(s) && i < |s|
    ensures Pick(s, val) == i <==> Sum(s[..i]) <= val < Sum(s[..i]) + WeightOf(s[i])
  {
    var w, tail := WeightOf(s[0]), s[1..];
    if i > 0 {
      assert s[..i][1..] == tail[..i - 1];
      if val >= w {
        PickInterval(tail, val - w, i - 1);
      }
    }
  }

  function Interval(lo: nat, w: nat): (r: set<nat>)
    ensures |r| == w && forall v :: v in r <==> lo <= v < lo + w
  {
    if w == 0 then {} else Interval(lo, w - 1) + {lo + w - 1}
  }

  /** So every slot is selected by as many values as it weighs. */
  lemma PickShare(s: seq<Slot>, i: nat)
    requires i < |s|
    ensures |set val: nat | val < Sum(s) && Pick(s, val) == i| == WeightOf(s[i])
  {
    var lo, w := Sum(s[..i]), WeightOf(s[i]);
    PrefixGrows(s, i + 1, i + 1);
    SumConcat(s[..i], [s[i]]);
    assert s[..i + 1] == s[..i] + [s[i]];
    forall val: nat | val < Sum(s) ensures Pick(s, val) == i <==> lo <= val < lo + w { PickInterval(s, val, i); }
    assert (set val: nat | val < Sum(s) && Pick(s, val) == i) == Interval(lo, w);
  }

  lemma {:induction false} PickConcat(a: seq<Slot>, b: seq<Slot>, val: nat)
    requires val < Sum(a) + Sum(b)
    ensures Sum(a + b) == Sum(a) + Sum(b)
    ensures Pick(a + b, val) == if val < Sum(a) then Pick(a, val) else |a| + Pick(b, val - Sum(a))
  {
    SumConcat(a, b);
    if a == [] {
      assert a + b == b;
    } else {
      assert (a + b)[1..] == a[1..] + b;
      SumConcat(a[1..], b);
      if val >= WeightOf(a[0]) {
        PickConcat(a[1..], b, val - WeightOf(a[0]));
      }
    }
  }

  lemma FirstFreeConcat(a: seq<Slot>, b: seq<Slot>)
    requires Count(a) < |a| || Count(b) < |b|
    ensures Count(a + b) < |a + b|
    ensures FirstFree(a + b) == if Count(a) < |a| then FirstFree(a) else |a| + FirstFree(b)
  {
    SumConcat(a, b);
    var i := if Count(a) < |a| then FirstFree(a) else |a| + FirstFree(b);
    assert (a + b)[i].Free? && forall j :: 0 <= j < i ==> (a + b)[j].Taken?;
  }

  // Lists made of equally long chunks.

  function Flatten(c: seq<seq<Slot>>): seq<Slot> {
    if c == [] then [] else c[0] + Flatten(c[1..])
  }

  ghost predicate Chunked(c: seq<seq<Slot>>, m: nat) {
    forall i :: 0 <= i < |c| ==> |c[i]| == m
  }

  lemma {:induction false} FlattenLength(c: seq<seq<Slot>>, m: nat)
    requires Chunked(c, m)
    ensures |Flatten(c)| == |c| * m
  {
    if c != [] {
      FlattenLength(c[1..], m);
      assert |c| * m == (|c| - 1) * m + m;
    }
  }

  /** A chunked list, seen from one chunk: what precedes it, the chunk, what follows. */
  lemma {:induction false} FlattenSplit(c: seq<seq<Slot>>, m: nat, b: nat)
    requires Chunked(c, m) && b < |c|
    ensures |Flatten(c[..b])| == b * m
    ensures Flatten(c) == Flatten(c[..b]) + (c[b] + Flatten(c[b + 1..]))
  {
    FlattenLength(c[..b], m);
    if b > 0 {
      FlattenSplit(c[1..], m, b - 1);
      assert c[1..][..b - 1] == c[..b][1..] && c[1..][b..] == c[b + 1..];
    }
  }

  lemma ConcatUpdate(p: seq<Slot>, q: seq<Slot>, r: seq<Slot>, i: nat, x: Slot)
    requires i < |q|
    ensures (p + (q + r))[|p| + i] == q[i] && p + (q[i := x] + r) == (p + (q + r))[|p| + i := x]
  {
  }

  /** Updating one slot of one chunk updates that slot of the whole list. */
  lemma FlattenUpdate(c: seq<seq<Slot>>, m: nat, b: nat, i: nat, x: Slot)
    requires Chunked(c, m) && b < |c| && i < m
    ensures b * m + i < |Flatten(c)| && Flatten(c)[b * m + i] == c[b][i]
    ensures Flatten(c[b := c[b][i := x]]) == Flatten(c)[b * m + i := x]
  {
    hide Flatten;
    var c' := c[b := c[b][i := x]];
    FlattenSplit(c, m, b);
    FlattenSplit(c', m, b);
    assert c'[..b] == c[..b] && c'[b + 1..] == c[b + 1..];
    ConcatUpdate(Flatten(c[..b]), c[b], Flatten(c[b + 1..]), i, x);
  }

  lemma {:induction false} SumFlatten(c: seq<seq<Slot>>, b: nat)
    requires b < |c|
    ensures Sum(Flatten(c[..b + 1])) == Sum(Flatten(c[..b])) + Sum(c[b])
    ensures Count(Flatten(c[..b + 1])) == Count(Flatten(c[..b])) + Count(c[b])
  {
    if b == 0 {
      SumConcat(c[0], []);
      assert c[..1][1..] == [] && c[0] + [] == c[0];
    } else {
      var t := c[1..];
      SumFlatten(t, b - 1);
      assert c[..b + 1][1..] == t[..b] && c[..b][1..] == t[..b - 1];
      SumConcat(c[0], Flatten(t[..b]));
      SumConcat(c[0], Flatten(t[..b - 1]));
    }
  }

  /** The chunk that holds the selected slot, after skipping `b` chunks. */
  lemma PickFlatten(c: seq<seq<Slot>>, m: nat, b: nat, val: nat)
    requires Chunked(c, m) && b < |c| && val < Sum(c[b])
    ensures var before := Sum(Flatten(c[..b]));
      && before + val < Sum(Flatten(c))
      && Pick(Flatten(c), before + val) == b * m + Pick(c[b], val)
  {
    FlattenSplit(c, m, b);
    var rest := Flatten(c[b + 1..]);
    PickConcat(c[b], rest, val);
    PickConcat(Flatten(c[..b]), c[b] + rest, Sum(Flatten(c[..b])) + val);
  }

  /** The least free slot of a chunked list is that of the first chunk with room. */
  lemma FirstFreeFlatten(c: seq<seq<Slot>>, m: nat, b: nat)
    requires Chunked(c, m) && b < |c| && Count(c[b]) < m
    requires Count(Flatten(c[..b])) == |Flatten(c[..b])|
    ensures Count(Flatten(c)) < |Flatten(c)| && FirstFree(Flatten(c)) == b * m + FirstFree(c[b])
  {
    FlattenSplit(c, m, b);
    FirstFreeConcat(c[b], Flatten(c[b + 1..]));
    FirstFreeConcat(Flatten(c[..b]), c[b] + Flatten(c[b + 1..]));
  }

  lemma {:induction false} FlattenFree(n: nat, m: nat)
    ensures Flatten(seq(n, _ => AllFree(m))) == AllFree(n * m)
  {
    var c := seq(n, _ => AllFree(m));
    if n > 0 {
      assert c[1..] == seq(n - 1, _ => AllFree(m));
      FlattenFree(n - 1, m);
      assert n * m == (n - 1) * m + m;
    }
  }
}
