/**
Binary heaps on slices, ordered by an integer key: the sift-up and sift-down loops that
pushing, popping, removing and re-heaping are made of.
*/
module Heaps {

  /** Element `k` is not below its parent, if the parent lies at or after position `lo`. */
  ghost predicate Ordered<T>(h: seq<T>, key: T -> int, lo: nat, k: nat)
    requires 0 < k < |h|
  {
    (k - 1) / 2 >= lo ==> key(h[(k - 1) / 2]) <= key(h[k])
  }

  ghost predicate IsHeap<T(!new)>(h: seq<T>, key: T -> int) {
    forall k: nat {:trigger Ordered(h, key, 0, k)} :: 0 < k < |h| ==> Ordered(h, key, 0, k)
  }

  /** What hangs below `j` is not below the parent of `j`. */
  ghost predicate Bridged<T>(h: seq<T>, key: T -> int, lo: nat, j: nat, k: nat)
    requires k < |h| && j < |h|
  {
    0 < k && (k - 1) / 2 == j && 0 < j && (j - 1) / 2 >= lo ==> key(h[(j - 1) / 2]) <= key(h[k])
  }

  /** A heap on the first `n` elements, but for the order between `j` and its parent. */
  ghost predicate HeapButUp<T(!new)>(h: seq<T>, key: T -> int, lo: nat, n: nat, j: nat) {
    && j < n <= |h|
    && (forall k: nat {:trigger Ordered(h, key, lo, k)} :: 0 < k < n && k != j ==> Ordered(h, key, lo, k))
    && (forall k: nat {:trigger Bridged(h, key, lo, j, k)} :: k < n ==> Bridged(h, key, lo, j, k))
  }

  /** A heap on the first `n` elements, but for the order of `i` with its parent and its children. */
  ghost predicate HeapButAt<T(!new)>(h: seq<T>, key: T -> int, lo: nat, n: nat, i: nat) {
    && i < n <= |h|
    && (forall k: nat {:trigger Ordered(h, key, lo, k)} :: 0 < k < n && k != i && (k - 1) / 2 != i ==> Ordered(h, key, lo, k))
    && (forall k: nat {:trigger Bridged(h, key, lo, i, k)} :: k < n ==> Bridged(h, key, lo, i, k))
  }

  function Swap<T>(h: seq<T>, i: nat, j: nat): (r: seq<T>)
    requires i < |h| && j < |h|
    ensures |r| == |h| && r[i] == h[j] && r[j] == h[i]
    ensures forall k :: 0 <= k < |h| && k != i && k != j ==> r[k] == h[k]
    ensures multiset(r) == multiset(h)
  {
    h[i := h[j]][j := h[i]]
  }

  lemma {:induction false} RootIsLeast<T(!new)>(h: seq<T>, key: T -> int, k: nat)
    requires IsHeap(h, key) && k < |h|
    ensures key(h[0]) <= key(h[k])
  {
    if k > 0 {
      assert Ordered(h, key, 0, k);
      RootIsLeast(h, key, (k - 1) / 2);
    }
  }

  lemma UpStep<T(!new)>(h: seq<T>, key: T -> int, n: nat, j: nat)
    requires HeapButUp(h, key, 0, n, j) && j > 0 && key(h[j]) < key(h[(j - 1) / 2])
    ensures HeapButUp(Swap(h, (j - 1) / 2, j), key, 0, n, (j - 1) / 2)
  {
    var i := (j - 1) / 2;
    var r := Swap(h, i, j);
    forall k: nat | 0 < k < n && k != i ensures Ordered(r, key, 0, k) {
      if k != j {
        assert Ordered(h, key, 0, k);
        assert Bridged(h, key, 0, j, k);
      }
    }
    forall k: nat | k < n ensures Bridged(r, key, 0, i, k) {
      if 0 < i {
        assert Ordered(h, key, 0, i);
        if 0 < k && k != j {
          assert Ordered(h, key, 0, k);
        }
      }
    }
  }

  method Up<T(!new)>(h0: seq<T>, key: T -> int, j0: nat) returns (h: seq<T>)
    requires HeapButUp(h0, key, 0, |h0|, j0)
    ensures IsHeap(h, key) && |h| == |h0| && multiset(h) == multiset(h0)
  {
    h := h0;
    var j: nat := j0;
    while 0 < j && key(h[j]) < key(h[(j - 1) / 2])
      invariant |h| == |h0| && multiset(h) == multiset(h0)
      invariant HeapButUp(h, key, 0, |h|, j)
    {
      UpStep(h, key, |h|, j);
      h := Swap(h, (j - 1) / 2, j);
      j := (j - 1) / 2;
    }
  }

  /** Sinking `i` below its lesser child `j`. */
  lemma DownStep<T(!new)>(h: seq<T>, key: T -> int, lo: nat, n: nat, i: nat, j: nat)
    requires HeapButAt(h, key, lo, n, i) && 0 < j < n && (j - 1) / 2 == i
    requires key(h[j]) <= key(h[i])
    requires forall k: nat :: 0 < k < n && (k - 1) / 2 == i ==> key(h[j]) <= key(h[k])
    ensures HeapButAt(Swap(h, i, j), key, lo, n, j) && Ordered(Swap(h, i, j), key, lo, j)
    ensures 0 < i ==> Ordered(Swap(h, i, j), key, lo, i)
  {
    var r := Swap(h, i, j);
    assert Bridged(h, key, lo, i, j);
    forall k: nat | 0 < k < n && k != j && (k - 1) / 2 != j ensures Ordered(r, key, lo, k) {
      if k != i && (k - 1) / 2 != i {
        assert Ordered(h, key, lo, k);
      }
    }
    forall k: nat | k < n ensures Bridged(r, key, lo, j, k) {
      if 0 < k && (k - 1) / 2 == j {
        assert Ordered(h, key, lo, k);
      }
    }
  }

  /** Where sinking stops, only the order above the start may still be wrong. */
  lemma DownDone<T(!new)>(h: seq<T>, key: T -> int, lo: nat, n: nat, i: nat, i0: nat)
    requires HeapButAt(h, key, lo, n, i) && (i != i0 ==> 0 < i && Ordered(h, key, lo, i))
    requires forall k: nat :: 0 < k < n && (k - 1) / 2 == i ==> key(h[i]) <= key(h[k])
    ensures i == i0 ==> HeapButUp(h, key, lo, n, i0)
    ensures i != i0 ==> forall k: nat {:trigger Ordered(h, key, lo, k)} :: 0 < k < n ==> Ordered(h, key, lo, k)
  {
    forall k: nat | 0 < k < n && (k != i || i != i0) ensures Ordered(h, key, lo, k) { }
  }

  method Down<T(!new)>(h0: seq<T>, key: T -> int, ghost lo: nat, i0: nat, n: nat) returns (h: seq<T>, moved: bool)
    requires HeapButAt(h0, key, lo, n, i0) && lo <= i0
    ensures |h| == |h0| && multiset(h) == multiset(h0) && forall k :: n <= k < |h| ==> h[k] == h0[k]
    ensures !moved ==> HeapButUp(h, key, lo, n, i0)
    ensures moved ==> forall k: nat {:trigger Ordered(h, key, lo, k)} :: 0 < k < n ==> Ordered(h, key, lo, k)
    ensures forall k :: 0 <= k < i0 ==> h[k] == h0[k]
  {
    h := h0;
    var i: nat := i0;
    while true
      invariant i0 <= i < n <= |h| == |h0| && multiset(h) == multiset(h0)
      invariant forall k :: n <= k < |h| || 0 <= k < i0 ==> h[k] == h0[k]
      invariant HeapButAt(h, key, lo, n, i) && (i != i0 ==> 0 < i && Ordered(h, key, lo, i))
      decreases n - i
    {
      var j := 2 * i + 1;
      if j >= n {
        break;
      }
      if j + 1 < n && key(h[j + 1]) < key(h[j]) {
        j := j + 1;
      }
      if key(h[j]) >= key(h[i]) {
        break;
      }
      DownStep(h, key, lo, n, i, j);
      h := Swap(h, i, j);
      i := j;
    }
    DownDone(h, key, lo, n, i, i0);
    moved := i > i0;
  }

  /** Turns any slice into a heap, bottom up. */
  method Init<T(!new)>(h0: seq<T>, key: T -> int) returns (h: seq<T>)
    ensures IsHeap(h, key) && multiset(h) == multiset(h0)
  {
    h := h0;
    var i := |h| / 2;
    while i > 0
      invariant 0 <= i <= |h0| / 2 && |h| == |h0| && multiset(h) == multiset(h0)
      invariant forall k: nat {:trigger Ordered(h, key, i, k)} :: 0 < k < |h| ==> Ordered(h, key, i, k)
    {
      i := i - 1;
      AddRoot(h, key, i);
      var moved;
      h, moved := Down(h, key, i, i, |h|);
      RootAdded(h, key, i, moved);
    }
  }

  lemma AddRoot<T(!new)>(h: seq<T>, key: T -> int, i: nat)
    requires i < |h|
    requires forall k: nat {:trigger Ordered(h, key, i + 1, k)} :: 0 < k < |h| ==> Ordered(h, key, i + 1, k)
    ensures HeapButAt(h, key, i, |h|, i)
  {
    forall k: nat | 0 < k < |h| && k != i && (k - 1) / 2 != i ensures Ordered(h, key, i, k) {
      assert Ordered(h, key, i + 1, k);
    }
  }

  lemma RootAdded<T(!new)>(h: seq<T>, key: T -> int, i: nat, moved: bool)
    requires !moved ==> HeapButUp(h, key, i, |h|, i)
    requires moved ==> forall k: nat {:trigger Ordered(h, key, i, k)} :: 0 < k < |h| ==> Ordered(h, key, i, k)
    ensures forall k: nat {:trigger Ordered(h, key, i, k)} :: 0 < k < |h| ==> Ordered(h, key, i, k)
  {
  }

  method Push<T(!new)>(h0: seq<T>, key: T -> int, x: T) returns (h: seq<T>)
    requires IsHeap(h0, key)
    ensures IsHeap(h, key) && multiset(h) == multiset(h0) + multiset{x}
  {
    h := h0 + [x];
    forall k: nat | 0 < k < |h| && k != |h0| ensures Ordered(h, key, 0, k) {
      assert Ordered(h0, key, 0, k);
    }
    h := Up(h, key, |h0|);
  }

  /** Swapping an element with the last one leaves a heap but for that position. */
  lemma SwapLast<T(!new)>(h: seq<T>, key: T -> int, i: nat)
    requires IsHeap(h, key) && i < |h| - 1
    ensures HeapButAt(Swap(h, i, |h| - 1), key, 0, |h| - 1, i)
  {
    var r := Swap(h, i, |h| - 1);
    forall k: nat | 0 < k < |h| - 1 && k != i && (k - 1) / 2 != i ensures Ordered(r, key, 0, k) {
      assert Ordered(h, key, 0, k);
    }
    forall k: nat | k < |h| - 1 ensures Bridged(r, key, 0, i, k) {
      if 0 < k && (k - 1) / 2 == i && 0 < i {
        assert Ordered(h, key, 0, k) && Ordered(h, key, 0, i);
      }
    }
  }

  /** Dropping the last element keeps the rest. */
  lemma DropLast<T(!new)>(h: seq<T>, key: T -> int, x: T, j: nat)
    requires |h| > 0 && h[|h| - 1] == x
    ensures multiset(h) == multiset(h[..|h| - 1]) + multiset{x}
    ensures (forall k: nat {:trigger Ordered(h, key, 0, k)} :: 0 < k < |h| - 1 ==> Ordered(h, key, 0, k)) ==> IsHeap(h[..|h| - 1], key)
    ensures HeapButUp(h, key, 0, |h| - 1, j) ==> HeapButUp(h[..|h| - 1], key, 0, |h| - 1, j)
  {
    var n, r := |h| - 1, h[..|h| - 1];
    assert h == r + [x];
    forall k: nat | 0 < k < n ensures Ordered(r, key, 0, k) <==> Ordered(h, key, 0, k) { }
    forall k: nat | j < n && k < n ensures Bridged(r, key, 0, j, k) <==> Bridged(h, key, 0, j, k) { }
  }

  /** Removes the element at position `i`. */
  method Remove<T(!new)>(h0: seq<T>, key: T -> int, i: nat) returns (h: seq<T>, x: T)
    requires IsHeap(h0, key) && i < |h0|
    ensures x == h0[i] && IsHeap(h, key) && multiset(h0) == multiset(h) + multiset{x}
  {
    var n := |h0| - 1;
    h := h0;
    x := h0[i];
    if n != i {
      SwapLast(h, key, i);
      h := Swap(h, i, n);
      var moved;
      h, moved := Down(h, key, 0, i, n);
      DropLast(h, key, x, i);
      h := h[..n];
      if !moved {
        h := Up(h, key, i);
      }
    } else {
      DropLast(h, key, x, i);
      h := h[..n];
    }
  }

  /** Removes and returns the least element. */
  method Pop<T(!new)>(h0: seq<T>, key: T -> int) returns (h: seq<T>, x: T)
    requires IsHeap(h0, key) && h0 != []
    ensures x == h0[0] && IsHeap(h, key) && multiset(h0) == multiset(h) + multiset{x}
    ensures forall y :: y in h0 ==> key(x) <= key(y)
  {
    forall y | y in h0 ensures key(h0[0]) <= key(y) {
      var k :| 0 <= k < |h0| && h0[k] == y;
      RootIsLeast(h0, key, k);
    }
    var n := |h0| - 1;
    h := h0;
    x := h0[0];
    if n > 0 {
      SwapLast(h, key, 0);
      h := Swap(h, 0, n);
      var moved;
      h, moved := Down(h, key, 0, 0, n);
      RootDone(h, key, n, moved);
    }
    DropLast(h, key, x, 0);
    h := h[..n];
  }

  lemma RootDone<T(!new)>(h: seq<T>, key: T -> int, n: nat, moved: bool)
    requires n <= |h| && (!moved ==> HeapButUp(h, key, 0, n, 0))
    requires moved ==> forall k: nat {:trigger Ordered(h, key, 0, k)} :: 0 < k < n ==> Ordered(h, key, 0, k)
    ensures forall k: nat {:trigger Ordered(h, key, 0, k)} :: 0 < k < n ==> Ordered(h, key, 0, k)
  {
  }
}
