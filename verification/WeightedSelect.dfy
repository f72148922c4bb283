/**
Weighted random selection over an 8-ary tree of partial sums that grows at the root. The
tree refines the flat weighted list of its slots.
*/
module WeightedSelect {
  import opened WeightedLists

  const WRS_BRANCHES := 8

  datatype Branch = NoBranch | Leaf(item: Item) | Sub(node: WrsNode)

  function Pow8(n: nat): (p: nat)
    ensures p > 0
  {
    if n == 0 then 1 else 8 * Pow8(n - 1)
  }

  /** A node's counters are those of the flat list of its chunks. */
  ghost predicate CountsOf(level: nat, maxItems: int, weights: seq<int>, c: seq<seq<Slot>>, sum: int, cnt: int) {
    && |weights| == |c| == 8
    && maxItems == 8 * Pow8(level) && Chunked(c, Pow8(level))
    && (forall i :: 0 <= i < 8 ==> weights[i] == Sum(c[i]))
    && sum == Sum(Flatten(c)) && cnt == Count(Flatten(c))
  }

  function Taken01(s: Slot): int {
    if s.Taken? then 1 else 0
  }

  /** The slot of an item after its weight has been set; weight zero removes the item. */
  function Reweighed(s: Slot, weight: nat): Slot
    requires s.Taken?
  {
    if weight == 0 then Free else Taken(s.item, weight)
  }

  /** One slot changes in one chunk: the effect on the whole list and on the counters. */
  lemma SlotUpdate(level: nat, maxItems: int, weights: seq<int>, c: seq<seq<Slot>>, sum: int, cnt: int, b: nat, i: nat, x: Slot)
    requires CountsOf(level, maxItems, weights, c, sum, cnt) && b < 8 && i < |c[b]|
    ensures b * Pow8(level) + i < |Flatten(c)| && Flatten(c)[b * Pow8(level) + i] == c[b][i]
    ensures var d, c' := WeightOf(x) - WeightOf(c[b][i]), c[b := c[b][i := x]];
      && CountsOf(level, maxItems, weights[b := weights[b] + d], c', sum + d, cnt - Taken01(c[b][i]) + Taken01(x))
      && Flatten(c') == Flatten(c)[b * Pow8(level) + i := x]
  {
    hide Flatten, Sum, Count, Pow8;
    FlattenUpdate(c, Pow8(level), b, i, x);
    SumUpdate(Flatten(c), b * Pow8(level) + i, x);
    SumUpdate(c[b], i, x);
  }

  class WrsNode {
    var items: seq<Branch>
    var weights: seq<int>
    var sumWeight: int
    var itemCnt: int
    const level: nat
    const maxItems: int

    /** The slots below each branch, and all nodes of the subtree. */
    ghost var chunks: seq<seq<Slot>>
    ghost var Repr: set<WrsNode>

    ghost function Flat(): seq<Slot>
      reads this
    {
      Flatten(chunks)
    }

    ghost predicate Counts()
      reads this
    {
      |items| == |weights| == |chunks| == 8 && CountsOf(level, maxItems, weights, chunks, sumWeight, itemCnt)
    }

    ghost predicate Valid()
      reads this, Repr
      ensures Valid() ==> this in Repr
      decreases level
    {
      && this in Repr && Counts()
      && (forall i :: 0 <= i < 8 && items[i].NoBranch? ==> chunks[i] == AllFree(Pow8(level)))
      && (forall i :: 0 <= i < 8 && items[i].Leaf? ==>
            level == 0 && weights[i] > 0 && chunks[i] == [Taken(items[i].item, weights[i])])
      && (forall i :: 0 <= i < 8 && items[i].Sub? ==>
            var n := items[i].node;
            && n in Repr && n.Repr <= Repr && this !in n.Repr
            && n.level + 1 == level && n.Valid() && chunks[i] == n.Flat())
      && (forall i, j :: 0 <= i < j < 8 && items[i].Sub? && items[j].Sub? ==>
            items[i].node.Repr !! items[j].node.Repr)
    }

    constructor (level: nat)
      ensures Valid() && Repr == {this} && this.level == level
      ensures Flat() == AllFree(8 * Pow8(level))
    {
      this.level := level;
      maxItems := 8 * Pow8(level);
      items := seq(8, _ => NoBranch);
      weights := seq(8, _ => 0);
      sumWeight, itemCnt := 0, 0;
      chunks := seq(8, _ => AllFree(Pow8(level)));
      Repr := {this};
      new;
      FlattenFree(8, Pow8(level));
      SumFree(Pow8(level));
      SumFree(8 * Pow8(level));
    }

    /** A root one level up whose first branch is `child`. */
    constructor Above(child: WrsNode)
      requires child.Valid()
      ensures Valid() && Repr == {this} + child.Repr && level == child.level + 1
      ensures itemCnt == child.itemCnt && maxItems == 8 * child.maxItems > 0
      ensures Flat() == child.Flat() + AllFree(7 * child.maxItems)
    {
      level := child.level + 1;
      maxItems := child.maxItems * WRS_BRANCHES;
      items := [Sub(child)] + seq(7, _ => NoBranch);
      weights := [child.sumWeight] + seq(7, _ => 0);
      sumWeight, itemCnt := child.sumWeight, child.itemCnt;
      chunks := [child.Flat()] + seq(7, _ => AllFree(child.maxItems));
      Repr := {this} + child.Repr;
      new;
      hide CountsOf, Flatten, Sum, Count, Pow8;
      RootCounts(child.level, child.maxItems, child.weights, child.chunks, child.sumWeight, child.itemCnt);
    }

    /** The first branch with room; the scan cannot run off the end of a node that has room. */
    method FindBranch() returns (branch: nat)
      requires Valid() && itemCnt < maxItems
      ensures branch < |items| == |chunks| == 8 && Count(chunks[branch]) < Pow8(level)
      ensures Count(Flat()) < |Flat()| && FirstFree(Flat()) == branch * Pow8(level) + FirstFree(chunks[branch])
      ensures level == 0 ==> items[branch].NoBranch? && FirstFree(chunks[branch]) == 0
      ensures items[branch].NoBranch? || (items[branch].Sub? && items[branch].node.itemCnt < items[branch].node.maxItems)
    {
      hide Flatten, Sum, Count;
      branch := 0;
      FlattenNone(chunks);
      FlattenLength(chunks, Pow8(level));
      assert chunks[..8] == chunks;
      while !items[branch].NoBranch? && (level == 0 || items[branch].node.itemCnt == items[branch].node.maxItems)
        invariant branch < 8
        invariant Count(Flatten(chunks[..branch])) == |Flatten(chunks[..branch])|
        decreases 8 - branch
      {
        FullBranch(branch);
        SkipChunk(chunks, Pow8(level), branch);
        branch := branch + 1;
      }
      RoomyBranch(branch);
      FirstFreeFlatten(chunks, Pow8(level), branch);
    }

    /** A leaf, or a subtree as full as it can be, has no free slot. */
    lemma FullBranch(i: nat)
      requires Valid() && i < 8
      requires items[i].Leaf? || (items[i].Sub? && items[i].node.itemCnt == items[i].node.maxItems)
      ensures Count(chunks[i]) == Pow8(level)
    {
    }

    /** Inserts a new item and returns its index: the least free one. */
    method Insert(item: Item, weight: nat) returns (idx: nat)
      requires Valid() && itemCnt < maxItems && weight > 0
      modifies Repr
      ensures Valid() && fresh(Repr - old(Repr))
      ensures idx < |old(Flat())| && Flat() == old(Flat())[idx := Taken(item, weight)]
      ensures Count(old(Flat())) < |old(Flat())| && idx == FirstFree(old(Flat()))
      decreases level, 2
    {
      hide WrsNode.Valid, WrsNode.Flat, Flatten, Sum, Count, FirstFree;
      var branch := FindBranch();
      if level == 0 {
        InsertLeaf(branch, item, weight);
        idx := branch;
      } else {
        OpenBranch(branch);
        var subIdx, subMax := InsertBelow(branch, item, weight);
        idx := subMax * branch + subIdx;
      }
    }

    method InsertLeaf(branch: nat, item: Item, weight: nat)
      requires Valid() && level == 0 && weight > 0 && branch < |items| && items[branch].NoBranch?
      modifies this
      ensures Valid() && Repr == old(Repr)
      ensures branch < |old(Flat())| && Flat() == old(Flat())[branch := Taken(item, weight)]
    {
      hide CountsOf, Flatten, Sum, Count;
      SlotUpdate(level, maxItems, weights, chunks, sumWeight, itemCnt, branch, 0, Taken(item, weight));
      assert chunks[branch][0 := Taken(item, weight)] == [Taken(item, weight)];
      LeafWeight(level, maxItems, weights, chunks, sumWeight, itemCnt, branch);
      chunks := chunks[branch := [Taken(item, weight)]];
      items := items[branch := Leaf(item)];
      itemCnt, sumWeight := itemCnt + 1, sumWeight + weight;
      weights := weights[branch := weights[branch] + weight];
    }

    /** Creates the subtree of a branch that has none yet. */
    method OpenBranch(branch: nat)
      requires Valid() && level > 0 && branch < |items| && Count(chunks[branch]) < Pow8(level)
      modifies this
      ensures Valid() && fresh(Repr - old(Repr)) && chunks == old(chunks) && Flat() == old(Flat())
      ensures branch < |items| && items[branch].Sub? && items[branch].node.itemCnt < items[branch].node.maxItems
    {
      hide Flatten, Sum, Count;
      if items[branch].NoBranch? {
        var sub := new WrsNode(level - 1);
        AttachBranch(branch, sub);
      }
    }

    method AttachBranch(branch: nat, sub: WrsNode)
      requires Valid() && level > 0 && branch < |items| && items[branch].NoBranch?
      requires sub.Valid() && sub.Repr == {sub} && sub !in Repr && sub.level + 1 == level
      requires sub.Flat() == AllFree(8 * Pow8(level - 1))
      modifies this
      ensures Valid() && Repr == old(Repr) + {sub} && chunks == old(chunks) && items == old(items)[branch := Sub(sub)]
    {
      hide Flatten, Sum, Count;
      items := items[branch := Sub(sub)];
      Repr := Repr + {sub};
    }

    /** Inserts into the subtree of a branch; also returns the number of slots per branch. */
    method InsertBelow(branch: nat, item: Item, weight: nat) returns (subIdx: nat, subMax: int)
      requires Valid() && level > 0 && weight > 0 && branch < |items|
      requires items[branch].Sub? && items[branch].node.itemCnt < items[branch].node.maxItems
      modifies Repr
      ensures Valid() && fresh(Repr - old(Repr)) && subMax == Pow8(level)
      ensures branch < |old(chunks)| && Count(old(chunks)[branch]) < |old(chunks)[branch]|
      ensures subIdx == FirstFree(old(chunks)[branch])
      ensures var idx := branch * subMax + subIdx;
        idx < |old(Flat())| && Flat() == old(Flat())[idx := Taken(item, weight)]
      decreases level, 1
    {
      SubMax(branch);
      hide CountsOf, Flatten, Sum, Count, FirstFree, Pow8, AllFree, WrsNode.SiblingsOk;
      LeaveOneOut(branch);
      subMax := items[branch].node.maxItems;
      subIdx := InsertSub(branch, item, weight);
      Absorb(branch, weight, 1, subIdx, Taken(item, weight));
    }

    /** The recursive call alone: a change confined to one subtree leaves its siblings alone. */
    method InsertSub(branch: nat, item: Item, weight: nat) returns (subIdx: nat)
      requires weight > 0 && SiblingsOk(branch) && Apart(branch) && items[branch].node.level + 1 == level
      requires items[branch].node.Valid() && items[branch].node.itemCnt < items[branch].node.maxItems
      modifies items[branch].node.Repr
      ensures SiblingsOk(branch) && Apart(branch)
      ensures items[branch].node.Valid() && fresh(items[branch].node.Repr - old(items[branch].node.Repr))
      ensures var s := old(items[branch].node.Flat());
        && Count(s) < |s| && subIdx == FirstFree(s)
        && items[branch].node.Flat() == s[subIdx := Taken(item, weight)]
      decreases level, 0
    {
      hide CountsOf, Flatten, Sum, Count, FirstFree, Pow8, AllFree;
      subIdx := items[branch].node.Insert(item, weight);
    }

    /** Leaving one subtree out of a valid node. */
    lemma LeaveOneOut(b: nat)
      requires Valid() && b < 8 && items[b].Sub?
      ensures SiblingsOk(b) && Apart(b)
    {
    }

    /** The other subtrees share no node with that of branch `b`, nor does this node. */
    ghost predicate Apart(b: nat)
      reads this, Repr
    {
      && b < |items| && items[b].Sub? && items[b].node in Repr && this !in items[b].node.Repr
      && forall j :: 0 <= j < |items| && j != b && items[j].Sub? && items[j].node in Repr ==>
           items[j].node.Repr !! items[b].node.Repr
    }

    /** All but branch `b` are as they should be, and apart from the subtree of `b`. */
    ghost predicate SiblingsOk(b: nat)
      reads this, Repr
    {
      && |items| == |weights| == |chunks| == 8 && this in Repr
      && (forall i :: 0 <= i < 8 && i != b && items[i].NoBranch? ==> chunks[i] == AllFree(Pow8(level)))
      && (forall i :: 0 <= i < 8 && i != b && items[i].Leaf? ==>
            level == 0 && weights[i] > 0 && chunks[i] == [Taken(items[i].item, weights[i])])
      && (forall i :: 0 <= i < 8 && i != b && items[i].Sub? ==>
            var n := items[i].node;
            && n in Repr && n.Repr <= Repr && this !in n.Repr
            && n.level + 1 == level && n.Valid() && chunks[i] == n.Flat())
      && (forall i, j :: 0 <= i < j < 8 && i != b && j != b && items[i].Sub? && items[j].Sub? ==>
            items[i].node.Repr !! items[j].node.Repr)
    }

    /** Brings a node up to date after slot `i` below `branch` has become `x`. */
    method Absorb(branch: nat, diff: int, cnt: int, ghost i: nat, ghost x: Slot)
      requires Counts() && branch < 8 && SiblingsOk(branch) && items[branch].Sub?
      requires Apart(branch) && items[branch].node.level + 1 == level && items[branch].node.Valid()
      requires i < |chunks[branch]| && items[branch].node.Flat() == chunks[branch][i := x]
      requires diff == WeightOf(x) - WeightOf(chunks[branch][i]) && cnt == Taken01(x) - Taken01(chunks[branch][i])
      modifies this
      ensures Valid() && items == old(items) && Repr == old(Repr + items[branch].node.Repr)
      ensures var idx := branch * Pow8(level) + i;
        idx < |old(Flat())| && old(Flat())[idx] == old(chunks)[branch][i] && Flat() == old(Flat())[idx := x]
    {
      hide CountsOf, Flatten, Sum, Count, Pow8, AllFree, WrsNode.Valid;
      SlotUpdate(level, maxItems, weights, chunks, sumWeight, itemCnt, branch, i, x);
      var sub := items[branch].node;
      Repr := Repr + sub.Repr;
      chunks := chunks[branch := sub.Flat()];
      itemCnt, sumWeight := itemCnt + cnt, sumWeight + diff;
      weights := weights[branch := weights[branch] + diff];
      assert SiblingsOk(branch) && Apart(branch);
      Rejoin(branch);
    }

    /** Counters, siblings and one subtree in order make the node valid. */
    lemma Rejoin(b: nat)
      requires Counts() && b < 8 && SiblingsOk(b) && Apart(b) && items[b].node.Repr <= Repr
      requires items[b].node.level + 1 == level && items[b].node.Valid() && chunks[b] == items[b].node.Flat()
      ensures Valid()
    {
      hide CountsOf, Flatten, Pow8, AllFree;
    }

    /** Gives an existing item a new weight, or frees its slot, and returns the difference. */
    method SetWeight(idx: nat, weight: nat) returns (diff: int)
      requires Valid() && idx < |Flat()| && Flat()[idx].Taken?
      modifies Repr
      ensures Valid() && Repr == old(Repr)
      ensures Flat() == old(Flat())[idx := Reweighed(old(Flat())[idx], weight)]
      ensures diff == weight - old(Flat())[idx].weight
      decreases level, 2
    {
      hide WrsNode.Valid, WrsNode.Flat, Flatten, Sum, Count, Pow8;
      Locate(idx);
      if level == 0 {
        diff := SetLeaf(idx, weight);
      } else {
        var branchItems := maxItems / WRS_BRANCHES;
        var branch := idx / branchItems;
        diff := SetBelow(branch, idx - branch * branchItems, weight);
      }
    }

    /** The branch and the index below it that an index stands for. */
    lemma Locate(idx: nat)
      requires Valid() && idx < |Flat()|
      ensures var m := Pow8(level);
        && maxItems == 8 * m && idx / m < 8 == |chunks| && 0 <= idx - idx / m * m < |chunks[idx / m]|
        && Flat()[idx] == chunks[idx / m][idx - idx / m * m]
      ensures level == 0 ==> idx < |chunks| && |chunks[idx]| == 1 && Flat()[idx] == chunks[idx][0]
    {
      hide Flatten, Sum, Count;
      var m := Pow8(level);
      FlattenLength(chunks, m);
      DivBound(idx, m, 8);
      FlattenUpdate(chunks, m, idx / m, idx - idx / m * m, Free);
    }

    method SetLeaf(idx: nat, weight: nat) returns (diff: int)
      requires Valid() && level == 0 && idx < |chunks| && |chunks[idx]| == 1 && chunks[idx][0].Taken?
      modifies this
      ensures Valid() && Repr == old(Repr)
      ensures idx < |old(Flat())| && Flat() == old(Flat())[idx := Reweighed(old(chunks)[idx][0], weight)]
      ensures diff == weight - old(chunks)[idx][0].weight
    {
      hide CountsOf, Flatten, Sum, Count, AllFree;
      ghost var x := Reweighed(chunks[idx][0], weight);
      SlotUpdate(level, maxItems, weights, chunks, sumWeight, itemCnt, idx, 0, x);
      LeafWeight(level, maxItems, weights, chunks, sumWeight, itemCnt, idx);
      assert chunks[idx][0 := x] == [x];
      var oldWeight := weights[idx];
      diff := weight - oldWeight;
      chunks := chunks[idx := [x]];
      weights := weights[idx := weight];
      sumWeight := sumWeight + diff;
      if weight == 0 {
        items := items[idx := NoBranch];
        itemCnt := itemCnt - 1;
      }
    }

    method SetBelow(branch: nat, sub: nat, weight: nat) returns (diff: int)
      requires Valid() && level > 0 && branch < |chunks| && sub < |chunks[branch]| && chunks[branch][sub].Taken?
      modifies Repr
      ensures Valid() && Repr == old(Repr)
      ensures var idx := branch * Pow8(level) + sub;
        idx < |old(Flat())| && Flat() == old(Flat())[idx := Reweighed(old(chunks)[branch][sub], weight)]
      ensures diff == weight - old(chunks)[branch][sub].weight
      decreases level, 1
    {
      hide CountsOf, Flatten, Sum, Count, Pow8, WrsNode.SiblingsOk;
      assert items[branch].Sub?;
      hide AllFree;
      LeaveOneOut(branch);
      diff := SetSub(branch, sub, weight);
      Absorb(branch, diff, if weight == 0 then -1 else 0, sub, Reweighed(chunks[branch][sub], weight));
    }

    method SetSub(branch: nat, sub: nat, weight: nat) returns (diff: int)
      requires SiblingsOk(branch) && Apart(branch) && items[branch].node.level + 1 == level
      requires items[branch].node.Valid()
      requires sub < |items[branch].node.Flat()| && items[branch].node.Flat()[sub].Taken?
      modifies items[branch].node.Repr
      ensures SiblingsOk(branch) && Apart(branch)
      ensures items[branch].node.Valid() && items[branch].node.Repr == old(items[branch].node.Repr)
      ensures var s := old(items[branch].node.Flat());
        items[branch].node.Flat() == s[sub := Reweighed(s[sub], weight)] && diff == weight - s[sub].weight
      decreases level, 0
    {
      hide CountsOf, Flatten, Sum, Count, Pow8, AllFree;
      diff := items[branch].node.SetWeight(sub, weight);
    }

    /** Finds the item whose prefix-sum interval contains `val`. */
    method Choose(val: nat) returns (item: Item, weight: nat)
      requires Valid() && val < sumWeight
      ensures val < Sum(Flat()) && Flat()[Pick(Flat(), val)] == Taken(item, weight)
      decreases level
    {
      hide Flatten, Sum, Count, Pick, Pow8, AllFree;
      var i, v: int := 0, val;
      FlattenNone(chunks);
      assert chunks[..8] == chunks;
      while v >= weights[i]
        invariant i < 8 && v >= 0
        invariant v + Sum(Flatten(chunks[..i])) == val
        decreases 8 - i
      {
        SumFlatten(chunks, i);
        v, i := v - weights[i], i + 1;
      }
      PickFlatten(chunks, Pow8(level), i, v);
      FlattenUpdate(chunks, Pow8(level), i, Pick(chunks[i], v), Free);
      NotFree(i, v);
      if level == 0 {
        item, weight := items[i].item, weights[i];
      } else {
        item, weight := items[i].node.Choose(v);
      }
    }

    /** A branch that can be selected is there. */
    lemma NotFree(i: nat, v: nat)
      requires Valid() && i < 8 && v < weights[i]
      ensures !items[i].NoBranch? && v < Sum(chunks[i]) && Pick(chunks[i], v) < Pow8(level)
      ensures if level == 0 then items[i].Leaf? && Pick(chunks[i], v) == 0
              else items[i].Sub? && v < items[i].node.sumWeight
    {
      SumFree(Pow8(level));
    }

    lemma SubMax(i: nat)
      requires Valid() && i < |items| && items[i].Sub?
      ensures items[i].node.maxItems == |chunks[i]| == Pow8(level)
    {
    }

    lemma RoomyBranch(i: nat)
      requires Valid() && i < 8
      requires items[i].NoBranch? || (items[i].Sub? && items[i].node.itemCnt != items[i].node.maxItems)
      ensures Count(chunks[i]) < Pow8(level)
      ensures items[i].Sub? ==> items[i].node.itemCnt < items[i].node.maxItems
    {
      SumFree(Pow8(level));
    }
  }

  lemma LeafWeight(level: nat, maxItems: int, weights: seq<int>, c: seq<seq<Slot>>, sum: int, cnt: int, b: nat)
    requires CountsOf(level, maxItems, weights, c, sum, cnt) && b < 8
    ensures |c[b]| == 1 ==> weights[b] == WeightOf(c[b][0])
  {
    if |c[b]| == 1 {
      assert Sum(c[b]) == WeightOf(c[b][0]) + Sum(c[b][1..]) == weights[b];
    }
  }

  lemma RootCounts(level: nat, maxItems: int, weights: seq<int>, c: seq<seq<Slot>>, sum: int, cnt: int)
    requires CountsOf(level, maxItems, weights, c, sum, cnt)
    ensures maxItems >= 0 && maxItems == Pow8(level + 1)
    ensures var flat := Flatten(c);
      var c' := [flat] + seq(7, _ => AllFree(maxItems));
      && Flatten(c') == flat + AllFree(7 * maxItems)
      && CountsOf(level + 1, 8 * maxItems, [sum] + seq(7, _ => 0), c', sum, cnt)
  {
    var flat := Flatten(c);
    var c' := [flat] + seq(7, _ => AllFree(maxItems));
    FlattenLength(c, Pow8(level));
    FlattenFree(7, maxItems);
    assert c'[1..] == seq(7, _ => AllFree(maxItems));
    SumFree(maxItems);
    SumFree(7 * maxItems);
    SumConcat(flat, AllFree(7 * maxItems));
  }

  lemma DivBound(k: nat, m: nat, n: nat)
    requires 0 < m && k < n * m
    ensures 0 <= k / m < n && 0 <= k - k / m * m < m && k / m * m + (k - k / m * m) == k
  {
    assert k == m * (k / m) + k % m;
  }

  lemma FlattenNone(c: seq<seq<Slot>>)
    ensures Flatten(c[..0]) == [] && Count([]) == 0 && Sum([]) == 0
  {
  }

  lemma SkipChunk(c: seq<seq<Slot>>, m: nat, b: nat)
    requires Chunked(c, m) && b < |c| && Count(c[b]) == m
    requires Count(Flatten(c[..b])) == |Flatten(c[..b])|
    ensures Count(Flatten(c[..b + 1])) == |Flatten(c[..b + 1])|
  {
    hide Flatten, Sum, Count;
    SumFlatten(c, b);
    FlattenLength(c[..b], m);
    FlattenLength(c[..b + 1], m);
    assert (b + 1) * m == b * m + m;
  }

  /** The index map is the inverse of the flat list, whose items all have weight. */
  ghost predicate IndexOk(flat: seq<Slot>, idx: map<Item, nat>) {
    && (forall x :: x in idx ==> idx[x] < |flat| && flat[idx[x]].Taken? && flat[idx[x]].item == x)
    && (forall i :: 0 <= i < |flat| && flat[i].Taken? ==>
          flat[i].weight > 0 && flat[i].item in idx && idx[flat[i].item] == i)
  }

  /** The weight of every member of the set. */
  ghost function WeightMap(flat: seq<Slot>, idx: map<Item, nat>): map<Item, nat>
    requires IndexOk(flat, idx)
  {
    map x | x in idx :: flat[idx[x]].weight
  }

  /** A weighted set with one weight set: zero removes the member. */
  function WithWeight(m: map<Item, nat>, x: Item, weight: nat): map<Item, nat> {
    if weight == 0 then m - {x} else m[x := weight]
  }

  lemma IndexInsert(flat: seq<Slot>, idx: map<Item, nat>, i: nat, x: Item, weight: nat)
    requires IndexOk(flat, idx) && i < |flat| && flat[i].Free? && x !in idx && weight > 0
    ensures var flat', idx' := flat[i := Taken(x, weight)], idx[x := i];
      IndexOk(flat', idx') && WeightMap(flat', idx') == WithWeight(WeightMap(flat, idx), x, weight)
  {
  }

  lemma IndexSet(flat: seq<Slot>, idx: map<Item, nat>, x: Item, weight: nat)
    requires IndexOk(flat, idx) && x in idx
    ensures var flat', idx' := flat[idx[x] := Reweighed(flat[idx[x]], weight)], if weight == 0 then idx - {x} else idx;
      IndexOk(flat', idx') && WeightMap(flat', idx') == WithWeight(WeightMap(flat, idx), x, weight)
  {
  }

  lemma IndexExtend(flat: seq<Slot>, idx: map<Item, nat>, n: nat)
    requires IndexOk(flat, idx)
    ensures IndexOk(flat + AllFree(n), idx) && WeightMap(flat + AllFree(n), idx) == WeightMap(flat, idx)
  {
  }

  lemma {:induction false} NothingLeft(flat: seq<Slot>)
    requires Sum(flat) == 0
    ensures forall i :: 0 <= i < |flat| ==> WeightOf(flat[i]) == 0
  {
    if flat != [] {
      NothingLeft(flat[1..]);
      assert forall i :: 1 <= i < |flat| ==> flat[i] == flat[1..][i - 1];
    }
  }

  class WeightedRandomSelect {
    var root: WrsNode
    var idx: map<Item, nat>

    ghost predicate Valid()
      reads this, root, root.Repr
    {
      root.Valid() && IndexOk(root.Flat(), idx)
    }

    /** The weighted set that the structure stands for. */
    ghost function Weights(): map<Item, nat>
      reads this, root, root.Repr
      requires Valid()
    {
      WeightMap(root.Flat(), idx)
    }

    ghost function Total(): nat
      reads this, root
    {
      Sum(root.Flat())
    }

    constructor ()
      ensures Valid() && fresh(root.Repr) && Weights() == map[]
    {
      root := new WrsNode(0);
      idx := map[];
    }

    /** Adds an item, changes its weight, or removes it if the weight is zero. */
    method SetWeight(item: Item, weight: nat)
      requires Valid()
      modifies this, root.Repr
      ensures Valid() && fresh(root.Repr - old(root.Repr))
      ensures Weights() == WithWeight(old(Weights()), item, weight)
      ensures item in old(Weights()) ==> Total() == old(Total()) - old(Weights())[item] + weight
      ensures item in old(idx) ==> SlotReweighed(old(root.Flat()), root.Flat(), old(idx)[item], weight)
    {
      hide WrsNode.Valid, WrsNode.Flat, IndexOk, WeightMap, Sum, SlotReweighed;
      if item in idx {
        Update(item, weight);
      } else {
        NotStored(root.Flat(), idx, item);
        if weight != 0 {
          if root.itemCnt == root.maxItems {
            Grow();
          }
          Add(item, weight);
        }
      }
    }

    method Update(item: Item, weight: nat)
      requires Valid() && item in idx
      modifies this, root.Repr
      ensures Valid() && root.Repr == old(root.Repr)
      ensures Weights() == WithWeight(old(Weights()), item, weight)
      ensures item in old(Weights()) && Total() == old(Total()) - old(Weights())[item] + weight
      ensures SlotReweighed(old(root.Flat()), root.Flat(), old(idx)[item], weight)
    {
      hide WrsNode.Valid, WrsNode.Flat, IndexOk, WeightMap, Sum, Count;
      Stored(root.Flat(), idx, item);
      IndexSet(root.Flat(), idx, item, weight);
      SumUpdate(root.Flat(), idx[item], Reweighed(root.Flat()[idx[item]], weight));
      var diff := root.SetWeight(idx[item], weight);
      if weight == 0 {
        idx := idx - {item};
      }
    }

    method Add(item: Item, weight: nat)
      requires Valid() && item !in idx && weight != 0 && root.itemCnt != root.maxItems
      modifies this, root.Repr
      ensures Valid() && fresh(root.Repr - old(root.Repr))
      ensures Weights() == WithWeight(old(Weights()), item, weight)
    {
      hide WrsNode.Valid, WrsNode.Flat, IndexOk, WeightMap, Sum, Count;
      RoomLeft(root);
      ghost var flat := root.Flat();
      var i := root.Insert(item, weight);
      IndexInsert(flat, idx, i, item, weight);
      idx := idx[item := i];
    }

    /** Puts a new root above a full one. */
    method Grow()
      requires Valid() && root.itemCnt == root.maxItems
      modifies this
      ensures Valid() && fresh(root.Repr - old(root.Repr)) && root.itemCnt != root.maxItems
      ensures idx == old(idx) && Weights() == old(Weights())
    {
      hide Flatten, Sum, Count;
      IndexExtend(root.Flat(), idx, 7 * root.maxItems);
      root := new WrsNode.Above(root);
    }

    /**
    Selects an item with a chance proportional to its stored weight, lowering stored
    weights that have fallen since and retrying in proportion to the fall. On the tree this
    is the selection from the flat list with the same random numbers.
    */
    method Choose(weightOf: Item -> nat, random: Random) returns (r: Choice)
      requires Valid() && Draws(random)
      modifies this, root.Repr
      ensures Valid() && fresh(root.Repr - old(root.Repr))
      ensures (r, root.Flat()) == Draw(old(root.Flat()), weightOf, random, 0)
      ensures Lowered(old(Weights()), Weights(), weightOf)
      ensures r == Nothing ==> Weights() == map[]
      ensures r.Chosen? ==> r.item in old(Weights()) && weightOf(r.item) > 0
    {
      hide WrsNode.Valid, WrsNode.Flat, IndexOk, Sum, Count, Pick, Draw;
      ghost var flat0 := root.Flat();
      var k: nat := 0;
      while true
        invariant Valid() && fresh(root.Repr - old(root.Repr))
        invariant Lowered(old(Weights()), Weights(), weightOf)
        invariant Draw(root.Flat(), weightOf, random, k) == Draw(flat0, weightOf, random, 0)
        decreases Total()
      {
        SumIsTotal(root);
        if root.sumWeight == 0 {
          EmptySet(root.Flat(), idx);
          DrawNothing(root.Flat(), weightOf, random, k);
          return Nothing;
        }
        var val := random(k, root.sumWeight);
        var choice, lastWeight := root.Choose(val);
        PickedMember(root.Flat(), idx, val);
        DrawStep(root.Flat(), weightOf, random, k, choice, lastWeight);
        var weight := weightOf(choice);
        if weight != lastWeight {
          SetWeight(choice, weight);
        }
        if weight >= lastWeight || random(k + 1, lastWeight) < weight {
          return Chosen(choice);
        }
        k := k + 2;
      }
    }
  }

  /** The k-th random number below a bound. */
  type Random = (nat, nat) -> nat

  ghost predicate Draws(random: Random) {
    forall k: nat, n: nat :: n > 0 ==> random(k, n) < n
  }

  ghost predicate SlotReweighed(flat: seq<Slot>, flat': seq<Slot>, i: nat, weight: nat) {
    i < |flat| && flat[i].Taken? && flat' == flat[i := Reweighed(flat[i], weight)]
  }

  /** The list after the chosen slot took the item's own current weight. */
  ghost function Refreshed(flat: seq<Slot>, i: nat, weightOf: Item -> nat): seq<Slot>
    requires i < |flat| && flat[i].Taken?
  {
    if weightOf(flat[i].item) == flat[i].weight then flat else flat[i := Reweighed(flat[i], weightOf(flat[i].item))]
  }

  /** A draw ends with the picked item if its weight has not fallen, and otherwise in proportion to what is left of it. */
  predicate Settles(weight: nat, lastWeight: nat, u: nat) {
    weight >= lastWeight || u < weight
  }

  /** Selection from a flat list: what is chosen, and the list afterwards. */
  ghost function Draw(flat: seq<Slot>, weightOf: Item -> nat, random: Random, k: nat): (Choice, seq<Slot>)
    requires Draws(random)
    decreases Sum(flat)
  {
    if Sum(flat) == 0 then (Nothing, flat)
    else
      var i := Pick(flat, random(k, Sum(flat)));
      var weight := weightOf(flat[i].item);
      var flat' := Refreshed(flat, i, weightOf);
      if Settles(weight, flat[i].weight, random(k + 1, flat[i].weight)) then (Chosen(flat[i].item), flat')
      else
        SumUpdate(flat, i, Reweighed(flat[i], weight));
        Draw(flat', weightOf, random, k + 2)
  }

  lemma DrawNothing(flat: seq<Slot>, weightOf: Item -> nat, random: Random, k: nat)
    requires Draws(random) && Sum(flat) == 0
    ensures Draw(flat, weightOf, random, k) == (Nothing, flat)
  {
  }

  lemma DrawStep(flat: seq<Slot>, weightOf: Item -> nat, random: Random, k: nat, item: Item, lastWeight: nat)
    requires Draws(random) && Sum(flat) > 0
    requires flat[Pick(flat, random(k, Sum(flat)))] == Taken(item, lastWeight)
    ensures var i, weight := Pick(flat, random(k, Sum(flat))), weightOf(item);
      var flat' := Refreshed(flat, i, weightOf);
      && (weight != lastWeight ==> flat' == flat[i := Reweighed(flat[i], weight)]) && (weight == lastWeight ==> flat' == flat)
      && Draw(flat, weightOf, random, k) ==
         if Settles(weight, lastWeight, random(k + 1, lastWeight)) then (Chosen(item), flat')
         else Draw(flat', weightOf, random, k + 2)
  {
  }

  datatype Choice = Nothing | Chosen(item: Item)

  /** Weights change only to the items' current ones; members vanish only at weight zero. */
  ghost predicate Lowered(before: map<Item, nat>, after: map<Item, nat>, weightOf: Item -> nat) {
    && (forall x :: x in after ==> x in before && (after[x] == before[x] || after[x] == weightOf(x)))
    && (forall x :: x in before && x !in after ==> weightOf(x) == 0)
  }

  lemma Stored(flat: seq<Slot>, idx: map<Item, nat>, x: Item)
    requires IndexOk(flat, idx) && x in idx
    ensures x in WeightMap(flat, idx) && idx[x] < |flat| && flat[idx[x]] == Taken(x, WeightMap(flat, idx)[x])
  {
  }

  lemma NotStored(flat: seq<Slot>, idx: map<Item, nat>, x: Item)
    requires IndexOk(flat, idx) && x !in idx
    ensures x !in WeightMap(flat, idx) && WithWeight(WeightMap(flat, idx), x, 0) == WeightMap(flat, idx)
  {
  }

  lemma RoomLeft(root: WrsNode)
    requires root.Valid() && root.itemCnt != root.maxItems
    ensures root.itemCnt < root.maxItems
  {
    FlattenLength(root.chunks, Pow8(root.level));
  }

  lemma SumIsTotal(root: WrsNode)
    requires root.Valid()
    ensures root.sumWeight == Sum(root.Flat())
  {
  }

  lemma EmptySet(flat: seq<Slot>, idx: map<Item, nat>)
    requires IndexOk(flat, idx) && Sum(flat) == 0
    ensures WeightMap(flat, idx) == map[]
  {
    NothingLeft(flat);
  }

  lemma PickedMember(flat: seq<Slot>, idx: map<Item, nat>, val: nat)
    requires IndexOk(flat, idx) && val < Sum(flat)
    ensures var s := flat[Pick(flat, val)];
      && s.weight > 0 && s.item in idx && idx[s.item] == Pick(flat, val)
      && s.item in WeightMap(flat, idx) && WeightMap(flat, idx)[s.item] == s.weight
  {
  }
}
