/**
The price heap of the pool. It may hold stale transactions and duplicates, but it never
loses one that is still pooled: that is all the price floor and the pool limit need.
*/
module PricedLists {
  import opened Heaps
  import opened Transactions

  function PriceKey(t: Tx): int {
    t.price
  }

  /** Whether the sender is exempt from pricing rules. */
  predicate IsLocal(locals: set<Address>, t: Tx) {
    t.sender in locals
  }

  class TxPricedList {
    var items: seq<Tx>
    var stales: int

    ghost predicate Valid()
      reads this
    {
      IsHeap(items, PriceKey)
    }

    /** Every pooled transaction is in the heap. */
    ghost predicate Covers(all: set<Tx>)
      reads this
    {
      forall t :: t in all ==> t in items
    }

    constructor ()
      ensures Valid() && items == []
    {
      items, stales := [], 0;
    }

    method Put(tx: Tx)
      requires Valid()
      modifies this
      ensures Valid() && multiset(items) == multiset(old(items)) + multiset{tx}
    {
      items := Push(items, PriceKey, tx);
    }

    /** Counts one more stale entry; past a quarter of the heap it is rebuilt from the pool. */
    method Removed(all: set<Tx>)
      requires Valid()
      modifies this
      ensures Valid()
      ensures if old(stales) + 1 <= |old(items)| / 4 then items == old(items) && stales == old(stales) + 1
              else multiset(items) == multiset(all) && stales == 0
    {
      stales := stales + 1;
      if stales <= |items| / 4 {
        return;
      }
      stales := 0;
      var reheap := Gather(all);
      items := Init(reheap, PriceKey);
    }

    /** Puts transactions that were only looked at back on the heap. */
    method PutBack(save: seq<Tx>)
      requires Valid()
      modifies this`items
      ensures Valid() && multiset(items) == multiset(old(items)) + multiset(save)
    {
      hide IsHeap;
      for i := 0 to |save|
        invariant Valid() && multiset(items) == multiset(old(items)) + multiset(save[..i])
      {
        assert save[..i + 1] == save[..i] + [save[i]];
        items := Push(items, PriceKey, save[i]);
      }
      assert save[..|save|] == save;
    }

    /**
    Takes every pooled remote transaction below the price threshold off the heap and
    returns it. Popping stops at the first pooled one that is not below.
    */
    method Cap(threshold: nat, locals: set<Address>, all: set<Tx>) returns (drop: seq<Tx>)
      requires Valid()
      modifies this
      ensures Valid()
      ensures forall t :: t in drop ==> t in all && t.price < threshold && !IsLocal(locals, t)
      ensures forall t :: t in items ==> t in old(items)
      ensures forall t :: t in all && t in old(items) ==> t in items || t in drop
      ensures forall t :: t in items ==> IsLocal(locals, t) || t.price >= threshold
    {
      hide IsHeap;
      drop := [];
      var save := [];
      while items != []
        invariant Valid()
        invariant forall t :: t in drop ==> t in all && t.price < threshold && !IsLocal(locals, t) && t in old(items)
        invariant forall t :: t in save ==> t in old(items) && (IsLocal(locals, t) || t.price >= threshold)
        invariant forall t :: t in items ==> t in old(items)
        invariant forall t :: t in all && t in old(items) ==> t in items || t in drop || t in save
        decreases |items|
      {
        ghost var before := items;
        var tx;
        items, tx := Pop(items, PriceKey);
        PopFacts(before, items, tx);
        if tx !in all {
          stales := stales - 1;
        } else if tx.price >= threshold {
          save := save + [tx];
          break;
        } else if IsLocal(locals, tx) {
          save := save + [tx];
        } else {
          drop := drop + [tx];
        }
      }
      assert forall t :: t in items ==> t.price >= threshold;
      ghost var left := items;
      PutBack(save);
      UnionFacts(left, save, items);
    }

    /** Whether a remote transaction is no better than the cheapest pooled one. */
    method Underpriced(tx: Tx, locals: set<Address>, all: set<Tx>) returns (r: bool)
      requires Valid()
      modifies this
      ensures Valid()
      ensures forall t :: t in items ==> t in old(items)
      ensures forall t :: t in all && t in old(items) ==> t in items
      ensures r ==> !IsLocal(locals, tx) && all != {} && forall t :: t in all && t in old(items) ==> tx.price <= t.price
      ensures !r && !IsLocal(locals, tx) ==> items == [] || (items[0] in all && items[0].price < tx.price)
    {
      hide IsHeap;
      if IsLocal(locals, tx) {
        return false;
      }
      while items != [] && items[0] !in all
        invariant Valid()
        invariant forall t :: t in items ==> t in old(items)
        invariant forall t :: t in all && t in old(items) ==> t in items
        decreases |items|
      {
        stales := stales - 1;
        ghost var before := items;
        var head;
        items, head := Pop(items, PriceKey);
        PopFacts(before, items, head);
      }
      if items == [] {
        return false;
      }
      RootBelowAll(items);
      r := items[0].price >= tx.price;
    }

    /** Takes the `count` cheapest pooled remote transactions off the heap and returns them. */
    method Discard(count: nat, locals: set<Address>, all: set<Tx>) returns (drop: seq<Tx>)
      requires Valid()
      modifies this
      ensures Valid() && |drop| <= count
      ensures forall t :: t in drop ==> t in all && !IsLocal(locals, t)
      ensures forall t :: t in items ==> t in old(items)
      ensures forall t :: t in all && t in old(items) ==> t in items || t in drop
      ensures forall d, t :: d in drop && t in items && t in all && !IsLocal(locals, t) ==> d.price <= t.price
      ensures |drop| < count ==> forall t :: t in items ==> IsLocal(locals, t)
    {
      hide IsHeap;
      drop := [];
      var save := [];
      while items != [] && |drop| < count
        invariant Valid() && |drop| <= count
        invariant forall t :: t in drop ==> t in all && !IsLocal(locals, t)
        invariant forall t :: t in save ==> t in old(items) && IsLocal(locals, t)
        invariant forall t :: t in items ==> t in old(items)
        invariant forall t :: t in all && t in old(items) ==> t in items || t in drop || t in save
        invariant forall d, t :: d in drop && t in items ==> d.price <= t.price
        decreases |items|
      {
        ghost var before := items;
        var tx;
        items, tx := Pop(items, PriceKey);
        PopFacts(before, items, tx);
        if tx !in all {
          stales := stales - 1;
        } else if IsLocal(locals, tx) {
          save := save + [tx];
        } else {
          drop := drop + [tx];
        }
      }
      ghost var left := items;
      PutBack(save);
      UnionFacts(left, save, items);
    }
  }

  method Gather(s: set<Tx>) returns (r: seq<Tx>)
    ensures multiset(r) == multiset(s)
  {
    r := [];
    var todo := s;
    while todo != {}
      invariant todo <= s && multiset(r) + multiset(todo) == multiset(s)
      decreases |todo|
    {
      var t :| t in todo;
      todo := todo - {t};
      r := r + [t];
    }
  }

  lemma PopFacts(before: seq<Tx>, after: seq<Tx>, tx: Tx)
    requires multiset(before) == multiset(after) + multiset{tx}
    requires forall y :: y in before ==> PriceKey(tx) <= PriceKey(y)
    ensures |after| < |before| && (forall t :: t in before <==> t in after || t == tx)
    ensures forall t :: t in after ==> tx.price <= t.price
  {
    assert |multiset(before)| == |before| && |multiset(after)| == |after|;
    assert forall t :: t in before <==> t in multiset(before);
    assert forall t :: t in after <==> t in multiset(after);
    forall t | t in after ensures tx.price <= t.price {
      assert t in before && PriceKey(tx) <= PriceKey(t);
    }
  }

  lemma UnionFacts(a: seq<Tx>, b: seq<Tx>, c: seq<Tx>)
    requires multiset(c) == multiset(a) + multiset(b)
    ensures forall t :: t in c <==> t in a || t in b
  {
    assert forall t :: t in c <==> t in multiset(c);
    assert forall t :: t in a <==> t in multiset(a);
    assert forall t :: t in b <==> t in multiset(b);
  }

  lemma RootBelowAll(h: seq<Tx>)
    requires IsHeap(h, PriceKey) && h != []
    ensures forall t :: t in h ==> h[0].price <= t.price
  {
    forall t | t in h ensures h[0].price <= t.price {
      var k :| 0 <= k < |h| && h[k] == t;
      RootIsLeast(h, PriceKey, k);
    }
  }
}
