/**
Blocks with their transactions over a header tree, and the transaction index that a scan
of a chain yields.
*/
module Ledgers {
  import opened Ancestry

  type TxHash = nat

  datatype Block = Block(header: Header, txs: seq<TxHash>)

  /** Where a transaction sits: block hash, block number and position in the block. */
  datatype Entry = Entry(block: Hash, number: nat, index: nat)

  /** The lookup entries of the first `n` transactions of a block. */
  function EntriesUpTo(b: Block, n: nat): (m: map<TxHash, Entry>)
    requires n <= |b.txs|
    ensures m.Keys == set t | t in b.txs[..n]
  {
    if n == 0 then map[]
    else
      assert b.txs[..n] == b.txs[..n - 1] + [b.txs[n - 1]];
      EntriesUpTo(b, n - 1)[b.txs[n - 1] := Entry(b.header.hash, b.header.number, n - 1)]
  }

  function Entries(b: Block): (m: map<TxHash, Entry>)
    ensures m.Keys == set t | t in b.txs
  {
    assert b.txs[..|b.txs|] == b.txs;
    EntriesUpTo(b, |b.txs|)
  }

  predicate Distinct(s: seq<TxHash>) {
    forall i, j :: 0 <= i < j < |s| ==> s[i] != s[j]
  }

  datatype Ledger = Ledger(tree: BlockTree, bodies: map<Hash, seq<TxHash>>) {

    ghost predicate Valid() {
      tree.Valid() && bodies.Keys == tree.known.Keys
    }

    predicate Has(b: Block) {
      tree.Has(b.header) && b.header.hash in bodies && bodies[b.header.hash] == b.txs
    }

    function BlockOf(h: Header): (b: Block)
      requires Valid() && tree.Has(h)
      ensures Has(b)
    {
      Block(h, bodies[h.hash])
    }

    function BlockAt(h: Header, n: nat): (b: Block)
      requires Valid() && tree.Has(h)
      ensures Has(b)
    {
      BlockOf(tree.At(h, n))
    }

    /** The index of the blocks from `h` down to, but excluding, height `lo`. */
    function Index(h: Header, lo: int): (m: map<TxHash, Entry>)
      requires Valid() && tree.Has(h)
      decreases h.number
    {
      if h.number <= lo then map[]
      else if h.number == 0 then Entries(BlockOf(h))
      else Index(tree.Parent(h), lo) + Entries(BlockOf(h))
    }

    /** No transaction occurs twice on the chain that ends in `h`. */
    ghost predicate Once(h: Header)
      requires Valid() && tree.Has(h)
      decreases h.number
    {
      && Distinct(bodies[h.hash])
      && (h.number > 0 ==>
            && Entries(BlockOf(h)).Keys !! Index(tree.Parent(h), -1).Keys
            && Once(tree.Parent(h)))
    }

    /** `t` is the transaction at position `e` of the chain that ends in `h`. */
    ghost predicate OnChain(h: Header, t: TxHash, e: Entry)
      requires Valid() && tree.Has(h)
    {
      && e.number <= h.number && e.block == tree.At(h, e.number).hash
      && e.index < |bodies[e.block]| && bodies[e.block][e.index] == t
    }

    function Grow(b: Block): Ledger {
      Ledger(tree.Grow(b.header), bodies[b.header.hash := b.txs])
    }

    /** A block that may be written: an admissible header, its own body, fresh transactions. */
    ghost predicate Admits(b: Block)
      requires Valid()
    {
      && tree.Admits(b.header)
      && (b.header.hash in bodies ==> bodies[b.header.hash] == b.txs)
      && Distinct(b.txs)
      && (b.header.parent in tree.known ==>
            Entries(b).Keys !! Index(tree.known[b.header.parent], -1).Keys)
    }
  }

  lemma {:induction false} EntryAt(b: Block, n: nat, t: TxHash, e: Entry)
    requires n <= |b.txs| && Distinct(b.txs)
    ensures t in EntriesUpTo(b, n) && EntriesUpTo(b, n)[t] == e <==>
      e.index < n && b.txs[e.index] == t && e == Entry(b.header.hash, b.header.number, e.index)
  {
    if n > 0 {
      EntryAt(b, n - 1, t, e);
      EntryAt(b, n - 1, t, Entry(b.header.hash, b.header.number, e.index));
    }
  }

  /** The scan index is the set of positions of the chain: an entry is there iff it is true. */
  lemma {:induction false} IndexMeaning(l: Ledger, h: Header, t: TxHash, e: Entry)
    requires l.Valid() && l.tree.Has(h) && l.Once(h)
    ensures t in l.Index(h, -1) && l.Index(h, -1)[t] == e <==> l.OnChain(h, t, e)
    decreases h.number
  {
    var b := l.BlockOf(h);
    EntryAt(b, |b.txs|, t, e);
    if h.number > 0 {
      var p := l.tree.Parent(h);
      IndexMeaning(l, p, t, e);
      assert e.number <= p.number ==> l.tree.At(h, e.number) == l.tree.At(p, e.number);
    }
  }

  lemma MapConcat<K, V>(a: map<K, V>, b: map<K, V>, c: map<K, V>)
    ensures (a + b) + c == a + (b + c) && a + map[] == a == map[] + a
    ensures b.Keys !! c.Keys ==> b + c == c + b
  {
  }

  lemma MapReplace<K, V>(base: map<K, V>, before: map<K, V>, after: map<K, V>)
    requires base.Keys !! before.Keys
    ensures ((base + before) + after) - (before.Keys - after.Keys) == base + after
  {
  }

  /** A chain's index splits at any height. */
  lemma {:induction false} IndexSplit(l: Ledger, h: Header, m: nat, lo: int)
    requires l.Valid() && l.tree.Has(h) && lo <= m <= h.number
    ensures l.Index(h, lo) == l.Index(l.tree.At(h, m), lo) + l.Index(h, m)
    decreases h.number
  {
    if m < h.number {
      var p := l.tree.Parent(h);
      IndexSplit(l, p, m, lo);
      var top := Entries(l.BlockOf(h));
      assert l.Index(h, lo) == l.Index(p, lo) + top && l.Index(h, m) == l.Index(p, m) + top;
      assert l.tree.At(h, m) == l.tree.At(p, m);
      MapConcat(l.Index(l.tree.At(p, m), lo), l.Index(p, m), top);
    } else {
      MapConcat(l.Index(h, lo), map[], map[]);
    }
  }

  lemma {:induction false} IndexDisjoint(l: Ledger, h: Header, m: nat)
    requires l.Valid() && l.tree.Has(h) && l.Once(h) && m <= h.number
    ensures l.Index(l.tree.At(h, m), -1).Keys !! l.Index(h, m).Keys
    decreases h.number
  {
    if m < h.number {
      var p := l.tree.Parent(h);
      IndexDisjoint(l, p, m);
      IndexSplit(l, p, m, -1);
    }
  }

  /** Writing the next lower block of a chain extends the written segment downwards. */
  lemma IndexDown(l: Ledger, h: Header, m: nat)
    requires l.Valid() && l.tree.Has(h) && l.Once(h) && m <= h.number
    ensures l.Index(h, m - 1) == l.Index(h, m) + Entries(l.BlockAt(h, m))
  {
    var x := l.tree.At(h, m);
    IndexSplit(l, h, m, m - 1);
    IndexDisjoint(l, h, m);
    var own := Entries(l.BlockOf(x));
    if x.number > 0 {
      assert l.Index(x, m - 1) == map[] + own;
    }
    assert own.Keys <= l.Index(x, -1).Keys;
    MapConcat(own, own, l.Index(h, m));
  }

  /**
  The map algebra of a reorganisation: write the new segment over the old index, then
  delete what only the old segment had.
  */
  lemma IndexReroute(l: Ledger, a: Header, b: Header, c: nat)
    requires l.Valid() && l.tree.Has(a) && l.tree.Has(b) && l.Once(a) && l.Once(b)
    requires c <= a.number && c <= b.number && l.tree.At(a, c) == l.tree.At(b, c)
    ensures (l.Index(a, -1) + l.Index(b, c)) - (l.Index(a, c).Keys - l.Index(b, c).Keys) == l.Index(b, -1)
  {
    IndexSplit(l, a, c, -1);
    IndexSplit(l, b, c, -1);
    IndexDisjoint(l, a, c);
    hide BlockTree.At, BlockTree.Valid, Ledger.Once, Ledger.Index;
    MapReplace(l.Index(l.tree.At(a, c), -1), l.Index(a, c), l.Index(b, c));
  }

  lemma {:induction false} GrowIndex(l: Ledger, x: Block, h: Header, lo: int)
    requires l.Valid() && l.Admits(x) && x.header.parent in l.tree.known && l.tree.Has(h)
    ensures l.Grow(x).Valid() && l.Grow(x).tree.Has(h)
    ensures l.Grow(x).Index(h, lo) == l.Index(h, lo)
    decreases h.number
  {
    GrowKeeps(l.tree, x.header, h, 0);
    if h.number > 0 && h.number > lo {
      GrowIndex(l, x, l.tree.Parent(h), lo);
    }
  }

  lemma {:induction false} GrowOnce(l: Ledger, x: Block, h: Header)
    requires l.Valid() && l.Admits(x) && x.header.parent in l.tree.known && l.tree.Has(h) && l.Once(h)
    ensures l.Grow(x).Valid() && l.Grow(x).tree.Has(h) && l.Grow(x).Once(h)
    decreases h.number
  {
    GrowKeeps(l.tree, x.header, h, 0);
    if h.number > 0 {
      GrowOnce(l, x, l.tree.Parent(h));
      GrowIndex(l, x, l.tree.Parent(h), -1);
    }
  }

  lemma GrowAdmitted(l: Ledger, x: Block)
    requires l.Valid() && l.Admits(x) && x.header.parent in l.tree.known
    requires l.Once(l.tree.known[x.header.parent])
    ensures l.Grow(x).Valid() && l.Grow(x).Has(x) && l.Grow(x).Once(x.header)
  {
    GrowValid(l.tree, x.header);
    var p := l.tree.known[x.header.parent];
    GrowOnce(l, x, p);
    GrowIndex(l, x, p, -1);
    assert l.Grow(x).tree.Parent(x.header) == p;
  }

  /** The transactions of the first list that are not in the second, in their order. */
  function Difference(a: seq<TxHash>, b: seq<TxHash>): seq<TxHash> {
    if a == [] then []
    else
      var last := a[|a| - 1];
      Difference(a[..|a| - 1], b) + if last in b then [] else [last]
  }

  /** What is left keeps its order: whatever comes later in it comes later in the first list. */
  lemma {:induction false} DifferenceInOrder(a: seq<TxHash>, b: seq<TxHash>, i: nat, j: nat) returns (x: nat, y: nat)
    requires i < j < |Difference(a, b)|
    ensures x < y < |a| && a[x] == Difference(a, b)[i] && a[y] == Difference(a, b)[j]
  {
    var init := a[..|a| - 1];
    var before := Difference(init, b);
    if j < |before| {
      x, y := DifferenceInOrder(init, b, i, j);
    } else {
      DifferenceCounts(init, b, before[i]);
      assert before[i] in multiset(before) && before[i] in multiset(init);
      x :| 0 <= x < |init| && init[x] == before[i];
      y := |a| - 1;
    }
  }

  /** And its repetitions. */
  lemma {:induction false} DifferenceCounts(a: seq<TxHash>, b: seq<TxHash>, t: TxHash)
    ensures multiset(Difference(a, b))[t] == if t in b then 0 else multiset(a)[t]
  {
    if a != [] {
      var init, last := a[..|a| - 1], a[|a| - 1];
      DifferenceCounts(init, b, t);
      assert a == init + [last];
    }
  }

  method TxDifference(a: seq<TxHash>, b: seq<TxHash>) returns (keep: seq<TxHash>)
    ensures keep == Difference(a, b) && (set t | t in keep) == (set t | t in a) - (set t | t in b)
  {
    keep := [];
    for i := 0 to |a|
      invariant keep == Difference(a[..i], b) && forall t :: t in keep <==> t in a[..i] && t !in b
    {
      assert a[..i + 1] == a[..i] + [a[i]];
      assert a[..i + 1][..i] == a[..i];
      if a[i] !in b {
        keep := keep + [a[i]];
      }
    }
    assert a[..|a|] == a;
  }

  /** The transactions of the blocks from `h` down to, but excluding, height `c`, highest block first. */
  function TxsAbove(l: Ledger, h: Header, c: nat): seq<TxHash>
    requires l.Valid() && l.tree.Has(h)
    decreases h.number
  {
    if h.number <= c then [] else l.bodies[h.hash] + TxsAbove(l, l.tree.Parent(h), c)
  }

  lemma {:induction false} TxsAboveStep(l: Ledger, h: Header, n: nat)
    requires l.Valid() && l.tree.Has(h) && 0 < n <= h.number
    ensures TxsAbove(l, h, n - 1) == TxsAbove(l, h, n) + l.BlockAt(h, n).txs
    decreases h.number
  {
    if n < h.number {
      TxsAboveStep(l, l.tree.Parent(h), n);
    }
  }
}
