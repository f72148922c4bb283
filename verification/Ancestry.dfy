/**
The tree of headers that a node has ever accepted, and the walks over it that the
chain code performs with parent hashes.

A hash is an opaque identifier that determines its header; the zero hash stands for
"none". The parent link lowers the block number by one, which is what makes every
walk towards the genesis header finite.
*/
module Ancestry {
  import opened Options

  type Hash = nat

  const NO_HASH: Hash := 0

  /** The number reported for a hash without a stored header (the largest uint64). */
  const MISSING_NUMBER: nat := 0xffff_ffff_ffff_ffff

  datatype Header = Header(hash: Hash, parent: Hash, number: nat, difficulty: nat)

  /** A database key: block number and hash. */
  type Key = (nat, Hash)

  function KeyOf(h: Header): Key {
    (h.number, h.hash)
  }

  /** `number - 1` on uint64: it wraps around at the genesis number. */
  function PrevNumber(n: nat): nat {
    if n == 0 then MISSING_NUMBER else n - 1
  }

  function Lookup<K, V>(m: map<K, V>, k: K): Option<V> {
    if k in m then Some(m[k]) else None
  }

  datatype BlockTree = BlockTree(known: map<Hash, Header>, genesis: Header) {

    predicate Has(h: Header) {
      h.hash in known && known[h.hash] == h
    }

    /** `h` continues a known header, and its number fits a stored block number. */
    predicate Extends(h: Header) {
      h.parent in known && h.number == known[h.parent].number + 1 && h.number < MISSING_NUMBER
    }

    predicate Linked(hash: Hash)
      requires hash in known
    {
      known[hash] == genesis || Extends(known[hash])
    }

    ghost predicate Valid() {
      && Has(genesis) && genesis.number == 0
      && NO_HASH !in known
      && (forall hash :: hash in known ==> known[hash].hash == hash)
      && (forall hash {:trigger Linked(hash)} :: hash in known ==> Linked(hash))
    }

    /**
    What header verification and collision-freedom of hashes give for a header about to
    be written: a header whose parent is known carries the next number, and a hash seen
    before belongs to the same header. Nothing is asked about the parent being known.
    */
    predicate Admits(h: Header) {
      && h.hash != NO_HASH
      && (h.parent in known ==> Extends(h))
      && (h.hash in known ==> Has(h))
    }

    function Parent(h: Header): (p: Header)
      requires Valid() && Has(h) && h.number > 0
      ensures Has(p) && p.number == h.number - 1 && p.hash == h.parent
    {
      assert Linked(h.hash);
      assert Linked(h.parent);
      known[h.parent]
    }

    /** The ancestor of `h` (itself included) at height `n`. */
    function At(h: Header, n: nat): (a: Header)
      requires Valid() && Has(h)
      ensures Has(a) && a.number == if n < h.number then n else h.number
      decreases h.number
    {
      if n >= h.number then h else At(Parent(h), n)
    }

    /** The sum of the difficulties on the path from the genesis header to `h`. */
    function Td(h: Header): (td: nat)
      requires Valid() && Has(h)
      ensures h.number > 0 ==> td == h.difficulty + Td(Parent(h))
      decreases h.number
    {
      h.difficulty + if h.number == 0 then 0 else Td(Parent(h))
    }

    function Grow(h: Header): BlockTree {
      this.(known := known[h.hash := h])
    }
  }

  /** Only the genesis header has number zero. */
  lemma NumberZero(t: BlockTree, h: Header)
    requires t.Valid() && t.Has(h) && h.number == 0
    ensures h == t.genesis
  {
    assert t.Linked(h.hash);
  }

  lemma {:induction false} AtAt(t: BlockTree, h: Header, m: nat, n: nat)
    requires t.Valid() && t.Has(h) && n <= m
    ensures t.At(t.At(h, m), n) == t.At(h, n)
    decreases h.number
  {
    if m < h.number {
      AtAt(t, t.Parent(h), m, n);
    }
  }

  lemma StepDown(t: BlockTree, h: Header, n: nat)
    requires t.Valid() && t.Has(h) && 0 < n <= h.number
    ensures t.Parent(t.At(h, n)) == t.At(h, n - 1)
  {
    AtAt(t, h, n, n - 1);
  }

  /** Two headers that share an ancestor share everything below it. */
  lemma SharedBelow(t: BlockTree, a: Header, b: Header, m: nat, n: nat)
    requires t.Valid() && t.Has(a) && t.Has(b) && n <= m
    requires t.At(a, m) == t.At(b, m)
    ensures t.At(a, n) == t.At(b, n)
  {
    AtAt(t, a, m, n);
    AtAt(t, b, m, n);
  }

  /** Growing the tree changes no ancestry and no total difficulty of what was there. */
  lemma {:induction false} GrowKeeps(t: BlockTree, x: Header, h: Header, n: nat)
    requires t.Valid() && t.Admits(x) && x.parent in t.known && t.Has(h)
    ensures t.Grow(x).Valid() && t.Grow(x).Has(h)
    ensures t.Grow(x).At(h, n) == t.At(h, n) && t.Grow(x).Td(h) == t.Td(h)
    decreases h.number
  {
    GrowValid(t, x);
    if h.number > 0 {
      GrowKeeps(t, x, t.Parent(h), n);
    }
  }

  lemma GrowValid(t: BlockTree, x: Header)
    requires t.Valid() && t.Admits(x) && x.parent in t.known
    ensures t.Grow(x).Valid() && t.Grow(x).Has(x)
  {
    var g := t.Grow(x);
    forall hash | hash in g.known ensures g.Linked(hash) {
      assert hash in t.known ==> t.Linked(hash);
    }
  }

  /** The tree is part of a larger one with the same genesis header. */
  ghost predicate Within(t: BlockTree, u: BlockTree) {
    u.Valid() && t.genesis == u.genesis && forall h :: h in t.known ==> h in u.known && t.known[h] == u.known[h]
  }

  /** Headers of one larger tree may be written in any order. */
  lemma AdmitsWithin(t: BlockTree, u: BlockTree, h: Header)
    requires t.Valid() && Within(t, u) && u.Has(h) && h.number > 0
    ensures t.Admits(h) && (h.parent in t.known ==> t.Has(t.known[h.parent]))
  {
    assert u.Linked(h.hash);
  }

  lemma GrowWithin(t: BlockTree, u: BlockTree, h: Header)
    requires Within(t, u) && u.Has(h)
    ensures Within(t.Grow(h), u)
  {
  }

  /** Above height `low` the two lines have nothing in common, at it they meet. */
  ghost predicate Forks(tree: BlockTree, a: Header, b: Header, low: nat)
    requires tree.Valid() && tree.Has(a) && tree.Has(b)
  {
    && low <= a.number && low <= b.number && tree.At(a, low) == tree.At(b, low)
    && forall n: nat :: low < n && n <= a.number && n <= b.number ==> tree.At(a, n) != tree.At(b, n)
  }

  /** Above either of two heights, the lines share nothing. */
  ghost predicate Apart(tree: BlockTree, a: Header, b: Header, m: nat, n: nat)
    requires tree.Valid() && tree.Has(a) && tree.Has(b)
  {
    forall k: nat :: (k > m || k > n) && k <= a.number && k <= b.number ==> tree.At(a, k) != tree.At(b, k)
  }

  lemma NotGenesis(tree: BlockTree, a: Header, b: Header)
    requires tree.Valid() && tree.Has(a) && tree.Has(b) && a.hash != b.hash && a.number >= b.number
    ensures a.number > 0
  {
    if a.number == 0 {
      NumberZero(tree, a);
      NumberZero(tree, b);
    }
  }

  lemma StillApart(tree: BlockTree, a0: Header, b0: Header, a: Header, b: Header)
    requires tree.Valid() && tree.Has(a0) && tree.Has(b0) && a.hash != b.hash && b.number <= a.number
    requires a == tree.At(a0, a.number) && b == tree.At(b0, b.number) && a.number > 0
    requires Apart(tree, a0, b0, a.number, b.number)
    ensures Apart(tree, a0, b0, a.number - 1, b.number)
  {
    hide BlockTree.At, BlockTree.Valid;
  }

  lemma SameHash(tree: BlockTree, a: Header, b: Header)
    requires tree.Has(a) && tree.Has(b) && a.hash == b.hash
    ensures a == b
  {
  }
}
