/** The last common ancestor of two headers, over a header database that may have holes. */
module CommonAncestors {
  import opened Options
  import opened Ancestry
  import opened HeaderChains

  type Headers = map<Key, Header>

  /** Headers are stored under their own key, at a number a parent lookup cannot wrap to. */
  ghost predicate WellKeyed(db: Headers) {
    forall k :: k in db ==> KeyOf(db[k]) == k && k.0 < MISSING_NUMBER
  }

  function GetParent(db: Headers, h: Header): Option<Header> {
    Lookup(db, (PrevNumber(h.number), h.parent))
  }

  /** The ancestor of `h` at height `n`, if every header on the way is stored. */
  ghost function Climb(db: Headers, h: Header, n: nat): (r: Option<Header>)
    requires WellKeyed(db)
    ensures r.Some? ==> r.value.number == n && n <= h.number
    decreases h.number
  {
    if n == h.number then Some(h)
    else if n > h.number || GetParent(db, h).None? then None
    else Climb(db, GetParent(db, h).value, n)
  }

  /** Both headers reach the same hash at height `n` through stored headers. */
  ghost predicate CommonAt(db: Headers, a: Header, b: Header, n: nat)
    requires WellKeyed(db)
  {
    var x, y := Climb(db, a, n), Climb(db, b, n);
    x.Some? && y.Some? && x.value.hash == y.value.hash
  }

  /** `r` is the ancestor of `a` at the greatest common height, if there is one at all. */
  ghost predicate IsLastCommon(db: Headers, a: Header, b: Header, r: Option<Header>)
    requires WellKeyed(db)
  {
    match r
    case None => forall n: nat :: !CommonAt(db, a, b, n)
    case Some(x) =>
      && CommonAt(db, a, b, x.number) && Climb(db, a, x.number) == r
      && forall n: nat :: n > x.number ==> !CommonAt(db, a, b, n)
  }

  /** From height `n` down, `h` stands for `start`: it is its ancestor. */
  ghost predicate StandsFor(db: Headers, start: Header, h: Header)
    requires WellKeyed(db)
  {
    h.number <= start.number && forall n: nat :: n <= h.number ==> Climb(db, start, n) == Climb(db, h, n)
  }

  method FindCommonAncestor(db: Headers, first: Header, second: Header) returns (r: Option<Header>)
    requires WellKeyed(db)
    ensures IsLastCommon(db, first, second, r)
  {
    var a, b := first, second;
    while a.number > b.number
      invariant StandsFor(db, first, a) && (a.number >= b.number || a == first)
      decreases a.number
    {
      var p := GetParent(db, a);
      if p.None? {
        return None;
      }
      a := p.value;
    }
    while a.number < b.number
      invariant StandsFor(db, second, b) && (b.number >= a.number || b == second)
      decreases b.number
    {
      var p := GetParent(db, b);
      if p.None? {
        return None;
      }
      b := p.value;
    }
    while a.hash != b.hash
      invariant a.number == b.number && StandsFor(db, first, a) && StandsFor(db, second, b)
      invariant forall n: nat :: n > a.number ==> !CommonAt(db, first, second, n)
      decreases a.number
    {
      var p := GetParent(db, a);
      if p.None? {
        return None;
      }
      var q := GetParent(db, b);
      if q.None? {
        return None;
      }
      assert !CommonAt(db, first, second, a.number);
      a, b := p.value, q.value;
    }
    assert CommonAt(db, first, second, a.number);
    r := Some(a);
  }

  /** The answer does not depend on the order of the arguments. */
  lemma OrderIrrelevant(db: Headers, a: Header, b: Header, r: Option<Header>, s: Option<Header>)
    requires WellKeyed(db)
    requires IsLastCommon(db, a, b, r) && IsLastCommon(db, b, a, s)
    ensures r.Some? <==> s.Some?
    ensures r.Some? ==> r.value.hash == s.value.hash && r.value.number == s.value.number
  {
    forall n: nat ensures CommonAt(db, a, b, n) <==> CommonAt(db, b, a, n) { }
    if r.Some? {
      assert CommonAt(db, b, a, r.value.number);
    }
    if s.Some? {
      assert CommonAt(db, a, b, s.value.number);
    }
  }

  /** Where lines are stored in full, climbing is the ancestry of the header tree. */
  lemma {:induction false} ClimbIsAt(t: BlockTree, db: Store, h: Header, n: nat)
    requires t.Valid() && db.Consistent(t) && t.Has(h) && db.LineStored(t, h) && n <= h.number
    ensures WellKeyed(db.headers) && Climb(db.headers, h, n) == Some(t.At(h, n))
    decreases h.number
  {
    StoredWellKeyed(t, db);
    hide Store.Consistent;
    if n < h.number {
      var p := t.Parent(h);
      StoredParent(t, db, h);
      ClimbIsAt(t, db, p, n);
    }
  }

  lemma StoredWellKeyed(t: BlockTree, db: Store)
    requires t.Valid() && db.Consistent(t)
    ensures WellKeyed(db.headers)
  {
    forall k: Key | k in db.headers ensures KeyOf(db.headers[k]) == k && k.0 < MISSING_NUMBER {
      assert t.Linked(db.headers[k].hash);
    }
  }

  lemma StoredParent(t: BlockTree, db: Store, h: Header)
    requires t.Valid() && db.Consistent(t) && t.Has(h) && db.LineStored(t, h) && h.number > 0
    ensures GetParent(db.headers, h) == Some(t.Parent(h)) && db.LineStored(t, t.Parent(h))
  {
    var p := t.Parent(h);
    assert t.At(h, p.number) == p;
    forall n: nat | n <= p.number ensures db.Stored(t.At(p, n)) {
      assert t.At(h, n) == t.At(p, n);
    }
  }

  /**
  Between stored lines of one tree the walk always succeeds, and what it finds is the
  highest header that is an ancestor of both.
  */
  lemma LastCommonOnTree(t: BlockTree, db: Store, a: Header, b: Header, r: Option<Header>)
    requires t.Valid() && db.Consistent(t) && t.Has(a) && t.Has(b)
    requires db.LineStored(t, a) && db.LineStored(t, b)
    requires WellKeyed(db.headers) && IsLastCommon(db.headers, a, b, r)
    ensures r.Some? && r.value.number <= a.number && r.value.number <= b.number
    ensures forall n: nat :: n <= a.number && n <= b.number ==>
      (t.At(a, n) == t.At(b, n) <==> n <= r.value.number)
    ensures t.At(a, r.value.number) == r.value
  {
    forall n: nat | n <= a.number && n <= b.number
      ensures CommonAt(db.headers, a, b, n) <==> t.At(a, n) == t.At(b, n)
    {
      ClimbIsAt(t, db, a, n);
      ClimbIsAt(t, db, b, n);
    }
    NumberZero(t, t.At(a, 0));
    NumberZero(t, t.At(b, 0));
    assert CommonAt(db.headers, a, b, 0);
    var m := r.value.number;
    ClimbIsAt(t, db, a, m);
    forall n: nat | n <= m ensures t.At(a, n) == t.At(b, n) { SharedBelow(t, a, b, m, n); }
  }
}
