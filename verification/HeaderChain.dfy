/**
The header chain: a header database, the number-to-hash table of the canonical chain,
total difficulties, three read caches and the current head, kept together by
`WriteHeader` and `SetHead`.
*/
module HeaderChains {
  import opened Options
  import opened Ancestry

  /**
  The outcome of writing a header. `NilHeader` is the run-time panic of following the
  parent hash of a header that is no longer stored.
  */
  datatype WriteStatus = UnknownAncestor | Canonical | Side | NilHeader

  /** The header database: headers and total difficulties by key, numbers by hash. */
  datatype Store = Store(headers: map<Key, Header>, tds: map<Key, nat>, numbers: map<Hash, nat>) {

    predicate Stored(h: Header) {
      KeyOf(h) in headers
    }

    ghost predicate Consistent(t: BlockTree)
      requires t.Valid()
    {
      && (forall k :: k in headers ==> t.Has(headers[k]) && k == KeyOf(headers[k]))
      && tds.Keys == headers.Keys
      && (forall k :: k in headers ==> tds[k] == t.Td(headers[k]))
      && (forall h :: h in numbers <==> h in t.known && Stored(t.known[h]))
      && (forall h :: h in numbers ==> numbers[h] == t.known[h].number)
    }

    ghost predicate Keyed() {
      forall k :: k in headers ==> KeyOf(headers[k]) == k
    }

    /** Every header from `h` down to the genesis header is stored. */
    ghost predicate LineStored(t: BlockTree, h: Header)
      requires t.Valid() && t.Has(h)
    {
      forall n: nat :: n <= h.number ==> Stored(t.At(h, n))
    }

    function Put(h: Header, td: nat): Store {
      Store(headers[KeyOf(h) := h], tds[KeyOf(h) := td], numbers[h.hash := h.number])
    }

    function Delete(h: Header): Store {
      Store(headers - {KeyOf(h)}, tds - {KeyOf(h)}, numbers - {h.hash})
    }
  }

  /** The number table is exactly the ancestry of `h`: nothing missing, nothing above. */
  ghost predicate CanonicalIs(canonical: map<nat, Hash>, t: BlockTree, h: Header)
    requires t.Valid() && t.Has(h)
  {
    && (forall n: nat :: n in canonical <==> n <= h.number)
    && (forall n: nat :: n in canonical ==> canonical[n] == t.At(h, n).hash)
  }

  /** The part of the table that survives deleting everything above `number`. */
  ghost predicate CanonicalUpTo(canonical: map<nat, Hash>, t: BlockTree, h: Header, number: nat)
    requires t.Valid() && t.Has(h)
  {
    && (forall n: nat :: n in canonical <==> n <= h.number && n <= number)
    && (forall n: nat :: n in canonical ==> canonical[n] == t.At(h, n).hash)
  }

  /** The answer of a cached read: the cached value if there is one, else the database's. */
  function Cached<V>(cache: map<Hash, V>, hash: Hash, fromDb: Option<V>): Option<V> {
    if hash in cache then Some(cache[hash]) else fromDb
  }

  ghost predicate HeadersKnown(cache: map<Hash, Header>, t: BlockTree) {
    forall h :: h in cache ==> cache[h].hash == h && t.Has(cache[h])
  }

  ghost predicate HeadersCached(cache: map<Hash, Header>, db: Store) {
    forall h :: h in cache ==> cache[h].hash == h && db.Stored(cache[h]) && db.headers[KeyOf(cache[h])] == cache[h]
  }

  ghost predicate TdsCached(cache: map<Hash, nat>, t: BlockTree, db: Store)
    requires t.Valid()
  {
    forall h :: h in cache ==> h in t.known && db.Stored(t.known[h]) && cache[h] == t.Td(t.known[h])
  }

  ghost predicate NumbersCached(cache: map<Hash, nat>, db: Store) {
    forall h :: h in cache ==> h in db.numbers && cache[h] == db.numbers[h]
  }

  /** The database and the caches tell the truth about the tree. */
  ghost predicate StoreOk(t: BlockTree, db: Store, headers: map<Hash, Header>, tds: map<Hash, nat>, numbers: map<Hash, nat>)
    requires t.Valid()
  {
    && db.Consistent(t)
    && HeadersCached(headers, db) && TdsCached(tds, t, db) && NumbersCached(numbers, db)
  }

  /** `c` is a cache after adding one entry and evicting any others. */
  predicate CacheAfter<V(==)>(c: map<Hash, V>, cache: map<Hash, V>, hash: Hash, v: V) {
    && hash in c && c[hash] == v
    && forall h :: h in c ==> h == hash || (h in cache && c[h] == cache[h])
  }

  /** An LRU insertion: the new entry is kept and any older entries may be evicted. */
  method CacheAdd<V(==)>(cache: map<Hash, V>, hash: Hash, v: V) returns (c: map<Hash, V>)
    ensures CacheAfter(c, cache, hash, v)
  {
    assert {} <= cache.Keys;
    var keep: set<Hash> :| keep <= cache.Keys;
    c := (map h | h in keep :: cache[h])[hash := v];
  }

  lemma PutConsistent(t: BlockTree, db: Store, h: Header)
    requires t.Valid() && db.Consistent(t)
    requires t.Admits(h) && h.parent in t.known
    ensures var g := t.Grow(h); g.Valid() && g.Has(h) && db.Put(h, g.Td(h)).Consistent(g)
  {
    GrowValid(t, h);
    var g := t.Grow(h);
    forall k | k in db.headers ensures g.Has(db.headers[k]) && g.Td(db.headers[k]) == t.Td(db.headers[k]) {
      GrowKeeps(t, h, db.headers[k], 0);
    }
  }

  lemma GrowKeepsHead(t: BlockTree, x: Header, db: Store, td: nat, canonical: map<nat, Hash>, h: Header)
    requires t.Valid() && t.Admits(x) && x.parent in t.known && t.Has(h)
    requires CanonicalIs(canonical, t, h) && db.LineStored(t, h)
    ensures var g := t.Grow(x); g.Valid() && g.Has(h) && CanonicalIs(canonical, g, h) && db.Put(x, td).LineStored(g, h)
  {
    GrowKeeps(t, x, h, 0);
    forall n: nat ensures t.Grow(x).At(h, n) == t.At(h, n) { GrowKeeps(t, x, h, n); }
  }

  lemma ParentBelow(t: BlockTree, x: Header)
    requires t.Valid() && t.Admits(x) && x.parent in t.known
    ensures t.Has(t.known[x.parent]) && x.number == t.known[x.parent].number + 1
  {
  }

  lemma GrowKeepsLine(t: BlockTree, x: Header, db: Store, td: nat, h: Header)
    requires t.Valid() && t.Admits(x) && x.parent in t.known && t.Has(h)
    requires h.number < x.number
    ensures t.Grow(x).Valid() && t.Grow(x).Has(h)
    ensures db.LineStored(t, h) <==> db.Put(x, td).LineStored(t.Grow(x), h)
  {
    GrowKeeps(t, x, h, 0);
    forall n: nat ensures t.Grow(x).At(h, n) == t.At(h, n) { GrowKeeps(t, x, h, n); }
  }

  lemma PutTdCache(t: BlockTree, db: Store, x: Header, tds: map<Hash, nat>, tds': map<Hash, nat>)
    requires t.Valid() && t.Admits(x) && x.parent in t.known && TdsCached(tds, t, db)
    ensures var g := t.Grow(x); g.Valid() && g.Has(x)
    ensures var g := t.Grow(x); CacheAfter(tds', tds, x.hash, g.Td(x)) ==> TdsCached(tds', g, db.Put(x, g.Td(x)))
  {
    GrowValid(t, x);
    GrowKeepsTds(t, x);
    hide BlockTree.Td, BlockTree.Valid;
  }

  lemma GrowTd(t: BlockTree, x: Header)
    requires t.Valid() && t.Admits(x) && x.parent in t.known
    ensures var g := t.Grow(x); g.Valid() && g.Has(x) && g.Td(x) == x.difficulty + t.Td(t.known[x.parent])
  {
    GrowValid(t, x);
    GrowKeeps(t, x, t.known[x.parent], 0);
  }

  lemma PutCaches(t: BlockTree, db: Store, headers: map<Hash, Header>, numbers: map<Hash, nat>, x: Header, td: nat)
    requires t.Valid() && db.Consistent(t) && t.Admits(x)
    requires HeadersCached(headers, db) && NumbersCached(numbers, db)
    ensures HeadersCached(headers, db.Put(x, td)) && NumbersCached(numbers, db.Put(x, td))
  {
    hide BlockTree.Td;
  }

  lemma PutStoreOk(t: BlockTree, db: Store, headers: map<Hash, Header>, tds: map<Hash, nat>, numbers: map<Hash, nat>,
                   x: Header, tds': map<Hash, nat>)
    requires t.Valid() && StoreOk(t, db, headers, tds, numbers)
    requires t.Admits(x) && x.parent in t.known
    ensures var g := t.Grow(x); g.Valid() && g.Has(x) && g.Td(x) == x.difficulty + t.Td(t.known[x.parent])
    ensures var g := t.Grow(x); CacheAfter(tds', tds, x.hash, g.Td(x)) ==> StoreOk(g, db.Put(x, g.Td(x)), headers, tds', numbers)
  {
    hide BlockTree.At, BlockTree.Td, BlockTree.Valid, Store.Consistent, HeadersCached, TdsCached, NumbersCached, CacheAfter;
    PutConsistent(t, db, x);
    PutTdCache(t, db, x, tds, tds');
    GrowTd(t, x);
    PutCaches(t, db, headers, numbers, x, t.Grow(x).Td(x));
  }

  /** A step of a run. */
  datatype Op = Write(header: Header, coin: bool) | Rewind(head: nat)

  /** The header chain at one moment: what was ever written, what is stored, and the head. */
  datatype State = State(tree: BlockTree, db: Store, head: Header)

  /** The step makes sense: a header to be written fits the tree if its parent is stored. */
  ghost predicate Usable(s: State, op: Op) {
    && s.tree.Valid() && s.tree.Has(s.head)
    && (op.Write? && op.header.parent in s.db.numbers ==>
          && op.header.parent in s.tree.known && s.tree.Has(s.tree.known[op.header.parent])
          && var g := s.tree.Grow(op.header); g.Valid() && g.Has(op.header) && g.Has(s.head))
  }

  /** The header is heavier than the head, or as heavy with a won coin. */
  ghost predicate Wins(s: State, op: Op)
    requires Usable(s, op) && op.Write? && op.header.parent in s.db.numbers
  {
    var g := s.tree.Grow(op.header);
    g.Td(op.header) > g.Td(s.head) || (g.Td(op.header) == g.Td(s.head) && op.coin)
  }

  /** The step meets a nil header: the written header wins, and its parent's line is not stored. */
  ghost predicate Crashes(s: State, op: Op)
    requires Usable(s, op)
  {
    op.Write? && op.header.parent in s.db.numbers && Wins(s, op) && !s.db.LineStored(s.tree, s.tree.known[op.header.parent])
  }

  ghost function Next(s: State, op: Op): State
    requires Usable(s, op)
  {
    match op
    case Write(x, _) =>
      if x.parent !in s.db.numbers then s
      else
        var g := s.tree.Grow(x);
        State(g, s.db.Put(x, g.Td(x)), if Wins(s, op) then x else s.head)
    case Rewind(head) =>
      State(s.tree, Rewound(s.db, s.tree, s.head, head), s.tree.At(s.head, head))
  }

  /** `states` are the chain before each of the first steps and after the last of them; none of these crashes. */
  ghost predicate Steps(states: seq<State>, ops: seq<Op>) {
    && 0 < |states| <= |ops| + 1
    && forall i :: 0 <= i < |states| - 1 ==> Usable(states[i], ops[i]) && !Crashes(states[i], ops[i]) && states[i + 1] == Next(states[i], ops[i])
  }

  class HeaderChain {
    ghost var tree: BlockTree

    // The chain database.
    var db: Store
    var canonical: map<nat, Hash>
    var headHeaderHash: Hash

    const genesisHeader: Header
    var currentHeader: Header
    var currentHeaderHash: Hash

    var headerCache: map<Hash, Header>
    var tdCache: map<Hash, nat>
    var numberCache: map<Hash, nat>

    ghost predicate StoreValid()
      reads this
    {
      tree.Valid() && tree.genesis == genesisHeader && StoreOk(tree, db, headerCache, tdCache, numberCache)
    }

    ghost predicate HeadValid()
      reads this
      requires tree.Valid()
    {
      && tree.Has(currentHeader)
      && currentHeaderHash == currentHeader.hash == headHeaderHash
      && db.LineStored(tree, currentHeader)
      && CanonicalIs(canonical, tree, currentHeader)
    }

    ghost predicate Valid()
      reads this
    {
      StoreValid() && HeadValid()
    }

    /** No header ever written is heavier than the current one. */
    ghost predicate Heaviest()
      reads this
      requires Valid()
    {
      forall h :: h in tree.known ==> tree.Td(tree.known[h]) <= tree.Td(currentHeader)
    }

    constructor (genesis: Header)
      requires genesis.number == 0 && genesis.hash != NO_HASH
      ensures Valid() && Heaviest()
      ensures genesisHeader == currentHeader == genesis
      ensures tree == BlockTree(map[genesis.hash := genesis], genesis) && db.numbers.Keys == {genesis.hash}
    {
      tree := BlockTree(map[genesis.hash := genesis], genesis);
      db := Store(map[KeyOf(genesis) := genesis], map[KeyOf(genesis) := genesis.difficulty], map[genesis.hash := 0]);
      canonical := map[0 := genesis.hash];
      genesisHeader, currentHeader := genesis, genesis;
      currentHeaderHash, headHeaderHash := genesis.hash, genesis.hash;
      headerCache, tdCache, numberCache := map[], map[], map[];
    }

    /** Answers from the cache by hash alone; the number only matters for the database. */
    method GetHeader(hash: Hash, number: nat) returns (r: Option<Header>)
      requires db.Keyed()
      modifies this`headerCache
      ensures r == Cached(old(headerCache), hash, Lookup(db.headers, (number, hash)))
      ensures old(HeadersCached(headerCache, db)) ==> HeadersCached(headerCache, db)
      ensures old(HeadersKnown(headerCache, tree)) && (r.Some? ==> tree.Has(r.value)) ==> HeadersKnown(headerCache, tree)
    {
      if hash in headerCache {
        return Some(headerCache[hash]);
      }
      r := Lookup(db.headers, (number, hash));
      if r.Some? {
        headerCache := CacheAdd(headerCache, hash, r.value);
      }
    }

    method GetTd(hash: Hash, number: nat) returns (r: Option<nat>)
      requires StoreValid()
      modifies this`tdCache
      ensures r == Cached(old(tdCache), hash, Lookup(db.tds, (number, hash)))
      ensures StoreValid()
    {
      if hash in tdCache {
        return Some(tdCache[hash]);
      }
      r := Lookup(db.tds, (number, hash));
      if r.Some? {
        assert tree.Has(db.headers[(number, hash)]);
        tdCache := CacheAdd(tdCache, hash, r.value);
      }
    }

    method GetBlockNumber(hash: Hash) returns (r: nat)
      requires StoreValid()
      modifies this`numberCache
      ensures r == if hash in db.numbers then db.numbers[hash] else 0xffff_ffff_ffff_ffff
      ensures StoreValid()
    {
      if hash in numberCache {
        return numberCache[hash];
      }
      if hash !in db.numbers {
        return MISSING_NUMBER;
      }
      r := db.numbers[hash];
      if r != MISSING_NUMBER {
        numberCache := CacheAdd(numberCache, hash, r);
      }
    }

    /** Deletes canonical numbers above a new head, stopping at the first gap. */
    method ClearAbove(number: nat)
      requires tree.Valid() && tree.Has(currentHeader) && CanonicalIs(canonical, tree, currentHeader)
      modifies this`canonical
      ensures CanonicalUpTo(canonical, tree, currentHeader, number)
    {
      var i := number + 1;
      while i in canonical
        invariant i > number
        invariant forall n: nat :: n in canonical <==> n <= currentHeader.number && !(number < n < i)
        invariant forall n: nat :: n in canonical ==> canonical[n] == tree.At(currentHeader, n).hash
        decreases currentHeader.number + 1 - i
      {
        canonical := canonical - {i};
        i := i + 1;
      }
    }

    /**
    Overwrites stale canonical numbers from the parent of `header` downwards until the
    table agrees. It completes exactly when the whole line of the parent is stored.
    */
    method RewriteLine(header: Header, ghost parent: Header) returns (ok: bool)
      requires tree.Valid() && db.Consistent(tree) && HeadersCached(headerCache, db)
      requires tree.Has(parent) && header.parent == parent.hash && header.number == parent.number + 1
      requires tree.Has(currentHeader) && db.LineStored(tree, currentHeader)
      requires CanonicalUpTo(canonical, tree, currentHeader, header.number)
      modifies this`canonical, this`headerCache
      ensures HeadersCached(headerCache, db)
      ensures ok <==> db.LineStored(tree, parent)
      ensures ok ==> LineBelow(canonical, tree, parent, 0) && forall n: nat :: n in canonical ==> n <= header.number
    {
      hide BlockTree.At, BlockTree.Valid, Store.Consistent, Store.LineStored, HeadersCached, CanonicalUpTo, LineBelow, Rewriting;
      ghost var t, c0, cur := tree, canonical, currentHeader;
      RewriteStart(t, db, canonical, parent);
      CachedTrue(t, db, headerCache, parent);
      var headHash, headNumber: nat := header.parent, PrevNumber(header.number);
      var headHeader := GetHeader(headHash, headNumber);
      while Lookup(canonical, headNumber) != Some(headHash)
        invariant headNumber <= parent.number && headHash == t.At(parent, headNumber).hash
        invariant headHeader == if db.Stored(t.At(parent, headNumber)) then Some(t.At(parent, headNumber)) else None
        invariant HeadersCached(headerCache, db)
        invariant Rewriting(t, db, c0, canonical, parent, headNumber)
        decreases headNumber
      {
        if headHeader.None? {
          LineBroken(t, db, parent, headNumber);
          canonical := canonical[headNumber := headHash];
          return false;
        }
        RewriteStep(t, db, cur, c0, canonical, parent, headNumber);
        canonical := canonical[headNumber := headHash];
        headHash := headHeader.value.parent;
        headNumber := PrevNumber(headHeader.value.number);
        CachedTrue(t, db, headerCache, t.At(parent, headNumber));
        headHeader := GetHeader(headHash, headNumber);
      }
      RewriteDone(t, db, cur, c0, canonical, parent, headNumber);
      ok := true;
    }

    /** A header's td, header and number go to the database whatever its status. */
    method StoreHeader(header: Header, td: nat)
      requires StoreValid() && tree.Admits(header) && header.parent in tree.known
      requires td == header.difficulty + tree.Td(tree.known[header.parent])
      modifies this`tree, this`db, this`tdCache
      ensures StoreValid() && tree == old(tree).Grow(header) && tree.Has(header) && td == tree.Td(header)
      ensures db == old(db).Put(header, td)
    {
      var cache := CacheAdd(tdCache, header.hash, td);
      PutStoreOk(tree, db, headerCache, tdCache, numberCache, header, cache);
      tree := tree.Grow(header);
      db := db.Put(header, td);
      tdCache := cache;
    }

    /** Makes the stored `header` the head, with `parent` the header it continues. */
    method Reroute(header: Header, ghost parent: Header) returns (ok: bool)
      requires Valid() && tree.Has(header) && db.Stored(header)
      requires header.number > 0 && parent == tree.Parent(header)
      modifies this`canonical, this`headerCache, this`headHeaderHash, this`currentHeader, this`currentHeaderHash
      ensures ok <==> db.LineStored(tree, parent)
      ensures ok ==> Valid() && currentHeader == header
    {
      hide Store.Consistent, HeadersCached, TdsCached, NumbersCached, Store.LineStored, CanonicalIs, CanonicalUpTo, LineBelow, BlockTree.At;
      ClearAbove(header.number);
      ok := RewriteLine(header, parent);
      if ok {
        ExtendLine(tree, db, canonical, header);
        canonical := canonical[header.number := header.hash];
        headHeaderHash := header.hash;
        currentHeaderHash, currentHeader := header.hash, header;
      }
    }

    /** The total difficulties that fork choice compares. */
    method ReadTds(header: Header) returns (ptd: Option<nat>, localTd: nat)
      requires Valid() && tree.Admits(header)
      modifies this`tdCache
      ensures Valid()
      ensures ptd.None? <==> header.parent !in db.numbers
      ensures ptd.Some? ==> header.parent in tree.known && ptd.value == tree.Td(tree.known[header.parent])
      ensures localTd == tree.Td(currentHeader)
    {
      hide Store.Consistent, HeadersCached, TdsCached, NumbersCached, Store.LineStored, CanonicalIs, BlockTree.At, BlockTree.Td;
      ParentTd(tree, db, tdCache, header);
      ptd := GetTd(header.parent, PrevNumber(header.number));
      HeadTd(tree, db, tdCache, currentHeader);
      var local := GetTd(currentHeaderHash, currentHeader.number);
      localTd := local.value;
    }

    method CacheHeader(header: Header)
      requires StoreValid() && db.Stored(header) && tree.Has(header)
      modifies this`headerCache, this`numberCache
      ensures StoreValid()
    {
      headerCache := CacheAdd(headerCache, header.hash, header);
      numberCache := CacheAdd(numberCache, header.hash, header.number);
    }

    /**
    Writes a header whose parent is known, rerouting the canonical chain when its total
    difficulty wins (`coin` decides ties).
    */
    method WriteHeader(header: Header, coin: bool) returns (status: WriteStatus)
      requires Valid() && tree.Admits(header)
      modifies this
      ensures status == UnknownAncestor <==> header.parent !in old(db).numbers
      ensures status == UnknownAncestor ==>
        Valid() && tree == old(tree) && db == old(db) && canonical == old(canonical) && currentHeader == old(currentHeader)
      ensures status != UnknownAncestor ==>
        && header.parent in old(tree).known
        && tree == old(tree).Grow(header) && tree.Valid() && tree.Has(header) && tree.Has(old(currentHeader))
        && db == old(db).Put(header, tree.Td(header))
      ensures status != UnknownAncestor ==>
        (status != Side <==>
          tree.Td(header) > tree.Td(old(currentHeader)) || (tree.Td(header) == tree.Td(old(currentHeader)) && coin))
      ensures status == Canonical || status == NilHeader ==>
        (status == NilHeader <==> !old(db).LineStored(old(tree), old(tree).known[header.parent]))
      ensures status != NilHeader ==> Valid()
      ensures status == Canonical ==> currentHeader == header
      ensures status == Side ==> currentHeader == old(currentHeader) && canonical == old(canonical)
      ensures status != NilHeader ==> old(tree.Td(currentHeader)) <= tree.Td(currentHeader)
      ensures status != NilHeader && old(Heaviest()) ==> Heaviest()
    {
      hide StoreOk, Store.LineStored, CanonicalIs, BlockTree.At, BlockTree.Td, BlockTree.Valid, BlockTree.Admits;
      var ptd, localTd := ReadTds(header);
      if ptd.None? {
        return UnknownAncestor;
      }
      ghost var parent := tree.known[header.parent];
      var externTd := header.difficulty + ptd.value;

      ghost var t0, db0 := tree, db;
      ParentBelow(tree, header);
      StoreHeader(header, externTd);
      GrowKeepsHead(t0, header, db0, externTd, canonical, currentHeader);
      GrowKeepsLine(t0, header, db0, externTd, parent);
      GrowKeepsTds(t0, header);

      if externTd > localTd || (externTd == localTd && coin) {
        var ok := Reroute(header, parent);
        if !ok {
          return NilHeader;
        }
        status := Canonical;
      } else {
        status := Side;
      }
      CacheHeader(header);
    }

    /**
    Rewinds the chain to height `head`: exactly the headers of the current line above it
    are deleted, and side forks stay.
    */
    method SetHead(head: nat)
      requires Valid()
      modifies this
      ensures Valid()
      ensures tree == old(tree) && currentHeader == tree.At(old(currentHeader), head)
      ensures db == Rewound(old(db), tree, old(currentHeader), head)
      ensures headerCache == map[] && tdCache == map[] && numberCache == map[]
    {
      ghost var t, db0, top := tree, db, currentHeader;
      hide Rewound, Store.Consistent, Store.LineStored, CanonicalIs, CanonicalUpTo, BlockTree.At, BlockTree.Td;
      var height := currentHeader.number;
      DeleteAbove(head);
      RewoundOk(t, db0, top, head);
      ClearDown(height, head, top);
      RewoundCanonical(t, canonical, top, head);

      headerCache, tdCache, numberCache := map[], map[], map[];
      currentHeaderHash := currentHeader.hash;
      headHeaderHash := currentHeaderHash;
    }

    /** Rolls the canonical numbering back from `height` to `head`. */
    method ClearDown(height: nat, head: nat, ghost top: Header)
      requires tree.Valid() && tree.Has(top) && top.number == height && CanonicalIs(canonical, tree, top)
      modifies this`canonical
      ensures CanonicalUpTo(canonical, tree, top, head)
    {
      ghost var t := tree;
      var i := height;
      while i > head
        invariant i <= height
        invariant forall n: nat :: n in canonical <==> n <= height && (n <= i || n <= head)
        invariant forall n: nat :: n in canonical ==> canonical[n] == t.At(top, n).hash
      {
        canonical := canonical - {i};
        i := i - 1;
      }
    }

    /** The deletion loop of SetHead; a missing parent would fall back to the genesis header. */
    method DeleteAbove(head: nat)
      requires Valid()
      modifies this`db, this`currentHeader, this`headerCache
      ensures currentHeader == tree.At(old(currentHeader), head)
      ensures db == Rewound(old(db), tree, old(currentHeader), head)
    {
      ghost var t, db0, top := tree, db, currentHeader;
      hide Rewound, Store.Consistent, Store.LineStored, BlockTree.At, HeadersCached, TdsCached, NumbersCached, CanonicalIs;
      var current := Some(currentHeader);
      RewoundNothing(t, db, top, head);
      RewoundNothing(t, db, top, top.number);
      CachedAreKnown(t, db, headerCache);
      while current.Some? && current.value.number > head
        invariant current.Some? && t.Has(current.value) && current.value == t.At(top, current.value.number)
        invariant current.value.number >= head || current.value == top
        invariant db == Rewound(db0, t, top, current.value.number)
        invariant HeadersKnown(headerCache, t)
        decreases current.value.number
      {
        var c := current.value;
        RewoundParent(t, db0, top, c.number);
        RewindStep(t, db0, top, c.number);
        db := db.Delete(c);
        current := GetHeader(c.parent, PrevNumber(c.number));
      }
      currentHeader := if current.None? then genesisHeader else current.value;
    }

    ghost function Now(): State
      reads this
    {
      State(tree, db, currentHeader)
    }

    /**
    Runs header writes and rewinds in any order, up to the first write that meets a nil header:
    every step before it is as specified, and the run crashes exactly if there is such a write.
    */
    method Run(ops: seq<Op>, ghost universe: BlockTree) returns (crashed: bool, ghost states: seq<State>)
      requires Valid() && Within(tree, universe)
      requires forall i :: 0 <= i < |ops| && ops[i].Write? ==> universe.Has(ops[i].header) && ops[i].header.number > 0
      modifies this
      ensures Steps(states, ops) && states[0] == old(Now()) && (crashed <==> |states| <= |ops|)
      ensures crashed ==> Usable(states[|states| - 1], ops[|states| - 1]) && Crashes(states[|states| - 1], ops[|states| - 1])
      ensures !crashed ==> Valid() && Within(tree, universe) && states[|ops|] == Now()
      ensures old(AllStored(tree, db)) && (forall i :: 0 <= i < |ops| ==> ops[i].Write?) ==>
        !crashed && AllStored(tree, db) && tree == Written(old(tree), ops) && (old(Heaviest()) ==> Heaviest())
    {
      hide StoreOk, Store.LineStored, CanonicalIs, Rewound, BlockTree.At, BlockTree.Td, BlockTree.Valid, AllStored, Within, BlockTree.Admits;
      hide Usable, Crashes, Next;
      crashed, states := false, [Now()];
      for i := 0 to |ops|
        invariant Valid() && Within(tree, universe)
        invariant Steps(states, ops) && |states| == i + 1 && states[0] == old(Now()) && states[i] == Now()
        invariant old(AllStored(tree, db)) && (forall j :: 0 <= j < i ==> ops[j].Write?) ==>
          AllStored(tree, db) && tree == Written(old(tree), ops[..i]) && (old(Heaviest()) ==> Heaviest())
      {
        assert ops[..i + 1][..i] == ops[..i];
        crashed := Take(ops[i], universe);
        if crashed {
          return;
        }
        states := states + [Now()];
      }
      assert ops[..|ops|] == ops;
    }

    method Take(op: Op, ghost universe: BlockTree) returns (crashed: bool)
      requires Valid() && Within(tree, universe) && (op.Write? ==> universe.Has(op.header) && op.header.number > 0)
      modifies this
      ensures !crashed ==> Valid() && Within(tree, universe)
      ensures Usable(old(Now()), op) && (crashed <==> Crashes(old(Now()), op)) && (!crashed ==> Now() == Next(old(Now()), op))
      ensures op.Write? && old(AllStored(tree, db)) ==>
        && !crashed && AllStored(tree, db)
        && tree == if op.header.parent in old(tree).known then old(tree).Grow(op.header) else old(tree)
      ensures op.Write? && !crashed && old(Heaviest()) ==> Heaviest()
    {
      hide StoreOk, Store.LineStored, CanonicalIs, Rewound, BlockTree.At, BlockTree.Td, BlockTree.Valid, AllStored, Within, BlockTree.Admits;
      match op
      case Write(header, coin) =>
        crashed := RunWrite(header, coin, universe);
      case Rewind(head) =>
        SetHead(head);
        crashed := false;
    }

    method RunWrite(header: Header, coin: bool, ghost universe: BlockTree) returns (crashed: bool)
      requires Valid() && Within(tree, universe) && universe.Has(header) && header.number > 0
      modifies this
      ensures !crashed ==> Valid() && Within(tree, universe)
      ensures var op := Write(header, coin);
        Usable(old(Now()), op) && (crashed <==> Crashes(old(Now()), op)) && (!crashed ==> Now() == Next(old(Now()), op))
      ensures old(AllStored(tree, db)) ==> !crashed && AllStored(tree, db)
      ensures old(AllStored(tree, db)) ==> tree == if header.parent in old(tree).known then old(tree).Grow(header) else old(tree)
      ensures !crashed && old(Heaviest()) ==> Heaviest()
    {
      hide StoreOk, Store.LineStored, CanonicalIs, Rewound, BlockTree.At, BlockTree.Td, BlockTree.Valid, AllStored, Within;
      hide BlockTree.Admits, Store.Put;
      assert header.parent in db.numbers ==> header.parent in tree.known && tree.Has(tree.known[header.parent]) by {
        NumberKnown(tree, db, headerCache, tdCache, numberCache, header.parent);
      }
      AdmitsWithin(tree, universe, header);
      if header.parent in tree.known && AllStored(tree, db) {
        AllLinesStored(tree, db, tree.known[header.parent]);
        StoredNumber(tree, db, headerCache, tdCache, numberCache, header.parent);
      }
      var status := WriteHeader(header, coin);
      crashed := status == NilHeader;
      if status != UnknownAncestor {
        GrowWithin(old(tree), universe, header);
        if AllStored(old(tree), old(db)) {
          PutStored(old(tree), old(db), header, old(tree).Grow(header).Td(header));
        }
      }
    }
  }

  /** The keys of the line of `top` strictly above height `n`. */
  ghost predicate Dropped(t: BlockTree, top: Header, n: nat, k: Key)
    requires t.Valid() && t.Has(top)
  {
    n < k.0 <= top.number && KeyOf(t.At(top, k.0)) == k
  }

  /** A store from which the line of `top` above height `n` has been deleted. */
  ghost function Rewound(db: Store, t: BlockTree, top: Header, n: nat): Store
    requires t.Valid() && t.Has(top)
  {
    Store(map k | k in db.headers && !Dropped(t, top, n, k) :: db.headers[k],
          map k | k in db.tds && !Dropped(t, top, n, k) :: db.tds[k],
          map h | h in db.numbers && !Dropped(t, top, n, (db.numbers[h], h)) :: db.numbers[h])
  }

  /** The parent's total difficulty is found exactly when the parent is stored. */
  lemma ParentTd(t: BlockTree, db: Store, cache: map<Hash, nat>, h: Header)
    requires t.Valid() && db.Consistent(t) && TdsCached(cache, t, db) && t.Admits(h)
    ensures var r := Cached(cache, h.parent, Lookup(db.tds, (PrevNumber(h.number), h.parent)));
      && (r.None? <==> h.parent !in db.numbers)
      && (r.Some? ==> h.parent in t.known && r.value == t.Td(t.known[h.parent]))
  {
    hide BlockTree.Td;
    var k := (PrevNumber(h.number), h.parent);
    if k in db.tds {
      assert k in db.headers;
    }
  }

  lemma HeadTd(t: BlockTree, db: Store, cache: map<Hash, nat>, h: Header)
    requires t.Valid() && db.Consistent(t) && TdsCached(cache, t, db) && t.Has(h) && db.LineStored(t, h)
    ensures Cached(cache, h.hash, Lookup(db.tds, KeyOf(h))) == Some(t.Td(h))
  {
    assert db.Stored(t.At(h, h.number));
    assert db.headers[KeyOf(h)] == h;
  }

  lemma RewoundNothing(t: BlockTree, db: Store, top: Header, n: nat)
    requires t.Valid() && t.Has(top)
    ensures n >= top.number ==> Rewound(db, t, top, n) == db && t.At(top, n) == top
  {
    if n >= top.number {
      var r := Rewound(db, t, top, n);
      assert r.headers == db.headers && r.tds == db.tds && r.numbers == db.numbers;
    }
  }

  lemma CachedAreKnown(t: BlockTree, db: Store, cache: map<Hash, Header>)
    requires t.Valid() && db.Consistent(t) && HeadersCached(cache, db)
    ensures HeadersKnown(cache, t)
  {
  }

  lemma RewindStep(t: BlockTree, db: Store, top: Header, n: nat)
    requires t.Valid() && t.Has(top) && 0 < n <= top.number
    requires var x := t.At(top, n); x.hash in db.numbers ==> db.numbers[x.hash] == x.number
    ensures Rewound(db, t, top, n).Delete(t.At(top, n)) == Rewound(db, t, top, n - 1)
  {
    hide BlockTree.At, BlockTree.Valid;
    var x := t.At(top, n);
    var a, b := Rewound(db, t, top, n).Delete(x), Rewound(db, t, top, n - 1);
    forall k: Key ensures Dropped(t, top, n - 1, k) <==> Dropped(t, top, n, k) || k == KeyOf(x) { }
    assert a.headers == b.headers;
    assert a.tds == b.tds;
    assert a.numbers == b.numbers;
  }

  lemma RewoundParent(t: BlockTree, db: Store, top: Header, n: nat)
    requires t.Valid() && t.Has(top) && 0 < n <= top.number
    requires db.Consistent(t) && db.LineStored(t, top)
    ensures var x := t.At(top, n); x.hash in db.numbers ==> db.numbers[x.hash] == x.number
    ensures t.At(top, n).parent == t.At(top, n - 1).hash
    ensures var r := Rewound(db, t, top, n - 1); r.Keyed() && Lookup(r.headers, KeyOf(t.At(top, n - 1))) == Some(t.At(top, n - 1))
  {
    StepDown(t, top, n);
    hide BlockTree.At, BlockTree.Td;
    assert db.Stored(t.At(top, n - 1));
  }

  lemma RewoundOk(t: BlockTree, db: Store, top: Header, n: nat)
    requires t.Valid() && t.Has(top) && db.Consistent(t) && db.LineStored(t, top)
    ensures Rewound(db, t, top, n).Consistent(t)
    ensures Rewound(db, t, top, n).LineStored(t, t.At(top, n))
  {
    var r := Rewound(db, t, top, n);
    var h := t.At(top, n);
    forall m: nat | m <= h.number ensures r.Stored(t.At(h, m)) {
      AtAt(t, top, n, m);
      assert db.Stored(t.At(top, m));
    }
  }

  lemma RewoundCanonical(t: BlockTree, canonical: map<nat, Hash>, top: Header, n: nat)
    requires t.Valid() && t.Has(top)
    requires CanonicalUpTo(canonical, t, top, n)
    ensures CanonicalIs(canonical, t, t.At(top, n))
  {
    var h := t.At(top, n);
    forall m: nat | m <= h.number ensures t.At(h, m) == t.At(top, m) { AtAt(t, top, n, m); }
  }

  /** The numbers from `m` up to `h` are those of the line of `h`. */
  ghost predicate LineBelow(canonical: map<nat, Hash>, t: BlockTree, h: Header, m: nat)
    requires t.Valid() && t.Has(h)
  {
    forall n: nat :: m <= n <= h.number ==> n in canonical && canonical[n] == t.At(h, n).hash
  }

  /** Rewriting has reached height `m`: the line above it is in place, the rest untouched. */
  ghost predicate Rewriting(t: BlockTree, db: Store, c0: map<nat, Hash>, c: map<nat, Hash>, parent: Header, m: nat)
    requires t.Valid() && t.Has(parent)
  {
    && LineBelow(c, t, parent, m + 1)
    && (forall n: nat :: m < n <= parent.number ==> db.Stored(t.At(parent, n)))
    && (forall n: nat :: n <= m || n > parent.number ==> (n in c <==> n in c0))
    && (forall n: nat :: (n <= m || n > parent.number) && n in c ==> c[n] == c0[n])
  }

  lemma RewriteStart(t: BlockTree, db: Store, c: map<nat, Hash>, parent: Header)
    requires t.Valid() && t.Has(parent)
    ensures t.At(parent, parent.number) == parent && Rewriting(t, db, c, c, parent, parent.number)
  {
  }

  lemma LineBroken(t: BlockTree, db: Store, h: Header, n: nat)
    requires t.Valid() && t.Has(h) && n <= h.number && !db.Stored(t.At(h, n))
    ensures !db.LineStored(t, h)
  {
  }

  /** A cached read of a known header under its own number is a read of the database. */
  lemma CachedTrue(t: BlockTree, db: Store, cache: map<Hash, Header>, h: Header)
    requires t.Valid() && db.Consistent(t) && HeadersCached(cache, db) && t.Has(h)
    ensures db.Keyed()
    ensures Cached(cache, h.hash, Lookup(db.headers, KeyOf(h))) == if db.Stored(h) then Some(h) else None
  {
    hide BlockTree.Valid;
  }

  lemma RewriteStep(t: BlockTree, db: Store, cur: Header, c0: map<nat, Hash>, c: map<nat, Hash>, parent: Header, m: nat)
    requires t.Valid() && t.Has(parent) && t.Has(cur) && m <= parent.number
    requires CanonicalUpTo(c0, t, cur, parent.number + 1)
    requires Rewriting(t, db, c0, c, parent, m) && db.Stored(t.At(parent, m))
    requires Lookup(c, m) != Some(t.At(parent, m).hash)
    ensures 0 < m && t.At(parent, m).parent == t.At(parent, m - 1).hash
    ensures Rewriting(t, db, c0, c[m := t.At(parent, m).hash], parent, m - 1)
  {
    hide BlockTree.At, BlockTree.Valid;
    if m == 0 {
      NumberZero(t, t.At(parent, 0));
      NumberZero(t, t.At(cur, 0));
    } else {
      StepDown(t, parent, m);
    }
  }

  /** Where the old table and the new line meet, they agree all the way down. */
  lemma RewriteDone(t: BlockTree, db: Store, cur: Header, c0: map<nat, Hash>, c: map<nat, Hash>, parent: Header, m: nat)
    requires t.Valid() && t.Has(parent) && t.Has(cur) && m <= parent.number
    requires CanonicalUpTo(c0, t, cur, parent.number + 1) && db.LineStored(t, cur)
    requires Rewriting(t, db, c0, c, parent, m)
    requires Lookup(c, m) == Some(t.At(parent, m).hash)
    ensures db.LineStored(t, parent)
    ensures LineBelow(c, t, parent, 0) && forall n: nat :: n in c ==> n <= parent.number + 1
  {
    assert m in c0;
    forall n: nat | n <= m ensures t.At(parent, n) == t.At(cur, n) && n in c {
      SharedBelow(t, parent, cur, m, n);
    }
  }

  lemma ExtendLine(t: BlockTree, db: Store, canonical: map<nat, Hash>, h: Header)
    requires t.Valid() && t.Has(h) && h.number > 0 && db.Stored(h)
    requires db.LineStored(t, t.Parent(h))
    requires LineBelow(canonical, t, t.Parent(h), 0)
    requires forall n: nat :: n in canonical ==> n <= h.number
    ensures db.LineStored(t, h)
    ensures CanonicalIs(canonical[h.number := h.hash], t, h)
  {
    forall n: nat | n < h.number ensures t.At(h, n) == t.At(t.Parent(h), n) { }
  }

  lemma GrowKeepsTds(t: BlockTree, x: Header)
    requires t.Valid() && t.Admits(x) && x.parent in t.known
    ensures t.Grow(x).Valid()
    ensures forall h :: h in t.known ==> t.Grow(x).Has(t.known[h]) && t.Grow(x).Td(t.known[h]) == t.Td(t.known[h])
  {
    GrowValid(t, x);
    forall h | h in t.known
      ensures t.Grow(x).Has(t.known[h]) && t.Grow(x).Td(t.known[h]) == t.Td(t.known[h])
    {
      GrowKeeps(t, x, t.known[h], 0);
    }
  }

  /**
  A cached read agrees with the database exactly when it is asked for the hash's own
  number or the hash is not cached: the cache ignores the number.
  */
  lemma CacheTransparent(db: Store, cache: map<Hash, Header>, hash: Hash, number: nat)
    requires db.Keyed() && HeadersCached(cache, db)
    ensures Cached(cache, hash, Lookup(db.headers, (number, hash))) == Lookup(db.headers, (number, hash)) <==>
      (hash in cache ==> cache[hash].number == number)
  {
    if hash in cache {
      assert db.headers[KeyOf(cache[hash])] == cache[hash];
    }
  }

  /**
  Rewinding below a fork point strands the fork: its tip keeps its total difficulty, so a
  heavier child is accepted, and rerouting then dereferences a deleted ancestor.
  */
  method StrandedFork() returns (status: WriteStatus)
    ensures status == NilHeader
  {
    hide StoreOk, Store.LineStored, CanonicalIs, Rewound, BlockTree.At, BlockTree.Td, BlockTree.Valid;
    var chain := ForkedChain();
    Stranded(chain.tree, chain.db, G, A1, A2, B2);
    ghost var t := chain.tree;
    assert t.Admits(B3);
    chain.SetHead(0);
    status := chain.WriteHeader(B3, false);
    StrandedTd(t, chain.tree);
  }

  const G := Header(1, 0, 0, 1)
  const A1 := Header(2, 1, 1, 1)
  const A2 := Header(3, 2, 2, 2)
  const B2 := Header(4, 2, 2, 1)
  const B3 := Header(5, 4, 3, 5)

  /** A chain of three headers with a lighter sibling of the last one. */
  method ForkedChain() returns (chain: HeaderChain)
    ensures fresh(chain) && chain.Valid() && chain.currentHeader == A2 && B2.hash in chain.db.numbers
    ensures chain.tree == BlockTree(map[1 := G, 2 := A1, 3 := A2, 4 := B2], G)
  {
    hide StoreOk, Store.LineStored, CanonicalIs, Rewound, BlockTree.At, BlockTree.Td, BlockTree.Valid;
    chain := new HeaderChain(G);
    var status := chain.WriteHeader(A1, false);
    assert chain.tree.Parent(A1) == G;
    status := chain.WriteHeader(A2, false);
    assert chain.tree.Parent(A2) == A1;
    status := chain.WriteHeader(B2, false);
    assert chain.tree.Parent(B2) == A1 && chain.tree.Parent(A2) == A1;
    assert chain.tree.known == map[1 := G, 2 := A1, 3 := A2, 4 := B2];
  }

  lemma StrandedTd(t: BlockTree, t': BlockTree)
    requires t == BlockTree(map[1 := G, 2 := A1, 3 := A2, 4 := B2], G) && t' == t.Grow(B3) && t.Valid() && t'.Valid()
    ensures t'.Has(B3) && t'.Has(G) && t'.Td(B3) > t'.Td(G)
  {
    assert t'.Parent(B3) == B2 && t'.Parent(B2) == A1 && t'.Parent(A1) == G;
  }

  lemma Stranded(t: BlockTree, db: Store, g: Header, a1: Header, a2: Header, b2: Header)
    requires t.Valid() && t.Has(a1) && t.Has(a2) && t.Has(b2) && g == t.genesis
    requires a1.number == 1 && a2.number == 2 && b2.number == 2 && a2 != b2
    requires a1.parent == g.hash && a2.parent == a1.hash && b2.parent == a1.hash
    requires b2.hash in db.numbers
    ensures t.At(a2, 0) == g
    ensures var r := Rewound(db, t, a2, 0); b2.hash in r.numbers && !r.LineStored(t, b2)
  {
    assert t.Parent(b2) == a1 && t.Parent(a2) == a1 && t.Parent(a1) == g;
    assert t.At(g, 0) == g && t.At(a1, 1) == a1 && t.At(a2, 2) == a2;
    assert t.At(a1, 0) == g;
    assert t.At(a2, 1) == a1 == t.At(b2, 1);
    assert Dropped(t, a2, 0, KeyOf(a1));
  }

  /** The tree after a list of writes: headers with an unknown parent are refused. */
  ghost function Written(t: BlockTree, ops: seq<Op>): BlockTree {
    if ops == [] then t
    else
      var u, op := Written(t, ops[..|ops| - 1]), ops[|ops| - 1];
      if op.Write? && op.header.parent in u.known then u.Grow(op.header) else u
  }

  ghost predicate AllStored(t: BlockTree, db: Store) {
    forall h :: h in t.known ==> db.Stored(t.known[h])
  }

  lemma AllLinesStored(t: BlockTree, db: Store, h: Header)
    requires t.Valid() && t.Has(h) && AllStored(t, db)
    ensures db.LineStored(t, h)
  {
    forall n: nat | n <= h.number ensures db.Stored(t.At(h, n)) {
      assert t.At(h, n).hash in t.known;
    }
  }

  lemma NumberKnown(t: BlockTree, db: Store, headers: map<Hash, Header>, tds: map<Hash, nat>, numbers: map<Hash, nat>, hash: Hash)
    requires t.Valid() && StoreOk(t, db, headers, tds, numbers)
    ensures hash in db.numbers ==> hash in t.known && t.Has(t.known[hash])
  {
  }

  lemma StoredNumber(t: BlockTree, db: Store, headers: map<Hash, Header>, tds: map<Hash, nat>, numbers: map<Hash, nat>, hash: Hash)
    requires t.Valid() && StoreOk(t, db, headers, tds, numbers) && AllStored(t, db) && hash in t.known
    ensures hash in db.numbers
  {
  }

  lemma PutStored(t: BlockTree, db: Store, h: Header, td: nat)
    requires AllStored(t, db)
    ensures AllStored(t.Grow(h), db.Put(h, td))
  {
  }
}
