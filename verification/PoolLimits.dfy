/** Counting the pool's transactions, and cutting a set of accounts down to one common level. */
module PoolLimits {
  import opened Sums
  import opened Transactions
  import opened TxLists
  import opened PoolStates

  /** The number of transactions of each account. */
  function Lengths(book: Book): (r: Table)
    ensures r.Keys == book.Keys
  {
    map a | a in book :: |book[a].items|
  }

  /** The number of transactions in a book. */
  ghost function Total(book: Book): nat {
    Sum(Lengths(book))
  }

  lemma TotalPut(book: Book, a: Address, l: List)
    ensures Total(book[a := l]) + (if a in book then |book[a].items| else 0) == Total(book) + |l.items|
  {
    hide Sum;
    assert Lengths(book[a := l]) == Lengths(book)[a := |l.items|];
    SumPut(Lengths(book), a, |l.items|);
  }

  lemma TotalDelete(book: Book, a: Address)
    requires a in book
    ensures Total(book) == Total(book - {a}) + |book[a].items|
  {
    hide Sum;
    TotalPut(book - {a}, a, book[a]);
    assert (book - {a})[a := book[a]] == book;
  }

  /** The accounts that may be cut: remote ones with more than their guaranteed share. */
  function Spammers(book: Book, locals: set<Address>, slots: nat): set<Address> {
    set a | a in book && a !in locals && |book[a].items| > slots
  }

  /** The book with the accounts of `s` cut down to `level` transactions each, lowest nonces first. */
  function CapBook(book: Book, s: set<Address>, level: nat): (r: Book)
    ensures r.Keys == book.Keys
  {
    map a | a in book :: if a in s then book[a].Cap(level) else book[a]
  }

  /** Half way from one level to the next: the accounts in `done` are one below the others. */
  function Mixed(book: Book, s: set<Address>, level: nat, done: set<Address>): (r: Book)
    requires level > 0
    ensures r.Keys == book.Keys
  {
    map a | a in book :: if a in done then book[a].Cap(level - 1) else if a in s then book[a].Cap(level) else book[a]
  }

  lemma {:induction false} LowestLowest(items: Items, m: nat, k: nat)
    requires k <= m
    ensures Lowest(Lowest(items, m), k) == Lowest(items, k)
    decreases |items|
  {
    if |items| > m {
      var top := MaxOf(items.Keys);
      assert (items - {top}).Keys == items.Keys - {top};
      LowestLowest(items - {top}, m, k);
    }
  }

  /** A round of cuts is over when all accounts at the level have been cut. */
  lemma MixedDone(book: Book, s: set<Address>, level: nat, done: set<Address>)
    requires level > 0 && s <= book.Keys && done <= s
    requires forall a :: a in s && a !in done ==> |book[a].items| < level
    ensures Mixed(book, s, level, done) == CapBook(book, s, level - 1)
  {
    forall a | a in s && a !in done ensures book[a].Cap(level) == book[a].Cap(level - 1) { }
  }

  lemma MixedStart(book: Book, s: set<Address>, level: nat)
    requires level > 0
    ensures Mixed(book, s, level, {}) == CapBook(book, s, level)
  {
  }

  /** Cutting the account once more is a cut of the original list to the next level. */
  lemma MixedStep(book: Book, s: set<Address>, level: nat, done: set<Address>, a: Address)
    requires level > 0 && a in s && a in book && a !in done && |book[a].items| >= level
    ensures var m := Mixed(book, s, level, done);
      && |m[a].items| == level && m[a := m[a].Cap(level - 1)] == Mixed(book, s, level, done + {a})
  {
    hide Lowest;
    LowestLowest(book[a].items, level, level - 1);
    var m, m' := Mixed(book, s, level, done), Mixed(book, s, level, done + {a});
    assert m[a].Cap(level - 1) == book[a].Cap(level - 1) == m'[a];
    forall b | b in book && b != a ensures m[b] == m'[b] { }
    hide Mixed;
    PutOne(m, m', a);
  }

  lemma PutOne(m: Book, m': Book, a: Address)
    requires m.Keys == m'.Keys && a in m && forall b :: b in m && b != a ==> m[b] == m'[b]
    ensures m[a := m'[a]] == m'
  {
  }

  /** A lower level never holds more. */
  lemma LevelMonotone(book: Book, s: set<Address>, level: nat, level': nat)
    requires level <= level'
    ensures Total(CapBook(book, s, level)) <= Total(CapBook(book, s, level'))
  {
    SumLe(Lengths(CapBook(book, s, level)), Lengths(CapBook(book, s, level')), book.Keys);
  }

  /** A level above every list cuts nothing. */
  lemma LevelTooHigh(book: Book, s: set<Address>, level: nat)
    requires forall a :: a in s && a in book ==> |book[a].items| <= level
    ensures CapBook(book, s, level) == book
  {
    forall a | a in s && a in book ensures book[a].Cap(level) == book[a] { }
  }

  method CountTxs(book: Book) returns (n: nat)
    ensures n == Total(book)
  {
    n := 0;
    var todo := book.Keys;
    while todo != {}
      invariant todo <= book.Keys && n + SumOver(Lengths(book), todo) == Total(book)
      decreases |todo|
    {
      var a :| a in todo;
      SumSplit(Lengths(book), todo, a);
      n := n + |book[a].items|;
      todo := todo - {a};
    }
  }

  lemma LengthBelowTotal(book: Book, a: Address)
    requires a in book
    ensures |book[a].items| <= Total(book)
  {
    SumSplit(Lengths(book), book.Keys, a);
  }

  /** The transaction is filed in the book under its sender and nonce. */
  predicate Listed(book: Book, t: Tx) {
    t.sender in book && t.nonce in book[t.sender].items && book[t.sender].items[t.nonce] == t
  }

  /** Exactly what fell out of the book has left the pool. */
  ghost predicate PoolShrank(all: set<Tx>, all': set<Tx>, book: Book, book': Book) {
    && (forall t :: Listed(book', t) ==> Listed(book, t))
    && (forall t :: t in all' <==> t in all && (Listed(book, t) ==> Listed(book', t)))
  }

  /** The transaction is executable or queued. */
  predicate InBooks(p: Book, q: Book, t: Tx) {
    Listed(p, t) || Listed(q, t)
  }

  /** Nothing new is listed, and exactly what fell out of both books has left the pool. */
  ghost predicate Shed(all: set<Tx>, all': set<Tx>, p: Book, q: Book, p': Book, q': Book) {
    && (forall t :: InBooks(p', q', t) ==> InBooks(p, q, t))
    && (forall t :: t in all' <==> t in all && (InBooks(p, q, t) ==> InBooks(p', q', t)))
  }

  function Elems(s: seq<Address>): set<Address> {
    set a | a in s
  }

  lemma LowestDropsMax(items: Items)
    requires items != map[]
    ensures |items| > 0 && Lowest(items, |items| - 1) == items - {MaxOf(items.Keys)}
  {
    var top := MaxOf(items.Keys);
    assert top in items;
    assert (items - {top}).Keys == items.Keys - {top};
  }

  /** Accounts of `s` whose original list reaches `level`: those that a round at that level cuts. */
  ghost predicate AtLevel(book: Book, s: set<Address>, level: nat, os: seq<Address>) {
    && s <= book.Keys
    && (forall i, j :: 0 <= i < j < |os| ==> os[i] != os[j])
    && (forall a :: a in os <==> a in s && |book[a].items| >= level)
  }

  /**
  Fair eviction in progress: offenders have been cut to `level`, the other spammers are no
  longer than that, and one level higher the limit was exceeded.
  */
  ghost predicate Evicting(base: Book, s: set<Address>, slots: nat, limit: nat,
                           os: seq<Address>, rest: set<Address>, level: nat, count: nat)
  {
    && s <= base.Keys && (forall a :: a in s ==> |base[a].items| > slots)
    && (forall i, j :: 0 <= i < j < |os| ==> os[i] != os[j])
    && Elems(os) + rest == s && Elems(os) !! rest
    && (forall b :: b in rest ==> |base[b].items| <= level)
    && Total(CapBook(base, s, level + 1)) > limit && count == Total(CapBook(base, s, level))
    && (os == [] ==> CapBook(base, s, level) == base)
    && (os != [] ==> level > slots)
    && (os != [] && count > limit ==> forall a :: a in os ==> |base[a].items| >= level)
  }

  lemma EvictStart(base: Book, s: set<Address>, slots: nat, limit: nat)
    requires s <= base.Keys && (forall a :: a in s ==> |base[a].items| > slots) && Total(base) > limit
    ensures Evicting(base, s, slots, limit, [], s, Total(base), Total(base))
    ensures CapBook(base, s, Total(base)) == base
  {
    hide Sum;
    forall a | a in base ensures |base[a].items| <= Total(base) { LengthBelowTotal(base, a); }
    LevelTooHigh(base, s, Total(base));
    LevelTooHigh(base, s, Total(base) + 1);
  }

  /** The longest of the remaining spammers. */
  lemma {:induction false} LongestExists(base: Book, rest: set<Address>)
    requires rest != {} && rest <= base.Keys
    ensures exists o :: o in rest && forall b :: b in rest ==> |base[b].items| <= |base[o].items|
    decreases |rest|
  {
    var x :| x in rest;
    if rest != {x} {
      var others := rest - {x};
      LongestExists(base, others);
      var o :| o in others && forall b :: b in others ==> |base[b].items| <= |base[o].items|;
      var best := if |base[x].items| > |base[o].items| then x else o;
      assert forall b :: b in rest ==> b == x || b in others;
      assert best in rest && forall b :: b in rest ==> |base[b].items| <= |base[best].items|;
    } else {
      assert forall b :: b in rest ==> b == x;
    }
  }

  /** The first offender sets the level to its own length, which cuts nothing yet. */
  lemma FirstOffender(base: Book, s: set<Address>, slots: nat, limit: nat, rest: set<Address>, level: nat, count: nat, o: Address)
    requires Evicting(base, s, slots, limit, [], rest, level, count) && count > limit
    requires o in rest && forall b :: b in rest ==> |base[b].items| <= |base[o].items|
    ensures var t := |base[o].items|;
      && Evicting(base, s, slots, limit, [o], rest - {o}, t, count)
      && CapBook(base, s, t) == base == CapBook(base, s, level)
  {
    hide Total;
    assert s == rest;
    LevelTooHigh(base, s, |base[o].items|);
    LevelTooHigh(base, s, |base[o].items| + 1);
  }

  /** While the level is above the next offender's length, a round cuts exactly the earlier ones. */
  lemma RoundIsFair(base: Book, s: set<Address>, slots: nat, limit: nat,
                    os: seq<Address>, rest: set<Address>, o: Address, level: nat, count: nat)
    requires Closing(base, s, slots, limit, os, rest, o, level, count) && count > limit
    ensures os[|os| - 1] in base && |CapBook(base, s, level)[os[|os| - 1]].items| == level
    ensures level > |base[o].items| ==>
      && AtLevel(base, s, level, os)
      && Closing(base, s, slots, limit, os, rest, o, level - 1, Total(CapBook(base, s, level - 1)))
  {
    hide Total, CapBook, Elems;
    SplitOf(s, os, rest);
    assert os[|os| - 1] in os;
    CappedLength(base, s, level, os[|os| - 1]);
  }

  lemma SplitOf(s: set<Address>, os: seq<Address>, rest: set<Address>)
    requires Elems(os) + rest == s
    ensures forall a :: a in s <==> a in os || a in rest
  {
    assert forall a :: a in os <==> a in Elems(os);
  }

  lemma CappedLength(base: Book, s: set<Address>, level: nat, a: Address)
    requires a in base && a in s && |base[a].items| >= level
    ensures |CapBook(base, s, level)[a].items| == level
  {
    hide Lowest;
  }

  /** A new offender `o` has been taken from the queue, and the earlier ones are being cut down to it. */
  ghost predicate Closing(base: Book, s: set<Address>, slots: nat, limit: nat,
                          os: seq<Address>, rest: set<Address>, o: Address, level: nat, count: nat)
  {
    && s <= base.Keys && (forall a :: a in s ==> |base[a].items| > slots)
    && (forall i, j :: 0 <= i < j < |os| ==> os[i] != os[j])
    && os != [] && Elems(os) + rest == s && Elems(os) !! rest && o in rest
    && (forall b :: b in rest ==> |base[b].items| <= |base[o].items|)
    && |base[o].items| <= level
    && Total(CapBook(base, s, level + 1)) > limit && count == Total(CapBook(base, s, level))
    && (forall a :: a in os ==> |base[a].items| >= level)
  }

  lemma ClosingStart(base: Book, s: set<Address>, slots: nat, limit: nat,
                     os: seq<Address>, rest: set<Address>, o: Address, level: nat, count: nat)
    requires Evicting(base, s, slots, limit, os, rest, level, count) && os != [] && count > limit
    requires o in rest && forall b :: b in rest ==> |base[b].items| <= |base[o].items|
    ensures Closing(base, s, slots, limit, os, rest, o, level, count)
    ensures CapBook(base, s, level)[o].items == base[o].items
  {
    hide Total;
    assert o in s;
  }

  lemma ClosingDone(base: Book, s: set<Address>, slots: nat, limit: nat,
                    os: seq<Address>, rest: set<Address>, o: Address, level: nat, count: nat)
    requires Closing(base, s, slots, limit, os, rest, o, level, count)
    requires count > limit ==> level <= |base[o].items|
    ensures Evicting(base, s, slots, limit, os + [o], rest - {o}, level, count)
  {
    hide Total, CapBook, Elems;
    ElemsAppend(os, o);
    assert Elems(os) + {o} + (rest - {o}) == s;
  }

  lemma ElemsAppend(os: seq<Address>, o: Address)
    ensures Elems(os + [o]) == Elems(os) + {o}
    ensures forall i :: 0 <= i < |os| ==> os[i] in Elems(os)
  {
  }

  /** With every spammer an offender, a round cuts them all. */
  lemma LastRounds(base: Book, s: set<Address>, limit: nat, os: seq<Address>, level: nat)
    requires Leveling(base, s, limit, os, level)
    ensures AtLevel(base, s, level, os)
    ensures |CapBook(base, s, level)[os[|os| - 1]].items| == level
    ensures level > 0 && Total(CapBook(base, s, level)) > limit ==> Leveling(base, s, limit, os, level - 1)
  {
    hide Total;
    assert os[|os| - 1] in os;
    assert forall a :: a in s <==> a in os;
  }

  ghost predicate Leveling(base: Book, s: set<Address>, limit: nat, os: seq<Address>, level: nat) {
    && s <= base.Keys && os != [] && Elems(os) == s
    && (forall i, j :: 0 <= i < j < |os| ==> os[i] != os[j])
    && (forall a :: a in os ==> |base[a].items| >= level)
    && Total(CapBook(base, s, level + 1)) > limit
  }

  lemma RestUncut(base: Book, s: set<Address>, slots: nat, limit: nat, os: seq<Address>, rest: set<Address>, level: nat, count: nat)
    requires Evicting(base, s, slots, limit, os, rest, level, count)
    ensures rest <= base.Keys && forall b :: b in rest ==> CapBook(base, s, level)[b].items == base[b].items
  {
    hide Total;
    assert forall b :: b in rest ==> b in s;
  }

  lemma CountIs(base: Book, s: set<Address>, slots: nat, limit: nat, os: seq<Address>, rest: set<Address>, o: Address, level: nat, count: nat)
    requires Closing(base, s, slots, limit, os, rest, o, level, count)
    ensures count == Total(CapBook(base, s, level))
  {
  }

  /** What the first phase leaves: the limit is met, or every spammer is at the level, or there is none. */
  lemma EvictPhaseOne(base: Book, s: set<Address>, slots: nat, limit: nat, os: seq<Address>, rest: set<Address>, level: nat, count: nat)
    requires Evicting(base, s, slots, limit, os, rest, level, count) && (count <= limit || rest == {})
    ensures Total(CapBook(base, s, level + 1)) > limit && count == Total(CapBook(base, s, level))
    ensures count > limit && os != [] ==> Leveling(base, s, limit, os, level)
    ensures count > limit && os == [] ==> s == {}
    ensures os != [] ==> level >= slots
  {
    hide Total;
  }

  lemma LevelingKept(base: Book, s: set<Address>, limit: nat, os: seq<Address>, level: nat)
    requires Leveling(base, s, limit, os, level)
    ensures Total(CapBook(base, s, level + 1)) > limit && os != []
  {
  }

  function Beat(beats: map<Address, nat>, a: Address): nat {
    if a in beats then beats[a] else 0
  }

  /** Each account keeps its lowest nonces, and local accounts keep everything. */
  ghost predicate Trimmed(queue: Book, queue': Book, locals: set<Address>) {
    forall a: Address ::
      && Of(queue', a, false).items == Lowest(Of(queue, a, false).items, |Of(queue', a, false).items|)
      && (a in locals ==> Of(queue', a, false) == Of(queue, a, false))
  }

  /** Whoever beat later than an account that lost something has lost everything. */
  ghost predicate LatestFirst(queue: Book, queue': Book, locals: set<Address>, beats: map<Address, nat>) {
    forall a: Address, b: Address ::
      a !in locals && b !in locals && Beat(beats, a) < Beat(beats, b) && Of(queue', a, false).items != Of(queue, a, false).items
      ==> Of(queue', b, false).items == map[]
  }

  /** No remote account has anything queued. */
  ghost predicate OnlyLocals(queue: Book, locals: set<Address>) {
    forall a: Address :: a !in locals ==> Of(queue, a, false).items == map[]
  }

  /** Queue truncation in progress: `rest` is untouched, and `drop` transactions are still too many. */
  ghost predicate Truncating(base: Book, queue: Book, locals: set<Address>, beats: map<Address, nat>, limit: nat,
                             rest: set<Address>, drop: nat)
  {
    && Total(queue) == limit + drop && rest <= base.Keys && rest !! locals
    && Trimmed(base, queue, locals) && LatestFirst(base, queue, locals, beats) && OnePart(base, queue)
    && (forall a: Address :: a in rest ==> Of(queue, a, false) == Of(base, a, false))
    && (forall a: Address :: a !in rest && a !in locals && drop > 0 ==> Of(queue, a, false).items == map[])
    && (forall a: Address, b: Address ::
          a in rest && b !in rest && b !in locals && Of(base, b, false).items != map[] ==> Beat(beats, a) <= Beat(beats, b))
  }

  /** The account lost some of its queue and kept some. */
  ghost predicate InPart(queue: Book, queue': Book, a: Address) {
    Of(queue', a, false).items != map[] && Of(queue', a, false).items != Of(queue, a, false).items
  }

  /** At most one queue is cut without being emptied. */
  ghost predicate OnePart(queue: Book, queue': Book) {
    forall a: Address, b: Address :: InPart(queue, queue', a) && InPart(queue, queue', b) ==> a == b
  }

  lemma TruncateStart(base: Book, locals: set<Address>, beats: map<Address, nat>, limit: nat)
    requires Total(base) > limit
    ensures Truncating(base, base, locals, beats, limit, base.Keys - locals, Total(base) - limit)
  {
    hide Total;
  }

  lemma TruncateStep(base: Book, queue: Book, queue': Book, locals: set<Address>, beats: map<Address, nat>, limit: nat,
                     rest: set<Address>, drop: nat, a: Address, k: nat)
    requires Truncating(base, queue, locals, beats, limit, rest, drop) && drop > 0
    requires IsLatest(beats, rest, a)
    requires OnlyAt(queue, queue', a, false) && k == (if |Of(queue, a, false).items| <= drop then |Of(queue, a, false).items| else drop)
    requires Of(queue', a, false).items == Lowest(Of(queue, a, false).items, |Of(queue, a, false).items| - k)
    requires Total(queue) == Total(queue') + k
    ensures Truncating(base, queue', locals, beats, limit, rest - {a}, drop - k)
  {
    hide Total, Of, Lowest, LatestFirst, Beat, OnePart, Trimmed;
    assert |Of(queue', a, false).items| == |Of(queue, a, false).items| - k;
    StillLatestFirst(base, queue, queue', locals, beats, rest, a);
    OnlyThisPart(base, queue, queue', locals, rest, a);
    StillTrimmed(base, queue, queue', locals, a, |Of(queue', a, false).items|);
    assert |Of(queue', a, false).items| == 0 ==> Of(queue', a, false).items == map[];
  }

  lemma StillLatestFirst(base: Book, queue: Book, queue': Book, locals: set<Address>, beats: map<Address, nat>, rest: set<Address>, a: Address)
    requires Trimmed(base, queue, locals) && LatestFirst(base, queue, locals, beats) && OnlyAt(queue, queue', a, false)
    requires IsLatest(beats, rest, a)
    requires forall x: Address :: x in rest ==> Of(queue, x, false) == Of(base, x, false)
    requires forall x: Address :: x !in rest && x !in locals ==> Of(queue, x, false).items == map[]
    requires forall x: Address, y: Address ::
      x in rest && y !in rest && y !in locals && Of(base, y, false).items != map[] ==> Beat(beats, x) <= Beat(beats, y)
    ensures LatestFirst(base, queue', locals, beats)
  {
    hide Of, Lowest, Beat;
    forall x: Address, y: Address
      | x !in locals && y !in locals && Beat(beats, x) < Beat(beats, y) && Of(queue', x, false).items != Of(base, x, false).items
      ensures Of(queue', y, false).items == map[]
    {
      if x == a {
        assert y !in rest;
      } else {
        assert Of(queue', x, false) == Of(queue, x, false);
        assert x !in rest;
        assert Of(base, x, false).items != map[];
      }
    }
  }

  lemma StillTrimmed(base: Book, queue: Book, queue': Book, locals: set<Address>, a: Address, k: nat)
    requires Trimmed(base, queue, locals) && OnlyAt(queue, queue', a, false) && a !in locals && Of(queue, a, false) == Of(base, a, false)
    requires Of(queue', a, false).items == Lowest(Of(queue, a, false).items, k) && k == |Of(queue', a, false).items|
    ensures Trimmed(base, queue', locals)
  {
    hide Of, Lowest;
  }

  lemma OnlyThisPart(base: Book, queue: Book, queue': Book, locals: set<Address>, rest: set<Address>, a: Address)
    requires Trimmed(base, queue, locals) && OnlyAt(queue, queue', a, false) && a in rest
    requires forall x: Address :: x in rest ==> Of(queue, x, false) == Of(base, x, false)
    requires forall x: Address :: x !in rest && x !in locals ==> Of(queue, x, false).items == map[]
    ensures OnePart(base, queue')
  {
    hide Of, Lowest;
    assert forall x: Address :: x != a ==> Of(queue', x, false) == Of(queue, x, false);
    assert forall x: Address :: x != a ==> !InPart(base, queue', x);
  }

  lemma TruncateEnd(base: Book, queue: Book, locals: set<Address>, beats: map<Address, nat>, limit: nat, rest: set<Address>, drop: nat)
    requires Truncating(base, queue, locals, beats, limit, rest, drop) && (drop == 0 || rest == {})
    ensures Trimmed(base, queue, locals) && LatestFirst(base, queue, locals, beats) && OnePart(base, queue)
    ensures Total(queue) == limit || (Total(queue) > limit && OnlyLocals(queue, locals))
  {
  }

  lemma {:induction false} LatestExists(beats: map<Address, nat>, rest: set<Address>)
    requires rest != {}
    ensures exists o :: IsLatest(beats, rest, o)
    decreases |rest|
  {
    hide Beat;
    var x :| x in rest;
    if rest == {x} {
      assert IsLatest(beats, rest, x);
    } else {
      LatestExists(beats, rest - {x});
      var o :| IsLatest(beats, rest - {x}, o);
      LatestOfTwo(beats, rest, x, o);
    }
  }

  /** No one in the set beat later. */
  predicate IsLatest(beats: map<Address, nat>, rest: set<Address>, o: Address) {
    o in rest && forall b :: b in rest ==> Beat(beats, b) <= Beat(beats, o)
  }

  lemma LatestOfTwo(beats: map<Address, nat>, rest: set<Address>, x: Address, o: Address)
    requires x in rest && IsLatest(beats, rest - {x}, o)
    ensures IsLatest(beats, rest, x) || IsLatest(beats, rest, o)
  {
    hide Beat;
    forall b | b in rest ensures Beat(beats, b) <= Beat(beats, o) || b == x {
      if b != x {
        assert b in rest - {x};
      }
    }
  }

  /** Remote accounts above their guaranteed share are cut to one common level, the highest that keeps the limit. */
  ghost predicate CutAt(book: Book, book': Book, locals: set<Address>, slots: nat, limit: nat, level: nat) {
    var s := Spammers(book, locals, slots);
    && book' == CapBook(book, s, level) && (s != {} ==> level >= slots)
    && (Total(book') <= limit || s == {} || level == slots)
    && Total(CapBook(book, s, level + 1)) > limit
  }

  ghost predicate FairlyCut(book: Book, book': Book, locals: set<Address>, slots: nat, limit: nat) {
    if Total(book) <= limit then book' == book
    else exists level: nat :: CutAt(book, book', locals, slots, limit, level)
  }

  /**
  What eviction promises: the limit is kept unless every remote account is down to its share; no
  one at or below the share loses anything; and whoever is cut stays at least as long as any
  other remote account.
  */
  lemma FairCutMeaning(book: Book, book': Book, locals: set<Address>, slots: nat, limit: nat)
    requires FairlyCut(book, book', locals, slots, limit)
    ensures book'.Keys == book.Keys
    ensures Total(book') <= limit || forall a :: a in book' && a !in locals ==> |book'[a].items| <= slots
    ensures forall a :: a in book && (a in locals || |book[a].items| <= slots) ==> book'[a] == book[a]
    ensures forall a :: a in book ==> book'[a].items == Lowest(book[a].items, |book'[a].items|)
    ensures forall a, b :: a in book && b in book && b !in locals && book'[a] != book[a] ==> |book'[b].items| <= |book'[a].items|
  {
    hide Total, CapBook, Spammers;
    if Total(book) > limit {
      var level: nat :| CutAt(book, book', locals, slots, limit, level);
      CutMeaning(book, locals, slots, level);
    } else {
      forall a | a in book ensures book[a].items == Lowest(book[a].items, |book[a].items|) { }
    }
  }

  lemma CutMeaning(book: Book, locals: set<Address>, slots: nat, level: nat)
    requires Spammers(book, locals, slots) != {} ==> level >= slots
    ensures var s := Spammers(book, locals, slots); var book' := CapBook(book, s, level);
      && (s == {} || level == slots ==> forall a :: a in book' && a !in locals ==> |book'[a].items| <= slots)
      && (forall a :: a in book && (a in locals || |book[a].items| <= slots) ==> book'[a] == book[a])
      && (forall a :: a in book ==> book'[a].items == Lowest(book[a].items, |book'[a].items|))
      && (forall a, b :: a in book && b in book && b !in locals && book'[a] != book[a] ==> |book'[b].items| <= |book'[a].items|)
      && (forall a :: a in book && book'[a] != book[a] ==> |book'[a].items| == level)
  {
    var s := Spammers(book, locals, slots);
    var book' := CapBook(book, s, level);
    forall a | a in book
      ensures a !in s ==> book'[a] == book[a]
      ensures book'[a].items == Lowest(book[a].items, |book'[a].items|)
      ensures a in s ==> |book'[a].items| <= level
      ensures book'[a] != book[a] ==> a in s && |book'[a].items| == level
    {
    }
    hide Lowest, CapBook;
  }

  /** An account within its share loses nothing. */
  lemma ShareKept(book: Book, book': Book, locals: set<Address>, slots: nat, limit: nat, a: Address)
    requires FairlyCut(book, book', locals, slots, limit) && |Of(book, a, true).items| <= slots
    ensures Of(book', a, true) == Of(book, a, true)
  {
    FairCutMeaning(book, book', locals, slots, limit);
    hide FairlyCut;
  }

  /** Eviction stops as soon as it can: one transaction per cut account more would exceed the limit. */
  lemma FairCutTight(book: Book, book': Book, locals: set<Address>, slots: nat, limit: nat, a: Address)
    requires FairlyCut(book, book', locals, slots, limit) && a in book && a in book' && book'[a] != book[a]
    ensures Total(CapBook(book, Spammers(book, locals, slots), |book'[a].items| + 1)) > limit
  {
    hide Total, CapBook, Spammers;
    var level: nat :| CutAt(book, book', locals, slots, limit, level);
    CutMeaning(book, locals, slots, level);
  }

  /** The global queue limit: whole queues of remote accounts go, latest heartbeat first. */
  ghost predicate QueueCut(queue: Book, queue': Book, locals: set<Address>, beats: map<Address, nat>, limit: nat) {
    if Total(queue) <= limit then queue' == queue
    else
      && Trimmed(queue, queue', locals) && LatestFirst(queue, queue', locals, beats) && OnePart(queue, queue')
      && (Total(queue') == limit || (Total(queue') > limit && OnlyLocals(queue', locals)))
  }
}
