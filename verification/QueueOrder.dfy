/** The order in which the global queue limit takes accounts: latest heartbeat first, and when that is also oldest first. */
module QueueOrders {
  import opened Sums
  import opened Transactions
  import opened PoolStates
  import opened PoolLimits

  ghost predicate Lost(queue: Book, queue': Book, a: Address) {
    Of(queue', a, false).items != Of(queue, a, false).items
  }

  /** Whoever beat earlier than an account that lost something has lost everything. */
  ghost predicate OldestFirst(queue: Book, queue': Book, locals: set<Address>, beats: map<Address, nat>) {
    forall a: Address, b: Address ::
      a !in locals && b !in locals && Beat(beats, a) < Beat(beats, b) && Lost(queue, queue', b)
      ==> Of(queue', a, false).items == map[]
  }

  /** The number of queued transactions of remote accounts. */
  ghost function RemoteTotal(queue: Book, locals: set<Address>): nat {
    SumOver(Lengths(queue), queue.Keys - locals)
  }

  /** All remote accounts with queued transactions have the same heartbeat. */
  ghost predicate SameBeat(queue: Book, locals: set<Address>, beats: map<Address, nat>) {
    forall a: Address, b: Address ::
      a !in locals && b !in locals && Of(queue, a, false).items != map[] && Of(queue, b, false).items != map[]
      ==> Beat(beats, a) == Beat(beats, b)
  }

  /**
  The limit takes the oldest accounts first if and only if it takes nothing, or everything that is
  remote, or there is nothing to choose between.
  */
  lemma OldestFirstIff(queue: Book, queue': Book, locals: set<Address>, beats: map<Address, nat>, limit: nat)
    requires QueueCut(queue, queue', locals, beats, limit)
    ensures OldestFirst(queue, queue', locals, beats) <==>
      Total(queue) <= limit || Total(queue) - limit >= RemoteTotal(queue, locals) || SameBeat(queue, locals, beats)
  {
    hide Total, RemoteTotal, Beat, Of;
    if Total(queue) <= limit {
      assert queue' == queue;
    } else if Total(queue) - limit >= RemoteTotal(queue, locals) {
      AllRemoteGone(queue, queue', locals, beats, limit);
    } else if SameBeat(queue, locals, beats) {
      TrimmedKeepsEmpty(queue, queue', locals);
    } else if OldestFirst(queue, queue', locals, beats) {
      var b, c := SomeCutSomeKept(queue, queue', locals, beats, limit);
      OneBeat(queue, queue', locals, beats, b, c);
    }
  }

  /** A table of lengths counts absent lists as empty. */
  lemma LengthOf(queue: Book, a: Address)
    ensures Get(Lengths(queue), a) == |Of(queue, a, false).items|
  {
  }

  /** The limit changes the total by what remote accounts lose. */
  lemma LossIsRemote(queue: Book, queue': Book, locals: set<Address>)
    requires Trimmed(queue, queue', locals)
    ensures Total(queue) + RemoteTotal(queue', locals) == Total(queue') + RemoteTotal(queue, locals)
  {
    hide Trimmed;
    var m, m', keys := Lengths(queue), Lengths(queue'), queue.Keys + queue'.Keys;
    SumWider(m, queue.Keys, keys);
    SumWider(m', queue'.Keys, keys);
    SumWider(m, queue.Keys - locals, keys - locals);
    SumWider(m', queue'.Keys - locals, keys - locals);
    SumUnion(m, keys * locals, keys - locals);
    SumUnion(m', keys * locals, keys - locals);
    assert keys * locals + (keys - locals) == keys;
    forall a | a in keys * locals ensures Get(m, a) == Get(m', a) {
      SameLocal(queue, queue', locals, a);
    }
    SumSame(m, m', keys * locals);
  }

  lemma SameLocal(queue: Book, queue': Book, locals: set<Address>, a: Address)
    requires Trimmed(queue, queue', locals) && a in locals
    ensures Get(Lengths(queue), a) == Get(Lengths(queue'), a)
  {
    LengthOf(queue, a);
    LengthOf(queue', a);
  }

  lemma TrimmedKeepsEmpty(queue: Book, queue': Book, locals: set<Address>)
    requires Trimmed(queue, queue', locals)
    ensures forall a: Address :: Of(queue, a, false).items == map[] ==> Of(queue', a, false).items == map[]
  {
    hide Of;
  }

  lemma NoRemote(queue: Book, locals: set<Address>)
    ensures OnlyLocals(queue, locals) <==> RemoteTotal(queue, locals) == 0
  {
    var m, keys := Lengths(queue), queue.Keys - locals;
    if RemoteTotal(queue, locals) > 0 {
      SumPositive(m, keys);
      var a :| a in keys && Get(m, a) > 0;
      LengthOf(queue, a);
    } else {
      forall a: Address | a !in locals ensures Of(queue, a, false).items == map[] {
        if a in queue {
          SumSplit(m, keys, a);
          LengthOf(queue, a);
        }
      }
    }
  }

  lemma AllRemoteGone(queue: Book, queue': Book, locals: set<Address>, beats: map<Address, nat>, limit: nat)
    requires QueueCut(queue, queue', locals, beats, limit) && Total(queue) > limit
    requires Total(queue) - limit >= RemoteTotal(queue, locals)
    ensures OnlyLocals(queue', locals)
  {
    hide Total, RemoteTotal, Trimmed, LatestFirst, OnlyLocals;
    LossIsRemote(queue, queue', locals);
    NoRemote(queue', locals);
  }

  /** If less than everything remote goes, some remote account loses something and some keeps something. */
  lemma SomeCutSomeKept(queue: Book, queue': Book, locals: set<Address>, beats: map<Address, nat>, limit: nat)
    returns (b: Address, c: Address)
    requires QueueCut(queue, queue', locals, beats, limit) && Total(queue) > limit
    requires Total(queue) - limit < RemoteTotal(queue, locals)
    ensures b !in locals && Lost(queue, queue', b) && c !in locals && Of(queue', c, false).items != map[]
  {
    hide Total, RemoteTotal, Trimmed, LatestFirst, OnlyLocals, Of;
    LossIsRemote(queue, queue', locals);
    NoRemote(queue', locals);
    c := NotOnlyLocals(queue', locals);
    b := SomeLost(queue, queue', locals);
  }

  lemma NotOnlyLocals(queue: Book, locals: set<Address>) returns (c: Address)
    requires !OnlyLocals(queue, locals)
    ensures c !in locals && Of(queue, c, false).items != map[]
  {
    c :| c !in locals && Of(queue, c, false).items != map[];
  }

  lemma SomeLost(queue: Book, queue': Book, locals: set<Address>) returns (b: Address)
    requires RemoteTotal(queue', locals) < RemoteTotal(queue, locals)
    ensures b !in locals && Lost(queue, queue', b)
  {
    var m, m', keys := Lengths(queue), Lengths(queue'), (queue.Keys + queue'.Keys) - locals;
    SumWider(m, queue.Keys - locals, keys);
    SumWider(m', queue'.Keys - locals, keys);
    if forall a :: a in keys ==> Get(m, a) == Get(m', a) {
      SumSame(m, m', keys);
      assert false;
    }
    b :| b in keys && Get(m, b) != Get(m', b);
    LengthOf(queue, b);
    LengthOf(queue', b);
  }

  /** Latest first and oldest first together leave one heartbeat only. */
  lemma OneBeat(queue: Book, queue': Book, locals: set<Address>, beats: map<Address, nat>, b: Address, c: Address)
    requires Trimmed(queue, queue', locals) && LatestFirst(queue, queue', locals, beats) && OldestFirst(queue, queue', locals, beats)
    requires b !in locals && Lost(queue, queue', b) && c !in locals && Of(queue', c, false).items != map[]
    ensures SameBeat(queue, locals, beats)
  {
    hide Of, Beat, Trimmed;
    assert Beat(beats, b) == Beat(beats, c);
    forall a: Address | a !in locals && Of(queue, a, false).items != map[] ensures Beat(beats, a) == Beat(beats, b) {
      if Lost(queue, queue', a) {
        assert Beat(beats, a) == Beat(beats, c);
      } else {
        assert Of(queue', a, false).items != map[];
      }
    }
  }
}
