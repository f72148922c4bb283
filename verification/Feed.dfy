/**
One-to-many event delivery. The subscribed channels are the select cases of a list whose slot 0
is the channel that announces removals; while a value is being sent, the channels that have not
received it yet are a prefix of the list.
*/
module Feeds {

  type Chan = nat

  /** The feed's own channel in slot 0. */
  const REMOVE_SUB: Chan := 0

  /** The list without the case at an index. */
  function Deleted(cases: seq<Chan>, index: nat): seq<Chan>
    requires index < |cases|
  {
    cases[..index] + cases[index + 1..]
  }

  /** The list with the case at `index` moved to the end of its first `active` cases. */
  function Deactivated(cases: seq<Chan>, active: nat, index: nat): seq<Chan>
    requires index < active <= |cases|
  {
    cases[index := cases[active - 1]][active - 1 := cases[index]]
  }

  /** The first index of a channel, or -1. */
  method Find(cases: seq<Chan>, channel: Chan) returns (index: int)
    ensures -1 <= index < |cases| && (index == -1 <==> channel !in cases)
    ensures index >= 0 ==> cases[index] == channel && channel !in cases[..index]
  {
    for i := 0 to |cases|
      invariant channel !in cases[..i]
    {
      if cases[i] == channel {
        return i;
      }
    }
    assert cases[..|cases|] == cases;
    return -1;
  }

  lemma SplitAt(s: seq<Chan>, i: nat)
    requires i < |s|
    ensures multiset(s) == multiset(s[..i]) + multiset{s[i]} + multiset(s[i + 1..])
  {
    assert s == s[..i] + ([s[i]] + s[i + 1..]);
  }

  lemma DeleteOne(s: seq<Chan>, i: nat)
    requires i < |s|
    ensures multiset(Deleted(s, i)) == multiset(s) - multiset{s[i]} && forall c :: c in Deleted(s, i) ==> c in s
  {
    SplitAt(s, i);
  }

  lemma DeleteCase(cases: seq<Chan>, at: nat)
    requires 1 <= at < |cases|
    ensures var cases' := Deleted(cases, at);
      && |cases'| == |cases| - 1 && cases'[0] == cases[0] && (forall c :: c in cases'[1..] ==> c in cases[1..])
      && multiset(cases'[1..]) == multiset(cases[1..]) - multiset{cases[at]}
  {
    DeleteOne(cases[1..], at - 1);
    assert Deleted(cases, at)[1..] == Deleted(cases[1..], at - 1);
  }

  /** The cases in three parts: slot 0, the channels still waiting for the value, and the others. */
  ghost function Waiting(cases: seq<Chan>, active: nat): multiset<Chan>
    requires 1 <= active <= |cases|
  {
    multiset(cases[1..active])
  }

  ghost function Served(cases: seq<Chan>, active: nat): multiset<Chan>
    requires active <= |cases|
  {
    multiset(cases[active..])
  }

  /** Deactivation moves one channel from the waiting to the served ones. */
  lemma DeactivateMoves(cases: seq<Chan>, active: nat, index: nat)
    requires 1 <= index < active <= |cases|
    ensures var cases' := Deactivated(cases, active, index);
      && |cases'| == |cases| && cases'[0] == cases[0] && (forall c :: c in cases'[1..] ==> c in cases[1..])
      && Waiting(cases, active) == Waiting(cases', active - 1) + multiset{cases[index]}
      && Served(cases', active - 1) == Served(cases, active) + multiset{cases[index]}
      && multiset(cases'[1..]) == multiset(cases[1..])
  {
    var cases' := Deactivated(cases, active, index);
    DeactivatedParts(cases, active, index);
    Parts(cases, active);
    Parts(cases', active);
    hide Deactivated, Waiting, Served;
    SameElements(cases'[1..], cases[1..]);
  }

  lemma DeactivatedParts(cases: seq<Chan>, active: nat, index: nat)
    requires 1 <= index < active <= |cases|
    ensures var cases' := Deactivated(cases, active, index);
      && |cases'| == |cases| && cases'[0] == cases[0]
      && Waiting(cases', active) == Waiting(cases, active) == Waiting(cases', active - 1) + multiset{cases[index]}
      && Served(cases', active - 1) == Served(cases, active) + multiset{cases[index]} && Served(cases', active) == Served(cases, active)
  {
    var cases' := Deactivated(cases, active, index);
    Swapped(cases[1..active], cases'[1..active], index - 1);
    assert cases'[1..active] == cases'[1..active - 1] + [cases[index]];
    assert cases'[active - 1..] == [cases[index]] + cases[active..];
    assert cases'[active..] == cases[active..];
  }

  lemma SameElements(a: seq<Chan>, b: seq<Chan>)
    requires multiset(a) == multiset(b)
    ensures forall c :: c in a ==> c in b
  {
    forall c | c in a ensures c in b {
      assert c in multiset(a);
    }
  }

  lemma Swapped(w: seq<Chan>, w': seq<Chan>, i: nat)
    requires i < |w| == |w'| && w' == w[i := w[|w| - 1]][|w| - 1 := w[i]]
    ensures multiset(w') == multiset(w)
  {
  }

  lemma Parts(cases: seq<Chan>, active: nat)
    requires 1 <= active <= |cases|
    ensures multiset(cases[1..]) == Waiting(cases, active) + Served(cases, active)
  {
    assert cases[1..] == cases[1..active] + cases[active..];
  }

  /** Deleting a waiting case. */
  lemma DeleteWaiting(cases: seq<Chan>, active: nat, index: nat)
    requires 1 <= index < active <= |cases|
    ensures var cases' := Deleted(cases, index);
      && |cases'| == |cases| - 1 && cases'[0] == cases[0] && (forall c :: c in cases'[1..] ==> c in cases[1..])
      && Waiting(cases, active) == Waiting(cases', active - 1) + multiset{cases[index]}
      && Served(cases', active - 1) == Served(cases, active)
  {
    var cases', w := Deleted(cases, index), cases[1..active];
    SplitAt(w, index - 1);
    assert cases'[1..active - 1] == w[..index - 1] + w[index..];
    assert cases'[active - 1..] == cases[active..];
    assert cases'[1..] == cases[1..index] + cases[index + 1..];
  }

  /** Deleting a served case. */
  lemma DeleteServed(cases: seq<Chan>, active: nat, index: nat)
    requires 1 <= active <= index < |cases|
    ensures var cases' := Deleted(cases, index);
      && |cases'| == |cases| - 1 && cases'[0] == cases[0] && (forall c :: c in cases'[1..] ==> c in cases[1..])
      && Waiting(cases', active) == Waiting(cases, active)
      && Served(cases, active) == Served(cases', active) + multiset{cases[index]}
  {
    var cases', t := Deleted(cases, index), cases[active..];
    SplitAt(t, index - active);
    assert cases'[active..] == t[..index - active] + t[index - active + 1..];
    assert cases'[1..active] == cases[1..active];
    assert cases'[1..] == cases[1..index] + cases[index + 1..];
  }

  class Feed {
    var sendCases: seq<Chan>
    var inbox: seq<Chan>

    /** Slot 0 is the removal channel, and no subscriber uses it. */
    ghost predicate Valid()
      reads this
    {
      |sendCases| >= 1 && sendCases[0] == REMOVE_SUB && REMOVE_SUB !in sendCases[1..] && REMOVE_SUB !in inbox
    }

    /** The live subscriptions; a channel may be subscribed more than once. */
    ghost function Live(): multiset<Chan>
      requires Valid()
      reads this
    {
      multiset(sendCases[1..]) + multiset(inbox)
    }

    constructor ()
      ensures Valid() && Live() == multiset{}
    {
      sendCases, inbox := [REMOVE_SUB], [];
    }

    method Subscribe(channel: Chan)
      requires Valid() && channel != REMOVE_SUB
      modifies this`inbox
      ensures Valid() && Live() == old(Live()) + multiset{channel} && inbox == old(inbox) + [channel]
    {
      inbox := inbox + [channel];
    }

    /** Ends one subscription of a channel while no value is being sent. */
    method Remove(channel: Chan)
      requires Valid() && channel in Live()
      modifies this
      ensures Valid() && Live() == old(Live()) - multiset{channel}
    {
      hide Deleted;
      var index := Find(inbox, channel);
      if index != -1 {
        DeleteOne(inbox, index);
        inbox := Deleted(inbox, index);
        return;
      }
      var at := Find(sendCases, channel);
      assert sendCases == [sendCases[0]] + sendCases[1..];
      DeleteCase(sendCases, at);
      sendCases := Deleted(sendCases, at);
    }

    /**
    Sends a value. Which channels are ready, which of the requested unsubscriptions get through and how
    many of the `arriving` subscriptions come in the meantime is up to the surroundings. `log` lists the
    channels the value was written to; `early` and `late` are the subscriptions that ended before and
    after they received it.
    */
    method Send(requests: multiset<Chan>, arriving: seq<Chan>)
      returns (nsent: nat, log: seq<Chan>, ghost early: multiset<Chan>, ghost late: multiset<Chan>, arrived: nat)
      requires Valid() && requests <= Live() && REMOVE_SUB !in arriving
      modifies this
      ensures Valid() && nsent == |log|
      ensures old(Live()) == multiset(sendCases[1..]) + early + late && early + late <= requests
      ensures multiset(log) == multiset(sendCases[1..]) + late
      ensures arrived <= |arriving| && Live() + early + late == old(Live()) + multiset(arriving[..arrived])
      ensures requests == multiset{} && arriving == [] ==> Live() == old(Live())
      ensures inbox == arriving[..arrived]
      ensures old(Live()) - requests <= multiset(log) <= old(Live())
      ensures requests == multiset{} ==> multiset(log) == multiset(sendCases[1..]) == old(Live())
    {
      hide Sending;
      SendingStart(sendCases, inbox);
      sendCases := sendCases + inbox;
      inbox := [];
      ghost var all := multiset(sendCases[1..]);
      early, late := multiset{}, multiset{};
      nsent, log := 0, [];
      arrived := 0;
      var open := requests;
      var active: nat := |sendCases|;
      while true
        invariant arrived <= |arriving| && inbox == arriving[..arrived]
        invariant Sending(sendCases, active, all, multiset(log), early, late) && nsent == |log| && Valid()
        invariant 1 <= active <= |sendCases| && open <= multiset(sendCases[1..]) && early + late + open == requests
        decreases |sendCases| + active
      {
        arrived := Arrive(arriving, arrived);
        nsent, active, log := TrySends(nsent, active, log, all, early, late);
        if active == 1 {
          break;
        }
        nsent, active, log, open, early, late := Select(nsent, active, log, open, all, early, late, requests);
      }
      SendingEnd(sendCases, all, multiset(log), early, late);
      Received(all, multiset(sendCases[1..]), multiset(log), early, late, open, requests);
    }

    /** Any run of sends. A request counts as far as there is such a subscription when its round begins. */
    method SendAll(rounds: seq<Round>) returns (logs: seq<seq<Chan>>, ghost lives: seq<multiset<Chan>>)
      requires Valid() && forall i :: 0 <= i < |rounds| ==> REMOVE_SUB !in rounds[i].arriving
      modifies this
      ensures Valid() && |logs| == |rounds| && |lives| == |rounds| + 1 && lives[0] == old(Live()) && lives[|rounds|] == Live()
      ensures forall i :: 0 <= i < |rounds| ==> Delivered(lives[i], rounds[i], logs[i], lives[i + 1])
    {
      hide Delivered;
      logs, lives := [], [Live()];
      for i := 0 to |rounds|
        invariant Valid() && |logs| == i && |lives| == i + 1 && lives[0] == old(Live()) && lives[i] == Live()
        invariant forall j :: 0 <= j < i ==> Delivered(lives[j], rounds[j], logs[j], lives[j + 1])
      {
        ghost var live := Live();
        var nsent, log, arrived;
        ghost var early, late;
        nsent, log, early, late, arrived :=
          Send(rounds[i].requests * (multiset(sendCases[1..]) + multiset(inbox)), rounds[i].arriving);
        DeliveredBy(live, rounds[i], log, multiset(sendCases[1..]), Live(), early, late, arrived);
        logs, lives := logs + [log], lives + [Live()];
      }
    }

    /** Some of the arriving subscriptions come in; they only reach the inbox. */
    method Arrive(arriving: seq<Chan>, arrived0: nat) returns (arrived: nat)
      requires Valid() && REMOVE_SUB !in arriving && arrived0 <= |arriving| && inbox == arriving[..arrived0]
      modifies this`inbox
      ensures Valid() && arrived0 <= arrived <= |arriving| && inbox == arriving[..arrived]
    {
      arrived := arrived0;
      var more: bool := *;
      while more && arrived < |arriving|
        invariant Valid() && arrived0 <= arrived <= |arriving| && inbox == arriving[..arrived]
        decreases |arriving| - arrived
      {
        Subscribe(arriving[arrived]);
        arrived := arrived + 1;
        more := *;
      }
    }

    /** Waits for a channel to be ready or for a subscription to end. */
    method Select(nsent0: nat, active0: nat, log0: seq<Chan>, open0: multiset<Chan>, ghost all: multiset<Chan>,
                  ghost early0: multiset<Chan>, ghost late0: multiset<Chan>, ghost requests: multiset<Chan>)
      returns (nsent: nat, active: nat, log: seq<Chan>, open: multiset<Chan>, ghost early: multiset<Chan>, ghost late: multiset<Chan>)
      requires Valid() && Sending(sendCases, active0, all, multiset(log0), early0, late0) && nsent0 == |log0|
      requires 1 < active0 <= |sendCases| && open0 <= multiset(sendCases[1..]) && early0 + late0 + open0 == requests
      modifies this`sendCases
      ensures Valid() && Sending(sendCases, active, all, multiset(log), early, late) && nsent == |log|
      ensures 1 <= active <= |sendCases| && open <= multiset(sendCases[1..]) && early + late + open == requests
      ensures |sendCases| + active < |old(sendCases)| + active0
    {
      hide Sending;
      nsent, active, log, open, early, late := nsent0, active0, log0, open0, early0, late0;
      assert 1 < active;
      var chosen: nat :| chosen < active && (open == multiset{} ==> chosen != 0);
      if chosen == 0 {
        var recv :| recv in open;
        assert recv in multiset(sendCases[1..]);
        active, early, late := RemoveWhileSending(recv, active, all, multiset(log), early, late);
        open := open - multiset{recv};
        Closed(open0, recv, multiset(old(sendCases)[1..]), multiset(sendCases[1..]), early0, late0, early, late, requests);
      } else {
        log := Deliver(chosen, active, log, all, early, late);
        nsent, active := nsent + 1, active - 1;
      }
    }

    /** The fast path: tries every waiting channel once, without blocking. */
    method TrySends(nsent0: nat, active0: nat, log0: seq<Chan>, ghost all: multiset<Chan>, ghost early: multiset<Chan>, ghost late: multiset<Chan>)
      returns (nsent: nat, active: nat, log: seq<Chan>)
      requires Valid() && Sending(sendCases, active0, all, multiset(log0), early, late) && nsent0 == |log0|
      modifies this`sendCases
      ensures Valid() && Sending(sendCases, active, all, multiset(log), early, late) && nsent == |log|
      ensures 1 <= active <= active0 <= |sendCases| == |old(sendCases)| && multiset(sendCases[1..]) == multiset(old(sendCases)[1..])
    {
      hide Sending;
      nsent, active, log := nsent0, active0, log0;
      assert 1 <= active <= |sendCases| by { SendingBounds(sendCases, active, all, multiset(log), early, late); }
      var i := 1;
      while i < active
        invariant Valid() && Sending(sendCases, active, all, multiset(log), early, late) && nsent == |log|
        invariant 1 <= active <= active0 <= |sendCases| == |old(sendCases)| && 1 <= i
        invariant multiset(sendCases[1..]) == multiset(old(sendCases)[1..])
        decreases active - i
      {
        var ready: bool := *;
        if ready {
          log := Deliver(i, active, log, all, early, late);
          nsent, active := nsent + 1, active - 1;
        } else {
          i := i + 1;
        }
      }
    }

    /** The value goes to the channel of a waiting case. */
    method Deliver(index: nat, active: nat, log0: seq<Chan>, ghost all: multiset<Chan>, ghost early: multiset<Chan>, ghost late: multiset<Chan>)
      returns (log: seq<Chan>)
      requires Valid() && Sending(sendCases, active, all, multiset(log0), early, late) && 1 <= index < active
      modifies this`sendCases
      ensures Valid() && Sending(sendCases, active - 1, all, multiset(log), early, late) && log == log0 + [old(sendCases)[index]]
      ensures |sendCases| == |old(sendCases)| && multiset(sendCases[1..]) == multiset(old(sendCases)[1..])
    {
      hide Deactivated, Waiting, Served;
      DeactivateMoves(sendCases, active, index);
      log := log0 + [sendCases[index]];
      sendCases := Deactivated(sendCases, active, index);
    }

    /** A subscription ends during the send: its case goes, whether it has been served or not. */
    method RemoveWhileSending(channel: Chan, active0: nat, ghost all: multiset<Chan>, ghost delivered: multiset<Chan>,
                              ghost early0: multiset<Chan>, ghost late0: multiset<Chan>)
      returns (active: nat, ghost early: multiset<Chan>, ghost late: multiset<Chan>)
      requires Valid() && Sending(sendCases, active0, all, delivered, early0, late0) && channel in sendCases[1..]
      modifies this`sendCases
      ensures Valid() && Sending(sendCases, active, all, delivered, early, late)
      ensures |sendCases| == |old(sendCases)| - 1 && 1 <= active <= active0 && active <= |sendCases|
      ensures multiset(sendCases[1..]) == multiset(old(sendCases)[1..]) - multiset{channel} && early + late == early0 + late0 + multiset{channel}
    {
      hide Deleted, Waiting, Served;
      active, early, late := active0, early0, late0;
      var index := Find(sendCases, channel);
      assert sendCases == [sendCases[0]] + sendCases[1..];
      DeleteCase(sendCases, index);
      if index < active {
        DeleteWaiting(sendCases, active, index);
        active := active - 1;
        early := early + multiset{channel};
      } else {
        DeleteServed(sendCases, active, index);
        late := late + multiset{channel};
      }
      sendCases := Deleted(sendCases, index);
    }
  }

  /** One send of a run: which subscriptions are asked to end during it, and which arrive. */
  datatype Round = Round(requests: multiset<Chan>, arriving: seq<Chan>)

  /** What a round does: the live subscriptions before and after it, and where its value went. */
  ghost predicate Delivered(live: multiset<Chan>, round: Round, log: seq<Chan>, live': multiset<Chan>) {
    exists early: multiset<Chan>, late: multiset<Chan>, arrived: nat :: DeliveredWith(live, round, log, live', early, late, arrived)
  }

  /** Every subscription ended before it, after it or not at all, and received the value once in the last two cases. */
  ghost predicate DeliveredWith(live: multiset<Chan>, round: Round, log: seq<Chan>, live': multiset<Chan>,
                                early: multiset<Chan>, late: multiset<Chan>, arrived: nat)
  {
    && early + late <= round.requests * live && arrived <= |round.arriving|
    && multiset(log) + early == live && live' + early + late == live + multiset(round.arriving[..arrived])
  }

  /** A channel that nobody asks to end or to subscribe keeps its subscriptions, and receives the value once for each. */
  lemma Untouched(live: multiset<Chan>, round: Round, log: seq<Chan>, live': multiset<Chan>, c: Chan)
    requires Delivered(live, round, log, live') && round.requests[c] == 0 && c !in round.arriving
    ensures multiset(log)[c] == live[c] == live'[c]
  {
    var early: multiset<Chan>, late: multiset<Chan>, arrived: nat :| DeliveredWith(live, round, log, live', early, late, arrived);
    assert early[c] == 0 && late[c] == 0 by {
      assert (early + late)[c] <= (round.requests * live)[c];
    }
    assert (multiset(log) + early)[c] == live[c];
    assert (live' + early + late)[c] == (live + multiset(round.arriving[..arrived]))[c];
    assert c !in multiset(round.arriving[..arrived]);
  }

  /** Over consecutive sends, subscriptions nobody touches receive every value exactly once. */
  lemma {:induction false} EveryValueOnce(rounds: seq<Round>, logs: seq<seq<Chan>>, lives: seq<multiset<Chan>>, c: Chan, k: nat)
    requires |logs| == |rounds| && |lives| == |rounds| + 1 && k <= |rounds|
    requires forall i :: 0 <= i < |rounds| ==> Delivered(lives[i], rounds[i], logs[i], lives[i + 1])
    requires forall i :: 0 <= i < |rounds| ==> rounds[i].requests[c] == 0 && c !in rounds[i].arriving
    ensures lives[k][c] == lives[0][c] && forall i :: 0 <= i < k ==> multiset(logs[i])[c] == lives[0][c]
  {
    hide Delivered;
    if k > 0 {
      EveryValueOnce(rounds, logs, lives, c, k - 1);
      Untouched(lives[k - 1], rounds[k - 1], logs[k - 1], lives[k], c);
    }
  }

  lemma DeliveredBy(live: multiset<Chan>, round: Round, log: seq<Chan>, cases: multiset<Chan>, live': multiset<Chan>,
                    early: multiset<Chan>, late: multiset<Chan>, arrived: nat)
    requires live == cases + early + late && early + late <= round.requests * live && multiset(log) == cases + late
    requires arrived <= |round.arriving| && live' == cases + multiset(round.arriving[..arrived])
    ensures Delivered(live, round, log, live')
  {
    assert DeliveredWith(live, round, log, live', early, late, arrived);
  }

  /**
  A send in progress: every subscription of the start is waiting, served or ended, and the value
  has been delivered to exactly the served ones and to those that ended after it.
  */
  ghost predicate Sending(cases: seq<Chan>, active: nat, all: multiset<Chan>, delivered: multiset<Chan>,
                          early: multiset<Chan>, late: multiset<Chan>)
  {
    && 1 <= active <= |cases|
    && all == Waiting(cases, active) + Served(cases, active) + early + late
    && delivered == Served(cases, active) + late
  }

  lemma SendingBounds(cases: seq<Chan>, active: nat, all: multiset<Chan>, delivered: multiset<Chan>,
                      early: multiset<Chan>, late: multiset<Chan>)
    requires Sending(cases, active, all, delivered, early, late)
    ensures 1 <= active <= |cases|
  {
  }

  lemma SendingStart(cases: seq<Chan>, inbox: seq<Chan>)
    requires |cases| >= 1
    ensures var cases' := cases + inbox;
      && multiset(cases'[1..]) == multiset(cases[1..]) + multiset(inbox)
      && Sending(cases', |cases'|, multiset(cases'[1..]), multiset{}, multiset{}, multiset{})
      && forall c :: c in cases'[1..] ==> c in cases[1..] || c in inbox
  {
    var cases' := cases + inbox;
    assert cases'[1..] == cases[1..] + inbox;
    assert cases'[1..|cases'|] == cases'[1..];
    assert cases'[|cases'|..] == [];
  }

  lemma SendingEnd(cases: seq<Chan>, all: multiset<Chan>, delivered: multiset<Chan>, early: multiset<Chan>, late: multiset<Chan>)
    requires Sending(cases, 1, all, delivered, early, late)
    ensures all == multiset(cases[1..]) + early + late && delivered == multiset(cases[1..]) + late
  {
    assert cases[1..1] == [];
  }

  lemma Closed(open: multiset<Chan>, c: Chan, cases: multiset<Chan>, cases': multiset<Chan>,
               early: multiset<Chan>, late: multiset<Chan>, early': multiset<Chan>, late': multiset<Chan>, requests: multiset<Chan>)
    requires c in open && open <= cases && cases' == cases - multiset{c}
    requires early + late + open == requests && early' + late' == early + late + multiset{c}
    ensures open - multiset{c} <= cases' && early' + late' + (open - multiset{c}) == requests
  {
    assert open == (open - multiset{c}) + multiset{c};
  }

  lemma Received(all: multiset<Chan>, cases: multiset<Chan>, log: multiset<Chan>, early: multiset<Chan>, late: multiset<Chan>,
                 open: multiset<Chan>, requests: multiset<Chan>)
    requires all == cases + early + late && log == cases + late && early + late + open == requests
    ensures early + late <= requests && all - requests <= log <= all
    ensures requests == multiset{} ==> log == cases == all
  {
    if requests == multiset{} {
      assert |early| + |late| + |open| == |early + late + open| == 0;
      assert early == multiset{} && late == multiset{};
    }
  }
}
