/**
The chances of the weighted selection when its random numbers are uniform and independent: an item
is chosen in proportion to the smaller of its stored and its current weight, whatever the retries.
*/
module WeightedChances {
  import opened WeightedLists
  import opened WeightedSelect

  /** What counts of a slot: the smaller of the stored and the current weight. */
  ghost function Counted(s: Slot, weightOf: Item -> nat): (n: nat)
    ensures n <= WeightOf(s)
  {
    if s.Free? then 0 else if weightOf(s.item) < s.weight then weightOf(s.item) else s.weight
  }

  ghost function CountedSum(flat: seq<Slot>, weightOf: Item -> nat): (n: nat)
    ensures n <= Sum(flat)
  {
    if flat == [] then 0 else Counted(flat[0], weightOf) + CountedSum(flat[1..], weightOf)
  }

  /** The chance that a draw from the list ends with slot `i`: the mean over the values that pick a slot. */
  ghost function Chance(flat: seq<Slot>, weightOf: Item -> nat, i: nat): real
    decreases Sum(flat), 3, 0
  {
    if Sum(flat) == 0 then 0.0 else OverValues(flat, weightOf, i, Sum(flat)) / Sum(flat) as real
  }

  /** The sum over the first `n` values of the mean over the values of the second random number. */
  ghost function OverValues(flat: seq<Slot>, weightOf: Item -> nat, i: nat, n: nat): real
    requires n <= Sum(flat)
    decreases Sum(flat), 2, n
  {
    if n == 0 then 0.0
    else
      OverValues(flat, weightOf, i, n - 1) + Mean(flat, weightOf, i, Pick(flat, n - 1))
  }

  ghost function Mean(flat: seq<Slot>, weightOf: Item -> nat, i: nat, j: nat): real
    requires j < |flat| && flat[j].Taken?
    decreases Sum(flat), 1, flat[j].weight + 1
  {
    if flat[j].weight == 0 then 0.0 else OverTries(flat, weightOf, i, j, flat[j].weight) / flat[j].weight as real
  }

  /** The sum over the first `m` values of the second random number when slot `j` was picked. */
  ghost function OverTries(flat: seq<Slot>, weightOf: Item -> nat, i: nat, j: nat, m: nat): real
    requires j < |flat| && flat[j].Taken? && m <= flat[j].weight
    decreases Sum(flat), 1, m
  {
    if m == 0 then 0.0
    else
      var weight := weightOf(flat[j].item);
      OverTries(flat, weightOf, i, j, m - 1) +
      if Settles(weight, flat[j].weight, m - 1) then (if i == j then 1.0 else 0.0)
      else
        SumUpdate(flat, j, Reweighed(flat[j], weight));
        Chance(Refreshed(flat, j, weightOf), weightOf, i)
  }

  lemma {:induction false} CountedConcat(a: seq<Slot>, b: seq<Slot>, weightOf: Item -> nat)
    ensures CountedSum(a + b, weightOf) == CountedSum(a, weightOf) + CountedSum(b, weightOf)
  {
    if a == [] {
      assert a + b == b;
    } else {
      assert (a + b)[1..] == a[1..] + b;
      CountedConcat(a[1..], b, weightOf);
    }
  }

  /** Prefix sums one slot further. */
  lemma NextSlot(flat: seq<Slot>, weightOf: Item -> nat, j: nat)
    requires j < |flat|
    ensures Sum(flat[..j + 1]) == Sum(flat[..j]) + WeightOf(flat[j]) <= Sum(flat)
    ensures CountedSum(flat[..j + 1], weightOf) == CountedSum(flat[..j], weightOf) + Counted(flat[j], weightOf)
  {
    assert flat[..j + 1] == flat[..j] + [flat[j]];
    SumConcat(flat[..j], [flat[j]]);
    CountedConcat(flat[..j], [flat[j]], weightOf);
    PrefixGrows(flat, j + 1, |flat|);
  }

  /** A retry leaves what counts of every slot as it was. */
  lemma RetryCounts(flat: seq<Slot>, weightOf: Item -> nat, j: nat)
    requires j < |flat| && flat[j].Taken? && weightOf(flat[j].item) < flat[j].weight
    ensures var flat' := Refreshed(flat, j, weightOf);
      && |flat'| == |flat| && Sum(flat') < Sum(flat) && CountedSum(flat', weightOf) == CountedSum(flat, weightOf)
      && forall k :: 0 <= k < |flat| ==> Counted(flat'[k], weightOf) == Counted(flat[k], weightOf)
  {
    hide Sum, CountedSum;
    var x := Reweighed(flat[j], weightOf(flat[j].item));
    SumUpdate(flat, j, x);
    CountedUpdate(flat, weightOf, j, x);
  }

  lemma {:induction false} CountedUpdate(s: seq<Slot>, weightOf: Item -> nat, i: nat, x: Slot)
    requires i < |s|
    ensures CountedSum(s[i := x], weightOf) == CountedSum(s, weightOf) - Counted(s[i], weightOf) + Counted(x, weightOf)
  {
    if i > 0 {
      assert s[i := x][1..] == s[1..][i - 1 := x];
      CountedUpdate(s[1..], weightOf, i - 1, x);
    }
  }

  ghost function Hit(i: nat, j: nat): real {
    if i == j then 1.0 else 0.0
  }

  /** Of the values of the second random number, as many settle as count; the others retry. */
  lemma {:induction false} TriesAre(flat: seq<Slot>, weightOf: Item -> nat, i: nat, j: nat, m: nat, retry: real)
    requires j < |flat| && flat[j].Taken? && m <= flat[j].weight
    requires weightOf(flat[j].item) < flat[j].weight ==> retry == Chance(Refreshed(flat, j, weightOf), weightOf, i)
    ensures var c := Counted(flat[j], weightOf);
      OverTries(flat, weightOf, i, j, m) == if m <= c then m as real * Hit(i, j) else c as real * Hit(i, j) + (m - c) as real * retry
    decreases m
  {
    if m > 0 {
      TriesAre(flat, weightOf, i, j, m - 1, retry);
    }
  }

  lemma AllTries(flat: seq<Slot>, weightOf: Item -> nat, i: nat, j: nat, retry: real) returns (c: real, rest: real)
    requires j < |flat| && flat[j].Taken?
    requires weightOf(flat[j].item) < flat[j].weight ==> retry == Chance(Refreshed(flat, j, weightOf), weightOf, i)
    ensures c == Counted(flat[j], weightOf) as real && rest == WeightOf(flat[j]) as real - c
    ensures OverTries(flat, weightOf, i, j, flat[j].weight) == c * Hit(i, j) + rest * retry
    ensures rest == 0.0 || weightOf(flat[j].item) < flat[j].weight
  {
    hide OverTries, Chance, Hit;
    TriesAre(flat, weightOf, i, j, flat[j].weight, retry);
    c := Counted(flat[j], weightOf) as real;
    rest := (flat[j].weight - Counted(flat[j], weightOf)) as real;
    if rest == 0.0 {
      assert rest * retry == 0.0;
    }
  }

  /** The share of one slot's values, times all that counts. */
  lemma ShareOf(flat: seq<Slot>, weightOf: Item -> nat, i: nat, j: nat, all: real, own: real) returns (c: real, rest: real)
    requires i < |flat| && j < |flat| && flat[j].Taken?
    requires weightOf(flat[j].item) < flat[j].weight ==> Chance(Refreshed(flat, j, weightOf), weightOf, i) * all == own
    ensures c == Counted(flat[j], weightOf) as real && rest == WeightOf(flat[j]) as real - c
    ensures OverTries(flat, weightOf, i, j, flat[j].weight) * all == c * Hit(i, j) * all + rest * own
  {
    hide OverTries, Chance, Hit, Counted, Refreshed;
    var retry := if weightOf(flat[j].item) < flat[j].weight then Chance(Refreshed(flat, j, weightOf), weightOf, i) else 0.0;
    c, rest := AllTries(flat, weightOf, i, j, retry);
    ShareSum(c, Hit(i, j), rest, retry, all, own, OverTries(flat, weightOf, i, j, flat[j].weight));
  }

  lemma ShareSum(c: real, hit: real, rest: real, retry: real, all: real, own: real, sum: real)
    requires sum == c * hit + rest * retry && (rest == 0.0 || retry * all == own)
    ensures sum * all == c * hit * all + rest * own
  {
    Distribute(c * hit, rest, retry, all);
  }

  lemma Distribute(a: real, b: real, x: real, all: real)
    ensures (a + b * x) * all == a * all + b * (x * all)
  {
  }

  lemma NextValue(flat: seq<Slot>, weightOf: Item -> nat, i: nat, j: nat, n: nat)
    requires j < |flat| && flat[j].Taken? && Sum(flat[..j]) <= n < Sum(flat[..j]) + flat[j].weight && n < Sum(flat)
    ensures OverValues(flat, weightOf, i, n + 1) == OverValues(flat, weightOf, i, n) + Mean(flat, weightOf, i, j)
  {
    hide Mean, Sum, Pick;
    PickInterval(flat, n, j);
  }

  /** The values that pick one slot contribute its mean once each. */
  lemma {:induction false} ValuesOfSlot(flat: seq<Slot>, weightOf: Item -> nat, i: nat, j: nat, n: nat, sum: real)
    requires j < |flat| && flat[j].Taken? && n <= flat[j].weight && Sum(flat[..j]) + n <= Sum(flat)
    requires sum == n as real * Mean(flat, weightOf, i, j)
    ensures OverValues(flat, weightOf, i, Sum(flat[..j]) + n) == OverValues(flat, weightOf, i, Sum(flat[..j])) + sum
    decreases n
  {
    hide Mean, Sum, OverValues;
    if n > 0 {
      var mean := Mean(flat, weightOf, i, j);
      var m := (n - 1) as real;
      var before, last := m * mean, Sum(flat[..j]) + n - 1;
      assert sum == before + mean by {
        assert n as real == m + 1.0;
        OneTimesMore(m, mean);
      }
      ValuesOfSlot(flat, weightOf, i, j, n - 1, before);
      NextValue(flat, weightOf, i, j, last);
      assert last + 1 == Sum(flat[..j]) + n && Sum(flat[..j]) + (n - 1) == last;
    } else {
      assert sum == 0.0;
    }
  }

  lemma OneTimesMore(n: real, x: real)
    ensures (n + 1.0) * x == n * x + x
  {
  }

  lemma MeanTimes(flat: seq<Slot>, weightOf: Item -> nat, i: nat, j: nat)
    requires j < |flat| && flat[j].Taken?
    ensures flat[j].weight as real * Mean(flat, weightOf, i, j) == OverTries(flat, weightOf, i, j, flat[j].weight)
  {
    var tries := OverTries(flat, weightOf, i, j, flat[j].weight);
    if flat[j].weight == 0 {
      NoTries(flat, weightOf, i, j);
    } else {
      hide OverTries;
      Cancel(flat[j].weight as real, tries);
    }
  }

  lemma WholeSlot(flat: seq<Slot>, weightOf: Item -> nat, i: nat, j: nat)
    requires j < |flat|
    ensures Sum(flat[..j]) <= Sum(flat[..j + 1]) <= Sum(flat)
    ensures OverValues(flat, weightOf, i, Sum(flat[..j + 1])) == OverValues(flat, weightOf, i, Sum(flat[..j]))
      + (if flat[j].Taken? then OverTries(flat, weightOf, i, j, flat[j].weight) else 0.0)
  {
    hide OverTries, OverValues, Sum, Mean;
    NextSlot(flat, weightOf, j);
    if flat[j].Taken? {
      MeanTimes(flat, weightOf, i, j);
      ValuesOfSlot(flat, weightOf, i, j, flat[j].weight, OverTries(flat, weightOf, i, j, flat[j].weight));
    }
  }

  lemma NoTries(flat: seq<Slot>, weightOf: Item -> nat, i: nat, j: nat)
    requires j < |flat| && flat[j].Taken?
    ensures OverTries(flat, weightOf, i, j, 0) == 0.0
  {
  }

  lemma Cancel(w: real, x: real)
    requires w > 0.0
    ensures w * (x / w) == x
  {
  }

  /** What the first `j` slots store beyond what counts of them. */
  ghost function Excess(flat: seq<Slot>, weightOf: Item -> nat, j: nat): real
    requires j <= |flat|
  {
    (Sum(flat[..j]) - CountedSum(flat[..j], weightOf)) as real
  }

  /** The slot's own part, once its values have been seen. */
  ghost function Own(i: nat, j: nat, own: real, all: real): real {
    if i < j then own * all else 0.0
  }

  lemma ExcessNext(flat: seq<Slot>, weightOf: Item -> nat, j: nat)
    requires j < |flat|
    ensures Excess(flat, weightOf, j + 1) == Excess(flat, weightOf, j) + (WeightOf(flat[j]) as real - Counted(flat[j], weightOf) as real)
  {
    NextSlot(flat, weightOf, j);
  }

  lemma OwnNext(i: nat, j: nat, own: real, all: real, c: real)
    requires i == j ==> c == own
    ensures Own(i, j + 1, own, all) == Own(i, j, own, all) + c * Hit(i, j) * all
  {
  }

  lemma ShareStep(before: real, tries: real, all: real, own: real, seen: real, rest: real, hits: real, more: real)
    requires before * all == seen + rest * own && tries * all == hits + more * own
    ensures (before + tries) * all == (seen + hits) + (rest + more) * own
  {
    AddShares(before, tries, all, rest, more, own);
  }

  lemma NothingSeen(flat: seq<Slot>, weightOf: Item -> nat, i: nat, all: real, own: real)
    ensures Sum(flat[..0]) == 0 && OverValues(flat, weightOf, i, 0) * all == Own(i, 0, own, all) + Excess(flat, weightOf, 0) * own
  {
  }

  /** After the values that pick the first `j` slots. */
  lemma {:induction false} PrefixShare(flat: seq<Slot>, weightOf: Item -> nat, i: nat, j: nat, all: real, own: real)
    requires i < |flat| && j <= |flat| && own == Counted(flat[i], weightOf) as real
    requires forall k :: 0 <= k < |flat| && flat[k].Taken? && weightOf(flat[k].item) < flat[k].weight ==>
      Chance(Refreshed(flat, k, weightOf), weightOf, i) * all == own
    ensures Sum(flat[..j]) <= Sum(flat)
    ensures OverValues(flat, weightOf, i, Sum(flat[..j])) * all == Own(i, j, own, all) + Excess(flat, weightOf, j) * own
    decreases j
  {
    hide OverTries, OverValues, Chance, Refreshed, Sum, CountedSum, Counted, Own, Excess, Hit, WeightOf;
    if j == 0 {
      NothingSeen(flat, weightOf, i, all, own);
    } else {
      var k := j - 1;
      PrefixShare(flat, weightOf, i, k, all, own);
      WholeSlot(flat, weightOf, i, k);
      ExcessNext(flat, weightOf, k);
      var before := OverValues(flat, weightOf, i, Sum(flat[..k]));
      if flat[k].Taken? {
        var c, more := ShareOf(flat, weightOf, i, k, all, own);
        OwnNext(i, k, own, all, c);
        ShareStep(before, OverTries(flat, weightOf, i, k, flat[k].weight), all, own,
                  Own(i, k, own, all), Excess(flat, weightOf, k), c * Hit(i, k) * all, more);
      } else {
        FreeCounts(flat[k], weightOf);
        OwnNext(i, k, own, all, 0.0);
      }
    }
  }

  lemma AddShares(x: real, y: real, all: real, rest: real, more: real, own: real)
    ensures (x + y) * all == x * all + y * all && (rest + more) * own == rest * own + more * own
  {
  }

  lemma FreeCounts(s: Slot, weightOf: Item -> nat)
    ensures s.Free? ==> Counted(s, weightOf) == 0 && WeightOf(s) == 0
  {
  }

  /** A slot is chosen in proportion to the smaller of its stored and its current weight. */
  lemma {:induction false} ChanceIsShare(flat: seq<Slot>, weightOf: Item -> nat, i: nat)
    requires i < |flat|
    ensures Chance(flat, weightOf, i) * CountedSum(flat, weightOf) as real == Counted(flat[i], weightOf) as real
    decreases Sum(flat)
  {
    hide OverTries, OverValues, Refreshed, Sum, CountedSum, Counted, Chance;
    NextSlot(flat, weightOf, i);
    var all, own := CountedSum(flat, weightOf) as real, Counted(flat[i], weightOf) as real;
    if Sum(flat) == 0 {
      assert own == 0.0;
      NoChance(flat, weightOf, i);
    } else {
      forall k | 0 <= k < |flat| && flat[k].Taken? && weightOf(flat[k].item) < flat[k].weight
        ensures Chance(Refreshed(flat, k, weightOf), weightOf, i) * all == own
      {
        RetryCounts(flat, weightOf, k);
        ChanceIsShare(Refreshed(flat, k, weightOf), weightOf, i);
      }
      PrefixShare(flat, weightOf, i, |flat|, all, own);
      assert flat[..|flat|] == flat;
      WholeShare(OverValues(flat, weightOf, i, Sum(flat)), Sum(flat) as real, all, own);
      MeanChance(flat, weightOf, i);
    }
  }

  lemma NoChance(flat: seq<Slot>, weightOf: Item -> nat, i: nat)
    ensures Sum(flat) == 0 ==> Chance(flat, weightOf, i) == 0.0
  {
  }

  lemma MeanChance(flat: seq<Slot>, weightOf: Item -> nat, i: nat)
    ensures Sum(flat) > 0 ==> Chance(flat, weightOf, i) == OverValues(flat, weightOf, i, Sum(flat)) / Sum(flat) as real
  {
  }

  lemma WholeShare(values: real, sum: real, all: real, own: real)
    requires sum > 0.0 && values * all == own * all + (sum - all) * own
    ensures values / sum * all == own
  {
    assert values * all == sum * own;
    assert values / sum * all == values * all / sum;
  }

  /** The current weight of a slot's item. */
  ghost function Current(s: Slot, weightOf: Item -> nat): nat {
    if s.Taken? then weightOf(s.item) else 0
  }

  ghost function CurrentSum(flat: seq<Slot>, weightOf: Item -> nat): nat {
    if flat == [] then 0 else Current(flat[0], weightOf) + CurrentSum(flat[1..], weightOf)
  }

  lemma {:induction false} NoneRisen(flat: seq<Slot>, weightOf: Item -> nat)
    requires forall k :: 0 <= k < |flat| && flat[k].Taken? ==> weightOf(flat[k].item) <= flat[k].weight
    ensures CountedSum(flat, weightOf) == CurrentSum(flat, weightOf)
  {
    if flat != [] {
      NoneRisen(flat[1..], weightOf);
    }
  }

  /** As long as no weight has risen since it was stored, the chances are proportional to the current weights. */
  lemma Proportional(flat: seq<Slot>, weightOf: Item -> nat, i: nat)
    requires i < |flat| && forall k :: 0 <= k < |flat| && flat[k].Taken? ==> weightOf(flat[k].item) <= flat[k].weight
    ensures Chance(flat, weightOf, i) * CurrentSum(flat, weightOf) as real == Current(flat[i], weightOf) as real
  {
    hide Chance, CountedSum, CurrentSum;
    ChanceIsShare(flat, weightOf, i);
    NoneRisen(flat, weightOf);
  }

  /** Of two items stored with weight one, one of which has risen to two, each is still chosen half of the time. */
  lemma RisenWeight()
    ensures var flat, weightOf := [Taken(1, 1), Taken(2, 1)], (x: Item) => if x == 1 then 2 else 1;
      Chance(flat, weightOf, 0) == 0.5 && CurrentSum(flat, weightOf) == 3 && Current(flat[0], weightOf) == 2
  {
    var flat, weightOf := [Taken(1, 1), Taken(2, 1)], (x: Item) => if x == 1 then 2 else 1;
    TwoSlots(flat[0], flat[1], weightOf);
    hide Chance, CountedSum, CurrentSum;
    ChanceIsShare(flat, weightOf, 0);
  }

  lemma TwoSlots(a: Slot, b: Slot, weightOf: Item -> nat)
    ensures CountedSum([a, b], weightOf) == Counted(a, weightOf) + Counted(b, weightOf)
    ensures CurrentSum([a, b], weightOf) == Current(a, weightOf) + Current(b, weightOf)
  {
    assert [a, b][1..] == [b] && [b][1..] == [];
    assert CountedSum([b], weightOf) == Counted(b, weightOf) && CurrentSum([b], weightOf) == Current(b, weightOf);
  }
}
