/** Sums over the entries of a finite map. */
module Sums {

  type Table = map<nat, nat>

  /** An entry; an absent one counts as zero. */
  function Get(m: Table, a: nat): nat {
    if a in m then m[a] else 0
  }

  ghost function SumOver(m: Table, keys: set<nat>): nat
    decreases |keys|
  {
    if keys == {} then 0
    else
      var a :| a in keys;
      Get(m, a) + SumOver(m, keys - {a})
  }

  ghost function Sum(m: Table): nat {
    SumOver(m, m.Keys)
  }

  lemma {:induction false} SumSplit(m: Table, keys: set<nat>, a: nat)
    requires a in keys
    ensures SumOver(m, keys) == Get(m, a) + SumOver(m, keys - {a})
    decreases |keys|
  {
    var b :| b in keys && SumOver(m, keys) == Get(m, b) + SumOver(m, keys - {b});
    if a != b {
      SumSplit(m, keys - {b}, a);
      SumSplit(m, keys - {a}, b);
      assert keys - {b} - {a} == keys - {a} - {b};
    }
  }

  lemma {:induction false} SumLe(m: Table, m': Table, keys: set<nat>)
    requires forall a :: a in keys ==> Get(m, a) <= Get(m', a)
    ensures SumOver(m, keys) <= SumOver(m', keys)
    decreases |keys|
  {
    if keys != {} {
      var a :| a in keys;
      SumSplit(m, keys, a);
      SumSplit(m', keys, a);
      SumLe(m, m', keys - {a});
    }
  }

  lemma SumSame(m: Table, m': Table, keys: set<nat>)
    requires forall a :: a in keys ==> Get(m, a) == Get(m', a)
    ensures SumOver(m, keys) == SumOver(m', keys)
  {
    SumLe(m, m', keys);
    SumLe(m', m, keys);
  }

  /** Keys without weight do not matter. */
  lemma {:induction false} SumWider(m: Table, keys: set<nat>, wider: set<nat>)
    requires keys <= wider && forall a :: a in wider && a !in keys ==> Get(m, a) == 0
    ensures SumOver(m, wider) == SumOver(m, keys)
    decreases |wider|
  {
    if a :| a in wider && a !in keys {
      SumSplit(m, wider, a);
      SumWider(m, keys, wider - {a});
    } else {
      assert wider == keys;
    }
  }

  lemma {:induction false} SumUnion(m: Table, a: set<nat>, b: set<nat>)
    requires a !! b
    ensures SumOver(m, a + b) == SumOver(m, a) + SumOver(m, b)
    decreases |a|
  {
    if a == {} {
      assert a + b == b;
    } else {
      var x :| x in a;
      SumSplit(m, a + b, x);
      SumSplit(m, a, x);
      assert a + b - {x} == (a - {x}) + b;
      SumUnion(m, a - {x}, b);
    }
  }

  lemma SumPut(m: Table, a: nat, x: nat)
    ensures Sum(m[a := x]) + Get(m, a) == Sum(m) + x
  {
    var m', others := m[a := x], m.Keys - {a};
    assert m'.Keys - {a} == others;
    SumSplit(m', m'.Keys, a);
    SumSame(m, m', others);
    if a in m {
      SumSplit(m, m.Keys, a);
    } else {
      assert others == m.Keys;
    }
  }

  /** Two tables with the same entries, up to zeros, have the same sum. */
  lemma SumEqual(m: Table, m': Table)
    requires forall a: nat :: Get(m, a) == Get(m', a)
    ensures Sum(m) == Sum(m')
  {
    var keys := m.Keys + m'.Keys;
    SumWider(m, m.Keys, keys);
    SumWider(m', m'.Keys, keys);
    SumSame(m, m', keys);
  }

  lemma {:induction false} SumPositive(m: Table, keys: set<nat>)
    requires SumOver(m, keys) > 0
    ensures exists a :: a in keys && Get(m, a) > 0
    decreases |keys|
  {
    var a :| a in keys;
    SumSplit(m, keys, a);
    if Get(m, a) == 0 {
      SumPositive(m, keys - {a});
      var b :| b in keys - {a} && Get(m, b) > 0;
      assert b in keys && Get(m, b) > 0;
    }
  }
}
