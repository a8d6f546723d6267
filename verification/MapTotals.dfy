/** Sums over the rows of a table that match a condition. */
module MapTotals {
  ghost function Total<K(!new), V>(m: map<K, V>, p: K -> bool, v: V -> nat): nat
    decreases |m|
  {
    if m.Keys == {} then 0
    else
      var k :| k in m.Keys;
      Share(m, p, v, k) + Total(m - {k}, p, v)
  }

  function Share<K, V>(m: map<K, V>, p: K -> bool, v: V -> nat, k: K): nat {
    if k in m && p(k) then v(m[k]) else 0
  }

  lemma TotalFirst<K(!new), V>(m: map<K, V>, p: K -> bool, v: V -> nat) returns (first: K)
    requires m.Keys != {}
    ensures first in m && Total(m, p, v) == Share(m, p, v, first) + Total(m - {first}, p, v)
  {
    first :| first in m.Keys && Total(m, p, v) == Share(m, p, v, first) + Total(m - {first}, p, v);
  }

  lemma {:induction false} TotalWithout<K(!new), V>(m: map<K, V>, p: K -> bool, v: V -> nat, k: K)
    ensures Total(m, p, v) == Share(m, p, v, k) + Total(m - {k}, p, v)
    decreases |m|
  {
    hide Total;
    if k !in m {
      assert m - {k} == m;
    } else {
      var first := TotalFirst(m, p, v);
      if first != k {
        TotalWithout(m - {first}, p, v, k);
        TotalWithout(m - {k}, p, v, first);
        RemoveBoth(m, first, k);
      }
    }
  }

  lemma RemoveBoth<K, V>(m: map<K, V>, a: K, b: K)
    ensures m - {a} - {b} == m - {b} - {a}
  {}

  /** Changing one row changes the total by that row's share. */
  lemma TotalUpdate<K(!new), V>(m: map<K, V>, p: K -> bool, v: V -> nat, k: K, x: V)
    ensures Total(m[k := x], p, v) + Share(m, p, v, k) == Total(m, p, v) + if p(k) then v(x) else 0
  {
    TotalWithout(m, p, v, k);
    TotalWithout(m[k := x], p, v, k);
    assert m[k := x] - {k} == m - {k};
  }

  lemma TotalEmpty<K(!new), V>(p: K -> bool, v: V -> nat)
    ensures Total(map[], p, v) == 0
  {}

  function SumOf(s: seq<nat>): nat { if s == [] then 0 else s[0] + SumOf(s[1..]) }

  lemma {:induction false} SumOfUpdate(s: seq<nat>, i: nat, x: nat)
    requires i < |s|
    ensures SumOf(s[i := x]) + s[i] == SumOf(s) + x
  {
    if i == 0 {
      assert s[i := x][1..] == s[1..];
    } else {
      SumOfUpdate(s[1..], i - 1, x);
      assert s[i := x][1..] == s[1..][i - 1 := x];
    }
  }

  lemma {:induction false} SumOfZeros(n: nat)
    ensures SumOf(seq(n, _ => 0)) == 0
  {
    if n > 0 {
      SumOfZeros(n - 1);
      assert seq(n, _ => 0)[1..] == seq(n - 1, _ => 0);
    }
  }
}
