/** Finite integer sums over maps and sequences, used to state that totals are conserved. */
module Sums {

  /** The sum of f over the values of m; the choice of key does not matter (MapSumRemove). */
  ghost function MapSum<K(!new), V(!new)>(m: map<K, V>, f: V -> int): int
    decreases |m|
  {
    if m == map[] then 0
    else
      var k :| k in m;
      assert |m - {k}| < |m| by { MapMinusSize(m, k); }
      f(m[k]) + MapSum(m - {k}, f)
  }

  lemma MapMinusSize<K(!new), V(!new)>(m: map<K, V>, k: K)
    requires k in m
    ensures |m - {k}| == |m| - 1
  {
    assert (m - {k}).Keys == m.Keys - {k};
    assert |(m - {k}).Keys| == |m - {k}|;
  }

  lemma {:induction false} MapSumRemove<K(!new), V(!new)>(m: map<K, V>, f: V -> int, k: K)
    requires k in m
    ensures MapSum(m, f) == f(m[k]) + MapSum(m - {k}, f)
    decreases |m|
  {
    var k0 :| k0 in m && MapSum(m, f) == f(m[k0]) + MapSum(m - {k0}, f);
    if k0 != k {
      MapMinusSize(m, k0);
      MapMinusSize(m, k);
      assert m - {k0} - {k} == m - {k} - {k0};
      MapSumRemove(m - {k0}, f, k);
      MapSumRemove(m - {k}, f, k0);
    }
  }

  lemma MapSumUpdate<K(!new), V(!new)>(m: map<K, V>, f: V -> int, k: K, v: V)
    ensures MapSum(m[k := v], f) == MapSum(m, f) + f(v) - if k in m then f(m[k]) else 0
  {
    MapSumRemove(m[k := v], f, k);
    if k in m {
      MapSumRemove(m, f, k);
      assert m[k := v] - {k} == m - {k};
    } else {
      assert m[k := v] - {k} == m;
    }
  }

  /** A sum of non-negative values is non-negative and at least each of them. */
  lemma {:induction false} MapSumNonNegative<K(!new), V(!new)>(m: map<K, V>, f: V -> int)
    requires forall k :: k in m ==> 0 <= f(m[k])
    ensures 0 <= MapSum(m, f)
    ensures forall k :: k in m ==> f(m[k]) <= MapSum(m, f)
    decreases |m|
  {
    forall k | k in m
      ensures 0 <= MapSum(m, f) && f(m[k]) <= MapSum(m, f)
    {
      MapMinusSize(m, k);
      MapSumRemove(m, f, k);
      MapSumNonNegative(m - {k}, f);
    }
  }

  /** Extra keys worth nothing do not change a sum. */
  lemma {:induction false} MapSumPad<K(!new), V(!new)>(a: map<K, V>, b: map<K, V>, f: V -> int)
    requires a.Keys <= b.Keys
    requires forall x :: x in a ==> f(b[x]) == f(a[x])
    requires forall x :: x in b && x !in a ==> f(b[x]) == 0
    ensures MapSum(b, f) == MapSum(a, f)
    decreases |b|
  {
    if b == map[] {
      assert a == b;
    } else {
      var x :| x in b;
      MapMinusSize(b, x);
      MapSumRemove(b, f, x);
      if x in a {
        MapSumRemove(a, f, x);
        MapSumPad(a - {x}, b - {x}, f);
      } else {
        MapSumPad(a, b - {x}, f);
      }
    }
  }

  function SeqSum<T>(s: seq<T>, f: T -> int): int {
    if s == [] then 0 else SeqSum(s[..|s| - 1], f) + f(s[|s| - 1])
  }

  lemma SeqSumLast<T(!new)>(s: seq<T>, x: T, f: T -> int)
    ensures SeqSum(s + [x], f) == SeqSum(s, f) + f(x)
  {
    assert (s + [x])[..|s|] == s;
  }

  lemma {:induction false} SeqSumConcat<T>(s: seq<T>, t: seq<T>, f: T -> int)
    ensures SeqSum(s + t, f) == SeqSum(s, f) + SeqSum(t, f)
  {
    if t == [] {
      assert s + t == s;
    } else {
      assert (s + t)[..|s + t| - 1] == s + t[..|t| - 1];
      SeqSumConcat(s, t[..|t| - 1], f);
    }
  }

  /** A sum does not depend on the order of its terms. */
  lemma {:induction false} SeqSumPermute<T(!new)>(s: seq<T>, t: seq<T>, f: T -> int)
    requires multiset(s) == multiset(t)
    ensures SeqSum(s, f) == SeqSum(t, f)
    decreases |s|
  {
    if s == [] {
      assert |multiset(t)| == 0;
    } else {
      var x, s' := s[|s| - 1], s[..|s| - 1];
      assert s == s' + [x];
      assert x in multiset(s);
      var i :| 0 <= i < |t| && t[i] == x;
      var a, b := t[..i], t[i + 1..];
      assert t == a + [x] + b;
      WithoutOne(s', x, a, b);
      SeqSumPermute(s', a + b, f);
      SeqSumTakeOut(a, x, b, f);
    }
  }

  lemma WithoutOne<T(!new)>(s: seq<T>, x: T, a: seq<T>, b: seq<T>)
    requires multiset(s + [x]) == multiset(a + [x] + b)
    ensures multiset(s) == multiset(a + b)
  {
    assert multiset(s + [x]) == multiset(s) + multiset{x};
    assert multiset(a + [x] + b) == multiset(a) + multiset{x} + multiset(b);
    assert multiset(a + b) == multiset(a) + multiset(b);
    assert multiset(s) == multiset(s) + multiset{x} - multiset{x};
  }

  lemma SeqSumTakeOut<T(!new)>(a: seq<T>, x: T, b: seq<T>, f: T -> int)
    ensures SeqSum(a + [x] + b, f) == SeqSum(a + b, f) + f(x)
  {
    SeqSumConcat(a, b, f);
    SeqSumConcat(a + [x], b, f);
    assert (a + [x])[..|a|] == a;
  }

  /** Terms that agree one by one add up to the same. */
  lemma {:induction false} SeqSumMapped<A(!new), B(!new)>(s: seq<A>, t: seq<B>, f: A -> int, g: B -> int)
    requires |s| == |t| && forall i :: 0 <= i < |s| ==> f(s[i]) == g(t[i])
    ensures SeqSum(s, f) == SeqSum(t, g)
    decreases |s|
  {
    if s != [] {
      SeqSumMapped(s[..|s| - 1], t[..|t| - 1], f, g);
    }
  }

  /** All terms but one are nothing. */
  lemma SeqSumOnly<T(!new)>(s: seq<T>, i: nat, f: T -> int)
    requires i < |s| && forall j :: 0 <= j < |s| && j != i ==> f(s[j]) == 0
    ensures SeqSum(s, f) == f(s[i])
  {
    var a, b := s[..i], s[i + 1..];
    assert s == a + [s[i]] + b;
    SeqSumTakeOut(a, s[i], b, f);
    SeqSumConcat(a, b, f);
    SeqSumZero(a, f);
    SeqSumZero(b, f);
  }

  lemma {:induction false} SeqSumZero<T(!new)>(s: seq<T>, f: T -> int)
    requires forall i :: 0 <= i < |s| ==> f(s[i]) == 0
    ensures SeqSum(s, f) == 0
    decreases |s|
  {
    if s != [] {
      SeqSumZero(s[..|s| - 1], f);
    }
  }
}
