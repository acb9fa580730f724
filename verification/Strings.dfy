/** The bytewise order of strings. */
module Strings {
  predicate Le(a: string, b: string) {
    a == [] || (b != [] && (a[0] < b[0] || (a[0] == b[0] && Le(a[1..], b[1..]))))
  }

  /** a is a beginning of b, or has the smaller character where they first differ. */
  lemma {:induction false} LeIs(a: string, b: string)
    ensures Le(a, b) <==> a <= b || exists i :: 0 <= i < |a| && i < |b| && a[..i] == b[..i] && a[i] < b[i]
    decreases |a|
  {
    if a != [] && b != [] && a[0] == b[0] {
      LeIs(a[1..], b[1..]);
      assert a == [a[0]] + a[1..] && b == [b[0]] + b[1..];
      assert a <= b <==> a[1..] <= b[1..];
      if i :| 0 <= i < |a| && i < |b| && a[..i] == b[..i] && a[i] < b[i] {
        assert a[1..][..i - 1] == b[1..][..i - 1] && a[1..][i - 1] < b[1..][i - 1] by {
          assert a[1..][..i - 1] == a[..i][1..] && b[1..][..i - 1] == b[..i][1..];
        }
      }
      if i :| 0 <= i < |a[1..]| && i < |b[1..]| && a[1..][..i] == b[1..][..i] && a[1..][i] < b[1..][i] {
        assert a[..i + 1] == [a[0]] + a[1..][..i] && b[..i + 1] == [b[0]] + b[1..][..i];
        assert a[i + 1] < b[i + 1];
      }
    } else if a != [] && b != [] {
      assert a[..0] == b[..0];
    }
  }

  lemma {:induction false} LeTotal(a: string, b: string)
    ensures Le(a, b) || Le(b, a)
  {
    if a != [] && b != [] {
      LeTotal(a[1..], b[1..]);
    }
  }

  lemma {:induction false} LeTransitive(a: string, b: string, c: string)
    requires Le(a, b) && Le(b, c)
    ensures Le(a, c)
  {
    if a != [] && a[0] == b[0] && b[0] == c[0] {
      LeTransitive(a[1..], b[1..], c[1..]);
    }
  }

  lemma {:induction false} LeAntisymmetric(a: string, b: string)
    requires Le(a, b) && Le(b, a)
    ensures a == b
  {
    if a != [] {
      LeAntisymmetric(a[1..], b[1..]);
      assert a == [a[0]] + a[1..] && b == [b[0]] + b[1..];
    }
  }

  /** Larger amounts first; ties by key, ascending. */
  predicate Outranks(a: int, k: string, b: int, l: string) { a > b || (a == b && Le(k, l)) }

  lemma OutranksTotal(a: int, k: string, b: int, l: string)
    ensures Outranks(a, k, b, l) || Outranks(b, l, a, k)
  {
    LeTotal(k, l);
  }

  lemma OutranksTransitive(a: int, k: string, b: int, l: string, c: int, m: string)
    requires Outranks(a, k, b, l) && Outranks(b, l, c, m)
    ensures Outranks(a, k, c, m)
  {
    if a == b == c {
      LeTransitive(k, l, m);
    }
  }

  lemma OutranksAntisymmetric(a: int, k: string, b: int, l: string)
    requires Outranks(a, k, b, l) && Outranks(b, l, a, k)
    ensures a == b && k == l
  {
    LeAntisymmetric(k, l);
  }
}
