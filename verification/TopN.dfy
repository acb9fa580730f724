/** The top n of a set under a comparison: what a sort followed by a cut returns. */
module TopN {
  import opened Sorting

  function Least(a: nat, b: nat): (r: nat)
    ensures r <= a && r <= b && (r == a || r == b)
  {
    if a < b then a else b
  }

  /** s enumerates S, each element once. */
  ghost predicate Lists<T(!new)>(s: seq<T>, S: set<T>) { multiset(s) == multiset(S) }

  /** T is what the first n of S in order come to: nothing left out comes before anything kept. */
  ghost predicate IsTop<T(!new)>(S: set<T>, T: set<T>, n: nat, le: (T, T) -> bool) {
    && T <= S
    && |T| == Least(n, |S|)
    && forall a, b :: a in T && b in S && b !in T ==> le(a, b)
  }

  /** No two elements of S tie. */
  ghost predicate NoTies<T(!new)>(S: set<T>, le: (T, T) -> bool) {
    forall x, y :: x in S && y in S && le(x, y) && le(y, x) ==> x == y
  }

  /** Without ties there is only one top n. */
  lemma TopUnique<T(!new)>(S: set<T>, T: set<T>, T': set<T>, n: nat, le: (T, T) -> bool)
    requires NoTies(S, le) && IsTop(S, T, n, le) && IsTop(S, T', n, le)
    ensures T == T'
  {
    assert T <= T' || T' <= T;
    if T <= T' {
      Subset(T, T');
    } else {
      Subset(T', T);
    }
  }

  lemma {:induction false} Subset<T>(a: set<T>, b: set<T>)
    requires a <= b
    ensures |a| <= |b| && (|a| == |b| ==> a == b)
  {
    assert b == a + (b - a);
    assert |b| == |a| + |b - a|;
  }

  lemma ListLength<T(!new)>(s: seq<T>, S: set<T>)
    requires Lists(s, S)
    ensures |s| == |S| && forall x :: x in s <==> x in S
  {
    assert |multiset(s)| == |multiset(S)|;
    assert forall x :: x in s <==> x in multiset(s);
  }

  /** A prefix of an enumeration enumerates its own elements, the rest enumerates the others. */
  lemma ListSplit<T(!new)>(s: seq<T>, S: set<T>, n: nat) returns (T: set<T>)
    requires Lists(s, S) && n <= |s|
    ensures T <= S && Lists(s[..n], T) && Lists(s[n..], S - T) && |T| == n
  {
    T := set x | x in s[..n];
    assert s == s[..n] + s[n..];
    assert multiset(s) == multiset(s[..n]) + multiset(s[n..]);
    forall x
      ensures multiset(s[..n])[x] == multiset(T)[x] && multiset(s[n..])[x] == multiset(S - T)[x]
    {
      assert multiset(s)[x] == multiset(S)[x] <= 1;
      assert x in s[..n] <==> x in multiset(s[..n]);
      assert x in s <==> x in multiset(s);
    }
    ListLength(s, S);
    ListLength(s[..n], T);
  }

  lemma ListJoin<T(!new)>(s: seq<T>, S: set<T>, s': seq<T>, S': set<T>)
    requires Lists(s, S) && Lists(s', S') && S !! S'
    ensures Lists(s + s', S + S')
  {
  }

  /** Cutting a sorted enumeration keeps its top. */
  lemma SortedPrefixIsTop<T(!new)>(s: seq<T>, S: set<T>, n: nat, le: (T, T) -> bool) returns (T: set<T>)
    requires Lists(s, S) && SortedBy(s, le)
    ensures IsTop(S, T, n, le)
    ensures Lists(s[..Least(n, |s|)], T) && Lists(s[Least(n, |s|)..], S - T)
  {
    var k := Least(n, |s|);
    hide Least;
    T := ListSplit(s, S, k);
    ListLength(s, S);
    ListLength(s[..k], T);
    ListLength(s[k..], S - T);
    forall a, b | a in T && b in S && b !in T
      ensures le(a, b)
    {
      assert b in S - T;
      var i :| 0 <= i < k && s[..k][i] == a;
      var j :| 0 <= j < |s| - k && s[k..][j] == b;
      assert s[i] == a && s[k + j] == b;
    }
  }

  /** Without ties a set has only one sorted enumeration. */
  lemma {:induction false} SortedUnique<T(!new)>(s: seq<T>, s': seq<T>, S: set<T>, le: (T, T) -> bool)
    requires Lists(s, S) && Lists(s', S) && NoTies(S, le) && SortedBy(s, le) && SortedBy(s', le)
    ensures s == s'
    decreases |s|
  {
    ListLength(s, S);
    ListLength(s', S);
    if s != [] {
      FirstUnique(s, s', S, le);
      ListRest(s, S);
      ListRest(s', S);
      SortedUnique(s[1..], s'[1..], S - {s[0]}, le);
    }
  }

  lemma FirstUnique<T(!new)>(s: seq<T>, s': seq<T>, S: set<T>, le: (T, T) -> bool)
    requires Lists(s, S) && Lists(s', S) && NoTies(S, le) && SortedBy(s, le) && SortedBy(s', le)
    requires s != [] && s' != []
    ensures s[0] == s'[0]
  {
    ListLength(s, S);
    ListLength(s', S);
    assert s'[0] in s' && s[0] in s;
    assert s'[0] in s && s[0] in s';
    var i :| 0 <= i < |s| && s[i] == s'[0];
    var j :| 0 <= j < |s'| && s'[j] == s[0];
  }

  lemma ListRest<T(!new)>(s: seq<T>, S: set<T>)
    requires Lists(s, S) && s != []
    ensures Lists(s[1..], S - {s[0]})
  {
    assert s == [s[0]] + s[1..];
    assert multiset(s) == multiset{s[0]} + multiset(s[1..]);
    forall x
      ensures multiset(s[1..])[x] == multiset(S - {s[0]})[x]
    {
      assert multiset(s)[x] == multiset(S)[x] <= 1;
    }
  }

  lemma ListButLast<T(!new)>(s: seq<T>, S: set<T>)
    requires Lists(s, S) && s != []
    ensures Lists(s[..|s| - 1], S - {s[|s| - 1]})
  {
    var x := s[|s| - 1];
    assert s == s[..|s| - 1] + [x];
    assert multiset(s) == multiset(s[..|s| - 1]) + multiset{x};
    forall y
      ensures multiset(s[..|s| - 1])[y] == multiset(S - {x})[y]
    {
      assert multiset(s)[y] == multiset(S)[y] <= 1;
    }
  }

  lemma ListDistinct<T(!new)>(s: seq<T>, S: set<T>)
    requires Lists(s, S)
    ensures forall i, j :: 0 <= i < j < |s| ==> s[i] != s[j]
  {
    forall i, j | 0 <= i < j < |s|
      ensures s[i] != s[j]
    {
      var T := ListSplit(s, S, j);
      ListLength(s[..j], T);
      ListLength(s[j..], S - T);
      assert s[..j][i] in s[..j] && s[j..][0] in s[j..];
    }
  }

  /** The elements of a set in some order, as a map or set is walked. */
  method Enumerate<T(!new, ==)>(S: set<T>) returns (s: seq<T>)
    ensures Lists(s, S)
  {
    s := [];
    var todo := S;
    while todo != {}
      invariant todo <= S && Lists(s, S - todo)
    {
      var x :| x in todo;
      assert S - (todo - {x}) == S - todo + {x};
      s, todo := s + [x], todo - {x};
    }
    assert S - todo == S;
  }

  lemma {:induction false} SomeOrder<T(!new)>(S: set<T>) returns (s: seq<T>)
    ensures Lists(s, S)
    decreases |S|
  {
    if S == {} {
      s := [];
    } else {
      var x :| x in S;
      var rest := SomeOrder(S - {x});
      s := rest + [x];
      assert S == S - {x} + {x};
    }
  }

  lemma {:induction false} DistinctLists<T(!new)>(s: seq<T>)
    requires forall i, j :: 0 <= i < j < |s| ==> s[i] != s[j]
    ensures Lists(s, set x | x in s)
    decreases |s|
  {
    if s != [] {
      var rest, x := s[..|s| - 1], s[|s| - 1];
      DistinctLists(rest);
      assert s == rest + [x];
      assert (set y | y in s) == (set y | y in rest) + {x};
    }
  }
}
