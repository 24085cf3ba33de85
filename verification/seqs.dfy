/** Sequence helpers standing for the `List<T>` operations the source uses. */
module Seqs {

  /** No element occurs twice. */
  predicate NoDups<T(==)>(s: seq<T>) {
    forall i, j :: 0 <= i < j < |s| ==> s[i] != s[j]
  }

  function Last<T>(s: seq<T>): T
    requires |s| > 0
  {
    s[|s| - 1]
  }

  /** `List.IndexOf`: the position of the first occurrence of `x`, or -1. */
  function IndexOf<T(==)>(s: seq<T>, x: T): (k: int)
    ensures -1 <= k < |s|
    ensures k == -1 <==> x !in s
    ensures k >= 0 ==> s[k] == x && x !in s[..k]
  {
    if |s| == 0 then -1
    else if s[0] == x then 0
    else
      var k := IndexOf(s[1..], x);
      if k == -1 then -1
      else
        assert s[..k + 1] == [s[0]] + s[1..][..k];
        k + 1
  }

  /** `List.Remove`: drops the first occurrence of `x`, if any. */
  function RemoveFirst<T(==)>(s: seq<T>, x: T): (r: seq<T>)
    ensures x !in s ==> r == s
    ensures x in s ==> |r| == |s| - 1
    ensures multiset(r) == multiset(s) - multiset{x}
  {
    if |s| == 0 then []
    else if s[0] == x then
      assert s == [s[0]] + s[1..];
      s[1..]
    else
      var rest := RemoveFirst(s[1..], x);
      assert s == [s[0]] + s[1..];
      [s[0]] + rest
  }

  /** Removing the only occurrence of `x` from a duplicate-free list leaves
      exactly the other elements, still without duplicates. */
  lemma RemoveFirstNoDups<T>(s: seq<T>, x: T)
    requires NoDups(s)
    ensures NoDups(RemoveFirst(s, x))
    ensures forall y :: y in RemoveFirst(s, x) <==> y in s && y != x
  {
    var r := RemoveFirst(s, x);
    forall y ensures y in r <==> y in s && y != x {
      NoDupsCount(s, y);
      assert y in r <==> multiset(r)[y] > 0;
      assert y in s <==> multiset(s)[y] > 0;
    }
    forall y ensures multiset(r)[y] <= 1 {
      NoDupsCount(s, y);
    }
    CountNoDups(r);
  }

  lemma {:induction false} NoDupsCount<T>(s: seq<T>, y: T)
    requires NoDups(s)
    ensures multiset(s)[y] <= 1
  {
    if |s| > 0 {
      var t := s[1..];
      assert s == [s[0]] + t;
      assert NoDups(t) by {
        forall i, j | 0 <= i < j < |t| ensures t[i] != t[j] {
          assert t[i] == s[i + 1] && t[j] == s[j + 1];
        }
      }
      NoDupsCount(t, y);
      if s[0] == y {
        assert y !in t by {
          forall j | 0 <= j < |t| ensures t[j] != s[0] {
            assert t[j] == s[j + 1];
          }
        }
      }
    }
  }

  lemma {:induction false} CountNoDups<T>(s: seq<T>)
    requires forall y :: multiset(s)[y] <= 1
    ensures NoDups(s)
  {
    forall i, j | 0 <= i < j < |s| ensures s[i] != s[j] {
      RepeatCounts(s, i, j);
    }
  }

  lemma RepeatCounts<T>(s: seq<T>, i: int, j: int)
    requires 0 <= i < j < |s|
    ensures s[i] == s[j] ==> multiset(s)[s[i]] >= 2
  {
    var a, b, c := s[..i], s[i+1..j], s[j+1..];
    assert s == a + [s[i]] + b + [s[j]] + c;
  }

  /** `List.Reverse`. */
  function Reverse<T>(s: seq<T>): (r: seq<T>)
    ensures |r| == |s|
    ensures forall i :: 0 <= i < |s| ==> r[i] == s[|s| - 1 - i]
  {
    if |s| == 0 then [] else Reverse(s[1..]) + [s[0]]
  }

  /** Reversing a concatenation reverses the order of the parts. */
  lemma ReverseAppend<T>(a: seq<T>, b: seq<T>)
    ensures Reverse(a + b) == Reverse(b) + Reverse(a)
  {
    var l, r := Reverse(a + b), Reverse(b) + Reverse(a);
    assert |l| == |r|;
    forall i | 0 <= i < |l|
      ensures l[i] == r[i]
    {
      if i < |b| {
        assert l[i] == (a + b)[|a| + |b| - 1 - i];
      }
    }
  }

  /** The elements of a sequence, as a set. */
  function Elements<T>(s: seq<T>): set<T> {
    set x | x in s
  }

  /** LINQ `Intersect`: the elements of `a` that occur in `b`, each once, in
      the order of their first occurrence in `a`. */
  function Intersect<T(==,!new)>(a: seq<T>, b: seq<T>): (r: seq<T>)
    ensures NoDups(r)
    ensures forall x :: x in r <==> x in a && x in b
  {
    IntersectSkipping(a, b, {})
  }

  /** `Intersect` with the already yielded elements `seen` left out. */
  function IntersectSkipping<T(==,!new)>(a: seq<T>, b: seq<T>, seen: set<T>): (r: seq<T>)
    ensures NoDups(r)
    ensures forall x :: x in r <==> x in a && x in b && x !in seen
    decreases |a|
  {
    if |a| == 0 then []
    else if a[0] in b && a[0] !in seen then
      var rest := IntersectSkipping(a[1..], b, seen + {a[0]});
      assert forall x :: x in a <==> x == a[0] || x in a[1..];
      [a[0]] + rest
    else
      assert forall x :: x in a <==> x == a[0] || x in a[1..];
      IntersectSkipping(a[1..], b, seen)
  }

  /** An arbitrary permutation, standing for a sort by random keys. */
  method Shuffle<T>(s: seq<T>) returns (r: seq<T>)
    ensures multiset(r) == multiset(s)
  {
    r := [];
    var rest := s;
    while |rest| > 0
      invariant multiset(r) + multiset(rest) == multiset(s)
      decreases |rest|
    {
      var k :| 0 <= k < |rest|;
      assert rest == rest[..k] + [rest[k]] + rest[k + 1..];
      r := r + [rest[k]];
      rest := rest[..k] + rest[k + 1..];
    }
  }

  /** Permuting a duplicate-free sequence keeps it duplicate-free, with the same elements. */
  lemma PermutationNoDups<T>(s: seq<T>, r: seq<T>)
    requires NoDups(s) && multiset(r) == multiset(s)
    ensures NoDups(r)
    ensures forall x :: x in r <==> x in s
  {
    forall y ensures multiset(r)[y] <= 1 {
      NoDupsCount(s, y);
    }
    CountNoDups(r);
    forall x ensures x in r <==> x in s {
      assert x in r <==> multiset(r)[x] > 0;
      assert x in s <==> multiset(s)[x] > 0;
    }
  }
}
