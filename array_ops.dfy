/**
 * The JavaScript array methods the workspace is built from (`filter`, `map`,
 * `find`), as total functions on sequences, with the facts about them that the
 * rest of the model relies on.
 */
module ArrayOps {
  import opened Types

  /** `s.filter(p)`: the elements of `s` that satisfy `p`, in their order in `s`. */
  function Filter<T(==, !new)>(p: T -> bool, s: seq<T>): (r: seq<T>)
    ensures |r| <= |s|
    ensures forall x :: x in r <==> x in s && p(x)
  {
    if s == [] then []
    else if p(s[0]) then [s[0]] + Filter(p, s[1..])
    else Filter(p, s[1..])
  }

  /** `s.map(f)`: `f` applied to every element, position by position. */
  function Map<T, U>(f: T -> U, s: seq<T>): (r: seq<U>)
    ensures |r| == |s|
    ensures forall i :: 0 <= i < |s| ==> r[i] == f(s[i])
  {
    if s == [] then [] else [f(s[0])] + Map(f, s[1..])
  }

  /** `s.find(p)`: the first element that satisfies `p`, or `None` (JavaScript's `undefined`). */
  function Find<T(==, !new)>(p: T -> bool, s: seq<T>): (r: Option<T>)
    ensures r.None? <==> forall x :: x in s ==> !p(x)
    ensures r.Some? ==> r.value in s && p(r.value)
  {
    if s == [] then None
    else if p(s[0]) then Some(s[0])
    else Find(p, s[1..])
  }

  /** The first element of a sequence, if there is one. */
  function Head<T>(s: seq<T>): Option<T>
  {
    if s == [] then None else Some(s[0])
  }

  /** No element occurs twice. */
  predicate Distinct<T(==)>(s: seq<T>)
  {
    forall i, j :: 0 <= i < j < |s| ==> s[i] != s[j]
  }

  /** Every pair of elements, taken in order, is related by `R`. */
  predicate Pairwise<T>(R: (T, T) -> bool, s: seq<T>)
  {
    forall i, j :: 0 <= i < j < |s| ==> R(s[i], s[j])
  }

  /** Filtering respects concatenation, so it keeps the relative order of what it keeps. */
  lemma {:induction false} FilterAppend<T(!new)>(p: T -> bool, a: seq<T>, b: seq<T>)
    ensures Filter(p, a + b) == Filter(p, a) + Filter(p, b)
  {
    if a == [] {
      assert a + b == b;
    } else {
      assert (a + b)[0] == a[0];
      assert (a + b)[1..] == a[1..] + b;
      FilterAppend(p, a[1..], b);
    }
  }

  /** A filter that rejects nothing returns its input unchanged. */
  lemma {:induction false} FilterKeepsAll<T(!new)>(p: T -> bool, s: seq<T>)
    requires forall x :: x in s ==> p(x)
    ensures Filter(p, s) == s
  {
    if s != [] {
      assert s[0] in s;
      assert forall x :: x in s[1..] ==> x in s;
      FilterKeepsAll(p, s[1..]);
    }
  }

  /** Putting in front an element related to every later one keeps a sequence pairwise related. */
  lemma PairwiseCons<T>(R: (T, T) -> bool, x: T, t: seq<T>)
    requires Pairwise(R, t)
    requires forall k :: 0 <= k < |t| ==> R(x, t[k])
    ensures Pairwise(R, [x] + t)
  {
  }

  /** A filter keeps every pairwise property of its input (it only drops elements). */
  lemma {:induction false} FilterKeepsPairwise<T(!new)>(p: T -> bool, R: (T, T) -> bool, s: seq<T>)
    requires Pairwise(R, s)
    ensures Pairwise(R, Filter(p, s))
  {
    if s != [] {
      var tail := s[1..];
      assert Pairwise(R, tail) by {
        forall i, j | 0 <= i < j < |tail| ensures R(tail[i], tail[j]) {
          assert tail[i] == s[i + 1] && tail[j] == s[j + 1];
        }
      }
      FilterKeepsPairwise(p, R, tail);
      if p(s[0]) {
        var rest := Filter(p, tail);
        forall k | 0 <= k < |rest| ensures R(s[0], rest[k]) {
          assert rest[k] in tail;
          var m :| 0 <= m < |tail| && tail[m] == rest[k];
          assert s[m + 1] == rest[k];
        }
        PairwiseCons(R, s[0], rest);
      }
    }
  }

  /** A filter of a sequence without repetitions has none either. */
  lemma FilterKeepsDistinct<T(!new)>(p: T -> bool, s: seq<T>)
    requires Distinct(s)
    ensures Distinct(Filter(p, s))
  {
  }

  /** `find` returns the first element that satisfies `p`. */
  lemma {:induction false} FindFirst<T(!new)>(p: T -> bool, s: seq<T>, i: nat)
    requires i < |s| && p(s[i])
    requires forall j :: 0 <= j < i ==> !p(s[j])
    ensures Find(p, s) == Some(s[i])
  {
    if i > 0 {
      assert !p(s[0]);
      FindFirst(p, s[1..], i - 1);
    }
  }

  /** `s.find(p)` is the head of `s.filter(p)`. */
  lemma {:induction false} FindIsHeadOfFilter<T(!new)>(p: T -> bool, s: seq<T>)
    ensures Find(p, s) == Head(Filter(p, s))
  {
    if s != [] && !p(s[0]) {
      FindIsHeadOfFilter(p, s[1..]);
    }
  }
}
