/** Mapping over sequences, and what it keeps of their multisets; sizes of sets. */
module Seqs {

  ghost predicate Distinct<T>(s: seq<T>) {
    forall i, j :: 0 <= i < j < |s| ==> s[i] != s[j]
  }

  function Map<S, T>(f: S -> T, s: seq<S>): (r: seq<T>)
    ensures |r| == |s|
    ensures forall i :: 0 <= i < |s| ==> r[i] == f(s[i])
  {
    seq(|s|, i requires 0 <= i < |s| => f(s[i]))
  }

  lemma MapConcat<S, T>(f: S -> T, a: seq<S>, b: seq<S>)
    ensures Map(f, a + b) == Map(f, a) + Map(f, b)
  {
  }

  function RemoveAt<T>(s: seq<T>, j: nat): seq<T>
    requires j < |s|
  {
    s[..j] + s[j + 1..]
  }

  lemma WithoutIndex<T>(s: seq<T>, j: nat)
    requires j < |s|
    ensures multiset(s) == multiset(RemoveAt(s, j)) + multiset{s[j]}
    ensures multiset(RemoveAt(s, j)) == multiset(s) - multiset{s[j]}
  {
    assert s == s[..j] + [s[j]] + s[j + 1..];
  }

  lemma MapWithout<S, T>(f: S -> T, s: seq<S>, j: nat)
    requires j < |s|
    ensures RemoveAt(Map(f, s), j) == Map(f, RemoveAt(s, j))
  {
  }

  /** Rearranging a sequence rearranges its image. */
  lemma {:induction false} MapPermutation<S, T>(f: S -> T, a: seq<S>, b: seq<S>)
    requires multiset(a) == multiset(b)
    ensures multiset(Map(f, a)) == multiset(Map(f, b))
    decreases |a|
  {
    assert |a| == |multiset(a)| && |b| == |multiset(b)|;
    if a == [] {
    } else {
      assert a[0] in multiset(b);
      var j :| 0 <= j < |b| && b[j] == a[0];
      WithoutIndex(a, 0);
      WithoutIndex(b, j);
      MapPermutation(f, RemoveAt(a, 0), RemoveAt(b, j));
      MapWithout(f, a, 0);
      MapWithout(f, b, j);
      WithoutIndex(Map(f, a), 0);
      WithoutIndex(Map(f, b), j);
    }
  }

  function FlatMap<S, T>(f: S -> seq<T>, s: seq<S>): seq<T> {
    if s == [] then [] else FlatMap(f, s[..|s| - 1]) + f(s[|s| - 1])
  }

  lemma {:induction false} FlatMapConcat<S, T>(f: S -> seq<T>, a: seq<S>, b: seq<S>)
    ensures FlatMap(f, a + b) == FlatMap(f, a) + FlatMap(f, b)
  {
    if b == [] {
      assert a + b == a;
    } else {
      var n := |b| - 1;
      FlatMapConcat(f, a, b[..n]);
      assert (a + b)[..|a + b| - 1] == a + b[..n];
    }
  }

  lemma FlatMapOne<S, T>(f: S -> seq<T>, x: S)
    ensures FlatMap(f, [x]) == f(x)
  {
    assert [x][..0] == [];
  }

  lemma FlatMapMiddle<S, T>(f: S -> seq<T>, s: seq<S>, before: seq<S>, x: S, after: seq<S>)
    requires s == before + ([x] + after)
    ensures FlatMap(f, s) == FlatMap(f, before) + (f(x) + FlatMap(f, after))
  {
    FlatMapConcat(f, before, [x] + after);
    FlatMapConcat(f, [x], after);
    FlatMapOne(f, x);
  }

  lemma FlatMapSplit<S, T>(f: S -> seq<T>, s: seq<S>, j: nat)
    requires j < |s|
    ensures FlatMap(f, s) == FlatMap(f, s[..j]) + (f(s[j]) + FlatMap(f, s[j + 1..]))
  {
    FlatMapMiddle(f, s, s[..j], s[j], s[j + 1..]);
  }

  lemma FlatMapWithout<S, T>(f: S -> seq<T>, s: seq<S>, j: nat)
    requires j < |s|
    ensures multiset(FlatMap(f, s)) == multiset(FlatMap(f, RemoveAt(s, j))) + multiset(f(s[j]))
  {
    FlatMapSplit(f, s, j);
    FlatMapConcat(f, s[..j], s[j + 1..]);
  }

  lemma {:induction false} FlatMapPermutation<S, T>(f: S -> seq<T>, a: seq<S>, b: seq<S>)
    requires multiset(a) == multiset(b)
    ensures multiset(FlatMap(f, a)) == multiset(FlatMap(f, b))
    decreases |a|
  {
    assert |a| == |multiset(a)| == |multiset(b)| == |b|;
    if a == [] {
    } else {
      assert a[0] in multiset(b);
      var j :| 0 <= j < |b| && b[j] == a[0];
      WithoutIndex(a, 0);
      WithoutIndex(b, j);
      FlatMapPermutation(f, RemoveAt(a, 0), RemoveAt(b, j));
      FlatMapWithout(f, a, 0);
      FlatMapWithout(f, b, j);
    }
  }

  lemma Associative<T>(a: seq<T>, b: seq<T>, c: seq<T>)
    ensures (a + b) + c == a + (b + c)
  {
  }

  lemma TakeOneMore<T>(s: seq<T>, i: nat)
    requires i < |s|
    ensures s[..i + 1] == s[..i] + [s[i]]
  {
  }

  lemma {:induction false} SubsetSize<T>(a: set<T>, b: set<T>)
    requires a <= b
    ensures |a| <= |b|
    decreases a
  {
    if a == {} {
    } else {
      var x :| x in a;
      SubsetSize(a - {x}, b - {x});
    }
  }
}
