/** Keeping the elements of a sequence for which a decision, made by position and element,
    says so. */
module Choices {

  function AppendIf<T>(s: seq<T>, x: T, add: bool): seq<T> {
    s + if add then [x] else []
  }

  function Choose<T>(keep: (nat, T) -> bool, s: seq<T>): seq<T> {
    if s == [] then []
    else
      var m := |s| - 1;
      AppendIf(Choose(keep, s[..m]), s[m], keep(m, s[m]))
  }

  ghost predicate Increasing(positions: seq<nat>) {
    forall i, j :: 0 <= i < j < |positions| ==> positions[i] < positions[j]
  }

  /** The positions are exactly those decided on, in order, and `kept` holds their elements. */
  ghost predicate Picks<T>(keep: (nat, T) -> bool, s: seq<T>, positions: seq<nat>, kept: seq<T>) {
    && Increasing(positions)
    && |positions| == |kept|
    && (forall i :: 0 <= i < |positions| ==> positions[i] < |s| && kept[i] == s[positions[i]])
    && (forall j :: 0 <= j < |s| ==> (j in positions <==> keep(j, s[j])))
  }

  /** Choosing is an order-preserving filter: each position decided on appears once, in order,
      and nothing else does. */
  lemma {:induction false} ChooseExact<T>(keep: (nat, T) -> bool, s: seq<T>) returns (positions: seq<nat>)
    ensures Picks(keep, s, positions, Choose(keep, s))
  {
    if s == [] {
      positions := [];
    } else {
      var m := |s| - 1;
      var before := ChooseExact(keep, s[..m]);
      positions := if keep(m, s[m]) then before + [m] else before;
      PicksStep(keep, s, before, Choose(keep, s[..m]), positions);
    }
  }

  lemma PicksStep<T>(keep: (nat, T) -> bool, s: seq<T>, before: seq<nat>, kept: seq<T>, positions: seq<nat>)
    requires s != [] && Picks(keep, s[..|s| - 1], before, kept)
    requires positions == if keep(|s| - 1, s[|s| - 1]) then before + [|s| - 1] else before
    ensures Picks(keep, s, positions, AppendIf(kept, s[|s| - 1], keep(|s| - 1, s[|s| - 1])))
  {
    var m := |s| - 1;
    assert forall j :: 0 <= j < m ==> s[..m][j] == s[j];
    if keep(m, s[m]) {
      PicksOne(keep, s, before, kept);
    } else {
      assert m !in before;
    }
  }

  lemma PicksOne<T>(keep: (nat, T) -> bool, s: seq<T>, before: seq<nat>, kept: seq<T>)
    requires s != [] && Picks(keep, s[..|s| - 1], before, kept) && keep(|s| - 1, s[|s| - 1])
    ensures Picks(keep, s, before + [|s| - 1], kept + [s[|s| - 1]])
  {
    var m := |s| - 1;
    assert forall j :: 0 <= j < m ==> s[..m][j] == s[j];
    assert (before + [m])[|before|] == m;
    forall j | 0 <= j < |s| ensures j in before + [m] <==> keep(j, s[j]) {
      assert j in before + [m] <==> j in before || j == m;
    }
  }

  predicate Subsequence<T(==)>(a: seq<T>, b: seq<T>) {
    if a == [] then true
    else if b == [] then false
    else if a[|a| - 1] == b[|b| - 1] && Subsequence(a[..|a| - 1], b[..|b| - 1]) then true
    else Subsequence(a, b[..|b| - 1])
  }

  lemma SubsequenceStep<T>(a: seq<T>, b: seq<T>, x: T, inA: bool, inB: bool)
    requires Subsequence(a, b) && (inA ==> inB)
    ensures Subsequence(AppendIf(a, x, inA), AppendIf(b, x, inB))
  {
    assert a + [] == a && b + [] == b;
  }

  /** A more generous decision keeps a supersequence. */
  lemma {:induction false} ChooseGrows<T>(k1: (nat, T) -> bool, k2: (nat, T) -> bool, s: seq<T>)
    requires forall i :: 0 <= i < |s| ==> k1(i, s[i]) ==> k2(i, s[i])
    ensures Subsequence(Choose(k1, s), Choose(k2, s))
  {
    if s == [] {
    } else {
      var m := |s| - 1;
      ChooseGrows(k1, k2, s[..m]);
      SubsequenceStep(Choose(k1, s[..m]), Choose(k2, s[..m]), s[m], k1(m, s[m]), k2(m, s[m]));
    }
  }

  lemma {:induction false} ChooseSame<T>(k1: (nat, T) -> bool, k2: (nat, T) -> bool, s: seq<T>)
    requires forall i :: 0 <= i < |s| ==> k1(i, s[i]) == k2(i, s[i])
    ensures Choose(k1, s) == Choose(k2, s)
  {
    if s == [] {
    } else {
      ChooseSame(k1, k2, s[..|s| - 1]);
    }
  }

  lemma {:induction false} ChooseAll<T>(keep: (nat, T) -> bool, s: seq<T>)
    requires forall i :: 0 <= i < |s| ==> keep(i, s[i])
    ensures Choose(keep, s) == s
  {
    if s == [] {
    } else {
      ChooseAll(keep, s[..|s| - 1]);
      assert s == s[..|s| - 1] + [s[|s| - 1]];
    }
  }

  lemma {:induction false} ChooseShorter<T>(keep: (nat, T) -> bool, s: seq<T>)
    ensures |Choose(keep, s)| <= |s|
  {
    if s == [] {
    } else {
      ChooseShorter(keep, s[..|s| - 1]);
    }
  }
}
