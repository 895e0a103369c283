/** The active buffer of accepted items: a full buffer is swapped for a fresh one that holds
    only the new item. */
module ActiveBuffer {
  import opened Arithmetic
  import opened Seqs

  function BufferAdd<T>(buffer: seq<T>, x: T, k: nat): seq<T> {
    if |buffer| >= k then [x] else buffer + [x]
  }

  /** The buffer after adding a list of items to an empty one. */
  function BufferAfter<T>(adds: seq<T>, k: nat): seq<T> {
    if adds == [] then []
    else BufferAdd(BufferAfter(adds[..|adds| - 1], k), adds[|adds| - 1], k)
  }

  /** How many of the last `m` adds a buffer of capacity `k` still holds. */
  function HeldCount(m: nat, k: nat): nat
    requires k >= 1
  {
    if m == 0 then 0 else (m - 1) % k + 1
  }

  lemma HeldCountStep(m: nat, k: nat)
    requires k >= 1
    ensures HeldCount(m, k) <= k && HeldCount(m, k) <= m
    ensures HeldCount(m + 1, k) == if HeldCount(m, k) >= k then 1 else HeldCount(m, k) + 1
  {
    if m > 0 {
      ModBound(m - 1, k);
      ModStep(m - 1, k);
    }
    ModBound(0, k);
  }

  /** Buffer law: after any number of adds in a window the buffer is exactly the suffix of
      the added items of length ((m - 1) mod k) + 1, so it never exceeds the capacity. */
  lemma {:induction false} BufferIsSuffix<T>(adds: seq<T>, k: nat)
    requires k >= 1
    ensures HeldCount(|adds|, k) <= k && HeldCount(|adds|, k) <= |adds|
    ensures BufferAfter(adds, k) == adds[|adds| - HeldCount(|adds|, k)..]
  {
    if adds == [] {
      HeldCountStep(0, k);
    } else {
      var m := |adds| - 1;
      var before, held, holds := adds[..m], HeldCount(m, k), HeldCount(m + 1, k);
      HeldCountStep(m, k);
      HeldCountStep(m + 1, k);
      BufferIsSuffix(before, k);
      calc {
        BufferAfter(adds, k);
        BufferAdd(BufferAfter(before, k), adds[m], k);
        BufferAdd(before[m - held..], adds[m], k);
        { SuffixGrows(before, adds[m], k, held); }
        (before + [adds[m]])[m + 1 - holds..];
        { assert before + [adds[m]] == adds; }
        adds[m + 1 - holds..];
      }
    }
  }

  lemma SuffixGrows<T>(adds: seq<T>, x: T, k: nat, held: nat)
    requires held <= k && held <= |adds|
    ensures BufferAdd(adds[|adds| - held..], x, k) == (adds + [x])[|adds| + 1 - (if held >= k then 1 else held + 1)..]
  {
  }

  /** The buffer still holds the whole window if and only if no more than `k` items were
      added in it; the next item throws every earlier one of the window away. */
  lemma {:induction false} WholeWindowHeldIff<T>(adds: seq<T>, k: nat)
    requires k >= 1
    ensures BufferAfter(adds, k) == adds <==> |adds| <= k
  {
    BufferIsSuffix(adds, k);
    if 0 < |adds| <= k {
      DivModUnique(|adds| - 1, k, 0, |adds| - 1);
    }
  }

  /** The buffer is the suffix of length ((m - 1) mod k) + 1 of the m adds, and all of them if
      and only if they number at most k. */
  ghost predicate IsHeldPart<T>(buffer: seq<T>, adds: seq<T>, k: nat)
    requires k >= 1
  {
    && HeldCount(|adds|, k) <= |adds|
    && buffer == adds[|adds| - HeldCount(|adds|, k)..]
    && |buffer| <= k
    && (buffer == adds <==> |adds| <= k)
  }

  lemma BufferLaw<T>(adds: seq<T>, k: nat)
    requires k >= 1
    ensures IsHeldPart(BufferAfter(adds, k), adds, k)
  {
    BufferIsSuffix(adds, k);
    WholeWindowHeldIff(adds, k);
  }

  lemma {:induction false} BufferOfMap<S, T>(f: S -> T, adds: seq<S>, k: nat)
    ensures BufferAfter(Map(f, adds), k) == Map(f, BufferAfter(adds, k))
  {
    if adds == [] {
    } else {
      var m := |adds| - 1;
      BufferOfMap(f, adds[..m], k);
      assert Map(f, adds)[..m] == Map(f, adds[..m]);
      MapConcat(f, BufferAfter(adds[..m], k), [adds[m]]);
    }
  }
}
