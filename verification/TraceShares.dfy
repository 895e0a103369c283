/** What the active buffer makes of the gate when traces have any number of spans: which
    traces are still whole, counted over every sequence of draws, and exactly when every
    trace keeps the promised share of the sample. */
module TraceShares {
  import opened ActiveBuffer
  import opened AlgorithmR
  import opened Arithmetic
  import opened Seqs

  /** Span number `index` of trace number `trace`. */
  datatype Piece = Piece(trace: nat, index: nat)

  /** The number of spans of each trace; a released trace has at least one. */
  type Sizes = nat -> nat

  ghost predicate Positive(sizes: Sizes) {
    forall j :: sizes(j) >= 1
  }

  function PiecesOf(sizes: Sizes): nat -> seq<Piece> {
    (j: nat) => seq(sizes(j), (i: nat) => Piece(j, i))
  }

  /** The traces accepted among the first n, given the draws made after the k-th. */
  function Accepted(k: nat, n: nat, d: seq<nat>): seq<nat> {
    if n < k then FirstTraces(n) else AcceptedTraces(k, d)
  }

  function AcceptedPieces(sizes: Sizes, k: nat, n: nat, d: seq<nat>): seq<Piece> {
    FlatMap(PiecesOf(sizes), Accepted(k, n, d))
  }

  function Held(sizes: Sizes, k: nat, n: nat, d: seq<nat>): seq<Piece> {
    BufferAfter(AcceptedPieces(sizes, k, n, d), k)
  }

  ghost predicate Whole(sizes: Sizes, held: seq<Piece>, j: nat) {
    forall i :: 0 <= i < sizes(j) ==> Piece(j, i) in held
  }

  ghost function HoldsWhole(sizes: Sizes, k: nat, n: nat, j: nat): seq<nat> -> bool {
    d => Whole(sizes, Held(sizes, k, n, d), j)
  }

  /** The draw sequences after which trace j is whole in the buffer. */
  ghost function WholeSurvivors(sizes: Sizes, k: nat, n: nat, j: nat): set<seq<nat>> {
    Where(AllDraws(k, n), HoldsWhole(sizes, k, n, j))
  }

  function Total(sizes: Sizes, n: nat): nat {
    if n == 0 then 0 else Total(sizes, n - 1) + sizes(n)
  }

  ghost predicate AllSingle(sizes: Sizes, n: nat) {
    forall j :: 1 <= j <= n ==> sizes(j) == 1
  }

  /** `s` of `all` cases are the share m/n. */
  predicate IsShare(s: nat, all: nat, m: nat, n: nat) {
    n * s == m * all
  }

  /** Every one of the n traces is whole after exactly the share min(k, n)/n of the draw sequences. */
  ghost predicate EveryTraceHasItsShare(sizes: Sizes, k: nat, n: nat) {
    forall j :: 1 <= j <= n ==> IsShare(|WholeSurvivors(sizes, k, n, j)|, |AllDraws(k, n)|, Min(k, n), n)
  }

  // ----- pieces of a list of traces -----

  lemma {:induction false} PieceFrom(sizes: Sizes, traces: seq<nat>, p: Piece)
    ensures p in FlatMap(PiecesOf(sizes), traces) <==> p.trace in traces && p.index < sizes(p.trace)
  {
    if traces == [] {
    } else {
      var m := |traces| - 1;
      var last := PiecesOf(sizes)(traces[m]);
      PieceFrom(sizes, traces[..m], p);
      assert traces == traces[..m] + [traces[m]];
      assert p in last <==> p.trace == traces[m] && p.index < sizes(traces[m]) by {
        if p.trace == traces[m] && p.index < sizes(traces[m]) {
          assert last[p.index] == p;
        }
      }
    }
  }

  lemma {:induction false} AtLeastOneEach(sizes: Sizes, traces: seq<nat>)
    requires Positive(sizes)
    ensures |FlatMap(PiecesOf(sizes), traces)| >= |traces|
  {
    if traces == [] {
    } else {
      AtLeastOneEach(sizes, traces[..|traces| - 1]);
    }
  }

  lemma {:induction false} TotalPieces(sizes: Sizes, n: nat)
    ensures |FlatMap(PiecesOf(sizes), FirstTraces(n))| == Total(sizes, n)
  {
    if n == 0 {
    } else {
      TotalPieces(sizes, n - 1);
      assert FirstTraces(n)[..n - 1] == FirstTraces(n - 1);
    }
  }

  lemma AcceptedFacts(k: nat, n: nat, d: seq<nat>)
    requires k >= 1 && n >= 1 && d in AllDraws(k, n)
    ensures Accepted(k, n, d) != [] && Accepted(k, n, d)[0] == 1 && 1 !in Accepted(k, n, d)[1..]
    ensures n <= k ==> Accepted(k, n, d) == FirstTraces(n)
  {
    AcceptedOrder(k, d);
    if n >= k {
      AllDrawsExact(k, n, d);
    }
    var a := Accepted(k, n, d);
    assert n >= k ==> a[..k] == FirstTraces(k);
    forall i | 1 <= i < |a| ensures a[i] != 1 {
      if n >= k && i < k {
        assert a[i] == FirstTraces(k)[i];
      }
    }
  }

  /** The buffer still holds the first span of the first trace exactly if nothing has been
      swapped out, and then it holds every accepted span. */
  lemma FirstPieceHeld(sizes: Sizes, k: nat, n: nat, d: seq<nat>)
    requires Positive(sizes) && k >= 1 && n >= 1 && d in AllDraws(k, n)
    ensures Piece(1, 0) in Held(sizes, k, n, d) <==> |AcceptedPieces(sizes, k, n, d)| <= k
    ensures |AcceptedPieces(sizes, k, n, d)| <= k ==> Held(sizes, k, n, d) == AcceptedPieces(sizes, k, n, d)
  {
    var traces := Accepted(k, n, d);
    var pieces := AcceptedPieces(sizes, k, n, d);
    AcceptedFacts(k, n, d);
    FirstPieceOnce(sizes, traces);
    BufferIsSuffix(pieces, k);
    WholeWindowHeldIff(pieces, k);
    var c := |pieces| - HeldCount(|pieces|, k);
    assert pieces[c..][0] == pieces[c];
    if c == 0 {
      assert pieces[0..] == pieces;
    } else {
      assert forall x :: x in pieces[c..] ==> x in pieces[1..];
    }
  }

  lemma FirstPieceOnce(sizes: Sizes, traces: seq<nat>)
    requires Positive(sizes) && traces != [] && traces[0] == 1 && 1 !in traces[1..]
    ensures var pieces := FlatMap(PiecesOf(sizes), traces);
      pieces != [] && pieces[0] == Piece(1, 0) && Piece(1, 0) !in pieces[1..]
  {
    var own, rest := PiecesOf(sizes)(1), FlatMap(PiecesOf(sizes), traces[1..]);
    assert traces == [1] + traces[1..];
    FlatMapConcat(PiecesOf(sizes), [1], traces[1..]);
    assert [1][..0] == [];
    assert FlatMap(PiecesOf(sizes), [1]) == own;
    assert sizes(1) >= 1;
    PieceFrom(sizes, traces[1..], Piece(1, 0));
    assert (own + rest)[1..] == own[1..] + rest;
  }

  // ----- the four cases -----

  lemma OnlyTheEmptyDraw(p: seq<nat> -> bool)
    requires p([])
    ensures Where({[]}, p) == {[]}
  {
  }

  lemma FewTracesFit(sizes: Sizes, k: nat, n: nat, j: nat)
    requires Positive(sizes) && 1 <= j <= n <= k && Total(sizes, n) <= k
    ensures WholeSurvivors(sizes, k, n, j) == {[]}
  {
    var held := Held(sizes, k, n, []);
    assert held == FlatMap(PiecesOf(sizes), FirstTraces(n)) by {
      AcceptedFacts(k, n, []);
      TotalPieces(sizes, n);
      FirstPieceHeld(sizes, k, n, []);
    }
    assert Whole(sizes, held, j) by {
      assert FirstTraces(n)[j - 1] == j;
      forall i | 0 <= i < sizes(j) ensures Piece(j, i) in held {
        PieceFrom(sizes, FirstTraces(n), Piece(j, i));
      }
    }
    OnlyTheEmptyDraw(HoldsWhole(sizes, k, n, j));
    assert AllDraws(k, n) == {[]};
  }

  lemma FewTracesOverflow(sizes: Sizes, k: nat, n: nat)
    requires Positive(sizes) && 1 <= n <= k && Total(sizes, n) > k
    ensures !EveryTraceHasItsShare(sizes, k, n)
  {
    AcceptedFacts(k, n, []);
    TotalPieces(sizes, n);
    FirstPieceHeld(sizes, k, n, []);
    assert sizes(1) >= 1;
    NoShare(sizes, k, n, 1);
  }

  /** No trace beyond the k-th: everything is accepted, and kept if it fits. */
  lemma FewTraces(sizes: Sizes, k: nat, n: nat)
    requires Positive(sizes) && 1 <= n <= k
    ensures EveryTraceHasItsShare(sizes, k, n) <==> Total(sizes, n) <= k
  {
    if Total(sizes, n) <= k {
      forall j | 1 <= j <= n ensures IsShare(|WholeSurvivors(sizes, k, n, j)|, |AllDraws(k, n)|, Min(k, n), n) {
        FewTracesFit(sizes, k, n, j);
      }
    } else {
      FewTracesOverflow(sizes, k, n);
    }
  }

  /** A trace that is never whole does not have its share. */
  lemma NoShare(sizes: Sizes, k: nat, n: nat, j: nat)
    requires k >= 1 && n >= 1 && 1 <= j <= n
    requires forall d :: d in AllDraws(k, n) ==> !Whole(sizes, Held(sizes, k, n, d), j)
    ensures !EveryTraceHasItsShare(sizes, k, n)
  {
    assert WholeSurvivors(sizes, k, n, j) == {};
    if n >= k {
      SomeDraws(k, n);
    }
    NothingIsNoShare(|AllDraws(k, n)|, Min(k, n), n);
  }

  lemma NothingIsNoShare(all: nat, m: nat, n: nat)
    requires all >= 1 && m >= 1
    ensures !IsShare(0, all, m, n)
  {
  }

  /** Two or more places and more traces: the first trace falls short. */
  lemma ManyTraces(sizes: Sizes, k: nat, n: nat)
    requires Positive(sizes) && n > k >= 2
    ensures !EveryTraceHasItsShare(sizes, k, n)
  {
    forall d | d in AllDraws(k, n) && Whole(sizes, Held(sizes, k, n, d), 1) ensures 1 in Buffered(k, d) {
      WholeMeansUntouched(sizes, k, n, d);
    }
    SubsetSize(WholeSurvivors(sizes, k, n, 1), BufferSurvivors(k, n, 1));
    FirstTraceShort(k, n);
    ShortOfShare(n, k, |WholeSurvivors(sizes, k, n, 1)|, |BufferSurvivors(k, n, 1)|, |AllDraws(k, n)|);
  }

  lemma WholeMeansUntouched(sizes: Sizes, k: nat, n: nat, d: seq<nat>)
    requires Positive(sizes) && n > k >= 2 && d in AllDraws(k, n)
    requires Whole(sizes, Held(sizes, k, n, d), 1)
    ensures 1 in Buffered(k, d)
  {
    var traces := Accepted(k, n, d);
    assert |traces| <= k by {
      assert sizes(1) >= 1;
      FirstPieceHeld(sizes, k, n, d);
      AtLeastOneEach(sizes, traces);
    }
    assert traces == FirstTraces(k) by {
      AcceptedOrder(k, d);
    }
    WholeWindowHeldIff(FirstTraces(k), k);
    assert FirstTraces(k)[0] == 1;
  }

  lemma ShortOfShare(n: nat, k: nat, x: nat, y: nat, all: nat)
    requires x <= y && n * y < k * all
    ensures !IsShare(x, all, k, n)
  {
    assert n * (y - x) >= 0;
  }

  lemma SinglesKeepTheirShare(sizes: Sizes, n: nat, j: nat)
    requires Positive(sizes) && 1 <= j <= n && AllSingle(sizes, n)
    ensures IsShare(|WholeSurvivors(sizes, 1, n, j)|, |AllDraws(1, n)|, 1, n)
  {
    SinglePlaceShares(n);
    forall d | d in AllDraws(1, n) ensures HoldsWhole(sizes, 1, n, j)(d) <==> BuffersTrace(1, j)(d) {
      SinglesHeld(sizes, n, d, j);
    }
    assert WholeSurvivors(sizes, 1, n, j) == BufferSurvivors(1, n, j);
  }

  lemma PairIsNeverHeld(sizes: Sizes, n: nat, j: nat)
    requires Positive(sizes) && 1 <= j <= n && sizes(j) >= 2
    ensures !EveryTraceHasItsShare(sizes, 1, n)
  {
    forall d | d in AllDraws(1, n) ensures !Whole(sizes, Held(sizes, 1, n, d), j) {
      BufferIsSuffix(AcceptedPieces(sizes, 1, n, d), 1);
      OneIsNotTwo(Held(sizes, 1, n, d), Piece(j, 0), Piece(j, 1));
    }
    NoShare(sizes, 1, n, j);
  }

  /** A single place keeps no trace of several spans, and every single-span trace fairly. */
  lemma SinglePlace(sizes: Sizes, n: nat)
    requires Positive(sizes) && n >= 1
    ensures EveryTraceHasItsShare(sizes, 1, n) <==> AllSingle(sizes, n)
  {
    if AllSingle(sizes, n) {
      forall j | 1 <= j <= n ensures IsShare(|WholeSurvivors(sizes, 1, n, j)|, |AllDraws(1, n)|, 1, n) {
        SinglesKeepTheirShare(sizes, n, j);
      }
    } else {
      var j :| 1 <= j <= n && sizes(j) != 1;
      assert sizes(j) >= 1;
      PairIsNeverHeld(sizes, n, j);
    }
  }

  lemma OneIsNotTwo<T>(s: seq<T>, x: T, y: T)
    requires |s| <= 1 && x != y
    ensures !(x in s && y in s)
  {
  }

  function FirstPiece(): nat -> Piece {
    (j: nat) => Piece(j, 0)
  }

  lemma SinglesHeld(sizes: Sizes, n: nat, d: seq<nat>, j: nat)
    requires n >= 1 && d in AllDraws(1, n) && 1 <= j <= n && AllSingle(sizes, n)
    ensures Whole(sizes, Held(sizes, 1, n, d), j) <==> j in Buffered(1, d)
  {
    var traces := AcceptedTraces(1, d);
    assert Held(sizes, 1, n, d) == Map(FirstPiece(), Buffered(1, d)) by {
      AllDrawsExact(1, n, d);
      AcceptedOrder(1, d);
      SinglesMap(sizes, traces);
      BufferOfMap(FirstPiece(), traces, 1);
    }
    SingleIsWhole(sizes, Held(sizes, 1, n, d), j);
  }

  lemma SingleIsWhole(sizes: Sizes, held: seq<Piece>, j: nat)
    requires sizes(j) == 1
    ensures Whole(sizes, held, j) <==> Piece(j, 0) in held
  {
  }

  lemma {:induction false} SinglesMap(sizes: Sizes, traces: seq<nat>)
    requires forall i :: 0 <= i < |traces| ==> sizes(traces[i]) == 1
    ensures FlatMap(PiecesOf(sizes), traces) == Map(FirstPiece(), traces)
  {
    if traces == [] {
    } else {
      var m := |traces| - 1;
      SinglesMap(sizes, traces[..m]);
      assert PiecesOf(sizes)(traces[m]) == [Piece(traces[m], 0)];
    }
  }

  /** Exactly when the code keeps the promised share: no trace beyond the k-th has arrived and
      all spans together fit, or the reservoir has a single place and every trace one span. */
  lemma PromisedShareIff(sizes: Sizes, k: nat, n: nat)
    requires Positive(sizes) && k >= 1 && n >= 1
    ensures EveryTraceHasItsShare(sizes, k, n)
       <==> (n <= k && Total(sizes, n) <= k) || (k == 1 && AllSingle(sizes, n))
  {
    if k == 1 {
      SinglePlace(sizes, n);
    } else if n <= k {
      FewTraces(sizes, k, n);
    } else {
      ManyTraces(sizes, k, n);
    }
  }

}
