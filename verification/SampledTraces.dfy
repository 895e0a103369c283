/** The counted buffer is the sampler's own: for any released units and draws, the sampler's
    active buffer is the one whose traces `TraceShares` counts. */
module SampledTraces {
  import opened Telemetry
  import opened Seqs
  import opened ActiveBuffer
  import opened AlgorithmR
  import opened TraceShares
  import opened Reservoir
  import Window = ReservoirWindow

  type Units = seq<seq<SpanInContext>>

  /** How many spans each unit brings; units are numbered from 1. */
  function SizesOf(units: Units, batch: Batch): Sizes {
    (j: nat) => if 1 <= j <= |units| then |batch(units[j - 1])| else 1
  }

  /** The stored span that a piece stands for. */
  function SpanOf(units: Units, batch: Batch, other: Window.Stored): Piece -> Window.Stored {
    (p: Piece) =>
      if 1 <= p.trace <= |units| && p.index < |batch(units[p.trace - 1])| then batch(units[p.trace - 1])[p.index]
      else other
  }

  /** The draws made while n units arrive: one for each after the k-th. */
  function DrawsMade(draw: nat -> nat, k: nat, n: nat): seq<nat> {
    if n <= k then [] else DrawsMade(draw, k, n - 1) + [draw(n)]
  }

  lemma {:induction false} DrawsMadeExact(draw: nat -> nat, k: nat, n: nat)
    requires forall i: nat :: i > 0 ==> draw(i) < i
    ensures DrawsMade(draw, k, n) in AllDraws(k, n)
    ensures |DrawsMade(draw, k, n)| == if n <= k then 0 else n - k
  {
    if n <= k {
    } else {
      DrawsMadeExact(draw, k, n - 1);
      assert DrawsMade(draw, k, n) == Snoc(DrawsMade(draw, k, n - 1), draw(n));
    }
  }

  /** One more unit: it is accepted or not, after all those before it. */
  lemma AcceptedStep(draw: nat -> nat, k: nat, n: nat)
    requires n >= 1 && forall i: nat :: i > 0 ==> draw(i) < i
    ensures Accepted(k, n, DrawsMade(draw, k, n))
         == Accepted(k, n - 1, DrawsMade(draw, k, n - 1)) + if Accepts(n, k, draw(n)) then [n] else []
  {
    if n <= k {
      assert FirstTraces(n) == FirstTraces(n - 1) + [n];
    } else {
      DrawsMadeExact(draw, k, n - 1);
      OneMoreDraw(k, DrawsMade(draw, k, n - 1), draw(n));
    }
  }

  lemma OneMoreDraw(k: nat, d: seq<nat>, r: nat)
    ensures var n := k + |d| + 1;
      AcceptedTraces(k, d + [r]) == AcceptedTraces(k, d) + if Accepts(n, k, r) then [n] else []
  {
    assert (d + [r])[..|d|] == d;
  }

  lemma SpansOfUnit(units: Units, batch: Batch, other: Window.Stored, n: nat)
    requires 1 <= n <= |units|
    ensures Map(SpanOf(units, batch, other), PiecesOf(SizesOf(units, batch))(n)) == batch(units[n - 1])
  {
  }

  /** The pieces of one unit, if it is accepted. */
  function PiecesOfUnit(sizes: Sizes, draw: nat -> nat, k: nat, n: nat): seq<Piece> {
    if Accepts(n, k, draw(n)) then PiecesOf(sizes)(n) else []
  }

  lemma PiecesStep(sizes: Sizes, draw: nat -> nat, k: nat, n: nat)
    requires n >= 1 && forall i: nat :: i > 0 ==> draw(i) < i
    ensures AcceptedPieces(sizes, k, n, DrawsMade(draw, k, n))
         == AcceptedPieces(sizes, k, n - 1, DrawsMade(draw, k, n - 1))
            + PiecesOfUnit(sizes, draw, k, n)
  {
    var before := Accepted(k, n - 1, DrawsMade(draw, k, n - 1));
    AcceptedStep(draw, k, n);
    FlatMapConcat(PiecesOf(sizes), before, if Accepts(n, k, draw(n)) then [n] else []);
  }

  /** The spans that enter are those of the accepted units, piece by piece. */
  lemma {:induction false} AcceptedSpansAreThePieces(units: Units, draw: nat -> nat, k: nat, batch: Batch,
                                                     other: Window.Stored, n: nat)
    requires n <= |units| && forall i: nat :: i > 0 ==> draw(i) < i
    ensures AcceptedSpans(0, units[..n], draw, k, batch)
         == Map(SpanOf(units, batch, other), AcceptedPieces(SizesOf(units, batch), k, n, DrawsMade(draw, k, n)))
  {
    if n == 0 {
      assert Accepted(k, 0, []) == [];
    } else {
      AcceptedSpansAreThePieces(units, draw, k, batch, other, n - 1);
      NextUnit(units, draw, k, batch, other, n);
    }
  }

  lemma NextUnit(units: Units, draw: nat -> nat, k: nat, batch: Batch, other: Window.Stored, n: nat)
    requires 1 <= n <= |units| && forall i: nat :: i > 0 ==> draw(i) < i
    requires AcceptedSpans(0, units[..n - 1], draw, k, batch)
          == Map(SpanOf(units, batch, other),
                 AcceptedPieces(SizesOf(units, batch), k, n - 1, DrawsMade(draw, k, n - 1)))
    ensures AcceptedSpans(0, units[..n], draw, k, batch)
         == Map(SpanOf(units, batch, other), AcceptedPieces(SizesOf(units, batch), k, n, DrawsMade(draw, k, n)))
  {
    var sizes := SizesOf(units, batch);
    SpansStep(units, draw, k, batch, n);
    PiecesStep(sizes, draw, k, n);
    UnitRead(units, draw, k, batch, other, n);
    ReadTogether(SpanOf(units, batch, other),
                 AcceptedPieces(sizes, k, n - 1, DrawsMade(draw, k, n - 1)), PiecesOfUnit(sizes, draw, k, n),
                 AcceptedSpans(0, units[..n - 1], draw, k, batch), Admitted(n, units[n - 1], draw, k, batch));
  }

  lemma UnitRead(units: Units, draw: nat -> nat, k: nat, batch: Batch, other: Window.Stored, n: nat)
    requires 1 <= n <= |units|
    ensures Map(SpanOf(units, batch, other), PiecesOfUnit(SizesOf(units, batch), draw, k, n))
         == Admitted(n, units[n - 1], draw, k, batch)
  {
    SpansOfUnit(units, batch, other, n);
  }

  lemma ReadTogether<S, T>(f: S -> T, a: seq<S>, b: seq<S>, s: seq<T>, t: seq<T>)
    requires s == Map(f, a) && t == Map(f, b)
    ensures s + t == Map(f, a + b)
  {
    MapConcat(f, a, b);
  }

  lemma SpansStep(units: Units, draw: nat -> nat, k: nat, batch: Batch, n: nat)
    requires 1 <= n <= |units|
    ensures AcceptedSpans(0, units[..n], draw, k, batch)
         == AcceptedSpans(0, units[..n - 1], draw, k, batch)
            + Admitted(n, units[n - 1], draw, k, batch)
  {
    AcceptedSpansStep(0, units[..n], draw, k, batch);
    assert units[..n][..n - 1] == units[..n - 1];
  }

  /** The sampler's buffer after any units and draws is the buffer of pieces, read through the
      units; its draws are among those counted. */
  lemma SamplerHoldsThePieces(units: Units, draw: nat -> nat, k: nat, batch: Batch, other: Window.Stored)
    requires forall i: nat :: i > 0 ==> draw(i) < i
    ensures DrawsMade(draw, k, |units|) in AllDraws(k, |units|)
    ensures SampleUnits(Sampler(0, [], []), units, draw, k, batch).buffer
         == Map(SpanOf(units, batch, other), Held(SizesOf(units, batch), k, |units|, DrawsMade(draw, k, |units|)))
  {
    var n := |units|;
    var f, sizes := SpanOf(units, batch, other), SizesOf(units, batch);
    var pieces := AcceptedPieces(sizes, k, n, DrawsMade(draw, k, n));
    DrawsMadeExact(draw, k, n);
    calc {
      SampleUnits(Sampler(0, [], []), units, draw, k, batch).buffer;
      { OnlyAcceptedSpansEnter(Sampler(0, [], []), units, draw, k, batch); }
      AddSpans(Sampler(0, [], []), AcceptedSpans(0, units, draw, k, batch), k).buffer;
      { AddSpansBuffer(0, AcceptedSpans(0, units, draw, k, batch), k); }
      BufferAfter(AcceptedSpans(0, units, draw, k, batch), k);
      { AcceptedSpansAreThePieces(units, draw, k, batch, other, n); assert units[..n] == units; }
      BufferAfter(Map(f, pieces), k);
      { BufferOfMap(f, pieces, k); }
      Map(f, Held(sizes, k, n, DrawsMade(draw, k, n)));
    }
  }
}
