/** The trace-aware reservoir sampler: spans are buffered per trace, each released trace
    passes the random gate as one unit, the spans of an accepted trace enter the active
    buffer and the span cache, and an expired window is handed to a flush.

    The random draw for trace number i of the window is an input `draw(i)` below i. */
module Reservoir {
  import opened Wrappers
  import opened Telemetry
  import opened LruCache
  import opened ActiveBuffer
  import opened Seqs
  import Window = ReservoirWindow
  import opened AlgorithmR
  import opened TraceGroups
  import opened TraceBuffers

  /** The part of the sampler that the gate and the active buffer work on. */
  datatype Sampler = Sampler(n: nat, buffer: seq<Window.Stored>, calls: seq<Window.CacheCall>)

  function StoredSpan(s: SpanInContext): Window.Stored {
    Window.Stored.Stored(Summarize(s), Some(s))
  }

  function StoredSpans(spans: seq<SpanInContext>): (stored: seq<Window.Stored>)
    ensures |stored| == |spans|
    ensures forall i :: 0 <= i < |spans| ==> stored[i] == StoredSpan(spans[i])
  {
    seq(|spans|, i requires 0 <= i < |spans| => StoredSpan(spans[i]))
  }

  /** How a released unit becomes a list of spans to store: its spans, grouped. */
  type Batch = seq<SpanInContext> -> seq<Window.Stored>

  function GroupedBatch(render: Render): Batch {
    (unit: seq<SpanInContext>) => StoredSpans(Grouped(render, unit))
  }

  ghost predicate IsGrouping(batch: Batch, render: Render) {
    forall unit {:trigger Grouped(render, unit)} :: batch(unit) == StoredSpans(Grouped(render, unit))
  }

  /** The spans to store for a list of groups, group after group. */
  function StoredGroups(groups: seq<Group>): seq<Window.Stored> {
    if groups == [] then []
    else StoredGroups(groups[..|groups| - 1]) + StoredSpans(Labelled(groups[|groups| - 1]))
  }

  lemma StoredSpansConcat(a: seq<SpanInContext>, b: seq<SpanInContext>)
    ensures StoredSpans(a + b) == StoredSpans(a) + StoredSpans(b)
  {
  }

  lemma {:induction false} StoredGroupsFlat(groups: seq<Group>)
    ensures StoredGroups(groups) == StoredSpans(FlattenLabelled(groups))
  {
    if groups == [] {
    } else {
      var n := |groups| - 1;
      StoredGroupsFlat(groups[..n]);
      FlattenLabelledSnoc(groups[..n], groups[n]);
      assert groups == groups[..n] + [groups[n]];
      StoredSpansConcat(FlattenLabelled(groups[..n]), Labelled(groups[n]));
    }
  }

  function AddSpan(st: Sampler, x: Window.Stored, k: nat): Sampler {
    Sampler(st.n, BufferAdd(st.buffer, x, k), st.calls + [Put(Window.KeyOf(x), x)])
  }

  function AddSpans(st: Sampler, spans: seq<Window.Stored>, k: nat): Sampler {
    if spans == [] then st
    else AddSpan(AddSpans(st, spans[..|spans| - 1], k), spans[|spans| - 1], k)
  }

  /** The spans that trace number `i` brings into the buffer: all or none. */
  function Admitted(i: nat, unit: seq<SpanInContext>, draw: nat -> nat, k: nat, batch: Batch): seq<Window.Stored> {
    if Accepts(i, k, draw(i)) then batch(unit) else []
  }

  function Counting(st: Sampler, n: nat): Sampler {
    Sampler(n, st.buffer, st.calls)
  }

  /** The gate for one released trace: counted, then added whole or discarded. */
  function SampleUnit(st: Sampler, unit: seq<SpanInContext>, draw: nat -> nat, k: nat, batch: Batch): Sampler {
    AddSpans(Counting(st, st.n + 1), Admitted(st.n + 1, unit, draw, k, batch), k)
  }

  function SampleUnits(st: Sampler, units: seq<seq<SpanInContext>>, draw: nat -> nat, k: nat, batch: Batch): Sampler {
    if units == [] then st
    else SampleUnit(SampleUnits(st, units[..|units| - 1], draw, k, batch), units[|units| - 1], draw, k, batch)
  }

  /** The spans that enter the buffer while a list of units passes the gate. */
  function AcceptedSpans(n: nat, units: seq<seq<SpanInContext>>, draw: nat -> nat, k: nat, batch: Batch)
    : seq<Window.Stored>
  {
    if units == [] then []
    else
      AcceptedSpans(n, units[..|units| - 1], draw, k, batch)
      + Admitted(n + |units|, units[|units| - 1], draw, k, batch)
  }

  lemma AcceptedUnit(st: Sampler, unit: seq<SpanInContext>, draw: nat -> nat, k: nat, batch: Batch)
    requires Accepts(st.n + 1, k, draw(st.n + 1))
    ensures SampleUnit(st, unit, draw, k, batch) == AddSpans(Sampler(st.n + 1, st.buffer, st.calls), batch(unit), k)
  {
  }

  lemma RejectedUnit(st: Sampler, unit: seq<SpanInContext>, draw: nat -> nat, k: nat, batch: Batch)
    requires !Accepts(st.n + 1, k, draw(st.n + 1))
    ensures SampleUnit(st, unit, draw, k, batch) == Sampler(st.n + 1, st.buffer, st.calls)
  {
  }

  lemma AddSpansSnoc(st: Sampler, spans: seq<Window.Stored>, x: Window.Stored, k: nat)
    ensures AddSpans(st, spans + [x], k) == AddSpan(AddSpans(st, spans, k), x, k)
  {
    assert (spans + [x])[..|spans|] == spans;
  }

  lemma {:induction false} AddSpansConcat(st: Sampler, a: seq<Window.Stored>, b: seq<Window.Stored>, k: nat)
    ensures AddSpans(st, a + b, k) == AddSpans(AddSpans(st, a, k), b, k)
  {
    if b == [] {
      assert a + b == a;
    } else {
      var n := |b| - 1;
      AddSpansConcat(st, a, b[..n], k);
      AddSpansSnoc(st, a + b[..n], b[n], k);
      assert a + b == (a + b[..n]) + [b[n]];
    }
  }

  lemma {:induction false} CounterApart(st: Sampler, spans: seq<Window.Stored>, k: nat, n: nat)
    ensures AddSpans(Counting(st, n), spans, k) == Counting(AddSpans(st, spans, k), n)
  {
    if spans == [] {
    } else {
      CounterApart(st, spans[..|spans| - 1], k, n);
    }
  }

  lemma SampleUnitsSnoc(st: Sampler, units: seq<seq<SpanInContext>>, unit: seq<SpanInContext>,
                        draw: nat -> nat, k: nat, batch: Batch)
    ensures SampleUnits(st, units + [unit], draw, k, batch)
         == SampleUnit(SampleUnits(st, units, draw, k, batch), unit, draw, k, batch)
  {
    assert (units + [unit])[..|units|] == units;
  }

  lemma {:induction false} SampleUnitsConcat(st: Sampler, a: seq<seq<SpanInContext>>, b: seq<seq<SpanInContext>>,
                                             draw: nat -> nat, k: nat, batch: Batch)
    ensures SampleUnits(st, a + b, draw, k, batch)
         == SampleUnits(SampleUnits(st, a, draw, k, batch), b, draw, k, batch)
  {
    if b == [] {
      assert a + b == a;
    } else {
      var n := |b| - 1;
      SampleUnitsConcat(st, a, b[..n], draw, k, batch);
      SampleUnitsSnoc(st, a + b[..n], b[n], draw, k, batch);
      assert a + b == (a + b[..n]) + [b[n]];
    }
  }

  lemma SampleUnitsStep(st: Sampler, units: seq<seq<SpanInContext>>, draw: nat -> nat, k: nat, batch: Batch, i: nat)
    requires units != [] && i == SampleUnits(st, units[..|units| - 1], draw, k, batch).n + 1
    ensures SampleUnits(st, units, draw, k, batch)
         == AddSpans(Counting(SampleUnits(st, units[..|units| - 1], draw, k, batch), i),
                     Admitted(i, units[|units| - 1], draw, k, batch), k)
  {
  }

  lemma AcceptedSpansStep(n: nat, units: seq<seq<SpanInContext>>, draw: nat -> nat, k: nat, batch: Batch)
    requires units != []
    ensures AcceptedSpans(n, units, draw, k, batch)
         == AcceptedSpans(n, units[..|units| - 1], draw, k, batch)
            + Admitted(n + |units|, units[|units| - 1], draw, k, batch)
  {
  }

  /** Whatever the units and draws, the sampler ends as if the accepted spans had been added
      one after the other, with the counter advanced by the number of units. */
  lemma {:induction false} OnlyAcceptedSpansEnter(st: Sampler, units: seq<seq<SpanInContext>>,
                                                  draw: nat -> nat, k: nat, batch: Batch)
    ensures SampleUnits(st, units, draw, k, batch)
         == Counting(AddSpans(st, AcceptedSpans(st.n, units, draw, k, batch), k), st.n + |units|)
  {
    if units == [] {
    } else {
      OnlyAcceptedSpansEnter(st, units[..|units| - 1], draw, k, batch);
      OneMoreUnitEnters(st, units, draw, k, batch);
    }
  }

  lemma OneMoreUnitEnters(st: Sampler, units: seq<seq<SpanInContext>>, draw: nat -> nat, k: nat, batch: Batch)
    requires units != []
    requires var m := |units| - 1;
      SampleUnits(st, units[..m], draw, k, batch)
      == Counting(AddSpans(st, AcceptedSpans(st.n, units[..m], draw, k, batch), k), st.n + m)
    ensures SampleUnits(st, units, draw, k, batch)
         == Counting(AddSpans(st, AcceptedSpans(st.n, units, draw, k, batch), k), st.n + |units|)
  {
    var m, n := |units| - 1, st.n + |units|;
    var before, more := AcceptedSpans(st.n, units[..m], draw, k, batch), Admitted(n, units[m], draw, k, batch);
    var plain := AddSpans(st, before, k);
    calc {
      SampleUnits(st, units, draw, k, batch);
      { SampleUnitsStep(st, units, draw, k, batch, n); }
      AddSpans(Counting(plain, n), more, k);
      { CounterApart(plain, more, k, n); }
      Counting(AddSpans(plain, more, k), n);
      { AddSpansConcat(st, before, more, k); }
      Counting(AddSpans(st, before + more, k), n);
      { AcceptedSpansStep(st.n, units, draw, k, batch); }
      Counting(AddSpans(st, AcceptedSpans(st.n, units, draw, k, batch), k), n);
    }
  }

  lemma {:induction false} AddSpansBuffer(n: nat, spans: seq<Window.Stored>, k: nat)
    ensures AddSpans(Sampler(n, [], []), spans, k).buffer == BufferAfter(spans, k)
  {
    if spans == [] {
    } else {
      AddSpansBuffer(n, spans[..|spans| - 1], k);
    }
  }

  /** What a window's buffer holds at any moment: the suffix of length ((m - 1) mod k) + 1 of
      the m accepted spans.  All spans of all accepted traces are there if and only if they
      number at most k. */
  lemma WindowBuffer(units: seq<seq<SpanInContext>>, draw: nat -> nat, k: nat, batch: Batch)
    requires k >= 1
    ensures IsHeldPart(SampleUnits(Sampler(0, [], []), units, draw, k, batch).buffer,
                       AcceptedSpans(0, units, draw, k, batch), k)
  {
    var spans := AcceptedSpans(0, units, draw, k, batch);
    calc {
      SampleUnits(Sampler(0, [], []), units, draw, k, batch).buffer;
      { OnlyAcceptedSpansEnter(Sampler(0, [], []), units, draw, k, batch); }
      AddSpans(Sampler(0, [], []), spans, k).buffer;
      { AddSpansBuffer(0, spans, k); }
      BufferAfter(spans, k);
    }
    BufferLaw(spans, k);
  }

  // ----- steps of the window machine -----

  /** The sampler's buffer and cache calls are those of a state of the window machine. */
  ghost predicate Agrees(st: Sampler, w: Window.State) {
    w.buffer == st.buffer && w.calls == st.calls
  }

  function Adds(spans: seq<Window.Stored>): seq<Window.Event> {
    Map((x: Window.Stored) => Window.Add(x), spans)
  }

  /** Storing spans is a run of Add events of the machine, and leaves its flushes alone. */
  lemma {:induction false} AddsAreSteps(st: Sampler, w: Window.State, spans: seq<Window.Stored>, k: nat, cap: nat)
    requires Agrees(st, w)
    ensures Agrees(AddSpans(st, spans, k), Window.From(w, Adds(spans), k, cap))
    ensures Window.From(w, Adds(spans), k, cap).jobs == w.jobs
  {
    if spans == [] {
    } else {
      var m := |spans| - 1;
      AddsAreSteps(st, w, spans[..m], k, cap);
      assert Adds(spans)[..m] == Adds(spans[..m]);
    }
  }

  /** Sampling any units is a run of the machine: one Add for every span accepted. */
  lemma SamplingIsARun(st: Sampler, w: Window.State, units: seq<seq<SpanInContext>>,
                       draw: nat -> nat, k: nat, cap: nat, batch: Batch)
    requires Agrees(st, w)
    ensures var w' := Window.From(w, Adds(AcceptedSpans(st.n, units, draw, k, batch)), k, cap);
      Agrees(SampleUnits(st, units, draw, k, batch), w') && w'.jobs == w.jobs
  {
    OnlyAcceptedSpansEnter(st, units, draw, k, batch);
    AddsAreSteps(st, w, AcceptedSpans(st.n, units, draw, k, batch), k, cap);
  }

  // ----- the flush goroutine -----

  /** One pending flush: it looks its spans up in the cache one at a time, so other calls may
      reach the cache between two steps. */
  class FlushJob {
    const oldBuffer: seq<Window.Stored>
    var next: nat
    var traces: seq<Window.Stored>
    var missingCount: nat

    /** The flush is in the state of a job of the window machine, but for the machine's mark. */
    ghost predicate Shows(job: Window.Job)
      reads this
    {
      && next <= |oldBuffer| && job.flushed == oldBuffer && job.pending == oldBuffer[next..]
      && job.emitted == traces && job.missing == missingCount
    }

    constructor (oldBuffer: seq<Window.Stored>)
      ensures this.oldBuffer == oldBuffer && next == 0 && traces == [] && missingCount == 0
    {
      this.oldBuffer := oldBuffer;
      next, traces, missingCount := 0, [], 0;
    }

    /** One lookup.  Whatever else has happened to the machine, it is a ReadNext step of it. */
    method Step(spanLRU: Lru<Window.SpanRef, Window.Stored>, ghost w: Window.State, ghost j: nat, ghost k: nat)
      requires spanLRU.Valid() && next < |oldBuffer|
      requires j < |w.jobs| && Shows(w.jobs[j]) && w.calls == spanLRU.history
      modifies this, spanLRU
      ensures spanLRU.Valid() && next == old(next) + 1
      ensures Window.Reads(w, j)
      ensures var w' := Window.Next(w, Window.ReadNext(j), k, spanLRU.size);
        Shows(w'.jobs[j]) && w'.calls == spanLRU.history && w'.buffer == w.buffer
      ensures var key := Window.KeyOf(oldBuffer[old(next)]);
        if Has(old(spanLRU.items), key) then
          traces == old(traces) + [Find(old(spanLRU.items), key)] && missingCount == old(missingCount)
        else traces == old(traces) && missingCount == old(missingCount) + 1
    {
      var key := Window.KeyOf(oldBuffer[next]);
      var ok, full := spanLRU.Get(key);
      if ok {
        traces := traces + [full.value];
      } else {
        missingCount := missingCount + 1;
      }
      next := next + 1;
      assert w.jobs[j].pending[0] == oldBuffer[next - 1];
    }
  }

  // ----- the processor -----

  class ReservoirSampler {
    var k: nat
    const windowNS: int
    var n: nat
    var t0: int
    var activeBuffer: seq<Window.Stored>
    const spanLRU: Lru<Window.SpanRef, Window.Stored>
    const traceBuffers: TraceBufferMap
    const render: Render
    ghost const batch: Batch
    var completeTraceCount: nat
    var timedOutTraceCount: nat

    ghost predicate Valid()
      reads this, spanLRU, traceBuffers, traceBuffers.buffers.Values
    {
      k >= 1 && spanLRU.Valid() && traceBuffers.Valid() && IsGrouping(batch, render)
    }

    ghost function AsSampler(): Sampler
      reads this, spanLRU
    {
      Sampler(n, activeBuffer, spanLRU.history)
    }

    constructor (sizeK: nat, windowNS: int, traceTimeout: int, render: Render, now: int)
      requires sizeK >= 1
      ensures Valid() && fresh(spanLRU) && fresh(traceBuffers) && traceBuffers.buffers == map[]
      ensures k == sizeK && spanLRU.size == 2 * sizeK && t0 == now
      ensures AsSampler() == Sampler(0, [], []) && traceBuffers.events == []
      ensures this.windowNS == windowNS && this.render == render && traceBuffers.bufferTTL == traceTimeout
    {
      k, this.windowNS, n, t0 := sizeK, windowNS, 0, now;
      activeBuffer := [];
      spanLRU := new Lru(2 * sizeK);
      traceBuffers := new TraceBufferMap(traceTimeout);
      this.render := render;
      batch := GroupedBatch(render);
      completeTraceCount, timedOutTraceCount := 0, 0;
    }

    /** Changes the capacity at run time; the cache keeps the size it was built with. */
    method SetK(newK: int)
      requires Valid()
      modifies this`k
      ensures Valid()
      ensures k == if newK > 0 then newK else old(k)
    {
      if newK > 0 {
        k := newK;
      }
    }

    method AddSpanToReservoir(s: SpanInContext)
      requires spanLRU.Valid()
      modifies this`activeBuffer, spanLRU
      ensures spanLRU.Valid()
      ensures AsSampler() == AddSpan(old(AsSampler()), StoredSpan(s), k)
    {
      var x := StoredSpan(s);
      var evicted := spanLRU.Add(Window.KeyOf(x), x);
      if |activeBuffer| >= k {
        activeBuffer := [x];
      } else {
        activeBuffer := activeBuffer + [x];
      }
    }

    /** Adds every span of an accepted trace, group by group. */
    method AddTraceToReservoir(groups: seq<Group>)
      requires spanLRU.Valid()
      modifies this`activeBuffer, spanLRU
      ensures spanLRU.Valid()
      ensures AsSampler() == AddSpans(old(AsSampler()), StoredGroups(groups), k)
    {
      for i := 0 to |groups|
        invariant spanLRU.Valid()
        invariant AsSampler() == AddSpans(old(AsSampler()), StoredGroups(groups[..i]), k)
      {
        AddSpansConcat(old(AsSampler()), StoredGroups(groups[..i]), StoredSpans(Labelled(groups[i])), k);
        assert groups[..i + 1][..i] == groups[..i];
        ghost var st := AsSampler();
        AddGroup(Labelled(groups[i]));
        assert AsSampler() == AddSpans(st, StoredSpans(Labelled(groups[i])), k);
      }
      assert groups[..|groups|] == groups;
    }

    method AddGroup(spans: seq<SpanInContext>)
      requires spanLRU.Valid()
      modifies this`activeBuffer, spanLRU
      ensures spanLRU.Valid()
      ensures AsSampler() == AddSpans(old(AsSampler()), StoredSpans(spans), k)
    {
      ghost var stored := StoredSpans(spans);
      for j := 0 to |spans|
        invariant spanLRU.Valid()
        invariant AsSampler() == AddSpans(old(AsSampler()), stored[..j], k)
      {
        AddSpansSnoc(old(AsSampler()), stored[..j], stored[j], k);
        assert stored[..j] + [stored[j]] == stored[..j + 1];
        ghost var st := AsSampler();
        AddSpanToReservoir(spans[j]);
        assert AsSampler() == AddSpan(st, stored[j], k);
      }
      assert stored[..|stored|] == stored;
    }

    method GroupUnit(unit: seq<SpanInContext>) returns (groups: seq<Group>)
      requires IsGrouping(batch, render)
      ensures StoredGroups(groups) == batch(unit)
    {
      groups := ToTraces(render, unit);
      StoredGroupsFlat(groups);
      assert batch(unit) == StoredSpans(Grouped(render, unit));
    }

    /** The gate: a released trace is counted, then added whole or discarded. */
    method SampleTrace(unit: seq<SpanInContext>, draw: nat -> nat)
      requires spanLRU.Valid() && IsGrouping(batch, render)
      requires forall i: nat :: i > 0 ==> draw(i) < i
      modifies this`n, this`activeBuffer, spanLRU
      ensures spanLRU.Valid()
      ensures AsSampler() == SampleUnit(old(AsSampler()), unit, draw, k, batch)
    {
      var groups := GroupUnit(unit);
      ghost var st := AsSampler();
      n := n + 1;
      var selected := n <= k;
      if !selected {
        var r := draw(n);
        selected := r < k;
      }
      if selected {
        AcceptedUnit(st, unit, draw, k, batch);
        AddTraceToReservoir(groups);
      } else {
        RejectedUnit(st, unit, draw, k, batch);
      }
    }

    /** Counts each released trace as complete or timed out and passes it through the gate. */
    method SampleTraces(buffers: seq<TraceBuffer>, draw: nat -> nat, ghost units: seq<seq<SpanInContext>>,
                        ghost complete: bool)
      requires spanLRU.Valid() && IsGrouping(batch, render)
      requires forall i: nat :: i > 0 ==> draw(i) < i
      requires |units| == |buffers|
      requires forall i :: 0 <= i < |buffers| ==>
        units[i] == buffers[i].spans && buffers[i].hasRootSpan == complete
      modifies this`n, this`activeBuffer, this`completeTraceCount, this`timedOutTraceCount, spanLRU
      ensures spanLRU.Valid()
      ensures AsSampler() == SampleUnits(old(AsSampler()), units, draw, k, batch)
      ensures completeTraceCount == old(completeTraceCount) + if complete then |units| else 0
      ensures timedOutTraceCount == old(timedOutTraceCount) + if complete then 0 else |units|
    {
      for i := 0 to |buffers|
        invariant spanLRU.Valid()
        invariant AsSampler() == SampleUnits(old(AsSampler()), units[..i], draw, k, batch)
        invariant completeTraceCount == old(completeTraceCount) + if complete then i else 0
        invariant timedOutTraceCount == old(timedOutTraceCount) + if complete then 0 else i
      {
        SampleBuffer(buffers[i], draw, old(AsSampler()), units[..i], units[i]);
        TakeOneMore(units, i);
      }
      assert units[..|buffers|] == units;
    }

    method SampleBuffer(buffer: TraceBuffer, draw: nat -> nat,
                        ghost start: Sampler, ghost units: seq<seq<SpanInContext>>, ghost unit: seq<SpanInContext>)
      requires spanLRU.Valid() && IsGrouping(batch, render)
      requires forall i: nat :: i > 0 ==> draw(i) < i
      requires AsSampler() == SampleUnits(start, units, draw, k, batch) && unit == buffer.spans
      modifies this`n, this`activeBuffer, this`completeTraceCount, this`timedOutTraceCount, spanLRU
      ensures spanLRU.Valid()
      ensures AsSampler() == SampleUnits(start, units + [unit], draw, k, batch)
      ensures completeTraceCount == old(completeTraceCount) + if buffer.hasRootSpan then 1 else 0
      ensures timedOutTraceCount == old(timedOutTraceCount) + if buffer.hasRootSpan then 0 else 1
    {
      SampleUnitsSnoc(start, units, unit, draw, k, batch);
      if buffer.IsComplete() {
        completeTraceCount := completeTraceCount + 1;
      } else {
        timedOutTraceCount := timedOutTraceCount + 1;
      }
      SampleTrace(buffer.spans, draw);
    }

    /** Files a span, then samples the trace it completes and every trace overdue by now.
        The sampler has then seen exactly the units the buffers released, in that order. */
    method ProcessSpan(s: SpanInContext, now: int, draw: nat -> nat)
      returns (ghost order: seq<TraceId>, ghost units: seq<seq<SpanInContext>>)
      requires Valid()
      requires forall i: nat :: i > 0 ==> draw(i) < i
      modifies this`n, this`activeBuffer, this`completeTraceCount, this`timedOutTraceCount, spanLRU, traceBuffers,
        if s.span.traceId in traceBuffers.buffers then {traceBuffers.buffers[s.span.traceId]} else {}
      ensures Valid()
      ensures forall x :: x in traceBuffers.buffers ==>
        || fresh(traceBuffers.buffers[x])
        || (x in old(traceBuffers.buffers) && traceBuffers.buffers[x] == old(traceBuffers.buffers)[x])
      ensures traceBuffers.events == old(traceBuffers.events) + [Add(s, now)] + [Sweep(order, now, false)]
      ensures ReleasedUnits() == old(ReleasedUnits()) + units
      ensures AsSampler() == SampleUnits(old(AsSampler()), units, draw, k, batch)
      ensures completeTraceCount == old(completeTraceCount) + if s.span.IsRoot() then 1 else 0
      ensures completeTraceCount + timedOutTraceCount == old(completeTraceCount + timedOutTraceCount) + |units|
      ensures NothingOverdue(now)
    {
      ghost var st, released := AsSampler(), ReleasedUnits();
      ghost var first := SampleCompleted(s, now, draw);
      ghost var second;
      order, second := SampleOverdue(now, draw);
      units := first + second;
      assert ReleasedUnits() == released + units by {
        Associative(released, first, second);
      }
      assert AsSampler() == SampleUnits(st, units, draw, k, batch) by {
        SampleUnitsConcat(st, first, second, draw, k, batch);
      }
    }

    /** No buffered trace has been quiet for longer than the timeout. */
    ghost predicate NothingOverdue(now: int)
      reads this, traceBuffers, traceBuffers.buffers.Values
    {
      forall id :: id in traceBuffers.buffers ==>
        now - traceBuffers.buffers[id].updateTime <= traceBuffers.bufferTTL
    }

    /** Every unit released so far, in order. */
    ghost function ReleasedUnits(): seq<seq<SpanInContext>>
      reads this, traceBuffers
    {
      Units(After(traceBuffers.events, traceBuffers.bufferTTL).log)
    }

    /** Samples what the trace buffers have released; they themselves stay as they are. */
    method SampleReleased(released: seq<TraceBuffer>, draw: nat -> nat, ghost units: seq<seq<SpanInContext>>,
                          ghost complete: bool)
      requires Valid()
      requires forall i: nat :: i > 0 ==> draw(i) < i
      requires |units| == |released|
      requires forall i :: 0 <= i < |released| ==>
        units[i] == released[i].spans && released[i].hasRootSpan == complete
      modifies this`n, this`activeBuffer, this`completeTraceCount, this`timedOutTraceCount, spanLRU
      ensures Valid() && ReleasedUnits() == old(ReleasedUnits())
      ensures AsSampler() == SampleUnits(old(AsSampler()), units, draw, k, batch)
      ensures completeTraceCount == old(completeTraceCount) + if complete then |units| else 0
      ensures timedOutTraceCount == old(timedOutTraceCount) + if complete then 0 else |units|
    {
      SampleTraces(released, draw, units, complete);
    }

    method SampleCompleted(s: SpanInContext, now: int, draw: nat -> nat) returns (ghost units: seq<seq<SpanInContext>>)
      requires Valid()
      requires forall i: nat :: i > 0 ==> draw(i) < i
      modifies this`n, this`activeBuffer, this`completeTraceCount, this`timedOutTraceCount, spanLRU, traceBuffers,
        if s.span.traceId in traceBuffers.buffers then {traceBuffers.buffers[s.span.traceId]} else {}
      ensures Valid()
      ensures forall x :: x in traceBuffers.buffers ==>
        || fresh(traceBuffers.buffers[x])
        || (x in old(traceBuffers.buffers) && traceBuffers.buffers[x] == old(traceBuffers.buffers)[x])
      ensures traceBuffers.events == old(traceBuffers.events) + [Add(s, now)]
      ensures ReleasedUnits() == old(ReleasedUnits()) + units
      ensures AsSampler() == SampleUnits(old(AsSampler()), units, draw, k, batch)
      ensures completeTraceCount == old(completeTraceCount) + |units|
      ensures timedOutTraceCount == old(timedOutTraceCount)
      ensures |units| == if s.span.IsRoot() then 1 else 0
    {
      ghost var st := AsSampler();
      var completed;
      completed, units := traceBuffers.AddSpanLogged(s, now);
      assert AsSampler() == st;
      SampleReleased(completed, draw, units, true);
    }

    method SampleOverdue(now: int, draw: nat -> nat)
      returns (ghost order: seq<TraceId>, ghost units: seq<seq<SpanInContext>>)
      requires Valid()
      requires forall i: nat :: i > 0 ==> draw(i) < i
      modifies this`n, this`activeBuffer, this`completeTraceCount, this`timedOutTraceCount, spanLRU, traceBuffers
      ensures Valid()
      ensures forall x :: x in traceBuffers.buffers ==>
        x in old(traceBuffers.buffers) && traceBuffers.buffers[x] == old(traceBuffers.buffers)[x]
      ensures traceBuffers.events == old(traceBuffers.events) + [Sweep(order, now, false)]
      ensures ReleasedUnits() == old(ReleasedUnits()) + units
      ensures AsSampler() == SampleUnits(old(AsSampler()), units, draw, k, batch)
      ensures completeTraceCount == old(completeTraceCount)
      ensures timedOutTraceCount == old(timedOutTraceCount) + |units|
      ensures NothingOverdue(now)
    {
      var overdue;
      overdue, order, units := traceBuffers.GetCompletedAndTimedOutTraces(now);
      SampleReleased(overdue, draw, units, false);
    }

    /** Hands the active buffer to a flush; an empty buffer needs none. */
    method Flush() returns (job: FlushJob?)
      modifies this`activeBuffer
      ensures AsSampler() == old(AsSampler()).(buffer := [])
      ensures job == null <==> old(activeBuffer) == []
      ensures job != null ==>
        fresh(job) && job.Shows(Window.Job(old(activeBuffer), old(activeBuffer), 0, [], 0))
    {
      var oldBuffer := activeBuffer;
      activeBuffer := [];
      if |oldBuffer| == 0 {
        return null;
      }
      job := new FlushJob(oldBuffer);
    }

    /** Flushes the window and starts a new one. */
    method ResetWindow(now: int) returns (job: FlushJob?)
      modifies this`activeBuffer, this`n, this`t0
      ensures t0 == now && AsSampler() == Sampler(0, [], old(AsSampler()).calls)
      ensures job == null <==> old(activeBuffer) == []
      ensures job != null ==>
        fresh(job) && job.Shows(Window.Job(old(activeBuffer), old(activeBuffer), 0, [], 0))
    {
      job := Flush();
      n, t0 := 0, now;
      activeBuffer := [];
    }

    /** One span of a batch: what was sampled and released since the start grows by the same units. */
    method ConsumeSpan(s: SpanInContext, now: int, draw: nat -> nat,
                       ghost start: Sampler, ghost released: seq<seq<SpanInContext>>,
                       ghost units: seq<seq<SpanInContext>>)
      returns (ghost all: seq<seq<SpanInContext>>)
      requires Valid()
      requires forall i: nat :: i > 0 ==> draw(i) < i
      requires ReleasedUnits() == released + units && AsSampler() == SampleUnits(start, units, draw, k, batch)
      modifies this`n, this`activeBuffer, this`completeTraceCount, this`timedOutTraceCount, spanLRU, traceBuffers,
        if s.span.traceId in traceBuffers.buffers then {traceBuffers.buffers[s.span.traceId]} else {}
      ensures Valid()
      ensures forall x :: x in traceBuffers.buffers ==>
        || fresh(traceBuffers.buffers[x])
        || (x in old(traceBuffers.buffers) && traceBuffers.buffers[x] == old(traceBuffers.buffers)[x])
      ensures ReleasedUnits() == released + all && AsSampler() == SampleUnits(start, all, draw, k, batch)
      ensures Arrivals(traceBuffers.events) == old(Arrivals(traceBuffers.events)) + [s] && NothingOverdue(now)
    {
      ghost var more;
      ghost var order;
      ghost var before := traceBuffers.events;
      order, more := ProcessSpan(s, now, draw);
      ArrivalsOfOne(before, s, order, now);
      SampleUnitsConcat(start, units, more, draw, k, batch);
      Associative(released, units, more);
      all := units + more;
    }

    /** Processes every span of a batch: the sampler sees exactly the units the buffers release. */
    method ConsumeAll(spans: seq<SpanInContext>, now: int, draw: nat -> nat)
      returns (ghost units: seq<seq<SpanInContext>>)
      requires Valid()
      requires forall i: nat :: i > 0 ==> draw(i) < i
      modifies this`n, this`activeBuffer, this`completeTraceCount, this`timedOutTraceCount, spanLRU, traceBuffers,
        traceBuffers.buffers.Values
      ensures Valid()
      ensures Arrivals(traceBuffers.events) == old(Arrivals(traceBuffers.events)) + spans
      ensures |spans| > 0 ==> NothingOverdue(now)
      ensures ReleasedUnits() == old(ReleasedUnits()) + units
      ensures AsSampler() == SampleUnits(old(AsSampler()), units, draw, k, batch)
    {
      units := [];
      ghost var start, released, arrived := AsSampler(), ReleasedUnits(), Arrivals(traceBuffers.events);
      for i := 0 to |spans|
        invariant Valid()
        invariant forall x :: x in traceBuffers.buffers ==>
          fresh(traceBuffers.buffers[x]) || traceBuffers.buffers[x] in old(traceBuffers.buffers.Values)
        invariant Arrivals(traceBuffers.events) == arrived + spans[..i]
        invariant i > 0 ==> NothingOverdue(now)
        invariant ReleasedUnits() == released + units
        invariant AsSampler() == SampleUnits(start, units, draw, k, batch)
      {
        units := ConsumeSpan(spans[i], now, draw, start, released, units);
        TakeOneMore(spans, i);
        Associative(arrived, spans[..i], [spans[i]]);
      }
      assert spans[..|spans|] == spans;
    }

    /** Takes in a batch: an expired window is first handed to a flush, then every span is
        processed.  What the sampler has seen of the window is what the buffers released. */
    method ConsumeTraces(spans: seq<SpanInContext>, now: int, draw: nat -> nat)
      returns (job: FlushJob?, ghost units: seq<seq<SpanInContext>>)
      requires Valid()
      requires forall i: nat :: i > 0 ==> draw(i) < i
      modifies this, spanLRU, traceBuffers, traceBuffers.buffers.Values
      ensures Valid() && k == old(k)
      ensures t0 == if now - old(t0) > windowNS then now else old(t0)
      ensures Arrivals(traceBuffers.events) == old(Arrivals(traceBuffers.events)) + spans
      ensures |spans| > 0 ==> NothingOverdue(now)
      ensures ReleasedUnits() == old(ReleasedUnits()) + units
      ensures AsSampler() == SampleUnits(
        if now - old(t0) > windowNS then Sampler(0, [], old(spanLRU.history)) else old(AsSampler()),
        units, draw, k, batch)
      ensures job == null <==> now - old(t0) <= windowNS || old(activeBuffer) == []
      ensures job != null ==>
        fresh(job) && job.Shows(Window.Job(old(activeBuffer), old(activeBuffer), 0, [], 0))
    {
      job := null;
      if now - t0 > windowNS {
        job := ResetWindow(now);
      }
      ghost var start, released := AsSampler(), ReleasedUnits();
      assert Valid() && released == old(ReleasedUnits());
      assert Arrivals(traceBuffers.events) == old(Arrivals(traceBuffers.events));
      units := ConsumeAll(spans, now, draw);
    }
  }
}
