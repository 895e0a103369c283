/** Saving the sampler to storage and restoring it: the counter and the window start as eight
    little-endian bytes each, the buffered span summaries as a message.

    The message encoding is a library matter and is taken as exact: storage holds the
    message itself. */
module Checkpoint {
  import opened Wrappers
  import opened Telemetry
  import opened Words
  import opened Seqs
  import opened LruCache
  import opened Reservoir
  import Window = ReservoirWindow

  /** The two's complement word of a signed 64-bit number, and back. */
  function ToWord(t: int): int {
    if t < 0 then t + WORD else t
  }

  function FromWord(w: int): int {
    if w >= WORD / 2 then w - WORD else w
  }

  function PutInt64(t: int): seq<byte>
    requires -WORD / 2 <= t < WORD / 2
  {
    LittleEndian(ToWord(t), 8)
  }

  function Int64(bytes: seq<byte>): int {
    FromWord(FromLittleEndian(bytes))
  }

  /** The word is the two's complement of the number, and its least significant byte is stored
      first. */
  lemma PutInt64Bytes(t: int, i: nat)
    requires -WORD / 2 <= t < WORD / 2 && i < 8
    ensures 0 <= ToWord(t) < WORD && (ToWord(t) - t) % WORD == 0
    ensures PutInt64(t)[i] == ToWord(t) / Pow256(i) % 256
  {
    LittleEndianByte(ToWord(t), 8, i);
  }

  /** Both words survive the trip through storage, the signed one with its sign. */
  lemma WordsSurvive(n: nat, t: int)
    requires n < WORD && -WORD / 2 <= t < WORD / 2
    ensures FromLittleEndian(LittleEndian(n, 8)) == n
    ensures Int64(PutInt64(t)) == t
  {
    DecodeEncode(n, 8);
    DecodeEncode(ToWord(t), 8);
  }

  // ----- the checkpoint -----

  datatype Bucket = Bucket(n: Option<seq<byte>>, t0: Option<seq<byte>>, spans: Option<seq<SpanSummary>>)

  datatype Restored = Restored(n: nat, t0: int, buffer: seq<Window.Stored>)

  datatype Outcome = Loaded(state: Restored) | NoCounter | NoWindowTime | NoSpans

  function Summaries(buffer: seq<Window.Stored>): seq<SpanSummary> {
    Map((x: Window.Stored) => x.summary, buffer)
  }

  function Save(n: nat, t0: int, buffer: seq<Window.Stored>): Bucket
    requires -WORD / 2 <= t0 < WORD / 2
  {
    Bucket(Some(LittleEndian(n, 8)), Some(PutInt64(t0)), Some(Summaries(buffer)))
  }

  /** Restored spans have their summary only. */
  function Load(b: Bucket): Outcome {
    if b.n.None? then NoCounter
    else if b.t0.None? then NoWindowTime
    else if b.spans.None? then NoSpans
    else
      Loaded(Restored(FromLittleEndian(b.n.value), Int64(b.t0.value),
                      Map((s: SpanSummary) => Window.Stored.Stored(s, None), b.spans.value)))
  }

  /** Restoring a checkpoint gives back the counter, the window start and the summaries in order. */
  lemma LoadAfterSave(n: nat, t0: int, buffer: seq<Window.Stored>)
    requires n < WORD && -WORD / 2 <= t0 < WORD / 2
    ensures var r := Load(Save(n, t0, buffer));
      r.Loaded? && r.state.n == n && r.state.t0 == t0
      && Summaries(r.state.buffer) == Summaries(buffer)
      && forall x :: x in r.state.buffer ==> x.full.None?
  {
    WordsSurvive(n, t0);
  }

  method SaveCheckpoint(p: ReservoirSampler) returns (b: Bucket)
    requires p.n < WORD && -WORD / 2 <= p.t0 < WORD / 2
    ensures b == Save(p.n, p.t0, p.activeBuffer)
  {
    var summaries: seq<SpanSummary> := [];
    for i := 0 to |p.activeBuffer|
      invariant summaries == Summaries(p.activeBuffer[..i])
    {
      summaries := summaries + [p.activeBuffer[i].summary];
    }
    assert p.activeBuffer[..|p.activeBuffer|] == p.activeBuffer;
    b := Bucket(Some(LittleEndian(p.n, 8)), Some(PutInt64(p.t0)), Some(summaries));
  }

  /** Restores the sampler; when something is missing nothing but the window start changes,
      and that is set to the present, as a new sampler does. */
  method LoadCheckpoint(p: ReservoirSampler, b: Bucket, now: int) returns (ok: bool)
    modifies p`n, p`t0, p`activeBuffer
    ensures ok <==> Load(b).Loaded?
    ensures ok <==> b.n.Some? && b.t0.Some? && b.spans.Some?
    ensures ok ==> Restored(p.n, p.t0, p.activeBuffer) == Load(b).state
    ensures !ok ==> p.n == old(p.n) && p.activeBuffer == old(p.activeBuffer) && p.t0 == now
  {
    if b.n.None? || b.t0.None? || b.spans.None? {
      p.t0 := now;
      return false;
    }
    var buffer: seq<Window.Stored> := [];
    for i := 0 to |b.spans.value|
      invariant |buffer| == i
      invariant forall j :: 0 <= j < i ==> buffer[j] == Window.Stored.Stored(b.spans.value[j], None)
    {
      buffer := buffer + [Window.Stored.Stored(b.spans.value[i], None)];
    }
    p.n := FromLittleEndian(b.n.value);
    p.t0 := Int64(b.t0.value);
    p.activeBuffer := buffer;
    ok := true;
  }

  // ----- a restart and the gate -----

  /** Two samplers that the gate cannot tell apart: same counter, same summaries in order. */
  ghost predicate Alike(a: Sampler, b: Sampler) {
    a.n == b.n && Summaries(a.buffer) == Summaries(b.buffer)
  }

  lemma {:induction false} AddsKeepAlike(a: Sampler, b: Sampler, spans: seq<Window.Stored>, k: nat)
    requires Alike(a, b)
    ensures Alike(AddSpans(a, spans, k), AddSpans(b, spans, k))
  {
    if spans == [] {
    } else {
      var m := |spans| - 1;
      AddsKeepAlike(a, b, spans[..m], k);
    }
  }

  lemma {:induction false} RunsStayAlike(a: Sampler, b: Sampler, units: seq<seq<SpanInContext>>,
                                         draw: nat -> nat, k: nat, batch: Batch)
    requires Alike(a, b)
    ensures Alike(SampleUnits(a, units, draw, k, batch), SampleUnits(b, units, draw, k, batch))
  {
    if units == [] {
    } else {
      var m := |units| - 1;
      RunsStayAlike(a, b, units[..m], draw, k, batch);
      var a', b' := SampleUnits(a, units[..m], draw, k, batch), SampleUnits(b, units[..m], draw, k, batch);
      AddsKeepAlike(Sampler(a'.n + 1, a'.buffer, a'.calls), Sampler(b'.n + 1, b'.buffer, b'.calls),
                    Admitted(a'.n + 1, units[m], draw, k, batch), k);
    }
  }

  /** Restart is transparent to sampling: after saving and restoring (with an empty cache),
      every later sequence of released traces and draws admits the same spans and leaves the
      same counter and the same buffered summaries as the run that never stopped. */
  lemma RestartIsTransparent(st: Sampler, t0: int, units: seq<seq<SpanInContext>>,
                             draw: nat -> nat, k: nat, batch: Batch)
    requires st.n < WORD && -WORD / 2 <= t0 < WORD / 2
    ensures Load(Save(st.n, t0, st.buffer)).Loaded?
    ensures var r := Load(Save(st.n, t0, st.buffer)).state;
      var again := Sampler(r.n, r.buffer, []);
      AcceptedSpans(again.n, units, draw, k, batch) == AcceptedSpans(st.n, units, draw, k, batch)
      && Alike(SampleUnits(st, units, draw, k, batch), SampleUnits(again, units, draw, k, batch))
  {
    LoadAfterSave(st.n, t0, st.buffer);
    var r := Load(Save(st.n, t0, st.buffer)).state;
    RunsStayAlike(st, Sampler(r.n, r.buffer, []), units, draw, k, batch);
  }

  // ----- a restart and the cache -----

  ghost predicate AddedAgain(events: seq<Window.Event>, key: Window.SpanRef) {
    exists s :: Window.Add(s) in events && Window.KeyOf(s) == key
  }

  /** A key has been put since the restart exactly if a span with it has been added. */
  lemma {:induction false} PutIffAdded(st: Window.State, events: seq<Window.Event>, k: nat, cap: nat,
                                       key: Window.SpanRef)
    requires st.calls == []
    ensures WasPut(Window.From(st, events, k, cap).calls, key) <==> AddedAgain(events, key)
  {
    if events == [] {
    } else {
      var m := |events| - 1;
      var calls := Window.From(st, events[..m], k, cap).calls;
      PutIffAdded(st, events[..m], k, cap, key);
      assert events == events[..m] + [events[m]];
      AddsOne(events[..m], events[m], key);
      assert WasPut(calls, key) ==> WasPut(Window.From(st, events, k, cap).calls, key);
    }
  }

  lemma AddsOne(events: seq<Window.Event>, e: Window.Event, key: Window.SpanRef)
    ensures AddedAgain(events + [e], key) <==> AddedAgain(events, key) || (e.Add? && Window.KeyOf(e.s) == key)
  {
    if AddedAgain(events, key) {
      var s :| Window.Add(s) in events && Window.KeyOf(s) == key;
      assert Window.Add(s) in events + [e];
    }
    if e.Add? && Window.KeyOf(e.s) == key {
      assert Window.Add(e.s) in events + [e];
    }
    if AddedAgain(events + [e], key) {
      var s :| Window.Add(s) in events + [e] && Window.KeyOf(s) == key;
      assert Window.Add(s) in events || Window.Add(s) == e;
    }
  }

  /** What a restart does lose: a restored span has its summary only, and in every run after
      the restart looking it up hits if and only if a span with its key has been added again
      and fewer keys than the cache has places have been touched since. */
  lemma RestoredSpanHitsIff(b: Bucket, x: Window.Stored, events: seq<Window.Event>, k: nat, cap: nat)
    requires cap >= 1 && Load(b).Loaded? && x in Load(b).state.buffer
    ensures x.full.None?
    ensures var st := Window.From(Window.State(Load(b).state.buffer, 0, [], []), events, k, cap);
      Has(Run(st.calls, cap), Window.KeyOf(x))
      <==> AddedAgain(events, Window.KeyOf(x)) && Rivals(st.calls, cap, Window.KeyOf(x)) < cap
  {
    var st := Window.State(Load(b).state.buffer, 0, [], []);
    PutIffAdded(st, events, k, cap, Window.KeyOf(x));
    CachedIffPut(Window.From(st, events, k, cap).calls, cap, Window.KeyOf(x));
  }
}
