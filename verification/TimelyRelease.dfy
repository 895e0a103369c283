/** When traces leave the buffers, said in terms of the log alone: a root span takes its trace
    with it at once, and a sweep takes exactly the traces that were quiet for longer than the
    timeout. */
module TimelyRelease {
  import opened Telemetry
  import opened TraceBuffers

  /** The span has no parent: all eight bytes of the parent's identifier are zero. */
  ghost predicate HasNoParent(s: SpanInContext) {
    forall i :: 0 <= i < 8 ==> s.span.parentSpanId[i] == 0
  }

  ghost predicate Quiet(log: seq<Entry>, id: TraceId, now: int, ttl: int) {
    now - LastArrival(log, id) > ttl
  }

  /** After an arrival in any run: if the span has no parent its trace is released at once, whole
      and in arrival order; otherwise the span waits behind those of its trace. */
  lemma ArrivalLaw(events: seq<Event>, s: SpanInContext, now: int, ttl: int)
    ensures var id, before := s.span.traceId, After(events, ttl).log;
      var after := After(events + [Add(s, now)], ttl).log;
      var all := Pending(before, id) + [s];
      if HasNoParent(s) then Pending(after, id) == [] && Units(after) == Units(before) + [all]
      else Pending(after, id) == all && Units(after) == Units(before)
  {
    var w, id := After(events, ttl), s.span.traceId;
    AfterSnoc(events, Add(s, now), ttl);
    ReleaseLaw(events, ttl);
    AddStepByLog(w.view, w.log, s, now);
    PendingAppend(w.log, Arrived(s, now), id);
    UnitsSnoc(w.log, Arrived(s, now));
    if s.span.IsRoot() {
      var mid, r := w.log + [Arrived(s, now)], Released(id, Pending(w.log, id) + [s], now);
      PendingAppend(mid, r, id);
      UnitsSnoc(mid, r);
      assert w.log + [Arrived(s, now), r] == mid + [r];
    }
  }

  /** After a sweep in any run: of the traces it visits exactly those quiet for longer than the
      timeout have left, and nothing else has changed. */
  lemma SweepLaw(events: seq<Event>, ids: seq<TraceId>, now: int, drop: bool, ttl: int, id: TraceId)
    ensures var before := After(events, ttl).log;
      Pending(After(events + [Sweep(ids, now, drop)], ttl).log, id)
      == if id in ids && Quiet(before, id, now, ttl) then [] else Pending(before, id)
  {
    var w := After(events, ttl);
    AfterSnoc(events, Sweep(ids, now, drop), ttl);
    ReleaseLaw(events, ttl);
    SweepStepView(w, ids, now, ttl, drop);
    SweepKeeps(w, ids, now, ttl, drop);
    assert MatchesAt(w.view, w.log, id);
    var w' := SweepStep(w, ids, now, ttl, drop);
    assert MatchesAt(w'.view, w'.log, id);
  }

  /** So a sweep that visits every buffered trace leaves no quiet one pending, however many
      spans it has and whenever they came. */
  lemma NothingQuietStays(events: seq<Event>, ids: seq<TraceId>, now: int, drop: bool, ttl: int)
    requires forall id :: id in After(events, ttl).view ==> id in ids
    ensures var before := After(events, ttl).log;
      var after := After(events + [Sweep(ids, now, drop)], ttl).log;
      forall id :: Pending(after, id) == if Quiet(before, id, now, ttl) then [] else Pending(before, id)
  {
    ReleaseLaw(events, ttl);
    var w := After(events, ttl);
    forall id ensures Pending(After(events + [Sweep(ids, now, drop)], ttl).log, id)
      == if Quiet(w.log, id, now, ttl) then [] else Pending(w.log, id)
    {
      assert MatchesAt(w.view, w.log, id);
      SweepLaw(events, ids, now, drop, ttl, id);
    }
  }
}
