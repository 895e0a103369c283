/** The periodic cleanup drops timed-out traces instead of sampling them: when that loses spans. */
module DroppedTraces {
  import opened Telemetry
  import opened TraceBuffers
  import opened Wrappers

  /** None of the traces a sweep visits is buffered and overdue. */
  ghost predicate VisitsNoneOverdue(w: World, ids: seq<TraceId>, now: int, ttl: int) {
    forall id :: id in ids && id in w.view ==> !w.view[id].Overdue(now, ttl)
  }

  lemma DroppedSnoc(log: seq<Entry>, e: Entry)
    ensures DroppedSpans(log + [e]) == DroppedSpans(log) + if e.Dropped? then multiset(e.spans) else multiset{}
  {
    assert (log + [e])[..|log|] == log;
  }

  lemma {:induction false} VisitsWithoutEffect(w: World, ids: seq<TraceId>, now: int, ttl: int, drop: bool)
    requires VisitsNoneOverdue(w, ids, now, ttl)
    ensures SweepStep(w, ids, now, ttl, drop) == w
  {
    if ids == [] {
    } else {
      var n := |ids| - 1;
      VisitsSnoc(w, ids, now, ttl);
      VisitsWithoutEffect(w, ids[..n], now, ttl, drop);
    }
  }

  lemma {:induction false} ReleaseDropsNothing(w: World, ids: seq<TraceId>, now: int, ttl: int)
    ensures DroppedSpans(SweepStep(w, ids, now, ttl, false).log) == DroppedSpans(w.log)
  {
    if ids == [] {
    } else {
      var n := |ids| - 1;
      var before := SweepStep(w, ids[..n], now, ttl, false);
      ReleaseDropsNothing(w, ids[..n], now, ttl);
      if ids[n] in before.view {
        DroppedSnoc(before.log, Released(ids[n], before.view[ids[n]].spans, now));
      }
    }
  }

  lemma {:induction false} CleanupDropsNothingIff(w: World, ids: seq<TraceId>, now: int, ttl: int)
    requires Matches(w.view, w.log) && LawfulLog(w.log, ttl)
    ensures DroppedSpans(SweepStep(w, ids, now, ttl, true).log) == multiset{}
       <==> DroppedSpans(w.log) == multiset{} && VisitsNoneOverdue(w, ids, now, ttl)
  {
    if ids == [] {
    } else {
      var n := |ids| - 1;
      VisitsSnoc(w, ids, now, ttl);
      CleanupDropsNothingIff(w, ids[..n], now, ttl);
      SweepKeeps(w, ids[..n], now, ttl, true);
      DepartDropsNothingIff(SweepStep(w, ids[..n], now, ttl, true), ids[n], now, ttl);
      if VisitsNoneOverdue(w, ids[..n], now, ttl) {
        VisitsWithoutEffect(w, ids[..n], now, ttl, true);
      }
    }
  }

  lemma VisitsSnoc(w: World, ids: seq<TraceId>, now: int, ttl: int)
    requires ids != []
    ensures var n := |ids| - 1;
      VisitsNoneOverdue(w, ids, now, ttl) <==>
      VisitsNoneOverdue(w, ids[..n], now, ttl) && (ids[n] in w.view ==> !w.view[ids[n]].Overdue(now, ttl))
  {
    assert ids == ids[..|ids| - 1] + [ids[|ids| - 1]];
  }

  lemma DepartDropsNothingIff(w: World, id: TraceId, now: int, ttl: int)
    requires Matches(w.view, w.log)
    ensures DroppedSpans(Depart(w, id, now, ttl, true).log) == multiset{}
       <==> DroppedSpans(w.log) == multiset{} && (id in w.view ==> !w.view[id].Overdue(now, ttl))
  {
    if id in w.view {
      assert MatchesAt(w.view, w.log, id);
      DroppedSnoc(w.log, Dropped(id, w.view[id].spans, now));
      assert w.view[id].spans[0] in multiset(w.view[id].spans);
    }
  }

  lemma AddDropsNothing(w: World, s: SpanInContext, now: int)
    ensures DroppedSpans(w.log + AddLog(w.view, s, now)) == DroppedSpans(w.log)
  {
    var released := AddStep(w.view, s, now).1;
    DroppedSnoc(w.log, Arrived(s, now));
    if released.Some? {
      var r := Released(s.span.traceId, released.value, now);
      DroppedSnoc(w.log + [Arrived(s, now)], r);
      assert w.log + AddLog(w.view, s, now) == (w.log + [Arrived(s, now)]) + [r];
    } else {
      assert w.log + AddLog(w.view, s, now) == w.log + [Arrived(s, now)];
    }
  }

  /** If the event is a cleanup, none of the traces it visits has timed out. */
  ghost predicate FindsNothing(w: World, e: Event, ttl: int) {
    e.Sweep? && e.drop ==> VisitsNoneOverdue(w, e.ids, e.now, ttl)
  }

  lemma StepDropsNothingIff(w: World, e: Event, ttl: int)
    requires Matches(w.view, w.log) && LawfulLog(w.log, ttl)
    ensures DroppedSpans(EventStep(w, e, ttl).log) == multiset{}
       <==> DroppedSpans(w.log) == multiset{} && FindsNothing(w, e, ttl)
  {
    match e
    case Add(s, now) => AddDropsNothing(w, s, now);
    case Sweep(ids, now, drop) =>
      if drop {
        CleanupDropsNothingIff(w, ids, now, ttl);
      } else {
        ReleaseDropsNothing(w, ids, now, ttl);
      }
  }

  /** No cleanup of the run finds a trace that has timed out. */
  ghost predicate CleanupsFindNothing(events: seq<Event>, ttl: int) {
    forall i :: 0 <= i < |events| ==> FindsNothing(After(events[..i], ttl), events[i], ttl)
  }

  lemma CleanupsSnoc(events: seq<Event>, ttl: int)
    requires events != []
    ensures var n := |events| - 1;
      CleanupsFindNothing(events, ttl)
      <==> CleanupsFindNothing(events[..n], ttl) && FindsNothing(After(events[..n], ttl), events[n], ttl)
  {
    var n := |events| - 1;
    forall i | 0 <= i < n ensures events[..n][i] == events[i] && events[..n][..i] == events[..i] {
    }
  }

  /** Over every run: no span is ever dropped if and only if no cleanup finds a timed-out trace. */
  lemma {:induction false} NothingDroppedIff(events: seq<Event>, ttl: int)
    ensures DroppedSpans(After(events, ttl).log) == multiset{} <==> CleanupsFindNothing(events, ttl)
  {
    if events == [] {
    } else {
      var n := |events| - 1;
      NothingDroppedIff(events[..n], ttl);
      ReleaseLaw(events[..n], ttl);
      StepDropsNothingIff(After(events[..n], ttl), events[n], ttl);
      CleanupsSnoc(events, ttl);
    }
  }

  /** A run that drops a span: it arrives, is no root, and the cleanup comes after the timeout. */
  lemma ALateCleanupDrops(s: SpanInContext, start: int, ttl: int)
    requires !s.span.IsRoot()
    ensures DroppedSpans(After([Add(s, start), Sweep([s.span.traceId], start + ttl + 1, true)], ttl).log) == multiset{s}
  {
    var id, now := s.span.traceId, start + ttl + 1;
    var events := [Add(s, start), Sweep([id], now, true)];
    OneArrival(s, start, ttl);
    assert events[..1] == [Add(s, start)];
    var w := After(events[..1], ttl);
    assert [id][..0] == [];
    assert SweepStep(w, [id], now, ttl, true) == Depart(w, id, now, ttl, true);
    assert Depart(w, id, now, ttl, true).log == w.log + [Dropped(id, [s], now)];
    DroppedSnoc(w.log, Dropped(id, [s], now));
    DroppedSnoc([], Arrived(s, start));
  }

  lemma OneArrival(s: SpanInContext, start: int, ttl: int)
    requires !s.span.IsRoot()
    ensures var w := After([Add(s, start)], ttl);
      w.log == [] + [Arrived(s, start)] && s.span.traceId in w.view
      && w.view[s.span.traceId] == BufferView([s], false, start)
  {
    assert [Add(s, start)][..0] == [];
    assert [] + [s] == [s];
  }
}
