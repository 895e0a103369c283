/** The per-trace buffers: spans are grouped by trace identifier, released when a root span
    arrives or the buffer has been quiet for longer than its time to live, and dropped by the
    periodic cleanup.

    `log` entries record what entered and what left.  The release law ties every buffer to
    the log alone. */
module TraceBuffers {
  import opened Wrappers
  import opened Telemetry

  datatype Entry =
    | Arrived(s: SpanInContext, at: int)
    | Released(id: TraceId, spans: seq<SpanInContext>, at: int)
    | Dropped(id: TraceId, spans: seq<SpanInContext>, at: int)

  /** What one buffer holds, as a value. */
  datatype BufferView = BufferView(spans: seq<SpanInContext>, hasRoot: bool, updated: int) {
    predicate TimedOut(now: int, ttl: int) {
      now - updated > ttl
    }

    predicate Overdue(now: int, ttl: int) {
      hasRoot || TimedOut(now, ttl)
    }

    function With(s: SpanInContext, now: int): BufferView {
      BufferView(spans + [s], hasRoot || s.span.IsRoot(), now)
    }
  }

  type View = map<TraceId, BufferView>

  // ----- the log decides everything -----

  /** The spans of `id` that arrived since it was last released or dropped, in arrival order. */
  function Pending(log: seq<Entry>, id: TraceId): seq<SpanInContext> {
    if log == [] then []
    else PendingAfter(Pending(log[..|log| - 1], id), log[|log| - 1], id)
  }

  function PendingAfter(pending: seq<SpanInContext>, e: Entry, id: TraceId): seq<SpanInContext> {
    match e
    case Arrived(s, _) => if s.span.traceId == id then pending + [s] else pending
    case Released(x, _, _) => if x == id then [] else pending
    case Dropped(x, _, _) => if x == id then [] else pending
  }

  /** When a span of `id` last arrived; 0 if none ever did. */
  function LastArrival(log: seq<Entry>, id: TraceId): int {
    if log == [] then 0
    else
      var e := log[|log| - 1];
      if e.Arrived? && e.s.span.traceId == id then e.at
      else LastArrival(log[..|log| - 1], id)
  }

  ghost predicate NoRoot(spans: seq<SpanInContext>) {
    forall s :: s in spans ==> !s.span.IsRoot()
  }

  /** For `id` the map holds exactly what the log says is pending, without a root span. */
  ghost predicate MatchesAt(view: View, log: seq<Entry>, id: TraceId) {
    if id in view then
      && view[id].spans == Pending(log, id) != []
      && NoRoot(view[id].spans) && !view[id].hasRoot
      && view[id].updated == LastArrival(log, id)
    else Pending(log, id) == []
  }

  /** The map is exactly what the log says is pending, and no buffer in it has a root span. */
  ghost predicate Matches(view: View, log: seq<Entry>) {
    forall id :: MatchesAt(view, log, id)
  }

  /** A unit leaves whole: it is all that was pending for its identifier.  A released unit
      either ends with its only root span or had been quiet for longer than the time to
      live; a dropped unit had been quiet that long and holds no root. */
  ghost predicate LawfulDeparture(e: Entry, before: seq<Entry>, ttl: int)
    requires !e.Arrived?
  {
    var quiet := e.at - LastArrival(before, e.id) > ttl && NoRoot(e.spans);
    && e.spans != [] && e.spans == Pending(before, e.id)
    && (quiet || (e.Released? && EndsWithItsOnlyRoot(e.spans)))
  }

  ghost predicate EndsWithItsOnlyRoot(spans: seq<SpanInContext>) {
    && spans != []
    && spans[|spans| - 1].span.IsRoot()
    && NoRoot(spans[..|spans| - 1])
  }

  ghost predicate LawfulLog(log: seq<Entry>, ttl: int) {
    forall i :: 0 <= i < |log| && !log[i].Arrived? ==> LawfulDeparture(log[i], log[..i], ttl)
  }

  // ----- conservation -----

  ghost function ArrivedSpans(log: seq<Entry>): multiset<SpanInContext> {
    if log == [] then multiset{}
    else
      var e := log[|log| - 1];
      ArrivedSpans(log[..|log| - 1]) + if e.Arrived? then multiset{e.s} else multiset{}
  }

  ghost function ReleasedSpans(log: seq<Entry>): multiset<SpanInContext> {
    if log == [] then multiset{}
    else
      var e := log[|log| - 1];
      ReleasedSpans(log[..|log| - 1]) + if e.Released? then multiset(e.spans) else multiset{}
  }

  ghost function DroppedSpans(log: seq<Entry>): multiset<SpanInContext> {
    if log == [] then multiset{}
    else
      var e := log[|log| - 1];
      DroppedSpans(log[..|log| - 1]) + if e.Dropped? then multiset(e.spans) else multiset{}
  }

  /** How often span `s` is held in the buffers. */
  ghost function BufferedCount(view: View, s: SpanInContext): nat {
    if s.span.traceId in view then multiset(view[s.span.traceId].spans)[s] else 0
  }

  lemma {:induction false} PendingSpansBelong(log: seq<Entry>, id: TraceId)
    ensures forall s :: s in Pending(log, id) ==> s.span.traceId == id
  {
    if log == [] {
    } else {
      PendingSpansBelong(log[..|log| - 1], id);
    }
  }

  lemma LawfulPrefix(log: seq<Entry>, ttl: int)
    requires log != [] && LawfulLog(log, ttl)
    ensures LawfulLog(log[..|log| - 1], ttl)
    ensures var e := log[|log| - 1]; !e.Arrived? ==> e.spans == Pending(log[..|log| - 1], e.id)
  {
    var n := |log| - 1;
    forall i | 0 <= i < n && !log[..n][i].Arrived? ensures LawfulDeparture(log[..n][i], log[..n][..i], ttl) {
      assert log[..n][..i] == log[..i];
    }
    assert !log[n].Arrived? ==> LawfulDeparture(log[n], log[..n], ttl);
  }

  /** Conservation, span by span: what arrived is pending, released or dropped. */
  lemma {:induction false} Conservation(log: seq<Entry>, ttl: int, s: SpanInContext)
    requires LawfulLog(log, ttl)
    ensures ArrivedSpans(log)[s]
         == multiset(Pending(log, s.span.traceId))[s] + ReleasedSpans(log)[s] + DroppedSpans(log)[s]
  {
    if log == [] {
    } else {
      var n := |log| - 1;
      LawfulPrefix(log, ttl);
      Conservation(log[..n], ttl, s);
      if !log[n].Arrived? {
        PendingSpansBelong(log[..n], log[n].id);
      }
    }
  }

  /** In any state that matches its log, spans added equal spans buffered plus released plus dropped. */
  lemma ConservationInBuffers(view: View, log: seq<Entry>, ttl: int, s: SpanInContext)
    requires Matches(view, log) && LawfulLog(log, ttl)
    ensures ArrivedSpans(log)[s] == BufferedCount(view, s) + ReleasedSpans(log)[s] + DroppedSpans(log)[s]
  {
    Conservation(log, ttl, s);
    assert MatchesAt(view, log, s.span.traceId);
  }

  // ----- the steps, on values -----

  /** Adding a span to its trace's buffer; a buffer that now has a root span leaves at once. */
  function AddStep(view: View, s: SpanInContext, now: int): (View, Option<seq<SpanInContext>>) {
    var id := s.span.traceId;
    var buffer := (if id in view then view[id] else BufferView([], false, now)).With(s, now);
    if buffer.hasRoot then (view - {id}, Some(buffer.spans)) else (view[id := buffer], None)
  }

  function AddLog(view: View, s: SpanInContext, now: int): seq<Entry> {
    var released := AddStep(view, s, now).1;
    [Arrived(s, now)] + if released.Some? then [Released(s.span.traceId, released.value, now)] else []
  }

  lemma LawfulAppend(log: seq<Entry>, e: Entry, ttl: int)
    requires LawfulLog(log, ttl)
    requires e.Arrived? || LawfulDeparture(e, log, ttl)
    ensures LawfulLog(log + [e], ttl)
  {
    var more := log + [e];
    forall i | 0 <= i < |more| && !more[i].Arrived? ensures LawfulDeparture(more[i], more[..i], ttl) {
      assert more[..i] == log[..i];
    }
  }

  lemma PendingAppend(log: seq<Entry>, e: Entry, id: TraceId)
    ensures Pending(log + [e], id) == PendingAfter(Pending(log, id), e, id)
    ensures LastArrival(log + [e], id)
         == if e.Arrived? && e.s.span.traceId == id then e.at else LastArrival(log, id)
  {
    assert (log + [e])[..|log|] == log;
  }

  /** A departure of a buffer that matches the log leaves the remaining buffers matching it. */
  lemma DepartKeeps(view: View, log: seq<Entry>, e: Entry, ttl: int)
    requires Matches(view, log) && LawfulLog(log, ttl)
    requires !e.Arrived? && LawfulDeparture(e, log, ttl)
    ensures Matches(view - {e.id}, log + [e]) && LawfulLog(log + [e], ttl)
  {
    LawfulAppend(log, e, ttl);
    forall id ensures MatchesAt(view - {e.id}, log + [e], id) {
      assert MatchesAt(view, log, id);
      PendingAppend(log, e, id);
    }
  }

  lemma PendingAfterArrival(log: seq<Entry>, s: SpanInContext, now: int, id: TraceId)
    ensures Pending(log + [Arrived(s, now)], id)
         == if id == s.span.traceId then Pending(log, id) + [s] else Pending(log, id)
    ensures LastArrival(log + [Arrived(s, now)], id)
         == if id == s.span.traceId then now else LastArrival(log, id)
  {
    PendingAppend(log, Arrived(s, now), id);
  }

  lemma PlainAddKeeps(view: View, log: seq<Entry>, s: SpanInContext, now: int)
    requires Matches(view, log) && !s.span.IsRoot()
    ensures Matches(AddStep(view, s, now).0, log + [Arrived(s, now)])
  {
    forall id ensures MatchesAt(AddStep(view, s, now).0, log + [Arrived(s, now)], id) {
      assert MatchesAt(view, log, id);
      PlainAddAt(view, log, s, now, id);
    }
  }

  lemma PlainAddAt(view: View, log: seq<Entry>, s: SpanInContext, now: int, id: TraceId)
    requires MatchesAt(view, log, id) && !s.span.IsRoot()
    ensures MatchesAt(AddStep(view, s, now).0, log + [Arrived(s, now)], id)
  {
    PendingAfterArrival(log, s, now, id);
  }

  lemma RootAddKeeps(view: View, log: seq<Entry>, s: SpanInContext, now: int, ttl: int)
    requires Matches(view, log) && s.span.IsRoot()
    ensures var mid := log + [Arrived(s, now)];
      var r := Released(s.span.traceId, Pending(mid, s.span.traceId), now);
      LawfulDeparture(r, mid, ttl) && r.spans == Pending(log, s.span.traceId) + [s]
      && Matches(view - {s.span.traceId}, mid + [r])
  {
    var id := s.span.traceId;
    var mid := log + [Arrived(s, now)];
    assert MatchesAt(view, log, id);
    PendingAfterArrival(log, s, now, id);
    var r := Released(id, Pending(mid, id), now);
    assert r.spans[..|r.spans| - 1] == Pending(log, id);
    forall x ensures MatchesAt(view - {id}, mid + [r], x) {
      assert MatchesAt(view, log, x);
      PendingAfterArrival(log, s, now, x);
      PendingAppend(mid, r, x);
    }
  }

  lemma AddStepByLog(view: View, log: seq<Entry>, s: SpanInContext, now: int)
    requires Matches(view, log)
    ensures var id := s.span.traceId;
      if s.span.IsRoot() then
        AddStep(view, s, now).0 == view - {id}
        && AddLog(view, s, now) == [Arrived(s, now), Released(id, Pending(log, id) + [s], now)]
      else AddLog(view, s, now) == [Arrived(s, now)]
  {
    assert MatchesAt(view, log, s.span.traceId);
  }

  /** Release law, arrival: whatever the span, the buffers keep matching the log and the log
      stays lawful. */
  lemma AddKeeps(view: View, log: seq<Entry>, s: SpanInContext, now: int, ttl: int)
    requires Matches(view, log) && LawfulLog(log, ttl)
    ensures Matches(AddStep(view, s, now).0, log + AddLog(view, s, now))
    ensures LawfulLog(log + AddLog(view, s, now), ttl)
  {
    var id, e := s.span.traceId, Arrived(s, now);
    AddStepByLog(view, log, s, now);
    LawfulAppend(log, e, ttl);
    if s.span.IsRoot() {
      var r := Released(id, Pending(log, id) + [s], now);
      RootAddKeeps(view, log, s, now, ttl);
      LawfulAppend(log + [e], r, ttl);
      assert log + [e, r] == (log + [e]) + [r];
    } else {
      PlainAddKeeps(view, log, s, now);
    }
  }

  /** Release law, departure of a quiet buffer, by release or by cleanup. */
  lemma QuietKeeps(view: View, log: seq<Entry>, id: TraceId, now: int, ttl: int, drop: bool)
    requires Matches(view, log) && LawfulLog(log, ttl)
    requires id in view && view[id].TimedOut(now, ttl)
    ensures var e := if drop then Dropped(id, view[id].spans, now) else Released(id, view[id].spans, now);
      Matches(view - {id}, log + [e]) && LawfulLog(log + [e], ttl)
  {
    var e := if drop then Dropped(id, view[id].spans, now) else Released(id, view[id].spans, now);
    assert MatchesAt(view, log, id);
    DepartKeeps(view, log, e, ttl);
  }

  // ----- whole runs on values -----

  /** `Sweep` visits timed-out buffers in any order `ids`; with `drop` it is the periodic
      cleanup, without it the release of overdue traces. */
  datatype Event = Add(s: SpanInContext, now: int) | Sweep(ids: seq<TraceId>, now: int, drop: bool)

  datatype World = World(view: View, log: seq<Entry>)

  function Depart(w: World, id: TraceId, now: int, ttl: int, drop: bool): World {
    if id in w.view && w.view[id].Overdue(now, ttl) then
      World(w.view - {id},
            w.log + [if drop then Dropped(id, w.view[id].spans, now) else Released(id, w.view[id].spans, now)])
    else w
  }

  function SweepStep(w: World, ids: seq<TraceId>, now: int, ttl: int, drop: bool): World {
    if ids == [] then w
    else Depart(SweepStep(w, ids[..|ids| - 1], now, ttl, drop), ids[|ids| - 1], now, ttl, drop)
  }

  function After(events: seq<Event>, ttl: int): World {
    if events == [] then World(map[], [])
    else EventStep(After(events[..|events| - 1], ttl), events[|events| - 1], ttl)
  }

  function EventStep(w: World, e: Event, ttl: int): World {
    match e
    case Add(s, now) => World(AddStep(w.view, s, now).0, w.log + AddLog(w.view, s, now))
    case Sweep(ids, now, drop) => SweepStep(w, ids, now, ttl, drop)
  }

  lemma {:induction false} SweepKeeps(w: World, ids: seq<TraceId>, now: int, ttl: int, drop: bool)
    requires Matches(w.view, w.log) && LawfulLog(w.log, ttl)
    ensures var w' := SweepStep(w, ids, now, ttl, drop);
      Matches(w'.view, w'.log) && LawfulLog(w'.log, ttl)
  {
    if ids == [] {
    } else {
      var n := |ids| - 1;
      var before, id := SweepStep(w, ids[..n], now, ttl, drop), ids[n];
      SweepKeeps(w, ids[..n], now, ttl, drop);
      assert MatchesAt(before.view, before.log, id);
      if id in before.view && before.view[id].TimedOut(now, ttl) {
        QuietKeeps(before.view, before.log, id, now, ttl, drop);
      }
    }
  }

  /** Trace release law over every run: whatever arrives, times out or is cleaned up, in
      whatever order, the buffers hold exactly what the log leaves pending, none of them
      holds a root span, and every departure was lawful. */
  lemma {:induction false} ReleaseLaw(events: seq<Event>, ttl: int)
    ensures var w := After(events, ttl); Matches(w.view, w.log) && LawfulLog(w.log, ttl)
  {
    if events == [] {
    } else {
      var n := |events| - 1;
      var w := After(events[..n], ttl);
      ReleaseLaw(events[..n], ttl);
      match events[n]
      case Add(s, now) => AddKeeps(w.view, w.log, s, now, ttl);
      case Sweep(ids, now, drop) => SweepKeeps(w, ids, now, ttl, drop);
    }
  }

  lemma NoRootBuffered(events: seq<Event>, ttl: int)
    ensures forall id :: id in After(events, ttl).view ==> !After(events, ttl).view[id].hasRoot
  {
    var w := After(events, ttl);
    ReleaseLaw(events, ttl);
    forall id | id in w.view ensures !w.view[id].hasRoot {
      assert MatchesAt(w.view, w.log, id);
    }
  }

  /** A sweep's effect on the buffers alone. */
  ghost function SweepView(view: View, ids: seq<TraceId>, now: int, ttl: int): View {
    map id | id in view && (id !in ids || !view[id].Overdue(now, ttl)) :: view[id]
  }

  lemma {:induction false} SweepStepView(w: World, ids: seq<TraceId>, now: int, ttl: int, drop: bool)
    ensures SweepStep(w, ids, now, ttl, drop).view == SweepView(w.view, ids, now, ttl)
  {
    if ids == [] {
      assert SweepView(w.view, [], now, ttl) == w.view;
    } else {
      var n := |ids| - 1;
      SweepStepView(w, ids[..n], now, ttl, drop);
      assert ids == ids[..n] + [ids[n]];
      assert SweepView(w.view, ids, now, ttl)
          == Depart(SweepStep(w, ids[..n], now, ttl, drop), ids[n], now, ttl, drop).view;
    }
  }

  lemma SweepStepSnoc(w: World, ids: seq<TraceId>, id: TraceId, now: int, ttl: int, drop: bool)
    ensures SweepStep(w, ids + [id], now, ttl, drop) == Depart(SweepStep(w, ids, now, ttl, drop), id, now, ttl, drop)
    ensures id !in ids ==>
      (id in SweepStep(w, ids, now, ttl, drop).view <==> id in w.view)
      && (id in w.view ==> SweepStep(w, ids, now, ttl, drop).view[id] == w.view[id])
  {
    assert (ids + [id])[..|ids|] == ids;
    SweepStepView(w, ids, now, ttl, drop);
  }

  /** The units a stretch of log releases, in order. */
  function Units(log: seq<Entry>): seq<seq<SpanInContext>> {
    if log == [] then []
    else
      var e := log[|log| - 1];
      Units(log[..|log| - 1]) + if e.Released? then [e.spans] else []
  }

  lemma UnitsSnoc(log: seq<Entry>, e: Entry)
    ensures Units(log + [e]) == Units(log) + if e.Released? then [e.spans] else []
  {
    assert (log + [e])[..|log|] == log;
  }

  /** The spans that arrived, in order. */
  function Arrivals(events: seq<Event>): seq<SpanInContext> {
    if events == [] then []
    else Arrivals(events[..|events| - 1]) + if events[|events| - 1].Add? then [events[|events| - 1].s] else []
  }

  lemma ArrivalsOfOne(events: seq<Event>, s: SpanInContext, ids: seq<TraceId>, now: int)
    ensures Arrivals(events + [Add(s, now)] + [Sweep(ids, now, false)]) == Arrivals(events) + [s]
  {
    assert (events + [Add(s, now)])[..|events|] == events;
    var all := events + [Add(s, now)] + [Sweep(ids, now, false)];
    assert all[..|all| - 1] == events + [Add(s, now)];
  }

  lemma AfterSnoc(events: seq<Event>, e: Event, ttl: int)
    ensures After(events + [e], ttl) == EventStep(After(events, ttl), e, ttl)
  {
    assert (events + [e])[..|events|] == events;
  }

  lemma AddUnits(w: World, s: SpanInContext, now: int, ttl: int)
    ensures var step := AddStep(w.view, s, now).1;
      Units(EventStep(w, Add(s, now), ttl).log) == Units(w.log) + if step.Some? then [step.value] else []
  {
    var step := AddStep(w.view, s, now).1;
    UnitsSnoc(w.log, Arrived(s, now));
    assert AddLog(w.view, s, now)[..1] == [Arrived(s, now)];
    if step.Some? {
      UnitsSnoc(w.log + [Arrived(s, now)], Released(s.span.traceId, step.value, now));
      assert w.log + AddLog(w.view, s, now)
          == (w.log + [Arrived(s, now)]) + [Released(s.span.traceId, step.value, now)];
    }
  }

  // ----- the mutable buffers -----

  /** A set falls into three parts. */
  ghost predicate Parts<T>(all: set<T>, todo: set<T>, gone: set<T>, stay: set<T>) {
    all == todo + gone + stay && todo !! gone && todo !! stay
  }

  lemma PartMoves<T>(all: set<T>, todo: set<T>, gone: set<T>, stay: set<T>, x: T)
    requires Parts(all, todo, gone, stay) && x in todo
    ensures Parts(all, todo - {x}, gone + {x}, stay) && Parts(all, todo - {x}, gone, stay + {x})
    ensures x in all && x !in gone && x !in stay
  {
  }

  lemma DropOneMore<K, V>(m: map<K, V>, gone: set<K>, k: K)
    ensures (m - gone) - {k} == m - (gone + {k})
  {
  }

  class TraceBuffer {
    const traceId: TraceId
    var spans: seq<SpanInContext>
    var hasRootSpan: bool
    const creationTime: int
    var updateTime: int

    constructor (id: TraceId, now: int)
      ensures traceId == id && spans == [] && !hasRootSpan && updateTime == now
    {
      traceId, creationTime := id, now;
      spans, hasRootSpan, updateTime := [], false, now;
    }

    ghost function AsView(): BufferView
      reads this
    {
      BufferView(spans, hasRootSpan, updateTime)
    }

    predicate IsComplete()
      reads this
    {
      hasRootSpan
    }

    predicate IsTimedOut(now: int, timeout: int)
      reads this
      ensures IsTimedOut(now, timeout) <==> AsView().TimedOut(now, timeout)
    {
      now - updateTime > timeout
    }

    method AddSpan(s: SpanInContext, now: int)
      modifies this
      ensures spans == old(spans) + [s] && updateTime == now
      ensures hasRootSpan == (old(hasRootSpan) || s.span.IsRoot())
    {
      if s.span.IsRoot() {
        hasRootSpan := true;
      }
      spans := spans + [s];
      updateTime := now;
    }
  }

  class TraceBufferMap {
    var buffers: map<TraceId, TraceBuffer>
    const bufferTTL: int
    ghost var events: seq<Event>

    /** The map holds the buffers of `view`. */
    ghost predicate Holds(view: View)
      reads this`buffers, buffers.Values
    {
      buffers.Keys == view.Keys && forall id :: id in buffers ==> buffers[id].AsView() == view[id]
    }

    /** Each buffer is filed under its own identifier, so no two keys share one. */
    ghost predicate Filed()
      reads this`buffers
    {
      forall id :: id in buffers ==> buffers[id].traceId == id
    }

    /** The buffers are in a state the release law speaks about. */
    ghost predicate Valid()
      reads this, buffers.Values
    {
      Filed() && Holds(After(events, bufferTTL).view)
    }

    constructor (ttl: int)
      ensures Valid() && buffers == map[] && events == [] && bufferTTL == ttl
    {
      bufferTTL := ttl;
      buffers, events := map[], [];
    }

    /** Files the span under its trace; returns the buffer if the trace is now complete. */
    method AddSpan(s: SpanInContext, now: int) returns (completed: TraceBuffer?)
      requires Valid()
      modifies this, if s.span.traceId in buffers then {buffers[s.span.traceId]} else {}
      ensures Valid() && events == old(events) + [Add(s, now)]
      ensures forall x :: x in buffers ==> fresh(buffers[x]) || (x in old(buffers) && buffers[x] == old(buffers)[x])
      ensures match AddStep(After(old(events), bufferTTL).view, s, now).1
        case None => completed == null
        case Some(spans) =>
          completed != null && completed.spans == spans && completed.hasRootSpan
          && completed.traceId == s.span.traceId && s.span.traceId !in buffers
    {
      ghost var id, view := s.span.traceId, After(events, bufferTTL).view;
      ghost var prior := if id in view then view[id] else BufferView([], false, now);
      assert Holds(view);
      var buffer, complete := FileSpan(s, now);
      assert buffer.AsView() == prior.With(s, now);
      assert Holds(AddStep(view, s, now).0);
      completed := if complete then buffer else null;
      AfterSnoc(events, Add(s, now), bufferTTL);
      events := events + [Add(s, now)];
    }

    /** The same, with the released unit read off the log. */
    method AddSpanLogged(s: SpanInContext, now: int)
      returns (completed: seq<TraceBuffer>, ghost units: seq<seq<SpanInContext>>)
      requires Valid()
      modifies this, if s.span.traceId in buffers then {buffers[s.span.traceId]} else {}
      ensures Valid() && events == old(events) + [Add(s, now)]
      ensures forall x :: x in buffers ==> fresh(buffers[x]) || (x in old(buffers) && buffers[x] == old(buffers)[x])
      ensures |units| == |completed| == if s.span.IsRoot() then 1 else 0
      ensures forall i :: 0 <= i < |completed| ==> units[i] == completed[i].spans && completed[i].hasRootSpan
      ensures Units(After(events, bufferTTL).log) == Units(After(old(events), bufferTTL).log) + units
    {
      AfterSnoc(events, Add(s, now), bufferTTL);
      AddUnits(After(events, bufferTTL), s, now, bufferTTL);
      NoRootBuffered(events, bufferTTL);
      var buffer := AddSpan(s, now);
      if buffer == null {
        completed, units := [], [];
      } else {
        completed, units := [buffer], [buffer.spans];
      }
    }

    method FileSpan(s: SpanInContext, now: int) returns (buffer: TraceBuffer, complete: bool)
      requires Filed()
      modifies this`buffers, if s.span.traceId in buffers then {buffers[s.span.traceId]} else {}
      ensures Filed() && buffer.traceId == s.span.traceId
      ensures if s.span.traceId in old(buffers) then buffer == old(buffers)[s.span.traceId] else fresh(buffer)
      ensures buffers == if complete then old(buffers) - {s.span.traceId} else old(buffers)[s.span.traceId := buffer]
      ensures complete == buffer.hasRootSpan
      ensures buffer.AsView() ==
        (if s.span.traceId in old(buffers) then old(buffers[s.span.traceId].AsView())
         else BufferView([], false, now)).With(s, now)
    {
      var id := s.span.traceId;
      if id in buffers {
        buffer := buffers[id];
      } else {
        buffer := new TraceBuffer(id, now);
        buffers := buffers[id := buffer];
      }
      buffer.AddSpan(s, now);
      complete := buffer.IsComplete();
      if complete {
        buffers := buffers - {id};
      }
    }

    /** Takes every complete or timed-out buffer out of the map, in an arbitrary order. */
    method GetCompletedAndTimedOutTraces(now: int)
      returns (result: seq<TraceBuffer>, ghost order: seq<TraceId>, ghost units: seq<seq<SpanInContext>>)
      requires Valid()
      modifies this
      ensures Valid() && events == old(events) + [Sweep(order, now, false)]
      ensures forall id :: id in old(buffers) <==> id in order
      ensures forall id :: id in buffers ==> id in old(buffers) && buffers[id] == old(buffers)[id]
      ensures forall id :: id in old(buffers) ==>
        (id in buffers <==> now - old(buffers[id].updateTime) <= bufferTTL)
      ensures |units| == |result|
      ensures forall i :: 0 <= i < |result| ==> units[i] == result[i].spans && !result[i].hasRootSpan
      ensures Units(After(events, bufferTTL).log) == Units(After(old(events), bufferTTL).log) + units
    {
      NoRootBuffered(events, bufferTTL);
      result, order, units := SweepOut(now, After(events, bufferTTL));
      forall i | 0 <= i < |result| ensures !result[i].hasRootSpan {
        assert result[i] in result && result[i].AsView() == After(events, bufferTTL).view[result[i].traceId];
      }
      SweptEvents(order, now, false);
      events := events + [Sweep(order, now, false)];
    }

    /** The same for the map alone, without the event it is recorded as. */
    method SweepOut(now: int, ghost w: World)
      returns (result: seq<TraceBuffer>, ghost order: seq<TraceId>, ghost units: seq<seq<SpanInContext>>)
      requires Filed() && Holds(w.view)
      modifies this`buffers
      ensures Filed() && Holds(SweepView(w.view, order, now, bufferTTL))
      ensures forall id :: id in old(buffers) <==> id in order
      ensures forall id :: id in buffers ==> id in old(buffers) && buffers[id] == old(buffers)[id]
      ensures |units| == |result| && forall i :: 0 <= i < |result| ==> units[i] == result[i].spans
      ensures forall b :: b in result ==> b.traceId in old(buffers) && b == old(buffers)[b.traceId]
      ensures Units(SweepStep(w, order, now, bufferTTL, false).log) == Units(w.log) + units
    {
      result, order := TakeOutOverdue(now, w);
      units := UnitsAt(w.view, result);
      UnitsAtSpans(w.view, result);
    }

    /** The loop over the map: what stays are exactly the buffers that are not overdue, and
        what is returned are the others, in the order in which they were removed. */
    method TakeOutOverdue(now: int, ghost w: World) returns (result: seq<TraceBuffer>, ghost order: seq<TraceId>)
      requires Filed() && Holds(w.view)
      modifies this`buffers
      ensures Filed()
      ensures forall id :: id in old(buffers) <==> id in order
      ensures forall id :: id in buffers ==> id in old(buffers) && buffers[id] == old(buffers)[id]
      ensures forall id :: id in old(buffers) ==> (id in buffers <==> !w.view[id].Overdue(now, bufferTTL))
      ensures forall b :: b in result ==> b.traceId in old(buffers) && b == old(buffers)[b.traceId]
      ensures Units(SweepStep(w, order, now, bufferTTL, false).log) == Units(w.log) + UnitsAt(w.view, result)
    {
      result, order := [], [];
      var todo := buffers.Keys;
      ghost var all, gone, stay := buffers, {}, {};
      while todo != {}
        modifies this`buffers
        invariant buffers == all - gone
        invariant Parts(all.Keys, todo, gone, stay)
        invariant forall id :: id in order <==> id in gone || id in stay
        invariant forall id :: id in gone ==> w.view[id].Overdue(now, bufferTTL)
        invariant forall id :: id in stay ==> !w.view[id].Overdue(now, bufferTTL)
        invariant forall b :: b in result ==> b.traceId in all && b == all[b.traceId]
        invariant Units(SweepStep(w, order, now, bufferTTL, false).log) == Units(w.log) + UnitsAt(w.view, result)
        decreases todo
      {
        var id :| id in todo;
        PartMoves(all.Keys, todo, gone, stay, id);
        DropOneMore(all, gone, id);
        todo := todo - {id};
        var buffer := buffers[id];
        assert buffer.AsView() == old(buffers[id].AsView()) == w.view[id];
        SweepUnit(w, order, buffer, now, result);
        order := order + [id];
        var overdue := buffer.IsComplete() || buffer.IsTimedOut(now, bufferTTL);
        assert overdue == w.view[id].Overdue(now, bufferTTL);
        if overdue {
          result := result + [buffer];
          buffers := buffers - {id};
          gone := gone + {id};
        } else {
          stay := stay + {id};
        }
      }
    }

    /** The spans that `view` buffers for the trace of each buffer in a list. */
    static ghost function UnitsAt(view: View, result: seq<TraceBuffer>): seq<seq<SpanInContext>> {
      if result == [] then []
      else
        var id := result[|result| - 1].traceId;
        UnitsAt(view, result[..|result| - 1]) + [if id in view then view[id].spans else []]
    }

    static lemma {:induction false} UnitsAtSpans(view: View, result: seq<TraceBuffer>)
      ensures |UnitsAt(view, result)| == |result|
      ensures forall i :: 0 <= i < |result| && result[i].traceId in view ==>
        UnitsAt(view, result)[i] == view[result[i].traceId].spans
      decreases |result|
    {
      if result == [] {
      } else {
        UnitsAtSpans(view, result[..|result| - 1]);
      }
    }

    lemma SweepUnit(w: World, order: seq<TraceId>, buffer: TraceBuffer, now: int, result: seq<TraceBuffer>)
      requires buffer.traceId in w.view && buffer.traceId !in order
      requires Units(SweepStep(w, order, now, bufferTTL, false).log) == Units(w.log) + UnitsAt(w.view, result)
      ensures var id := buffer.traceId;
        Units(SweepStep(w, order + [id], now, bufferTTL, false).log)
        == Units(w.log) + UnitsAt(w.view,
             if w.view[id].Overdue(now, bufferTTL) then result + [buffer] else result)
    {
      var id := buffer.traceId;
      SweepStepSnoc(w, order, id, now, bufferTTL, false);
      UnitsSnoc(SweepStep(w, order, now, bufferTTL, false).log, Released(id, w.view[id].spans, now));
      assert (result + [buffer])[..|result|] == result;
    }

    lemma SweptEvents(order: seq<TraceId>, now: int, drop: bool)
      ensures After(events + [Sweep(order, now, drop)], bufferTTL)
           == SweepStep(After(events, bufferTTL), order, now, bufferTTL, drop)
      ensures After(events + [Sweep(order, now, drop)], bufferTTL).view
           == SweepView(After(events, bufferTTL).view, order, now, bufferTTL)
    {
      AfterSnoc(events, Sweep(order, now, drop), bufferTTL);
      SweepStepView(After(events, bufferTTL), order, now, bufferTTL, drop);
    }

    /** The periodic cleanup: timed-out buffers are deleted, not sampled.  (No buffer in the
        map has a root span, so the timed-out ones are all the overdue ones.) */
    method Cleanup(now: int) returns (ghost order: seq<TraceId>)
      requires Valid()
      modifies this
      ensures Valid() && events == old(events) + [Sweep(order, now, true)]
      ensures forall id :: id in old(buffers) <==> id in order
      ensures forall id :: id in old(buffers) ==>
        (id in buffers <==> now - old(buffers[id].updateTime) <= bufferTTL)
    {
      NoRootBuffered(events, bufferTTL);
      ghost var view := After(events, bufferTTL).view;
      assert Holds(view);
      order := DeleteTimedOut(now);
      SweptEvents(order, now, true);
      assert Holds(SweepView(view, order, now, bufferTTL));
      events := events + [Sweep(order, now, true)];
    }

    method DeleteTimedOut(now: int) returns (ghost order: seq<TraceId>)
      requires Filed()
      modifies this`buffers
      ensures Filed()
      ensures forall id :: id in old(buffers) <==> id in order
      ensures forall id :: id in buffers ==> id in old(buffers) && buffers[id] == old(buffers)[id]
      ensures forall id :: id in old(buffers) ==> (id in buffers <==> !old(buffers)[id].IsTimedOut(now, bufferTTL))
    {
      order := [];
      var todo := buffers.Keys;
      while todo != {}
        invariant todo <= buffers.Keys
        invariant forall id :: id in old(buffers) <==> id in todo || id in order
        invariant forall id :: id in buffers ==> id in old(buffers) && buffers[id] == old(buffers)[id]
        invariant forall id :: id in old(buffers) && id !in todo ==>
          (id in buffers <==> !old(buffers)[id].IsTimedOut(now, bufferTTL))
        decreases todo
      {
        var id :| id in todo;
        todo := todo - {id};
        order := order + [id];
        if buffers[id].IsTimedOut(now, bufferTTL) {
          buffers := buffers - {id};
        }
      }
    }
  }
}
