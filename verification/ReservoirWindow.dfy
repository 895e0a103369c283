/** The active buffer, the span cache and the pending flushes as one state machine, and the
    laws that hold over every run of it: which spans of a window are still buffered, and
    when a flush finds every buffered span in the cache.

    A window may close while any number of earlier flushes are still reading. */
module ReservoirWindow {
  import opened ActiveBuffer
  import opened Wrappers
  import opened Telemetry
  import opened LruCache
  import opened Seqs

  /** A buffered span: its summary, and the full span unless it came from a checkpoint. */
  datatype Stored = Stored(summary: SpanSummary, full: Option<SpanInContext>)

  /** The identity under which a span is cached.  The code writes it out as text with
      `SpanKey`, which by `SpanKeyInjective` tells apart exactly what this pair does. */
  datatype SpanRef = SpanRef(traceId: TraceId, spanId: SpanId)

  type CacheCall = Call<SpanRef, Stored>

  function KeyOf(s: Stored): SpanRef {
    SpanRef(s.summary.traceId, s.summary.spanId)
  }

  predicate SameIds(a: Stored, b: Stored) {
    a.summary.traceId == b.summary.traceId && a.summary.spanId == b.summary.spanId
  }

  /** Two spans share a cache key exactly if the program writes out the same text for both, and
      that is exactly if they share trace and span identifier. */
  lemma KeyIsTheTextKey(a: Stored, b: Stored)
    ensures KeyOf(a) == KeyOf(b) <==> SameIds(a, b)
    ensures KeyOf(a) == KeyOf(b)
       <==> SpanKey(a.summary.traceId, a.summary.spanId) == SpanKey(b.summary.traceId, b.summary.spanId)
  {
    if SpanKey(a.summary.traceId, a.summary.spanId) == SpanKey(b.summary.traceId, b.summary.spanId) {
      SpanKeyInjective(a.summary.traceId, a.summary.spanId, b.summary.traceId, b.summary.spanId);
    }
  }

  // ----- the machine -----

  /** One flush: the spans it was handed, those it has yet to look up, and its outcome so far. */
  datatype Job = Job(flushed: seq<Stored>, pending: seq<Stored>, start: nat, emitted: seq<Stored>, missing: nat)

  datatype Event = Add(s: Stored) | Close | ReadNext(job: nat)

  /** `start` marks, in the list of cache calls, where the first span of the active buffer was
      put; a job keeps the mark of the buffer it was handed. */
  datatype State = State(buffer: seq<Stored>, start: nat, calls: seq<CacheCall>, jobs: seq<Job>)

  const FRESH: State := State([], 0, [], [])

  function LookUp(job: Job, calls: seq<CacheCall>, cap: nat): Job
    requires job.pending != []
  {
    var key := KeyOf(job.pending[0]);
    var cached := Run(calls, cap);
    if Has(cached, key) then job.(pending := job.pending[1..], emitted := job.emitted + [Find(cached, key)])
    else job.(pending := job.pending[1..], missing := job.missing + 1)
  }

  /** Whether the job exists and has a span left to look up. */
  predicate Reads(st: State, j: nat) {
    j < |st.jobs| && st.jobs[j].pending != []
  }

  /** Every event is possible in every state; closing an empty window starts no flush, and a
      flush that has ended, or does not exist, reads nothing. */
  function Next(st: State, e: Event, k: nat, cap: nat): State {
    match e
    case Add(s) =>
      st.(buffer := BufferAdd(st.buffer, s, k),
          start := if |st.buffer| == 0 || |st.buffer| >= k then |st.calls| else st.start,
          calls := st.calls + [Put(KeyOf(s), s)])
    case Close =>
      State([], |st.calls|, st.calls,
            if st.buffer == [] then st.jobs else st.jobs + [Job(st.buffer, st.buffer, st.start, [], 0)])
    case ReadNext(j) =>
      if !Reads(st, j) then st
      else
        st.(calls := st.calls + [Read(KeyOf(st.jobs[j].pending[0]))],
            jobs := st.jobs[j := LookUp(st.jobs[j], st.calls, cap)])
  }

  function After(events: seq<Event>, k: nat, cap: nat): State {
    if events == [] then FRESH
    else Next(After(events[..|events| - 1], k, cap), events[|events| - 1], k, cap)
  }

  lemma AfterStep(events: seq<Event>, i: nat, k: nat, cap: nat)
    requires i < |events|
    ensures After(events[..i + 1], k, cap) == Next(After(events[..i], k, cap), events[i], k, cap)
  {
    assert events[..i + 1][..i] == events[..i];
  }

  /** The state a run reaches from any state. */
  function From(st: State, events: seq<Event>, k: nat, cap: nat): State {
    if events == [] then st
    else Next(From(st, events[..|events| - 1], k, cap), events[|events| - 1], k, cap)
  }

  /** Runs compose: what follows a run is a run from the state it reached. */
  lemma {:induction false} AfterFrom(a: seq<Event>, b: seq<Event>, k: nat, cap: nat)
    ensures After(a + b, k, cap) == From(After(a, k, cap), b, k, cap)
  {
    if b == [] {
      assert a + b == a;
    } else {
      var n := |b| - 1;
      AfterFrom(a, b[..n], k, cap);
      assert (a + b)[..|a + b| - 1] == a + b[..n];
    }
  }

  lemma AfterLastEvent(events: seq<Event>, k: nat, cap: nat)
    requires events != []
    ensures After(events, k, cap) == Next(After(events[..|events| - 1], k, cap), events[|events| - 1], k, cap)
  {
  }

  // ----- what every step keeps -----

  ghost function KeysOf(spans: seq<Stored>): set<SpanRef> {
    set s | s in spans :: KeyOf(s)
  }

  ghost predicate AllPut(spans: seq<Stored>, calls: seq<CacheCall>) {
    forall s :: s in spans ==> WasPut(calls, KeyOf(s))
  }

  /** A flush has looked up a first part of what it was handed, whose spans were all put since
      its mark, and has sent on or missed every span it looked up. */
  ghost predicate JobInv(job: Job, calls: seq<CacheCall>, k: nat) {
    && |job.flushed| <= k && job.start <= |calls|
    && |job.pending| <= |job.flushed| && job.pending == job.flushed[|job.flushed| - |job.pending|..]
    && AllPut(job.flushed, calls[job.start..])
    && |job.emitted| + job.missing + |job.pending| == |job.flushed|
  }

  ghost predicate Inv(st: State, k: nat) {
    && |st.buffer| <= k && st.start <= |st.calls|
    && AllPut(st.buffer, st.calls[st.start..])
    && forall j :: 0 <= j < |st.jobs| ==> JobInv(st.jobs[j], st.calls, k)
  }

  lemma KeysOfAppend(spans: seq<Stored>, s: Stored)
    ensures KeysOf(spans + [s]) == KeysOf(spans) + {KeyOf(s)}
  {
    assert s in spans + [s];
    forall key ensures key in KeysOf(spans + [s]) <==> key in KeysOf(spans) + {KeyOf(s)} {
      if key in KeysOf(spans + [s]) {
        var x :| x in spans + [s] && KeyOf(x) == key;
      }
      if key in KeysOf(spans) {
        var x :| x in spans && KeyOf(x) == key;
        assert x in spans + [s];
      }
    }
  }

  lemma CallKeysAppend(calls: seq<CacheCall>, c: CacheCall)
    ensures CallKeys(calls + [c]) == CallKeys(calls) + {c.key}
  {
    assert c in calls + [c];
    forall key ensures key in CallKeys(calls + [c]) <==> key in CallKeys(calls) + {c.key} {
      if key in CallKeys(calls + [c]) {
        var x :| x in calls + [c] && x.key == key;
      }
      if key in CallKeys(calls) {
        var x :| x in calls && x.key == key;
        assert x in calls + [c];
      }
    }
  }

  lemma {:induction false} CallKeysConcat(a: seq<CacheCall>, b: seq<CacheCall>)
    ensures CallKeys(a + b) == CallKeys(a) + CallKeys(b)
  {
    if b == [] {
      assert a + b == a;
    } else {
      var n := |b| - 1;
      CallKeysConcat(a, b[..n]);
      CallKeysAppend(a + b[..n], b[n]);
      CallKeysAppend(b[..n], b[n]);
      assert a + b == (a + b[..n]) + [b[n]];
      assert b == b[..n] + [b[n]];
    }
  }

  lemma SuffixAppend(calls: seq<CacheCall>, c: CacheCall, i: nat)
    requires i <= |calls|
    ensures (calls + [c])[i..] == calls[i..] + [c]
  {
  }

  lemma AllPutLater(spans: seq<Stored>, calls: seq<CacheCall>, c: CacheCall)
    requires AllPut(spans, calls)
    ensures AllPut(spans, calls + [c])
  {
    forall s | s in spans ensures WasPut(calls + [c], KeyOf(s)) {
      var x :| x in calls && x.Put? && x.key == KeyOf(s);
      assert x in calls + [c];
    }
  }

  lemma AllPutGrow(spans: seq<Stored>, calls: seq<CacheCall>, s: Stored)
    requires AllPut(spans, calls)
    ensures AllPut(spans + [s], calls + [Put(KeyOf(s), s)])
  {
    AllPutLater(spans, calls, Put(KeyOf(s), s));
    var c: CacheCall := Put(KeyOf(s), s);
    assert c in calls + [c];
  }

  lemma {:induction false} KeysOfSize(spans: seq<Stored>)
    ensures |KeysOf(spans)| <= |spans|
  {
    if spans == [] {
    } else {
      var n := |spans| - 1;
      KeysOfSize(spans[..n]);
      KeysOfAppend(spans[..n], spans[n]);
      assert spans == spans[..n] + [spans[n]];
    }
  }

  lemma JobInvLater(job: Job, calls: seq<CacheCall>, c: CacheCall, k: nat)
    requires JobInv(job, calls, k)
    ensures JobInv(job, calls + [c], k)
  {
    SuffixAppend(calls, c, job.start);
    AllPutLater(job.flushed, calls[job.start..], c);
  }

  lemma JobsInvLater(jobs: seq<Job>, calls: seq<CacheCall>, c: CacheCall, k: nat)
    requires forall j :: 0 <= j < |jobs| ==> JobInv(jobs[j], calls, k)
    ensures forall j :: 0 <= j < |jobs| ==> JobInv(jobs[j], calls + [c], k)
  {
    forall j | 0 <= j < |jobs| ensures JobInv(jobs[j], calls + [c], k) {
      JobInvLater(jobs[j], calls, c, k);
    }
  }

  lemma InvAdd(st: State, s: Stored, k: nat, cap: nat)
    requires k >= 1 && Inv(st, k)
    ensures Inv(Next(st, Add(s), k, cap), k)
  {
    var c: CacheCall := Put(KeyOf(s), s);
    JobsInvLater(st.jobs, st.calls, c, k);
    var st' := Next(st, Add(s), k, cap);
    if |st.buffer| == 0 || |st.buffer| >= k {
      assert st'.buffer == [] + [s] && st'.calls[st'.start..] == [] + [c];
      AllPutGrow([], [], s);
    } else {
      SuffixAppend(st.calls, c, st.start);
      AllPutGrow(st.buffer, st.calls[st.start..], s);
    }
  }

  lemma InvClose(st: State, k: nat, cap: nat)
    requires Inv(st, k)
    ensures Inv(Next(st, Close, k, cap), k)
  {
    assert st.calls[|st.calls|..] == [];
    assert JobInv(Job(st.buffer, st.buffer, st.start, [], 0), st.calls, k);
  }

  lemma InvReadNext(st: State, j: nat, k: nat, cap: nat)
    requires Inv(st, k) && Reads(st, j)
    ensures Inv(Next(st, ReadNext(j), k, cap), k)
  {
    var c: CacheCall := Read(KeyOf(st.jobs[j].pending[0]));
    JobsInvLater(st.jobs, st.calls, c, k);
    SuffixAppend(st.calls, c, st.start);
    AllPutLater(st.buffer, st.calls[st.start..], c);
  }

  /** Every run, whatever the order of events, keeps both the buffer and every flush within k
      spans, all of them put since their marks, and no span of a flush unaccounted for. */
  lemma {:induction false} InvAlways(events: seq<Event>, k: nat, cap: nat)
    requires k >= 1
    ensures Inv(After(events, k, cap), k)
  {
    if events == [] {
    } else {
      var n := |events| - 1;
      var st := After(events[..n], k, cap);
      InvAlways(events[..n], k, cap);
      match events[n]
      case Add(s) => InvAdd(st, s, k, cap);
      case Close => InvClose(st, k, cap);
      case ReadNext(j) =>
        if Reads(st, j) {
          InvReadNext(st, j, k, cap);
        }
    }
  }

  // ----- exact rules, for every run -----

  /** In every reachable state a span of the active buffer is in the cache if and only if
      fewer distinct keys than the cache has places have been touched since it was. */
  lemma BufferedSpanCachedIff(events: seq<Event>, k: nat, cap: nat, s: Stored)
    requires k >= 1 && cap >= 1 && s in After(events, k, cap).buffer
    ensures var calls := After(events, k, cap).calls;
      Has(Run(calls, cap), KeyOf(s)) <==> Rivals(calls, cap, KeyOf(s)) < cap
  {
    var st := After(events, k, cap);
    InvAlways(events, k, cap);
    CachedIffPut(st.calls, cap, KeyOf(s));
  }

  /** One lookup, in any state: it hits if and only if the key was put and fewer distinct keys
      than the cache has places have been touched since it was. */
  lemma LookupHitsIff(st: State, j: nat, k: nat, cap: nat)
    requires cap >= 1 && Reads(st, j)
    ensures var key := KeyOf(st.jobs[j].pending[0]);
      (Next(st, ReadNext(j), k, cap).jobs[j].missing == st.jobs[j].missing
       <==> WasPut(st.calls, key) && Rivals(st.calls, cap, key) < cap)
  {
    CachedIffPut(st.calls, cap, KeyOf(st.jobs[j].pending[0]));
  }

  /** If job j looks a span up in this state, its key has fewer rivals than the cache has places. */
  ghost predicate InTime(st: State, j: nat, cap: nat) {
    Reads(st, j) ==> Rivals(st.calls, cap, KeyOf(st.jobs[j].pending[0])) < cap
  }

  ghost predicate AlwaysInTime(events: seq<Event>, j: nat, k: nat, cap: nat) {
    forall i :: 0 <= i < |events| && events[i] == ReadNext(j) ==> InTime(After(events[..i], k, cap), j, cap)
  }

  lemma AlwaysInTimeStep(events: seq<Event>, j: nat, k: nat, cap: nat)
    requires events != []
    ensures var n := |events| - 1;
      AlwaysInTime(events, j, k, cap) <==>
        AlwaysInTime(events[..n], j, k, cap)
        && (events[n] == ReadNext(j) ==> InTime(After(events[..n], k, cap), j, cap))
  {
    var n := |events| - 1;
    forall i | 0 <= i < n ensures events[..n][..i] == events[..i] && events[..n][i] == events[i] {
    }
  }

  lemma {:induction false} NoJobNoRead(events: seq<Event>, j: nat, k: nat, cap: nat)
    requires j >= |After(events, k, cap).jobs|
    ensures AlwaysInTime(events, j, k, cap)
  {
    if events == [] {
    } else {
      var n := |events| - 1;
      AfterLastEvent(events, k, cap);
      NoJobNoRead(events[..n], j, k, cap);
      AlwaysInTimeStep(events, j, k, cap);
    }
  }

  lemma KeyWasPut(st: State, j: nat, k: nat)
    requires Inv(st, k) && Reads(st, j)
    ensures WasPut(st.calls, KeyOf(st.jobs[j].pending[0]))
  {
    var job := st.jobs[j];
    assert JobInv(job, st.calls, k);
    assert job.pending[0] in job.flushed;
  }

  /** The rule for a whole run with any number of flushes at once: a flush misses nothing if
      and only if at each of its lookups fewer distinct keys than the cache has places have
      been touched since the key was. */
  lemma {:induction false} NothingMissingIff(events: seq<Event>, j: nat, k: nat, cap: nat)
    requires k >= 1 && cap >= 1 && j < |After(events, k, cap).jobs|
    ensures After(events, k, cap).jobs[j].missing == 0 <==> AlwaysInTime(events, j, k, cap)
  {
    var n := |events| - 1;
    var st := After(events[..n], k, cap);
    AfterLastEvent(events, k, cap);
    AlwaysInTimeStep(events, j, k, cap);
    if j >= |st.jobs| {
      NoJobNoRead(events[..n], j, k, cap);
    } else {
      NothingMissingIff(events[..n], j, k, cap);
      if events[n] == ReadNext(j) && Reads(st, j) {
        InvAlways(events[..n], k, cap);
        KeyWasPut(st, j, k);
        LookupHitsIff(st, j, k, cap);
      }
    }
  }

  // ----- sufficient pace -----

  /** The keys the cache has been asked for since the first span of the flushed buffer was put. */
  ghost function FlushStretch(st: State, j: nat): set<SpanRef>
    requires j < |st.jobs| && st.jobs[j].start <= |st.calls|
  {
    CallKeys(st.calls[st.jobs[j].start..])
  }

  /** When job j looks a span up, the pressure on the cache since its mark is within its size. */
  ghost predicate Paced(events: seq<Event>, j: nat, k: nat, cap: nat) {
    forall i :: 0 <= i < |events| && events[i] == ReadNext(j) ==>
      var st := After(events[..i], k, cap);
      Reads(st, j) ==> st.jobs[j].start <= |st.calls| && |FlushStretch(st, j)| <= cap
  }

  lemma PacedReadHits(st: State, j: nat, k: nat, cap: nat)
    requires cap >= 1 && Inv(st, k) && Reads(st, j)
    requires st.jobs[j].start <= |st.calls| && |FlushStretch(st, j)| <= cap
    ensures Has(Run(st.calls, cap), KeyOf(st.jobs[j].pending[0]))
  {
    var job := st.jobs[j];
    assert JobInv(job, st.calls, k);
    assert job.pending[0] in job.flushed;
    var before, more := st.calls[..job.start], st.calls[job.start..];
    assert st.calls == before + more;
    PutSurvivesSmallStretch(before, more, cap, KeyOf(job.pending[0]));
  }

  /** No span of a paced flush is lost. */
  lemma NothingMissing(events: seq<Event>, j: nat, k: nat, cap: nat)
    requires k >= 1 && cap >= 1 && j < |After(events, k, cap).jobs| && Paced(events, j, k, cap)
    ensures var job := After(events, k, cap).jobs[j];
      job.missing == 0 && |job.emitted| + |job.pending| == |job.flushed|
  {
    forall i | 0 <= i < |events| && events[i] == ReadNext(j) ensures InTime(After(events[..i], k, cap), j, cap) {
      var st := After(events[..i], k, cap);
      if Reads(st, j) {
        InvAlways(events[..i], k, cap);
        PacedReadHits(st, j, k, cap);
        CachedIffPut(st.calls, cap, KeyOf(st.jobs[j].pending[0]));
      }
    }
    NothingMissingIff(events, j, k, cap);
    InvAlways(events, k, cap);
    assert JobInv(After(events, k, cap).jobs[j], After(events, k, cap).calls, k);
  }

  /** Since its first span was put, the cache was asked for no key but those of the active buffer. */
  ghost predicate Undisturbed(st: State) {
    st.start <= |st.calls| && CallKeys(st.calls[st.start..]) <= KeysOf(st.buffer)
  }

  lemma AddLeavesUndisturbed(st: State, e: Event, k: nat, cap: nat)
    requires k >= 1 && e.Add? && st.start <= |st.calls|
    requires Undisturbed(st) || |st.buffer| == 0 || |st.buffer| >= k
    ensures Undisturbed(Next(st, e, k, cap))
  {
    var st' := Next(st, e, k, cap);
    var c: CacheCall := Put(KeyOf(e.s), e.s);
    if |st.buffer| == 0 || |st.buffer| >= k {
      assert st'.buffer == [] + [e.s] && st'.calls[st'.start..] == [] + [c];
      CallKeysAppend([], c);
      KeysOfAppend([], e.s);
    } else {
      SuffixAppend(st.calls, c, st.start);
      CallKeysAppend(st.calls[st.start..], c);
      KeysOfAppend(st.buffer, e.s);
    }
  }

  lemma OneMoreInPeace(events: seq<Event>, k: nat, cap: nat)
    requires k >= 1 && events != [] && events[|events| - 1].Add?
    requires var st := After(events[..|events| - 1], k, cap);
      Undisturbed(st) || |st.buffer| == 0 || |st.buffer| >= k
    ensures Undisturbed(After(events, k, cap))
  {
    var n := |events| - 1;
    InvAlways(events[..n], k, cap);
    AddLeavesUndisturbed(After(events[..n], k, cap), events[n], k, cap);
    AfterLastEvent(events, k, cap);
  }

  /** A buffer filled while no flush was reading is undisturbed. */
  lemma {:induction false} FilledInPeace(events: seq<Event>, a: nat, k: nat, cap: nat)
    requires k >= 1 && a < |events|
    requires var st := After(events[..a], k, cap); |st.buffer| == 0 || |st.buffer| >= k
    requires forall i :: a <= i < |events| ==> events[i].Add?
    ensures Undisturbed(After(events, k, cap))
  {
    var n := |events| - 1;
    if a == n {
    } else {
      assert events[..n][..a] == events[..a];
      FilledInPeace(events[..n], a, k, cap);
    }
    OneMoreInPeace(events, k, cap);
  }

  /** Event `c` closed the window of job j; its buffer was undisturbed, and since then the
      cache was asked for at most `k` keys not in it, by later spans and by other flushes. */
  ghost predicate FewNewKeysSince(events: seq<Event>, c: nat, j: nat, k: nat, cap: nat)
    requires c < |events|
  {
    var closed, now := After(events[..c], k, cap), After(events, k, cap);
    && events[c].Close? && closed.buffer != [] && |closed.jobs| == j
    && Undisturbed(closed) && |closed.calls| <= |now.calls|
    && |CallKeys(now.calls[|closed.calls|..]) - KeysOf(closed.buffer)| <= k
  }

  /** Every lookup of job j comes before more than `k` new keys have. */
  ghost predicate FewNewKeys(events: seq<Event>, j: nat, k: nat, cap: nat) {
    forall i :: 0 <= i < |events| && events[i] == ReadNext(j) && Reads(After(events[..i], k, cap), j) ==>
      exists c :: 0 <= c < i && FewNewKeysSince(events[..i], c, j, k, cap)
  }

  /** Job j was handed the buffer of the state in which its window closed, and no cache call
      made by then has been taken back. */
  ghost predicate Handed(closed: State, now: State, j: nat) {
    && j < |now.jobs| && closed.calls <= now.calls
    && now.jobs[j].flushed == closed.buffer && now.jobs[j].start == closed.start
  }

  lemma HandedAtClose(closed: State, k: nat, cap: nat)
    requires closed.buffer != []
    ensures Handed(closed, Next(closed, Close, k, cap), |closed.jobs|)
  {
  }

  lemma {:induction false} SinceClose(events: seq<Event>, c: nat, j: nat, k: nat, cap: nat)
    requires c < |events| && events[c].Close?
    requires After(events[..c], k, cap).buffer != [] && |After(events[..c], k, cap).jobs| == j
    ensures Handed(After(events[..c], k, cap), After(events, k, cap), j)
  {
    var n := |events| - 1;
    var closed := After(events[..c], k, cap);
    AfterLastEvent(events, k, cap);
    if c == n {
      HandedAtClose(closed, k, cap);
    } else {
      assert events[..n][..c] == events[..c];
      SinceClose(events[..n], c, j, k, cap);
    }
  }

  lemma UnionBound(base: set<SpanRef>, early: set<SpanRef>, late: set<SpanRef>, k: nat)
    requires early <= base && |base| <= k && |late - base| <= k
    ensures |early + late| <= 2 * k
  {
    SubsetSize(early + late, base + (late - base));
  }

  lemma StretchSinceClose(closed: State, now: State, j: nat, k: nat)
    requires |closed.buffer| <= k && Undisturbed(closed)
    requires j < |now.jobs| && now.jobs[j].start == closed.start && closed.calls <= now.calls
    requires |CallKeys(now.calls[|closed.calls|..]) - KeysOf(closed.buffer)| <= k
    ensures |FlushStretch(now, j)| <= 2 * k
  {
    var early, late := closed.calls[closed.start..], now.calls[|closed.calls|..];
    assert now.calls[closed.start..] == early + late;
    CallKeysConcat(early, late);
    KeysOfSize(closed.buffer);
    UnionBound(KeysOf(closed.buffer), CallKeys(early), CallKeys(late), k);
  }

  /** With a cache of 2k entries no span of a flush is lost if its window was filled
      undisturbed and each of its lookups comes before more than `k` distinct new keys. */
  lemma NothingMissingIfFewNewKeys(events: seq<Event>, j: nat, k: nat)
    requires k >= 1 && j < |After(events, k, 2 * k).jobs| && FewNewKeys(events, j, k, 2 * k)
    ensures After(events, k, 2 * k).jobs[j].missing == 0
  {
    forall i | 0 <= i < |events| && events[i] == ReadNext(j) && Reads(After(events[..i], k, 2 * k), j)
      ensures var st := After(events[..i], k, 2 * k);
        st.jobs[j].start <= |st.calls| && |FlushStretch(st, j)| <= 2 * k
    {
      var c :| 0 <= c < i && FewNewKeysSince(events[..i], c, j, k, 2 * k);
      PacedSince(events[..i], c, j, k);
    }
    NothingMissing(events, j, k, 2 * k);
  }

  lemma PacedSince(events: seq<Event>, c: nat, j: nat, k: nat)
    requires k >= 1 && c < |events| && FewNewKeysSince(events, c, j, k, 2 * k)
    requires j < |After(events, k, 2 * k).jobs|
    ensures var st := After(events, k, 2 * k);
      st.jobs[j].start <= |st.calls| && |FlushStretch(st, j)| <= 2 * k
  {
    SinceClose(events, c, j, k, 2 * k);
    InvAlways(events[..c], k, 2 * k);
    StretchSinceClose(After(events[..c], k, 2 * k), After(events, k, 2 * k), j, k);
  }

  // ----- at most one flush at a time -----

  ghost predicate AllEnded(jobs: seq<Job>) {
    forall j :: 0 <= j < |jobs| ==> jobs[j].pending == []
  }

  /** A run in which a window closes only once every earlier flush has ended. */
  ghost predicate Orderly(events: seq<Event>, k: nat, cap: nat) {
    forall i :: 0 <= i < |events| && events[i].Close? ==> AllEnded(After(events[..i], k, cap).jobs)
  }

  ghost function LastFlushed(st: State): seq<Stored> {
    if st.jobs == [] then [] else st.jobs[|st.jobs| - 1].flushed
  }

  ghost predicate OneAtATime(st: State) {
    && st.start <= |st.calls|
    && (forall j :: 0 <= j < |st.jobs| - 1 ==> st.jobs[j].pending == [])
    && CallKeys(st.calls[st.start..]) <= KeysOf(st.buffer) + KeysOf(LastFlushed(st))
  }

  lemma OneAtATimeAdd(st: State, s: Stored, k: nat, cap: nat)
    requires OneAtATime(st)
    ensures OneAtATime(Next(st, Add(s), k, cap))
  {
    var st' := Next(st, Add(s), k, cap);
    var c: CacheCall := Put(KeyOf(s), s);
    if |st.buffer| == 0 || |st.buffer| >= k {
      assert st'.buffer == [] + [s] && st'.calls[st'.start..] == [] + [c];
      CallKeysAppend([], c);
      KeysOfAppend([], s);
    } else {
      SuffixAppend(st.calls, c, st.start);
      CallKeysAppend(st.calls[st.start..], c);
      KeysOfAppend(st.buffer, s);
    }
  }

  lemma OneAtATimeRead(st: State, j: nat, k: nat, cap: nat)
    requires OneAtATime(st) && Inv(st, k) && Reads(st, j)
    ensures OneAtATime(Next(st, ReadNext(j), k, cap))
  {
    var job := st.jobs[j];
    var c: CacheCall := Read(KeyOf(job.pending[0]));
    assert j == |st.jobs| - 1;
    assert JobInv(job, st.calls, k);
    assert job.pending[0] in job.flushed;
    SuffixAppend(st.calls, c, st.start);
    CallKeysAppend(st.calls[st.start..], c);
  }

  lemma {:induction false} OrderlyRuns(events: seq<Event>, k: nat, cap: nat)
    requires k >= 1 && Orderly(events, k, cap)
    ensures OneAtATime(After(events, k, cap))
  {
    if events == [] {
    } else {
      var n := |events| - 1;
      var st := After(events[..n], k, cap);
      assert Orderly(events[..n], k, cap) by {
        forall i | 0 <= i < n ensures events[..n][..i] == events[..i] {
        }
      }
      OrderlyRuns(events[..n], k, cap);
      AfterLastEvent(events, k, cap);
      match events[n]
      case Add(s) => OneAtATimeAdd(st, s, k, cap);
      case Close => assert st.calls[|st.calls|..] == [];
      case ReadNext(j) =>
        if Reads(st, j) {
          InvAlways(events[..n], k, cap);
          OneAtATimeRead(st, j, k, cap);
        }
    }
  }

  /** While windows close only after the flushes before them have ended, every span of the
      active buffer is in the cache of 2k entries. */
  lemma BufferedSpansAreCached(events: seq<Event>, k: nat, s: Stored)
    requires k >= 1 && Orderly(events, k, 2 * k)
    requires s in After(events, k, 2 * k).buffer
    ensures Has(Run(After(events, k, 2 * k).calls, 2 * k), KeyOf(s))
  {
    var st := After(events, k, 2 * k);
    InvAlways(events, k, 2 * k);
    OrderlyRuns(events, k, 2 * k);
    FewKeysCached(st, k, s);
  }

  lemma FewKeysCached(st: State, k: nat, s: Stored)
    requires k >= 1 && Inv(st, k) && OneAtATime(st) && s in st.buffer
    ensures Has(Run(st.calls, 2 * k), KeyOf(s))
  {
    assert |LastFlushed(st)| <= k by {
      assert st.jobs != [] ==> JobInv(st.jobs[|st.jobs| - 1], st.calls, k);
    }
    KeysOfSize(st.buffer);
    KeysOfSize(LastFlushed(st));
    SubsetSize(CallKeys(st.calls[st.start..]), KeysOf(st.buffer) + KeysOf(LastFlushed(st)));
    assert st.calls == st.calls[..st.start] + st.calls[st.start..];
    PutSurvivesSmallStretch(st.calls[..st.start], st.calls[st.start..], 2 * k, KeyOf(s));
  }

  // ----- what a flush emits -----

  /** In this run a trace and span identifier names one span. */
  ghost predicate UniqueIds(events: seq<Event>) {
    forall i, j | 0 <= i < |events| && 0 <= j < |events| && events[i].Add? && events[j].Add? ::
      SameIds(events[i].s, events[j].s) ==> events[i].s == events[j].s
  }

  ghost predicate PutsAreAdds(calls: seq<CacheCall>, events: seq<Event>) {
    forall c :: c in calls && c.Put? ==> c.key == KeyOf(c.value) && Add(c.value) in events
  }

  ghost predicate SpansAreAdds(st: State, events: seq<Event>) {
    && (forall s :: s in st.buffer ==> Add(s) in events)
    && (forall j :: 0 <= j < |st.jobs| ==> forall s :: s in st.jobs[j].pending ==> Add(s) in events)
    && (forall j :: 0 <= j < |st.jobs| ==> forall s :: s in st.jobs[j].flushed ==> Add(s) in events)
  }

  lemma AddsStay(st: State, events: seq<Event>, e: Event, k: nat, cap: nat)
    requires PutsAreAdds(st.calls, events) && SpansAreAdds(st, events)
    ensures var st' := Next(st, e, k, cap); PutsAreAdds(st'.calls, events + [e]) && SpansAreAdds(st', events + [e])
  {
    assert e in events + [e] && forall x :: x in events ==> x in events + [e];
  }

  lemma {:induction false} CallsComeFromAdds(events: seq<Event>, k: nat, cap: nat)
    ensures PutsAreAdds(After(events, k, cap).calls, events)
    ensures SpansAreAdds(After(events, k, cap), events)
  {
    if events == [] {
    } else {
      var n := |events| - 1;
      CallsComeFromAdds(events[..n], k, cap);
      AddsStay(After(events[..n], k, cap), events[..n], events[n], k, cap);
      AfterLastEvent(events, k, cap);
      assert events == events[..n] + [events[n]];
    }
  }

  lemma FlushedAreAdds(events: seq<Event>, k: nat, cap: nat, j: nat)
    requires j < |After(events, k, cap).jobs|
    ensures forall s :: s in After(events, k, cap).jobs[j].flushed ==> Add(s) in events
  {
    CallsComeFromAdds(events, k, cap);
  }

  lemma {:induction false} LastPutIsPut<V>(history: seq<Call<SpanRef, V>>, k: SpanRef)
    requires WasPut(history, k)
    ensures Put(k, LastPut(history, k)) in history
  {
    var n := |history| - 1;
    var last := history[n];
    assert history == history[..n] + [last];
    if last.Put? && last.key == k {
    } else {
      LastPutIsPut(history[..n], k);
    }
  }

  lemma HitEmits(events: seq<Event>, job: Job, calls: seq<CacheCall>, cap: nat)
    requires job.pending != [] && Has(Run(calls, cap), KeyOf(job.pending[0]))
    requires UniqueIds(events) && PutsAreAdds(calls, events) && Add(job.pending[0]) in events
    ensures LookUp(job, calls, cap).emitted == job.emitted + [job.pending[0]]
  {
    var s := job.pending[0];
    HitIsLastPut(calls, cap, KeyOf(s));
    LastPutIsPut(calls, KeyOf(s));
  }

  /** What the flush has looked up it has sent on, in buffer order. */
  predicate SentOn(job: Job) {
    job.emitted + job.pending == job.flushed
  }

  lemma EmitsNext(events: seq<Event>, st: State, e: Event, j: nat, k: nat, cap: nat)
    requires j < |st.jobs| && Next(st, e, k, cap).jobs[j].missing == 0
    requires UniqueIds(events) && PutsAreAdds(st.calls, events) && SpansAreAdds(st, events)
    requires SentOn(st.jobs[j])
    ensures SentOn(Next(st, e, k, cap).jobs[j])
  {
    if e == ReadNext(j) && Reads(st, j) {
      var job := st.jobs[j];
      HitEmits(events, job, st.calls, cap);
      assert (job.emitted + [job.pending[0]]) + job.pending[1..] == job.emitted + job.pending;
    }
  }

  lemma NewJobSentOn(st: State, e: Event, j: nat, k: nat, cap: nat)
    requires |st.jobs| <= j < |Next(st, e, k, cap).jobs|
    ensures SentOn(Next(st, e, k, cap).jobs[j])
  {
  }

  /** When identifiers are unique, a flush that has missed nothing has sent on exactly what it
      has looked up, in buffer order; once it has ended, that is what it was handed. */
  lemma {:induction false} EmitsTheBuffer(events: seq<Event>, j: nat, k: nat, cap: nat)
    requires j < |After(events, k, cap).jobs| && UniqueIds(events)
    requires After(events, k, cap).jobs[j].missing == 0
    ensures SentOn(After(events, k, cap).jobs[j])
  {
    var n := |events| - 1;
    var st := After(events[..n], k, cap);
    AfterLastEvent(events, k, cap);
    if j >= |st.jobs| {
      NewJobSentOn(st, events[n], j, k, cap);
    } else {
      EmitsTheBuffer(events[..n], j, k, cap);
      CallsComeFromAdds(events[..n], k, cap);
      EmitsNext(events[..n], st, events[n], j, k, cap);
    }
  }
}
