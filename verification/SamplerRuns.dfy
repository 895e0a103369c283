/** Everything that happens to a sampler, as runs of the window machine: whatever is sampled,
    whenever windows are reset and however the lookups of the pending flushes fall in between,
    the sampler and its flushes are in a state that the machine reaches from its start.  So the
    laws of `ReservoirWindow` over all runs hold of the sampler. */
module SamplerRuns {
  import opened LruCache
  import opened Reservoir
  import opened Telemetry
  import opened TraceGroups
  import Window = ReservoirWindow

  /** Units are sampled, the window is reset, or a pending flush looks its next span up. */
  datatype Action =
    | Sample(units: seq<seq<SpanInContext>>, draw: nat -> nat)
    | Reset
    | LookUp(job: nat)

  /** The sampler and its flushes, whose marks are not part of the program and left at 0. */
  datatype World = World(st: Sampler, jobs: seq<Window.Job>)

  const FRESH := World(Sampler(0, [], []), [])

  /** What `ConsumeAll`, `ResetWindow` and `FlushJob.Step` do. */
  function Act(w: World, a: Action, k: nat, cap: nat, batch: Batch): World {
    match a
    case Sample(units, draw) => w.(st := SampleUnits(w.st, units, draw, k, batch))
    case Reset =>
      World(Sampler(0, [], w.st.calls),
            if w.st.buffer == [] then w.jobs
            else w.jobs + [Window.Job(w.st.buffer, w.st.buffer, 0, [], 0)])
    case LookUp(j) =>
      if j >= |w.jobs| || w.jobs[j].pending == [] then w
      else
        World(w.st.(calls := w.st.calls + [Read(Window.KeyOf(w.jobs[j].pending[0]))]),
              w.jobs[j := Window.LookUp(w.jobs[j], w.st.calls, cap)])
  }

  function After(actions: seq<Action>, k: nat, cap: nat, batch: Batch): World {
    if actions == [] then FRESH
    else Act(After(actions[..|actions| - 1], k, cap, batch), actions[|actions| - 1], k, cap, batch)
  }

  /** The steps of the window machine that an action takes. */
  function Steps(w: World, a: Action, k: nat, batch: Batch): seq<Window.Event> {
    match a
    case Sample(units, draw) => Adds(AcceptedSpans(w.st.n, units, draw, k, batch))
    case Reset => [Window.Close]
    case LookUp(j) => [Window.ReadNext(j)]
  }

  function Events(actions: seq<Action>, k: nat, cap: nat, batch: Batch): seq<Window.Event> {
    if actions == [] then []
    else
      var before := actions[..|actions| - 1];
      Events(before, k, cap, batch) + Steps(After(before, k, cap, batch), actions[|actions| - 1], k, batch)
  }

  /** The same buffer, the same cache calls, and the same flushes but for their marks. */
  ghost predicate Matches(w: World, s: Window.State) {
    && Agrees(w.st, s)
    && |w.jobs| == |s.jobs|
    && forall j :: 0 <= j < |w.jobs| ==> w.jobs[j] == s.jobs[j].(start := 0)
  }

  lemma OneEvent(s: Window.State, e: Window.Event, k: nat, cap: nat)
    ensures Window.From(s, [e], k, cap) == Window.Next(s, e, k, cap)
  {
    assert [e][..0] == [];
  }

  lemma ActMatches(w: World, s: Window.State, a: Action, k: nat, cap: nat, batch: Batch)
    requires Matches(w, s)
    ensures Matches(Act(w, a, k, cap, batch), Window.From(s, Steps(w, a, k, batch), k, cap))
  {
    match a
    case Sample(units, draw) =>
      SamplingIsARun(w.st, s, units, draw, k, cap, batch);
    case Reset =>
      OneEvent(s, Window.Close, k, cap);
    case LookUp(j) =>
      OneEvent(s, Window.ReadNext(j), k, cap);
      LookUpMatches(w, s, j, k, cap, batch);
  }

  lemma LookUpMatches(w: World, s: Window.State, j: nat, k: nat, cap: nat, batch: Batch)
    requires Matches(w, s)
    ensures Matches(Act(w, LookUp(j), k, cap, batch), Window.Next(s, Window.ReadNext(j), k, cap))
  {
  }

  /** Every state of a sampler, after any actions at all, is one the window machine reaches. */
  lemma {:induction false} SamplerIsReachable(actions: seq<Action>, k: nat, cap: nat, batch: Batch)
    ensures Matches(After(actions, k, cap, batch), Window.After(Events(actions, k, cap, batch), k, cap))
  {
    if actions == [] {
    } else {
      var before, a := actions[..|actions| - 1], actions[|actions| - 1];
      var w, events := After(before, k, cap, batch), Events(before, k, cap, batch);
      SamplerIsReachable(before, k, cap, batch);
      ActMatches(w, Window.After(events, k, cap), a, k, cap, batch);
      Window.AfterFrom(events, Steps(w, a, k, batch), k, cap);
    }
  }

  /** The number of units sampled since the last reset. */
  function UnitsSinceReset(actions: seq<Action>): nat {
    if actions == [] then 0
    else
      var before := actions[..|actions| - 1];
      match actions[|actions| - 1]
      case Sample(units, _) => UnitsSinceReset(before) + |units|
      case Reset => 0
      case LookUp(_) => UnitsSinceReset(before)
  }

  /** The counter the gate draws by starts anew with every window. */
  lemma {:induction false} CounterStartsAnew(actions: seq<Action>, k: nat, cap: nat, batch: Batch)
    ensures After(actions, k, cap, batch).st.n == UnitsSinceReset(actions)
  {
    if actions == [] {
    } else {
      var before, a := actions[..|actions| - 1], actions[|actions| - 1];
      CounterStartsAnew(before, k, cap, batch);
      if a.Sample? {
        OnlyAcceptedSpansEnter(After(before, k, cap, batch).st, a.units, a.draw, k, batch);
      }
    }
  }

  /** A span of the sampler's own buffer is in its cache if and only if fewer distinct keys than
      the cache has places were touched since the span's own. */
  lemma SamplerSpanCachedIff(actions: seq<Action>, k: nat, cap: nat, batch: Batch, s: Window.Stored)
    requires k >= 1 && cap >= 1 && s in After(actions, k, cap, batch).st.buffer
    ensures var calls := After(actions, k, cap, batch).st.calls;
      Has(Run(calls, cap), Window.KeyOf(s)) <==> Rivals(calls, cap, Window.KeyOf(s)) < cap
  {
    SamplerIsReachable(actions, k, cap, batch);
    Window.BufferedSpanCachedIff(Events(actions, k, cap, batch), k, cap, s);
  }

  /** A flush of the sampler has missed nothing if and only if each of its lookups came before
      as many other keys as the cache has places. */
  lemma SamplerFlushCompleteIff(actions: seq<Action>, k: nat, cap: nat, batch: Batch, j: nat)
    requires k >= 1 && cap >= 1 && j < |After(actions, k, cap, batch).jobs|
    ensures After(actions, k, cap, batch).jobs[j].missing == 0
       <==> Window.AlwaysInTime(Events(actions, k, cap, batch), j, k, cap)
  {
    SamplerIsReachable(actions, k, cap, batch);
    Window.NothingMissingIff(Events(actions, k, cap, batch), j, k, cap);
  }

  // ----- what a flush sends on -----

  /** The span, in the context it was grouped under, belongs to a unit that was sampled. */
  ghost predicate WasSampled(actions: seq<Action>, render: Render, s: SpanInContext) {
    exists i, unit :: 0 <= i < |actions| && actions[i].Sample? && unit in actions[i].units && s in Grouped(render, unit)
  }

  /** The stored form of a sampled span: the span itself with its summary beside it. */
  ghost predicate StandsFor(actions: seq<Action>, render: Render, x: Window.Stored) {
    x.full.Some? && x.summary == Summarize(x.full.value) && WasSampled(actions, render, x.full.value)
  }

  lemma {:induction false} AcceptedFrom(n: nat, units: seq<seq<SpanInContext>>, draw: nat -> nat, k: nat, batch: Batch,
                                        x: Window.Stored) returns (unit: seq<SpanInContext>)
    requires x in AcceptedSpans(n, units, draw, k, batch)
    ensures unit in units && x in batch(unit)
  {
    var m := |units| - 1;
    if x in AcceptedSpans(n, units[..m], draw, k, batch) {
      unit := AcceptedFrom(n, units[..m], draw, k, batch, x);
    } else {
      unit := units[m];
    }
  }

  lemma StoredStandsFor(actions: seq<Action>, render: Render, batch: Batch, unit: seq<SpanInContext>, x: Window.Stored)
    requires IsGrouping(batch, render) && x in batch(unit)
    requires actions != [] && actions[|actions| - 1].Sample? && unit in actions[|actions| - 1].units
    ensures StandsFor(actions, render, x)
  {
    assert batch(unit) == StoredSpans(Grouped(render, unit));
    var i :| 0 <= i < |batch(unit)| && batch(unit)[i] == x;
    assert x == StoredSpan(Grouped(render, unit)[i]);
  }

  lemma StandsForLater(actions: seq<Action>, a: Action, render: Render, x: Window.Stored)
    requires StandsFor(actions, render, x)
    ensures StandsFor(actions + [a], render, x)
  {
    var i, unit :| 0 <= i < |actions| && actions[i].Sample? && unit in actions[i].units
      && x.full.value in Grouped(render, unit);
    assert (actions + [a])[i] == actions[i];
  }

  lemma {:induction false} AddsStandFor(actions: seq<Action>, k: nat, cap: nat, batch: Batch, render: Render,
                                        x: Window.Stored)
    requires IsGrouping(batch, render) && Window.Add(x) in Events(actions, k, cap, batch)
    ensures StandsFor(actions, render, x)
  {
    var before, a := actions[..|actions| - 1], actions[|actions| - 1];
    var w := After(before, k, cap, batch);
    assert actions == before + [a];
    if Window.Add(x) in Events(before, k, cap, batch) {
      AddsStandFor(before, k, cap, batch, render, x);
      StandsForLater(before, a, render, x);
    } else {
      assert Window.Add(x) in Steps(w, a, k, batch);
      assert x in AcceptedSpans(w.st.n, a.units, a.draw, k, batch);
      var unit := AcceptedFrom(w.st.n, a.units, a.draw, k, batch, x);
      StoredStandsFor(actions, render, batch, unit, x);
    }
  }

  /** When trace and span identifiers are unique, a flush of the sampler that has missed nothing
      has sent on exactly what it has looked up, in buffer order, and every span sent on is a
      span that was sampled, in full. */
  lemma SamplerSendsItsSpans(actions: seq<Action>, k: nat, cap: nat, batch: Batch, render: Render, j: nat)
    requires IsGrouping(batch, render) && j < |After(actions, k, cap, batch).jobs|
    requires Window.UniqueIds(Events(actions, k, cap, batch))
    requires After(actions, k, cap, batch).jobs[j].missing == 0
    ensures var job := After(actions, k, cap, batch).jobs[j];
      Window.SentOn(job) && forall x :: x in job.emitted ==> StandsFor(actions, render, x)
  {
    var events := Events(actions, k, cap, batch);
    var job := After(actions, k, cap, batch).jobs[j];
    SamplerIsReachable(actions, k, cap, batch);
    Window.EmitsTheBuffer(events, j, k, cap);
    Window.FlushedAreAdds(events, k, cap, j);
    forall x | x in job.emitted ensures StandsFor(actions, render, x) {
      assert x in job.emitted + job.pending;
      AddsStandFor(actions, k, cap, batch, render, x);
    }
  }
}
