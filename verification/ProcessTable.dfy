/** The table of tracked processes: how an observation updates it, how the idle cleanup
    shrinks it, and what its time stamps mean in terms of the whole history. */
module ProcessTable {
  import opened ProcessHeap

  type Table = map<string, Process>

  datatype Thresholds = Thresholds(cpu: real, memory: real)

  /** One observation of a process, and the second at which it was applied. */
  datatype Observation = Observation(pid: string, name: string, cpu: real, memory: real, at: int) {
    predicate Active(limits: Thresholds) {
      cpu >= limits.cpu || memory >= limits.memory
    }
  }

  const NANOS := 1_000_000_000

  /** Every process is filed under its own identifier. */
  ghost predicate WellFiled(table: Table) {
    forall pid :: pid in table ==> table[pid].pid == pid
  }

  function Apply(table: Table, o: Observation, limits: Thresholds): Table {
    var last :=
      if o.Active(limits) then o.at
      else if o.pid in table then table[o.pid].lastAboveThreshold
      else 0;
    table[o.pid := Process(o.pid, o.name, o.cpu, o.memory, o.at, last)]
  }

  function ApplyAll(table: Table, observations: seq<Observation>, limits: Thresholds): Table {
    if observations == [] then table
    else Apply(ApplyAll(table, observations[..|observations| - 1], limits), observations[|observations| - 1], limits)
  }

  /** Whether a process has been idle for longer than the time to live.  Time stamps are in
      whole seconds, the present and the time to live in nanoseconds. */
  predicate Idle(p: Process, nowNanos: int, ttlNanos: int) {
    nowNanos - p.lastAboveThreshold * NANOS > ttlNanos
  }

  function Cleaned(table: Table, nowNanos: int, ttlNanos: int): Table {
    map pid | pid in table && !Idle(table[pid], nowNanos, ttlNanos) :: table[pid]
  }

  // ----- the table as a function of history -----

  datatype Event = Observe(o: Observation) | Cleanup(nowNanos: int, ttlNanos: int)

  function After(events: seq<Event>, limits: Thresholds): Table {
    if events == [] then map[]
    else
      var before := After(events[..|events| - 1], limits);
      match events[|events| - 1]
      case Observe(o) => Apply(before, o, limits)
      case Cleanup(now, ttl) => Cleaned(before, now, ttl)
  }

  /** Whether `pid` is tracked: observed, and never found idle by a cleanup since. */
  predicate Tracked(events: seq<Event>, limits: Thresholds, pid: string)
    decreases |events|, 0
  {
    if events == [] then false
    else
      var before := events[..|events| - 1];
      match events[|events| - 1]
      case Observe(o) => o.pid == pid || Tracked(before, limits, pid)
      case Cleanup(now, ttl) =>
        Tracked(before, limits, pid) && now - LastActive(before, limits, pid) * NANOS <= ttl
  }

  /** When `pid` was last observed at or above a threshold since it was last inserted; 0 if
      it is not tracked or never was. */
  function LastActive(events: seq<Event>, limits: Thresholds, pid: string): int
    decreases |events|, 1
  {
    if events == [] then 0
    else
      var before := events[..|events| - 1];
      match events[|events| - 1]
      case Observe(o) =>
        if o.pid == pid && (o.cpu >= limits.cpu || o.memory >= limits.memory) then o.at
        else LastActive(before, limits, pid)
      case Cleanup(now, ttl) => if Tracked(events, limits, pid) then LastActive(before, limits, pid) else 0
  }

  lemma {:induction false} UntrackedIsZero(events: seq<Event>, limits: Thresholds, pid: string)
    requires !Tracked(events, limits, pid)
    ensures LastActive(events, limits, pid) == 0
  {
    if events == [] {
    } else {
      match events[|events| - 1]
      case Observe(o) => UntrackedIsZero(events[..|events| - 1], limits, pid);
      case Cleanup(now, ttl) =>
    }
  }

  /** Idle tracking: on every history the table holds exactly the tracked processes, each
      under its own identifier, stamped with its latest active observation since insertion. */
  lemma {:induction false} StampsTellTheHistory(events: seq<Event>, limits: Thresholds)
    ensures WellFiled(After(events, limits))
    ensures forall pid :: pid in After(events, limits) <==> Tracked(events, limits, pid)
    ensures forall pid :: pid in After(events, limits) ==>
      After(events, limits)[pid].lastAboveThreshold == LastActive(events, limits, pid)
  {
    if events == [] {
    } else {
      var before := events[..|events| - 1];
      StampsTellTheHistory(before, limits);
      forall pid | !Tracked(before, limits, pid) ensures LastActive(before, limits, pid) == 0 {
        UntrackedIsZero(before, limits, pid);
      }
    }
  }

  /** Each cleanup removes exactly the processes idle for longer than the time to live. */
  lemma CleanupRemovesTheIdle(events: seq<Event>, limits: Thresholds, nowNanos: int, ttlNanos: int, pid: string)
    ensures var table := After(events, limits);
      var left := After(events + [Cleanup(nowNanos, ttlNanos)], limits);
      (pid in left <==>
         Tracked(events, limits, pid) && nowNanos - LastActive(events, limits, pid) * 1_000_000_000 <= ttlNanos)
      && (pid in left ==> left[pid] == table[pid])
  {
    assert (events + [Cleanup(nowNanos, ttlNanos)])[..|events|] == events;
    StampsTellTheHistory(events, limits);
  }

  /** An active observation of `pid` at second `t` somewhere in the history. */
  ghost predicate WasActive(events: seq<Event>, limits: Thresholds, pid: string, t: int) {
    exists e :: e in events && e.Observe? && e.o.pid == pid && e.o.at == t
      && (e.o.cpu >= limits.cpu || e.o.memory >= limits.memory)
  }

  lemma {:induction false} StampIsAnObservation(events: seq<Event>, limits: Thresholds, pid: string)
    requires LastActive(events, limits, pid) != 0
    ensures WasActive(events, limits, pid, LastActive(events, limits, pid))
  {
    var n := |events| - 1;
    var e := events[n];
    assert e in events;
    if e.Observe? && e.o.pid == pid && e.o.Active(limits) {
    } else {
      StampIsAnObservation(events[..n], limits, pid);
      var x :| x in events[..n] && x.Observe? && x.o.pid == pid
        && x.o.at == LastActive(events[..n], limits, pid) && x.o.Active(limits);
      assert x in events;
    }
  }

  /** After a cleanup at a time beyond the first time to live of the epoch, every survivor
      was active within the time to live. */
  lemma SurvivorsWereActive(events: seq<Event>, limits: Thresholds, nowNanos: int, ttlNanos: int, pid: string)
    requires nowNanos > ttlNanos
    requires pid in After(events + [Cleanup(nowNanos, ttlNanos)], limits)
    ensures exists t :: WasActive(events, limits, pid, t) && nowNanos - t * 1_000_000_000 <= ttlNanos
  {
    CleanupRemovesTheIdle(events, limits, nowNanos, ttlNanos, pid);
    StampIsAnObservation(events, limits, pid);
  }

  // ----- stamps never move back -----

  function TimeOf(e: Event): int {
    match e
    case Observe(o) => o.at
    case Cleanup(now, ttl) => now / NANOS
  }

  ghost predicate ClockRuns(events: seq<Event>) {
    && (forall i :: 0 <= i < |events| ==> TimeOf(events[i]) >= 0)
    && (forall i, j :: 0 <= i < j < |events| ==> TimeOf(events[i]) <= TimeOf(events[j]))
  }

  lemma {:induction false} StampInThePast(events: seq<Event>, limits: Thresholds, pid: string)
    requires ClockRuns(events)
    ensures LastActive(events, limits, pid) >= 0
    ensures events != [] ==> LastActive(events, limits, pid) <= TimeOf(events[|events| - 1])
  {
    if events == [] {
    } else {
      var n := |events| - 1;
      StampInThePast(events[..n], limits, pid);
      if n > 0 {
        assert TimeOf(events[n - 1]) <= TimeOf(events[n]);
      }
    }
  }

  /** While a process stays tracked its stamp never decreases. */
  lemma StampNeverDecreases(events: seq<Event>, limits: Thresholds, pid: string)
    requires events != [] && ClockRuns(events)
    requires Tracked(events[..|events| - 1], limits, pid) && Tracked(events, limits, pid)
    ensures LastActive(events[..|events| - 1], limits, pid) <= LastActive(events, limits, pid)
  {
    var n := |events| - 1;
    StampInThePast(events[..n], limits, pid);
    if n > 0 {
      assert TimeOf(events[n - 1]) <= TimeOf(events[n]);
    }
  }

  // ----- when the order of observations does not matter -----

  /** No two observations of one process differ. */
  ghost predicate Consistent(observations: seq<Observation>) {
    forall a, b :: a in observations && b in observations && a.pid == b.pid ==> a == b
  }

  lemma {:induction false} UnobservedKept(table: Table, observations: seq<Observation>, limits: Thresholds, pid: string)
    requires forall o :: o in observations ==> o.pid != pid
    ensures var result := ApplyAll(table, observations, limits);
      (pid in result <==> pid in table) && (pid in result ==> result[pid] == table[pid])
  {
    if observations == [] {
    } else {
      UnobservedKept(table, observations[..|observations| - 1], limits, pid);
    }
  }

  /** When no two observations of a process differ, its entry depends on its old entry and one
      of them alone: applying an observation again changes nothing. */
  lemma {:induction false} ObservedAlike(table: Table, observations: seq<Observation>, limits: Thresholds,
                                         o: Observation)
    requires Consistent(observations) && o in observations
    ensures var result := ApplyAll(table, observations, limits);
      o.pid in result && result[o.pid] == Apply(table, o, limits)[o.pid]
  {
    var n := |observations| - 1;
    assert observations == observations[..n] + [observations[n]];
    if o in observations[..n] {
      ObservedAlike(table, observations[..n], limits, o);
    } else {
      forall x | x in observations[..n] ensures x.pid != o.pid {
        assert x in observations;
      }
      UnobservedKept(table, observations[..n], limits, o.pid);
    }
  }

  lemma SameEntry(table: Table, a: seq<Observation>, b: seq<Observation>, limits: Thresholds, pid: string)
    requires Consistent(a) && Consistent(b)
    requires forall o :: o in a <==> o in b
    ensures var x, y := ApplyAll(table, a, limits), ApplyAll(table, b, limits);
      (pid in x <==> pid in y) && (pid in x ==> x[pid] == y[pid])
  {
    if o :| o in a && o.pid == pid {
      ObservedAlike(table, a, limits, o);
      ObservedAlike(table, b, limits, o);
    } else {
      UnobservedKept(table, a, limits, pid);
      UnobservedKept(table, b, limits, pid);
    }
  }

  lemma SameMembers(a: seq<Observation>, b: seq<Observation>)
    requires multiset(a) == multiset(b)
    ensures forall o :: o in a <==> o in b
    ensures Consistent(a) <==> Consistent(b)
  {
    forall o ensures o in a <==> o in b {
      assert o in a <==> o in multiset(a);
      assert o in b <==> o in multiset(b);
    }
  }

  /** Applying consistent observations in another order gives the same table. */
  lemma OrderDoesNotMatter(table: Table, a: seq<Observation>, b: seq<Observation>, limits: Thresholds)
    requires Consistent(a) && multiset(a) == multiset(b)
    ensures ApplyAll(table, a, limits) == ApplyAll(table, b, limits)
  {
    SameMembers(a, b);
    var x, y := ApplyAll(table, a, limits), ApplyAll(table, b, limits);
    forall pid ensures (pid in x <==> pid in y) && (pid in x ==> x[pid] == y[pid]) {
      SameEntry(table, a, b, limits, pid);
    }
  }

  /** Of two different observations of one process the later one decides: whatever went before,
      the tables differ. */
  lemma LastDecides(table1: Table, table2: Table, a: Observation, b: Observation, limits: Thresholds)
    requires a.pid == b.pid && a != b
    ensures Apply(table1, a, limits) != Apply(table2, b, limits)
  {
    var p, q := Apply(table1, a, limits)[a.pid], Apply(table2, b, limits)[b.pid];
    assert p.name == a.name && p.cpuUsage == a.cpu && p.memoryUsage == a.memory && p.lastUpdated == a.at;
    assert q.name == b.name && q.cpuUsage == b.cpu && q.memoryUsage == b.memory && q.lastUpdated == b.at;
  }

  lemma ApplyAllSnoc(table: Table, observations: seq<Observation>, o: Observation, limits: Thresholds)
    ensures ApplyAll(table, observations + [o], limits) == Apply(ApplyAll(table, observations, limits), o, limits)
  {
    assert (observations + [o])[..|observations|] == observations;
  }

  ghost predicate OrderIrrelevant(table: Table, observations: seq<Observation>, limits: Thresholds) {
    forall other :: multiset(other) == multiset(observations) ==>
      ApplyAll(table, other, limits) == ApplyAll(table, observations, limits)
  }

  /** Every order of the observations gives the same table if and only if no two observations
      of one process differ. */
  lemma OrderIrrelevantIff(table: Table, observations: seq<Observation>, limits: Thresholds)
    ensures OrderIrrelevant(table, observations, limits) <==> Consistent(observations)
  {
    if Consistent(observations) {
      forall other | multiset(other) == multiset(observations)
        ensures ApplyAll(table, other, limits) == ApplyAll(table, observations, limits)
      {
        OrderDoesNotMatter(table, observations, other, limits);
      }
    } else {
      var a, b :| a in observations && b in observations && a.pid == b.pid && a != b;
      var x := MovedLast(observations, a);
      var y := MovedLast(observations, b);
      ApplyAllSnoc(table, x, a, limits);
      ApplyAllSnoc(table, y, b, limits);
      LastDecides(ApplyAll(table, x, limits), ApplyAll(table, y, limits), a, b, limits);
    }
  }

  /** The other observations, so that `o` can be applied last. */
  lemma MovedLast(observations: seq<Observation>, o: Observation) returns (others: seq<Observation>)
    requires o in observations
    ensures multiset(others + [o]) == multiset(observations)
  {
    var i :| 0 <= i < |observations| && observations[i] == o;
    others := observations[..i] + observations[i + 1..];
    assert observations == observations[..i] + [o] + observations[i + 1..];
  }
}
