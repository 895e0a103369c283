/** The cached top-N selection: the n largest processes by CPU joined with the n largest by
    memory, kept until the table or n changes, and the set of process identifiers kept
    beside it for fast lookups.

    Selections are compared at the boundaries of the methods. */
module TopNCache {
  import opened ProcessHeap
  import opened ProcessTable

  function Cpu(): Metric {
    (p: Process) => p.cpuUsage
  }

  function Memory(): Metric {
    (p: Process) => p.memoryUsage
  }

  ghost predicate DifferentPids(s: seq<Process>) {
    forall i, j :: 0 <= i < j < |s| ==> s[i].pid != s[j].pid
  }

  /** `s` lists every process of the table once, in some order. */
  ghost predicate Lists(s: seq<Process>, table: Table) {
    && DifferentPids(s)
    && (forall p :: p in s ==> p.pid in table && table[p.pid] == p)
    && (forall pid :: pid in table ==> table[pid] in s)
  }

  ghost function All(table: Table): multiset<Process> {
    multiset(set pid | pid in table :: table[pid])
  }

  function PidsOf(s: seq<Process>): set<string> {
    set p | p in s :: p.pid
  }

  ghost predicate JoinsTops(table: Table, n: nat, s: seq<Process>,
                            cpuTop: multiset<Process>, memTop: multiset<Process>)
  {
    && IsTopN(All(table), cpuTop, n, Cpu()) && IsTopN(All(table), memTop, n, Memory())
    && forall p :: p in s <==> p in cpuTop || p in memTop
  }

  /** What a valid cache must hold: no process twice; the whole table when it has at most n
      processes; otherwise a CPU top n joined with a memory top n, n to 2n processes in all. */
  ghost predicate Correct(table: Table, n: nat, s: seq<Process>) {
    && DifferentPids(s)
    && (forall p :: p in s ==> p.pid in table && table[p.pid] == p)
    && (|table| <= n ==> forall pid :: pid in table ==> table[pid] in s)
    && (|table| > n ==> n <= |s| <= 2 * n && exists cpuTop, memTop :: JoinsTops(table, n, s, cpuTop, memTop))
  }

  /** A process of the table that is left out of a correct selection has n selected processes
      with at least its CPU usage and n with at least its memory usage. */
  lemma LeftOutIsSmall(table: Table, n: nat, s: seq<Process>, p: Process)
    returns (cpuTop: multiset<Process>, memTop: multiset<Process>)
    requires Correct(table, n, s) && p.pid in table && table[p.pid] == p && p !in s
    ensures cpuTop <= All(table) && memTop <= All(table) && |cpuTop| == n && |memTop| == n
    ensures forall q :: q in cpuTop ==> q in s && q.cpuUsage >= p.cpuUsage
    ensures forall q :: q in memTop ==> q in s && q.memoryUsage >= p.memoryUsage
  {
    cpuTop, memTop :| JoinsTops(table, n, s, cpuTop, memTop);
    assert p in (set pid | pid in table :: table[pid]);
    assert p in All(table) - cpuTop && p in All(table) - memTop;
    assert forall q :: q in cpuTop ==> Cpu()(p) <= Cpu()(q);
    assert forall q :: q in memTop ==> Memory()(p) <= Memory()(q);
  }

  /** A selected process has fewer than n processes of the table above it in CPU usage, or
      fewer than n above it in memory usage. */
  lemma SelectedIsLarge(table: Table, n: nat, s: seq<Process>, p: Process,
                        aboveCpu: set<Process>, aboveMem: set<Process>)
    requires Correct(table, n, s) && |table| > n && p in s
    requires forall q :: q in aboveCpu ==> q.pid in table && table[q.pid] == q && q.cpuUsage > p.cpuUsage
    requires forall q :: q in aboveMem ==> q.pid in table && table[q.pid] == q && q.memoryUsage > p.memoryUsage
    ensures |aboveCpu| < n || |aboveMem| < n
  {
    var cpuTop, memTop :| JoinsTops(table, n, s, cpuTop, memTop);
    if p in cpuTop {
      FewAbove(table, n, cpuTop, Cpu(), p, aboveCpu);
    } else {
      FewAbove(table, n, memTop, Memory(), p, aboveMem);
    }
  }

  lemma FewAbove(table: Table, n: nat, top: multiset<Process>, value: Metric, p: Process, above: set<Process>)
    requires IsTopN(All(table), top, n, value) && p in top
    requires forall q :: q in above ==> q.pid in table && table[q.pid] == q && value(q) > value(p)
    ensures |above| < n
  {
    var others := top - multiset{p};
    forall q | q in above ensures q in others {
      assert q in (set pid | pid in table :: table[pid]);
      assert q in All(table);
    }
    assert multiset(above) <= others;
    assert others == multiset(above) + (others - multiset(above));
    assert top == others + multiset{p};
    assert |multiset(above)| == |above|;
  }

  // ----- every sequence of updates, resizes, cleanups and queries -----

  datatype State = State(table: Table, n: nat, cache: seq<Process>, valid: bool, pidCache: set<string>)

  /** A batch of observations; the cache is invalidated if there was any. */
  ghost predicate Updates(a: State, b: State, observations: seq<Observation>, limits: Thresholds) {
    b == a.(table := ApplyAll(a.table, observations, limits), valid := a.valid && observations == [])
  }

  ghost predicate Resizes(a: State, b: State, newN: int) {
    var n := if newN < 1 then 1 else newN;
    b == a.(n := n, valid := a.valid && n == a.n)
  }

  /** The idle cleanup; the cache is invalidated if a process went. */
  ghost predicate Cleans(a: State, b: State, nowNanos: int, ttlNanos: int) {
    var table := Cleaned(a.table, nowNanos, ttlNanos);
    b == a.(table := table, valid := a.valid && table == a.table)
  }

  /** A query: a valid cache is used as it is, an invalid one is rebuilt; the identifier set is
      rebuilt with it only if the table holds more than n processes. */
  ghost predicate Queries(a: State, b: State) {
    if a.valid then b == a
    else
      && b == a.(cache := b.cache, valid := true, pidCache := b.pidCache)
      && Correct(a.table, a.n, b.cache)
      && b.pidCache == if |a.table| > a.n then PidsOf(b.cache) else a.pidCache
  }

  /** The documented query: the identifier set is rebuilt whenever the cache is. */
  ghost predicate QueriesAsDocumented(a: State, b: State) {
    if a.valid then b == a
    else
      && b == a.(cache := b.cache, valid := true, pidCache := b.pidCache)
      && Correct(a.table, a.n, b.cache)
      && b.pidCache == PidsOf(b.cache)
  }

  ghost predicate Changes(a: State, b: State) {
    || (exists observations, limits :: Updates(a, b, observations, limits))
    || (exists newN :: Resizes(a, b, newN))
    || (exists now, ttl :: Cleans(a, b, now, ttl))
  }

  ghost predicate Next(a: State, b: State) {
    Changes(a, b) || Queries(a, b)
  }

  ghost predicate NextAsDocumented(a: State, b: State) {
    Changes(a, b) || QueriesAsDocumented(a, b)
  }

  ghost predicate Starts(a: State) {
    a.table == map[] && a.n >= 1 && !a.valid && a.pidCache == {}
  }

  ghost predicate Coherent(a: State) {
    && WellFiled(a.table) && a.n >= 1
    && (a.valid ==> Correct(a.table, a.n, a.cache))
    && (a.valid && |a.table| > a.n ==> a.pidCache == PidsOf(a.cache))
  }

  lemma {:induction false} ApplyAllFiled(table: Table, observations: seq<Observation>, limits: Thresholds)
    requires WellFiled(table)
    ensures WellFiled(ApplyAll(table, observations, limits))
  {
    if observations == [] {
    } else {
      ApplyAllFiled(table, observations[..|observations| - 1], limits);
    }
  }

  lemma ChangeKeepsCoherence(a: State, b: State)
    requires Coherent(a) && Changes(a, b)
    ensures Coherent(b)
  {
    if observations, limits :| Updates(a, b, observations, limits) {
      ApplyAllFiled(a.table, observations, limits);
    } else if newN :| Resizes(a, b, newN) {
    } else {
      var now, ttl :| Cleans(a, b, now, ttl);
    }
  }

  /** Cache coherence over every run: whatever the updates, resizes, cleanups and queries, a
      valid cache is a correct selection for the present table and n, and with more than n
      processes the identifier set is that of the selection. */
  lemma {:induction false} ValidCacheIsCorrect(run: seq<State>)
    requires run != [] && Starts(run[0])
    requires forall i :: 0 <= i < |run| - 1 ==> Next(run[i], run[i + 1])
    ensures Coherent(run[|run| - 1])
  {
    if |run| == 1 {
    } else {
      var n := |run| - 1;
      ValidCacheIsCorrect(run[..n]);
      assert Next(run[n - 1], run[n]);
      if Changes(run[n - 1], run[n]) {
        ChangeKeepsCoherence(run[n - 1], run[n]);
      }
    }
  }

  // ----- the identifier set -----

  ghost predicate PidsCoherent(a: State) {
    a.valid ==> a.pidCache == PidsOf(a.cache)
  }

  lemma WholeTablePids(a: State, s: seq<Process>)
    requires WellFiled(a.table) && Correct(a.table, a.n, s) && |a.table| <= a.n
    ensures PidsOf(s) == a.table.Keys
  {
    forall pid | pid in a.table ensures pid in PidsOf(s) {
      assert a.table[pid] in s;
    }
  }

  /** A rebuild leaves the identifier set in step with the cache if and only if the table held
      more than n processes, or the set it had before already was the table's identifiers. */
  lemma RebuildKeepsPidsIff(a: State, b: State)
    requires Coherent(a) && !a.valid && Queries(a, b)
    ensures b.pidCache == PidsOf(b.cache) <==> |a.table| > a.n || a.pidCache == a.table.Keys
  {
    if |a.table| <= a.n {
      WholeTablePids(a, b.cache);
    }
  }

  /** So on a run whose table never outgrows n no process identifier is ever found, although
      every process belongs to the selection. */
  lemma {:induction false} SmallTablesFindNothing(run: seq<State>)
    requires run != [] && Starts(run[0])
    requires forall i :: 0 <= i < |run| - 1 ==> Next(run[i], run[i + 1])
    requires forall i :: 0 <= i < |run| ==> |run[i].table| <= run[i].n
    ensures run[|run| - 1].pidCache == {}
    ensures var last := run[|run| - 1];
      last.valid ==> forall pid :: pid in last.table ==> last.table[pid] in last.cache && pid !in last.pidCache
  {
    ValidCacheIsCorrect(run);
    if |run| == 1 {
    } else {
      var n := |run| - 1;
      SmallTablesFindNothing(run[..n]);
      assert Next(run[n - 1], run[n]);
    }
  }

  /** With the documented rule the identifier set is exactly the identifiers of the cached
      selection, on every run. */
  lemma {:induction false} DocumentedRuleKeepsPids(run: seq<State>)
    requires run != [] && Starts(run[0])
    requires forall i :: 0 <= i < |run| - 1 ==> NextAsDocumented(run[i], run[i + 1])
    ensures Coherent(run[|run| - 1]) && PidsCoherent(run[|run| - 1])
  {
    if |run| == 1 {
    } else {
      var n := |run| - 1;
      DocumentedRuleKeepsPids(run[..n]);
      assert NextAsDocumented(run[n - 1], run[n]);
      if Changes(run[n - 1], run[n]) {
        ChangeKeepsCoherence(run[n - 1], run[n]);
      }
    }
  }

  /** The process with this identifier belongs to the cached selection. */
  ghost predicate Selected(a: State, pid: string) {
    pid in a.table && a.table[pid] in a.cache
  }

  /** Looking an identifier up tells, for every one of them, whether its process is selected. */
  ghost predicate LookupsRight(a: State) {
    forall pid :: pid in a.pidCache <==> Selected(a, pid)
  }

  /** There are more than n processes, or the identifier set is that of the whole table. */
  predicate Settled(a: State) {
    |a.table| > a.n || a.pidCache == a.table.Keys
  }

  lemma LookupsRightIffInStep(a: State)
    requires Coherent(a) && a.valid
    ensures LookupsRight(a) <==> PidsCoherent(a)
  {
    forall pid ensures pid in PidsOf(a.cache) <==> Selected(a, pid) {
      if Selected(a, pid) {
        assert a.table[pid].pid == pid;
      }
    }
    if LookupsRight(a) {
      assert a.pidCache == PidsOf(a.cache);
    }
  }

  lemma LookupsRightHere(a: State)
    requires Coherent(a) && a.valid
    ensures LookupsRight(a) <==> Settled(a)
  {
    LookupsRightIffInStep(a);
    if |a.table| <= a.n {
      WholeTablePids(a, a.cache);
    }
  }

  /** Over every run: while the cache is valid, lookups tell for every identifier whether its
      process is selected if and only if the table has more than n processes or the identifier
      set happens to be that of the whole table. */
  lemma LookupsRightIff(run: seq<State>)
    requires run != [] && Starts(run[0])
    requires forall i :: 0 <= i < |run| - 1 ==> Next(run[i], run[i + 1])
    requires run[|run| - 1].valid
    ensures LookupsRight(run[|run| - 1]) <==> Settled(run[|run| - 1])
  {
    ValidCacheIsCorrect(run);
    LookupsRightHere(run[|run| - 1]);
  }

  /** A run that misses a process: one is observed and the selection is queried.  The process
      is in the table and in the selection, and looking it up does not find it. */
  lemma OneProcessIsMissed(o: Observation, limits: Thresholds, n: nat) returns (run: seq<State>)
    requires n >= 1
    ensures |run| == 3 && Starts(run[0]) && Updates(run[0], run[1], [o], limits) && Queries(run[1], run[2])
    ensures forall i :: 0 <= i < 2 ==> Next(run[i], run[i + 1])
    ensures run[2].valid && run[2].n == n && Selected(run[2], o.pid) && o.pid !in run[2].pidCache
  {
    var table := Apply(map[], o, limits);
    var a := State(map[], n, [], false, {});
    var b := a.(table := table);
    var c := b.(cache := [table[o.pid]], valid := true);
    assert ApplyAll(map[], [o], limits) == table by {
      assert [o][..0] == [];
    }
    assert Updates(a, b, [o], limits);
    assert Queries(b, c);
    run := [a, b, c];
    assert Next(run[0], run[1]) && Next(run[1], run[2]);
  }

  // ----- joining two tops -----

  lemma ListsSize(s: seq<Process>, table: Table)
    requires WellFiled(table) && Lists(s, table)
    ensures |s| == |table| && multiset(s) == All(table)
  {
    DistinctList(s);
    assert (set p | p in s) == (set pid | pid in table :: table[pid]);
    PidsSize(s);
    assert PidsOf(s) == table.Keys;
  }

  lemma {:induction false} DistinctList(s: seq<Process>)
    requires DifferentPids(s)
    ensures multiset(s) == multiset(set p | p in s)
  {
    if s == [] {
    } else {
      var n := |s| - 1;
      var members := set p | p in s[..n];
      assert s == s[..n] + [s[n]];
      calc {
        multiset(s);
        multiset(s[..n]) + multiset{s[n]};
        { DistinctList(s[..n]); }
        multiset(members) + multiset{s[n]};
        { assert s[n] !in s[..n]; OneMoreMember(members, s[n]); }
        multiset(members + {s[n]});
        { assert members + {s[n]} == set p | p in s; }
        multiset(set p | p in s);
      }
    }
  }

  lemma OneMoreMember<T>(members: set<T>, x: T)
    requires x !in members
    ensures multiset(members + {x}) == multiset(members) + multiset{x}
  {
  }

  lemma {:induction false} PidsSize(s: seq<Process>)
    requires DifferentPids(s)
    ensures |PidsOf(s)| == |s|
  {
    if s == [] {
    } else {
      var n := |s| - 1;
      PidsSize(s[..n]);
      assert s == s[..n] + [s[n]];
      assert PidsOf(s) == PidsOf(s[..n]) + {s[n].pid};
      assert s[n].pid !in PidsOf(s[..n]);
    }
  }

  /** A selection of a duplicate-free list is duplicate-free. */
  lemma SelectionDistinct(all: seq<Process>, top: seq<Process>)
    requires DifferentPids(all) && multiset(top) <= multiset(all)
    ensures DifferentPids(top)
    ensures forall p :: p in top ==> p in all
  {
    forall p | p in top ensures p in all {
      assert p in multiset(top);
    }
    DistinctList(all);
    forall i, j | 0 <= i < j < |top| ensures top[i].pid != top[j].pid {
      if top[i].pid == top[j].pid {
        assert top[i] in all && top[j] in all;
        TwicePresent(top, i, j);
      }
    }
  }

  lemma TwicePresent(top: seq<Process>, i: nat, j: nat)
    requires i < j < |top|
    ensures top[i] == top[j] ==> multiset(top)[top[i]] >= 2
  {
    assert top == top[..j] + [top[j]] + top[j + 1..];
    assert top[i] in top[..j];
  }

  // ----- the processor's cache -----

  class TopNProcessor {
    const limits: Thresholds
    var processes: Table
    var n: nat
    var topNCache: seq<Process>
    var topNCacheValid: bool
    var topNPIDCache: set<string>

    ghost function AsState(): State
      reads this
    {
      State(processes, n, topNCache, topNCacheValid, topNPIDCache)
    }

    ghost predicate Valid()
      reads this
    {
      Coherent(AsState())
    }

    constructor (topN: nat, limits: Thresholds)
      requires topN >= 1
      ensures Valid() && Starts(AsState()) && n == topN && this.limits == limits
    {
      this.limits := limits;
      processes, n := map[], topN;
      topNCache, topNCacheValid, topNPIDCache := [], false, {};
    }

    /** Resizes the selection; fewer than one is taken as one. */
    method SetTopN(newN: int)
      requires Valid()
      modifies this
      ensures Valid() && Resizes(old(AsState()), AsState(), newN)
      ensures n == (if newN >= 1 then newN else 1) && topNCacheValid == (old(topNCacheValid) && n == old(n))
    {
      var m := if newN < 1 then 1 else newN;
      var oldN := n;
      n := m;
      if oldN != m {
        topNCacheValid := false;
      }
    }

    /** Removes the processes idle for longer than the time to live. */
    method RunCleanupCycle(nowNanos: int, ttlNanos: int)
      requires Valid()
      modifies this
      ensures Valid() && Cleans(old(AsState()), AsState(), nowNanos, ttlNanos)
    {
      var toRemove := set pid | pid in processes && Idle(processes[pid], nowNanos, ttlNanos);
      ghost var cleaned := Cleaned(processes, nowNanos, ttlNanos);
      assert processes - toRemove == cleaned;
      assert toRemove == {} <==> cleaned == processes;
      processes := processes - toRemove;
      if toRemove != {} {
        topNCacheValid := false;
      }
    }

    /** Lists the table's processes in an arbitrary order. */
    method Enumerate() returns (list: seq<Process>)
      requires WellFiled(processes)
      ensures Lists(list, processes)
    {
      list := [];
      var todo := processes.Keys;
      while todo != {}
        invariant todo <= processes.Keys
        invariant DifferentPids(list)
        invariant forall p :: p in list ==> p.pid in processes && p.pid !in todo && processes[p.pid] == p
        invariant forall pid :: pid in processes && pid !in todo ==> processes[pid] in list
        decreases todo
      {
        var pid :| pid in todo;
        todo := todo - {pid};
        list := list + [processes[pid]];
      }
    }

    /** The selection: cached while valid, otherwise computed afresh and cached. */
    method GetTopNProcesses() returns (result: seq<Process>)
      requires Valid()
      modifies this
      ensures Valid() && Queries(old(AsState()), AsState())
      ensures result == topNCache && Correct(processes, n, result)
    {
      if topNCacheValid {
        return topNCache;
      }
      var list := Enumerate();
      ListsSize(list, processes);
      if |list| <= n {
        topNCache, topNCacheValid := list, true;
        return list;
      }
      var cpuTopN := GetTopNByMetric(list, n, Cpu());
      var memTopN := GetTopNByMetric(list, n, Memory());
      result := Join(list, cpuTopN, memTopN);
      JoinIsCorrect(processes, n, list, cpuTopN, memTopN, result);
      topNCache, topNCacheValid := result, true;
      topNPIDCache := PidsOf(result);
    }

    /** Whether a process identifier is in the identifier set kept beside the cache, which tells
        whether its process is in the present selection if the cache is valid and the table has
        more than n processes. */
    method IsInTopN(pid: string) returns (found: bool)
      requires Valid()
      ensures found <==> pid in topNPIDCache
      ensures topNCacheValid && Settled(AsState()) ==> (found <==> Selected(AsState(), pid))
    {
      if topNCacheValid {
        LookupsRightHere(AsState());
      }
      found := pid in topNPIDCache;
    }
  }

  ghost predicate Joined(cpuTop: seq<Process>, memTop: seq<Process>, result: seq<Process>) {
    && DifferentPids(result)
    && |cpuTop| <= |result| <= |cpuTop| + |memTop|
    && forall p :: p in result <==> p in cpuTop || p in memTop
  }

  /** The CPU top followed by the members of the memory top not already there. */
  method Join(ghost all: seq<Process>, cpuTop: seq<Process>, memTop: seq<Process>) returns (result: seq<Process>)
    requires DifferentPids(all) && multiset(cpuTop) <= multiset(all) && multiset(memTop) <= multiset(all)
    ensures Joined(cpuTop, memTop, result)
  {
    SelectionDistinct(all, cpuTop);
    SelectionDistinct(all, memTop);
    result := cpuTop;
    var seen := PidsOf(cpuTop);
    for i := 0 to |memTop|
      invariant DifferentPids(result) && seen == PidsOf(result)
      invariant |cpuTop| <= |result| <= |cpuTop| + i
      invariant forall p :: p in result <==> p in cpuTop || p in memTop[..i]
    {
      var p := memTop[i];
      assert memTop[..i + 1] == memTop[..i] + [p];
      if p.pid !in seen {
        seen := seen + {p.pid};
        result := result + [p];
      } else {
        SamePidSameProcess(all, result, cpuTop, memTop, i, p);
      }
    }
    assert memTop[..|memTop|] == memTop;
  }

  lemma SamePidSameProcess(all: seq<Process>, result: seq<Process>, cpuTop: seq<Process>, memTop: seq<Process>,
                           i: nat, p: Process)
    requires DifferentPids(all) && i < |memTop| && p == memTop[i]
    requires forall q :: q in cpuTop ==> q in all
    requires forall q :: q in memTop ==> q in all
    requires forall q :: q in result <==> q in cpuTop || q in memTop[..i]
    requires p.pid in PidsOf(result)
    ensures p in result
  {
    var q :| q in result && q.pid == p.pid;
    assert q in all && p in all;
    var a :| 0 <= a < |all| && all[a] == q;
    var b :| 0 <= b < |all| && all[b] == p;
  }

  lemma JoinIsCorrect(table: Table, n: nat, list: seq<Process>, cpuTop: seq<Process>, memTop: seq<Process>,
                      result: seq<Process>)
    requires WellFiled(table) && Lists(list, table) && |list| > n
    requires IsTopN(multiset(list), multiset(cpuTop), n, Cpu())
    requires IsTopN(multiset(list), multiset(memTop), n, Memory())
    requires Joined(cpuTop, memTop, result)
    ensures Correct(table, n, result)
  {
    ListsSize(list, table);
    assert |multiset(cpuTop)| == |cpuTop| && |multiset(memTop)| == |memTop|;
    forall p | p in result ensures p in list {
      assert p in multiset(cpuTop) || p in multiset(memTop);
    }
    assert JoinsTops(table, n, result, multiset(cpuTop), multiset(memTop));
  }
}
