/** The batch filter: a pool of workers reads every resource under a semaphore and sends its
    observation over a channel to a collector; a second pool keeps or drops each resource.

    Each pool is a loop that at every turn lets any enabled worker, or the collector, take
    its next step, so what is proved holds for every interleaving.  That some step is always
    enabled and that the steps run out is part of the proof.

    `stamps[i]` is the second at which the observation of resource i is applied. */
module ConcurrentFilter {
  import opened Wrappers
  import opened Seqs
  import opened Choices
  import opened ProcessTable
  import opened Readings
  import opened TopNCache

  function Single<T>(x: Option<T>): seq<T> {
    if x.Some? then [x.value] else []
  }

  function Somes<T>(s: seq<Option<T>>): seq<T> {
    if s == [] then [] else Somes(s[..|s| - 1]) + Single(s[|s| - 1])
  }

  function Picker(resources: seq<ResourceMetrics>, stamps: seq<int>): nat -> Option<Observation>
    requires |stamps| == |resources|
  {
    (i: nat) => if i < |resources| then Extract(resources[i], stamps[i]) else None
  }

  /** The observations of the resources with the given numbers, in that order. */
  function Picked(resources: seq<ResourceMetrics>, stamps: seq<int>, order: seq<nat>): seq<Observation>
    requires |stamps| == |resources|
  {
    Somes(Map(Picker(resources, stamps), order))
  }

  function UpTo(n: nat): (s: seq<nat>)
    ensures |s| == n
    ensures forall i :: 0 <= i < n ==> s[i] == i
  {
    seq(n, i => i)
  }

  /** The observations of a batch, in the order of its resources. */
  function Observations(resources: seq<ResourceMetrics>, stamps: seq<int>): seq<Observation>
    requires |stamps| == |resources|
  {
    Picked(resources, stamps, UpTo(|resources|))
  }

  predicate Keeps(r: ResourceMetrics, pids: set<string>) {
    r.pid == "" || r.pid in pids
  }

  /** The plain one-pass filter. */
  function Kept(resources: seq<ResourceMetrics>, pids: set<string>): seq<ResourceMetrics> {
    if resources == [] then []
    else
      var last := resources[|resources| - 1];
      Kept(resources[..|resources| - 1], pids) + if Keeps(last, pids) then [last] else []
  }

  // ----- any order of all numbers picks the same observations -----

  lemma {:induction false} SomesCount<T>(s: seq<Option<T>>, x: T)
    ensures multiset(Somes(s))[x] == multiset(s)[Some(x)]
  {
    if s == [] {
    } else {
      var n := |s| - 1;
      SomesCount(s[..n], x);
      CountSnoc(s[..n], s[n], Some(x));
      assert s == s[..n] + [s[n]];
      if s[n].Some? {
        CountSnoc(Somes(s[..n]), s[n].value, x);
      } else {
        assert Somes(s) == Somes(s[..n]) + [];
      }
    }
  }

  lemma CountSnoc<T>(s: seq<T>, y: T, x: T)
    ensures multiset(s + [y])[x] == multiset(s)[x] + if x == y then 1 else 0
  {
  }

  lemma SameCounts<T>(a: seq<T>, b: seq<T>)
    requires forall x :: multiset(a)[x] == multiset(b)[x]
    ensures multiset(a) == multiset(b)
  {
  }

  lemma SomesPermutation<T>(a: seq<Option<T>>, b: seq<Option<T>>)
    requires multiset(a) == multiset(b)
    ensures multiset(Somes(a)) == multiset(Somes(b))
  {
    forall x ensures multiset(Somes(a))[x] == multiset(Somes(b))[x] {
      SomesCount(a, x);
      SomesCount(b, x);
    }
    SameCounts(Somes(a), Somes(b));
  }

  lemma {:induction false} DistinctCount<T>(s: seq<T>, x: T)
    requires Distinct(s)
    ensures multiset(s)[x] == if x in s then 1 else 0
  {
    if s == [] {
    } else {
      var n := |s| - 1;
      DistinctCount(s[..n], x);
      assert s == s[..n] + [s[n]];
    }
  }

  lemma SameElements<T>(a: seq<T>, b: seq<T>)
    requires Distinct(a) && Distinct(b)
    requires forall x :: x in a <==> x in b
    ensures multiset(a) == multiset(b)
  {
    forall x ensures multiset(a)[x] == multiset(b)[x] {
      DistinctCount(a, x);
      DistinctCount(b, x);
    }
  }

  ghost predicate IsOrder(order: seq<nat>, n: nat) {
    Distinct(order) && forall i: nat :: i in order <==> i < n
  }

  lemma UpToIsOrder(n: nat)
    ensures IsOrder(UpTo(n), n)
  {
    forall i: nat ensures i in UpTo(n) <==> i < n {
      if i < n {
        assert UpTo(n)[i] == i;
      }
    }
  }

  lemma OrderPermutes(order: seq<nat>, n: nat)
    requires IsOrder(order, n)
    ensures multiset(order) == multiset(UpTo(n))
  {
    UpToIsOrder(n);
    SameElements(order, UpTo(n));
  }

  lemma PickedPermutes(resources: seq<ResourceMetrics>, stamps: seq<int>, order: seq<nat>)
    requires |stamps| == |resources| && IsOrder(order, |resources|)
    ensures multiset(Picked(resources, stamps, order)) == multiset(Observations(resources, stamps))
  {
    var f := Picker(resources, stamps);
    OrderPermutes(order, |resources|);
    MapPermutation(f, order, UpTo(|resources|));
    SomesPermutation(Map(f, order), Map(f, UpTo(|resources|)));
  }

  lemma PickedSnoc(resources: seq<ResourceMetrics>, stamps: seq<int>, order: seq<nat>, i: nat)
    requires |stamps| == |resources| && i < |resources|
    ensures Picked(resources, stamps, order + [i]) == Picked(resources, stamps, order)
      + Single(Extract(resources[i], stamps[i]))
  {
    var f := Picker(resources, stamps);
    MapConcat(f, order, [i]);
    assert Map(f, order + [i])[..|order|] == Map(f, order);
  }

  lemma {:induction false} PickedFrom(resources: seq<ResourceMetrics>, stamps: seq<int>, order: seq<nat>,
                                      o: Observation)
    returns (i: nat)
    requires |stamps| == |resources| && o in Picked(resources, stamps, order)
    ensures i < |resources| && Extract(resources[i], stamps[i]) == Some(o)
  {
    var n := |order| - 1;
    assert order == order[..n] + [order[n]];
    if order[n] < |resources| {
      PickedSnoc(resources, stamps, order[..n], order[n]);
    } else {
      var f := Picker(resources, stamps);
      assert Map(f, order)[..n] == Map(f, order[..n]);
    }
    if o in Picked(resources, stamps, order[..n]) {
      i := PickedFrom(resources, stamps, order[..n], o);
    } else {
      i := order[n];
    }
  }

  /** Different resources with a process identifier belong to different processes. */
  ghost predicate DistinctProcesses(resources: seq<ResourceMetrics>) {
    forall i, j :: 0 <= i < j < |resources| ==> resources[i].pid == "" || resources[i].pid != resources[j].pid
  }

  /** Then no two observations of one process differ, since no process has two. */
  lemma DistinctIsConsistent(resources: seq<ResourceMetrics>, stamps: seq<int>)
    requires |stamps| == |resources| && DistinctProcesses(resources)
    ensures Consistent(Observations(resources, stamps))
  {
    var all := Observations(resources, stamps);
    forall a, b | a in all && b in all && a.pid == b.pid ensures a == b {
      var i := PickedFrom(resources, stamps, UpTo(|resources|), a);
      var j := PickedFrom(resources, stamps, UpTo(|resources|), b);
      assert i == j;
    }
  }

  /** The table after the observations are applied in the order of these resource numbers. */
  function Collected(table: Table, resources: seq<ResourceMetrics>, stamps: seq<int>, order: seq<nat>,
                     limits: Thresholds): Table
    requires |stamps| == |resources|
  {
    ApplyAll(table, Picked(resources, stamps, order), limits)
  }

  /** The table of the one-pass reading. */
  function InOrder(table: Table, resources: seq<ResourceMetrics>, stamps: seq<int>, limits: Thresholds): Table
    requires |stamps| == |resources|
  {
    Collected(table, resources, stamps, UpTo(|resources|), limits)
  }

  lemma {:induction false} PickedHas(resources: seq<ResourceMetrics>, stamps: seq<int>, order: seq<nat>, i: nat)
    requires |stamps| == |resources| && i in order && i < |resources| && Extract(resources[i], stamps[i]).Some?
    ensures Extract(resources[i], stamps[i]).value in Picked(resources, stamps, order)
  {
    var n := |order| - 1;
    var f := Picker(resources, stamps);
    assert order == order[..n] + [order[n]] && Map(f, order)[..n] == Map(f, order[..n]);
    if order[n] == i {
    } else {
      PickedHas(resources, stamps, order[..n], i);
    }
  }

  /** After a batch of different processes, whatever the order of the messages, the table holds
      for each process that has a reading what its resource says: its name, the last value of
      each kind of gauge, when it was applied, and when it was last at or above a threshold. */
  lemma EntryAfterBatch(table: Table, resources: seq<ResourceMetrics>, stamps: seq<int>, order: seq<nat>,
                        limits: Thresholds, i: nat)
    requires |stamps| == |resources| && DistinctProcesses(resources) && IsOrder(order, |resources|)
    requires i < |resources| && HasReading(resources[i])
    ensures var r, after := resources[i], Collected(table, resources, stamps, order, limits);
      && r.pid in after
      && after[r.pid].name == r.name && after[r.pid].lastUpdated == stamps[i]
      && ValueIs(r.metrics, "process.cpu.utilization", after[r.pid].cpuUsage)
      && ValueIs(r.metrics, "process.memory.utilization", after[r.pid].memoryUsage)
      && after[r.pid].lastAboveThreshold
         == if after[r.pid].cpuUsage >= limits.cpu || after[r.pid].memoryUsage >= limits.memory then stamps[i]
            else if r.pid in table then table[r.pid].lastAboveThreshold else 0
  {
    ExtractIs(resources[i], stamps[i]);
    var o := Extract(resources[i], stamps[i]).value;
    PickedHas(resources, stamps, order, i);
    PickedPermutes(resources, stamps, order);
    DistinctIsConsistent(resources, stamps);
    SameMembers(Picked(resources, stamps, order), Observations(resources, stamps));
    ObservedAlike(table, Picked(resources, stamps, order), limits, o);
  }

  /** A process that no resource of the batch is about keeps its entry, or its absence. */
  lemma OthersAfterBatch(table: Table, resources: seq<ResourceMetrics>, stamps: seq<int>, order: seq<nat>,
                         limits: Thresholds, pid: string)
    requires |stamps| == |resources| && forall r :: r in resources ==> r.pid != pid
    ensures var after := Collected(table, resources, stamps, order, limits);
      (pid in after <==> pid in table) && (pid in after ==> after[pid] == table[pid])
  {
    forall o | o in Picked(resources, stamps, order) ensures o.pid != pid {
      var i := PickedFrom(resources, stamps, order, o);
      assert resources[i] in resources;
    }
    UnobservedKept(table, Picked(resources, stamps, order), limits, pid);
  }

  ghost predicate AnyOrderSame(table: Table, resources: seq<ResourceMetrics>, stamps: seq<int>, limits: Thresholds)
    requires |stamps| == |resources|
  {
    forall order :: IsOrder(order, |resources|) ==>
      Collected(table, resources, stamps, order, limits) == InOrder(table, resources, stamps, limits)
  }

  /** Whatever order the collector sees the workers' messages in, the table ends the same: this
      holds if and only if no two resources say different things about one process. */
  lemma AnyOrderSameTableIff(table: Table, resources: seq<ResourceMetrics>, stamps: seq<int>, limits: Thresholds)
    requires |stamps| == |resources|
    ensures AnyOrderSame(table, resources, stamps, limits) <==> Consistent(Observations(resources, stamps))
  {
    var all := Observations(resources, stamps);
    if Consistent(all) {
      forall order | IsOrder(order, |resources|)
        ensures Collected(table, resources, stamps, order, limits) == InOrder(table, resources, stamps, limits)
      {
        PickedPermutes(resources, stamps, order);
        OrderDoesNotMatter(table, all, Picked(resources, stamps, order), limits);
      }
    } else {
      var a, b :| a in all && b in all && a.pid == b.pid && a != b;
      var x, before := OrderEndingWith(resources, stamps, a);
      var y, before' := OrderEndingWith(resources, stamps, b);
      ApplyAllSnoc(table, before, a, limits);
      ApplyAllSnoc(table, before', b, limits);
      LastDecides(ApplyAll(table, before, limits), ApplyAll(table, before', limits), a, b, limits);
    }
  }

  /** An order in which the given observation is applied last. */
  lemma OrderEndingWith(resources: seq<ResourceMetrics>, stamps: seq<int>, o: Observation)
    returns (order: seq<nat>, before: seq<Observation>)
    requires |stamps| == |resources| && o in Observations(resources, stamps)
    ensures IsOrder(order, |resources|) && Picked(resources, stamps, order) == before + [o]
  {
    var n := |resources|;
    var i := PickedFrom(resources, stamps, UpTo(n), o);
    var rest := UpTo(n)[..i] + UpTo(n)[i + 1..];
    order := rest + [i];
    before := Picked(resources, stamps, rest);
    PickedSnoc(resources, stamps, rest, i);
    EndingIsOrder(n, i);
  }

  lemma EndingIsOrder(n: nat, i: nat)
    requires i < n
    ensures IsOrder(UpTo(n)[..i] + UpTo(n)[i + 1..] + [i], n)
  {
    var order := UpTo(n)[..i] + UpTo(n)[i + 1..] + [i];
    assert |order| == n;
    assert forall p :: 0 <= p < n ==> order[p] == if p < i then p else if p < n - 1 then p + 1 else i;
    forall p: nat ensures p in order <==> p < n {
      if p < n {
        var at := if p < i then p else if p == i then n - 1 else p - 1;
        assert order[at] == p;
      }
    }
  }

  // ----- the pool -----

  /** Where a worker is: not started, holding a slot before or after its work, or finished. */
  datatype Stage = Waiting | Holding | Worked | Finished {
    predicate HasSlot() {
      Holding? || Worked?
    }

    predicate HasWorked() {
      Worked? || Finished?
    }

    function StepsLeft(): nat {
      match this
      case Waiting => 3
      case Holding => 2
      case Worked => 1
      case Finished => 0
    }
  }

  function Slots(pool: seq<Stage>): nat {
    if pool == [] then 0 else Slots(pool[..|pool| - 1]) + if pool[|pool| - 1].HasSlot() then 1 else 0
  }

  function Work(pool: seq<Stage>): nat {
    if pool == [] then 0 else Work(pool[..|pool| - 1]) + if pool[|pool| - 1].HasWorked() then 1 else 0
  }

  function StepsLeft(pool: seq<Stage>): nat {
    if pool == [] then 0 else StepsLeft(pool[..|pool| - 1]) + pool[|pool| - 1].StepsLeft()
  }

  /** One worker moves to its next stage: the sums change by its share. */
  lemma {:induction false} Moved(pool: seq<Stage>, w: nat, stage: Stage)
    requires w < |pool|
    ensures Slots(pool[w := stage]) + (if pool[w].HasSlot() then 1 else 0)
         == Slots(pool) + if stage.HasSlot() then 1 else 0
    ensures Work(pool[w := stage]) + (if pool[w].HasWorked() then 1 else 0)
         == Work(pool) + if stage.HasWorked() then 1 else 0
    ensures StepsLeft(pool[w := stage]) + pool[w].StepsLeft() == StepsLeft(pool) + stage.StepsLeft()
  {
    var n := |pool| - 1;
    if w == n {
      assert pool[w := stage][..n] == pool[..n];
    } else {
      Moved(pool[..n], w, stage);
      assert pool[w := stage][..n] == pool[..n][w := stage];
    }
  }

  lemma {:induction false} SomeSlot(pool: seq<Stage>) returns (w: nat)
    requires Slots(pool) > 0
    ensures w < |pool| && pool[w].HasSlot()
  {
    var n := |pool| - 1;
    if pool[n].HasSlot() {
      w := n;
    } else {
      w := SomeSlot(pool[..n]);
    }
  }

  lemma {:induction false} WorkBound(pool: seq<Stage>)
    ensures Work(pool) <= |pool|
    ensures Work(pool) == |pool| <==> forall w :: 0 <= w < |pool| ==> pool[w].HasWorked()
  {
    if pool == [] {
    } else {
      WorkBound(pool[..|pool| - 1]);
    }
  }

  lemma {:induction false} AtTheStart(n: nat)
    ensures Slots(seq(n, i => Waiting)) == 0 && Work(seq(n, i => Waiting)) == 0
  {
    if n == 0 {
    } else {
      AtTheStart(n - 1);
      assert seq(n, i => Waiting)[..n - 1] == seq(n - 1, i => Waiting);
    }
  }

  predicate AllFinished(pool: seq<Stage>) {
    forall w :: 0 <= w < |pool| ==> pool[w].Finished?
  }

  /** The workers that have done their work are exactly those listed, each once. */
  ghost predicate Reported(pool: seq<Stage>, all: seq<nat>) {
    && Distinct(all)
    && (forall w :: w in all ==> w < |pool| && pool[w].HasWorked())
    && (forall w: nat :: w < |pool| && pool[w].HasWorked() ==> w in all)
    && |all| == Work(pool)
  }

  lemma Begins(pool: seq<Stage>, w: nat, all: seq<nat>)
    requires w < |pool| && pool[w].Waiting? && Reported(pool, all)
    ensures Reported(pool[w := Holding], all)
  {
    Moved(pool, w, Holding);
  }

  lemma Works(pool: seq<Stage>, w: nat, all: seq<nat>)
    requires w < |pool| && pool[w].Holding? && Reported(pool, all)
    ensures Reported(pool[w := Worked], all + [w]) && |all| < |pool|
  {
    Moved(pool, w, Worked);
    WorkBound(pool);
  }

  lemma Finishes(pool: seq<Stage>, w: nat, all: seq<nat>)
    requires w < |pool| && pool[w].Worked? && Reported(pool, all)
    ensures Reported(pool[w := Finished], all)
  {
    Moved(pool, w, Finished);
  }

  lemma AllReported(pool: seq<Stage>, all: seq<nat>)
    requires AllFinished(pool) && Reported(pool, all)
    ensures IsOrder(all, |pool|)
  {
    forall i: nat ensures i in all <==> i < |pool| {
      if i < |pool| {
        assert pool[i].HasWorked();
      }
    }
  }

  predicate CanStart(pool: seq<Stage>, w: nat, maxWorkers: nat) {
    w < |pool| && pool[w].Waiting? && Slots(pool) < maxWorkers
  }

  /** Freedom from deadlock: unless all workers have finished, one of them can move. */
  lemma AWorkerCanMove(pool: seq<Stage>, maxWorkers: nat)
    requires maxWorkers >= 1 && !AllFinished(pool)
    ensures exists w: nat :: w < |pool| && (pool[w].HasSlot() || CanStart(pool, w, maxWorkers))
  {
    var w :| 0 <= w < |pool| && !pool[w].Finished?;
    if pool[w].Waiting? && Slots(pool) >= maxWorkers {
      var v := SomeSlot(pool);
    } else {
      assert pool[w].HasSlot() || CanStart(pool, w, maxWorkers);
    }
  }

  // ----- every interleaving of workers and collector -----

  /** The workers' stages, the channel's contents, the messages taken from it so far, and
      whether the channel has been closed.  The channel has one place per worker. */
  datatype Pool = Pool(stages: seq<Stage>, queue: seq<nat>, taken: seq<nat>, closed: bool)

  predicate Starts(a: Pool, b: Pool, w: nat, maxWorkers: nat) {
    CanStart(a.stages, w, maxWorkers) && b == a.(stages := a.stages[w := Holding])
  }

  predicate Sends(a: Pool, b: Pool, w: nat) {
    && w < |a.stages| && a.stages[w].Holding? && |a.queue| < |a.stages|
    && b == a.(stages := a.stages[w := Worked], queue := a.queue + [w])
  }

  predicate Releases(a: Pool, b: Pool, w: nat) {
    w < |a.stages| && a.stages[w].Worked? && b == a.(stages := a.stages[w := Finished])
  }

  predicate Closes(a: Pool, b: Pool) {
    !a.closed && AllFinished(a.stages) && b == a.(closed := true)
  }

  predicate Takes(a: Pool, b: Pool) {
    a.queue != [] && b == a.(queue := a.queue[1..], taken := a.taken + [a.queue[0]])
  }

  ghost predicate Next(a: Pool, b: Pool, maxWorkers: nat) {
    || (exists w :: Starts(a, b, w, maxWorkers))
    || (exists w :: Sends(a, b, w))
    || (exists w :: Releases(a, b, w))
    || Closes(a, b)
    || Takes(a, b)
  }

  ghost predicate IsRun(run: seq<Pool>, n: nat, maxWorkers: nat) {
    && run != [] && run[0] == Pool(seq(n, i => Waiting), [], [], false)
    && forall i :: 0 <= i < |run| - 1 ==> Next(run[i], run[i + 1], maxWorkers)
  }

  /** What holds in every reachable state: the semaphore's bound, a channel within its size,
      and no worker's message lost or doubled. */
  ghost predicate PoolInv(p: Pool, n: nat, maxWorkers: nat) {
    && |p.stages| == n && Slots(p.stages) <= maxWorkers && |p.queue| <= n
    && Reported(p.stages, p.taken + p.queue)
    && (p.closed ==> AllFinished(p.stages))
  }

  lemma StepKeepsInv(a: Pool, b: Pool, n: nat, maxWorkers: nat)
    requires PoolInv(a, n, maxWorkers) && Next(a, b, maxWorkers)
    ensures PoolInv(b, n, maxWorkers)
  {
    if w :| Starts(a, b, w, maxWorkers) {
      Moved(a.stages, w, Holding);
      Begins(a.stages, w, a.taken + a.queue);
    } else if w :| Sends(a, b, w) {
      Moved(a.stages, w, Worked);
      Works(a.stages, w, a.taken + a.queue);
      QueueEnd(a.taken, a.queue, w);
    } else if w :| Releases(a, b, w) {
      Moved(a.stages, w, Finished);
      Finishes(a.stages, w, a.taken + a.queue);
    } else if Takes(a, b) {
      QueueFront(a.taken, a.queue);
    }
  }

  /** Over every interleaving: never more than maxWorkers hold a slot, the channel never holds
      more than its size, and the messages sent are exactly those of the workers that have
      worked, each once. */
  lemma {:induction false} PoolAlways(run: seq<Pool>, n: nat, maxWorkers: nat)
    requires IsRun(run, n, maxWorkers)
    ensures PoolInv(run[|run| - 1], n, maxWorkers)
  {
    var m := |run| - 1;
    if m == 0 {
      AtTheStart(n);
    } else {
      assert IsRun(run[..m], n, maxWorkers);
      PoolAlways(run[..m], n, maxWorkers);
      StepKeepsInv(run[m - 1], run[m], n, maxWorkers);
    }
  }

  /** No send ever finds the channel full: a worker about to send can. */
  lemma SendNeverBlocks(p: Pool, n: nat, maxWorkers: nat, w: nat)
    requires PoolInv(p, n, maxWorkers) && w < n && p.stages[w].Holding?
    ensures Sends(p, p.(stages := p.stages[w := Worked], queue := p.queue + [w]), w)
  {
    Works(p.stages, w, p.taken + p.queue);
  }

  /** Until the collector has seen the channel closed and empty, some step is possible. */
  lemma NeverStuck(p: Pool, n: nat, maxWorkers: nat) returns (q: Pool)
    requires PoolInv(p, n, maxWorkers) && maxWorkers >= 1 && !(p.closed && p.queue == [])
    ensures Next(p, q, maxWorkers)
  {
    if p.queue != [] {
      q := p.(queue := p.queue[1..], taken := p.taken + [p.queue[0]]);
      assert Takes(p, q);
    } else if AllFinished(p.stages) {
      q := p.(closed := true);
      assert Closes(p, q);
    } else {
      AWorkerCanMove(p.stages, maxWorkers);
      var w: nat :| w < |p.stages| && (p.stages[w].HasSlot() || CanStart(p.stages, w, maxWorkers));
      if p.stages[w].Worked? {
        q := p.(stages := p.stages[w := Finished]);
        assert Releases(p, q, w);
      } else if p.stages[w].Holding? {
        q := p.(stages := p.stages[w := Worked], queue := p.queue + [w]);
        SendNeverBlocks(p, n, maxWorkers, w);
      } else {
        q := p.(stages := p.stages[w := Holding]);
        assert Starts(p, q, w, maxWorkers);
      }
    }
  }

  /** An upper bound on the steps still to come. */
  function Measure(p: Pool): nat {
    2 * StepsLeft(p.stages) + |p.queue| + if p.closed then 0 else 1
  }

  lemma StepsRunOut(a: Pool, b: Pool, maxWorkers: nat)
    requires Next(a, b, maxWorkers)
    ensures Measure(b) < Measure(a)
  {
    if w :| Starts(a, b, w, maxWorkers) {
      Moved(a.stages, w, Holding);
    } else if w :| Sends(a, b, w) {
      Moved(a.stages, w, Worked);
    } else if w :| Releases(a, b, w) {
      Moved(a.stages, w, Finished);
    }
  }

  lemma {:induction false} StepsAtStart(n: nat)
    ensures StepsLeft(seq(n, i => Waiting)) == 3 * n
  {
    if n == 0 {
    } else {
      StepsAtStart(n - 1);
      assert seq(n, i => Waiting)[..n - 1] == seq(n - 1, i => Waiting);
    }
  }

  /** Every run ends: it has at most 6n + 1 steps. */
  lemma {:induction false} RunsEnd(run: seq<Pool>, n: nat, maxWorkers: nat)
    requires IsRun(run, n, maxWorkers)
    ensures |run| - 1 + Measure(run[|run| - 1]) <= 6 * n + 1
  {
    var m := |run| - 1;
    if m == 0 {
      StepsAtStart(n);
    } else {
      assert IsRun(run[..m], n, maxWorkers);
      RunsEnd(run[..m], n, maxWorkers);
      StepsRunOut(run[m - 1], run[m], maxWorkers);
    }
  }

  ghost predicate Done(p: Pool) {
    p.closed && p.queue == []
  }

  /** When the collector is done it has taken the message of every worker, each once. */
  lemma TakenIsOrder(p: Pool, n: nat, maxWorkers: nat)
    requires PoolInv(p, n, maxWorkers) && Done(p)
    ensures IsOrder(p.taken, n)
  {
    assert p.taken + [] == p.taken;
    AllReported(p.stages, p.taken);
  }

  /** The stages when the workers with these numbers have finished and the others wait. */
  function StagesAfter(order: seq<nat>, n: nat): (stages: seq<Stage>)
    ensures |stages| == n
    ensures forall w :: 0 <= w < n ==> stages[w] == if w in order then Finished else Waiting
  {
    seq(n, w => if w in order then Finished else Waiting)
  }

  lemma {:induction false} NoSlots(pool: seq<Stage>)
    requires forall w :: 0 <= w < |pool| ==> !pool[w].HasSlot()
    ensures Slots(pool) == 0
  {
    if pool == [] {
    } else {
      NoSlots(pool[..|pool| - 1]);
    }
  }

  /** Next steps appended to a run make a longer run. */
  lemma RunSnoc(run: seq<Pool>, q: Pool, n: nat, maxWorkers: nat)
    requires IsRun(run, n, maxWorkers) && Next(run[|run| - 1], q, maxWorkers)
    ensures IsRun(run + [q], n, maxWorkers)
  {
  }

  /** One worker starts, sends and releases, and the collector takes its message. */
  lemma OneWorker(run: seq<Pool>, order: seq<nat>, w: nat, n: nat, maxWorkers: nat) returns (longer: seq<Pool>)
    requires maxWorkers >= 1 && w < n && w !in order && IsRun(run, n, maxWorkers)
    requires run[|run| - 1] == Pool(StagesAfter(order, n), [], order, false)
    ensures IsRun(longer, n, maxWorkers)
    ensures longer[|longer| - 1] == Pool(StagesAfter(order + [w], n), [], order + [w], false)
  {
    var stages := StagesAfter(order, n);
    NoSlots(stages);
    var a := run[|run| - 1];
    var b := a.(stages := stages[w := Holding]);
    var c := b.(stages := b.stages[w := Worked], queue := b.queue + [w]);
    var d := c.(stages := c.stages[w := Finished]);
    var e := d.(queue := d.queue[1..], taken := d.taken + [d.queue[0]]);
    assert Starts(a, b, w, maxWorkers) && Sends(b, c, w) && Releases(c, d, w) && Takes(d, e);
    RunSnoc(run, b, n, maxWorkers);
    RunSnoc(run + [b], c, n, maxWorkers);
    RunSnoc(run + [b] + [c], d, n, maxWorkers);
    RunSnoc(run + [b] + [c] + [d], e, n, maxWorkers);
    longer := run + [b] + [c] + [d] + [e];
    assert e.stages == StagesAfter(order + [w], n);
  }

  /** Any order of different workers is the order of some run. */
  lemma {:induction false} RunInOrder(order: seq<nat>, n: nat, maxWorkers: nat) returns (run: seq<Pool>)
    requires maxWorkers >= 1 && Distinct(order) && forall w :: w in order ==> w < n
    ensures IsRun(run, n, maxWorkers)
    ensures run[|run| - 1] == Pool(StagesAfter(order, n), [], order, false)
  {
    if order == [] {
      run := [Pool(seq(n, i => Waiting), [], [], false)];
      assert StagesAfter([], n) == seq(n, i => Waiting);
    } else {
      var m := |order| - 1;
      assert order == order[..m] + [order[m]] && order[m] in order;
      assert forall w :: w in order[..m] ==> w in order;
      var shorter := RunInOrder(order[..m], n, maxWorkers);
      run := OneWorker(shorter, order[..m], order[m], n, maxWorkers);
    }
  }

  lemma DoneInOrder(order: seq<nat>, n: nat, maxWorkers: nat) returns (run: seq<Pool>)
    requires maxWorkers >= 1 && IsOrder(order, n)
    ensures IsRun(run, n, maxWorkers) && Done(run[|run| - 1]) && run[|run| - 1].taken == order
  {
    var open := RunInOrder(order, n, maxWorkers);
    var a := open[|open| - 1];
    var b := a.(closed := true);
    assert Closes(a, b);
    RunSnoc(open, b, n, maxWorkers);
    run := open + [b];
  }

  /** The table does not depend on the interleaving. */
  ghost predicate AnyRunSame(table: Table, resources: seq<ResourceMetrics>, stamps: seq<int>, limits: Thresholds,
                             maxWorkers: nat)
    requires |stamps| == |resources|
  {
    forall run: seq<Pool> :: IsRun(run, |resources|, maxWorkers) && Done(run[|run| - 1]) ==>
      Collected(table, resources, stamps, run[|run| - 1].taken, limits) == InOrder(table, resources, stamps, limits)
  }

  /** Every finished run, whatever its interleaving, leaves the table of the one-pass reading
      if and only if no two resources say different things about one process. */
  lemma AnyRunSameTableIff(table: Table, resources: seq<ResourceMetrics>, stamps: seq<int>, limits: Thresholds,
                           maxWorkers: nat)
    requires |stamps| == |resources| && maxWorkers >= 1
    ensures AnyRunSame(table, resources, stamps, limits, maxWorkers) <==> Consistent(Observations(resources, stamps))
  {
    var n := |resources|;
    AnyOrderSameTableIff(table, resources, stamps, limits);
    if AnyOrderSame(table, resources, stamps, limits) {
      forall run: seq<Pool> | IsRun(run, n, maxWorkers) && Done(run[|run| - 1])
        ensures Collected(table, resources, stamps, run[|run| - 1].taken, limits)
             == InOrder(table, resources, stamps, limits)
      {
        PoolAlways(run, n, maxWorkers);
        TakenIsOrder(run[|run| - 1], n, maxWorkers);
      }
    } else {
      var order :| IsOrder(order, n)
        && Collected(table, resources, stamps, order, limits) != InOrder(table, resources, stamps, limits);
      var run := DoneInOrder(order, n, maxWorkers);
    }
  }

  /** Any step that is possible: some worker starts, sends or releases its slot, the channel
      is closed, or the collector takes a message. */
  method AnyStep(p: Pool, n: nat, maxWorkers: nat) returns (q: Pool)
    requires PoolInv(p, n, maxWorkers) && maxWorkers >= 1 && !(p.closed && p.queue == [])
    ensures Next(p, q, maxWorkers)
    ensures q.taken == p.taken || (Takes(p, q) && p.queue[0] < n)
  {
    if !AllFinished(p.stages) {
      AWorkerCanMove(p.stages, maxWorkers);
    }
    if {
      case exists w: nat :: w < n && CanStart(p.stages, w, maxWorkers) =>
        var w: nat :| w < n && CanStart(p.stages, w, maxWorkers);
        q := p.(stages := p.stages[w := Holding]);
        assert Starts(p, q, w, maxWorkers);
      case exists w: nat :: w < n && p.stages[w].Holding? =>
        var w: nat :| w < n && p.stages[w].Holding?;
        q := p.(stages := p.stages[w := Worked], queue := p.queue + [w]);
        SendNeverBlocks(p, n, maxWorkers, w);
      case exists w: nat :: w < n && p.stages[w].Worked? =>
        var w: nat :| w < n && p.stages[w].Worked?;
        q := p.(stages := p.stages[w := Finished]);
        assert Releases(p, q, w);
      case !p.closed && AllFinished(p.stages) =>
        q := p.(closed := true);
      case p.queue != [] =>
        q := p.(queue := p.queue[1..], taken := p.taken + [p.queue[0]]);
        QueueFront(p.taken, p.queue);
    }
  }

  /** Collects the observations of a batch with a pool of workers, letting any possible step
      come next.  The pool finishes and every observation has been applied once, in some order;
      unless two resources say different things about one process, the table ends as if the
      resources had been read one after the other. */
  method CollectUpdates(tp: TopNProcessor, resources: seq<ResourceMetrics>, stamps: seq<int>, maxWorkers: nat)
    returns (changed: bool, ghost order: seq<nat>)
    requires |stamps| == |resources| && maxWorkers >= 1
    modifies tp`processes
    ensures IsOrder(order, |resources|)
    ensures tp.processes == Collected(old(tp.processes), resources, stamps, order, tp.limits)
    ensures Consistent(Observations(resources, stamps)) ==>
      tp.processes == InOrder(old(tp.processes), resources, stamps, tp.limits)
    ensures changed <==> Observations(resources, stamps) != []
  {
    var n := |resources|;
    ghost var table := tp.processes;
    AtTheStart(n);
    var p := Pool(seq(n, i => Waiting), [], [], false);
    changed := false;
    while !(p.closed && p.queue == [])
      invariant PoolInv(p, n, maxWorkers)
      invariant tp.processes == Collected(table, resources, stamps, p.taken, tp.limits)
      invariant changed <==> Picked(resources, stamps, p.taken) != []
      decreases Measure(p)
    {
      var q := AnyStep(p, n, maxWorkers);
      StepKeepsInv(p, q, n, maxWorkers);
      StepsRunOut(p, q, maxWorkers);
      if |q.taken| > |p.taken| {
        var applied := ApplyUpdate(tp, resources, stamps, p.queue[0], p.taken, table);
        changed := changed || applied;
      }
      p := q;
    }
    order := p.taken;
    TakenIsOrder(p, n, maxWorkers);
    AnyOrderSameTableIff(table, resources, stamps, tp.limits);
    PickedPermutes(resources, stamps, order);
    SameSize(Picked(resources, stamps, order), Observations(resources, stamps));
  }

  lemma QueueEnd(taken: seq<nat>, queue: seq<nat>, w: nat)
    ensures (taken + queue) + [w] == taken + (queue + [w])
  {
  }

  lemma QueueFront(taken: seq<nat>, queue: seq<nat>)
    requires queue != []
    ensures taken + queue == (taken + [queue[0]]) + queue[1..] && queue[0] in taken + queue
  {
    assert (taken + queue)[|taken|] == queue[0];
  }

  /** The collector applies one message. */
  method ApplyUpdate(tp: TopNProcessor, resources: seq<ResourceMetrics>, stamps: seq<int>, i: nat,
                     ghost taken: seq<nat>, ghost table: Table) returns (applied: bool)
    requires |stamps| == |resources| && i < |resources|
    requires tp.processes == Collected(table, resources, stamps, taken, tp.limits)
    modifies tp`processes
    ensures tp.processes == Collected(table, resources, stamps, taken + [i], tp.limits)
    ensures Picked(resources, stamps, taken + [i]) == [] <==> Picked(resources, stamps, taken) == [] && !applied
  {
    PickedSnoc(resources, stamps, taken, i);
    var update := ExtractUpdate(resources[i], stamps[i]);
    applied := update.Some?;
    assert Picked(resources, stamps, taken) + [] == Picked(resources, stamps, taken);
    if update.Some? {
      ApplyAllSnoc(table, Picked(resources, stamps, taken), update.value, tp.limits);
      tp.processes := Apply(tp.processes, update.value, tp.limits);
    }
  }

  lemma SameSize<T>(a: seq<T>, b: seq<T>)
    requires multiset(a) == multiset(b)
    ensures |a| == |b|
  {
    assert |a| == |multiset(a)| && |b| == |multiset(b)|;
  }

  // ----- the second pool -----

  lemma {:induction false} KeptCount(resources: seq<ResourceMetrics>, pids: set<string>, x: ResourceMetrics)
    ensures multiset(Kept(resources, pids))[x] == if Keeps(x, pids) then multiset(resources)[x] else 0
  {
    if resources == [] {
    } else {
      var n := |resources| - 1;
      KeptCount(resources[..n], pids, x);
      assert resources == resources[..n] + [resources[n]];
    }
  }

  function At(resources: seq<ResourceMetrics>, order: seq<nat>): seq<ResourceMetrics>
    requires forall i :: i in order ==> i < |resources|
  {
    Map((i: nat) => if i < |resources| then resources[i] else ResourceMetrics("", "", []), order)
  }

  lemma KeptInAnyOrder(resources: seq<ResourceMetrics>, order: seq<nat>, pids: set<string>)
    requires IsOrder(order, |resources|)
    ensures multiset(Kept(At(resources, order), pids)) == multiset(Kept(resources, pids))
  {
    var f := (i: nat) => if i < |resources| then resources[i] else ResourceMetrics("", "", []);
    OrderPermutes(order, |resources|);
    MapPermutation(f, order, UpTo(|resources|));
    assert Map(f, UpTo(|resources|)) == resources;
    forall x ensures multiset(Kept(At(resources, order), pids))[x] == multiset(Kept(resources, pids))[x] {
      KeptCount(At(resources, order), pids, x);
      KeptCount(resources, pids, x);
    }
  }

  /** The workers of the second pool: none works without a slot, and those that have worked
      are listed. */
  ghost predicate Working(pool: seq<Stage>, order: seq<nat>, n: nat, maxWorkers: nat) {
    |pool| == n && Slots(pool) <= maxWorkers && Reported(pool, order) && forall w :: w in order ==> w < n
  }

  lemma StartKeepsWorking(pool: seq<Stage>, w: nat, order: seq<nat>, n: nat, maxWorkers: nat)
    requires Working(pool, order, n, maxWorkers) && CanStart(pool, w, maxWorkers)
    ensures Working(pool[w := Holding], order, n, maxWorkers) && StepsLeft(pool[w := Holding]) < StepsLeft(pool)
  {
    Moved(pool, w, Holding);
    Begins(pool, w, order);
  }

  lemma WorkKeepsWorking(pool: seq<Stage>, w: nat, order: seq<nat>, n: nat, maxWorkers: nat)
    requires Working(pool, order, n, maxWorkers) && w < n && pool[w].Holding?
    ensures Working(pool[w := Worked], order + [w], n, maxWorkers) && StepsLeft(pool[w := Worked]) < StepsLeft(pool)
  {
    Moved(pool, w, Worked);
    Works(pool, w, order);
  }

  lemma FinishKeepsWorking(pool: seq<Stage>, w: nat, order: seq<nat>, n: nat, maxWorkers: nat)
    requires Working(pool, order, n, maxWorkers) && w < n && pool[w].Worked?
    ensures Working(pool[w := Finished], order, n, maxWorkers) && StepsLeft(pool[w := Finished]) < StepsLeft(pool)
  {
    Moved(pool, w, Finished);
    Finishes(pool, w, order);
  }

  method IsKept(tp: TopNProcessor, r: ResourceMetrics) returns (keep: bool)
    requires tp.Valid()
    ensures keep == Keeps(r, tp.topNPIDCache)
  {
    if r.pid == "" {
      return true;
    }
    keep := tp.IsInTopN(r.pid);
  }

  /** One worker keeps or drops its resource. */
  method FilterOne(tp: TopNProcessor, resources: seq<ResourceMetrics>, w: nat,
                   output: seq<ResourceMetrics>, filtered: nat, ghost order: seq<nat>)
    returns (newOutput: seq<ResourceMetrics>, newFiltered: nat)
    requires tp.Valid() && w < |resources| && forall i :: i in order ==> i < |resources|
    requires output == Kept(At(resources, order), tp.topNPIDCache)
    ensures (forall i :: i in order + [w] ==> i < |resources|)
      && newOutput == Kept(At(resources, order + [w]), tp.topNPIDCache)
    ensures |newOutput| + newFiltered == |output| + filtered + 1
  {
    DecidedNext(resources, order, w, tp.topNPIDCache);
    newOutput, newFiltered := output, filtered;
    var keep := IsKept(tp, resources[w]);
    if keep {
      newOutput := output + [resources[w]];
    } else {
      newFiltered := filtered + 1;
    }
  }

  /** Keeps or drops every resource with a pool of workers.  For every interleaving the output
      is the plain filter's, as a multiset, and what is kept and what is counted as filtered
      add up to the input. */
  method FilterResources(tp: TopNProcessor, resources: seq<ResourceMetrics>, maxWorkers: nat)
    returns (output: seq<ResourceMetrics>, filtered: nat)
    requires tp.Valid() && maxWorkers >= 1
    ensures multiset(output) == multiset(Kept(resources, tp.topNPIDCache))
    ensures |output| + filtered == |resources|
  {
    var n := |resources|;
    AtTheStart(n);
    var pool := seq(n, i => Waiting);
    ghost var order: seq<nat> := [];
    output, filtered := [], 0;
    while !AllFinished(pool)
      invariant Working(pool, order, n, maxWorkers)
      invariant output == Kept(At(resources, order), tp.topNPIDCache)
      invariant |output| + filtered == |order|
      decreases StepsLeft(pool)
    {
      AWorkerCanMove(pool, maxWorkers);
      if {
        case exists w: nat :: w < n && CanStart(pool, w, maxWorkers) =>
          var w: nat :| w < n && CanStart(pool, w, maxWorkers);
          StartKeepsWorking(pool, w, order, n, maxWorkers);
          pool := pool[w := Holding];
        case exists w: nat :: w < n && pool[w].Holding? =>
          var w: nat :| w < n && pool[w].Holding?;
          WorkKeepsWorking(pool, w, order, n, maxWorkers);
          output, filtered := FilterOne(tp, resources, w, output, filtered, order);
          order := order + [w];
          pool := pool[w := Worked];
        case exists w: nat :: w < n && pool[w].Worked? =>
          var w: nat :| w < n && pool[w].Worked?;
          FinishKeepsWorking(pool, w, order, n, maxWorkers);
          pool := pool[w := Finished];
      }
    }
    AllReported(pool, order);
    KeptInAnyOrder(resources, order, tp.topNPIDCache);
    OrderPermutes(order, n);
    SameSize(order, UpTo(n));
    SameSize(output, Kept(resources, tp.topNPIDCache));
  }

  lemma DecidedNext(resources: seq<ResourceMetrics>, order: seq<nat>, w: nat, pids: set<string>)
    requires w < |resources| && forall i :: i in order ==> i < |resources|
    ensures Kept(At(resources, order + [w]), pids)
         == Kept(At(resources, order), pids) + if Keeps(resources[w], pids) then [resources[w]] else []
  {
    var f := (i: nat) => if i < |resources| then resources[i] else ResourceMetrics("", "", []);
    MapConcat(f, order, [w]);
    assert At(resources, order + [w])[..|order|] == At(resources, order);
  }

  // ----- the sequential form for small batches -----

  predicate PassesThrough(r: ResourceMetrics) {
    r.pid == "" || r.name == ""
  }

  function PassedThrough(resources: seq<ResourceMetrics>): seq<ResourceMetrics> {
    if resources == [] then []
    else
      var last := resources[|resources| - 1];
      PassedThrough(resources[..|resources| - 1]) + if PassesThrough(last) then [last] else []
  }

  /** The sequential form: resources without an identifier or a name go straight to the output,
      and then every resource is filtered as in the concurrent form. */
  method ProcessMetricsSequential(tp: TopNProcessor, resources: seq<ResourceMetrics>, stamps: seq<int>)
    returns (output: seq<ResourceMetrics>, filtered: nat, ghost mid: State)
    requires tp.Valid() && |stamps| == |resources|
    modifies tp
    ensures tp.Valid() && tp.topNCacheValid && tp.n == old(tp.n)
    ensures Updates(old(tp.AsState()), mid, Observations(resources, stamps), tp.limits) && Queries(mid, tp.AsState())
    ensures output == PassedThrough(resources) + Kept(resources, tp.topNPIDCache)
    ensures |Kept(resources, tp.topNPIDCache)| + filtered == |resources|
  {
    ghost var table := tp.processes;
    var changed;
    output, changed := RecordAndPass(tp, resources, stamps);
    ApplyAllFiled(table, Observations(resources, stamps), tp.limits);
    if changed {
      tp.topNCacheValid := false;
    }
    mid := tp.AsState();
    var selection := tp.GetTopNProcesses();
    var kept;
    kept, filtered := FilterInOrder(tp, resources);
    output := output + kept;
  }

  method RecordAndPass(tp: TopNProcessor, resources: seq<ResourceMetrics>, stamps: seq<int>)
    returns (output: seq<ResourceMetrics>, changed: bool)
    requires |stamps| == |resources|
    modifies tp`processes
    ensures tp.processes == InOrder(old(tp.processes), resources, stamps, tp.limits)
    ensures changed <==> Observations(resources, stamps) != []
    ensures output == PassedThrough(resources)
  {
    output, changed := [], false;
    ghost var table := tp.processes;
    ghost var read := UpTo(0);
    for i := 0 to |resources|
      invariant read == UpTo(i) && output == PassedThrough(resources[..i])
      invariant tp.processes == Collected(table, resources, stamps, read, tp.limits)
      invariant changed <==> Picked(resources, stamps, read) != []
    {
      var r := resources[i];
      assert resources[..i + 1][..i] == resources[..i];
      assert UpTo(i + 1) == read + [i];
      var applied := ApplyUpdate(tp, resources, stamps, i, read, table);
      changed := changed || applied;
      read := read + [i];
      if r.pid == "" || r.name == "" {
        output := output + [r];
      }
    }
    assert resources[..|resources|] == resources;
  }

  method FilterInOrder(tp: TopNProcessor, resources: seq<ResourceMetrics>)
    returns (kept: seq<ResourceMetrics>, filtered: nat)
    requires tp.Valid()
    ensures kept == Kept(resources, tp.topNPIDCache) && |kept| + filtered == |resources|
  {
    kept, filtered := [], 0;
    for i := 0 to |resources|
      invariant kept == Kept(resources[..i], tp.topNPIDCache) && |kept| + filtered == i
    {
      var r := resources[i];
      assert resources[..i + 1][..i] == resources[..i];
      var keep := IsKept(tp, r);
      if keep {
        kept := kept + [r];
      } else {
        filtered := filtered + 1;
      }
    }
    assert resources[..|resources|] == resources;
  }

  /** The two forms give the same resources if and only if every resource has an identifier
      and a name; otherwise the sequential form emits the nameless ones once more. */
  lemma SequentialAgreesIff(resources: seq<ResourceMetrics>, pids: set<string>)
    ensures multiset(PassedThrough(resources) + Kept(resources, pids)) == multiset(Kept(resources, pids))
       <==> forall r :: r in resources ==> r.pid != "" && r.name != ""
  {
    PassedThroughMembers(resources);
    var a, b := PassedThrough(resources), Kept(resources, pids);
    assert |multiset(a + b)| == |a| + |b| && |multiset(b)| == |b|;
    if a == [] {
      assert a + b == b;
    } else {
      assert a[0] in resources && PassesThrough(a[0]);
    }
  }

  function Nameless(): (nat, ResourceMetrics) -> bool {
    (i: nat, r: ResourceMetrics) => r.pid == "" || r.name == ""
  }

  /** What passes straight through are the resources without an identifier or a name, in order. */
  lemma {:induction false} PassedThroughIs(resources: seq<ResourceMetrics>)
    ensures PassedThrough(resources) == Choose(Nameless(), resources)
  {
    if resources == [] {
    } else {
      PassedThroughIs(resources[..|resources| - 1]);
    }
  }

  lemma {:induction false} PassedThroughMembers(resources: seq<ResourceMetrics>)
    ensures forall r :: r in PassedThrough(resources) <==> r in resources && PassesThrough(r)
  {
    if resources == [] {
    } else {
      var n := |resources| - 1;
      PassedThroughMembers(resources[..n]);
      assert resources == resources[..n] + [resources[n]];
    }
  }

  // ----- what the output holds -----

  /** The resources without an identifier and those of processes in the present selection. */
  ghost function OfTheSelection(resources: seq<ResourceMetrics>, a: State): seq<ResourceMetrics> {
    if resources == [] then []
    else
      var last := resources[|resources| - 1];
      OfTheSelection(resources[..|resources| - 1], a)
      + if last.pid == "" || Selected(a, last.pid) then [last] else []
  }

  ghost predicate FiltersTheSelection(a: State) {
    forall resources :: Kept(resources, a.pidCache) == OfTheSelection(resources, a)
  }

  lemma {:induction false} KeptOfTheSelection(resources: seq<ResourceMetrics>, a: State)
    requires forall pid :: pid != "" ==> (pid in a.pidCache <==> Selected(a, pid))
    ensures Kept(resources, a.pidCache) == OfTheSelection(resources, a)
  {
    if resources == [] {
    } else {
      KeptOfTheSelection(resources[..|resources| - 1], a);
    }
  }

  /** With a valid cache the filter keeps of every batch exactly what the selection says if and
      only if the table has more than n processes or the identifier set is that of the whole
      table, the empty identifier aside. */
  lemma FiltersTheSelectionIff(a: State)
    requires Coherent(a) && a.valid
    ensures FiltersTheSelection(a) <==> |a.table| > a.n || a.pidCache - {""} == a.table.Keys - {""}
  {
    SelectedIs(a);
    if |a.table| > a.n || a.pidCache - {""} == a.table.Keys - {""} {
      forall resources ensures Kept(resources, a.pidCache) == OfTheSelection(resources, a) {
        forall pid | pid != "" ensures pid in a.pidCache <==> Selected(a, pid) {
          assert |a.table| <= a.n ==> (pid in a.pidCache - {""} <==> pid in a.table.Keys - {""});
        }
        KeptOfTheSelection(resources, a);
      }
    }
    if FiltersTheSelection(a) && |a.table| <= a.n {
      forall pid | pid != "" ensures pid in a.pidCache <==> pid in a.table {
        OneResource(ResourceMetrics(pid, "", []), a);
      }
    }
  }

  /** Which processes are selected: by the identifier set in a large table, all in a small one. */
  lemma SelectedIs(a: State)
    requires Coherent(a) && a.valid
    ensures forall pid :: Selected(a, pid) <==> if |a.table| > a.n then pid in a.pidCache else pid in a.table
  {
    forall pid ensures Selected(a, pid) <==> pid in PidsOf(a.cache) {
      if Selected(a, pid) {
        assert a.table[pid].pid == pid;
      }
    }
  }

  lemma OneResource(r: ResourceMetrics, a: State)
    requires FiltersTheSelection(a) && r.pid != ""
    ensures r.pid in a.pidCache <==> Selected(a, r.pid)
  {
    assert [r][..0] == [];
    assert Kept([r], a.pidCache) == OfTheSelection([r], a);
  }

  // ----- the whole batch -----

  const SMALL_BATCH := 4
  const MAX_WORKERS := 8

  /** The first pool, and the cache invalidated if anything was observed: one update. */
  method UpdateAll(tp: TopNProcessor, resources: seq<ResourceMetrics>, stamps: seq<int>, maxWorkers: nat)
    returns (ghost order: seq<nat>)
    requires tp.Valid() && |stamps| == |resources| && maxWorkers >= 1
    modifies tp
    ensures tp.Valid() && IsOrder(order, |resources|)
    ensures Updates(old(tp.AsState()), tp.AsState(), Picked(resources, stamps, order), tp.limits)
    ensures Consistent(Observations(resources, stamps)) ==>
      tp.processes == InOrder(old(tp.processes), resources, stamps, tp.limits)
  {
    ghost var table := tp.processes;
    var changed;
    changed, order := CollectUpdates(tp, resources, stamps, maxWorkers);
    ApplyAllFiled(table, Picked(resources, stamps, order), tp.limits);
    PickedPermutes(resources, stamps, order);
    SameSize(Picked(resources, stamps, order), Observations(resources, stamps));
    if changed {
      tp.topNCacheValid := false;
    }
  }

  /** Filters a batch: small ones in order, larger ones with the two pools.  For the cached
      selection a batch is an update with its observations, in some order, and a query; the
      order matters only if resources contradict each other. */
  method ProcessMetricsConcurrent(tp: TopNProcessor, resources: seq<ResourceMetrics>, stamps: seq<int>)
    returns (output: seq<ResourceMetrics>, filtered: nat, ghost order: seq<nat>, ghost mid: State)
    requires tp.Valid() && |stamps| == |resources|
    modifies tp
    ensures tp.Valid() && tp.topNCacheValid && tp.n == old(tp.n)
    ensures IsOrder(order, |resources|)
    ensures Updates(old(tp.AsState()), mid, Picked(resources, stamps, order), tp.limits) && Queries(mid, tp.AsState())
    ensures |resources| <= 4 || Consistent(Observations(resources, stamps)) ==>
      tp.processes == InOrder(old(tp.processes), resources, stamps, tp.limits)
    ensures |resources| > 4 ==> multiset(output) == multiset(Kept(resources, tp.topNPIDCache))
    ensures |resources| <= 4 ==> output == PassedThrough(resources) + Kept(resources, tp.topNPIDCache)
    ensures |tp.processes| > tp.n ==> Kept(resources, tp.topNPIDCache) == OfTheSelection(resources, tp.AsState())
    ensures |Kept(resources, tp.topNPIDCache)| + filtered == |resources|
  {
    if |resources| <= SMALL_BATCH {
      order := UpTo(|resources|);
      UpToIsOrder(|resources|);
      output, filtered, mid := ProcessMetricsSequential(tp, resources, stamps);
      FiltersTheSelectionIff(tp.AsState());
      return;
    }
    var maxWorkers := if MAX_WORKERS > |resources| then |resources| else MAX_WORKERS;
    order := UpdateAll(tp, resources, stamps, maxWorkers);
    mid := tp.AsState();
    var selection := tp.GetTopNProcesses();
    output, filtered := FilterResources(tp, resources, maxWorkers);
    FiltersTheSelectionIff(tp.AsState());
    SameSize(output, Kept(resources, tp.topNPIDCache));
  }
}
