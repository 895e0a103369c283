/** The circuit breaker around slow operations: its state is a function of the sequence of
    results it was told, and so is the answer it gives at any time. */
module CircuitBreaker {

  datatype Config = Config(enabled: bool, threshold: int, cooldown: int)

  /** The result of an operation, and when it was recorded. */
  datatype Result = Result(time: int, duration: int, success: bool)

  predicate Slow(c: Config, r: Result) {
    r.duration > c.threshold
  }

  predicate Bad(c: Config, r: Result) {
    !r.success || Slow(c, r)
  }

  datatype State = State(open: bool, until: int, slowCount: nat, trips: nat, closes: nat)

  const INITIAL := State(false, 0, 0, 0, 0)

  predicate Allowed(c: Config, s: State, now: int) {
    !c.enabled || !s.open || now >= s.until
  }

  function Record(c: Config, s: State, r: Result): State {
    if !c.enabled then s
    else if Bad(c, r) then
      if s.slowCount + 1 >= 3 && !s.open then
        State(true, r.time + c.cooldown, s.slowCount + 1, s.trips + 1, s.closes)
      else s.(slowCount := s.slowCount + 1)
    else if s.open then s.(open := false, slowCount := 0, closes := s.closes + 1)
    else s.(slowCount := 0)
  }

  function After(c: Config, history: seq<Result>): State {
    if history == [] then INITIAL
    else Record(c, After(c, history[..|history| - 1]), history[|history| - 1])
  }

  // ----- what the history says -----

  /** The number of bad results at the end of the history. */
  function Run(c: Config, history: seq<Result>): (n: nat)
    ensures n <= |history|
  {
    if history == [] || !Bad(c, history[|history| - 1]) then 0
    else 1 + Run(c, history[..|history| - 1])
  }

  /** The third bad result of the current run. */
  function Third(c: Config, history: seq<Result>): Result
    requires Run(c, history) >= 3
  {
    history[|history| - Run(c, history) + 2]
  }

  /** The number of runs of bad results, past and present, that reached three. */
  function LongRuns(c: Config, history: seq<Result>): nat {
    if history == [] then 0
    else LongRuns(c, history[..|history| - 1]) + if Run(c, history) == 3 then 1 else 0
  }

  /** The counter is the length of the current run of bad results, the circuit is open exactly
      when that run is at least three, and then until the third of the run plus the cooldown. */
  lemma {:induction false} StateIsHistory(c: Config, history: seq<Result>)
    requires c.enabled
    ensures After(c, history).slowCount == Run(c, history)
    ensures After(c, history).open <==> Run(c, history) >= 3
    ensures Run(c, history) >= 3 ==> After(c, history).until == Third(c, history).time + c.cooldown
  {
    if history == [] {
    } else {
      StateIsHistory(c, history[..|history| - 1]);
    }
  }

  /** An operation is denied at a time exactly if the current run of bad results has reached
      three and the time is before its third result plus the cooldown. */
  lemma DeniedIff(c: Config, history: seq<Result>, now: int)
    requires c.enabled
    ensures !Allowed(c, After(c, history), now)
       <==> Run(c, history) >= 3 && now < Third(c, history).time + c.cooldown
  {
    StateIsHistory(c, history);
  }

  /** The circuit trips once for every run of bad results that reaches three, and closes once
      for every such run that has ended. */
  lemma {:induction false} TripsAndCloses(c: Config, history: seq<Result>)
    requires c.enabled
    ensures After(c, history).trips == LongRuns(c, history)
    ensures After(c, history).trips - After(c, history).closes == if After(c, history).open then 1 else 0
  {
    if history == [] {
    } else {
      TripsAndCloses(c, history[..|history| - 1]);
      StateIsHistory(c, history[..|history| - 1]);
    }
  }

  /** Once the cooldown has passed, failing operations never block again: as long as only bad
      results follow, whatever their number, everything is allowed at every later time. */
  lemma FailedTestsDoNotReopen(c: Config, history: seq<Result>, later: seq<Result>, now: int)
    requires c.enabled && Run(c, history) >= 3 && now >= Third(c, history).time + c.cooldown
    requires forall i :: 0 <= i < |later| ==> Bad(c, later[i])
    ensures Allowed(c, After(c, history + later), now)
  {
    BadResultsExtend(c, history, later);
    DeniedIff(c, history + later, now);
  }

  lemma {:induction false} BadResultsExtend(c: Config, history: seq<Result>, later: seq<Result>)
    requires Run(c, history) >= 3
    requires forall i :: 0 <= i < |later| ==> Bad(c, later[i])
    ensures Run(c, history + later) == Run(c, history) + |later|
    ensures Third(c, history + later) == Third(c, history)
  {
    if later == [] {
      assert history + later == history;
    } else {
      var m := |later| - 1;
      BadResultsExtend(c, history, later[..m]);
      assert (history + later)[..|history + later| - 1] == history + later[..m];
    }
  }

  /** What one more result does, on every history.  A success within the threshold closes the
      circuit and forgets the run, so that everything is allowed at any time; a failure or a
      success above the threshold makes the run longer, closes nothing, and opens the circuit
      if it is the third of its run. */
  lemma OneMoreResult(c: Config, history: seq<Result>, r: Result, now: int)
    requires c.enabled
    ensures var s, s' := After(c, history), After(c, history + [r]);
      && (r.success && r.duration <= c.threshold ==>
            !s'.open && s'.slowCount == 0 && s'.trips == s.trips && Allowed(c, s', now)
            && s'.closes == s.closes + if s.open then 1 else 0)
      && (!r.success || r.duration > c.threshold ==>
            s'.slowCount == s.slowCount + 1 && s'.closes == s.closes
            && (s.open ==> s'.open && s'.until == s.until && s'.trips == s.trips)
            && (!s.open ==> (s'.open <==> s'.slowCount == 3))
            && (!s.open && s'.open ==> s'.until == r.time + c.cooldown && s'.trips == s.trips + 1))
  {
    assert (history + [r])[..|history|] == history;
    StateIsHistory(c, history);
  }

  /** A disabled breaker allows everything and counts nothing. */
  lemma {:induction false} DisabledAllowsAll(c: Config, history: seq<Result>, now: int)
    requires !c.enabled
    ensures After(c, history) == INITIAL && Allowed(c, After(c, history), now)
  {
    if history == [] {
    } else {
      DisabledAllowsAll(c, history[..|history| - 1], now);
    }
  }

  // ----- the documented rule: three slow results in a row, or three failed ones -----

  datatype Documented = Documented(open: bool, until: int, slow: nat, failed: nat)

  /** Slow and failed results are counted apart, and either count trips the circuit; it closes
      on a good result, as the code's does. */
  function RecordDocumented(c: Config, s: Documented, r: Result): Documented {
    var slow := if Slow(c, r) then s.slow + 1 else 0;
    var failed := if !r.success then s.failed + 1 else 0;
    if !Bad(c, r) then Documented(false, s.until, slow, failed)
    else if !s.open && (slow >= 3 || failed >= 3) then Documented(true, r.time + c.cooldown, slow, failed)
    else Documented(s.open, s.until, slow, failed)
  }

  function AfterDocumented(c: Config, history: seq<Result>): Documented {
    if history == [] then Documented(false, 0, 0, 0)
    else RecordDocumented(c, AfterDocumented(c, history[..|history| - 1]), history[|history| - 1])
  }

  predicate ThreeSlow(c: Config, history: seq<Result>, j: nat) {
    j + 3 <= |history| && Slow(c, history[j]) && Slow(c, history[j + 1]) && Slow(c, history[j + 2])
  }

  predicate ThreeFailed(history: seq<Result>, j: nat) {
    j + 3 <= |history| && !history[j].success && !history[j + 1].success && !history[j + 2].success
  }

  /** Three results in a row, beginning here, are all slow or all failed. */
  predicate OneKind(c: Config, history: seq<Result>, j: nat) {
    ThreeSlow(c, history, j) || ThreeFailed(history, j)
  }

  /** The place where the current run of bad results begins. */
  function Start(c: Config, history: seq<Result>): nat {
    |history| - Run(c, history)
  }

  ghost predicate OneKindInRun(c: Config, history: seq<Result>) {
    exists j :: j >= Start(c, history) && OneKind(c, history, j)
  }

  /** The two counts tell whether the last three results are of one kind. */
  lemma {:induction false} DocumentedCounts(c: Config, history: seq<Result>)
    ensures var d, n := AfterDocumented(c, history), |history|;
      && (d.slow >= 1 <==> n >= 1 && Slow(c, history[n - 1]))
      && (d.slow >= 2 <==> n >= 2 && Slow(c, history[n - 1]) && Slow(c, history[n - 2]))
      && (d.slow >= 3 <==> n >= 3 && ThreeSlow(c, history, n - 3))
      && (d.failed >= 1 <==> n >= 1 && !history[n - 1].success)
      && (d.failed >= 2 <==> n >= 2 && !history[n - 1].success && !history[n - 2].success)
      && (d.failed >= 3 <==> n >= 3 && ThreeFailed(history, n - 3))
  {
    if history == [] {
    } else {
      DocumentedCounts(c, history[..|history| - 1]);
    }
  }

  /** The documented circuit is open exactly if three results in a row of the current run are
      all slow or all failed. */
  lemma {:induction false} DocumentedIsHistory(c: Config, history: seq<Result>)
    ensures AfterDocumented(c, history).open <==> OneKindInRun(c, history)
  {
    if history == [] {
    } else {
      var m := |history| - 1;
      DocumentedIsHistory(c, history[..m]);
      DocumentedCounts(c, history);
      OneKindStep(c, history);
    }
  }

  /** One more bad result keeps what the run has, and may complete three at its end. */
  lemma OneKindStep(c: Config, history: seq<Result>)
    requires history != []
    ensures var m := |history| - 1;
      OneKindInRun(c, history) <==>
      Bad(c, history[m]) && (OneKindInRun(c, history[..m]) || (m >= 2 && OneKind(c, history, m - 2)))
  {
    var m := |history| - 1;
    var before := history[..m];
    if Bad(c, history[m]) {
      if OneKindInRun(c, before) {
        var j :| j >= Start(c, before) && OneKind(c, before, j);
        assert OneKind(c, history, j);
      }
      if m >= 2 && OneKind(c, history, m - 2) {
        assert Bad(c, before[m - 1]) && Bad(c, before[..m - 1][m - 2]);
        assert Run(c, before[..m - 1]) >= 1 && Run(c, before) >= 2 && Run(c, history) >= 3;
      }
      if OneKindInRun(c, history) {
        var j :| j >= Start(c, history) && OneKind(c, history, j);
        if j != m - 2 {
          assert OneKind(c, before, j);
        }
      }
    }
  }

  ghost predicate Agree(c: Config, history: seq<Result>) {
    After(c, history).open == AfterDocumented(c, history).open
  }

  /** Whenever the documented circuit is open, so is the actual one; the two agree exactly if
      the run is short or has three results in a row of one kind. */
  lemma OpenAgreeIff(c: Config, history: seq<Result>)
    requires c.enabled
    ensures AfterDocumented(c, history).open ==> After(c, history).open
    ensures Agree(c, history) <==> Run(c, history) < 3 || OneKindInRun(c, history)
  {
    StateIsHistory(c, history);
    DocumentedIsHistory(c, history);
  }

  /** The two circuits have agreed since the current run of bad results began. */
  ghost predicate AgreedInRun(c: Config, history: seq<Result>) {
    forall p :: Start(c, history) <= p <= |history| ==> Agree(c, history[..p])
  }

  /** They have if and only if the run is shorter than three or its first three results are
      all slow or all failed. */
  lemma AgreedInRunIff(c: Config, history: seq<Result>)
    requires c.enabled
    ensures AgreedInRun(c, history) <==> Run(c, history) < 3 || OneKind(c, history, Start(c, history))
  {
    var start := Start(c, history);
    if AgreedInRun(c, history) && Run(c, history) >= 3 {
      assert Agree(c, history[..start + 3]);
      AgreeAtIff(c, history, start + 3);
      var j :| j >= start && OneKind(c, history[..start + 3], j);
      assert OneKind(c, history, start);
    }
    if Run(c, history) < 3 || OneKind(c, history, start) {
      forall p | start <= p <= |history| ensures Agree(c, history[..p]) {
        AgreeAtIff(c, history, p);
        assert p >= start + 3 ==> OneKind(c, history[..p], start);
      }
    }
  }

  lemma AgreeAtIff(c: Config, history: seq<Result>, p: nat)
    requires c.enabled && Start(c, history) <= p <= |history|
    ensures Agree(c, history[..p]) <==>
      p < Start(c, history) + 3 || exists j :: j >= Start(c, history) && OneKind(c, history[..p], j)
  {
    RunPrefix(c, history, p);
    OpenAgreeIff(c, history[..p]);
  }

  lemma {:induction false} RunPrefix(c: Config, history: seq<Result>, p: nat)
    requires Start(c, history) <= p <= |history|
    ensures Run(c, history[..p]) == p - Start(c, history)
  {
    if p == |history| {
      assert history[..p] == history;
    } else {
      var m := |history| - 1;
      RunPrefix(c, history[..m], p);
      assert history[..m][..p] == history[..p];
    }
  }

  /** A slow result, a failed one and a slow one open the circuit, which by the documented rule
      stays closed. */
  lemma MixedRunOpens(c: Config, t1: int, t2: int, t3: int)
    requires c.enabled
    ensures var history := [Result(t1, c.threshold + 1, true), Result(t2, c.threshold, false),
                            Result(t3, c.threshold + 1, true)];
      After(c, history).open && !AfterDocumented(c, history).open
  {
    var h := [Result(t1, c.threshold + 1, true), Result(t2, c.threshold, false), Result(t3, c.threshold + 1, true)];
    assert h[..2][..1] == h[..1] && h[..1][..0] == [];
    assert Run(c, h[..1]) == 1 && Run(c, h[..2]) == 2 && Run(c, h) == 3;
    OpenAgreeIff(c, h);
    StateIsHistory(c, h);
    assert !OneKind(c, h, 0);
  }

  /** The breaker of one operation type. */
  class Breaker {
    const config: Config
    var open: bool
    var until: int
    var slowCount: nat
    var trips: nat
    var closes: nat
    ghost var history: seq<Result>

    ghost function AsState(): State
      reads this
    {
      State(open, until, slowCount, trips, closes)
    }

    ghost predicate Valid()
      reads this
    {
      AsState() == After(config, history)
    }

    constructor (config: Config)
      ensures this.config == config && history == [] && Valid()
    {
      this.config := config;
      open, until, slowCount, trips, closes := false, 0, 0, 0, 0;
      history := [];
    }

    method AllowOperation(now: int) returns (allowed: bool)
      ensures allowed == Allowed(config, AsState(), now)
    {
      if !config.enabled {
        return true;
      }
      if open {
        if now < until {
          return false;
        }
        return true;
      }
      return true;
    }

    method RecordOperationResult(now: int, duration: int, success: bool)
      requires Valid()
      modifies this
      ensures Valid() && history == old(history) + [Result(now, duration, success)]
      ensures AsState() == Record(config, old(AsState()), Result(now, duration, success))
    {
      history := history + [Result(now, duration, success)];
      assert history[..|history| - 1] == old(history);
      if !config.enabled {
        return;
      }
      if !success || duration > config.threshold {
        slowCount := slowCount + 1;
        if slowCount >= 3 && !open {
          open := true;
          until := now + config.cooldown;
          trips := trips + 1;
        }
      } else {
        if open {
          open := false;
          slowCount := 0;
          closes := closes + 1;
        } else if slowCount > 0 {
          slowCount := 0;
        }
      }
    }
  }
}
