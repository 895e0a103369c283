/** The lookups in /proc behind caches with a time to live and circuit breakers.  What a real
    lookup returns is an input. */
module ProcCache {
  import opened Seqs
  import opened Wrappers
  import Circuit = CircuitBreaker

  datatype Kind = CommandLine | ExecutablePath | Username

  datatype Lookup = Found(text: string) | Failed(message: string)

  datatype Answer = Value(text: string) | Error(message: string)

  datatype CacheEntry = CacheEntry(value: string, expiry: int, hasError: bool, message: string)

  type Cache = map<string, CacheEntry>

  /** The clock readings of one call: at its start, after the real lookup, when its result is
      recorded, and when it is stored. */
  datatype Clock = Clock(start: int, looked: int, recorded: int, stored: int) {
    predicate Valid() {
      start <= looked <= recorded <= stored
    }
  }

  /** The settings of one kind of lookup; `clean` makes the raw text readable. */
  datatype Settings = Settings(kind: Kind, ttl: int, breaker: Circuit.Config, clean: string -> string)

  datatype State = State(cache: Cache, breaker: Circuit.State)

  /** One call: the key asked for, the clock, and what a real lookup would return. */
  datatype Call = Call(key: string, clock: Clock, outcome: Lookup)

  const BLOCKED := "operation blocked by circuit breaker"

  function Fallback(uid: string): string {
    "uid:" + uid
  }

  function Explained(c: Settings, key: string, message: string): string {
    if c.kind.CommandLine? then "failed to read cmdline for PID " + key + ": " + message
    else "failed to read executable path for PID " + key + ": " + message
  }

  /** The text a successful lookup yields. */
  function Text(c: Settings, key: string, text: string): string {
    match c.kind
    case CommandLine => c.clean(text)
    case ExecutablePath => text
    case Username => if text == "" then Fallback(key) else text
  }

  function EntryOf(c: Settings, call: Call): CacheEntry {
    var expiry := call.clock.stored + c.ttl;
    match call.outcome
    case Found(text) => CacheEntry(Text(c, call.key, text), expiry, false, "")
    case Failed(message) =>
      CacheEntry(if c.kind.Username? then Fallback(call.key) else "", expiry, true, message)
  }

  function Cached(entry: CacheEntry): Answer {
    if entry.hasError then Error(entry.message) else Value(entry.value)
  }

  function Fresh(c: Settings, call: Call): Answer {
    match call.outcome
    case Found(text) => Value(Text(c, call.key, text))
    case Failed(message) =>
      if c.kind.Username? then Value(Fallback(call.key)) else Error(Explained(c, call.key, message))
  }

  function Denied(c: Settings, key: string): Answer {
    if c.kind.Username? then Value(Fallback(key)) else Error(BLOCKED)
  }

  predicate Hit(s: State, call: Call) {
    call.key in s.cache && call.clock.start < s.cache[call.key].expiry
  }

  /** The call goes through to a real lookup. */
  predicate Reads(c: Settings, s: State, call: Call) {
    !Hit(s, call) && Circuit.Allowed(c.breaker, s.breaker, call.clock.start)
  }

  function ResultOf(call: Call): Circuit.Result {
    Circuit.Result(call.clock.recorded, call.clock.looked - call.clock.start, call.outcome.Found?)
  }

  function Next(c: Settings, s: State, call: Call): State {
    if Hit(s, call) then s
    else if !Reads(c, s, call) then s.(cache := s.cache - {call.key})
    else State(s.cache[call.key := EntryOf(c, call)], Circuit.Record(c.breaker, s.breaker, ResultOf(call)))
  }

  function AnswerTo(c: Settings, s: State, call: Call): Answer {
    if Hit(s, call) then Cached(s.cache[call.key])
    else if !Reads(c, s, call) then Denied(c, call.key)
    else Fresh(c, call)
  }

  // ----- whole runs -----

  const INITIAL := State(map[], Circuit.INITIAL)

  function After(c: Settings, calls: seq<Call>): State {
    if calls == [] then INITIAL
    else Next(c, After(c, calls[..|calls| - 1]), calls[|calls| - 1])
  }

  predicate ReadsAt(c: Settings, calls: seq<Call>, i: nat)
    requires i < |calls|
  {
    Reads(c, After(c, calls[..i]), calls[i])
  }

  predicate HitAt(c: Settings, calls: seq<Call>, i: nat)
    requires i < |calls|
  {
    Hit(After(c, calls[..i]), calls[i])
  }

  function AnswerAt(c: Settings, calls: seq<Call>, i: nat): Answer
    requires i < |calls|
  {
    AnswerTo(c, After(c, calls[..i]), calls[i])
  }

  /** The calls follow one another in time. */
  ghost predicate Sequential(calls: seq<Call>) {
    && (forall i :: 0 <= i < |calls| ==> calls[i].clock.Valid())
    && (forall i, j :: 0 <= i < j < |calls| ==> calls[i].clock.stored <= calls[j].clock.start)
  }

  /** A result that was read is either still stored, with its expiry, or its time is over. */
  lemma {:induction false} StoredOrOver(c: Settings, calls: seq<Call>, i: nat)
    requires Sequential(calls) && i < |calls| && ReadsAt(c, calls, i)
    ensures var s, key, over := After(c, calls), calls[i].key, calls[i].clock.stored + c.ttl;
      || (key in s.cache && s.cache[key].expiry >= over)
      || (i < |calls| - 1 && calls[|calls| - 1].clock.start >= over)
  {
    var m := |calls| - 1;
    var last := calls[m];
    if i == m {
    } else {
      assert calls[..m][..i] == calls[..i];
      assert Sequential(calls[..m]);
      StoredOrOver(c, calls[..m], i);
      assert calls[m - 1].clock.Valid() && calls[m - 1].clock.stored <= last.clock.start;
      StepStoredOrOver(c, After(c, calls[..m]), last, calls[i].key, calls[i].clock.stored + c.ttl);
    }
  }

  lemma StepStoredOrOver(c: Settings, s: State, call: Call, key: string, over: int)
    requires (key in s.cache && s.cache[key].expiry >= over) || call.clock.start >= over
    ensures var s' := Next(c, s, call);
      (key in s'.cache && s'.cache[key].expiry >= over) || call.clock.start >= over
  {
  }

  /** Two real lookups of the same key are at least one time to live apart, counted from the
      end of the first to the start of the second. */
  lemma ReadsApart(c: Settings, calls: seq<Call>, i: nat, j: nat)
    requires Sequential(calls) && i < j < |calls| && calls[i].key == calls[j].key
    requires ReadsAt(c, calls, i) && ReadsAt(c, calls, j)
    ensures calls[j].clock.start >= calls[i].clock.stored + c.ttl
  {
    assert calls[..j][..i] == calls[..i];
    assert Sequential(calls[..j]);
    StoredOrOver(c, calls[..j], i);
    assert calls[j - 1].clock.Valid() && calls[j - 1].clock.stored <= calls[j].clock.start;
  }

  /** Every stored entry is the result of the latest real lookup of its key. */
  lemma {:induction false} StoredByRead(c: Settings, calls: seq<Call>, key: string) returns (i: nat)
    requires key in After(c, calls).cache
    ensures i < |calls| && calls[i].key == key && ReadsAt(c, calls, i)
    ensures After(c, calls).cache[key] == EntryOf(c, calls[i])
    ensures forall k :: i < k < |calls| && calls[k].key == key ==> !ReadsAt(c, calls, k)
  {
    var m := |calls| - 1;
    assert calls[..m] + [calls[m]] == calls;
    if calls[m].key == key && ReadsAt(c, calls, m) {
      i := m;
    } else {
      i := StoredByRead(c, calls[..m], key);
      PrefixReads(c, calls, m);
    }
  }

  lemma PrefixReads(c: Settings, calls: seq<Call>, m: nat)
    requires m <= |calls|
    ensures forall k :: 0 <= k < m ==> ReadsAt(c, calls[..m], k) == ReadsAt(c, calls, k)
  {
    forall k | 0 <= k < m ensures ReadsAt(c, calls[..m], k) == ReadsAt(c, calls, k) {
      assert calls[..m][..k] == calls[..k];
    }
  }

  /** Every answer from the cache is the result of the latest real lookup of the key, and was
      stored less than one time to live ago. */
  lemma CachedAnswerIsFresh(c: Settings, calls: seq<Call>, j: nat) returns (i: nat)
    requires j < |calls| && HitAt(c, calls, j)
    ensures i < j && calls[i].key == calls[j].key && ReadsAt(c, calls, i)
    ensures calls[j].clock.start < calls[i].clock.stored + c.ttl
    ensures AnswerAt(c, calls, j) == Cached(EntryOf(c, calls[i]))
    ensures forall k :: i < k < j && calls[k].key == calls[j].key ==> !ReadsAt(c, calls, k)
  {
    i := StoredByRead(c, calls[..j], calls[j].key);
    PrefixReads(c, calls, j);
  }

  /** A call is answered from the cache if and only if its key was read less than one time to
      live ago, counted from when the result was stored. */
  lemma HitIff(c: Settings, calls: seq<Call>, j: nat)
    requires Sequential(calls) && j < |calls|
    ensures HitAt(c, calls, j) <==>
      exists i :: 0 <= i < j && calls[i].key == calls[j].key && ReadsAt(c, calls, i)
                  && calls[j].clock.start < calls[i].clock.stored + c.ttl
  {
    if HitAt(c, calls, j) {
      var i := CachedAnswerIsFresh(c, calls, j);
    }
    if i :| 0 <= i < j && calls[i].key == calls[j].key && ReadsAt(c, calls, i)
            && calls[j].clock.start < calls[i].clock.stored + c.ttl {
      assert calls[..j][..i] == calls[..i];
      assert Sequential(calls[..j]);
      StoredOrOver(c, calls[..j], i);
      assert calls[j - 1].clock.Valid() && calls[j - 1].clock.stored <= calls[j].clock.start;
    }
  }

  /** What the breaker is told: for each real lookup, in order, when its result was recorded,
      how long it took from the start of the call, and whether something was found. */
  function Reported(c: Settings, calls: seq<Call>): seq<Circuit.Result> {
    if calls == [] then []
    else
      var m := |calls| - 1;
      Reported(c, calls[..m])
      + if ReadsAt(c, calls, m)
        then [Circuit.Result(calls[m].clock.recorded, calls[m].clock.looked - calls[m].clock.start,
                             calls[m].outcome.Found?)]
        else []
  }

  lemma StepBreaker(c: Settings, s: State, call: Call)
    ensures Next(c, s, call).breaker ==
      if Reads(c, s, call) then Circuit.Record(c.breaker, s.breaker, ResultOf(call)) else s.breaker
  {
  }

  lemma ReportedStep(c: Settings, calls: seq<Call>)
    requires calls != []
    ensures var m := |calls| - 1;
      Reported(c, calls) == Reported(c, calls[..m]) + if ReadsAt(c, calls, m) then [ResultOf(calls[m])] else []
  {
  }

  lemma {:induction false} BreakerIsReported(c: Settings, calls: seq<Call>)
    ensures After(c, calls).breaker == Circuit.After(c.breaker, Reported(c, calls))
  {
    if calls == [] {
    } else {
      var m := |calls| - 1;
      BreakerIsReported(c, calls[..m]);
      StepBreaker(c, After(c, calls[..m]), calls[m]);
      ReportedStep(c, calls);
      OneMoreReport(c.breaker, Reported(c, calls[..m]), ResultOf(calls[m]));
    }
  }

  lemma OneMoreReport(breaker: Circuit.Config, results: seq<Circuit.Result>, r: Circuit.Result)
    ensures Circuit.After(breaker, results + [r]) == Circuit.Record(breaker, Circuit.After(breaker, results), r)
    ensures results + [] == results
  {
    assert (results + [r])[..|results|] == results;
  }

  /** A call that is not answered from the cache goes through to a real lookup, unless the
      results of the real lookups before it end in a run of three or more bad ones whose third
      is not yet one cooldown old. */
  lemma ReadsIff(c: Settings, calls: seq<Call>, j: nat)
    requires j < |calls| && c.breaker.enabled
    ensures var results := Reported(c, calls[..j]);
      ReadsAt(c, calls, j) <==>
        !HitAt(c, calls, j)
        && (Circuit.Run(c.breaker, results) >= 3 ==>
              calls[j].clock.start >= Circuit.Third(c.breaker, results).time + c.breaker.cooldown)
  {
    BreakerIsReported(c, calls[..j]);
    Circuit.DeniedIff(c.breaker, Reported(c, calls[..j]), calls[j].clock.start);
  }

  /** The answer of a call that is blocked. */
  lemma BlockedAnswer(c: Settings, calls: seq<Call>, j: nat)
    requires j < |calls| && !HitAt(c, calls, j) && !ReadsAt(c, calls, j)
    ensures AnswerAt(c, calls, j) ==
      if c.kind.Username? then Value("uid:" + calls[j].key) else Error("operation blocked by circuit breaker")
  {
  }

  /** The answers to the real lookup i: the one it gives itself, and the one a later call gets
      from the cache.  They differ in case of failure only: the cache remembers the bare message,
      and for a user remembers it as an error. */
  lemma LookupAnswers(c: Settings, calls: seq<Call>, i: nat, j: nat)
    requires i <= j < |calls| && calls[i].key == calls[j].key && ReadsAt(c, calls, i)
    requires forall k :: i < k <= j && calls[k].key == calls[j].key ==> !ReadsAt(c, calls, k)
    requires i < j ==> HitAt(c, calls, j)
    ensures var key, outcome, answer := calls[j].key, calls[i].outcome, AnswerAt(c, calls, j);
      && (outcome.Found? && c.kind.CommandLine? ==> answer == Value(c.clean(outcome.text)))
      && (outcome.Found? && c.kind.ExecutablePath? ==> answer == Value(outcome.text))
      && (outcome.Found? && c.kind.Username? ==>
            answer == Value(if outcome.text == "" then "uid:" + key else outcome.text))
      && (outcome.Failed? && i < j ==> answer == Error(outcome.message))
      && (outcome.Failed? && i == j && c.kind.CommandLine? ==>
            answer == Error("failed to read cmdline for PID " + key + ": " + outcome.message))
      && (outcome.Failed? && i == j && c.kind.ExecutablePath? ==>
            answer == Error("failed to read executable path for PID " + key + ": " + outcome.message))
      && (outcome.Failed? && i == j && c.kind.Username? ==> answer == Value("uid:" + key))
  {
    if i < j {
      var latest := CachedAnswerIsFresh(c, calls, j);
      assert latest == i;
    }
  }

  // ----- calls that read nothing -----

  /** What a cache can still answer about a key at a time. */
  function Live(s: State, key: string, now: int): Option<CacheEntry> {
    if key in s.cache && now < s.cache[key].expiry then Some(s.cache[key]) else None
  }

  /** From this time on the two states cannot be told apart. */
  ghost predicate SameFrom(a: State, b: State, now: int) {
    a.breaker == b.breaker && forall key :: Live(a, key, now) == Live(b, key, now)
  }

  lemma StepSame(c: Settings, a: State, b: State, call: Call, now: int)
    requires SameFrom(a, b, now) && now <= call.clock.start
    ensures SameFrom(Next(c, a, call), Next(c, b, call), now)
    ensures AnswerTo(c, a, call) == AnswerTo(c, b, call) && Reads(c, a, call) == Reads(c, b, call)
  {
    assert Live(a, call.key, now) == Live(b, call.key, now);
    assert Hit(a, call) == Hit(b, call);
    forall key ensures Live(Next(c, a, call), key, now) == Live(Next(c, b, call), key, now) {
      assert Live(a, key, now) == Live(b, key, now);
    }
  }

  lemma {:induction false} SameWithout(c: Settings, calls: seq<Call>, j: nat)
    requires j < |calls| && !ReadsAt(c, calls, j)
    requires forall i :: j <= i < |calls| ==> calls[j].clock.start <= calls[i].clock.start
    ensures SameFrom(After(c, calls), After(c, RemoveAt(calls, j)), calls[j].clock.start)
  {
    var m := |calls| - 1;
    if j == m {
      assert RemoveAt(calls, j) == calls[..m];
    } else {
      assert calls[..m][..j] == calls[..j];
      SameWithout(c, calls[..m], j);
      assert RemoveAt(calls, j) == RemoveAt(calls[..m], j) + [calls[m]];
      assert RemoveAt(calls, j)[..m - 1] == RemoveAt(calls[..m], j);
      StepSame(c, After(c, calls[..m]), After(c, RemoveAt(calls[..m], j)), calls[m], calls[j].clock.start);
    }
  }

  /** A call that is answered from the cache or blocked leaves no trace: in a run without it
      every later call gets the same answer and goes through to a real lookup just the same. */
  lemma UnreadLeavesNoTrace(c: Settings, calls: seq<Call>, j: nat, i: nat)
    requires Sequential(calls) && j < i < |calls| && !ReadsAt(c, calls, j)
    ensures AnswerAt(c, RemoveAt(calls, j), i - 1) == AnswerAt(c, calls, i)
    ensures ReadsAt(c, RemoveAt(calls, j), i - 1) == ReadsAt(c, calls, i)
  {
    assert calls[..i][..j] == calls[..j];
    forall k | j <= k < |calls| ensures calls[j].clock.start <= calls[k].clock.start {
      assert calls[j].clock.Valid() && (j < k ==> calls[j].clock.stored <= calls[k].clock.start);
    }
    SameWithout(c, calls[..i], j);
    assert RemoveAt(calls, j)[..i - 1] == RemoveAt(calls[..i], j);
    StepSame(c, After(c, calls[..i]), After(c, RemoveAt(calls[..i], j)), calls[i], calls[j].clock.start);
  }

  // ----- the owner of a process -----

  datatype StatusLine = StatusLine(text: string, fields: seq<string>)

  /** What reading the status file yields: its lines, and the error that ended it, if any. */
  datatype Status = Unreadable(message: string) | Lines(lines: seq<StatusLine>, problem: Option<string>)

  predicate NamesUid(line: StatusLine) {
    "Uid:" <= line.text && |line.fields| >= 2
  }

  function UidOf(lines: seq<StatusLine>): Option<string> {
    if lines == [] then None
    else if NamesUid(lines[0]) then Some(lines[0].fields[1])
    else UidOf(lines[1..])
  }

  /** The first line that begins with "Uid:" and has two fields is this one, and its second
      field is this user. */
  ghost predicate UidAt(lines: seq<StatusLine>, i: nat, uid: string) {
    && i < |lines| && "Uid:" <= lines[i].text && |lines[i].fields| >= 2 && lines[i].fields[1] == uid
    && forall k :: 0 <= k < i ==> !("Uid:" <= lines[k].text && |lines[k].fields| >= 2)
  }

  lemma {:induction false} UidOfIff(lines: seq<StatusLine>, uid: string)
    ensures UidOf(lines) == Some(uid) <==> exists i: nat :: UidAt(lines, i, uid)
  {
    if lines == [] {
    } else {
      UidOfIff(lines[1..], uid);
      if i: nat :| UidAt(lines[1..], i, uid) && !NamesUid(lines[0]) {
        assert UidAt(lines, i + 1, uid);
      }
      if i: nat :| UidAt(lines, i, uid) && i > 0 {
        assert UidAt(lines[1..], i - 1, uid);
      }
      if NamesUid(lines[0]) {
        assert UidAt(lines, 0, lines[0].fields[1]);
      }
    }
  }

  /** The answer about a user, with the failure of the lookup replaced by the fallback. */
  function Owner(uid: string, answer: Answer): Answer {
    if answer.Error? then Value(Fallback(uid)) else answer
  }

  /** The owner of a process whose status file names a user: the name that a real lookup gave
      no longer ago than its time to live, or the fallback, and always the same fallback,
      whether the lookup failed just now, failed before and is remembered, gave no name, or
      was blocked. */
  lemma OwnerOrFallback(c: Settings, calls: seq<Call>, j: nat) returns (i: nat)
    requires c.kind.Username? && j < |calls|
    ensures i <= j && calls[i].key == calls[j].key
    ensures var uid := calls[j].key;
      Owner(uid, AnswerAt(c, calls, j)) ==
        if !HitAt(c, calls, j) && !ReadsAt(c, calls, j) then Value(Fallback(uid))
        else if calls[i].outcome.Failed? || calls[i].outcome.text == "" then Value(Fallback(uid))
        else Value(calls[i].outcome.text)
    ensures HitAt(c, calls, j) ==> i < j && ReadsAt(c, calls, i) && calls[j].clock.start < calls[i].clock.stored + c.ttl
    ensures !HitAt(c, calls, j) ==> i == j
  {
    if HitAt(c, calls, j) {
      i := CachedAnswerIsFresh(c, calls, j);
    } else {
      i := j;
    }
  }

  // ----- the object -----

  lemma PutBack(cache: Cache, key: string, entry: CacheEntry)
    ensures (cache - {key})[key := entry] == cache[key := entry]
    ensures key !in cache ==> cache - {key} == cache
  {
  }

  class FallbackParser {
    const cmdline: Settings
    const executable: Settings
    const username: Settings
    const cmdlineBreaker: Circuit.Breaker
    const executableBreaker: Circuit.Breaker
    const usernameBreaker: Circuit.Breaker
    var commandLineCache: Cache
    var executablePathCache: Cache
    var usernameCache: Cache

    ghost predicate Valid()
      reads this, cmdlineBreaker, executableBreaker, usernameBreaker
    {
      && cmdline.kind.CommandLine? && executable.kind.ExecutablePath? && username.kind.Username?
      && cmdlineBreaker != executableBreaker && cmdlineBreaker != usernameBreaker
      && executableBreaker != usernameBreaker
      && cmdlineBreaker.config == cmdline.breaker && cmdlineBreaker.Valid()
      && executableBreaker.config == executable.breaker && executableBreaker.Valid()
      && usernameBreaker.config == username.breaker && usernameBreaker.Valid()
    }

    ghost function Commands(): State
      reads this, cmdlineBreaker
    {
      State(commandLineCache, cmdlineBreaker.AsState())
    }

    ghost function Executables(): State
      reads this, executableBreaker
    {
      State(executablePathCache, executableBreaker.AsState())
    }

    ghost function Usernames(): State
      reads this, usernameBreaker
    {
      State(usernameCache, usernameBreaker.AsState())
    }

    constructor (cmdline: Settings, executable: Settings, username: Settings)
      requires cmdline.kind.CommandLine? && executable.kind.ExecutablePath? && username.kind.Username?
      ensures this.cmdline == cmdline && this.executable == executable && this.username == username
      ensures Valid() && Commands() == INITIAL && Executables() == INITIAL && Usernames() == INITIAL
    {
      this.cmdline, this.executable, this.username := cmdline, executable, username;
      cmdlineBreaker := new Circuit.Breaker(cmdline.breaker);
      executableBreaker := new Circuit.Breaker(executable.breaker);
      usernameBreaker := new Circuit.Breaker(username.breaker);
      commandLineCache, executablePathCache, usernameCache := map[], map[], map[];
    }

    method FetchCommandLine(call: Call) returns (answer: Answer)
      requires Valid()
      modifies this`commandLineCache, cmdlineBreaker
      ensures Valid()
      ensures answer == AnswerTo(cmdline, old(Commands()), call)
      ensures Commands() == Next(cmdline, old(Commands()), call)
    {
      var key := call.key;
      if key in commandLineCache {
        var entry := commandLineCache[key];
        if call.clock.start < entry.expiry {
          if entry.hasError {
            return Error(entry.message);
          }
          return Value(entry.value);
        }
        commandLineCache := commandLineCache - {key};
      }
      PutBack(old(commandLineCache), key, EntryOf(cmdline, call));
      var allowed := cmdlineBreaker.AllowOperation(call.clock.start);
      if !allowed {
        return Error(BLOCKED);
      }
      cmdlineBreaker.RecordOperationResult(
        call.clock.recorded, call.clock.looked - call.clock.start, call.outcome.Found?);
      if call.outcome.Failed? {
        commandLineCache := commandLineCache[
          key := CacheEntry("", call.clock.stored + cmdline.ttl, true, call.outcome.message)];
        return Error(Explained(cmdline, key, call.outcome.message));
      }
      var text := cmdline.clean(call.outcome.text);
      commandLineCache := commandLineCache[
        key := CacheEntry(text, call.clock.stored + cmdline.ttl, false, "")];
      return Value(text);
    }

    method FetchExecutablePath(call: Call) returns (answer: Answer)
      requires Valid()
      modifies this`executablePathCache, executableBreaker
      ensures Valid()
      ensures answer == AnswerTo(executable, old(Executables()), call)
      ensures Executables() == Next(executable, old(Executables()), call)
    {
      var key := call.key;
      if key in executablePathCache {
        var entry := executablePathCache[key];
        if call.clock.start < entry.expiry {
          if entry.hasError {
            return Error(entry.message);
          }
          return Value(entry.value);
        }
        executablePathCache := executablePathCache - {key};
      }
      PutBack(old(executablePathCache), key, EntryOf(executable, call));
      var allowed := executableBreaker.AllowOperation(call.clock.start);
      if !allowed {
        return Error(BLOCKED);
      }
      executableBreaker.RecordOperationResult(
        call.clock.recorded, call.clock.looked - call.clock.start, call.outcome.Found?);
      if call.outcome.Failed? {
        executablePathCache := executablePathCache[
          key := CacheEntry("", call.clock.stored + executable.ttl, true, call.outcome.message)];
        return Error(Explained(executable, key, call.outcome.message));
      }
      executablePathCache := executablePathCache[
        key := CacheEntry(call.outcome.text, call.clock.stored + executable.ttl, false, "")];
      return Value(call.outcome.text);
    }

    method ResolveUidToUsername(call: Call) returns (answer: Answer)
      requires Valid()
      modifies this`usernameCache, usernameBreaker
      ensures Valid()
      ensures call.key == "" ==> answer.Error? && Usernames() == old(Usernames())
      ensures call.key != "" ==> answer == AnswerTo(username, old(Usernames()), call)
      ensures call.key != "" ==> Usernames() == Next(username, old(Usernames()), call)
    {
      var uid := call.key;
      if uid == "" {
        return Error("empty UID provided");
      }
      if uid in usernameCache {
        var entry := usernameCache[uid];
        if call.clock.start < entry.expiry {
          if entry.hasError {
            return Error(entry.message);
          }
          return Value(entry.value);
        }
        usernameCache := usernameCache - {uid};
      }
      PutBack(old(usernameCache), uid, EntryOf(username, call));
      var allowed := usernameBreaker.AllowOperation(call.clock.start);
      if !allowed {
        return Value(Fallback(uid));
      }
      usernameBreaker.RecordOperationResult(
        call.clock.recorded, call.clock.looked - call.clock.start, call.outcome.Found?);
      if call.outcome.Failed? {
        usernameCache := usernameCache[
          uid := CacheEntry(Fallback(uid), call.clock.stored + username.ttl, true, call.outcome.message)];
        return Value(Fallback(uid));
      }
      var name := call.outcome.text;
      if name == "" {
        name := Fallback(uid);
      }
      usernameCache := usernameCache[uid := CacheEntry(name, call.clock.stored + username.ttl, false, "")];
      return Value(name);
    }

    /** The owner of a process: the user of the first line of its status file that names one.
        The lookup of a user, should one be needed, has the given clock and outcome. */
    method FetchOwner(pid: string, status: Status, clock: Clock, outcome: Lookup) returns (answer: Answer)
      requires Valid()
      modifies this`usernameCache, usernameBreaker
      ensures Valid()
      ensures var uid := if status.Lines? then UidOf(status.lines) else None;
        && (uid.None? ==> answer.Error? && Usernames() == old(Usernames()))
        && (uid == Some("") ==> answer == Value("uid:") && Usernames() == old(Usernames()))
        && (uid.Some? && uid.value != "" ==>
              var call := Call(uid.value, clock, outcome);
              && answer == Owner(uid.value, AnswerTo(username, old(Usernames()), call))
              && Usernames() == Next(username, old(Usernames()), call))
    {
      if status.Unreadable? {
        return Error("failed to open status file for PID " + pid + ": " + status.message);
      }
      for i := 0 to |status.lines|
        invariant UidOf(status.lines[i..]) == UidOf(status.lines)
        invariant Valid() && Usernames() == old(Usernames())
      {
        var line := status.lines[i];
        if "Uid:" <= line.text {
          if |line.fields| >= 2 {
            var uid := line.fields[1];
            var name := ResolveUidToUsername(Call(uid, clock, outcome));
            if name.Error? {
              return Value(Fallback(uid));
            }
            return name;
          }
        }
      }
      if status.problem.Some? {
        return Error("error reading status file for PID " + pid + ": " + status.problem.value);
      }
      return Error("owner information not found in status file for PID " + pid);
    }
  }
}
