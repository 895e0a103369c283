/** The head sampler for logs: critical patterns, then content filters, then the hash of the
    record identifier against the sampling probability. */
module LogSampler {
  import opened Wrappers
  import opened Telemetry
  import opened LogRecords
  import opened RecordId
  import opened Choices
  import opened Seqs
  import HeadSampler
  import Words

  datatype Action = Include | Exclude | UseProbability

  datatype ContentFilter = ContentFilter(field: string, pattern: string, action: Action, probability: real)

  datatype CriticalPattern = CriticalPattern(field: string, pattern: string)

  /** The configuration, with the pattern matcher and the hash as fixed functions. */
  datatype Config = Config(
    fields: seq<FieldConfig>, filters: seq<ContentFilter>, criticals: seq<CriticalPattern>,
    matches: (string, string) -> bool, hash: string -> nat)

  // ----- the decision on one record -----

  predicate Hits(c: Config, e: Entry, field: string, pattern: string) {
    var text := FieldText(e, field);
    text.Some? && c.matches(pattern, text.value)
  }

  predicate IsCritical(c: Config, e: Entry) {
    exists i :: 0 <= i < |c.criticals| && Hits(c, e, c.criticals[i].field, c.criticals[i].pattern)
  }

  predicate FilterHits(c: Config, e: Entry, f: ContentFilter) {
    Hits(c, e, f.field, f.pattern)
  }

  /** The position of the first filter that matches, or the number of filters. */
  function FirstHit(c: Config, e: Entry, filters: seq<ContentFilter>): (i: nat)
    ensures i <= |filters|
    ensures i < |filters| ==> FilterHits(c, e, filters[i])
    ensures forall j :: 0 <= j < i ==> !FilterHits(c, e, filters[j])
  {
    if filters == [] || FilterHits(c, e, filters[0]) then 0 else 1 + FirstHit(c, e, filters[1..])
  }

  predicate Sampled(c: Config, id: string, p: real) {
    HeadSampler.Below(c.hash(id), p, Words.WORD)
  }

  predicate Keep(c: Config, e: Entry, p: real, random: string) {
    if IsCritical(c, e) then true
    else
      var i := FirstHit(c, e, c.filters);
      if i == |c.filters| then Sampled(c, Id(e, c.fields, random), p)
      else
        match c.filters[i].action
        case Include => true
        case Exclude => false
        case UseProbability => Sampled(c, Id(e, c.fields, random), c.filters[i].probability)
  }

  /** The record has the field, and its text matches the pattern. */
  ghost predicate Shows(c: Config, e: Entry, field: string, pattern: string) {
    exists text :: FieldText(e, field) == Some(text) && c.matches(pattern, text)
  }

  /** Some critical pattern matches. */
  ghost predicate ShowsCritical(c: Config, e: Entry) {
    exists i :: 0 <= i < |c.criticals| && Shows(c, e, c.criticals[i].field, c.criticals[i].pattern)
  }

  lemma HitsIffShows(c: Config, e: Entry, field: string, pattern: string)
    ensures Hits(c, e, field, pattern) <==> Shows(c, e, field, pattern)
  {
  }

  lemma CriticalIff(c: Config, e: Entry)
    ensures IsCritical(c, e) <==> ShowsCritical(c, e)
  {
    if IsCritical(c, e) {
      var i :| 0 <= i < |c.criticals| && Hits(c, e, c.criticals[i].field, c.criticals[i].pattern);
      HitsIffShows(c, e, c.criticals[i].field, c.criticals[i].pattern);
    }
    if ShowsCritical(c, e) {
      var i :| 0 <= i < |c.criticals| && Shows(c, e, c.criticals[i].field, c.criticals[i].pattern);
      HitsIffShows(c, e, c.criticals[i].field, c.criticals[i].pattern);
    }
  }

  /** The configuration without patterns and filters. */
  function Bare(c: Config): Config {
    c.(filters := [], criticals := [])
  }

  /** With no pattern and no filter to decide, a record is kept if and only if the hash of its
      identifier is below the threshold of the probability. */
  lemma BareKeepsBelow(c: Config, e: Entry, p: real, random: string)
    requires c.hash(Id(e, c.fields, random)) < Words.WORD
    ensures Keep(Bare(c), e, p, random) <==> c.hash(Id(e, c.fields, random)) < HeadSampler.Threshold(p)
  {
    HeadSampler.BelowThreshold(c.hash(Id(e, c.fields, random)), p);
  }

  /** A record that shows a critical pattern is kept.  Otherwise, with no filter matching, the
      given probability decides. */
  lemma NoFilterMatches(c: Config, e: Entry, p: real, random: string)
    ensures ShowsCritical(c, e) ==> Keep(c, e, p, random)
    ensures !ShowsCritical(c, e) && (forall i :: 0 <= i < |c.filters| ==>
              !Shows(c, e, c.filters[i].field, c.filters[i].pattern))
            ==> Keep(c, e, p, random) == Keep(Bare(c), e, p, random)
  {
    CriticalIff(c, e);
    var i := FirstHit(c, e, c.filters);
    if i < |c.filters| {
      HitsIffShows(c, e, c.filters[i].field, c.filters[i].pattern);
    }
  }

  /** The first matching filter decides: it keeps the record, or drops it, or has it decided by
      the filter's own probability; the given probability is without effect, and so are the
      filters after it, whatever they say. */
  lemma FirstFilterWins(c: Config, e: Entry, p: real, random: string, i: nat, others: seq<ContentFilter>)
    requires !ShowsCritical(c, e) && i < |c.filters| && Shows(c, e, c.filters[i].field, c.filters[i].pattern)
    requires forall j :: 0 <= j < i ==> !Shows(c, e, c.filters[j].field, c.filters[j].pattern)
    ensures Keep(c.(filters := c.filters[..i + 1] + others), e, p, random) == Keep(c, e, p, random)
    ensures c.filters[i].action == Include ==> Keep(c, e, p, random)
    ensures c.filters[i].action == Exclude ==> !Keep(c, e, p, random)
    ensures c.filters[i].action == UseProbability ==>
      Keep(c, e, p, random) == Keep(Bare(c), e, c.filters[i].probability, random)
  {
    var c' := c.(filters := c.filters[..i + 1] + others);
    CriticalIff(c, e);
    assert forall j :: 0 <= j <= i ==> c'.filters[j] == c.filters[j];
    forall j | 0 <= j <= i
      ensures FilterHits(c, e, c.filters[j]) == FilterHits(c', e, c'.filters[j])
      ensures FilterHits(c, e, c.filters[j]) <==> j == i
    {
      HitsIffShows(c, e, c.filters[j].field, c.filters[j].pattern);
    }
    assert FirstHit(c, e, c.filters) == i;
    assert FirstHit(c', e, c'.filters) == i;
  }

  /** Configuring the identifying fields in another order changes no decision. */
  lemma FieldOrderIrrelevant(c: Config, e: Entry, p: real, random: string, fields: seq<FieldConfig>)
    requires multiset(fields) == multiset(c.fields) && !Blocked(e, c.fields)
    requires SameWeights(c.fields) || DistinctKeys(c.fields)
    ensures Keep(c.(fields := fields), e, p, random) == Keep(c, e, p, random)
  {
    if DistinctKeys(c.fields) {
      GatheredNoTies(e, c.fields);
    }
    OrderIrrelevant(e, c.fields, fields, random);
    SameFirstHit(c, c.(fields := fields), e, c.filters);
  }

  lemma {:induction false} SameFirstHit(c: Config, c': Config, e: Entry, filters: seq<ContentFilter>)
    requires c'.criticals == c.criticals && c'.matches == c.matches
    ensures FirstHit(c', e, filters) == FirstHit(c, e, filters)
  {
    if filters == [] {
    } else {
      SameFirstHit(c, c', e, filters[1..]);
    }
  }

  // ----- the decision on a batch -----

  function Keeper(c: Config, p: real, random: nat -> string): (nat, Entry) -> bool {
    (i: nat, e: Entry) => Keep(c, e, p, random(i))
  }

  /** The records kept, in order.  The text of the random number a record may need is given
      by the record's position. */
  function Kept(c: Config, p: real, es: seq<Entry>, random: nat -> string): seq<Entry> {
    Choose(Keeper(c, p, random), es)
  }

  /** The identifier of the record does not need the random number. */
  ghost predicate Deterministic(c: Config, e: Entry) {
    !Blocked(e, c.fields) && Gathered(e, c.fields) != []
  }

  lemma KeepGrows(c: Config, e: Entry, p1: real, p2: real, r1: string, r2: string)
    requires p1 <= p2 && Deterministic(c, e) && Keep(c, e, p1, r1)
    ensures Keep(c, e, p2, r2)
  {
    assert Id(e, c.fields, r1) == Id(e, c.fields, r2);
  }

  function Critical(c: Config): (nat, Entry) -> bool {
    (i: nat, e: Entry) => IsCritical(c, e)
  }

  /** The first filter excludes every record of the batch. */
  ghost predicate ExcludesAll(c: Config, es: seq<Entry>) {
    forall e :: e in es ==> Excludes(c, e)
  }

  predicate Excludes(c: Config, e: Entry) {
    c.filters != [] && c.filters[0].action == Exclude && FilterHits(c, e, c.filters[0])
  }

  lemma CriticalKept(c: Config, d: Config, e: Entry, p: real, random: string)
    requires d.criticals == c.criticals && d.matches == c.matches
    ensures IsCritical(c, e) ==> Keep(d, e, p, random)
    ensures Excludes(d, e) ==> (Keep(d, e, p, random) <==> IsCritical(c, e))
  {
    if Excludes(d, e) {
      assert FirstHit(d, e, d.filters) == 0;
    }
  }

  /** No critical record is lost: the critical records of a batch come out in order, each as
      often as it came in, whatever the filters, the fields, the probability and the random
      numbers, and with an excluding filter that matches everything nothing else does. */
  lemma CriticalWins(c: Config, d: Config, p: real, es: seq<Entry>, random: nat -> string)
    requires d.criticals == c.criticals && d.matches == c.matches
    ensures Subsequence(Choose(Critical(c), es), Kept(d, p, es, random))
    ensures ExcludesAll(d, es) ==> Kept(d, p, es, random) == Choose(Critical(c), es)
  {
    var critical, keep := Critical(c), Keeper(d, p, random);
    forall i | 0 <= i < |es|
      ensures critical(i, es[i]) ==> keep(i, es[i])
      ensures ExcludesAll(d, es) ==> keep(i, es[i]) == critical(i, es[i])
    {
      CriticalKept(c, d, es[i], p, random(i));
    }
    ChooseGrows(critical, keep, es);
    if ExcludesAll(d, es) {
      ChooseSame(keep, critical, es);
    }
  }

  /** With deterministic identifiers, the records kept at one probability are a subsequence of
      those kept at any higher one. */
  lemma KeptGrows(c: Config, es: seq<Entry>, p1: real, p2: real, r1: nat -> string, r2: nat -> string)
    requires p1 <= p2 && forall i :: 0 <= i < |es| ==> Deterministic(c, es[i])
    ensures Subsequence(Kept(c, p1, es, r1), Kept(c, p2, es, r2))
  {
    var k1, k2 := Keeper(c, p1, r1), Keeper(c, p2, r2);
    forall i | 0 <= i < |es| ensures k1(i, es[i]) ==> k2(i, es[i]) {
      if Keep(c, es[i], p1, r1(i)) {
        KeepGrows(c, es[i], p1, p2, r1(i), r2(i));
      }
    }
    ChooseGrows(k1, k2, es);
  }

  /** At full probability and without filters everything is kept, so that passing the batch
      through unchanged is no different from deciding record by record. */
  lemma FastPathKeepsAll(c: Config, p: real, es: seq<Entry>, random: nat -> string)
    requires p >= 1.0 && c.filters == [] && forall id :: c.hash(id) < Words.WORD
    ensures Kept(c, p, es, random) == es
  {
    var keep := Keeper(c, p, random);
    forall i | 0 <= i < |es| ensures keep(i, es[i]) {
      assert c.hash(Id(es[i], c.fields, random(i))) < Words.WORD;
    }
    ChooseAll(keep, es);
  }

  // ----- batches as they are received -----

  datatype ScopeLogs = ScopeLogs(scope: Scope, records: seq<LogRecord>)

  datatype ResourceLogs = ResourceLogs(resource: Attributes, scopes: seq<ScopeLogs>)

  function WithContext(resource: Attributes, scope: Scope): LogRecord -> Entry {
    record => Entry(record, resource, scope)
  }

  function ScopeEntries(resource: Attributes): ScopeLogs -> seq<Entry> {
    (sl: ScopeLogs) => Map(WithContext(resource, sl.scope), sl.records)
  }

  function ResourceEntries(rl: ResourceLogs): seq<Entry> {
    FlatMap(ScopeEntries(rl.resource), rl.scopes)
  }

  /** All records of a batch in order, each with its resource and scope. */
  function Flatten(ld: seq<ResourceLogs>): seq<Entry> {
    FlatMap(ResourceEntries, ld)
  }

  function Alone(e: Entry): ResourceLogs {
    ResourceLogs(e.resource, [ScopeLogs(e.scope, [e.record])])
  }

  /** Flattening a batch leaves every record, in order, with its own resource and scope. */
  lemma FlattenParts(a: seq<ResourceLogs>, b: seq<ResourceLogs>, resource: Attributes,
                     x: seq<ScopeLogs>, y: seq<ScopeLogs>, scope: Scope, records: seq<LogRecord>)
    ensures Flatten(a + b) == Flatten(a) + Flatten(b)
    ensures Flatten([ResourceLogs(resource, x + y)])
         == Flatten([ResourceLogs(resource, x)]) + Flatten([ResourceLogs(resource, y)])
    ensures var alone := Flatten([ResourceLogs(resource, [ScopeLogs(scope, records)])]);
      && |alone| == |records|
      && forall k :: 0 <= k < |records| ==> alone[k] == Entry(records[k], resource, scope)
  {
    FlatMapConcat(ResourceEntries, a, b);
    FlatMapConcat(ScopeEntries(resource), x, y);
    FlatMapOne(ResourceEntries, ResourceLogs(resource, x + y));
    FlatMapOne(ResourceEntries, ResourceLogs(resource, x));
    FlatMapOne(ResourceEntries, ResourceLogs(resource, y));
    FlatMapOne(ResourceEntries, ResourceLogs(resource, [ScopeLogs(scope, records)]));
    FlatMapOne(ScopeEntries(resource), ScopeLogs(scope, records));
  }

  lemma FlattenAlone(ld: seq<ResourceLogs>, e: Entry)
    ensures Flatten(ld + [Alone(e)]) == Flatten(ld) + [e]
  {
    assert (ld + [Alone(e)])[..|ld|] == ld;
    var scopes := Alone(e).scopes;
    assert scopes[..0] == [];
    assert FlatMap(ScopeEntries(e.resource), scopes) == ScopeEntries(e.resource)(scopes[0]) == [e];
  }

  lemma FlatMapSnoc<S, T>(f: S -> seq<T>, s: seq<S>, i: nat)
    requires i < |s|
    ensures FlatMap(f, s[..i + 1]) == FlatMap(f, s[..i]) + f(s[i])
  {
    assert s[..i + 1][..i] == s[..i];
  }

  lemma OneMore<T>(done: seq<T>, s: seq<T>, k: nat)
    requires k < |s|
    ensures done + s[..k + 1] == done + s[..k] + [s[k]]
  {
  }

  class LogProcessor {
    const config: Config
    var currentP: real
    var processingCount: nat
    var rejectedCount: nat

    constructor (config: Config, initial: real)
      ensures this.config == config && currentP == initial && processingCount == 0 && rejectedCount == 0
    {
      this.config, currentP, processingCount, rejectedCount := config, initial, 0, 0;
    }

    method CheckCriticalLogPatterns(e: Entry) returns (critical: bool)
      ensures critical == IsCritical(config, e)
    {
      for i := 0 to |config.criticals|
        invariant forall j :: 0 <= j < i ==> !Hits(config, e, config.criticals[j].field, config.criticals[j].pattern)
      {
        var text := GetField(e, config.criticals[i].field);
        if text.None? {
          continue;
        }
        if config.matches(config.criticals[i].pattern, text.value) {
          assert Hits(config, e, config.criticals[i].field, config.criticals[i].pattern);
          return true;
        }
      }
      return false;
    }

    method CheckContentFilters(e: Entry) returns (filter: Option<ContentFilter>)
      ensures var i := FirstHit(config, e, config.filters);
        filter == if i == |config.filters| then None else Some(config.filters[i])
    {
      for i := 0 to |config.filters|
        invariant forall j :: 0 <= j < i ==> !FilterHits(config, e, config.filters[j])
      {
        var f := config.filters[i];
        var text := GetField(e, f.field);
        if text.None? {
          continue;
        }
        if config.matches(f.pattern, text.value) {
          assert FilterHits(config, e, f);
          return Some(f);
        }
      }
      return None;
    }

    method Decide(e: Entry, random: string) returns (keep: bool)
      requires random != ""
      ensures keep == Keep(config, e, currentP, random)
    {
      var critical := CheckCriticalLogPatterns(e);
      if critical {
        return true;
      }
      if |config.filters| > 0 {
        var filter := CheckContentFilters(e);
        if filter.Some? {
          match filter.value.action {
            case Include => return true;
            case Exclude => return false;
            case UseProbability =>
              var id := CreateRecordId(e, config.fields, random);
              return Sampled(config, id, filter.value.probability);
          }
        }
      }
      var id := CreateRecordId(e, config.fields, random);
      keep := Sampled(config, id, currentP);
    }

    /** A record that is kept comes out alone under its own copy of resource and scope. */
    method SampleRecord(e: Entry, index: nat, random: nat -> string,
                        sampled: seq<ResourceLogs>, ghost done: seq<Entry>)
      returns (out: seq<ResourceLogs>)
      requires index == |done| && Flatten(sampled) == Kept(config, currentP, done, random)
      requires random(index) != ""
      ensures Flatten(out) == Kept(config, currentP, done + [e], random)
    {
      var keep := Decide(e, random(index));
      out := sampled;
      if keep {
        FlattenAlone(sampled, e);
        out := sampled + [Alone(e)];
      }
    }

    method SampleScope(resource: Attributes, sl: ScopeLogs, index: nat, random: nat -> string,
                       sampled: seq<ResourceLogs>, ghost done: seq<Entry>)
      returns (out: seq<ResourceLogs>)
      requires index == |done| && Flatten(sampled) == Kept(config, currentP, done, random)
      requires forall i :: random(i) != ""
      ensures Flatten(out) == Kept(config, currentP, done + ScopeEntries(resource)(sl), random)
    {
      out := sampled;
      ghost var entries := ScopeEntries(resource)(sl);
      ghost var sofar := done;
      for k := 0 to |sl.records|
        invariant sofar == done + entries[..k]
        invariant Flatten(out) == Kept(config, currentP, sofar, random)
      {
        var e := Entry(sl.records[k], resource, sl.scope);
        out := SampleRecord(e, index + k, random, out, sofar);
        OneMore(done, entries, k);
        sofar := sofar + [e];
      }
      assert entries[..|sl.records|] == entries;
    }

    method SampleResource(rl: ResourceLogs, index: nat, random: nat -> string,
                          sampled: seq<ResourceLogs>, ghost done: seq<Entry>)
      returns (out: seq<ResourceLogs>, next: nat)
      requires index == |done| && Flatten(sampled) == Kept(config, currentP, done, random)
      requires forall i :: random(i) != ""
      ensures Flatten(out) == Kept(config, currentP, done + ResourceEntries(rl), random)
      ensures next == index + |ResourceEntries(rl)|
    {
      out, next := sampled, index;
      ghost var sofar := done;
      for j := 0 to |rl.scopes|
        invariant sofar == done + FlatMap(ScopeEntries(rl.resource), rl.scopes[..j])
        invariant next == |sofar|
        invariant Flatten(out) == Kept(config, currentP, sofar, random)
      {
        FlatMapSnoc(ScopeEntries(rl.resource), rl.scopes, j);
        ghost var entries := ScopeEntries(rl.resource)(rl.scopes[j]);
        Associative(done, FlatMap(ScopeEntries(rl.resource), rl.scopes[..j]), entries);
        out := SampleScope(rl.resource, rl.scopes[j], next, random, out, sofar);
        next := next + |rl.scopes[j].records|;
        sofar := sofar + entries;
      }
      assert rl.scopes[..|rl.scopes|] == rl.scopes;
    }

    /** Sampling a batch: the records kept come out in order with their resource and scope,
        and every record is counted as processed and, unless kept, as rejected. */
    method ProcessLogs(ld: seq<ResourceLogs>, random: nat -> string) returns (out: seq<ResourceLogs>)
      requires forall i :: random(i) != ""
      requires forall id :: config.hash(id) < Words.WORD
      modifies this
      ensures currentP == old(currentP)
      ensures Flatten(out) == Kept(config, currentP, Flatten(ld), random)
      ensures processingCount == old(processingCount) + |Flatten(ld)|
      ensures rejectedCount == old(rejectedCount) + |Flatten(ld)| - |Flatten(out)|
    {
      var total := CountLogRecords(ld);
      processingCount := processingCount + total;
      if currentP >= 1.0 && |config.filters| == 0 {
        FastPathKeepsAll(config, currentP, Flatten(ld), random);
        return ld;
      }
      out := [];
      var index := 0;
      for i := 0 to |ld|
        invariant currentP == old(currentP) && rejectedCount == old(rejectedCount)
        invariant processingCount == old(processingCount) + |Flatten(ld)|
        invariant index == |Flatten(ld[..i])|
        invariant Flatten(out) == Kept(config, currentP, Flatten(ld[..i]), random)
      {
        FlatMapSnoc(ResourceEntries, ld, i);
        out, index := SampleResource(ld[i], index, random, out, Flatten(ld[..i]));
      }
      assert ld[..|ld|] == ld;
      var sampledCount := CountLogRecords(out);
      ChooseShorter(Keeper(config, currentP, random), Flatten(ld));
      if total - sampledCount > 0 {
        rejectedCount := rejectedCount + (total - sampledCount);
      }
    }
  }

  method CountScopes(rl: ResourceLogs) returns (count: nat)
    ensures count == |ResourceEntries(rl)|
  {
    count := 0;
    for j := 0 to |rl.scopes|
      invariant count == |FlatMap(ScopeEntries(rl.resource), rl.scopes[..j])|
    {
      FlatMapSnoc(ScopeEntries(rl.resource), rl.scopes, j);
      count := count + |rl.scopes[j].records|;
    }
    assert rl.scopes[..|rl.scopes|] == rl.scopes;
  }

  method CountLogRecords(ld: seq<ResourceLogs>) returns (count: nat)
    ensures count == |Flatten(ld)|
  {
    count := 0;
    for i := 0 to |ld|
      invariant count == |Flatten(ld[..i])|
    {
      FlatMapSnoc(ResourceEntries, ld, i);
      var inner := CountScopes(ld[i]);
      count := count + inner;
    }
    assert ld[..|ld|] == ld;
  }
}
