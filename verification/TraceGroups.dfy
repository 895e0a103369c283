/** Turning a trace buffer into resource/scope groups.  Spans are grouped by a text key made
    of the scope name, the scope version and the rendered resource attributes, one after the
    other with nothing in between.

    `render` stands for the text form of a resource's attributes. */
module TraceGroups {
  import opened Choices
  import opened Seqs
  import opened Telemetry

  type Render = Resource -> string

  datatype Group = Group(resource: Resource, scope: Scope, spans: seq<Span>)

  function Key(render: Render, resource: Resource, scope: Scope): string {
    scope.name + scope.version + render(resource)
  }

  function KeyOf(render: Render, s: SpanInContext): string {
    Key(render, s.resource, s.scope)
  }

  /** The distinct keys in the order in which they are first seen. */
  function FirstSeen(render: Render, spans: seq<SpanInContext>): seq<string> {
    if spans == [] then []
    else
      var before := FirstSeen(render, spans[..|spans| - 1]);
      var key := KeyOf(render, spans[|spans| - 1]);
      if key in before then before else before + [key]
  }

  function HasKey(render: Render, key: string): (nat, SpanInContext) -> bool {
    (i: nat, s: SpanInContext) => KeyOf(render, s) == key
  }

  /** The spans with a given key, in their original order and with their own context. */
  function WithKey(render: Render, spans: seq<SpanInContext>, key: string): seq<SpanInContext> {
    Choose(HasKey(render, key), spans)
  }

  /** Spans without their context. */
  function Plain(spans: seq<SpanInContext>): seq<Span> {
    Map((s: SpanInContext) => s.span, spans)
  }

  function FirstWithKey(render: Render, spans: seq<SpanInContext>, key: string): SpanInContext
    requires key in FirstSeen(render, spans)
  {
    if key in FirstSeen(render, spans[..|spans| - 1]) then FirstWithKey(render, spans[..|spans| - 1], key)
    else spans[|spans| - 1]
  }

  function GroupOf(render: Render, spans: seq<SpanInContext>, key: string): Group
    requires key in FirstSeen(render, spans)
  {
    var first := FirstWithKey(render, spans, key);
    Group(first.resource, first.scope, Plain(WithKey(render, spans, key)))
  }

  /** One group per distinct key, in first-seen order, holding the spans of that key in their
      original order under the resource and scope of the first of them. */
  function GroupsOf(render: Render, spans: seq<SpanInContext>): seq<Group> {
    var keys := FirstSeen(render, spans);
    seq(|keys|, i requires 0 <= i < |keys| => GroupOf(render, spans, keys[i]))
  }

  /** The spans of a unit in the order in which the grouped unit lists them. */
  function Grouped(render: Render, spans: seq<SpanInContext>): seq<SpanInContext> {
    FlattenLabelled(GroupsOf(render, spans))
  }

  lemma {:induction false} FirstSeenFacts(render: Render, spans: seq<SpanInContext>)
    ensures forall s :: s in spans ==> KeyOf(render, s) in FirstSeen(render, spans)
    ensures forall i, j :: 0 <= i < j < |FirstSeen(render, spans)| ==>
      FirstSeen(render, spans)[i] != FirstSeen(render, spans)[j]
    ensures forall key :: key in FirstSeen(render, spans) ==>
      FirstWithKey(render, spans, key) in spans && KeyOf(render, FirstWithKey(render, spans, key)) == key
    ensures forall key :: key !in FirstSeen(render, spans) ==> WithKey(render, spans, key) == []
  {
    if spans == [] {
    } else {
      var n := |spans| - 1;
      FirstSeenFacts(render, spans[..n]);
      assert spans == spans[..n] + [spans[n]];
    }
  }

  // ----- the loop -----

  /** A span leaves the groups of other keys as they are. */
  lemma OtherGroup(render: Render, before: seq<SpanInContext>, s: SpanInContext, other: string)
    requires other in FirstSeen(render, before) && other != KeyOf(render, s)
    ensures other in FirstSeen(render, before + [s])
    ensures GroupOf(render, before + [s], other) == GroupOf(render, before, other)
  {
    assert (before + [s])[..|before|] == before;
    assert WithKey(render, before + [s], other) == WithKey(render, before, other) + [];
  }

  lemma NewGroup(render: Render, before: seq<SpanInContext>, s: SpanInContext)
    requires KeyOf(render, s) !in FirstSeen(render, before)
    ensures FirstSeen(render, before + [s]) == FirstSeen(render, before) + [KeyOf(render, s)]
    ensures GroupOf(render, before + [s], KeyOf(render, s)) == Group(s.resource, s.scope, [s.span])
  {
    assert (before + [s])[..|before|] == before;
    FirstSeenFacts(render, before);
    assert WithKey(render, before + [s], KeyOf(render, s)) == [] + [s];
    assert Plain([s]) == [s.span];
  }

  lemma NewKeyStep(render: Render, before: seq<SpanInContext>, s: SpanInContext, groups: seq<Group>)
    requires groups == GroupsOf(render, before)
    requires KeyOf(render, s) !in FirstSeen(render, before)
    ensures GroupsOf(render, before + [s]) == groups + [Group(s.resource, s.scope, [s.span])]
  {
    NewGroup(render, before, s);
    var keys := FirstSeen(render, before);
    forall i | 0 <= i < |keys| ensures GroupsOf(render, before + [s])[i] == groups[i] {
      OtherGroup(render, before, s, keys[i]);
    }
  }

  lemma OldGroup(render: Render, before: seq<SpanInContext>, s: SpanInContext)
    requires KeyOf(render, s) in FirstSeen(render, before)
    ensures FirstSeen(render, before + [s]) == FirstSeen(render, before)
    ensures var g := GroupOf(render, before, KeyOf(render, s));
      GroupOf(render, before + [s], KeyOf(render, s)) == g.(spans := g.spans + [s.span])
  {
    assert (before + [s])[..|before|] == before;
    var same := WithKey(render, before, KeyOf(render, s));
    assert WithKey(render, before + [s], KeyOf(render, s)) == same + [s];
    MapConcat((x: SpanInContext) => x.span, same, [s]);
    assert Plain(same + [s]) == Plain(same) + [s.span];
  }

  lemma OldKeyStep(render: Render, before: seq<SpanInContext>, s: SpanInContext, groups: seq<Group>, at: nat)
    requires groups == GroupsOf(render, before)
    requires at < |groups| && FirstSeen(render, before)[at] == KeyOf(render, s)
    ensures GroupsOf(render, before + [s]) == groups[at := groups[at].(spans := groups[at].spans + [s.span])]
  {
    OldGroup(render, before, s);
    FirstSeenFacts(render, before);
    var keys := FirstSeen(render, before);
    forall i | 0 <= i < |keys| && i != at ensures GroupsOf(render, before + [s])[i] == groups[i] {
      OtherGroup(render, before, s, keys[i]);
    }
  }

  /** Groups the spans of a trace buffer, remembering for each key the place of its group. */
  method ToTraces(render: Render, spans: seq<SpanInContext>) returns (groups: seq<Group>)
    ensures groups == GroupsOf(render, spans) && IsStableGrouping(render, spans, groups)
  {
    groups := [];
    var place: map<string, nat> := map[];
    for n := 0 to |spans|
      invariant groups == GroupsOf(render, spans[..n])
      invariant forall key :: key in place <==> key in FirstSeen(render, spans[..n])
      invariant forall key :: key in place ==>
        place[key] < |FirstSeen(render, spans[..n])| && FirstSeen(render, spans[..n])[place[key]] == key
    {
      var s := spans[n];
      var key := KeyOf(render, s);
      assert spans[..n + 1] == spans[..n] + [s] && spans[..n + 1][..n] == spans[..n];
      if key !in place {
        NewKeyStep(render, spans[..n], s, groups);
        place := place[key := |groups|];
        groups := groups + [Group(s.resource, s.scope, [s.span])];
      } else {
        var at := place[key];
        OldKeyStep(render, spans[..n], s, groups, at);
        groups := groups[at := groups[at].(spans := groups[at].spans + [s.span])];
      }
    }
    assert spans[..|spans|] == spans;
    StableGroupingUnique(render, spans, groups);
  }

  // ----- what the grouping preserves -----

  function Flatten(groups: seq<Group>): seq<Span> {
    if groups == [] then [] else groups[0].spans + Flatten(groups[1..])
  }

  /** A group's spans, each under the group's resource and scope. */
  function Labelled(g: Group): (labelled: seq<SpanInContext>)
    ensures |labelled| == |g.spans|
    ensures forall i :: 0 <= i < |labelled| ==> labelled[i] == SpanInContext(g.spans[i], g.resource, g.scope)
  {
    seq(|g.spans|, i requires 0 <= i < |g.spans| => SpanInContext(g.spans[i], g.resource, g.scope))
  }

  /** The spans of all groups, each under its group's resource and scope, in group order. */
  function FlattenLabelled(groups: seq<Group>): seq<SpanInContext> {
    if groups == [] then [] else Labelled(groups[0]) + FlattenLabelled(groups[1..])
  }

  lemma {:induction false} FlattenLabelledSnoc(groups: seq<Group>, g: Group)
    ensures FlattenLabelled(groups + [g]) == FlattenLabelled(groups) + Labelled(g)
  {
    if groups == [] {
      assert [] + [g] == [g] && [g][1..] == [];
    } else {
      FlattenLabelledSnoc(groups[1..], g);
      assert (groups + [g])[1..] == groups[1..] + [g];
    }
  }

  /** The spans of each key in turn. */
  function ByKey(render: Render, spans: seq<SpanInContext>, keys: seq<string>): seq<SpanInContext> {
    if keys == [] then [] else WithKey(render, spans, keys[0]) + ByKey(render, spans, keys[1..])
  }

  lemma {:induction false} ByKeyStep(
    render: Render, spans: seq<SpanInContext>, s: SpanInContext, keys: seq<string>)
    requires forall i, j :: 0 <= i < j < |keys| ==> keys[i] != keys[j]
    ensures multiset(ByKey(render, spans + [s], keys))
         == multiset(ByKey(render, spans, keys)) + if KeyOf(render, s) in keys then multiset{s} else multiset{}
  {
    assert (spans + [s])[..|spans|] == spans;
    if keys == [] {
    } else {
      ByKeyStep(render, spans, s, keys[1..]);
      assert keys == [keys[0]] + keys[1..];
    }
  }

  lemma {:induction false} ByKeyAppend(
    render: Render, spans: seq<SpanInContext>, keys: seq<string>, key: string)
    ensures ByKey(render, spans, keys + [key]) == ByKey(render, spans, keys) + WithKey(render, spans, key)
  {
    if keys == [] {
      assert [] + [key] == [key];
    } else {
      ByKeyAppend(render, spans, keys[1..], key);
      assert (keys + [key])[1..] == keys[1..] + [key];
    }
  }

  lemma {:induction false} ByKeyIsPermutation(render: Render, spans: seq<SpanInContext>)
    ensures multiset(ByKey(render, spans, FirstSeen(render, spans))) == multiset(spans)
  {
    if spans == [] {
    } else {
      var n := |spans| - 1;
      var before, s := spans[..n], spans[n];
      var keys, key := FirstSeen(render, before), KeyOf(render, spans[n]);
      assert spans == before + [s];
      ByKeyIsPermutation(render, before);
      FirstSeenFacts(render, before);
      ByKeyStep(render, before, s, keys);
      if key !in keys {
        ByKeyAppend(render, spans, keys, key);
        assert WithKey(render, spans, key) == [] + [s];
      }
    }
  }

  lemma {:induction false} FlattenIsByKey(
    render: Render, spans: seq<SpanInContext>, keys: seq<string>, groups: seq<Group>)
    requires |groups| == |keys|
    requires forall i :: 0 <= i < |groups| ==> groups[i].spans == Plain(WithKey(render, spans, keys[i]))
    ensures Flatten(groups) == Plain(ByKey(render, spans, keys))
  {
    if groups == [] {
    } else {
      FlattenIsByKey(render, spans, keys[1..], groups[1..]);
      MapConcat((s: SpanInContext) => s.span, WithKey(render, spans, keys[0]), ByKey(render, spans, keys[1..]));
    }
  }

  /** No span is lost, added or doubled: the grouped spans are a permutation of the buffered ones. */
  lemma GroupingIsPermutation(render: Render, spans: seq<SpanInContext>, groups: seq<Group>)
    requires groups == GroupsOf(render, spans)
    ensures multiset(Flatten(groups)) == multiset(Plain(spans))
  {
    var keys := FirstSeen(render, spans);
    FlattenIsByKey(render, spans, keys, groups);
    ByKeyIsPermutation(render, spans);
    MapPermutation((s: SpanInContext) => s.span, ByKey(render, spans, keys), spans);
  }

  // ----- when each span keeps its own resource and scope -----

  ghost predicate KeysIdentify(render: Render, spans: seq<SpanInContext>) {
    forall s, t :: s in spans && t in spans && KeyOf(render, s) == KeyOf(render, t) ==>
      s.resource == t.resource && s.scope == t.scope
  }

  lemma {:induction false} WithKeyMembers(render: Render, spans: seq<SpanInContext>, key: string)
    ensures forall s :: s in WithKey(render, spans, key) <==> s in spans && KeyOf(render, s) == key
  {
    if spans == [] {
    } else {
      var n := |spans| - 1;
      WithKeyMembers(render, spans[..n], key);
      assert spans == spans[..n] + [spans[n]];
    }
  }

  lemma {:induction false} LabelledIsByKey(
    render: Render, spans: seq<SpanInContext>, keys: seq<string>, groups: seq<Group>)
    requires |groups| == |keys|
    requires forall i :: 0 <= i < |groups| ==> Labelled(groups[i]) == WithKey(render, spans, keys[i])
    ensures FlattenLabelled(groups) == ByKey(render, spans, keys)
  {
    if groups == [] {
    } else {
      LabelledIsByKey(render, spans, keys[1..], groups[1..]);
    }
  }

  lemma {:induction false} LabelledContext(groups: seq<Group>, x: SpanInContext)
    requires x in FlattenLabelled(groups)
    ensures exists i :: 0 <= i < |groups| && groups[i].resource == x.resource && groups[i].scope == x.scope
  {
    if x in Labelled(groups[0]) {
    } else {
      LabelledContext(groups[1..], x);
      var i :| 0 <= i < |groups[1..]| && groups[1..][i].resource == x.resource && groups[1..][i].scope == x.scope;
      assert groups[i + 1] == groups[1..][i];
    }
  }

  /** A span whose context differs from the first span's of the same key is mislabelled. */
  lemma OddOneOutIsMislabelled(render: Render, spans: seq<SpanInContext>, groups: seq<Group>, x: SpanInContext)
    requires groups == GroupsOf(render, spans)
    requires x in spans && KeyOf(render, x) in FirstSeen(render, spans)
    requires var first := FirstWithKey(render, spans, KeyOf(render, x));
      first.resource != x.resource || first.scope != x.scope
    ensures x !in FlattenLabelled(groups)
  {
    FirstSeenFacts(render, spans);
    if x in FlattenLabelled(groups) {
      LabelledContext(groups, x);
    }
  }

  /** Every span keeps its own resource and scope if and only if the text key tells apart the
      contexts that occur in the buffer. */
  lemma ContextKeptIff(render: Render, spans: seq<SpanInContext>, groups: seq<Group>)
    requires groups == GroupsOf(render, spans)
    ensures multiset(FlattenLabelled(groups)) == multiset(spans) <==> KeysIdentify(render, spans)
  {
    var keys := FirstSeen(render, spans);
    FirstSeenFacts(render, spans);
    if KeysIdentify(render, spans) {
      forall i | 0 <= i < |groups| ensures Labelled(groups[i]) == WithKey(render, spans, keys[i]) {
        WithKeyMembers(render, spans, keys[i]);
        assert FirstWithKey(render, spans, keys[i]) in spans;
      }
      LabelledIsByKey(render, spans, keys, groups);
      ByKeyIsPermutation(render, spans);
    } else {
      var s, t :| s in spans && t in spans && KeyOf(render, s) == KeyOf(render, t)
        && !(s.resource == t.resource && s.scope == t.scope);
      var first := FirstWithKey(render, spans, KeyOf(render, s));
      var x := if first.resource != s.resource || first.scope != s.scope then s else t;
      OddOneOutIsMislabelled(render, spans, groups, x);
      assert x in multiset(spans);
    }
  }

  lemma SameTail(a: string, x: string, y: string)
    requires a + x == a + y
    ensures x == y
  {
    assert x == (a + x)[|a|..] && y == (a + y)[|a|..];
  }

  lemma SameHead(x: string, y: string, a: string)
    requires x + a == y + a
    ensures x == y
  {
    assert |x| == |y|;
    assert x == (x + a)[..|x|] && y == (y + a)[..|y|];
  }

  /** With one scope throughout, every span keeps its context if the rendering tells the
      occurring resources apart. */
  lemma ContextKeptWithOneScope(render: Render, spans: seq<SpanInContext>)
    requires forall s, t :: s in spans && t in spans ==> s.scope == t.scope
    requires forall s, t :: s in spans && t in spans ==>
      (render(s.resource) == render(t.resource) ==> s.resource == t.resource)
    ensures multiset(Grouped(render, spans)) == multiset(spans)
  {
    forall s, t | s in spans && t in spans && KeyOf(render, s) == KeyOf(render, t)
      ensures s.resource == t.resource && s.scope == t.scope
    {
      SameTail(s.scope.name + s.scope.version, render(s.resource), render(t.resource));
    }
    ContextKeptIff(render, spans, GroupsOf(render, spans));
  }

  /** With one resource throughout, it does if name and version, joined, tell the scopes apart. */
  lemma ContextKeptWithOneResource(render: Render, spans: seq<SpanInContext>)
    requires forall s, t :: s in spans && t in spans ==> s.resource == t.resource
    requires forall s, t :: s in spans && t in spans ==>
      (s.scope.name + s.scope.version == t.scope.name + t.scope.version ==> s.scope == t.scope)
    ensures multiset(Grouped(render, spans)) == multiset(spans)
  {
    forall s, t | s in spans && t in spans && KeyOf(render, s) == KeyOf(render, t)
      ensures s.resource == t.resource && s.scope == t.scope
    {
      SameHead(s.scope.name + s.scope.version, t.scope.name + t.scope.version, render(s.resource));
    }
    ContextKeptIff(render, spans, GroupsOf(render, spans));
  }

  // ----- which group a span goes to -----

  /** The place of the group that holds the spans with the key of the p-th span. */
  function PlaceOf(render: Render, spans: seq<SpanInContext>, p: nat): (i: nat)
    requires p < |spans|
    ensures i < |FirstSeen(render, spans)| && FirstSeen(render, spans)[i] == KeyOf(render, spans[p])
  {
    FirstSeenFacts(render, spans);
    var i: nat :| i < |FirstSeen(render, spans)| && FirstSeen(render, spans)[i] == KeyOf(render, spans[p]);
    i
  }

  ghost function GoesTo(render: Render, spans: seq<SpanInContext>, i: nat): (nat, SpanInContext) -> bool {
    (p: nat, s: SpanInContext) => p < |spans| && PlaceOf(render, spans, p) == i
  }

  /** Each group holds exactly the spans that go to it, in their order. */
  lemma GroupHoldsItsPlace(render: Render, spans: seq<SpanInContext>, i: nat)
    requires i < |GroupsOf(render, spans)|
    ensures GroupsOf(render, spans)[i].spans == Plain(Choose(GoesTo(render, spans, i), spans))
  {
    var keys := FirstSeen(render, spans);
    FirstSeenFacts(render, spans);
    forall p | 0 <= p < |spans|
      ensures HasKey(render, keys[i])(p, spans[p]) == GoesTo(render, spans, i)(p, spans[p])
    {
      var j := PlaceOf(render, spans, p);
      assert j != i ==> keys[j] != keys[i];
    }
    ChooseSame(HasKey(render, keys[i]), GoesTo(render, spans, i), spans);
  }

  /** Two spans of one scope name and version whose resources render differently go to different
      groups, and so do two of one rendering whose scope texts differ. */
  lemma DifferentContextsPartWays(render: Render, spans: seq<SpanInContext>, p: nat, q: nat)
    requires p < |spans| && q < |spans|
    requires var s, t := spans[p], spans[q];
      || (s.scope.name == t.scope.name && s.scope.version == t.scope.version
          && render(s.resource) != render(t.resource))
      || (render(s.resource) == render(t.resource)
          && s.scope.name + s.scope.version != t.scope.name + t.scope.version)
    ensures PlaceOf(render, spans, p) != PlaceOf(render, spans, q)
  {
    var s, t := spans[p], spans[q];
    if KeyOf(render, s) == KeyOf(render, t) {
      if render(s.resource) == render(t.resource) {
        SameHead(s.scope.name + s.scope.version, t.scope.name + t.scope.version, render(s.resource));
      } else {
        SameTail(s.scope.name + s.scope.version, render(s.resource), render(t.resource));
      }
    }
  }

  /** Of two spans with one key and different contexts the second is filed under the first's. */
  lemma SecondIsMislabelled(render: Render, a: SpanInContext, b: SpanInContext)
    requires KeyOf(render, a) == KeyOf(render, b) && (a.resource != b.resource || a.scope != b.scope)
    ensures b !in Grouped(render, [a, b])
  {
    var spans := [a, b];
    assert spans[..1] == [a] && spans[..1][..0] == [];
    FirstSeenFacts(render, spans[..1]);
    assert a in spans[..1];
    assert FirstWithKey(render, spans[..1], KeyOf(render, a)) == a;
    OddOneOutIsMislabelled(render, spans, GroupsOf(render, spans), b);
  }

  /** The key is not always injective: a name ending where a version begins is enough to file
      one span under another's scope, whatever the rendering. */
  lemma JoinedKeyCanMislabel(render: Render, span: Span, resource: Resource, attributes: map<string, string>)
    ensures var a := SpanInContext(span, resource, Scope("lib1", "2", attributes));
      var b := SpanInContext(span, resource, Scope("lib", "12", attributes));
      b !in Grouped(render, [a, b])
  {
    assert "lib1" + "2" == "lib" + "12";
    SecondIsMislabelled(render, SpanInContext(span, resource, Scope("lib1", "2", attributes)),
                        SpanInContext(span, resource, Scope("lib", "12", attributes)));
  }

  /** Nor does it see the attributes of a scope: of two scopes that differ only there, the
      second loses its own. */
  lemma ScopeAttributesCanBeLost(render: Render, a: SpanInContext, attributes: map<string, string>)
    requires attributes != a.scope.attributes
    ensures var b := a.(scope := a.scope.(attributes := attributes)); b !in Grouped(render, [a, b])
  {
    SecondIsMislabelled(render, a, a.(scope := a.scope.(attributes := attributes)));
  }

  // ----- the grouping said without reference to how it is computed -----

  /** No earlier span has the same key. */
  ghost predicate Leads(render: Render, spans: seq<SpanInContext>, p: nat) {
    p < |spans| && forall q :: 0 <= q < p ==> KeyOf(render, spans[q]) != KeyOf(render, spans[p])
  }

  /** These places, in increasing order, are exactly those with the property. */
  ghost predicate Lists(places: seq<nat>, property: nat -> bool) {
    Increasing(places) && forall p: nat :: p in places <==> property(p)
  }

  ghost function Leading(render: Render, spans: seq<SpanInContext>): nat -> bool {
    (p: nat) => Leads(render, spans, p)
  }

  ghost function SameKey(render: Render, spans: seq<SpanInContext>, p: nat): nat -> bool
    requires p < |spans|
  {
    (q: nat) => q < |spans| && KeyOf(render, spans[q]) == KeyOf(render, spans[p])
  }

  /** The group holds the spans at these places under the context of the leading span. */
  ghost predicate Holds(spans: seq<SpanInContext>, p: nat, members: seq<nat>, g: Group) {
    && p < |spans| && g.resource == spans[p].resource && g.scope == spans[p].scope
    && |g.spans| == |members|
    && forall k :: 0 <= k < |members| ==> members[k] < |spans| && g.spans[k] == spans[members[k]].span
  }

  ghost predicate GroupLedBy(render: Render, spans: seq<SpanInContext>, p: nat, g: Group) {
    p < |spans| && exists members :: Lists(members, SameKey(render, spans, p)) && Holds(spans, p, members, g)
  }

  /** A stable grouping: a group for each span that is the first with its key, in the order of
      these spans, each with all spans of the key in their order. */
  ghost predicate IsStableGrouping(render: Render, spans: seq<SpanInContext>, groups: seq<Group>) {
    exists leaders :: Lists(leaders, Leading(render, spans)) && |leaders| == |groups|
      && forall i :: 0 <= i < |groups| ==> GroupLedBy(render, spans, leaders[i], groups[i])
  }

  lemma {:induction false} ListsUnique(a: seq<nat>, b: seq<nat>, property: nat -> bool)
    requires Lists(a, property) && Lists(b, property)
    ensures a == b
  {
    IncreasingUnique(a, b);
  }

  lemma {:induction false} IncreasingUnique(a: seq<nat>, b: seq<nat>)
    requires Increasing(a) && Increasing(b) && forall p: nat :: p in a <==> p in b
    ensures a == b
  {
    assert a != [] ==> a[0] in b;
    assert b != [] ==> b[0] in a;
    if a == [] {
    } else {
      var m, n := |a| - 1, |b| - 1;
      assert a[m] in b && b[n] in a;
      assert a[m] == b[n];
      forall p: nat ensures p in a[..m] <==> p in b[..n] {
        assert p in a[..m] <==> p in a && p != a[m];
        assert p in b[..n] <==> p in b && p != b[n];
      }
      IncreasingUnique(a[..m], b[..n]);
      assert a == a[..m] + [a[m]] && b == b[..n] + [b[n]];
    }
  }

  /** The span at p is the first with the i-th key. */
  ghost predicate LeaderAt(render: Render, spans: seq<SpanInContext>, p: nat, i: nat) {
    p < |spans| && i < |FirstSeen(render, spans)|
    && FirstSeen(render, spans)[i] == KeyOf(render, spans[p])
    && FirstWithKey(render, spans, FirstSeen(render, spans)[i]) == spans[p]
  }

  /** The first-seen keys are those of the leading spans. */
  lemma {:induction false} LeadersOf(render: Render, spans: seq<SpanInContext>) returns (leaders: seq<nat>)
    ensures Lists(leaders, Leading(render, spans)) && |leaders| == |FirstSeen(render, spans)|
    ensures forall i :: 0 <= i < |leaders| ==> LeaderAt(render, spans, leaders[i], i)
  {
    if spans == [] {
      leaders := [];
    } else {
      var n := |spans| - 1;
      var before := LeadersOf(render, spans[..n]);
      FirstSeenFacts(render, spans[..n]);
      var key := KeyOf(render, spans[n]);
      leaders := if key in FirstSeen(render, spans[..n]) then before else before + [n];
      ListsStep(render, spans, before, leaders);
      forall i | 0 <= i < |leaders| ensures LeaderAt(render, spans, leaders[i], i) {
        assert i < |before| ==> LeaderAt(render, spans[..n], before[i], i);
      }
    }
  }

  lemma ListsStep(render: Render, spans: seq<SpanInContext>, before: seq<nat>, leaders: seq<nat>)
    requires spans != [] && Lists(before, Leading(render, spans[..|spans| - 1]))
    requires var n := |spans| - 1;
      leaders == if KeyOf(render, spans[n]) in FirstSeen(render, spans[..n]) then before else before + [n]
    ensures Lists(leaders, Leading(render, spans))
  {
    var n := |spans| - 1;
    LastLeads(render, spans);
    forall i | 0 <= i < |before| ensures before[i] < n {
      assert before[i] in before && Leading(render, spans[..n])(before[i]);
    }
    assert Increasing(before + [n]);
    forall p: nat ensures p in leaders <==> Leading(render, spans)(p) {
      assert p < n ==> Leads(render, spans[..n], p) == Leads(render, spans, p);
      assert p in before <==> Leading(render, spans[..n])(p);
      assert p in before + [n] <==> p in before || p == n;
    }
  }

  lemma LastLeads(render: Render, spans: seq<SpanInContext>)
    requires spans != []
    ensures var n := |spans| - 1;
      Leads(render, spans, n) <==> KeyOf(render, spans[n]) !in FirstSeen(render, spans[..n])
  {
    var n := |spans| - 1;
    FirstSeenFacts(render, spans[..n]);
    var key := KeyOf(render, spans[n]);
    if key in FirstSeen(render, spans[..n]) {
      var s := FirstWithKey(render, spans[..n], key);
      var q :| 0 <= q < n && spans[..n][q] == s;
    } else {
      forall q | 0 <= q < n ensures KeyOf(render, spans[q]) != key {
        assert spans[q] in spans[..n];
      }
    }
  }

  /** The spans chosen for a key stand at exactly the places with that key. */
  lemma MembersOf(render: Render, spans: seq<SpanInContext>, p: nat) returns (members: seq<nat>)
    requires p < |spans|
    ensures Lists(members, SameKey(render, spans, p))
    ensures var kept := WithKey(render, spans, KeyOf(render, spans[p]));
      |members| == |kept| && forall k :: 0 <= k < |members| ==> members[k] < |spans| && kept[k] == spans[members[k]]
  {
    members := ChooseExact(HasKey(render, KeyOf(render, spans[p])), spans);
  }

  /** The loop's grouping is stable, and no other is. */
  lemma StableGroupingUnique(render: Render, spans: seq<SpanInContext>, groups: seq<Group>)
    ensures IsStableGrouping(render, spans, groups) <==> groups == GroupsOf(render, spans)
  {
    var leaders := LeadersOf(render, spans);
    var keys := FirstSeen(render, spans);
    forall i, g | 0 <= i < |leaders|
      ensures GroupLedBy(render, spans, leaders[i], g) <==> g == GroupOf(render, spans, keys[i])
    {
      OneGroup(render, spans, leaders[i], g);
    }
    if IsStableGrouping(render, spans, groups) {
      var others :| Lists(others, Leading(render, spans)) && |others| == |groups|
        && forall i :: 0 <= i < |groups| ==> GroupLedBy(render, spans, others[i], groups[i]);
      ListsUnique(leaders, others, Leading(render, spans));
    }
  }

  lemma OneGroup(render: Render, spans: seq<SpanInContext>, p: nat, g: Group)
    requires p < |spans| && KeyOf(render, spans[p]) in FirstSeen(render, spans)
    requires FirstWithKey(render, spans, KeyOf(render, spans[p])) == spans[p]
    ensures GroupLedBy(render, spans, p, g) <==> g == GroupOf(render, spans, KeyOf(render, spans[p]))
  {
    var members := MembersOf(render, spans, p);
    if GroupLedBy(render, spans, p, g) {
      var others :| Lists(others, SameKey(render, spans, p)) && Holds(spans, p, others, g);
      ListsUnique(members, others, SameKey(render, spans, p));
    }
  }
}
