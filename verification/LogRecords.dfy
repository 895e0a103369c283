/** Log records with their resource and scope, and the lookup of a field by its dotted path. */
module LogRecords {
  import opened Wrappers
  import opened Telemetry
  import opened Seqs

  /** An attribute value: plain, or a nested map.  Either has a textual form. */
  datatype Value = Plain(text: string) | Nested(children: Attributes, text: string)

  type Attributes = map<string, Value>

  datatype LogRecord = LogRecord(body: string, timestamp: nat, attributes: Attributes)

  /** A record together with the attributes of its resource and with its scope. */
  datatype Entry = Entry(record: LogRecord, resource: Attributes, scope: Scope)

  function Split(path: string): (parts: seq<string>)
    ensures |parts| >= 1
  {
    if path == "" then [""]
    else
      var rest := Split(path[1..]);
      if path[0] == '.' then [""] + rest else [[path[0]] + rest[0]] + rest[1..]
  }

  function Descend(attributes: Attributes, parts: seq<string>): Option<string>
    requires |parts| >= 1
    decreases |parts|
  {
    if parts[0] !in attributes then None
    else if |parts| == 1 then Some(attributes[parts[0]].text)
    else if attributes[parts[0]].Plain? then None
    else Descend(attributes[parts[0]].children, parts[1..])
  }

  method GetNestedValue(attributes: Attributes, path: string) returns (value: Option<string>)
    ensures value == Descend(attributes, Split(path))
  {
    var parts := Split(path);
    var current := attributes;
    for i := 0 to |parts|
      invariant i < |parts| ==> Descend(current, parts[i..]) == Descend(attributes, parts)
      invariant i == |parts| ==> Descend(attributes, parts) == None
    {
      if parts[i] !in current {
        return None;
      }
      if i == |parts| - 1 {
        return Some(current[parts[i]].text);
      }
      if current[parts[i]].Plain? {
        return None;
      }
      current := current[parts[i]].children;
    }
    return None;
  }

  const RESOURCE_PREFIX := "resource."

  predicate HasPrefix(s: string, prefix: string) {
    prefix <= s
  }

  function FieldText(e: Entry, field: string): Option<string> {
    if field == "message" || field == "body" then Some(e.record.body)
    else if HasPrefix(field, RESOURCE_PREFIX) then Descend(e.resource, Split(field[|RESOURCE_PREFIX|..]))
    else Descend(e.record.attributes, Split(field))
  }

  method GetField(e: Entry, field: string) returns (value: Option<string>)
    ensures value == FieldText(e, field)
  {
    if field == "message" || field == "body" {
      value := Some(e.record.body);
    } else if HasPrefix(field, RESOURCE_PREFIX) {
      value := GetNestedValue(e.resource, field[|RESOURCE_PREFIX|..]);
    } else {
      value := GetNestedValue(e.record.attributes, field);
    }
  }

  lemma {:induction false} SplitDotted(path: string, i: nat)
    requires i < |path| && path[i] == '.' && '.' !in path[..i]
    ensures |Split(path)| >= 2 && Split(path)[0] == path[..i]
  {
    if i == 0 {
    } else {
      SplitDotted(path[1..], i - 1);
      assert path[1..][..i - 1] == path[1..i];
      assert path[..i] == [path[0]] + path[1..i];
    }
  }

  /** A path with a dot is only found inside a nested map: an attribute whose own key contains
      the dot is never seen, whatever its value. */
  lemma DottedPathNeedsNesting(attributes: Attributes, path: string, i: nat)
    requires i < |path| && path[i] == '.' && '.' !in path[..i]
    requires path[..i] !in attributes || attributes[path[..i]].Plain?
    ensures Descend(attributes, Split(path)) == None
  {
    SplitDotted(path, i);
  }

  lemma {:induction false} SplitPlain(path: string)
    requires '.' !in path
    ensures Split(path) == [path]
  {
    if path == "" {
    } else {
      SplitPlain(path[1..]);
      assert path == [path[0]] + path[1..];
    }
  }

  lemma FirstDot(path: string) returns (i: nat)
    requires '.' in path
    ensures i < |path| && path[i] == '.' && '.' !in path[..i]
  {
    i := 0;
    while path[i] != '.'
      invariant i < |path| && '.' !in path[..i] && '.' in path[i..]
      decreases |path| - i
    {
      assert path[i..] == [path[i]] + path[i + 1..];
      i := i + 1;
    }
  }

  /** The exact rule when all attributes are plain: a path is found if and only if it has no
      dot and is the key of an attribute. */
  lemma PlainFoundIff(attributes: Attributes, path: string)
    requires forall a :: a in attributes ==> attributes[a].Plain?
    ensures Descend(attributes, Split(path)).Some? <==> '.' !in path && path in attributes
  {
    if '.' in path {
      var i := FirstDot(path);
      DottedPathNeedsNesting(attributes, path, i);
    } else {
      SplitPlain(path);
    }
  }

  /** An attribute is found under its own key, whatever the other attributes are, if and only
      if the key has no dot. */
  lemma OwnKeyFoundIff(path: string)
    ensures (forall attributes: Attributes ::
               path in attributes ==> Descend(attributes, Split(path)) == Some(attributes[path].text))
       <==> '.' !in path
  {
    if '.' in path {
      var alone: Attributes := map[path := Plain("")];
      PlainFoundIff(alone, path);
      assert path in alone && Descend(alone, Split(path)) == None;
    } else {
      SplitPlain(path);
    }
  }

  // ----- paths through nested maps -----

  /** The parts with dots between them. */
  function Dotted(parts: seq<string>): string
    requires |parts| >= 1
  {
    if |parts| == 1 then parts[0] else parts[0] + ("." + Dotted(parts[1..]))
  }

  ghost predicate DotFree(parts: seq<string>) {
    forall i :: 0 <= i < |parts| ==> '.' !in parts[i]
  }

  lemma DottedFirst(c: char, parts: seq<string>)
    requires |parts| >= 1
    ensures Dotted([[c] + parts[0]] + parts[1..]) == [c] + Dotted(parts)
  {
    var longer := [[c] + parts[0]] + parts[1..];
    assert longer[1..] == parts[1..];
    if |parts| > 1 {
      Associative([c], parts[0], "." + Dotted(parts[1..]));
    }
  }

  /** The parts of a path have no dots, and with dots between them they are the path again. */
  lemma {:induction false} DottedSplit(path: string)
    ensures Dotted(Split(path)) == path && DotFree(Split(path))
  {
    if path == "" {
    } else {
      DottedSplit(path[1..]);
      var rest := Split(path[1..]);
      assert path == [path[0]] + path[1..];
      if path[0] == '.' {
        assert ([""] + rest)[1..] == rest;
        assert "" + "." == ".";
      } else {
        DottedFirst(path[0], rest);
      }
    }
  }

  /** Parts without dots are recovered from the path made of them. */
  lemma {:induction false} SplitAppend(part: string, rest: string)
    requires '.' !in part
    ensures Split(part + "." + rest) == [part] + Split(rest)
  {
    var path := part + "." + rest;
    if part == "" {
      assert path == "." + rest && path[1..] == rest;
    } else {
      SplitAppend(part[1..], rest);
      assert path[1..] == part[1..] + "." + rest;
      assert part == [part[0]] + part[1..];
    }
  }

  lemma {:induction false} SplitDottedParts(parts: seq<string>)
    requires |parts| >= 1 && DotFree(parts)
    ensures Split(Dotted(parts)) == parts
  {
    if |parts| == 1 {
      SplitPlain(parts[0]);
    } else {
      SplitDottedParts(parts[1..]);
      SplitAppend(parts[0], Dotted(parts[1..]));
      Associative(parts[0], ".", Dotted(parts[1..]));
      assert parts == [parts[0]] + parts[1..];
    }
  }

  /** The maps met on the way along the parts: each holds the next under its part. */
  ghost predicate Leads(attributes: Attributes, parts: seq<string>, maps: seq<Attributes>) {
    && |maps| == |parts| >= 1 && maps[0] == attributes
    && (forall i :: 0 <= i < |parts| ==> parts[i] in maps[i])
    && forall i :: 0 <= i < |parts| - 1 ==>
         maps[i][parts[i]].Nested? && maps[i][parts[i]].children == maps[i + 1]
  }

  /** The parts lead through nested maps to an attribute with this text. */
  ghost predicate Reaches(attributes: Attributes, parts: seq<string>, text: string) {
    exists maps: seq<Attributes> ::
      Leads(attributes, parts, maps) && maps[|parts| - 1][parts[|parts| - 1]].text == text
  }

  /** A path is found, with a certain text, if and only if its parts lead to this text. */
  lemma {:induction false} FoundIff(attributes: Attributes, parts: seq<string>, text: string)
    requires |parts| >= 1
    ensures Descend(attributes, parts) == Some(text) <==> Reaches(attributes, parts, text)
    decreases |parts|
  {
    if parts[0] !in attributes {
    } else if |parts| == 1 {
      assert Leads(attributes, parts, [attributes]);
    } else if attributes[parts[0]].Plain? {
    } else {
      var children := attributes[parts[0]].children;
      FoundIff(children, parts[1..], text);
      ReachesStep(attributes, parts, text);
    }
  }

  lemma ReachesStep(attributes: Attributes, parts: seq<string>, text: string)
    requires |parts| >= 2 && parts[0] in attributes && attributes[parts[0]].Nested?
    ensures Reaches(attributes, parts, text) <==> Reaches(attributes[parts[0]].children, parts[1..], text)
  {
    var children, last := attributes[parts[0]].children, |parts| - 1;
    if maps: seq<Attributes> :| Leads(children, parts[1..], maps) && maps[last - 1][parts[1..][last - 1]].text == text {
      var all := [attributes] + maps;
      assert Leads(attributes, parts, all) && all[last] == maps[last - 1];
    }
    if maps: seq<Attributes> :| Leads(attributes, parts, maps) && maps[last][parts[last]].text == text {
      assert Leads(children, parts[1..], maps[1..]) && maps[1..][last - 1] == maps[last];
    }
  }

  /** What the kinds of field names refer to: the body, a path in the resource, or a path in the
      record. */
  lemma FieldsReferTo(e: Entry, path: string, text: string)
    ensures FieldText(e, "message") == Some(e.record.body) == FieldText(e, "body")
    ensures FieldText(e, "resource." + path) == Some(text) <==> Reaches(e.resource, Split(path), text)
    ensures path != "message" && path != "body" && !("resource." <= path) ==>
      (FieldText(e, path) == Some(text) <==> Reaches(e.record.attributes, Split(path), text))
  {
    var field := "resource." + path;
    assert field[9..] == path && field[0] == 'r';
    FoundIff(e.resource, Split(path), text);
    FoundIff(e.record.attributes, Split(path), text);
  }
}
