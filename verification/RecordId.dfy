/** The identifier of a log record, which is hashed to decide whether the record is kept:
    the values of the configured fields in a canonical order, joined by colons. */
module RecordId {
  import opened Wrappers
  import opened LogRecords
  import opened Seqs
  import opened Sorting
  import opened Telemetry

  datatype FieldConfig = FieldConfig(field: string, weight: real, required: bool, defaultValue: string)

  datatype Weighted = Weighted(value: string, weight: real, field: string)

  // ----- the order of strings -----

  /** Lexicographic order. */
  predicate LessEq(a: string, b: string) {
    a == "" || (b != "" && (a[0] < b[0] || (a[0] == b[0] && LessEq(a[1..], b[1..]))))
  }

  lemma {:induction false} LessEqTotal(a: string, b: string)
    ensures LessEq(a, b) || LessEq(b, a)
  {
    if a == "" || b == "" || a[0] != b[0] {
    } else {
      LessEqTotal(a[1..], b[1..]);
    }
  }

  lemma {:induction false} LessEqTransitive(a: string, b: string, c: string)
    requires LessEq(a, b) && LessEq(b, c)
    ensures LessEq(a, c)
  {
    if a == "" || b == "" || c == "" || a[0] != b[0] || b[0] != c[0] {
    } else {
      LessEqTransitive(a[1..], b[1..], c[1..]);
    }
  }

  lemma {:induction false} LessEqAntisymmetric(a: string, b: string)
    requires LessEq(a, b) && LessEq(b, a)
    ensures a == b
  {
    if a == "" {
    } else {
      LessEqAntisymmetric(a[1..], b[1..]);
      assert a == [a[0]] + a[1..] && b == [b[0]] + b[1..];
    }
  }

  /** The first string is a beginning of the second, or smaller at the first difference. */
  ghost predicate Alphabetic(a: string, b: string) {
    a <= b || exists k :: 0 <= k < |a| && k < |b| && a[..k] == b[..k] && a[k] < b[k]
  }

  lemma {:induction false} LessEqIff(a: string, b: string)
    ensures LessEq(a, b) <==> Alphabetic(a, b)
  {
    if a == "" || b == "" {
    } else {
      LessEqIff(a[1..], b[1..]);
      AlphabeticStep(a, b);
    }
  }

  lemma AlphabeticStep(a: string, b: string)
    requires a != "" && b != ""
    ensures Alphabetic(a, b) <==> a[0] < b[0] || (a[0] == b[0] && Alphabetic(a[1..], b[1..]))
  {
    if k :| 0 <= k < |a| && k < |b| && a[..k] == b[..k] && a[k] < b[k] {
      assert k > 0 ==> a[..k][0] == a[0] && b[..k][0] == b[0];
      assert k > 0 ==> a[1..][..k - 1] == a[..k][1..] && b[1..][..k - 1] == b[..k][1..];
    }
    if a[0] < b[0] {
      assert a[..0] == b[..0];
    }
    if a[0] == b[0] {
      if k :| 0 <= k < |a[1..]| && k < |b[1..]| && a[1..][..k] == b[1..][..k] && a[1..][k] < b[1..][k] {
        assert a[..k + 1] == [a[0]] + a[1..][..k] && b[..k + 1] == [b[0]] + b[1..][..k];
      }
      if a[1..] <= b[1..] {
        assert a == [a[0]] + a[1..] && b == [b[0]] + b[1..];
      }
    }
  }

  lemma StringsOrdered()
    ensures TotalPreorder(LessEq)
  {
    forall x, y ensures LessEq(x, y) || LessEq(y, x) {
      LessEqTotal(x, y);
    }
    forall x, y, z | LessEq(x, y) && LessEq(y, z) ensures LessEq(x, z) {
      LessEqTransitive(x, y, z);
    }
  }

  /** Heavier fields first, then by field name. */
  predicate Before(x: Weighted, y: Weighted) {
    x.weight > y.weight || (x.weight == y.weight && LessEq(x.field, y.field))
  }

  lemma FieldsOrdered()
    ensures TotalPreorder(Before)
  {
    StringsOrdered();
    forall x, y ensures Before(x, y) || Before(y, x) {
      LessEqTotal(x.field, y.field);
    }
    forall x, y, z | Before(x, y) && Before(y, z) ensures Before(x, z) {
      if LessEq(x.field, y.field) && LessEq(y.field, z.field) {
        LessEqTransitive(x.field, y.field, z.field);
      }
    }
  }

  // ----- joining -----

  function Join(parts: seq<string>): string {
    if parts == [] then ""
    else if |parts| == 1 then parts[0]
    else Join(parts[..|parts| - 1]) + ":" + parts[|parts| - 1]
  }

  lemma JoinSnoc(parts: seq<string>, part: string)
    ensures Join(parts + [part]) == if parts == [] then part else Join(parts) + ":" + part
  {
    assert (parts + [part])[..|parts|] == parts;
  }

  lemma JoinNonempty(parts: seq<string>)
    requires parts != [] && forall part :: part in parts ==> part != ""
    ensures Join(parts) != ""
  {
    assert parts[0] in parts;
  }

  ghost predicate ColonFree(parts: seq<string>) {
    forall i :: 0 <= i < |parts| ==> ':' !in parts[i]
  }

  /** Whatever ends the joined text and is longer than the last part contains a colon. */
  lemma LastColon(a: seq<string>, k: nat)
    requires a != [] && |a[|a| - 1]| < k <= |Join(a)|
    ensures ':' in Join(a)[|Join(a)| - k..]
  {
    var x, text := a[|a| - 1], Join(a);
    assert text[|text| - |x| - 1] == ':';
    assert text[|text| - k..][k - |x| - 1] == ':';
  }

  /** Parts without colons can be read back from the joined text. */
  lemma {:induction false} JoinInjective(a: seq<string>, b: seq<string>)
    requires a != [] && b != [] && ColonFree(a) && ColonFree(b) && Join(a) == Join(b)
    ensures a == b
  {
    var m, n := |a| - 1, |b| - 1;
    var x, y := a[m], b[n];
    var text := Join(a);
    assert text[|text| - |x|..] == x && text[|text| - |y|..] == y;
    assert |x| == |y| by {
      if |x| < |y| {
        LastColon(a, |y|);
      } else if |y| < |x| {
        LastColon(b, |x|);
      }
    }
    assert (m > 0) == (|text| > |x|) && (n > 0) == (|text| > |y|);
    if m == 0 {
    } else {
      assert Join(a[..m]) == text[..|text| - |x| - 1] == Join(b[..n]);
      JoinInjective(a[..m], b[..n]);
    }
    assert a == a[..m] + [x] && b == b[..n] + [y];
  }

  // ----- the fields of a record -----

  /** The text of a field; a missing field and an empty one are treated alike. */
  function Raw(e: Entry, f: FieldConfig): string {
    var text := FieldText(e, f.field);
    if text.Some? then text.value else ""
  }

  predicate Blocks(e: Entry, f: FieldConfig) {
    f.required && Raw(e, f) == ""
  }

  predicate Blocked(e: Entry, fields: seq<FieldConfig>) {
    exists f :: f in fields && Blocks(e, f)
  }

  function One(e: Entry, f: FieldConfig): seq<Weighted> {
    var value := if Raw(e, f) != "" then Raw(e, f) else f.defaultValue;
    if value == "" then [] else [Weighted(value, f.weight, f.field)]
  }

  function OneOf(e: Entry): FieldConfig -> seq<Weighted> {
    f => One(e, f)
  }

  function Gathered(e: Entry, fields: seq<FieldConfig>): seq<Weighted> {
    FlatMap(OneOf(e), fields)
  }

  predicate SameWeights(fields: seq<FieldConfig>) {
    forall i :: 0 <= i < |fields| ==> fields[i].weight == fields[0].weight
  }

  function Decimal(n: nat): (text: string)
    ensures text != ""
  {
    var digit := ["0123456789"[n % 10]];
    if n < 10 then digit else Decimal(n / 10) + digit
  }

  /** What stands in for the fields: the timestamp and the text of a random number. */
  function Fallback(e: Entry, random: string): seq<Weighted> {
    [Weighted(Decimal(e.record.timestamp), 1.0, "timestamp"), Weighted(random, 1.0, "random")]
  }

  function ValueOf(w: Weighted): string {
    w.value
  }

  function Ceil(x: real): int {
    if x == x.Floor as real then x.Floor else x.Floor + 1
  }

  function Copies(value: string, times: int): seq<string> {
    if times <= 0 then [] else Copies(value, times - 1) + [value]
  }

  /** Each value as many times as its weight rounded up. */
  function Repeated(values: seq<Weighted>): seq<string> {
    if values == [] then []
    else
      var last := values[|values| - 1];
      Repeated(values[..|values| - 1]) + Copies(last.value, Ceil(last.weight))
  }

  function Text(equalWeights: bool, values: seq<Weighted>): string {
    if equalWeights then Join(Sort(LessEq, Map(ValueOf, values)))
    else Join(Repeated(Sort(Before, values)))
  }

  /** The fields looked at: up to the first required one that is missing. */
  function Seen(e: Entry, fields: seq<FieldConfig>): seq<FieldConfig> {
    if fields == [] then []
    else if Blocks(e, fields[0]) then [fields[0]]
    else [fields[0]] + Seen(e, fields[1..])
  }

  function Values(e: Entry, fields: seq<FieldConfig>, random: string): seq<Weighted> {
    if Blocked(e, fields) || Gathered(e, fields) == [] then Fallback(e, random) else Gathered(e, fields)
  }

  /** The identifier of a record.  `random` is the text of the random number, used only if a
      required field is missing or no field has a value. */
  function Id(e: Entry, fields: seq<FieldConfig>, random: string): string {
    Text(SameWeights(Seen(e, fields)), Values(e, fields, random))
  }

  // ----- computing the identifier -----

  lemma SeenSnoc(e: Entry, fields: seq<FieldConfig>, i: nat)
    requires i < |fields| && !Blocked(e, fields[..i])
    ensures Blocks(e, fields[i]) ==> Seen(e, fields) == fields[..i + 1] && Blocked(e, fields)
    ensures !Blocks(e, fields[i]) ==> !Blocked(e, fields[..i + 1])
    ensures Gathered(e, fields[..i + 1]) == Gathered(e, fields[..i]) + One(e, fields[i])
  {
    TakeOneMore(fields, i);
    assert fields[..i + 1][..i] == fields[..i];
    if Blocks(e, fields[i]) {
      SeenPrefix(e, fields, i);
      assert fields[i..][0] == fields[i] && fields[i] in fields;
    }
  }

  lemma {:induction false} SeenPrefix(e: Entry, fields: seq<FieldConfig>, i: nat)
    requires i <= |fields| && !Blocked(e, fields[..i])
    ensures Seen(e, fields) == fields[..i] + Seen(e, fields[i..])
  {
    if i == 0 {
      assert fields[0..] == fields;
    } else {
      assert fields[0] in fields[..i];
      forall f | f in fields[1..][..i - 1] ensures f in fields[..i] {
        assert fields[1..][..i - 1] == fields[..i][1..];
      }
      SeenPrefix(e, fields[1..], i - 1);
      assert fields[1..][i - 1..] == fields[i..];
      assert fields[..i] == [fields[0]] + fields[1..][..i - 1];
    }
  }

  lemma SeenAll(e: Entry, fields: seq<FieldConfig>)
    requires !Blocked(e, fields)
    ensures Seen(e, fields) == fields
  {
    assert fields[..|fields|] == fields && fields[|fields|..] == [];
    SeenPrefix(e, fields, |fields|);
  }

  method GetValue(e: Entry, f: FieldConfig) returns (value: string)
    ensures value == Raw(e, f)
  {
    var text := GetField(e, f.field);
    value := if text.Some? then text.value else "";
  }

  /** Collects the values of the fields, stopping at a required one that is missing. */
  method Gather(e: Entry, fields: seq<FieldConfig>)
    returns (equalWeights: bool, values: seq<Weighted>, requiredMissing: bool)
    ensures equalWeights == SameWeights(Seen(e, fields))
    ensures requiredMissing == Blocked(e, fields)
    ensures !requiredMissing ==> values == Gathered(e, fields)
  {
    equalWeights, values, requiredMissing := true, [], false;
    var firstWeight := 0.0;
    for i := 0 to |fields|
      invariant !Blocked(e, fields[..i]) && !requiredMissing
      invariant i > 0 ==> firstWeight == fields[0].weight
      invariant equalWeights == SameWeights(fields[..i])
      invariant values == Gathered(e, fields[..i])
    {
      var f := fields[i];
      SeenSnoc(e, fields, i);
      assert SameWeights(fields[..i + 1]) == (SameWeights(fields[..i]) && f.weight == fields[0].weight);
      if i == 0 {
        firstWeight := f.weight;
      } else if f.weight != firstWeight {
        equalWeights := false;
      }
      var value := GetValue(e, f);
      if value == "" {
        if f.required {
          requiredMissing := true;
          return;
        } else if f.defaultValue != "" {
          value := f.defaultValue;
        } else {
          continue;
        }
      }
      values := values + [Weighted(value, f.weight, f.field)];
    }
    assert fields[..|fields|] == fields;
    SeenAll(e, fields);
  }

  lemma CopyStep(parts: seq<string>, value: string, i: nat)
    requires value != "" && forall part :: part in parts ==> part != ""
    ensures var text := Join(parts + Copies(value, i));
      Join(parts + Copies(value, i + 1)) == (if |text| > 0 then text + ":" else text) + value
  {
    var sofar := parts + Copies(value, i);
    assert parts + Copies(value, i + 1) == sofar + [value];
    JoinSnoc(sofar, value);
    CopiesAre(value, i);
    if sofar != [] {
      JoinNonempty(sofar);
    }
  }

  method AppendCopies(text: string, value: string, weight: real, ghost parts: seq<string>) returns (r: string)
    requires text == Join(parts) && value != "" && forall part :: part in parts ==> part != ""
    ensures r == Join(parts + Copies(value, Ceil(weight)))
  {
    var repetitions := Ceil(weight);
    r := text;
    assert parts + Copies(value, 0) == parts;
    var i := 0;
    while i < repetitions
      invariant 0 <= i <= repetitions || (i == 0 && repetitions < 0)
      invariant r == Join(parts + Copies(value, i))
    {
      CopyStep(parts, value, i);
      if |r| > 0 {
        r := r + ":";
      }
      r := r + value;
      i := i + 1;
    }
  }

  lemma {:induction false} CopiesAre(value: string, times: int)
    ensures forall part :: part in Copies(value, times) ==> part == value
  {
    if times <= 0 {
    } else {
      CopiesAre(value, times - 1);
    }
  }

  lemma {:induction false} RepeatedFrom(values: seq<Weighted>, part: string)
    requires part in Repeated(values)
    ensures exists v :: v in values && v.value == part
  {
    var m := |values| - 1;
    if part in Repeated(values[..m]) {
      RepeatedFrom(values[..m], part);
    } else {
      CopiesAre(values[m].value, Ceil(values[m].weight));
      assert values[m] in values;
    }
  }

  /** The weighted form of the identifier, built up value by value. */
  method BuildWeighted(values: seq<Weighted>) returns (text: string)
    requires forall v :: v in values ==> v.value != ""
    ensures text == Join(Repeated(values))
  {
    text := "";
    for i := 0 to |values|
      invariant text == Join(Repeated(values[..i]))
    {
      assert values[..i + 1][..i] == values[..i];
      forall part | part in Repeated(values[..i]) ensures part != "" {
        RepeatedFrom(values[..i], part);
      }
      text := AppendCopies(text, values[i].value, values[i].weight, Repeated(values[..i]));
    }
    assert values[..|values|] == values;
  }

  lemma {:induction false} GatheredNonempty(e: Entry, fields: seq<FieldConfig>)
    ensures forall v :: v in Gathered(e, fields) ==> v.value != ""
  {
    if fields == [] {
    } else {
      GatheredNonempty(e, fields[..|fields| - 1]);
    }
  }

  method CreateRecordId(e: Entry, fields: seq<FieldConfig>, random: string) returns (id: string)
    requires random != ""
    ensures id == Id(e, fields, random)
  {
    var equalWeights, values, requiredMissing := Gather(e, fields);
    GatheredNonempty(e, fields);
    if requiredMissing || |values| == 0 {
      values := Fallback(e, random);
    }
    if equalWeights {
      id := Join(Sort(LessEq, Map(ValueOf, values)));
    } else {
      FieldsOrdered();
      SortSorts(Before, values);
      forall v | v in Sort(Before, values) ensures v.value != "" {
        assert v in multiset(Sort(Before, values));
      }
      id := BuildWeighted(Sort(Before, values));
    }
  }

  // ----- what the identifier holds -----

  /** The value a field contributes: its own text, or in place of a missing or empty text its
      default. */
  ghost predicate Contributes(e: Entry, f: FieldConfig, value: string) {
    && value != ""
    && (FieldText(e, f.field) == Some(value)
        || (FieldText(e, f.field) in {None, Some("")} && value == f.defaultValue))
  }

  /** The fields contribute, in their order and each with its weight and name, one value or none. */
  lemma GatheredInOrder(e: Entry, f: FieldConfig, before: seq<FieldConfig>, after: seq<FieldConfig>, value: string)
    ensures Gathered(e, before + after) == Gathered(e, before) + Gathered(e, after)
    ensures Contributes(e, f, value) ==> Gathered(e, [f]) == [Weighted(value, f.weight, f.field)]
    ensures (forall v :: !Contributes(e, f, v)) ==> Gathered(e, [f]) == []
  {
    FlatMapConcat(OneOf(e), before, after);
    FlatMapOne(OneOf(e), f);
    var v := if Raw(e, f) != "" then Raw(e, f) else f.defaultValue;
    assert v != "" ==> Contributes(e, f, v);
  }

  /** A record is blocked by a required field without a text of its own. */
  lemma BlockedIff(e: Entry, fields: seq<FieldConfig>)
    ensures Blocked(e, fields) <==>
      exists i :: 0 <= i < |fields| && fields[i].required && FieldText(e, fields[i].field) in {None, Some("")}
  {
    if Blocked(e, fields) {
      var f :| f in fields && Blocks(e, f);
      var i :| 0 <= i < |fields| && fields[i] == f;
    }
    forall i | 0 <= i < |fields| && fields[i].required && FieldText(e, fields[i].field) in {None, Some("")}
      ensures fields[i] in fields && Blocks(e, fields[i])
    {
    }
  }

  lemma {:induction false} CopiesCount(value: string, times: int)
    ensures |Copies(value, times)| == if times <= 0 then 0 else times
  {
    if times <= 0 {
    } else {
      CopiesCount(value, times - 1);
    }
  }

  /** The number of copies of a value is the least natural number that is at least its weight,
      and the copies of several values follow one another. */
  lemma RepeatedByWeight(a: seq<Weighted>, b: seq<Weighted>, w: Weighted, n: nat)
    ensures Repeated(a + b) == Repeated(a) + Repeated(b)
    ensures |Repeated([w])| <= n <==> w.weight <= n as real
    ensures forall part :: part in Repeated([w]) ==> part == w.value
  {
    RepeatedConcat(a, b);
    CopiesCount(w.value, Ceil(w.weight));
    CopiesAre(w.value, Ceil(w.weight));
    assert [w][..0] == [];
    assert Repeated([w]) == Copies(w.value, Ceil(w.weight));
  }

  lemma {:induction false} RepeatedConcat(a: seq<Weighted>, b: seq<Weighted>)
    ensures Repeated(a + b) == Repeated(a) + Repeated(b)
  {
    if b == [] {
      assert a + b == a;
    } else {
      var n := |b| - 1;
      RepeatedConcat(a, b[..n]);
      assert (a + b)[..|a + b| - 1] == a + b[..n];
    }
  }

  /** With equal weights the identifier is the values joined in alphabetic order. */
  lemma EqualWeightsSpelledOut(e: Entry, fields: seq<FieldConfig>, random: string) returns (parts: seq<string>)
    requires !Blocked(e, fields) && Gathered(e, fields) != []
    requires forall f, g :: f in fields && g in fields ==> f.weight == g.weight
    ensures multiset(parts) == multiset(Map(ValueOf, Gathered(e, fields)))
    ensures forall i, j :: 0 <= i < j < |parts| ==> Alphabetic(parts[i], parts[j])
    ensures Id(e, fields, random) == Join(parts)
  {
    SeenAll(e, fields);
    assert SameWeights(fields);
    var values := Map(ValueOf, Gathered(e, fields));
    parts := Sort(LessEq, values);
    StringsOrdered();
    SortSorts(LessEq, values);
    forall i, j | 0 <= i < j < |parts| ensures Alphabetic(parts[i], parts[j]) {
      LessEqIff(parts[i], parts[j]);
    }
  }

  /** With differing weights the values are arranged with the heaviest field first, fields of
      the same weight by name, and each is repeated by its weight. */
  lemma DifferingWeightsSpelledOut(e: Entry, fields: seq<FieldConfig>, random: string) returns (order: seq<Weighted>)
    requires !Blocked(e, fields) && Gathered(e, fields) != []
    requires exists f, g :: f in fields && g in fields && f.weight != g.weight
    ensures multiset(order) == multiset(Gathered(e, fields))
    ensures forall i, j :: 0 <= i < j < |order| ==>
      order[i].weight > order[j].weight
      || (order[i].weight == order[j].weight && Alphabetic(order[i].field, order[j].field))
    ensures Id(e, fields, random) == Join(Repeated(order))
  {
    SeenAll(e, fields);
    assert !SameWeights(fields);
    order := Sort(Before, Gathered(e, fields));
    FieldsOrdered();
    SortSorts(Before, Gathered(e, fields));
    forall i, j | 0 <= i < j < |order| && order[i].weight <= order[j].weight
      ensures order[i].weight == order[j].weight && Alphabetic(order[i].field, order[j].field)
    {
      assert Before(order[i], order[j]);
      LessEqIff(order[i].field, order[j].field);
    }
  }

  /** The number that decimal digits stand for. */
  function ReadDecimal(text: string): int {
    if text == "" then 0
    else 10 * ReadDecimal(text[..|text| - 1]) + (text[|text| - 1] as int - '0' as int)
  }

  /** The decimal text of a number has digits only, no leading zero, and reads as the number. */
  lemma {:induction false} DecimalReads(n: nat)
    ensures ReadDecimal(Decimal(n)) == n
    ensures forall c :: c in Decimal(n) ==> '0' <= c <= '9'
    ensures n > 0 ==> Decimal(n)[0] != '0'
  {
    var digit := "0123456789"[n % 10];
    assert digit as int - '0' as int == n % 10;
    if n < 10 {
      assert Decimal(n)[..0] == "";
    } else {
      DecimalReads(n / 10);
      assert Decimal(n)[..|Decimal(n)| - 1] == Decimal(n / 10);
    }
  }

  // ----- the identifier is canonical -----

  lemma SortedStringsSame(a: seq<string>, b: seq<string>)
    requires multiset(a) == multiset(b)
    ensures Sort(LessEq, a) == Sort(LessEq, b)
  {
    StringsOrdered();
    SortSorts(LessEq, a);
    SortSorts(LessEq, b);
    forall x, y | LessEq(x, y) && LessEq(y, x) ensures x == y {
      LessEqAntisymmetric(x, y);
    }
    SortedUnique(LessEq, Sort(LessEq, a), Sort(LessEq, b));
  }

  /** With equal weights, values in place of the fallback, and no colon in a value, two
      records have the same identifier exactly if they have the same multiset of values; the
      values need not come from the same fields, and colons matter for one direction only. */
  lemma EqualWeightsCanonical(e1: Entry, f1: seq<FieldConfig>, r1: string, e2: Entry, f2: seq<FieldConfig>, r2: string)
    requires !Blocked(e1, f1) && !Blocked(e2, f2) && SameWeights(f1) && SameWeights(f2)
    requires Gathered(e1, f1) != [] && Gathered(e2, f2) != []
    ensures var v1, v2 := Map(ValueOf, Gathered(e1, f1)), Map(ValueOf, Gathered(e2, f2));
      && (multiset(v1) == multiset(v2) ==> Id(e1, f1, r1) == Id(e2, f2, r2))
      && (ColonFree(v1) && ColonFree(v2) && Id(e1, f1, r1) == Id(e2, f2, r2) ==> multiset(v1) == multiset(v2))
  {
    var v1, v2 := Map(ValueOf, Gathered(e1, f1)), Map(ValueOf, Gathered(e2, f2));
    SeenAll(e1, f1);
    SeenAll(e2, f2);
    assert Id(e1, f1, r1) == Join(Sort(LessEq, v1)) && Id(e2, f2, r2) == Join(Sort(LessEq, v2));
    if multiset(v1) == multiset(v2) {
      SortedStringsSame(v1, v2);
    }
    if ColonFree(v1) && ColonFree(v2) && Id(e1, f1, r1) == Id(e2, f2, r2) {
      SortedJoinInjective(v1, v2);
    }
  }

  lemma SortedJoinInjective(a: seq<string>, b: seq<string>)
    requires a != [] && b != [] && ColonFree(a) && ColonFree(b)
    requires Join(Sort(LessEq, a)) == Join(Sort(LessEq, b))
    ensures multiset(a) == multiset(b)
  {
    StringsOrdered();
    SortSorts(LessEq, a);
    SortSorts(LessEq, b);
    SortedColonFree(a);
    SortedColonFree(b);
    JoinInjective(Sort(LessEq, a), Sort(LessEq, b));
  }

  lemma SortedColonFree(a: seq<string>)
    requires a != [] && ColonFree(a)
    ensures Sort(LessEq, a) != [] && ColonFree(Sort(LessEq, a))
  {
    StringsOrdered();
    SortSorts(LessEq, a);
    var s := Sort(LessEq, a);
    assert a[0] in multiset(s);
    forall i | 0 <= i < |s| ensures ':' !in s[i] {
      assert s[i] in multiset(a);
    }
  }

  /** Every two configured fields differ in weight or in name. */
  ghost predicate DistinctKeys(fields: seq<FieldConfig>) {
    forall i, j :: 0 <= i < j < |fields| ==>
      fields[i].weight != fields[j].weight || fields[i].field != fields[j].field
  }

  lemma {:induction false} GatheredFrom(e: Entry, fields: seq<FieldConfig>, w: Weighted) returns (i: nat)
    requires w in Gathered(e, fields)
    ensures i < |fields| && [w] == One(e, fields[i])
  {
    var m := |fields| - 1;
    if w in Gathered(e, fields[..m]) {
      i := GatheredFrom(e, fields[..m], w);
    } else {
      i := m;
    }
  }

  /** Configuring every field with a weight or name of its own leaves no ties. */
  lemma GatheredNoTies(e: Entry, fields: seq<FieldConfig>)
    requires DistinctKeys(fields)
    ensures NoTies(Before, Gathered(e, fields))
  {
    var g := Gathered(e, fields);
    forall x, y | x in g && y in g && Before(x, y) && Before(y, x) ensures x == y {
      var i := GatheredFrom(e, fields, x);
      var j := GatheredFrom(e, fields, y);
      LessEqAntisymmetric(x.field, y.field);
    }
  }

  lemma SortedFieldsSame(a: seq<Weighted>, b: seq<Weighted>)
    requires multiset(a) == multiset(b) && NoTies(Before, a)
    ensures Sort(Before, a) == Sort(Before, b)
  {
    FieldsOrdered();
    SortSorts(Before, a);
    SortSorts(Before, b);
    forall x | x in Sort(Before, a) ensures x in a {
      assert x in multiset(Sort(Before, a));
    }
    SortedUnique(Before, Sort(Before, a), Sort(Before, b));
  }

  lemma SameElements<T>(a: seq<T>, b: seq<T>)
    requires multiset(a) == multiset(b)
    ensures |a| == |b| && forall x :: x in a <==> x in b
  {
    assert |a| == |multiset(a)| == |multiset(b)| == |b|;
    forall x ensures x in a <==> x in b {
      assert x in a <==> x in multiset(a);
      assert x in b <==> x in multiset(b);
    }
  }

  lemma SameWeightsPermutation(f1: seq<FieldConfig>, f2: seq<FieldConfig>)
    requires multiset(f1) == multiset(f2) && SameWeights(f1)
    ensures SameWeights(f2)
  {
    SameElements(f1, f2);
    forall i | 0 <= i < |f2| ensures f2[i].weight == f2[0].weight {
      assert f2[i] in f1 && f2[0] in f1;
    }
  }

  /** The identifier does not depend on the order in which the fields are configured, if no
      required field is missing and either all weights are equal or no two values collected
      from the record tie in weight and field name. */
  lemma OrderIrrelevant(e: Entry, f1: seq<FieldConfig>, f2: seq<FieldConfig>, random: string)
    requires multiset(f1) == multiset(f2) && !Blocked(e, f1)
    requires SameWeights(f1) || NoTies(Before, Gathered(e, f1))
    ensures Id(e, f1, random) == Id(e, f2, random)
  {
    SameElements(f1, f2);
    SeenAll(e, f1);
    SeenAll(e, f2);
    FlatMapPermutation(OneOf(e), f1, f2);
    var g1, g2 := Gathered(e, f1), Gathered(e, f2);
    SameElements(g1, g2);
    if SameWeights(f1) {
      SameWeightsPermutation(f1, f2);
      MapPermutation(ValueOf, g1, g2);
      SortedStringsSame(Map(ValueOf, g1), Map(ValueOf, g2));
    } else {
      if SameWeights(f2) {
        SameWeightsPermutation(f2, f1);
      }
      SortedFieldsSame(g1, g2);
    }
  }

  // ----- exactly when the order of differing weights is settled -----

  /** A sorted arrangement of the values: the library may return any of them. */
  ghost predicate Arrangement(values: seq<Weighted>, a: seq<Weighted>) {
    SortedBy(Before, a) && multiset(a) == multiset(values)
  }

  ghost predicate OneText(values: seq<Weighted>) {
    forall a, b :: Arrangement(values, a) && Arrangement(values, b) ==> Join(Repeated(a)) == Join(Repeated(b))
  }

  /** Every value is repeated at least once and has no colon. */
  ghost predicate Readable(values: seq<Weighted>) {
    forall v :: v in values ==> v.weight > 0.0 && ':' !in v.value
  }

  /** With differing weights the identifier is settled, whatever arrangement the sort returns,
      if and only if no two different values tie in weight and field name. */
  lemma OneTextIff(values: seq<Weighted>)
    requires values != [] && Readable(values)
    ensures OneText(values) <==> NoTies(Before, values)
  {
    if NoTies(Before, values) {
      forall a, b | Arrangement(values, a) && Arrangement(values, b) ensures Join(Repeated(a)) == Join(Repeated(b)) {
        OneArrangement(values, a, b);
      }
    } else {
      var x, y :| x in values && y in values && Before(x, y) && Before(y, x) && x != y;
      TwoTexts(values, x, y);
    }
  }

  lemma OneArrangement(values: seq<Weighted>, a: seq<Weighted>, b: seq<Weighted>)
    requires NoTies(Before, values) && Arrangement(values, a) && Arrangement(values, b)
    ensures a == b
  {
    FieldsOrdered();
    SameElements(a, values);
    SortedUnique(Before, a, b);
  }

  lemma TwoTexts(values: seq<Weighted>, x: Weighted, y: Weighted)
    requires Readable(values) && x in values && y in values && Before(x, y) && Before(y, x) && x != y
    ensures !OneText(values)
  {
    FieldsOrdered();
    SortSorts(Before, values);
    var s := Sort(Before, values);
    assert Arrangement(values, s);
    SameElements(s, values);
    var i :| 0 <= i < |s| && s[i] == x;
    var j :| 0 <= j < |s| && s[j] == y;
    TiedDiffer(x, y);
    if i < j {
      TwoArrangements(values, s, i, j);
    } else {
      TwoArrangements(values, s, j, i);
    }
  }

  lemma TiedDiffer(x: Weighted, y: Weighted)
    requires Before(x, y) && Before(y, x) && x != y
    ensures x.value != y.value
  {
    if x.weight == y.weight {
      LessEqAntisymmetric(x.field, y.field);
    }
  }

  lemma TwoArrangements(values: seq<Weighted>, s: seq<Weighted>, i: nat, j: nat)
    requires Readable(values) && Arrangement(values, s)
    requires i < j < |s| && Before(s[j], s[i]) && s[i].value != s[j].value
    ensures !OneText(values)
  {
    SwapTied(s, i, j);
    var t := s[i := s[j]][j := s[i]];
    assert Arrangement(values, t);
    SameElements(s, values);
    SameElements(t, values);
    DifferentTexts(s, t, i);
  }

  /** Exchanging two tied elements of a sorted sequence leaves it sorted: all between are tied too. */
  lemma SwapTied(s: seq<Weighted>, i: nat, j: nat)
    requires i < j < |s| && SortedBy(Before, s) && Before(s[j], s[i])
    ensures var t := s[i := s[j]][j := s[i]]; SortedBy(Before, t) && multiset(t) == multiset(s)
  {
    FieldsOrdered();
    var t := s[i := s[j]][j := s[i]];
    forall a, b | 0 <= a < b < |t| ensures Before(t[a], t[b]) {
      assert a != i && a != j ==> t[a] == s[a];
      assert b != i && b != j ==> t[b] == s[b];
      if a == i && b < j {
        assert Before(s[b], s[j]) && Before(s[i], s[b]);
      } else if b == j && i < a {
        assert Before(s[a], s[j]) && Before(s[i], s[a]);
      }
    }
  }

  /** Two arrangements that first differ at a place, by their values there, have different texts. */
  lemma DifferentTexts(s: seq<Weighted>, t: seq<Weighted>, i: nat)
    requires i < |s| == |t| && s[..i] == t[..i] && s[i].value != t[i].value
    requires Readable(s) && Readable(t)
    ensures Join(Repeated(s)) != Join(Repeated(t))
  {
    var n := |Repeated(s[..i])|;
    RepeatedAt(s, i);
    RepeatedAt(t, i);
    RepeatedColonFree(s);
    RepeatedColonFree(t);
    if Join(Repeated(s)) == Join(Repeated(t)) {
      JoinInjective(Repeated(s), Repeated(t));
    }
  }

  lemma CopiesPositive(value: string, weight: real)
    requires weight > 0.0
    ensures Copies(value, Ceil(weight)) != [] && Copies(value, Ceil(weight))[0] == value
  {
    assert Ceil(weight) >= 1;
    CopiesAre(value, Ceil(weight));
    assert Copies(value, Ceil(weight))[0] in Copies(value, Ceil(weight));
  }

  lemma {:induction false} RepeatedAt(s: seq<Weighted>, i: nat)
    requires i < |s| && s[i].weight > 0.0
    ensures |Repeated(s)| > |Repeated(s[..i])| && Repeated(s)[|Repeated(s[..i])|] == s[i].value
  {
    var m := |s| - 1;
    if i == m {
      CopiesPositive(s[m].value, s[m].weight);
    } else {
      RepeatedAt(s[..m], i);
      assert s[..m][..i] == s[..i];
    }
  }

  lemma RepeatedColonFree(s: seq<Weighted>)
    requires Readable(s)
    ensures ColonFree(Repeated(s))
  {
    forall k | 0 <= k < |Repeated(s)| ensures ':' !in Repeated(s)[k] {
      RepeatedFrom(s, Repeated(s)[k]);
    }
  }

  /** With a required field missing, or no value at all, the identifier holds nothing of the
      record but its timestamp. */
  lemma MissingRequiredIsRandom(e: Entry, fields: seq<FieldConfig>, random: string)
    requires Blocked(e, fields) || Gathered(e, fields) == []
    ensures var t := Decimal(e.record.timestamp);
      Id(e, fields, random) in {t + ":" + random, random + ":" + t}
  {
    var t, r := Fallback(e, random)[0], Fallback(e, random)[1];
    TwoValues(t, r);
  }

  lemma TwoValues(x: Weighted, y: Weighted)
    requires x.weight == y.weight == 1.0
    ensures Text(true, [x, y]) in {x.value + ":" + y.value, y.value + ":" + x.value}
    ensures Text(false, [x, y]) in {x.value + ":" + y.value, y.value + ":" + x.value}
  {
    assert Map(ValueOf, [x, y]) == [x.value, y.value];
    SortTwo(LessEq, x.value, y.value);
    JoinTwo(x.value, y.value);
    JoinTwo(y.value, x.value);
    SortTwo(Before, x, y);
    RepeatedTwo(x, y);
    RepeatedTwo(y, x);
  }

  lemma SortTwo<T>(le: (T, T) -> bool, x: T, y: T)
    ensures Sort(le, [x, y]) in {[x, y], [y, x]}
  {
    assert [x, y][1..] == [y] && [y][1..] == [];
    assert Sort(le, [y]) == [y];
    assert Sort(le, [x, y]) == Insert(le, x, [y]);
    assert [x] + [y] == [x, y] && [y] + [x] == [y, x];
    if !le(x, y) {
      assert Insert(le, x, [y]) == [y] + Insert(le, x, []);
      assert Insert(le, x, []) == [x];
    }
  }

  lemma JoinTwo(x: string, y: string)
    ensures Join([x, y]) == x + ":" + y
  {
    assert [x, y][..1] == [x];
  }

  lemma RepeatedTwo(x: Weighted, y: Weighted)
    requires x.weight == y.weight == 1.0
    ensures Repeated([x, y]) == [x.value, y.value]
  {
    assert [x, y][..1] == [x] && [x][..0] == [];
    assert Copies(x.value, 1) == [x.value] && Copies(y.value, 1) == [y.value];
    assert Repeated([x]) == [x.value];
  }

  /** A record and a configuration whose identifier is not settled: the field "f", which the
      record lacks, is configured twice with the same weight and different defaults. */
  lemma TiesAreAmbiguous(timestamp: nat, scope: Scope)
    ensures var e := Entry(LogRecord("h", timestamp, map[]), map[], scope);
      var fields := [FieldConfig("message", 2.0, false, ""), FieldConfig("f", 1.0, false, "x"),
                     FieldConfig("f", 1.0, false, "y")];
      !Blocked(e, fields) && !SameWeights(fields) && !OneText(Gathered(e, fields))
  {
    var e := Entry(LogRecord("h", timestamp, map[]), map[], scope);
    var m := FieldConfig("message", 2.0, false, "");
    var f, g := FieldConfig("f", 1.0, false, "x"), FieldConfig("f", 1.0, false, "y");
    TiedDefaults(e, m, f, g);
    assert [m, f, g][0].weight != [m, f, g][1].weight;
  }

  /** The same for any record without attributes, any weights and any two defaults. */
  lemma TiedDefaults(e: Entry, m: FieldConfig, f: FieldConfig, g: FieldConfig)
    requires e.record.attributes == map[] && m.field == "message" && f.field == g.field == "f"
    requires !m.required && !f.required && !g.required
    requires m.weight > 0.0 && f.weight == g.weight > 0.0
    requires e.record.body != "" && ':' !in e.record.body && f.defaultValue != g.defaultValue
    requires f.defaultValue != "" && ':' !in f.defaultValue && g.defaultValue != "" && ':' !in g.defaultValue
    ensures !Blocked(e, [m, f, g]) && !OneText(Gathered(e, [m, f, g]))
  {
    var x, y := Weighted(f.defaultValue, f.weight, f.field), Weighted(g.defaultValue, g.weight, g.field);
    OneMessage(e, m);
    FlatMapThree(OneOf(e), [m, f, g]);
    var values := [Weighted(e.record.body, m.weight, m.field), x, y];
    assert Gathered(e, [m, f, g]) == values;
    assert values[1] == x && values[2] == y;
    assert forall c :: c in [m, f, g] ==> !c.required;
    TwoTexts(values, x, y);
  }

  /** The premise on colons cannot be dropped either: one value "x:y" and the two values "x"
      and "y" join to the same text. */
  lemma ColonsCollide()
    ensures Join(["x:y"]) == Join(["x", "y"])
  {
    JoinTwo("x", "y");
  }

  /** A field configured by name alone. */
  function ByName(field: string): FieldConfig {
    FieldConfig(field, 1.0, false, "")
  }

  const DEFAULT_FIELDS := ["log.file.path", "k8s.pod.name", "message"]

  lemma DottedFieldUnseen(e: Entry, f: FieldConfig, i: nat)
    requires forall a :: a in e.record.attributes ==> e.record.attributes[a].Plain?
    requires i < |f.field| && f.field[i] == '.' && '.' !in f.field[..i]
    requires f.field[0] != 'r' && f.field[0] != 'm' && f.field[0] != 'b'
    requires !f.required && f.defaultValue == ""
    ensures Raw(e, f) == ""
  {
    DottedPathNeedsNesting(e.record.attributes, f.field, i);
    assert RESOURCE_PREFIX[0] == 'r' && "message"[0] == 'm' && "body"[0] == 'b';
  }

  lemma OneMessage(e: Entry, f: FieldConfig)
    requires f.field == "message" && !f.required && e.record.body != ""
    ensures One(e, f) == [Weighted(e.record.body, f.weight, f.field)] && !Blocks(e, f)
  {
  }

  /** With the built-in fields a record is identified by its message alone if and only if
      neither of the two attribute paths leads to a text. */
  lemma DefaultIdIsTheMessageIff(e: Entry, random: string)
    requires e.record.body != ""
    ensures Id(e, Map(ByName, DEFAULT_FIELDS), random) == e.record.body
       <==> Raw(e, ByName(DEFAULT_FIELDS[0])) == "" && Raw(e, ByName(DEFAULT_FIELDS[1])) == ""
  {
    assert DEFAULT_FIELDS == [DEFAULT_FIELDS[0], DEFAULT_FIELDS[1], DEFAULT_FIELDS[2]];
    MessageAloneIff(e, DEFAULT_FIELDS[0], DEFAULT_FIELDS[1], DEFAULT_FIELDS[2], random);
  }

  lemma MessageAloneIff(e: Entry, a: string, b: string, c: string, random: string)
    requires e.record.body != "" && c == "message"
    ensures Id(e, Map(ByName, [a, b, c]), random) == e.record.body
       <==> Raw(e, ByName(a)) == "" && Raw(e, ByName(b)) == ""
  {
    var fields, message := Map(ByName, [a, b, c]), Weighted(e.record.body, 1.0, c);
    OneMessage(e, ByName(c));
    if Raw(e, ByName(a)) == "" && Raw(e, ByName(b)) == "" {
      OneValueId(e, fields, message, random);
    } else {
      MoreThanTheMessage(e, fields, message, random);
    }
  }

  /** With another value beside it the message cannot be the whole text. */
  lemma MoreThanTheMessage(e: Entry, fields: seq<FieldConfig>, w: Weighted, random: string)
    requires |fields| == 3 && SameWeights(fields) && !Blocked(e, fields) && One(e, fields[2]) == [w]
    requires One(e, fields[0]) != [] || One(e, fields[1]) != []
    ensures Id(e, fields, random) != w.value
  {
    FlatMapThree(OneOf(e), fields);
    SeenAll(e, fields);
    var values := Map(ValueOf, Gathered(e, fields));
    assert |values| >= 2 && values[|values| - 1] == w.value;
    StringsOrdered();
    SortSorts(LessEq, values);
    SameElements(Sort(LessEq, values), values);
    JoinLonger(Sort(LessEq, values), w.value);
  }

  /** The joined text of two or more parts is longer than any of them. */
  lemma {:induction false} JoinLonger(parts: seq<string>, x: string)
    requires |parts| >= 2 && x in parts
    ensures |Join(parts)| > |x|
  {
    var m := |parts| - 1;
    assert parts == parts[..m] + [parts[m]];
    if x == parts[m] {
    } else if m == 1 {
      assert parts[..1] == [parts[0]];
    } else {
      JoinLonger(parts[..m], x);
    }
  }

  /** In particular whenever all attributes are plain, since both paths contain dots. */
  lemma DefaultIdIsTheMessage(e: Entry, random: string)
    requires forall a :: a in e.record.attributes ==> e.record.attributes[a].Plain?
    requires e.record.body != ""
    ensures Id(e, Map(ByName, DEFAULT_FIELDS), random) == e.record.body
  {
    OnlyTheMessage(e, DEFAULT_FIELDS[0], DEFAULT_FIELDS[1], DEFAULT_FIELDS[2], random);
    assert DEFAULT_FIELDS == [DEFAULT_FIELDS[0], DEFAULT_FIELDS[1], DEFAULT_FIELDS[2]];
  }

  lemma OnlyTheMessage(e: Entry, a: string, b: string, c: string, random: string)
    requires forall a :: a in e.record.attributes ==> e.record.attributes[a].Plain?
    requires e.record.body != "" && c == "message"
    requires |a| > 3 && a[3] == '.' && '.' !in a[..3] && a[0] != 'r' && a[0] != 'm' && a[0] != 'b'
    requires |b| > 3 && b[3] == '.' && '.' !in b[..3] && b[0] != 'r' && b[0] != 'm' && b[0] != 'b'
    ensures Id(e, Map(ByName, [a, b, c]), random) == e.record.body
  {
    DottedFieldUnseen(e, ByName(a), 3);
    DottedFieldUnseen(e, ByName(b), 3);
    MessageAloneIff(e, a, b, c, random);
  }

  lemma OneValueId(e: Entry, fields: seq<FieldConfig>, w: Weighted, random: string)
    requires |fields| == 3 && SameWeights(fields) && !Blocked(e, fields)
    requires One(e, fields[0]) == One(e, fields[1]) == [] && One(e, fields[2]) == [w]
    ensures Id(e, fields, random) == w.value
  {
    FlatMapThree(OneOf(e), fields);
    assert Gathered(e, fields) == [w];
    SeenAll(e, fields);
    assert Map(ValueOf, [w]) == [w.value];
    assert Sort(LessEq, [w.value]) == [w.value];
  }

  lemma FlatMapThree<S, T>(f: S -> seq<T>, s: seq<S>)
    requires |s| == 3
    ensures FlatMap(f, s) == f(s[0]) + f(s[1]) + f(s[2])
  {
    assert s[..2][..1] == s[..1] && s[..1][..0] == [];
    assert FlatMap(f, s[..1]) == f(s[0]);
  }
}
