/** Spans, their resource and scope, and the identifiers that tie them together. */
module Telemetry {
  import opened Wrappers

  type byte = n: nat | n < 256
  type TraceId = s: seq<byte> | |s| == 16 witness seq(16, _ => 0)
  type SpanId = s: seq<byte> | |s| == 8 witness seq(8, _ => 0)

  datatype Resource = Resource(attributes: map<string, string>)

  datatype Scope = Scope(name: string, version: string, attributes: map<string, string>)

  datatype Span = Span(
    traceId: TraceId, spanId: SpanId, parentSpanId: SpanId,
    name: string, kind: string, start: int, end: int,
    statusCode: int, statusMessage: string)
  {
    /** A span whose parent identifier is all zeros has no parent. */
    predicate IsRoot()
      ensures IsRoot() <==> forall i :: 0 <= i < 8 ==> parentSpanId[i] == 0
    {
      parentSpanId == seq(8, _ => 0)
    }
  }

  datatype SpanInContext = SpanInContext(span: Span, resource: Resource, scope: Scope)

  /** The fields of a span that a checkpoint keeps. */
  datatype SpanSummary = SpanSummary(
    traceId: TraceId, spanId: SpanId, parentSpanId: Option<SpanId>,
    name: string, kind: string, start: int, end: int,
    statusCode: int, statusMessage: string,
    serviceName: string, tenantId: string)

  function AttributeOrEmpty(resource: Resource, key: string): string {
    if key in resource.attributes then resource.attributes[key] else ""
  }

  function Summarize(s: SpanInContext): (summary: SpanSummary)
    ensures summary.traceId == s.span.traceId && summary.spanId == s.span.spanId
    ensures summary.parentSpanId.None? <==> forall i :: 0 <= i < 8 ==> s.span.parentSpanId[i] == 0
    ensures summary.parentSpanId.Some? ==> summary.parentSpanId.value == s.span.parentSpanId
    ensures summary.name == s.span.name && summary.kind == s.span.kind
    ensures summary.start == s.span.start && summary.end == s.span.end
    ensures summary.statusCode == s.span.statusCode && summary.statusMessage == s.span.statusMessage
    ensures var attributes := s.resource.attributes;
      && summary.serviceName == (if "service.name" in attributes then attributes["service.name"] else "")
      && summary.tenantId == (if "tenant.id" in attributes then attributes["tenant.id"] else "")
  {
    SpanSummary(
      s.span.traceId, s.span.spanId, if s.span.IsRoot() then None else Some(s.span.parentSpanId),
      s.span.name, s.span.kind, s.span.start, s.span.end,
      s.span.statusCode, s.span.statusMessage,
      AttributeOrEmpty(s.resource, "service.name"), AttributeOrEmpty(s.resource, "tenant.id"))
  }

  const HEX_DIGITS := "0123456789abcdef"

  function Hex(bytes: seq<byte>): (text: string)
    ensures |text| == 2 * |bytes|
  {
    if bytes == [] then ""
    else [HEX_DIGITS[bytes[0] / 16], HEX_DIGITS[bytes[0] % 16]] + Hex(bytes[1..])
  }

  /** The cache key of a span: both identifiers in hexadecimal, joined by a dash. */
  function SpanKey(traceId: TraceId, spanId: SpanId): string {
    Hex(traceId) + "-" + Hex(spanId)
  }

  lemma HexDigitInjective(m: nat, n: nat)
    requires m < 16 && n < 16 && HEX_DIGITS[m] == HEX_DIGITS[n]
    ensures m == n
  {
  }

  lemma {:induction false} HexInjective(a: seq<byte>, b: seq<byte>)
    requires Hex(a) == Hex(b)
    ensures a == b
  {
    if a == [] || b == [] {
    } else {
      var x, y := Hex(a), Hex(b);
      assert x[0] == y[0] && x[1] == y[1] && x[2..] == y[2..];
      HexDigitInjective(a[0] / 16, b[0] / 16);
      HexDigitInjective(a[0] % 16, b[0] % 16);
      HexInjective(a[1..], b[1..]);
      assert a == [a[0]] + a[1..] && b == [b[0]] + b[1..];
    }
  }

  /** Two spans share a cache key only if they share both identifiers. */
  lemma SpanKeyInjective(t1: TraceId, s1: SpanId, t2: TraceId, s2: SpanId)
    requires SpanKey(t1, s1) == SpanKey(t2, s2)
    ensures t1 == t2 && s1 == s2
  {
    var a, b := SpanKey(t1, s1), SpanKey(t2, s2);
    assert a[..32] == Hex(t1) && b[..32] == Hex(t2);
    assert a[33..] == Hex(s1) && b[33..] == Hex(s2);
    HexInjective(t1, t2);
    HexInjective(s1, s2);
  }
}
