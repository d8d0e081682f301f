/** The logs request itself (bench/proto_bench.zig:30-80): what `walk` adds up off the tree, the
    octets the encoder writes for it (proto/encode.zig:47-182), and when the decoder that never
    builds the tree agrees with the walk (bench/proto_bench.zig:292-300). */
module Logs {
  import opened Bytes
  import opened Common
  import opened Wire
  import Utf8

  type u64 = v: int | 0 <= v < 0x1_0000_0000_0000_0000
  type i64 = v: int | -0x8000_0000_0000_0000 <= v < 0x8000_0000_0000_0000
  type i32 = v: int | -0x8000_0000 <= v < 0x8000_0000

  /** A double is its 64 bits. */
  datatype Scalar =
    | StringValue(text: seq<byte>)
    | BoolValue(b: bool)
    | IntValue(i: i64)
    | DoubleValue(bits: u64)

  datatype AnyValue = AnyValue(value: Option<Scalar>)

  datatype KeyValue = KeyValue(key: seq<byte>, value: Option<AnyValue>)

  datatype LogRecord = LogRecord(
    timeUnixNano: u64,
    severityNumber: i32,
    severityText: seq<byte>,
    body: Option<AnyValue>,
    attributes: seq<KeyValue>,
    traceId: seq<byte>,
    spanId: seq<byte>)

  datatype ScopeLogs = ScopeLogs(records: seq<LogRecord>)

  datatype ResourceLogs = ResourceLogs(scopes: seq<ScopeLogs>)

  datatype Request = Request(resources: seq<ResourceLogs>)

  /** `@bitCast` of a signed integer to 64 unsigned bits, sign extended. */
  function Bits(i: i64): u64 {
    if i >= 0 then i else i + TWO_64
  }

  /** The 64 bits of an integer are its value modulo 2^64. */
  lemma BitsAreTheValue(i: i64)
    ensures Bits(i) == i % 0x1_0000_0000_0000_0000
  {
    if i < 0 { Remainder64(Bits(i), 0, Bits(i)); }
  }

  // ---- what the walk adds up, before wrapping, where its cast takes every severity number ----

  function ScalarTotal(v: Scalar): nat {
    match v
    case StringValue(text) => |text|
    case BoolValue(b) => if b then 1 else 0
    case IntValue(i) => Bits(i)
    case DoubleValue(bits) => bits
  }

  function AnyTotal(v: Option<AnyValue>): nat {
    if v.Some? && v.value.value.Some? then ScalarTotal(v.value.value.value) else 0
  }

  /** Of a body, the walk reads only text. */
  function BodyTotal(v: Option<AnyValue>): nat {
    if v.Some? && v.value.value.Some? && v.value.value.value.StringValue? then |v.value.value.value.text| else 0
  }

  function KeyValueTotal(kv: KeyValue): nat {
    |kv.key| + AnyTotal(kv.value)
  }

  function Sum<T>(f: T -> nat, xs: seq<T>): nat {
    if xs == [] then 0 else f(xs[0]) + Sum(f, xs[1..])
  }

  function Low32(i: i32): nat { i % TWO_32 }

  /** What every record adds on either side: all of it but the body. */
  function PlainTotal(r: LogRecord): nat {
    r.timeUnixNano + Low32(r.severityNumber) + |r.severityText| + |r.traceId| + |r.spanId|
    + Sum(KeyValueTotal, r.attributes)
  }

  function WalkRecord(r: LogRecord): nat { PlainTotal(r) + BodyTotal(r.body) }

  function WalkScope(s: ScopeLogs): nat { Sum(WalkRecord, s.records) }

  function WalkResource(r: ResourceLogs): nat { Sum(WalkScope, r.scopes) }

  function WalkTotal(req: Request): nat { Sum(WalkResource, req.resources) }

  /** The walk casts the severity to an unsigned number, which has no negative values. */
  predicate ScopeCasts(s: ScopeLogs) { forall r <- s.records :: r.severityNumber >= 0 }

  predicate NonNegative(req: Request) {
    forall rl <- req.resources, sl <- rl.scopes :: ScopeCasts(sl)
  }

  /** The walk's sum, and none when it traps on a severity number. */
  function WalkSum(req: Request): Option<nat> {
    if NonNegative(req) then Some(Wrap64(WalkTotal(req))) else None
  }

  // ---- the encoder: fields in number order, zero scalars left out ----

  function When(present: bool, f: Field): seq<Field> {
    if present then [f] else []
  }

  function ScalarField(v: Scalar): Field {
    match v
    case StringValue(text) => Field(1, Len(text))
    case BoolValue(b) => Field(2, Varint(if b then 1 else 0))
    case IntValue(i) => Field(3, Varint(Bits(i)))
    case DoubleValue(bits) => Field(4, Fixed64(bits))
  }

  function ValueFields(v: AnyValue): seq<Field> {
    if v.value.Some? then [ScalarField(v.value.value)] else []
  }

  function EncodeValue(v: AnyValue): seq<byte> { SerializeAll(ValueFields(v)) }

  function MessageField(number: nat, v: Option<AnyValue>): seq<Field> {
    if v.Some? then [Field(number, Len(EncodeValue(v.value)))] else []
  }

  function KeyValueFields(kv: KeyValue): seq<Field> {
    When(kv.key != [], Field(1, Len(kv.key))) + MessageField(2, kv.value)
  }

  function EncodeKeyValue(kv: KeyValue): seq<byte> { SerializeAll(KeyValueFields(kv)) }

  function Repeated<T>(number: nat, encode: T -> seq<byte>, xs: seq<T>): seq<Field> {
    if xs == [] then [] else [Field(number, Len(encode(xs[0])))] + Repeated(number, encode, xs[1..])
  }

  function RecordFields(r: LogRecord): seq<Field> {
    When(r.timeUnixNano != 0, Field(1, Fixed64(r.timeUnixNano)))
    + When(r.severityNumber != 0, Field(2, Varint(Bits(r.severityNumber))))
    + When(r.severityText != [], Field(3, Len(r.severityText)))
    + MessageField(5, r.body)
    + Repeated(6, EncodeKeyValue, r.attributes)
    + When(r.traceId != [], Field(9, Len(r.traceId)))
    + When(r.spanId != [], Field(10, Len(r.spanId)))
  }

  function EncodeRecord(r: LogRecord): seq<byte> { SerializeAll(RecordFields(r)) }

  function EncodeScope(s: ScopeLogs): seq<byte> { SerializeAll(Repeated(2, EncodeRecord, s.records)) }

  function EncodeResource(r: ResourceLogs): seq<byte> { SerializeAll(Repeated(2, EncodeScope, r.scopes)) }

  function Encode(req: Request): seq<byte> { SerializeAll(Repeated(1, EncodeResource, req.resources)) }

  // ---- which strings are checked ----

  predicate ValueText(v: Option<AnyValue>) {
    v.Some? && v.value.value.Some? && v.value.value.value.StringValue? ==> Utf8.Valid(v.value.value.value.text)
  }

  predicate KeyValueText(kv: KeyValue) { Utf8.Valid(kv.key) && ValueText(kv.value) }

  predicate RecordText(r: LogRecord) {
    && Utf8.Valid(r.severityText)
    && ValueText(r.body)
    && forall kv <- r.attributes :: KeyValueText(kv)
  }

  predicate ScopeText(s: ScopeLogs) { forall r <- s.records :: RecordText(r) }

  predicate ResourceText(r: ResourceLogs) { forall s <- r.scopes :: ScopeText(s) }

  predicate AllText(req: Request) { forall r <- req.resources :: ResourceText(r) }
}
