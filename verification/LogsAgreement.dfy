/** The deforestation claim of the protobuf benchmark: reading an encoded request straight off the
    wire gives what walking the request gives, and exactly when it does. */
module LogsAgreement {
  import opened Bytes
  import opened Common
  import opened Wire
  import opened Proto
  import opened Logs
  import Utf8

  /** A sum, or the one refusal an encoded request can meet. */
  function Outcome(ok: bool, n: nat): Result<nat> {
    if ok then Ok(Wrap64(n)) else Err(InvalidUtf8)
  }

  /** A field an encoder may write, whatever its length. */
  predicate Shaped(f: Field) {
    && 1 <= f.number < 0x2000_0000
    && match f.payload
       case Varint(v) => v < TWO_64
       case Fixed64(v) => v < TWO_64
       case Fixed32(_) => false
       case Len(_) => true
       case Group(_) => false
  }

  /** These fields add `n` to any sum, or are refused when `ok` is false. */
  ghost predicate Yields(level: Level, fs: seq<Field>, ok: bool, n: nat) {
    && (forall f <- fs :: Shaped(f))
    && forall sum: nat | sum < TWO_64 :: SumFrom(level, fs, sum) == Outcome(ok, sum + n)
  }

  lemma YieldsNone(level: Level)
    ensures Yields(level, [], true, 0)
  {
  }

  lemma YieldsOne(level: Level, f: Field, ok: bool, n: nat)
    requires Shaped(f) && FieldValue(level, f) == Outcome(ok, n)
    ensures Yields(level, [f], ok, n)
  {
    hide FieldValue, Shaped, Wrap64;
    forall sum: nat | sum < TWO_64 ensures SumFrom(level, [f], sum) == Outcome(ok, sum + n) {
      assert [f][1..] == [];
      Wraps64(n, sum);
    }
  }

  lemma {:induction false} SumAppends(level: Level, fs: seq<Field>, gs: seq<Field>, sum: nat)
    ensures SumFrom(level, fs + gs, sum)
         == match SumFrom(level, fs, sum)
            case Ok(v) => SumFrom(level, gs, v)
            case Err(e) => Err(e)
    decreases |fs|
  {
    hide FieldValue, Add, Wrap64;
    if fs == [] {
      assert fs + gs == gs;
    } else {
      assert (fs + gs)[1..] == fs[1..] + gs;
      var v := FieldValue(level, fs[0]);
      if v.Ok? { SumAppends(level, fs[1..], gs, Add(sum, v.value)); }
    }
  }

  lemma YieldsBoth(level: Level, fs: seq<Field>, okF: bool, n: nat, gs: seq<Field>, okG: bool, m: nat)
    requires Yields(level, fs, okF, n) && Yields(level, gs, okG, m)
    ensures Yields(level, fs + gs, okF && okG, n + m)
  {
    hide SumFrom, Shaped, Wrap64;
    forall sum: nat | sum < TWO_64 ensures SumFrom(level, fs + gs, sum) == Outcome(okF && okG, sum + (n + m)) {
      SumAppends(level, fs, gs, sum);
      Wraps64(sum + n, m);
    }
  }

  // ---- lengths ----

  lemma {:induction false} PartFits(fs: seq<Field>, f: Field)
    requires f in fs && f.payload.Len?
    ensures |f.payload.octets| <= |SerializeAll(fs)|
    decreases |fs|
  {
    assert SerializeAll(fs) == Serialize(fs[0]) + SerializeAll(fs[1..]);
    if fs[0] != f { PartFits(fs[1..], f); }
  }

  lemma AllFit(fs: seq<Field>)
    requires forall f <- fs :: Shaped(f)
    requires |SerializeAll(fs)| < TWO_64
    ensures AllWellFormed(fs)
  {
    hide SerializeAll, Wrap64;
    forall f | f in fs ensures WellFormed(f, MAX_DEPTH) {
      assert Shaped(f);
      if f.payload.Len? { PartFits(fs, f); }
    }
  }

  /** A message whose fields yield `n` streams to `n`. */
  lemma Streams(level: Level, fs: seq<Field>, ok: bool, n: nat)
    requires Yields(level, fs, ok, n) && |SerializeAll(fs)| < TWO_64
    ensures Stream(level, SerializeAll(fs)) == Outcome(ok, n)
  {
    hide SerializeAll, SumFrom, StreamFrom, Wrap64;
    AllFit(fs);
    StreamIsFieldSum(level, fs, 0);
    assert 0 + n == n;
  }

  // ---- the messages, innermost first ----

  lemma ValueStreams(v: AnyValue)
    requires |EncodeValue(v)| < TWO_64
    ensures Stream(Value, EncodeValue(v)) == Outcome(ValueText(Some(v)), AnyTotal(Some(v)))
  {
    hide SerializeAll, StreamFrom, Utf8.Valid, Wrap64;
    if v.value.None? {
      YieldsNone(Value);
    } else {
      var f := ScalarField(v.value.value);
      if f.payload.Len? { PartFits([f], f); }
      YieldsOne(Value, f, ValueText(Some(v)), AnyTotal(Some(v)));
    }
    Streams(Value, ValueFields(v), ValueText(Some(v)), AnyTotal(Some(v)));
  }

  lemma TextYields(level: Level, number: nat, text: seq<byte>)
    requires 1 <= number < 16 && |text| < TWO_64
    requires Action(level, number, LEN) == AddText
    ensures Yields(level, When(text != [], Field(number, Len(text))), Utf8.Valid(text), |text|)
  {
    hide Action, Wrap64;
    if text == [] { YieldsNone(level); } else {
      hide Utf8.Valid, Wrap64;
      YieldsOne(level, Field(number, Len(text)), Utf8.Valid(text), |text|);
    }
  }

  lemma LengthYields(number: nat, octets: seq<byte>)
    requires (number == 9 || number == 10) && |octets| < TWO_64
    ensures Yields(Record, When(octets != [], Field(number, Len(octets))), true, |octets|)
  {
    if octets == [] { YieldsNone(Record); } else {
      YieldsOne(Record, Field(number, Len(octets)), true, |octets|);
    }
  }

  lemma ValueYields(level: Level, number: nat, v: Option<AnyValue>)
    requires 1 <= number < 16 && Action(level, number, LEN) == Descend(Value)
    requires v.Some? ==> |EncodeValue(v.value)| < TWO_64
    ensures Yields(level, MessageField(number, v), ValueText(v), AnyTotal(v))
  {
    hide Action, Utf8.Valid, StreamFrom, EncodeValue, Wrap64;
    if v.None? { YieldsNone(level); } else {
      ValueStreams(v.value);
      YieldsOne(level, Field(number, Len(EncodeValue(v.value))), ValueText(v), AnyTotal(v));
    }
  }

  lemma KeyValueStreams(kv: KeyValue)
    requires |EncodeKeyValue(kv)| < TWO_64
    ensures Stream(Attribute, EncodeKeyValue(kv)) == Outcome(KeyValueText(kv), KeyValueTotal(kv))
  {
    hide SerializeAll, StreamFrom, Utf8.Valid, EncodeValue, Yields, AnyTotal, ValueText, Wrap64;
    var text, value := When(kv.key != [], Field(1, Len(kv.key))), MessageField(2, kv.value);
    var fs := text + value;
    if kv.key != [] { assert text[0] in fs; PartFits(fs, text[0]); }
    if kv.value.Some? { assert value[0] in fs; PartFits(fs, value[0]); }
    TextYields(Attribute, 1, kv.key);
    ValueYields(Attribute, 2, kv.value);
    YieldsBoth(Attribute, text, Utf8.Valid(kv.key), |kv.key|, value, ValueText(kv.value), AnyTotal(kv.value));
    Streams(Attribute, fs, KeyValueText(kv), KeyValueTotal(kv));
  }

  /** Repeated messages: every one is read, and one refusal refuses them all. */
  lemma {:induction false} RepeatedYields<T>(level: Level, number: nat, encode: T -> seq<byte>, xs: seq<T>,
                                             ok: T -> bool, total: T -> nat)
    requires 1 <= number < 16 && Action(level, number, LEN).Descend?
    requires forall x <- xs :: Stream(Action(level, number, LEN).next, encode(x)) == Outcome(ok(x), total(x))
    ensures Yields(level, Repeated(number, encode, xs), forall x <- xs :: ok(x), Sum(total, xs))
    decreases |xs|
  {
    hide Action, StreamFrom, Wrap64;
    if xs == [] { YieldsNone(level); } else {
      assert xs[0] in xs && forall x <- xs[1..] :: x in xs;
      assert xs == [xs[0]] + xs[1..];
      var f := Field(number, Len(encode(xs[0])));
      YieldsOne(level, f, ok(xs[0]), total(xs[0]));
      RepeatedYields(level, number, encode, xs[1..], ok, total);
      YieldsBoth(level, [f], ok(xs[0]), total(xs[0]),
                 Repeated(number, encode, xs[1..]), forall x <- xs[1..] :: ok(x), Sum(total, xs[1..]));
    }
  }

  lemma {:induction false} RepeatedFits<T>(number: nat, encode: T -> seq<byte>, xs: seq<T>, x: T)
    requires x in xs
    ensures Field(number, Len(encode(x))) in Repeated(number, encode, xs)
    decreases |xs|
  {
    if xs[0] != x { RepeatedFits(number, encode, xs[1..], x); }
  }

  /** The record as the decoder adds it up: the body's number counts too. */
  function StreamRecordTotal(r: LogRecord): nat { PlainTotal(r) + AnyTotal(r.body) }

  function HeadFields(r: LogRecord): seq<Field> {
    When(r.timeUnixNano != 0, Field(1, Fixed64(r.timeUnixNano)))
    + When(r.severityNumber != 0, Field(2, Varint(Bits(r.severityNumber))))
    + When(r.severityText != [], Field(3, Len(r.severityText)))
    + MessageField(5, r.body)
  }

  lemma HeadYields(r: LogRecord)
    requires |r.severityText| < TWO_64
    requires r.body.Some? ==> |EncodeValue(r.body.value)| < TWO_64
    ensures Yields(Record, HeadFields(r), Utf8.Valid(r.severityText) && ValueText(r.body),
                   r.timeUnixNano + Low32(r.severityNumber) + |r.severityText| + AnyTotal(r.body))
  {
    hide Yields, StreamFrom, EncodeValue, Utf8.Valid, AnyTotal, ValueText, Wrap64;
    var numbers := When(r.timeUnixNano != 0, Field(1, Fixed64(r.timeUnixNano)))
                   + When(r.severityNumber != 0, Field(2, Varint(Bits(r.severityNumber))));
    var text := When(r.severityText != [], Field(3, Len(r.severityText)));
    var n := r.timeUnixNano + Low32(r.severityNumber);
    NumberYields(r);
    TextYields(Record, 3, r.severityText);
    ValueYields(Record, 5, r.body);
    YieldsBoth(Record, numbers, true, n, text, Utf8.Valid(r.severityText), |r.severityText|);
    YieldsBoth(Record, numbers + text, Utf8.Valid(r.severityText), n + |r.severityText|,
               MessageField(5, r.body), ValueText(r.body), AnyTotal(r.body));
  }

  lemma RecordYields(r: LogRecord)
    requires |r.severityText| < TWO_64 && |r.traceId| < TWO_64 && |r.spanId| < TWO_64
    requires r.body.Some? ==> |EncodeValue(r.body.value)| < TWO_64
    requires forall kv <- r.attributes :: |EncodeKeyValue(kv)| < TWO_64
    ensures Yields(Record, RecordFields(r), RecordText(r), StreamRecordTotal(r))
  {
    hide Yields, StreamFrom, EncodeValue, EncodeKeyValue, Utf8.Valid, KeyValueText, KeyValueTotal, AnyTotal, ValueText, Wrap64;
    var head, attributes := HeadFields(r), Repeated(6, EncodeKeyValue, r.attributes);
    var trace, span := When(r.traceId != [], Field(9, Len(r.traceId))), When(r.spanId != [], Field(10, Len(r.spanId)));
    var headOk, allKv := Utf8.Valid(r.severityText) && ValueText(r.body), forall kv <- r.attributes :: KeyValueText(kv);
    var n := r.timeUnixNano + Low32(r.severityNumber) + |r.severityText| + AnyTotal(r.body);
    var kvTotal := Sum(KeyValueTotal, r.attributes);
    HeadYields(r);
    forall kv | kv in r.attributes ensures Stream(Attribute, EncodeKeyValue(kv)) == Outcome(KeyValueText(kv), KeyValueTotal(kv)) {
      KeyValueStreams(kv);
    }
    RepeatedYields(Record, 6, EncodeKeyValue, r.attributes, KeyValueText, KeyValueTotal);
    LengthYields(9, r.traceId);
    LengthYields(10, r.spanId);
    YieldsBoth(Record, head, headOk, n, attributes, allKv, kvTotal);
    YieldsBoth(Record, head + attributes, headOk && allKv, n + kvTotal, trace, true, |r.traceId|);
    YieldsBoth(Record, head + attributes + trace, headOk && allKv, n + kvTotal + |r.traceId|, span, true, |r.spanId|);
  }

  lemma NumberYields(r: LogRecord)
    ensures Yields(Record, When(r.timeUnixNano != 0, Field(1, Fixed64(r.timeUnixNano)))
                           + When(r.severityNumber != 0, Field(2, Varint(Bits(r.severityNumber)))),
                   true, r.timeUnixNano + Low32(r.severityNumber))
  {
    var time, severity := Field(1, Fixed64(r.timeUnixNano)), Field(2, Varint(Bits(r.severityNumber)));
    YieldsNone(Record);
    YieldsOne(Record, time, true, r.timeUnixNano);
    assert Truncate32(Bits(r.severityNumber)) == Low32(r.severityNumber);
    YieldsOne(Record, severity, true, Low32(r.severityNumber));
    YieldsBoth(Record, When(r.timeUnixNano != 0, time), true, r.timeUnixNano,
               When(r.severityNumber != 0, severity), true, Low32(r.severityNumber));
  }

  lemma RecordStreams(r: LogRecord)
    requires |EncodeRecord(r)| < TWO_64
    ensures Stream(Record, EncodeRecord(r)) == Outcome(RecordText(r), StreamRecordTotal(r))
  {
    hide SerializeAll, StreamFrom, Yields, EncodeValue, EncodeKeyValue, RecordText, StreamRecordTotal, When, MessageField, Repeated, Wrap64;
    RecordPartsFit(r);
    RecordYields(r);
    Streams(Record, RecordFields(r), RecordText(r), StreamRecordTotal(r));
  }

  lemma RecordPartsFit(r: LogRecord)
    requires |EncodeRecord(r)| < TWO_64
    ensures |r.severityText| < TWO_64 && |r.traceId| < TWO_64 && |r.spanId| < TWO_64
    ensures r.body.Some? ==> |EncodeValue(r.body.value)| < TWO_64
    ensures forall kv <- r.attributes :: |EncodeKeyValue(kv)| < TWO_64
  {
    hide SerializeAll, EncodeValue, EncodeKeyValue, Wrap64;
    var fs := RecordFields(r);
    if r.severityText != [] { PartFits(fs, Field(3, Len(r.severityText))); }
    if r.traceId != [] { PartFits(fs, Field(9, Len(r.traceId))); }
    if r.spanId != [] { PartFits(fs, Field(10, Len(r.spanId))); }
    if r.body.Some? { PartFits(fs, Field(5, Len(EncodeValue(r.body.value)))); }
    forall kv | kv in r.attributes ensures |EncodeKeyValue(kv)| < TWO_64 {
      RepeatedFits(6, EncodeKeyValue, r.attributes, kv);
      PartFits(fs, Field(6, Len(EncodeKeyValue(kv))));
    }
  }

  /** A message that is one repeated field. */
  lemma RepeatedStreams<T>(level: Level, number: nat, encode: T -> seq<byte>, xs: seq<T>,
                           ok: T -> bool, total: T -> nat)
    requires 1 <= number < 16 && Action(level, number, LEN).Descend?
    requires forall x <- xs :: |encode(x)| < TWO_64 ==>
               Stream(Action(level, number, LEN).next, encode(x)) == Outcome(ok(x), total(x))
    requires |SerializeAll(Repeated(number, encode, xs))| < TWO_64
    ensures Stream(level, SerializeAll(Repeated(number, encode, xs))) == Outcome(forall x <- xs :: ok(x), Sum(total, xs))
  {
    hide SerializeAll, StreamFrom, Yields, Action, Wrap64;
    forall x | x in xs ensures |encode(x)| < TWO_64 {
      RepeatedFits(number, encode, xs, x);
      PartFits(Repeated(number, encode, xs), Field(number, Len(encode(x))));
    }
    RepeatedYields(level, number, encode, xs, ok, total);
    Streams(level, Repeated(number, encode, xs), forall x <- xs :: ok(x), Sum(total, xs));
  }

  function StreamScopeTotal(s: ScopeLogs): nat { Sum(StreamRecordTotal, s.records) }

  function StreamResourceTotal(r: ResourceLogs): nat { Sum(StreamScopeTotal, r.scopes) }

  function StreamTotal(req: Request): nat { Sum(StreamResourceTotal, req.resources) }

  lemma ScopeStreams(s: ScopeLogs)
    requires |EncodeScope(s)| < TWO_64
    ensures Stream(Scope, EncodeScope(s)) == Outcome(ScopeText(s), StreamScopeTotal(s))
  {
    hide SerializeAll, StreamFrom, EncodeRecord, RecordText, StreamRecordTotal, Wrap64;
    forall r | r in s.records && |EncodeRecord(r)| < TWO_64
      ensures Stream(Record, EncodeRecord(r)) == Outcome(RecordText(r), StreamRecordTotal(r))
    {
      RecordStreams(r);
    }
    RepeatedStreams(Scope, 2, EncodeRecord, s.records, RecordText, StreamRecordTotal);
  }

  lemma ResourceStreams(r: ResourceLogs)
    requires |EncodeResource(r)| < TWO_64
    ensures Stream(Resource, EncodeResource(r)) == Outcome(ResourceText(r), StreamResourceTotal(r))
  {
    hide SerializeAll, StreamFrom, EncodeScope, ScopeText, StreamScopeTotal, Wrap64;
    forall s | s in r.scopes && |EncodeScope(s)| < TWO_64
      ensures Stream(Scope, EncodeScope(s)) == Outcome(ScopeText(s), StreamScopeTotal(s))
    {
      ScopeStreams(s);
    }
    RepeatedStreams(Resource, 2, EncodeScope, r.scopes, ScopeText, StreamScopeTotal);
  }

  /** What `stream` answers for any request's encoding: every number in it, or a refusal exactly
      when some string is not UTF-8. */
  lemma StreamOfEncoding(req: Logs.Request)
    requires |Encode(req)| < TWO_64
    ensures Stream(Proto.Request, Encode(req)) == Outcome(AllText(req), StreamTotal(req))
  {
    hide SerializeAll, StreamFrom, EncodeResource, ResourceText, StreamResourceTotal, Wrap64;
    forall r | r in req.resources && |EncodeResource(r)| < TWO_64
      ensures Stream(Resource, EncodeResource(r)) == Outcome(ResourceText(r), StreamResourceTotal(r))
    {
      ResourceStreams(r);
    }
    RepeatedStreams(Proto.Request, 1, EncodeResource, req.resources, ResourceText, StreamResourceTotal);
  }

  // ---- against the walk ----

  /** What a record's body adds on the wire and the walk does not read. */
  function BodyNumber(r: LogRecord): nat {
    AnyTotal(r.body) - BodyTotal(r.body)
  }

  function ScopeNumbers(s: ScopeLogs): nat { Sum(BodyNumber, s.records) }

  function ResourceNumbers(r: ResourceLogs): nat { Sum(ScopeNumbers, r.scopes) }

  function BodyNumbers(req: Logs.Request): nat { Sum(ResourceNumbers, req.resources) }

  lemma {:induction false} SumSplits<T>(f: T -> nat, g: T -> nat, h: T -> nat, xs: seq<T>)
    requires forall x <- xs :: f(x) == g(x) + h(x)
    ensures Sum(f, xs) == Sum(g, xs) + Sum(h, xs)
    decreases |xs|
  {
    if xs != [] {
      assert xs[0] in xs && forall x <- xs[1..] :: x in xs;
      SumSplits(f, g, h, xs[1..]);
    }
  }

  lemma TotalsDiffer(req: Logs.Request)
    ensures StreamTotal(req) == WalkTotal(req) + BodyNumbers(req)
  {
    forall s: ScopeLogs ensures StreamScopeTotal(s) == WalkScope(s) + ScopeNumbers(s) {
      SumSplits(StreamRecordTotal, WalkRecord, BodyNumber, s.records);
    }
    forall r: ResourceLogs ensures StreamResourceTotal(r) == WalkResource(r) + ResourceNumbers(r) {
      SumSplits(StreamScopeTotal, WalkScope, ScopeNumbers, r.scopes);
    }
    SumSplits(StreamResourceTotal, WalkResource, ResourceNumbers, req.resources);
  }

  /** Both decoders come to a sum, and it is the same. */
  predicate Agree(req: Logs.Request) {
    WalkSum(req).Some? && Stream(Proto.Request, Encode(req)) == Ok(WalkSum(req).value)
  }

  /** The two decoders agree on an encoded request exactly when every string is UTF-8, no severity
      number traps the walk, and the numbers in record bodies, which only `stream` adds, cancel out. */
  lemma AgreementExact(req: Logs.Request)
    requires |Encode(req)| < TWO_64
    ensures Agree(req) <==> AllText(req) && NonNegative(req) && Wrap64(BodyNumbers(req)) == 0
  {
    hide SerializeAll, StreamFrom, AllText, StreamTotal, WalkTotal, BodyNumbers, Wrap64, NonNegative;
    StreamOfEncoding(req);
    TotalsDiffer(req);
    Cancels64(WalkTotal(req), BodyNumbers(req));
  }

  /** As the benchmark builds them: bodies absent or text. */
  ghost predicate TextBodies(req: Logs.Request) {
    forall rl <- req.resources, sl <- rl.scopes, lr <- sl.records ::
      lr.body.Some? && lr.body.value.value.Some? ==> lr.body.value.value.value.StringValue?
  }

  lemma {:induction false} SumOfZeros<T>(f: T -> nat, xs: seq<T>)
    requires forall x <- xs :: f(x) == 0
    ensures Sum(f, xs) == 0
    decreases |xs|
  {
    if xs != [] {
      assert xs[0] in xs && forall x <- xs[1..] :: x in xs;
      SumOfZeros(f, xs[1..]);
    }
  }

  /** On what the benchmark builds, whose severities are 9, the sum off the wire is the sum off the tree. */
  lemma AgreementOnTextBodies(req: Logs.Request)
    requires |Encode(req)| < TWO_64 && AllText(req) && TextBodies(req) && NonNegative(req)
    ensures Agree(req)
  {
    hide SerializeAll, StreamFrom, AllText, WalkTotal, Wrap64, NonNegative, Agree;
    forall rl | rl in req.resources ensures ResourceNumbers(rl) == 0 {
      forall sl | sl in rl.scopes ensures ScopeNumbers(sl) == 0 {
        SumOfZeros(BodyNumber, sl.records);
      }
      SumOfZeros(ScopeNumbers, rl.scopes);
    }
    SumOfZeros(ResourceNumbers, req.resources);
    AgreementExact(req);
  }

  function OneRecord(r: LogRecord): Logs.Request {
    Logs.Request([ResourceLogs([ScopeLogs([r])])])
  }

  lemma OneRecordFits(r: LogRecord)
    requires |EncodeRecord(r)| < 100
    ensures |Encode(OneRecord(r))| == |EncodeRecord(r)| + 6
  {
    hide SerializeAll, EncodeRecord, Wrap64;
    var sl := ScopeLogs([r]);
    var rl := ResourceLogs([sl]);
    assert Repeated(2, EncodeRecord, sl.records) == [Field(2, Len(EncodeRecord(r)))];
    SerializeOne(2, EncodeRecord(r));
    assert Repeated(2, EncodeScope, rl.scopes) == [Field(2, Len(EncodeScope(sl)))];
    SerializeOne(2, EncodeScope(sl));
    assert Repeated(1, EncodeResource, [rl]) == [Field(1, Len(EncodeResource(rl)))];
    SerializeOne(1, EncodeResource(rl));
  }

  const NUMBER_BODY: LogRecord := LogRecord(0, 0, [], Some(AnyValue(Some(IntValue(1)))), [], [], [])

  /** One record with the number 1 for a body: the smallest request the decoders differ on. */
  lemma NumberBodyDisagrees()
    ensures Stream(Proto.Request, Encode(OneRecord(NUMBER_BODY))) == Ok(1)
    ensures WalkSum(OneRecord(NUMBER_BODY)) == Some(0)
  {
    hide SerializeAll, StreamFrom, Encode, Wrap64;
    assert EncodeValue(AnyValue(Some(IntValue(1)))) == [24, 1] by { ValueOne(); }
    assert RecordFields(NUMBER_BODY) == [Field(5, Len([24, 1]))];
    SerializeOne(5, [24, 1]);
    OneRecordFits(NUMBER_BODY);
    StreamOfEncoding(OneRecord(NUMBER_BODY));
    assert Utf8.Valid([]);
  }

  lemma ValueOne()
    ensures SerializeAll([Field(3, Varint(1))]) == [24, 1]
  {
    assert [Field(3, Varint(1))][1..] == [];
    assert EncodeKey(3, VARINT) == [24] && EncodeVarint(1) == [1];
  }

  lemma SerializeOne(number: nat, octets: seq<byte>)
    requires number < 16 && |octets| < 128
    ensures |SerializeAll([Field(number, Len(octets))])| == |octets| + 2
  {
    assert [Field(number, Len(octets))][1..] == [];
    assert EncodeKey(number, LEN) == [number * 8 + 2] && EncodeVarint(|octets|) == [|octets|];
    assert Serialize(Field(number, Len(octets))) == [number * 8 + 2] + ([|octets|] + octets);
  }

  const NEGATIVE: LogRecord := LogRecord(0, -1, [], None, [], [], [])

  /** One record with the severity -1: a sum off the wire, and a walk that traps. */
  lemma NegativeSeverityTraps()
    ensures Stream(Proto.Request, Encode(OneRecord(NEGATIVE))) == Ok(TWO_32 - 1)
    ensures WalkSum(OneRecord(NEGATIVE)) == None
  {
    hide SerializeAll, StreamFrom, Encode, Wrap64;
    assert RecordFields(NEGATIVE) == [Field(2, Varint(TWO_64 - 1))];
    TenOctets(TWO_64 - 1);
    SerializeSeverity(TWO_64 - 1);
    OneRecordFits(NEGATIVE);
    StreamOfEncoding(OneRecord(NEGATIVE));
    assert NEGATIVE in ScopeLogs([NEGATIVE]).records && !ScopeCasts(ScopeLogs([NEGATIVE]));
    assert ScopeLogs([NEGATIVE]) in OneRecord(NEGATIVE).resources[0].scopes;
    assert OneRecord(NEGATIVE).resources[0] in OneRecord(NEGATIVE).resources;
    assert Utf8.Valid([]);
  }

  lemma SerializeSeverity(v: nat)
    ensures |SerializeAll([Field(2, Varint(v))])| == 1 + |EncodeVarint(v)|
  {
    var f := Field(2, Varint(v));
    assert [f][1..] == [] && EncodeKey(2, VARINT) == [16];
    assert Serialize(f) == [16] + EncodeVarint(v);
  }

  // ---- the walk as it runs ----

  lemma SumAppendsOne<T>(f: T -> nat, xs: seq<T>, i: nat)
    requires i < |xs|
    ensures Sum(f, xs[..i + 1]) == Sum(f, xs[..i]) + f(xs[i])
    decreases i
  {
    if i > 0 {
      assert xs[..i + 1][1..] == xs[1..][..i] && xs[..i][1..] == xs[1..][..i - 1];
      SumAppendsOne(f, xs[1..], i - 1);
    }
  }

  /** Adding on to a wrapped sum. */
  lemma AddOn(a: nat, b: nat, c: nat)
    ensures Add(Wrap64(a + b), c) == Wrap64(a + (b + c))
  {
    Wraps64(a + b, c);
  }

  method WalkOneRecord(lr: LogRecord, start: nat) returns (sum: nat)
    requires start < TWO_64 && lr.severityNumber >= 0
    ensures sum == Add(start, WalkRecord(lr))
  {
    hide AnyTotal, Add, Sum, Wrap64;
    ghost var numbers := lr.timeUnixNano + lr.severityNumber + |lr.severityText| + |lr.traceId| + |lr.spanId|;
    AddOn(start, 0, numbers);
    AddOn(start, numbers, BodyTotal(lr.body));
    AddOn(start, numbers, 0);
    sum := Add(start, lr.timeUnixNano + lr.severityNumber + |lr.severityText| + |lr.traceId| + |lr.spanId|);
    if lr.body.Some? && lr.body.value.value.Some? {
      match lr.body.value.value.value
      case StringValue(text) => sum := Add(sum, |text|);
      case _ =>
    }
    ghost var before := start + (numbers + BodyTotal(lr.body));
    SumOfNone(KeyValueTotal);
    for i := 0 to |lr.attributes|
      invariant sum == Wrap64(before + Sum(KeyValueTotal, lr.attributes[..i]))
    {
      SumAppendsOne(KeyValueTotal, lr.attributes, i);
      AddOn(before, Sum(KeyValueTotal, lr.attributes[..i]), KeyValueTotal(lr.attributes[i]));
      sum := WalkAttribute(lr.attributes[i], sum);
    }
    assert lr.attributes[..|lr.attributes|] == lr.attributes;
    assert before + Sum(KeyValueTotal, lr.attributes) == start + WalkRecord(lr);
    AddOn(start, 0, WalkRecord(lr));
  }

  lemma SumOfNone<T>(f: T -> nat)
    ensures Sum(f, []) == 0
  {
  }

  method WalkAttribute(kv: KeyValue, start: nat) returns (sum: nat)
    requires start < TWO_64
    ensures sum == Add(start, KeyValueTotal(kv))
  {
    hide Add, Wrap64;
    AddOn(start, 0, |kv.key|);
    AddOn(start, |kv.key|, AnyTotal(kv.value));
    AddOn(start, 0, KeyValueTotal(kv));
    AddOn(start, |kv.key|, 0);
    sum := Add(start, |kv.key|);
    if kv.value.Some? && kv.value.value.value.Some? {
      match kv.value.value.value.value
      case StringValue(text) => sum := Add(sum, |text|);
      case BoolValue(b) => sum := Add(sum, if b then 1 else 0);
      case IntValue(i) => sum := Add(sum, Bits(i));
      case DoubleValue(bits) => sum := Add(sum, bits);
    }
  }

  method WalkOneScope(sl: ScopeLogs, start: nat) returns (sum: Option<nat>)
    requires start < TWO_64
    ensures sum == if ScopeCasts(sl) then Some(Add(start, WalkScope(sl))) else None
  {
    hide WalkRecord, Add, Sum, Wrap64;
    var so := start;
    SumOfNone(WalkRecord);
    for k := 0 to |sl.records|
      invariant so == Wrap64(start + Sum(WalkRecord, sl.records[..k]))
      invariant forall lr <- sl.records[..k] :: lr.severityNumber >= 0
    {
      var lr := sl.records[k];
      if lr.severityNumber < 0 { return None; }
      SumAppendsOne(WalkRecord, sl.records, k);
      AddOn(start, Sum(WalkRecord, sl.records[..k]), WalkRecord(lr));
      so := WalkOneRecord(lr, so);
    }
    assert sl.records[..|sl.records|] == sl.records;
    AddOn(start, 0, WalkScope(sl));
    return Some(so);
  }

  method Walk(req: Logs.Request) returns (sum: Option<nat>)
    ensures sum == WalkSum(req)
  {
    hide WalkRecord, WalkScope, Sum, Add, Wrap64, ScopeCasts;
    var so := 0;
    SumOfNone(WalkResource);
    SumOfNone(WalkScope);
    for i := 0 to |req.resources|
      invariant so == Wrap64(0 + Sum(WalkResource, req.resources[..i]))
      invariant forall rl <- req.resources[..i], sl <- rl.scopes :: ScopeCasts(sl)
    {
      SumAppendsOne(WalkResource, req.resources, i);
      var rl := req.resources[i];
      ghost var before := Sum(WalkResource, req.resources[..i]);
      for j := 0 to |rl.scopes|
        invariant so == Wrap64(before + Sum(WalkScope, rl.scopes[..j]))
        invariant forall sl <- rl.scopes[..j] :: ScopeCasts(sl)
      {
        SumAppendsOne(WalkScope, rl.scopes, j);
        AddOn(before, Sum(WalkScope, rl.scopes[..j]), WalkScope(rl.scopes[j]));
        var scope := WalkOneScope(rl.scopes[j], so);
        if scope.None? { return None; }
        so := scope.value;
      }
      assert rl.scopes[..|rl.scopes|] == rl.scopes;
    }
    assert req.resources[..|req.resources|] == req.resources;
    return Some(so);
  }
}
