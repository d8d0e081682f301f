/** `stream`, `streamRecord`, `streamValue` and `streamString` (bench/proto_bench.zig:137-242) as
    they run: readers advancing over shared octets and one wrapping sum. Each is proved to compute
    the sum `Proto.Stream` defines, or to refuse with the same error. */
module ProtoStream {
  import opened Bytes
  import opened Wire
  import opened WireReader
  import opened Proto
  import Utf8

  /** The rest of a message loop once the field at the front of `s` is read as `c`. */
  function AfterField(level: Level, s: seq<byte>, sum: nat, c: Result<At<nat>>): Result<nat>
    requires c.Ok? ==> c.value.used <= |s|
  {
    var at :- c;
    StreamFrom(level, s[at.used..], Add(sum, at.value))
  }

  /** One turn of a message loop on octets that are not all read. */
  function Turn(level: Level, s: seq<byte>, sum: nat): Result<nat> {
    var k :- Wire.ReadKey(s);
    AfterField(level, s[k.used..], sum, ReadField(level, s[k.used..], k.value))
  }

  lemma StreamTurn(level: Level, s: seq<byte>, sum: nat)
    ensures StreamFrom(level, s, sum) == if s == [] then Ok(sum) else Turn(level, s, sum)
  {
    hide Wire.ReadKey, ReadField, Add;
  }

  lemma AddAssociates(a: nat, b: nat, c: nat)
    ensures Add(Add(a, b), c) == Add(a, Add(b, c))
  {
    Wraps64(a + b, c);
    Wraps64(b + c, a);
  }

  lemma AddZero(a: nat)
    requires a < TWO_64
    ensures Add(a, 0) == a && Add(0, a) == a
  {
  }

  function Plus(a: nat, r: Result<nat>): Result<nat> {
    match r
    case Ok(v) => Ok(Add(a, v))
    case Err(e) => Err(e)
  }

  /** A nested message's sum can be added up in place: the loops inside it add to the outer sum. */
  lemma {:induction false} StreamShifts(level: Level, s: seq<byte>, a: nat)
    requires a < TWO_64
    ensures StreamFrom(level, s, a) == Plus(a, StreamFrom(level, s, 0))
    decreases |s|
  {
    hide Wire.ReadKey, ReadField, StreamFrom, Add;
    AddZero(a);
    StreamTurn(level, s, a);
    StreamTurn(level, s, 0);
    if s != [] {
      var k := Wire.ReadKey(s);
      if k.Ok? {
        var c := ReadField(level, s[k.value.used..], k.value.value);
        if c.Ok? {
          var rest := s[k.value.used..][c.value.used..];
          var first := c.value.value;
          StreamShifts(level, rest, Add(a, first));
          StreamShifts(level, rest, Add(0, first));
          AddAssociates(a, 0, first);
          var total := StreamFrom(level, rest, 0);
          if total.Ok? { AddAssociates(a, Add(0, first), total.value); }
        }
      }
    }
  }

  function TurnMessage(level: Level, next: Level, s: seq<byte>, sum: nat): Result<nat> {
    var b :- Wire.ReadBytes(s);
    var total :- StreamFrom(next, b.value, sum);
    StreamFrom(level, s[b.used..], total)
  }

  /** A field that is a message: its sum, added to what the outer loop has. */
  lemma DescendTurn(level: Level, next: Level, s: seq<byte>, k: Key, sum: nat)
    requires Action(level, k.number, k.wire) == Descend(next) && sum < TWO_64
    ensures AfterField(level, s, sum, ReadField(level, s, k)) == TurnMessage(level, next, s, sum)
  {
    hide Wire.ReadBytes, StreamFrom, Add;
    var b := Wire.ReadBytes(s);
    if b.Ok? {
      StreamShifts(next, b.value.value, sum);
    }
  }

  function TurnSkip(level: Level, s: seq<byte>, k: Key, sum: nat): Result<nat> {
    var used :- Wire.Skip(s, k, MAX_DEPTH);
    StreamFrom(level, s[used..], sum)
  }

  /** A field the decoder does not know. */
  lemma SkipTurn(level: Level, s: seq<byte>, k: Key, sum: nat)
    requires Action(level, k.number, k.wire) == Ignore && sum < TWO_64
    ensures AfterField(level, s, sum, ReadField(level, s, k)) == TurnSkip(level, s, k, sum)
  {
    hide Wire.Skip, StreamFrom, Add;
    AddZero(sum);
  }

  /** A string field's octets: length delimited and well-formed UTF-8, or the matching refusal. */
  function ReadText(s: seq<byte>, wire: WireType): Result<seq<byte>> {
    if wire != LEN then Err(WrongWireType)
    else
      var b :- Wire.ReadBytes(s);
      if Utf8.Valid(b.value) then Ok(b.value) else Err(InvalidUtf8)
  }

  method StreamString(r: Reader, k: Key) returns (out: Result<seq<byte>>)
    requires r.Valid()
    modifies r
    ensures r.Valid() && r.pos >= old(r.pos)
    ensures out == ReadText(old(r.Rest()), k.wire)
    ensures out.Ok? ==> r.Rest() == old(r.Rest())[Wire.ReadBytes(old(r.Rest())).value.used..]
  {
    hide Wire.ReadBytes;
    if k.wire != LEN { return Err(WrongWireType); }
    var b :- r.ReadBytes();
    var valid := Utf8.ValidUtf8(b);
    if !valid { return Err(InvalidUtf8); }
    return Ok(b);
  }

  /** One field of a value: its `switch`, taken with the key read. */
  method StreamValueField(r: Reader, k: Key, start: nat) returns (out: Result<nat>)
    requires r.Valid() && start < TWO_64
    modifies r
    ensures r.Valid() && r.pos >= old(r.pos) && (out.Ok? ==> out.value < TWO_64)
    ensures AfterField(Value, old(r.Rest()), start, ReadField(Value, old(r.Rest()), k))
            == if out.Ok? then StreamFrom(Value, r.Rest(), out.value) else Err(out.error)
  {
    hide Wire.ReadKey, Wire.ReadVarint, Wire.ReadFixed, Wire.ReadBytes, Wire.Skip, Wire.SkipGroup, Wire.SplitKey;
    hide StreamFrom, Add, Truncate32, Utf8.Valid;
    match k.number
    case 1 =>
      var text :- StreamString(r, k);
      return Ok(Add(start, |text|));
    case 2 =>
      if k.wire != VARINT { return Err(WrongWireType); }
      var v :- r.ReadVarint();
      return Ok(Add(start, if v != 0 then 1 else 0));
    case 3 =>
      if k.wire != VARINT { return Err(WrongWireType); }
      var v :- r.ReadVarint();
      return Ok(Add(start, v));
    case 4 =>
      if k.wire != FIXED64 { return Err(WrongWireType); }
      var v :- r.ReadFixed(8);
      return Ok(Add(start, v));
    case _ =>
      var _ :- r.Skip(k, MAX_DEPTH);
      AddZero(start);
      return Ok(start);
  }

  method StreamValue(octets: seq<byte>) returns (out: Result<nat>)
    ensures out == Proto.Stream(Value, octets)
  {
    hide Wire.ReadKey, StreamFrom, ReadField, AfterField;
    var sum: nat := 0;
    var r := new Reader(octets);
    while r.More()
      invariant r.Valid() && fresh(r) && sum < TWO_64
      invariant StreamFrom(Value, octets, 0) == StreamFrom(Value, r.Rest(), sum)
      decreases |r.buf| - r.pos
    {
      StreamTurn(Value, r.Rest(), sum);
      var k :- r.ReadKey();
      sum :- StreamValueField(r, k, sum);
    }
    StreamTurn(Value, r.Rest(), sum);
    return Ok(sum);
  }

  /** One field of a record: its `switch`, taken with the key read. */
  method StreamRecordField(r: Reader, k: Key, start: nat) returns (out: Result<nat>)
    requires r.Valid() && start < TWO_64
    modifies r
    ensures r.Valid() && r.pos >= old(r.pos) && (out.Ok? ==> out.value < TWO_64)
    ensures AfterField(Record, old(r.Rest()), start, ReadField(Record, old(r.Rest()), k))
            == if out.Ok? then StreamFrom(Record, r.Rest(), out.value) else Err(out.error)
  {
    hide Wire.ReadKey, Wire.ReadVarint, Wire.ReadFixed, Wire.ReadBytes, Wire.Skip, Wire.SkipGroup, Wire.SplitKey;
    hide StreamFrom, Add, Truncate32, Utf8.Valid;
    match k.number
    case 1 =>
      if k.wire != FIXED64 { return Err(WrongWireType); }
      var v :- r.ReadFixed(8);
      return Ok(Add(start, v));
    case 2 =>
      if k.wire != VARINT { return Err(WrongWireType); }
      var v :- r.ReadVarint();
      return Ok(Add(start, Truncate32(v)));
    case 3 =>
      var text :- StreamString(r, k);
      return Ok(Add(start, |text|));
    case 5 =>
      if k.wire != LEN { return Err(WrongWireType); }
      var b :- r.ReadBytes();
      var v :- StreamValue(b);
      return Ok(Add(start, v));
    case 6 =>
      if k.wire != LEN { return Err(WrongWireType); }
      var b :- r.ReadBytes();
      StreamShifts(Attribute, b, start);
      out := StreamAttribute(b, start);
    case _ =>
      if k.number == 9 || k.number == 10 {
        if k.wire != LEN { return Err(WrongWireType); }
        var b :- r.ReadBytes();
        return Ok(Add(start, |b|));
      }
      var _ :- r.Skip(k, MAX_DEPTH);
      AddZero(start);
      return Ok(start);
  }

  method StreamRecord(octets: seq<byte>) returns (out: Result<nat>)
    ensures out == StreamFrom(Record, octets, 0)
  {
    hide Wire.ReadKey, StreamFrom, ReadField, AfterField;
    var sum: nat := 0;
    var r := new Reader(octets);
    while r.More()
      invariant r.Valid() && fresh(r) && sum < TWO_64
      invariant StreamFrom(Record, octets, 0) == StreamFrom(Record, r.Rest(), sum)
      decreases |r.buf| - r.pos
    {
      StreamTurn(Record, r.Rest(), sum);
      var k :- r.ReadKey();
      sum :- StreamRecordField(r, k, sum);
    }
    StreamTurn(Record, r.Rest(), sum);
    return Ok(sum);
  }

  /** One field of an attribute: its `switch`, taken with the key read. */
  method StreamAttributeField(r: Reader, k: Key, start: nat) returns (out: Result<nat>)
    requires r.Valid() && start < TWO_64
    modifies r
    ensures r.Valid() && r.pos >= old(r.pos) && (out.Ok? ==> out.value < TWO_64)
    ensures AfterField(Attribute, old(r.Rest()), start, ReadField(Attribute, old(r.Rest()), k))
            == if out.Ok? then StreamFrom(Attribute, r.Rest(), out.value) else Err(out.error)
  {
    hide Wire.ReadKey, Wire.ReadVarint, Wire.ReadFixed, Wire.ReadBytes, Wire.Skip, Wire.SkipGroup, Wire.SplitKey;
    hide StreamFrom, Add, Truncate32, Utf8.Valid;
    match k.number
    case 1 =>
      var text :- StreamString(r, k);
      return Ok(Add(start, |text|));
    case 2 =>
      if k.wire != LEN { return Err(WrongWireType); }
      var b :- r.ReadBytes();
      var v :- StreamValue(b);
      return Ok(Add(start, v));
    case _ =>
      var _ :- r.Skip(k, MAX_DEPTH);
      AddZero(start);
      return Ok(start);
  }

  /** The loop inside `streamRecord` over one attribute, adding to the record's own sum. */
  method StreamAttribute(octets: seq<byte>, start: nat) returns (out: Result<nat>)
    requires start < TWO_64
    ensures out == StreamFrom(Attribute, octets, start)
    ensures out.Ok? ==> out.value < TWO_64
  {
    hide Wire.ReadKey, StreamFrom, ReadField, AfterField;
    var sum: nat := start;
    var kv := new Reader(octets);
    while kv.More()
      invariant kv.Valid() && fresh(kv) && sum < TWO_64
      invariant StreamFrom(Attribute, octets, start) == StreamFrom(Attribute, kv.Rest(), sum)
      decreases |kv.buf| - kv.pos
    {
      StreamTurn(Attribute, kv.Rest(), sum);
      var kk :- kv.ReadKey();
      sum :- StreamAttributeField(kv, kk, sum);
    }
    StreamTurn(Attribute, kv.Rest(), sum);
    return Ok(sum);
  }

  /** A field of one of the three loops: passed over, or a message to read. */
  datatype Opened = Skipped | Message(octets: seq<byte>)

  /** The field's sum in place of `sum`, and on with what follows it. */
  function Onward(level: Level, rest: seq<byte>, total: Result<nat>): Result<nat> {
    match total
    case Ok(sum) => StreamFrom(level, rest, sum)
    case Err(e) => Err(e)
  }

  /** The head of each of the loops of `stream`: anything but message field `number` is skipped. */
  method OpenField(r: Reader, k: Key, number: nat, ghost level: Level, ghost next: Level, ghost sum: nat)
    returns (out: Result<Opened>)
    requires r.Valid() && sum < TWO_64
    requires Action(level, k.number, k.wire) == if k.number == number && k.wire == LEN then Descend(next) else Ignore
    modifies r
    ensures r.Valid() && r.pos >= old(r.pos)
    ensures AfterField(level, old(r.Rest()), sum, ReadField(level, old(r.Rest()), k))
            == match out
               case Err(e) => Err(e)
               case Ok(Skipped) => StreamFrom(level, r.Rest(), sum)
               case Ok(Message(octets)) => Onward(level, r.Rest(), StreamFrom(next, octets, sum))
  {
    hide Wire.ReadBytes, Wire.Skip, StreamFrom, ReadField, AfterField, Action;
    if k.number != number || k.wire != LEN {
      SkipTurn(level, r.Rest(), k, sum);
      var _ :- r.Skip(k, MAX_DEPTH);
      return Ok(Skipped);
    }
    DescendTurn(level, next, r.Rest(), k, sum);
    var b :- r.ReadBytes();
    return Ok(Message(b));
  }

  /** The innermost loop of `stream`: the records of one scope. */
  method StreamScope(octets: seq<byte>, start: nat) returns (out: Result<nat>)
    requires start < TWO_64
    ensures out == StreamFrom(Scope, octets, start)
    ensures out.Ok? ==> out.value < TWO_64
  {
    hide Wire.ReadKey, StreamFrom, ReadField, AfterField, Add;
    var sum: nat := start;
    var r := new Reader(octets);
    while r.More()
      invariant r.Valid() && fresh(r) && sum < TWO_64
      invariant StreamFrom(Scope, octets, start) == StreamFrom(Scope, r.Rest(), sum)
      decreases |r.buf| - r.pos
    {
      StreamTurn(Scope, r.Rest(), sum);
      var k :- r.ReadKey();
      var field :- OpenField(r, k, 2, Scope, Record, sum);
      if field.Skipped? { continue; }
      StreamShifts(Record, field.octets, sum);
      var v :- StreamRecord(field.octets);
      sum := Add(sum, v);
    }
    StreamTurn(Scope, r.Rest(), sum);
    return Ok(sum);
  }

  /** The middle loop of `stream`: the scopes of one resource. */
  method StreamResource(octets: seq<byte>, start: nat) returns (out: Result<nat>)
    requires start < TWO_64
    ensures out == StreamFrom(Resource, octets, start)
    ensures out.Ok? ==> out.value < TWO_64
  {
    hide Wire.ReadKey, StreamFrom, ReadField, AfterField;
    var sum: nat := start;
    var r := new Reader(octets);
    while r.More()
      invariant r.Valid() && fresh(r) && sum < TWO_64
      invariant StreamFrom(Resource, octets, start) == StreamFrom(Resource, r.Rest(), sum)
      decreases |r.buf| - r.pos
    {
      StreamTurn(Resource, r.Rest(), sum);
      var k :- r.ReadKey();
      var field :- OpenField(r, k, 2, Resource, Scope, sum);
      if field.Skipped? { continue; }
      sum :- StreamScope(field.octets, sum);
    }
    StreamTurn(Resource, r.Rest(), sum);
    return Ok(sum);
  }

  /** The outer loop of `stream`: the resources of the request, added to `start`. */
  method StreamRequest(octets: seq<byte>, start: nat) returns (out: Result<nat>)
    requires start < TWO_64
    ensures out == StreamFrom(Request, octets, start)
    ensures out.Ok? ==> out.value < TWO_64
  {
    hide Wire.ReadKey, StreamFrom, ReadField, AfterField;
    var sum: nat := start;
    var r := new Reader(octets);
    while r.More()
      invariant r.Valid() && fresh(r) && sum < TWO_64
      invariant StreamFrom(Request, octets, start) == StreamFrom(Request, r.Rest(), sum)
      decreases |r.buf| - r.pos
    {
      StreamTurn(Request, r.Rest(), sum);
      var k :- r.ReadKey();
      var field :- OpenField(r, k, 1, Request, Resource, sum);
      if field.Skipped? { continue; }
      sum :- StreamResource(field.octets, sum);
    }
    StreamTurn(Request, r.Rest(), sum);
    return Ok(sum);
  }

  method Stream(octets: seq<byte>) returns (out: Result<nat>)
    ensures out == Proto.Stream(Request, octets)
  {
    out := StreamRequest(octets, 0);
  }
}
