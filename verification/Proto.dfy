/** The logs message of the protobuf benchmark, and what its hand-written decoder computes
    (bench/proto_bench.zig:114-242): one field of one message at a time, straight off the wire. */
module Proto {
  import opened Bytes
  import opened Common
  import opened Wire
  import opened Utf8

  /** The six messages, outermost first: each is one loop of the decoder. */
  datatype Level = Request | Resource | Scope | Record | Attribute | Value

  function Rank(level: Level): nat {
    match level
    case Request => 5
    case Resource => 4
    case Scope => 3
    case Record => 2
    case Attribute => 1
    case Value => 0
  }

  /** What the decoder does with a field, decided by the message, the number and the wire type. */
  datatype Act =
    | Ignore
    | Reject
    | AddFixed64
    | AddVarint
    | AddLow32
    | AddBool
    | AddText
    | AddLength
    | Descend(next: Level)

  function Expect(wire: WireType, want: WireType, act: Act): Act {
    if wire == want then act else Reject
  }

  function Action(level: Level, number: nat, wire: WireType): (act: Act)
    ensures act.Descend? ==> wire == LEN && Rank(act.next) < Rank(level)
  {
    match level
    case Request => if number == 1 && wire == LEN then Descend(Resource) else Ignore
    case Resource => if number == 2 && wire == LEN then Descend(Scope) else Ignore
    case Scope => if number == 2 && wire == LEN then Descend(Record) else Ignore
    case Record =>
      if number == 1 then Expect(wire, FIXED64, AddFixed64)
      else if number == 2 then Expect(wire, VARINT, AddLow32)
      else if number == 3 then Expect(wire, LEN, AddText)
      else if number == 5 then Expect(wire, LEN, Descend(Value))
      else if number == 6 then Expect(wire, LEN, Descend(Attribute))
      else if number == 9 || number == 10 then Expect(wire, LEN, AddLength)
      else Ignore
    case Attribute =>
      if number == 1 then Expect(wire, LEN, AddText)
      else if number == 2 then Expect(wire, LEN, Descend(Value))
      else Ignore
    case Value =>
      if number == 1 then Expect(wire, LEN, AddText)
      else if number == 2 then Expect(wire, VARINT, AddBool)
      else if number == 3 then Expect(wire, VARINT, AddVarint)
      else if number == 4 then Expect(wire, FIXED64, AddFixed64)
      else Ignore
  }

  /** `+%`: addition that wraps at 64 bits. */
  function Add(a: nat, b: nat): (sum: nat)
    ensures sum < TWO_64
  {
    Wrap64(a + b)
  }

  /** `@truncate` to 32 bits. */
  function Truncate32(v: nat): nat {
    v % TWO_32
  }

  function Text(octets: seq<byte>): Result<nat> {
    if Valid(octets) then Ok(|octets|) else Err(InvalidUtf8)
  }

  /** What one field adds, given the octets after its key, and how many of them it takes. */
  function ReadField(level: Level, s: seq<byte>, k: Key): (r: Result<At<nat>>)
    ensures r.Ok? ==> r.value.used <= |s|
    decreases Rank(level), |s|, 0
  {
    match Action(level, k.number, k.wire)
    case Ignore => var used :- Skip(s, k, MAX_DEPTH); Ok(At(0, used))
    case Reject => Err(WrongWireType)
    case AddFixed64 => ReadFixed(s, 8)
    case AddVarint => ReadVarint(s)
    case AddLow32 => var v :- ReadVarint(s); Ok(At(Truncate32(v.value), v.used))
    case AddBool => var v :- ReadVarint(s); Ok(At(if v.value != 0 then 1 else 0, v.used))
    case AddText => var b :- ReadBytes(s); var n :- Text(b.value); Ok(At(n, b.used))
    case AddLength => var b :- ReadBytes(s); Ok(At(|b.value|, b.used))
    case Descend(next) =>
      var b :- ReadBytes(s);
      var n :- StreamFrom(next, b.value, 0);
      Ok(At(n, b.used))
  }

  /** The decoder's loop over one message, `sum` being what it has added up so far. */
  function StreamFrom(level: Level, s: seq<byte>, sum: nat): (r: Result<nat>)
    decreases Rank(level), |s|, 1
  {
    if s == [] then Ok(sum)
    else
      var k :- ReadKey(s);
      var body := s[k.used..];
      var c :- ReadField(level, body, k.value);
      StreamFrom(level, body[c.used..], Add(sum, c.value))
  }

  /** `stream`: the sum of everything a message carries, modulo 2^64. */
  function Stream(level: Level, s: seq<byte>): Result<nat> {
    StreamFrom(level, s, 0)
  }

  // ---- the same sum, field by field ----

  /** What a field adds, without looking at how it was coded. */
  function FieldValue(level: Level, f: Field): Result<nat> {
    match Action(level, f.number, WireOf(f.payload))
    case Ignore => Ok(0)
    case Reject => Err(WrongWireType)
    case AddFixed64 => Ok(f.payload.v)
    case AddVarint => Ok(f.payload.v)
    case AddLow32 => Ok(Truncate32(f.payload.v))
    case AddBool => Ok(if f.payload.v != 0 then 1 else 0)
    case AddText => Text(f.payload.octets)
    case AddLength => Ok(|f.payload.octets|)
    case Descend(next) => Stream(next, f.payload.octets)
  }

  // ---- the fields by number ----

  /** The fields a message's loop has an arm for; at the three outer levels only as a message. */
  predicate Listed(level: Level, f: Field) {
    match level
    case Request => f.number == 1 && f.payload.Len?
    case Resource => f.number == 2 && f.payload.Len?
    case Scope => f.number == 2 && f.payload.Len?
    case Record => f.number in {1, 2, 3, 5, 6, 9, 10}
    case Attribute => f.number in {1, 2}
    case Value => f.number in {1, 2, 3, 4}
  }

  /** Which message a length delimited field is. */
  function MessageIn(level: Level, number: nat): Option<Level> {
    match level
    case Request => if number == 1 then Some(Resource) else None
    case Resource => if number == 2 then Some(Scope) else None
    case Scope => if number == 2 then Some(Record) else None
    case Record => if number == 5 then Some(Value) else if number == 6 then Some(Attribute) else None
    case Attribute => if number == 2 then Some(Value) else None
    case Value => None
  }

  lemma UnlistedAddsNothing(level: Level, f: Field)
    requires !Listed(level, f)
    ensures FieldValue(level, f) == Ok(0)
  {
  }

  lemma MessageStreams(level: Level, f: Field)
    requires f.payload.Len? && MessageIn(level, f.number).Some?
    ensures FieldValue(level, f) == Stream(MessageIn(level, f.number).value, f.payload.octets)
  {
    hide StreamFrom;
  }

  /** A record's own fields: a time, a severity of which the low 32 bits count, the lengths of a text
      that has to be UTF-8 and of two identifiers, and two that are messages; any of them under
      another wire type is refused. */
  lemma RecordByNumber(f: Field)
    requires Listed(Record, f)
    ensures FieldValue(Record, f) ==
              if f.number == 1 && f.payload.Fixed64? then Ok(f.payload.v)
              else if f.number == 2 && f.payload.Varint? then Ok(f.payload.v % 0x1_0000_0000)
              else if f.number == 3 && f.payload.Len? then
                (if Valid(f.payload.octets) then Ok(|f.payload.octets|) else Err(InvalidUtf8))
              else if f.number == 5 && f.payload.Len? then Stream(Value, f.payload.octets)
              else if f.number == 6 && f.payload.Len? then Stream(Attribute, f.payload.octets)
              else if f.number >= 9 && f.payload.Len? then Ok(|f.payload.octets|)
              else Err(WrongWireType)
  {
    hide StreamFrom;
  }

  /** An attribute's key has to be UTF-8, and its value is a message. */
  lemma AttributeByNumber(f: Field)
    requires Listed(Attribute, f)
    ensures FieldValue(Attribute, f) ==
              if !f.payload.Len? then Err(WrongWireType)
              else if f.number == 2 then Stream(Value, f.payload.octets)
              else if Valid(f.payload.octets) then Ok(|f.payload.octets|)
              else Err(InvalidUtf8)
  {
    hide StreamFrom;
  }

  /** A value is text, a boolean that counts as one or nothing, an integer, or the bits of a double. */
  lemma ValueByNumber(f: Field)
    requires Listed(Value, f)
    ensures FieldValue(Value, f) ==
              if f.number == 1 && f.payload.Len? then
                (if Valid(f.payload.octets) then Ok(|f.payload.octets|) else Err(InvalidUtf8))
              else if f.number == 2 && f.payload.Varint? then Ok(if f.payload.v == 0 then 0 else 1)
              else if f.number == 3 && f.payload.Varint? then Ok(f.payload.v)
              else if f.number == 4 && f.payload.Fixed64? then Ok(f.payload.v)
              else Err(WrongWireType)
  {
    hide StreamFrom;
  }

  function SumFrom(level: Level, fs: seq<Field>, sum: nat): Result<nat> {
    if fs == [] then Ok(sum)
    else
      var v :- FieldValue(level, fs[0]);
      SumFrom(level, fs[1..], Add(sum, v))
  }

  ghost predicate AllWellFormed(fs: seq<Field>) {
    forall f <- fs :: WellFormed(f, MAX_DEPTH)
  }

  /** One field read back: the decoder takes exactly the field's payload and adds its value. */
  lemma ReadFieldSerialized(level: Level, f: Field, suffix: seq<byte>)
    requires WellFormed(f, MAX_DEPTH)
    ensures ReadField(level, SerializePayload(f.number, f.payload) + suffix, Key(f.number, WireOf(f.payload)))
         == match FieldValue(level, f)
            case Ok(v) => Ok(At(v, |SerializePayload(f.number, f.payload)|))
            case Err(e) => Err(e)
  {
    hide ReadVarint, ReadFixed, ReadBytes, Skip, StreamFrom;
    Pow256Values();
    match Action(level, f.number, WireOf(f.payload))
    case Ignore => SkipSerialized(f, MAX_DEPTH, suffix);
    case Reject =>
    case AddFixed64 => FixedRoundTrip(f.payload.v, 8, suffix);
    case AddVarint => VarintRoundTrip(f.payload.v, suffix);
    case AddLow32 => VarintRoundTrip(f.payload.v, suffix);
    case AddBool => VarintRoundTrip(f.payload.v, suffix);
    case AddText => BytesRoundTrip(f.payload.octets, suffix);
    case AddLength => BytesRoundTrip(f.payload.octets, suffix);
    case Descend(_) => BytesRoundTrip(f.payload.octets, suffix);
  }

  /** Streaming a serialized message is adding up its fields, in order, until one is refused. */
  lemma {:induction false} StreamIsFieldSum(level: Level, fs: seq<Field>, sum: nat)
    requires AllWellFormed(fs)
    ensures StreamFrom(level, SerializeAll(fs), sum) == SumFrom(level, fs, sum)
    decreases |fs|
  {
    hide ReadKey, ReadField, FieldValue, EncodeKey, SerializePayload;
    if fs != [] {
      var f := fs[0];
      assert f in fs;
      var key, body := EncodeKey(f.number, WireOf(f.payload)), SerializePayload(f.number, f.payload);
      var rest := SerializeAll(fs[1..]);
      var s := SerializeAll(fs);
      assert s == (key + body) + rest == key + (body + rest);
      KeyRoundTrip(f.number, WireOf(f.payload), body + rest);
      assert s[|key|..] == body + rest;
      ReadFieldSerialized(level, f, rest);
      var v := FieldValue(level, f);
      if v.Ok? {
        assert (body + rest)[|body|..] == rest;
        assert forall g <- fs[1..] :: g in fs;
        StreamIsFieldSum(level, fs[1..], Add(sum, v.value));
      }
    }
  }
}
