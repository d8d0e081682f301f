/** The protobuf wire format with no types in it (proto/wire.zig): varints, keys, length
    delimited octets, groups, and the `Reader` whose position a decoder advances. */
module Wire {
  import opened Bytes

  datatype Error =
    | Truncated
    | VarintTooLong
    | InvalidKey
    | WrongWireType
    | InvalidUtf8
    | TooDeep
    | UnexpectedEndGroup

  datatype Result<+T> = Ok(value: T) | Err(error: Error) {
    predicate IsFailure() { Err? }

    function PropagateFailure<U>(): Result<U>
      requires Err?
    {
      Err(error)
    }

    function Extract(): T
      requires Ok?
    {
      value
    }
  }

  /** A value read off the front of a byte sequence, and how many octets it took. */
  datatype At<+T> = At(value: T, used: nat)

  datatype WireType = VARINT | FIXED64 | LEN | START_GROUP | END_GROUP | FIXED32

  datatype Key = Key(number: nat, wire: WireType)

  const MAX_DEPTH: nat := 100

  // ---- what the wire says, as functions on the octets still unread ----

  /** The varint whose first `k` groups are already read: seven bits a group, least significant
      first. The tenth group may carry one bit and no continuation. */
  function ReadVarintAt(s: seq<byte>, k: nat): (r: Result<At<nat>>)
    requires k <= 9
    ensures r.Ok? ==> 1 <= r.value.used <= |s| && r.value.value < 2 * Pow128(9 - k)
    decreases |s|
  {
    if s == [] then Err(Truncated)
    else if k == 9 then
      if s[0] > 1 then Err(VarintTooLong) else Ok(At(s[0], 1))
    else if s[0] < 128 then Ok(At(s[0], 1))
    else
      var rest :- ReadVarintAt(s[1..], k + 1);
      Ok(At(s[0] % 128 + 128 * rest.value, rest.used + 1))
  }

  function ReadVarint(s: seq<byte>): (r: Result<At<nat>>)
    ensures r.Ok? ==> 1 <= r.value.used <= |s| && r.value.value < TWO_64
  {
    Pow128Nine();
    ReadVarintAt(s, 0)
  }

  function WireTypeOf(code: nat): WireType
    requires code <= 5
  {
    match code
    case 0 => VARINT
    case 1 => FIXED64
    case 2 => LEN
    case 3 => START_GROUP
    case 4 => END_GROUP
    case _ => FIXED32
  }

  function SplitKey(v: nat): Result<Key> {
    if v >= TWO_32 then Err(InvalidKey)
    else if v % 8 > 5 then Err(InvalidKey)
    else if v / 8 == 0 then Err(InvalidKey)
    else Ok(Key(v / 8, WireTypeOf(v % 8)))
  }

  function ReadKey(s: seq<byte>): (r: Result<At<Key>>)
    ensures r.Ok? ==> 1 <= r.value.used <= |s|
  {
    var v :- ReadVarint(s);
    var k :- SplitKey(v.value);
    Ok(At(k, v.used))
  }

  function ReadFixed(s: seq<byte>, width: nat): (r: Result<At<nat>>)
    ensures r.Ok? ==> r.value.used == width <= |s|
    ensures r.Ok? ==> r.value.value < Pow256(width)
  {
    if |s| < width then Err(Truncated) else Ok(At(FromLittleEndian(s[..width]), width))
  }

  function ReadBytes(s: seq<byte>): (r: Result<At<seq<byte>>>)
    ensures r.Ok? ==> 1 <= r.value.used <= |s|
    ensures r.Ok? ==> |r.value.value| < r.value.used
  {
    var n :- ReadVarint(s);
    if n.value > |s| - n.used then Err(Truncated)
    else Ok(At(s[n.used..][..n.value], n.used + n.value))
  }

  /** Step over one field's payload, groups included; the result is how many octets it took. */
  function Skip(s: seq<byte>, k: Key, depthLeft: nat): (r: Result<nat>)
    ensures r.Ok? ==> r.value <= |s|
    decreases |s|, 1
  {
    match k.wire
    case VARINT => var v :- ReadVarint(s); Ok(v.used)
    case FIXED64 => var v :- ReadFixed(s, 8); Ok(v.used)
    case FIXED32 => var v :- ReadFixed(s, 4); Ok(v.used)
    case LEN => var v :- ReadBytes(s); Ok(v.used)
    case START_GROUP =>
      if depthLeft == 0 then Err(TooDeep) else SkipGroup(s, k.number, depthLeft)
    case END_GROUP => Err(UnexpectedEndGroup)
  }

  function SkipGroup(s: seq<byte>, number: nat, depthLeft: nat): (r: Result<nat>)
    requires depthLeft > 0
    ensures r.Ok? ==> r.value <= |s|
    decreases |s|, 0
  {
    var inner :- ReadKey(s);
    if inner.value.wire == END_GROUP then
      if inner.value.number != number then Err(UnexpectedEndGroup) else Ok(inner.used)
    else
      var body :- Skip(s[inner.used..], inner.value, depthLeft - 1);
      var rest :- SkipGroup(s[inner.used + body..], number, depthLeft);
      Ok(inner.used + body + rest)
  }

  // ---- what a writer puts on the wire ----

  function WireCode(w: WireType): nat {
    match w
    case VARINT => 0
    case FIXED64 => 1
    case LEN => 2
    case START_GROUP => 3
    case END_GROUP => 4
    case FIXED32 => 5
  }

  function EncodeKey(number: nat, w: WireType): seq<byte> {
    EncodeVarint(number * 8 + WireCode(w))
  }

  /** One field as a value. A group holds fields; a length delimited field holds octets. */
  datatype Field = Field(number: nat, payload: Payload)

  datatype Payload =
    | Varint(v: nat)
    | Fixed64(v: nat)
    | Fixed32(v: nat)
    | Len(octets: seq<byte>)
    | Group(fields: seq<Field>)

  function WireOf(p: Payload): WireType {
    match p
    case Varint(_) => VARINT
    case Fixed64(_) => FIXED64
    case Fixed32(_) => FIXED32
    case Len(_) => LEN
    case Group(_) => START_GROUP
  }

  function SerializePayload(number: nat, p: Payload): seq<byte>
    decreases p
  {
    match p
    case Varint(v) => EncodeVarint(v)
    case Fixed64(v) => LittleEndian(v, 8)
    case Fixed32(v) => LittleEndian(v, 4)
    case Len(octets) => EncodeVarint(|octets|) + octets
    case Group(fields) => SerializeAll(fields) + EncodeKey(number, END_GROUP)
  }

  function Serialize(f: Field): seq<byte>
    decreases f
  {
    EncodeKey(f.number, WireOf(f.payload)) + SerializePayload(f.number, f.payload)
  }

  function SerializeAll(fs: seq<Field>): seq<byte>
    decreases fs
  {
    if fs == [] then [] else Serialize(fs[0]) + SerializeAll(fs[1..])
  }

  /** A field any protobuf writer may send: the number and the values fit their widths, and
      groups nest at most `depth` deep. */
  predicate WellFormed(f: Field, depth: nat) {
    && 1 <= f.number < 0x2000_0000
    && match f.payload
       case Varint(v) => v < TWO_64
       case Fixed64(v) => v < TWO_64
       case Fixed32(v) => v < TWO_32
       case Len(octets) => |octets| < TWO_64
       case Group(fields) => depth > 0 && forall g <- fields :: WellFormed(g, depth - 1)
  }

  // ---- keys and depth by number ----

  /** The six wire types are the low three bits 0 to 5 of a key of 32 bits, and the number is the rest. */
  lemma KeyByNumber(v: nat)
    ensures SplitKey(v).Ok? <==> v < 0x1_0000_0000 && v % 8 < 6 && v >= 8
    ensures SplitKey(v).Err? ==> SplitKey(v).error == InvalidKey
    ensures SplitKey(v).Ok? ==>
              && SplitKey(v).value.number == v / 8
              && (SplitKey(v).value.wire.VARINT? <==> v % 8 == 0) && (SplitKey(v).value.wire.FIXED64? <==> v % 8 == 1)
              && (SplitKey(v).value.wire.LEN? <==> v % 8 == 2) && (SplitKey(v).value.wire.START_GROUP? <==> v % 8 == 3)
              && (SplitKey(v).value.wire.END_GROUP? <==> v % 8 == 4) && (SplitKey(v).value.wire.FIXED32? <==> v % 8 == 5)
  {
  }

  /** So many groups of field 1 one in another, after the first has been opened. */
  function Nest(n: nat): seq<byte>
    requires n > 0
  {
    if n == 1 then [12] else [11] + Nest(n - 1) + [12]
  }

  lemma OneOctetKey(v: byte, rest: seq<byte>)
    requires 8 <= v < 128 && v % 8 < 6
    ensures ReadKey([v] + rest) == Ok(At(Key(v / 8, WireTypeOf(v % 8)), 1))
  {
  }

  /** A group of one group. */
  lemma GroupInGroup(inner: seq<byte>, depthLeft: nat, rest: seq<byte>)
    requires depthLeft > 0
    ensures var body := Skip(inner + ([12] + rest), Key(1, START_GROUP), depthLeft - 1);
            && (body.Err? ==> SkipGroup([11] + (inner + ([12] + rest)), 1, depthLeft) == Err(body.error))
            && (body == Ok(|inner|) ==> SkipGroup([11] + (inner + ([12] + rest)), 1, depthLeft) == Ok(|inner| + 2))
  {
    hide ReadKey, Skip;
    var tail := [12] + rest;
    var s := [11] + (inner + tail);
    OneOctetKey(11, inner + tail);
    OneOctetKey(12, rest);
    assert s[1..] == inner + tail && s[1 + |inner|..] == tail;
    assert SkipGroup(tail, 1, depthLeft) == Ok(1);
  }

  lemma {:induction false} NestSkips(n: nat, depthLeft: nat, rest: seq<byte>)
    requires n > 0
    ensures Skip(Nest(n) + rest, Key(1, START_GROUP), depthLeft)
         == if n <= depthLeft then Ok(|Nest(n)|) else Err(TooDeep)
  {
    hide ReadKey, SkipGroup;
    if depthLeft > 0 {
      if n == 1 {
        assert Nest(1) + rest == [12] + rest;
        EmptyGroup(depthLeft, rest);
      } else {
        var inner := Nest(n - 1);
        assert Nest(n) + rest == [11] + (inner + ([12] + rest));
        GroupInGroup(inner, depthLeft, rest);
        NestSkips(n - 1, depthLeft - 1, [12] + rest);
      }
    }
  }

  lemma EmptyGroup(depthLeft: nat, rest: seq<byte>)
    requires depthLeft > 0
    ensures SkipGroup([12] + rest, 1, depthLeft) == Ok(1)
  {
    hide ReadKey;
    OneOctetKey(12, rest);
  }

  /** A hundred groups one in another are skipped and a hundred and one are not. */
  lemma HundredGroups(n: nat, rest: seq<byte>)
    requires n > 0
    ensures Skip(Nest(n) + rest, Key(1, START_GROUP), MAX_DEPTH) == if n <= 100 then Ok(|Nest(n)|) else Err(TooDeep)
  {
    NestSkips(n, MAX_DEPTH, rest);
  }

  // ---- what is refused ----

  /** The first `n` octets all have their continuation bit set. */
  predicate GoesOn(s: seq<byte>, n: nat) {
    n <= |s| && forall i | 0 <= i < n :: s[i] >= 128
  }

  lemma {:induction false} VarintRefusedAt(s: seq<byte>, k: nat)
    requires k <= 9
    ensures ReadVarintAt(s, k) == Err(VarintTooLong) <==> |s| > 9 - k && GoesOn(s, 9 - k) && s[9 - k] > 1
    ensures ReadVarintAt(s, k) == Err(Truncated) <==> |s| <= 9 - k && GoesOn(s, |s|)
    ensures ReadVarintAt(s, k).Ok? || ReadVarintAt(s, k) == Err(Truncated) || ReadVarintAt(s, k) == Err(VarintTooLong)
    decreases |s|
  {
    if s != [] && k < 9 && s[0] >= 128 {
      var rest := s[1..];
      VarintRefusedAt(rest, k + 1);
      assert forall n: nat | 0 < n <= |s| :: GoesOn(s, n) <==> GoesOn(rest, n - 1) by {
        forall n: nat | 0 < n <= |s| ensures GoesOn(s, n) <==> GoesOn(rest, n - 1) {
          if GoesOn(rest, n - 1) { assert forall i | 0 < i < n :: s[i] == rest[i - 1]; }
          if GoesOn(s, n) { assert forall i | 0 <= i < n - 1 :: rest[i] == s[i + 1]; }
        }
      }
    }
  }

  /** A varint is too long exactly when nine octets go on and the tenth has more than its one bit, and
      truncated exactly when fewer than ten are there and all of them go on. */
  lemma VarintRefused(s: seq<byte>)
    ensures ReadVarint(s) == Err(VarintTooLong) <==> |s| >= 10 && GoesOn(s, 9) && s[9] > 1
    ensures ReadVarint(s) == Err(Truncated) <==> |s| < 10 && GoesOn(s, |s|)
    ensures ReadVarint(s).Ok? || ReadVarint(s) == Err(Truncated) || ReadVarint(s) == Err(VarintTooLong)
  {
    VarintRefusedAt(s, 0);
  }

  /** What `Skip` refuses: a fixed field cut short, one longer than what is left, a group's end
      outside it, and inside it another group's. */
  lemma SkipRefuses(s: seq<byte>, number: nat, depthLeft: nat)
    ensures Skip(s, Key(number, FIXED64), depthLeft) == if |s| < 8 then Err(Truncated) else Ok(8)
    ensures Skip(s, Key(number, FIXED32), depthLeft) == if |s| < 4 then Err(Truncated) else Ok(4)
    ensures ReadVarint(s).Ok? ==>
              var n, used := ReadVarint(s).value.value, ReadVarint(s).value.used;
              && Skip(s, Key(number, VARINT), depthLeft) == Ok(used)
              && Skip(s, Key(number, LEN), depthLeft) == if used + n > |s| then Err(Truncated) else Ok(used + n)
    ensures Skip(s, Key(number, END_GROUP), depthLeft) == Err(UnexpectedEndGroup)
    ensures ReadKey(s).Ok? && ReadKey(s).value.value.wire == END_GROUP && depthLeft > 0 ==>
              Skip(s, Key(number, START_GROUP), depthLeft)
              == if ReadKey(s).value.value.number == number then Ok(ReadKey(s).value.used) else Err(UnexpectedEndGroup)
  {
    hide ReadVarint, ReadKey;
  }

  // ---- reading inverts writing ----

  lemma {:induction false} VarintInverts(v: nat, k: nat, suffix: seq<byte>)
    requires k <= 9 && v < 2 * Pow128(9 - k)
    ensures ReadVarintAt(EncodeVarint(v) + suffix, k) == Ok(At(v, |EncodeVarint(v)|))
    decreases v
  {
    var s := EncodeVarint(v) + suffix;
    if v >= 128 {
      VarintInverts(v / 128, k + 1, suffix);
      assert s[0] == v % 128 + 128 && s[1..] == EncodeVarint(v / 128) + suffix;
    }
  }

  lemma VarintRoundTrip(v: nat, suffix: seq<byte>)
    requires v < TWO_64
    ensures ReadVarint(EncodeVarint(v) + suffix) == Ok(At(v, |EncodeVarint(v)|))
  {
    Pow128Nine();
    VarintInverts(v, 0, suffix);
  }

  lemma KeyRoundTrip(number: nat, w: WireType, suffix: seq<byte>)
    requires 1 <= number < 0x2000_0000
    ensures ReadKey(EncodeKey(number, w) + suffix) == Ok(At(Key(number, w), |EncodeKey(number, w)|))
  {
    hide ReadVarint;
    VarintRoundTrip(number * 8 + WireCode(w), suffix);
  }

  lemma FixedRoundTrip(v: nat, width: nat, suffix: seq<byte>)
    requires v < Pow256(width)
    ensures ReadFixed(LittleEndian(v, width) + suffix, width) == Ok(At(v, width))
  {
    LittleEndianRoundTrip(v, width);
    assert (LittleEndian(v, width) + suffix)[..width] == LittleEndian(v, width);
  }

  lemma BytesRoundTrip(octets: seq<byte>, suffix: seq<byte>)
    requires |octets| < TWO_64
    ensures ReadBytes(EncodeVarint(|octets|) + octets + suffix)
         == Ok(At(octets, |EncodeVarint(|octets|)| + |octets|))
  {
    var head := EncodeVarint(|octets|);
    assert head + octets + suffix == head + (octets + suffix);
    VarintRoundTrip(|octets|, octets + suffix);
    assert (head + octets + suffix)[|head|..][..|octets|] == octets;
  }

  lemma SkipScalar(f: Field, suffix: seq<byte>, depthLeft: nat)
    requires WellFormed(f, depthLeft) && !f.payload.Group?
    ensures Skip(SerializePayload(f.number, f.payload) + suffix, Key(f.number, WireOf(f.payload)), depthLeft)
         == Ok(|SerializePayload(f.number, f.payload)|)
  {
    Pow256Values();
    match f.payload
    case Varint(v) => VarintRoundTrip(v, suffix);
    case Fixed64(v) => FixedRoundTrip(v, 8, suffix);
    case Fixed32(v) => FixedRoundTrip(v, 4, suffix);
    case Len(octets) => BytesRoundTrip(octets, suffix);
  }

  lemma SkipGroupStep(key: seq<byte>, body: seq<byte>, rest: seq<byte>, inner: Key,
                      number: nat, depthLeft: nat, n: nat)
    requires depthLeft > 0 && inner.wire != END_GROUP
    requires ReadKey(key + (body + rest)) == Ok(At(inner, |key|))
    requires Skip(body + rest, inner, depthLeft - 1) == Ok(|body|)
    requires SkipGroup(rest, number, depthLeft) == Ok(n)
    ensures SkipGroup(key + (body + rest), number, depthLeft) == Ok(|key| + |body| + n)
  {
    hide ReadKey, Skip;
    var s := key + (body + rest);
    assert s[|key|..] == body + rest;
    assert s[|key| + |body|..] == rest;
  }

  lemma SkipGroupEnd(number: nat, depthLeft: nat, suffix: seq<byte>)
    requires depthLeft > 0 && 1 <= number < 0x2000_0000
    ensures SkipGroup(EncodeKey(number, END_GROUP) + suffix, number, depthLeft)
         == Ok(|EncodeKey(number, END_GROUP)|)
  {
    KeyRoundTrip(number, END_GROUP, suffix);
  }

  /** A group's payload is skipped when what is in it is. */
  lemma GroupSkips(number: nat, fields: seq<Field>, depthLeft: nat, suffix: seq<byte>)
    requires depthLeft > 0
    requires SkipGroup(SerializeAll(fields) + (EncodeKey(number, END_GROUP) + suffix), number, depthLeft)
          == Ok(|SerializeAll(fields)| + |EncodeKey(number, END_GROUP)|)
    ensures Skip(SerializePayload(number, Group(fields)) + suffix, Key(number, START_GROUP), depthLeft)
         == Ok(|SerializePayload(number, Group(fields))|)
  {
    hide SkipGroup, SerializeAll, EncodeKey;
    assert SerializePayload(number, Group(fields)) + suffix
        == SerializeAll(fields) + (EncodeKey(number, END_GROUP) + suffix);
  }

  /** Whatever a well-formed field holds, `Skip` steps over exactly its octets. */
  lemma {:induction false} SkipSerialized(f: Field, depthLeft: nat, suffix: seq<byte>)
    requires WellFormed(f, depthLeft)
    ensures Skip(SerializePayload(f.number, f.payload) + suffix, Key(f.number, WireOf(f.payload)), depthLeft)
         == Ok(|SerializePayload(f.number, f.payload)|)
    decreases f, 1
  {
    hide Skip, SkipGroup, SerializePayload, SerializeAll, EncodeKey;
    if !f.payload.Group? {
      SkipScalar(f, suffix, depthLeft);
    } else {
      SkipGroupSerialized(f.payload.fields, f.number, depthLeft, suffix);
      GroupSkips(f.number, f.payload.fields, depthLeft, suffix);
    }
  }

  lemma {:induction false} SkipGroupSerialized(fs: seq<Field>, number: nat, depthLeft: nat, suffix: seq<byte>)
    requires depthLeft > 0 && 1 <= number < 0x2000_0000
    requires forall g <- fs :: WellFormed(g, depthLeft - 1)
    ensures SkipGroup(SerializeAll(fs) + (EncodeKey(number, END_GROUP) + suffix), number, depthLeft)
         == Ok(|SerializeAll(fs)| + |EncodeKey(number, END_GROUP)|)
    decreases fs, 0
  {
    hide Skip, SkipGroup, ReadKey, EncodeKey, SerializePayload;
    var tail := EncodeKey(number, END_GROUP) + suffix;
    if fs == [] {
      assert SerializeAll(fs) + tail == tail;
      SkipGroupEnd(number, depthLeft, suffix);
    } else {
      var f, fs' := fs[0], fs[1..];
      assert f in fs && WellFormed(f, depthLeft - 1);
      var key, body := EncodeKey(f.number, WireOf(f.payload)), SerializePayload(f.number, f.payload);
      var rest := SerializeAll(fs') + tail;
      assert SerializeAll(fs) + tail == key + (body + rest) by {
        assert SerializeAll(fs) == (key + body) + SerializeAll(fs');
      }
      SkipSerialized(f, depthLeft - 1, rest);
      assert forall g <- fs' :: g in fs;
      SkipGroupSerialized(fs', number, depthLeft, suffix);
      KeyRoundTrip(f.number, WireOf(f.payload), body + rest);
      SkipGroupStep(key, body, rest, Key(f.number, WireOf(f.payload)), number, depthLeft,
                    |SerializeAll(fs')| + |EncodeKey(number, END_GROUP)|);
    }
  }
}
