/** `Reader` (proto/wire.zig:67-188) as it runs: a buffer, a position that moves, and the two
    varint loops. Every method is tied to the reading function of `Wire` on the unread octets. */
module WireReader {
  import opened Bytes
  import opened Wire

  function Value<T>(r: Result<At<T>>): Result<T> {
    match r
    case Ok(at) => Ok(at.value)
    case Err(e) => Err(e)
  }

  /** The rest of a varint read as `r`, put behind `k` groups worth `acc` in `consumed` octets. */
  function Behind(acc: nat, k: nat, consumed: nat, r: Result<At<nat>>): Result<At<nat>> {
    match r
    case Ok(at) => Ok(At(acc + Shift(at.value, k), consumed + at.used))
    case Err(e) => Err(e)
  }

  /** One group of the varint loops: what the rest of the varint is, in terms of its first octet. */
  lemma GroupTurn(s: seq<byte>, k: nat, acc: nat, consumed: nat)
    requires k <= 9
    ensures Behind(acc, k, consumed, ReadVarintAt(s, k))
         == if s == [] then Err(Truncated)
            else if k == 9 then
              if s[0] > 1 then Err(VarintTooLong) else Ok(At(acc + Shift(s[0], 9), consumed + 1))
            else if s[0] < 128 then Ok(At(acc + Shift(s[0] % 128, k), consumed + 1))
            else Behind(acc + Shift(s[0] % 128, k), k + 1, consumed + 1, ReadVarintAt(s[1..], k + 1))
  {
    hide Shift, Pow128;
    if s != [] && k < 9 && s[0] >= 128 {
      var rest := ReadVarintAt(s[1..], k + 1);
      if rest.Ok? {
        ShiftGroup(s[0] % 128, rest.value.value, k);
      }
    }
  }

  lemma Distribute(a: nat, v: nat, p: nat)
    ensures (a + 128 * v) * p == a * p + v * (128 * p)
  {
  }

  lemma ShiftGroup(a: nat, v: nat, k: nat)
    ensures Shift(a + 128 * v, k) == Shift(a, k) + Shift(v, k + 1)
  {
    Distribute(a, v, Pow128(k));
  }

  lemma NothingBehind(r: Result<At<nat>>)
    ensures Behind(0, 0, 0, r) == r
  {
  }

  /** A varint whose first octet has its continuation bit set. With ten octets in hand nothing
      checks the end of the buffer; near the end the second loop does. Both are `ReadVarint`. */
  method VarintSlow(buf: seq<byte>, start: nat) returns (r: Result<At<nat>>)
    requires start < |buf|
    ensures r == ReadVarint(buf[start..])
  {
    if |buf| - start >= 10 {
      r := VarintRun(buf, start);
    } else {
      r := VarintChecked(buf, start);
    }
  }

  /** The straight run. The source's `shift` is 7k, and its `|=` adds: the groups do not overlap. */
  method VarintRun(buf: seq<byte>, start: nat) returns (r: Result<At<nat>>)
    requires |buf| - start >= 10
    ensures r == ReadVarintAt(buf[start..], 0)
  {
    hide ReadVarintAt, Behind, Shift, Pow128;
    var i: nat, result: nat, k: nat := start, 0, 0;
    NothingBehind(ReadVarintAt(buf[start..], 0));
    while true
      invariant k <= 9 && i == start + k
      invariant ReadVarintAt(buf[start..], 0) == Behind(result, k, k, ReadVarintAt(buf[i..], k))
      decreases 9 - k
    {
      var b := buf[i];
      GroupTurn(buf[i..], k, result, k);
      if k == 9 {
        if b > 1 { return Err(VarintTooLong); }
        return Ok(At(result + Shift(b, 9), i + 1 - start));
      }
      if b < 128 { return Ok(At(result + Shift(b % 128, k), i + 1 - start)); }
      assert buf[i..][1..] == buf[i + 1..];
      result := result + Shift(b % 128, k);
      k, i := k + 1, i + 1;
    }
  }

  /** The checked loop. */
  method VarintChecked(buf: seq<byte>, start: nat) returns (r: Result<At<nat>>)
    requires start <= |buf|
    ensures r == ReadVarintAt(buf[start..], 0)
  {
    hide ReadVarintAt, Behind, Shift, Pow128;
    var i: nat, result: nat, k: nat := start, 0, 0;
    NothingBehind(ReadVarintAt(buf[start..], 0));
    while true
      invariant k <= 9 && i == start + k <= |buf|
      invariant ReadVarintAt(buf[start..], 0) == Behind(result, k, k, ReadVarintAt(buf[i..], k))
      decreases 9 - k
    {
      GroupTurn(buf[i..], k, result, k);
      if i >= |buf| { return Err(Truncated); }
      var b := buf[i];
      if k == 9 {
        if b > 1 { return Err(VarintTooLong); }
        return Ok(At(result + Shift(b, 9), i + 1 - start));
      }
      if b < 128 { return Ok(At(result + Shift(b % 128, k), i + 1 - start)); }
      assert buf[i..][1..] == buf[i + 1..];
      result := result + Shift(b % 128, k);
      k, i := k + 1, i + 1;
    }
  }

  class Reader {
    const buf: seq<byte>
    var pos: nat

    ghost predicate Valid()
      reads this
    {
      pos <= |buf|
    }

    ghost function Rest(): seq<byte>
      reads this
      requires Valid()
    {
      buf[pos..]
    }

    constructor (buf: seq<byte>)
      ensures Valid() && this.buf == buf && pos == 0 && Rest() == buf
    {
      this.buf := buf;
      pos := 0;
    }

    predicate More()
      requires Valid()
      reads this
      ensures More() <==> Rest() != []
    {
      pos < |buf|
    }

    method ReadVarint() returns (r: Result<nat>)
      requires Valid()
      modifies this
      ensures Valid() && pos >= old(pos)
      ensures r == Value(Wire.ReadVarint(old(Rest())))
      ensures r.Ok? ==> Rest() == old(Rest())[Wire.ReadVarint(old(Rest())).value.used..]
      ensures r.Ok? ==> pos > old(pos)
    {
      var i := pos;
      if i >= |buf| { return Err(Truncated); }
      var b0 := buf[i];
      if b0 < 128 {
        pos := i + 1;
        return Ok(b0);
      }
      var out :- VarintSlow(buf, i);
      pos := i + out.used;
      return Ok(out.value);
    }

    method ReadKey() returns (r: Result<Key>)
      requires Valid()
      modifies this
      ensures Valid() && pos >= old(pos)
      ensures r == Value(Wire.ReadKey(old(Rest())))
      ensures r.Ok? ==> Rest() == old(Rest())[Wire.ReadKey(old(Rest())).value.used..]
      ensures r.Ok? ==> pos > old(pos)
    {
      var v :- ReadVarint();
      r := SplitKey(v);
    }

    method ReadFixed(width: nat) returns (r: Result<nat>)
      requires Valid()
      modifies this
      ensures Valid() && pos >= old(pos)
      ensures r == Value(Wire.ReadFixed(old(Rest()), width))
      ensures r.Ok? ==> Rest() == old(Rest())[width..]
    {
      if |buf| - pos < width { return Err(Truncated); }
      assert buf[pos..][..width] == buf[pos..pos + width];
      var v := FromLittleEndian(buf[pos..pos + width]);
      pos := pos + width;
      return Ok(v);
    }

    method ReadBytes() returns (r: Result<seq<byte>>)
      requires Valid()
      modifies this
      ensures Valid() && pos >= old(pos)
      ensures r == Value(Wire.ReadBytes(old(Rest())))
      ensures r.Ok? ==> Rest() == old(Rest())[Wire.ReadBytes(old(Rest())).value.used..]
      ensures r.Ok? ==> pos > old(pos)
    {
      var n :- ReadVarint();
      if n > |buf| - pos { return Err(Truncated); }
      assert buf[pos..pos + n] == buf[pos..][..n];
      var out := buf[pos..pos + n];
      pos := pos + n;
      return Ok(out);
    }

    method Skip(k: Key, depthLeft: nat) returns (r: Result<()>)
      requires Valid()
      modifies this
      ensures Valid() && pos >= old(pos)
      ensures match Wire.Skip(old(Rest()), k, depthLeft)
              case Ok(used) => r.Ok? && Rest() == old(Rest())[used..]
              case Err(e) => r == Err(e)
      decreases depthLeft, 2
    {
      match k.wire
      case VARINT => var _ :- ReadVarint(); return Ok(());
      case FIXED64 => var _ :- ReadFixed(8); return Ok(());
      case FIXED32 => var _ :- ReadFixed(4); return Ok(());
      case LEN => var _ :- ReadBytes(); return Ok(());
      case END_GROUP => return Err(UnexpectedEndGroup);
      case START_GROUP =>
        if depthLeft == 0 { return Err(TooDeep); }
        r := SkipGroup(k.number, depthLeft);
    }

    method SkipGroup(number: nat, depthLeft: nat) returns (r: Result<()>)
      requires Valid() && depthLeft > 0
      modifies this
      ensures Valid() && pos >= old(pos)
      ensures match Wire.SkipGroup(old(Rest()), number, depthLeft)
              case Ok(used) => r.Ok? && Rest() == old(Rest())[used..]
              case Err(e) => r == Err(e)
      decreases depthLeft, 1
    {
      hide Wire.SkipGroup;
      ghost var gone: nat := 0;
      while true
        invariant Valid() && pos == old(pos) + gone
        invariant Wire.SkipGroup(old(Rest()), number, depthLeft)
               == Further(gone, Wire.SkipGroup(Rest(), number, depthLeft))
        decreases |buf| - pos
      {
        ghost var before := pos;
        var ended :- GroupField(number, depthLeft);
        if ended { return Ok(()); }
        FurtherTwice(gone, pos - before, Wire.SkipGroup(Rest(), number, depthLeft));
        gone := gone + (pos - before);
      }
    }

    /** One turn of that loop: a field, or the end of the group. */
    method GroupField(number: nat, depthLeft: nat) returns (r: Result<bool>)
      requires Valid() && depthLeft > 0
      modifies this
      ensures Valid() && pos >= old(pos)
      ensures r.Err? ==> Wire.SkipGroup(old(Rest()), number, depthLeft) == Err(r.error)
      ensures r == Ok(true) ==> Wire.SkipGroup(old(Rest()), number, depthLeft) == Ok(pos - old(pos))
      ensures r == Ok(false) ==> pos > old(pos) && Wire.SkipGroup(old(Rest()), number, depthLeft)
                                 == Further(pos - old(pos), Wire.SkipGroup(Rest(), number, depthLeft))
      decreases depthLeft, 0
    {
      hide Wire.SkipGroup, Wire.Skip, Wire.ReadKey;
      ghost var before := Rest();
      GroupUnfolds(before, number, depthLeft);
      var inner :- ReadKey();
      if inner.wire == END_GROUP {
        if inner.number != number { return Err(UnexpectedEndGroup); }
        return Ok(true);
      }
      var _ :- Skip(inner, depthLeft - 1);
      assert Rest() == before[pos - old(pos)..];
      return Ok(false);
    }
  }

  function Further(gone: nat, r: Result<nat>): Result<nat> {
    match r
    case Ok(used) => Ok(gone + used)
    case Err(e) => Err(e)
  }

  lemma FurtherTwice(a: nat, b: nat, r: Result<nat>)
    ensures Further(a, Further(b, r)) == Further(a + b, r)
  {
  }

  /** What a group is after its next key. */
  ghost predicate GroupStep(s: seq<byte>, number: nat, depthLeft: nat, key: At<Key>)
    requires depthLeft > 0 && key.used <= |s|
  {
    var group := SkipGroup(s, number, depthLeft);
    if key.value.wire == END_GROUP then
      group == if key.value.number != number then Err(UnexpectedEndGroup) else Ok(key.used)
    else
      var body := Wire.Skip(s[key.used..], key.value, depthLeft - 1);
      && (body.Err? ==> group == Err(body.error))
      && (body.Ok? ==> group == Further(key.used + body.value, SkipGroup(s[key.used + body.value..], number, depthLeft)))
  }

  /** One turn of the group loop, read off `SkipGroup`. */
  lemma GroupUnfolds(s: seq<byte>, number: nat, depthLeft: nat)
    requires depthLeft > 0
    ensures Wire.ReadKey(s).Err? ==> SkipGroup(s, number, depthLeft) == Err(Wire.ReadKey(s).error)
    ensures Wire.ReadKey(s).Ok? ==> GroupStep(s, number, depthLeft, Wire.ReadKey(s).value)
  {
    hide Wire.ReadKey, Wire.Skip;
    var k := Wire.ReadKey(s);
    if k.Ok? && k.value.value.wire != END_GROUP { FieldInGroup(s, number, depthLeft, k.value); }
  }

  lemma FieldInGroup(s: seq<byte>, number: nat, depthLeft: nat, key: At<Key>)
    requires depthLeft > 0 && Wire.ReadKey(s) == Ok(key) && key.value.wire != END_GROUP
    ensures var group, body := SkipGroup(s, number, depthLeft), Wire.Skip(s[key.used..], key.value, depthLeft - 1);
            && (body.Err? ==> group == Err(body.error))
            && (body.Ok? ==> group == Further(key.used + body.value, SkipGroup(s[key.used + body.value..], number, depthLeft)))
  {
    hide Wire.ReadKey, Wire.Skip;
    var body := Wire.Skip(s[key.used..], key.value, depthLeft - 1);
    if body.Ok? {
      var rest := SkipGroup(s[key.used + body.value..], number, depthLeft);
      assert SkipGroup(s, number, depthLeft) == if rest.Ok? then Ok(key.used + body.value + rest.value) else rest;
    }
  }
}
