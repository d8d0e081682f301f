/** HPACK header blocks as section 6 of RFC 7541 writes them, and the scanner that counts what a
    client chose to send without decoding it (spike/grpc/probe/main.go:68-127). */
module Hpack {
  import opened Bytes

  // ---- what a client may write ----

  datatype Literal = Incremental | Plain | NeverIndexed

  /** A string literal: the Huffman bit and the octets as they travel. */
  datatype Str = Str(huffman: bool, octets: seq<byte>)

  datatype Name = ByIndex(index: nat) | ByText(text: Str)

  datatype Rep =
    | Indexed(index: nat)
    | Literally(kind: Literal, name: Name, value: Str)
    | SizeUpdate(size: nat)

  function Mask(prefix: nat): nat
    requires 1 <= prefix <= 7
  {
    match prefix
    case 1 => 1 case 2 => 3 case 3 => 7 case 4 => 15 case 5 => 31 case 6 => 63 case _ => 127
  }

  /** Section 5.1: an integer behind the bits of `tag`. */
  function EncodeInt(tag: nat, prefix: nat, v: nat): (s: seq<byte>)
    requires 1 <= prefix <= 7 && tag + Mask(prefix) < 256
    ensures |s| >= 1
  {
    if v < Mask(prefix) then [tag + v] else [tag + Mask(prefix)] + EncodeVarint(v - Mask(prefix))
  }

  /** Section 5.2. */
  function EncodeStr(s: Str): seq<byte> {
    EncodeInt(if s.huffman then 0x80 else 0, 7, |s.octets|) + s.octets
  }

  function LiteralTag(kind: Literal): nat {
    match kind case Incremental => 0x40 case Plain => 0 case NeverIndexed => 0x10
  }

  function LiteralPrefix(kind: Literal): nat {
    match kind case Incremental => 6 case Plain => 4 case NeverIndexed => 4
  }

  /** Section 6. */
  function EncodeRep(r: Rep): seq<byte> {
    match r
    case Indexed(index) => EncodeInt(0x80, 7, index)
    case SizeUpdate(size) => EncodeInt(0x20, 5, size)
    case Literally(kind, ByIndex(index), value) =>
      EncodeInt(LiteralTag(kind), LiteralPrefix(kind), index) + EncodeStr(value)
    case Literally(kind, ByText(text), value) =>
      EncodeInt(LiteralTag(kind), LiteralPrefix(kind), 0) + EncodeStr(text) + EncodeStr(value)
  }

  function EncodeBlock(reps: seq<Rep>): seq<byte> {
    if reps == [] then [] else EncodeRep(reps[0]) + EncodeBlock(reps[1..])
  }

  /** Integers fit 64 bits, and a name taken from a table has a place in it. */
  predicate Sendable(r: Rep) {
    match r
    case Indexed(index) => index < TWO_64
    case SizeUpdate(size) => size < TWO_64
    case Literally(_, ByIndex(index), _) => 0 < index < TWO_64
    case Literally(_, ByText(_), _) => true
  }

  // ---- the scanner ----

  /** What one block record counts. `kinds` has one letter for every field the block carries. */
  datatype Counts = Counts(
    indexed: nat, incIndex: nat, noIndex: nat, never: nat, sizeUpdate: seq<nat>, kinds: seq<char>)

  const ZERO: Counts := Counts(0, 0, 0, 0, [], [])

  datatype Read = Read(value: nat, next: int) | OutOfRange

  /** The continuation loop of `readInt`: it stops at a clear high bit or where the block ends,
      and adds in 64 bits. */
  function ReadRest(b: seq<byte>, i: nat, v: nat, k: nat): (r: (nat, nat))
    requires i <= |b|
    ensures i <= r.1 <= |b|
    decreases |b| - i
  {
    if i == |b| then (v, i)
    else
      var v' := (v + Shift(b[i] % 128, k)) % TWO_64;
      if b[i] < 128 then (v', i + 1) else ReadRest(b, i + 1, v', k + 1)
  }

  function ReadInt(b: seq<byte>, i: int, prefix: nat): Read
    requires 1 <= prefix <= 7
  {
    if !(0 <= i < |b|) then OutOfRange
    else
      var v := b[i] % (Mask(prefix) + 1);
      if v < Mask(prefix) then Read(v, i + 1)
      else
        var r := ReadRest(b, i + 1, v, 0);
        Read(r.0, r.1)
  }

  /** Two's complement: what Go's conversion to `int` and its addition leave of a number. */
  function ToInt64(n: int): int {
    var m := n % TWO_64;
    if m < TWO_63 then m else m - TWO_64
  }

  function SkipString(b: seq<byte>, i: int): Read {
    match ReadInt(b, i, 7)
    case OutOfRange => OutOfRange
    case Read(n, next) => Read(n, ToInt64(next + ToInt64(n)))
  }

  datatype Scan =
    | Running(i: int, counts: Counts)
    | Finished(counts: Counts)
    | Panicked

  function AfterStrings(b: seq<byte>, start: Read, counts: Counts): Scan {
    match start
    case OutOfRange => Panicked
    case Read(index, next) =>
      var named := if index == 0 then SkipString(b, next) else start;
      match named
      case OutOfRange => Panicked
      case Read(_, next') =>
        match SkipString(b, next')
        case OutOfRange => Panicked
        case Read(_, end) => Running(end, counts)
  }

  /** One turn of the scanner's loop. */
  function Turn(b: seq<byte>, s: Scan): Scan {
    if !s.Running? then s
    else if s.i >= |b| then Finished(s.counts)
    else if s.i < 0 then Panicked
    else
      var c, n := b[s.i], s.counts;
      if c >= 0x80 then
        match ReadInt(b, s.i, 7)
        case OutOfRange => Panicked
        case Read(_, next) => Running(next, n.(indexed := n.indexed + 1, kinds := n.kinds + ['i']))
      else if c >= 0x40 then
        AfterStrings(b, ReadInt(b, s.i, 6), n.(incIndex := n.incIndex + 1, kinds := n.kinds + ['+']))
      else if c >= 0x20 then
        match ReadInt(b, s.i, 5)
        case OutOfRange => Panicked
        case Read(size, next) => Running(next, n.(sizeUpdate := n.sizeUpdate + [size]))
      else if c >= 0x10 then
        AfterStrings(b, ReadInt(b, s.i, 4), n.(never := n.never + 1, kinds := n.kinds + ['n']))
      else
        AfterStrings(b, ReadInt(b, s.i, 4), n.(noIndex := n.noIndex + 1, kinds := n.kinds + ['l']))
  }

  function Run(b: seq<byte>, s: Scan, turns: nat): Scan
    decreases turns
  {
    if turns == 0 then s else Run(b, Turn(b, s), turns - 1)
  }

  // ---- the integer round trip ----

  /** `b` holds `part` at `i`. */
  predicate Holds(b: seq<byte>, i: nat, part: seq<byte>) {
    i + |part| <= |b| && b[i..i + |part|] == part
  }

  lemma HoldsParts(b: seq<byte>, i: nat, x: seq<byte>, y: seq<byte>)
    requires Holds(b, i, x + y)
    ensures Holds(b, i, x) && Holds(b, i + |x|, y)
  {
    assert (x + y)[..|x|] == x && (x + y)[|x|..] == y;
  }

  /** One group read without overflow: what is added now, and what the other groups still add. */
  lemma GroupStep(v: nat, w: nat, k: nat)
    requires v + Shift(w, k) < TWO_64
    ensures (v + Shift(w % 128, k)) % TWO_64 == v + Shift(w % 128, k)
    ensures v + Shift(w % 128, k) + Shift(w / 128, k + 1) == v + Shift(w, k)
    ensures w < 128 ==> Shift(w % 128, k) == Shift(w, k)
  {
    SplitGroup(w, Pow128(k));
    hide Pow128;
    assert Pow128(k + 1) == 128 * Pow128(k) by { NextPower(k); }
  }

  lemma NextPower(k: nat)
    ensures Pow128(k + 1) == 128 * Pow128(k)
  {
  }

  lemma SplitGroup(v: nat, p: nat)
    ensures v % 128 * p + v / 128 * (128 * p) == v * p
  {
    var q, r := v / 128, v % 128;
    assert v == 128 * q + r;
    assert q * (128 * p) == (128 * q) * p;
    assert (128 * q + r) * p == (128 * q) * p + r * p;
  }

  lemma {:induction false} ReadRestInverts(b: seq<byte>, i: nat, v: nat, k: nat, w: nat)
    requires Holds(b, i, EncodeVarint(w))
    requires v + Shift(w, k) < TWO_64
    ensures ReadRest(b, i, v, k) == (v + Shift(w, k), i + |EncodeVarint(w)|)
    decreases w
  {
    hide Shift;
    var e := EncodeVarint(w);
    assert b[i] == b[i..i + |e|][0] == e[0];
    GroupStep(v, w, k);
    if w >= 128 {
      HoldsParts(b, i, [e[0]], EncodeVarint(w / 128));
      ReadRestInverts(b, i + 1, v + Shift(w % 128, k), k + 1, w / 128);
    }
  }

  lemma TagLeavesValue(tag: nat, prefix: nat, low: nat)
    requires 1 <= prefix <= 7 && tag % (Mask(prefix) + 1) == 0 && low <= Mask(prefix)
    ensures (tag + low) % (Mask(prefix) + 1) == low
  {
  }

  lemma MaskIs(prefix: nat)
    requires 1 <= prefix <= 7
    ensures Mask(prefix) + 1 == Pow2(prefix)
  {
    assert Pow2(2) == 4 && Pow2(4) == 16;
  }

  /** How many octets from `i` go on a number: up to one with a clear high bit or the end. */
  function GroupCount(b: seq<byte>, i: nat): (n: nat)
    requires i <= |b|
    ensures i + n <= |b|
    decreases |b| - i
  {
    if i == |b| then 0 else if b[i] < 128 then 1 else 1 + GroupCount(b, i + 1)
  }

  /** The number those octets spell, least significant seven bits first, of any size. */
  function GroupValue(b: seq<byte>, i: nat): nat
    requires i <= |b|
    decreases |b| - i
  {
    if i == |b| then 0
    else b[i] % 128 + 128 * (if b[i] < 128 then 0 else GroupValue(b, i + 1))
  }

  lemma GroupsJoin(v: nat, low: nat, high: nat, k: nat)
    ensures Wrap64(Wrap64(v + Shift(low, k)) + Shift(high, k + 1)) == Wrap64(v + Shift(low + 128 * high, k))
  {
    Wraps64(v + Shift(low, k), Shift(high, k + 1));
    hide Wrap64;
    NextPower(k);
    var p := Pow128(k);
    hide Pow128;
    Grouped(low, high, p);
    assert v + Shift(low, k) + Shift(high, k + 1) == v + Shift(low + 128 * high, k);
  }

  lemma Grouped(low: nat, high: nat, p: nat)
    ensures low * p + high * (128 * p) == (low + 128 * high) * p
  {
  }

  /** The loop adds up what the groups spell, in 64 bits, on any octets. */
  lemma {:induction false} GroupsRead(b: seq<byte>, i: nat, v: nat, k: nat)
    requires i <= |b| && v < TWO_64
    ensures ReadRest(b, i, v, k) == (Wrap64(v + Shift(GroupValue(b, i), k)), i + GroupCount(b, i))
    decreases |b| - i
  {
    hide Shift, Wrap64;
    NothingShifted(k);
    if i < |b| {
      var low := b[i] % 128;
      var high := if b[i] < 128 then 0 else GroupValue(b, i + 1);
      GroupsJoin(v, low, high, k);
      NothingShifted(k + 1);
      IsWrap64(v + Shift(low, k));
      if b[i] >= 128 { GroupsRead(b, i + 1, Wrap64(v + Shift(low, k)), k + 1); }
    }
  }

  lemma NothingShifted(k: nat)
    ensures Shift(0, k) == 0
  {
  }

  lemma IsWrap64(v: nat)
    ensures v % TWO_64 == Wrap64(v)
  {
  }

  /** `readInt` on any octets: what the low bits of the first say, unless they are all set; then
      that many and what the groups after it spell. */
  lemma IntOnOctets(b: seq<byte>, i: nat, prefix: nat)
    requires 1 <= prefix <= 7 && i < |b|
    ensures b[i] % Pow2(prefix) < Pow2(prefix) - 1 ==> ReadInt(b, i, prefix) == Read(b[i] % Pow2(prefix), i + 1)
    ensures b[i] % Pow2(prefix) == Pow2(prefix) - 1 ==>
              ReadInt(b, i, prefix)
              == Read((Pow2(prefix) - 1 + GroupValue(b, i + 1)) % TWO_64, i + 1 + GroupCount(b, i + 1))
  {
    MaskIs(prefix);
    IntReads(b, i, prefix, b[i] % (Mask(prefix) + 1), ReadRest(b, i + 1, b[i] % (Mask(prefix) + 1), 0));
    GroupsRead(b, i + 1, b[i] % (Mask(prefix) + 1), 0);
    NoShift(GroupValue(b, i + 1));
    hide ReadInt, ReadRest, Shift, GroupValue, GroupCount, Pow2;
    IsWrap64(Mask(prefix) + GroupValue(b, i + 1));
  }

  /** Go's conversion: the number of 64 bits in two's complement that is the same modulo 2^64. */
  lemma ToInt64Is(n: int)
    ensures -TWO_63 <= ToInt64(n) < TWO_63
    ensures exists q: int :: ToInt64(n) == n + q * TWO_64
  {
    var q := if n % TWO_64 < TWO_63 then -(n / TWO_64) else -(n / TWO_64) - 1;
    assert ToInt64(n) == n + q * TWO_64;
  }

  /** A turn by the high bits of its octet: 1, 01, 001, 0001 and 0000 in turn are an indexed field,
      an incremental literal, a size update, a literal never indexed and a plain one. */
  lemma TurnByBits(b: seq<byte>, i: nat, n: Counts)
    requires i < |b|
    ensures b[i] / 128 == 1 ==>
              var r := ReadInt(b, i, 7);
              r.Read? ==> Turn(b, Running(i, n)) == Running(r.next, n.(indexed := n.indexed + 1, kinds := n.kinds + ['i']))
    ensures b[i] / 64 == 1 ==>
              Turn(b, Running(i, n)) == AfterStrings(b, ReadInt(b, i, 6), n.(incIndex := n.incIndex + 1, kinds := n.kinds + ['+']))
    ensures b[i] / 32 == 1 ==>
              var r := ReadInt(b, i, 5);
              r.Read? ==> Turn(b, Running(i, n)) == Running(r.next, n.(sizeUpdate := n.sizeUpdate + [r.value]))
    ensures b[i] / 16 == 1 ==>
              Turn(b, Running(i, n)) == AfterStrings(b, ReadInt(b, i, 4), n.(never := n.never + 1, kinds := n.kinds + ['n']))
    ensures b[i] / 16 == 0 ==>
              Turn(b, Running(i, n)) == AfterStrings(b, ReadInt(b, i, 4), n.(noIndex := n.noIndex + 1, kinds := n.kinds + ['l']))
  {
    hide ReadInt, AfterStrings;
  }

  /** What is read when the groups after the first octet read as `rest`. */
  lemma IntReads(b: seq<byte>, i: nat, prefix: nat, low: nat, rest: (nat, nat))
    requires 1 <= prefix <= 7 && i < |b| && b[i] % (Mask(prefix) + 1) == low
    requires low >= Mask(prefix) ==> rest == ReadRest(b, i + 1, low, 0)
    ensures ReadInt(b, i, prefix) == if low < Mask(prefix) then Read(low, i + 1) else Read(rest.0, rest.1)
  {
    hide Mask, ReadRest;
  }

  lemma NoShift(w: nat)
    ensures Shift(w, 0) == w
  {
    assert Pow128(0) == 1;
  }

  /** `readInt` gives back every 64-bit integer, whatever bits share its first octet. */
  lemma IntRoundTrip(b: seq<byte>, i: nat, tag: nat, prefix: nat, v: nat)
    requires 1 <= prefix <= 7 && tag % (Mask(prefix) + 1) == 0 && tag + Mask(prefix) < 256 && v < TWO_64
    requires Holds(b, i, EncodeInt(tag, prefix, v))
    ensures ReadInt(b, i, prefix) == Read(v, i + |EncodeInt(tag, prefix, v)|)
  {
    hide Mask, ReadRest, ReadInt, Shift;
    var e, low := EncodeInt(tag, prefix, v), if v < Mask(prefix) then v else Mask(prefix);
    TagLeavesValue(tag, prefix, low);
    assert b[i] == b[i..i + |e|][0] == e[0] == tag + low;
    if v < Mask(prefix) {
      IntReads(b, i, prefix, low, (0, 0));
    } else {
      var w := v - Mask(prefix);
      HoldsParts(b, i, [e[0]], EncodeVarint(w));
      NoShift(w);
      ReadRestInverts(b, i + 1, low, 0, w);
      IntReads(b, i, prefix, low, (v, i + |e|));
    }
  }

  lemma StringSkipped(b: seq<byte>, i: nat, s: Str)
    requires |b| < TWO_63 && Holds(b, i, EncodeStr(s))
    ensures SkipString(b, i) == Read(|s.octets|, i + |EncodeStr(s)|)
  {
    hide EncodeInt, ReadInt;
    var tag := if s.huffman then 0x80 else 0;
    HoldsParts(b, i, EncodeInt(tag, 7, |s.octets|), s.octets);
    IntRoundTrip(b, i, tag, 7, |s.octets|);
  }

  // ---- a whole block ----

  /** What a representation means to the record, said of the representation and not its octets. */
  function Note(n: Counts, r: Rep): Counts {
    match r
    case Indexed(_) => n.(indexed := n.indexed + 1, kinds := n.kinds + ['i'])
    case SizeUpdate(size) => n.(sizeUpdate := n.sizeUpdate + [size])
    case Literally(Incremental, _, _) => n.(incIndex := n.incIndex + 1, kinds := n.kinds + ['+'])
    case Literally(NeverIndexed, _, _) => n.(never := n.never + 1, kinds := n.kinds + ['n'])
    case Literally(Plain, _, _) => n.(noIndex := n.noIndex + 1, kinds := n.kinds + ['l'])
  }

  function NoteAll(n: Counts, reps: seq<Rep>): Counts
    decreases |reps|
  {
    if reps == [] then n else NoteAll(Note(n, reps[0]), reps[1..])
  }

  lemma LiteralTurn(b: seq<byte>, i: nat, kind: Literal, name: Name, value: Str, counts: Counts)
    requires |b| < TWO_63 && Sendable(Literally(kind, name, value))
    requires Holds(b, i, EncodeRep(Literally(kind, name, value)))
    ensures AfterStrings(b, ReadInt(b, i, LiteralPrefix(kind)), counts)
         == Running(i + |EncodeRep(Literally(kind, name, value))|, counts)
  {
    hide ReadInt, SkipString, EncodeInt, EncodeStr;
    var index := if name.ByIndex? then name.index else 0;
    var head := EncodeInt(LiteralTag(kind), LiteralPrefix(kind), index);
    match name
    case ByIndex(_) =>
      HoldsParts(b, i, head, EncodeStr(value));
      IntRoundTrip(b, i, LiteralTag(kind), LiteralPrefix(kind), index);
      StringSkipped(b, i + |head|, value);
    case ByText(text) =>
      HoldsParts(b, i, head + EncodeStr(text), EncodeStr(value));
      HoldsParts(b, i, head, EncodeStr(text));
      IntRoundTrip(b, i, LiteralTag(kind), LiteralPrefix(kind), index);
      StringSkipped(b, i + |head|, text);
      StringSkipped(b, i + |head| + |EncodeStr(text)|, value);
  }

  /** The first octet of a representation says which it is. */
  lemma FirstOctet(r: Rep)
    requires Sendable(r)
    ensures EncodeRep(r) != []
    ensures match r
            case Indexed(_) => 0x80 <= EncodeRep(r)[0]
            case SizeUpdate(_) => 0x20 <= EncodeRep(r)[0] < 0x40
            case Literally(Incremental, _, _) => 0x40 <= EncodeRep(r)[0] < 0x80
            case Literally(NeverIndexed, _, _) => 0x10 <= EncodeRep(r)[0] < 0x20
            case Literally(Plain, _, _) => EncodeRep(r)[0] < 0x10
  {
  }

  lemma RepTurn(b: seq<byte>, i: nat, r: Rep, n: Counts)
    requires |b| < TWO_63 && Sendable(r) && Holds(b, i, EncodeRep(r))
    ensures Turn(b, Running(i, n)) == Running(i + |EncodeRep(r)|, Note(n, r))
  {
    hide EncodeRep, ReadInt, AfterStrings;
    FirstOctet(r);
    assert b[i] == b[i..i + |EncodeRep(r)|][0] == EncodeRep(r)[0];
    match r
    case Indexed(index) =>
      assert EncodeRep(r) == EncodeInt(0x80, 7, index) by { WrittenAsInt(r); }
      IntRoundTrip(b, i, 0x80, 7, index);
    case SizeUpdate(size) =>
      assert EncodeRep(r) == EncodeInt(0x20, 5, size) by { WrittenAsInt(r); }
      IntRoundTrip(b, i, 0x20, 5, size);
    case Literally(kind, name, value) =>
      LiteralTurn(b, i, kind, name, value, Note(n, r));
  }

  lemma WrittenAsInt(r: Rep)
    ensures r.Indexed? ==> EncodeRep(r) == EncodeInt(0x80, 7, r.index)
    ensures r.SizeUpdate? ==> EncodeRep(r) == EncodeInt(0x20, 5, r.size)
  {
  }

  lemma LastTurn(b: seq<byte>, i: nat, n: Counts)
    requires i == |b|
    ensures Turn(b, Running(i, n)) == Finished(n)
  {
  }

  lemma {:induction false} BlockRuns(b: seq<byte>, i: nat, reps: seq<Rep>, n: Counts)
    requires |b| < TWO_63 && (forall r <- reps :: Sendable(r))
    requires Holds(b, i, EncodeBlock(reps)) && i + |EncodeBlock(reps)| == |b|
    ensures Run(b, Running(i, n), |reps| + 1) == Finished(NoteAll(n, reps))
    decreases |reps|
  {
    hide EncodeRep, Note, Turn, Sendable;
    if reps == [] {
      LastTurn(b, i, n);
      assert Run(b, Finished(n), 0) == Finished(n);
    } else {
      assert reps[0] in reps && forall r <- reps[1..] :: r in reps;
      HoldsParts(b, i, EncodeRep(reps[0]), EncodeBlock(reps[1..]));
      RepTurn(b, i, reps[0], n);
      BlockRuns(b, i + |EncodeRep(reps[0])|, reps[1..], Note(n, reps[0]));
    }
  }

  /** Every encodable block is scanned to its end, one turn a representation, and the record says
      exactly what was sent. */
  lemma ScanOfEncoding(reps: seq<Rep>)
    requires forall r <- reps :: Sendable(r)
    requires |EncodeBlock(reps)| < TWO_63
    ensures Run(EncodeBlock(reps), Running(0, ZERO), |reps| + 1) == Finished(NoteAll(ZERO, reps))
  {
    hide EncodeBlock, NoteAll, Run;
    BlockRuns(EncodeBlock(reps), 0, reps, ZERO);
  }
}
