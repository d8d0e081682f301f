/** WebSocket frames of sections 5.2 and 5.3 of RFC 6455: the masked one a client builds, and the
    unmasked ones it reads off a socket that cuts them anywhere (bench/ws_idle.py:114-159). */
module WebSocket {
  import opened Bytes
  import opened Sockets

  const KEY: seq<byte> := [0x9a, 0x21, 0x7f, 0x0c]

  /** Exclusive or of the low `k` bits. */
  function XorBits(a: nat, b: nat, k: nat): (x: nat)
    ensures x < Pow2(k)
  {
    if k == 0 then 0 else (if a % 2 == b % 2 then 0 else 1) + 2 * XorBits(a / 2, b / 2, k - 1)
  }

  function Xor(a: byte, b: byte): byte {
    assert Pow2(8) == 256;
    XorBits(a, b, 8)
  }

  /** Bit by bit: one where the two differ. */
  lemma {:induction false} XorBitsDiffer(a: nat, b: nat, n: nat, k: nat)
    requires k < n
    ensures Bit(XorBits(a, b, n), k) == 1 <==> Bit(a, k) != Bit(b, k)
  {
    hide Bit;
    var low, high := if a % 2 == b % 2 then 0 else 1, XorBits(a / 2, b / 2, n - 1);
    assert XorBits(a, b, n) == low + 2 * high;
    Halves(low, high);
    if k == 0 {
      BitAbove(a, 0);
      BitAbove(b, 0);
      BitAbove(XorBits(a, b, n), 0);
    } else {
      XorBitsDiffer(a / 2, b / 2, n - 1, k - 1);
      BitAbove(a, k - 1);
      BitAbove(b, k - 1);
      BitAbove(XorBits(a, b, n), k - 1);
    }
  }

  lemma Halves(low: nat, high: nat)
    requires low < 2
    ensures (low + 2 * high) % 2 == low && (low + 2 * high) / 2 == high
  {
  }

  lemma {:induction false} XorBitsTwice(a: nat, b: nat, k: nat)
    requires a < Pow2(k)
    ensures XorBits(XorBits(a, b, k), b, k) == a
  {
    if k > 0 {
      XorBitsTwice(a / 2, b / 2, k - 1);
      var low, high := if a % 2 == b % 2 then 0 else 1, XorBits(a / 2, b / 2, k - 1);
      assert XorBits(a, b, k) == low + 2 * high;
      Halves(low, high);
    }
  }

  lemma XorTwice(a: byte, b: byte)
    ensures Xor(Xor(a, b), b) == a
  {
    XorBitsTwice(a, b, 8);
  }

  /** Section 5.3: octet `i` goes against octet `i` modulo 4 of the key; unmasking is the same. */
  function Mask(key: seq<byte>, data: seq<byte>): (m: seq<byte>)
    requires |key| == 4
    ensures |m| == |data|
  {
    seq(|data|, i requires 0 <= i < |data| => Xor(data[i], key[i % 4]))
  }

  /** Each bit of octet `i` is flipped exactly where octet `i` modulo 4 of the key has a one. */
  ghost predicate Masks(key: seq<byte>, data: seq<byte>, masked: seq<byte>)
    requires |key| == 4
  {
    && |masked| == |data|
    && forall i, k: nat | 0 <= i < |data| && k < 8 ::
         Bit(masked[i], k) == 1 <==> Bit(data[i], k) != Bit(key[i % 4], k)
  }

  lemma MaskFlips(key: seq<byte>, data: seq<byte>)
    requires |key| == 4
    ensures Masks(key, data, Mask(key, data))
  {
    hide Bit, XorBits;
    forall i, k: nat | 0 <= i < |data| && k < 8
      ensures Bit(Mask(key, data)[i], k) == 1 <==> Bit(data[i], k) != Bit(key[i % 4], k)
    {
      XorBitsDiffer(data[i], key[i % 4], 8, k);
    }
  }

  lemma MaskTwice(key: seq<byte>, data: seq<byte>)
    requires |key| == 4
    ensures Mask(key, Mask(key, data)) == data
  {
    forall i | 0 <= i < |data|
      ensures Mask(key, Mask(key, data))[i] == data[i]
    {
      XorTwice(data[i], key[i % 4]);
    }
  }

  // ---- the frame grammar ----

  datatype Length = NoLength | Length(n: nat, head: nat)

  /** The payload length and how many octets it and the two before it take. */
  function LengthAt(s: seq<byte>): Length {
    if |s| < 2 then NoLength
    else if s[1] % 128 < 126 then Length(s[1] % 128, 2)
    else if s[1] % 128 == 126 then (if |s| < 4 then NoLength else Length(FromBigEndian(s[2..4]), 4))
    else if |s| < 10 then NoLength else Length(FromBigEndian(s[2..10]), 10)
  }

  /** Section 5.2: the length takes as few octets as it can. */
  predicate Shortest(l: Length) {
    l.Length? && l.n < TWO_63 && l.head == if l.n < 126 then 2 else if l.n < 65536 then 4 else 10
  }

  datatype Parsed = Refused | Parsed(fin: bool, opcode: nat, payload: seq<byte>, size: nat)

  /** What a server makes of the front of a client's stream: no reserved bit, the shortest length,
      the mask bit, the key, the masked payload. */
  function ParseClient(s: seq<byte>): Parsed {
    var l := LengthAt(s);
    if !Shortest(l) || s[0] / 16 % 8 != 0 || s[1] < 128 || |s| < l.head + 4 + l.n then Refused
    else
      Parsed(s[0] >= 128, s[0] % 16, Mask(s[l.head..l.head + 4], s[l.head + 4..l.head + 4 + l.n]), l.head + 4 + l.n)
  }

  lemma HeadParses(head: seq<byte>, n: nat, rest: seq<byte>)
    requires n < TWO_63 && |head| >= 2
    requires if n < 126 then |head| == 2 && head[1] == 128 + n
             else if n < 65536 then |head| == 4 && head[1] == 254 && head[2..] == BigEndian(n, 2)
             else |head| == 10 && head[1] == 255 && head[2..] == BigEndian(n, 8)
    ensures LengthAt(head + rest) == Length(n, |head|) && Shortest(Length(n, |head|))
  {
    hide BigEndian, FromBigEndian, Pow256;
    if 126 <= n < 65536 {
      ReadsBack(n, 2);
      assert (head + rest)[2..4] == head[2..];
    } else if n >= 65536 {
      ReadsBack(n, 8);
      assert (head + rest)[2..10] == head[2..];
    }
  }

  lemma ReadsBack(n: nat, width: nat)
    requires (width == 2 && n < 65536) || (width == 8 && n < TWO_64)
    ensures FromBigEndian(BigEndian(n, width)) == n
  {
    Pow256Values();
    BigEndianRoundTrip(n, width);
  }

  lemma ClientParses(head: seq<byte>, opcode: nat, payload: seq<byte>, rest: seq<byte>)
    requires opcode < 16 && |head| >= 2 && head[0] == 128 + opcode && head[1] >= 128
    requires forall tail: seq<byte> :: LengthAt(head + tail) == Length(|payload|, |head|)
    requires Shortest(Length(|payload|, |head|))
    ensures ParseClient(head + KEY + Mask(KEY, payload) + rest)
            == Parsed(true, opcode, payload, |head + KEY + Mask(KEY, payload)|)
  {
    var s := head + KEY + Mask(KEY, payload) + rest;
    hide LengthAt, Mask;
    assert s == head + (KEY + Mask(KEY, payload) + rest);
    assert s[|head|..|head| + 4] == KEY;
    assert s[|head| + 4..|head| + 4 + |payload|] == Mask(KEY, payload);
    MaskTwice(KEY, payload);
  }

  /** The octets of a frame: FIN and the opcode; the mask bit and the length, in the two octets or the
      eight after it when it is too long for that one; the key; and the payload, each bit of it
      flipped where the key has a one. */
  ghost predicate LaidOut(frame: seq<byte>, opcode: nat, payload: seq<byte>) {
    var n := |payload|;
    var wide := if n < 126 then 0 else if n < 65536 then 2 else 8;
    && |frame| == 2 + wide + 4 + n
    && frame[0] == 128 + opcode
    && frame[1] == 128 + (if wide == 0 then n else if wide == 2 then 126 else 127)
    && (forall i | 2 <= i < 2 + wide :: frame[i] == n / Pow2(8 * (wide + 1 - i)) % 256)
    && frame[2 + wide..6 + wide] == [0x9a, 0x21, 0x7f, 0x0c]
    && Masks([0x9a, 0x21, 0x7f, 0x0c], payload, frame[6 + wide..])
  }

  lemma LaysOut(head: seq<byte>, opcode: nat, payload: seq<byte>)
    requires |payload| < TWO_63 && opcode < 16 && |head| >= 2 && head[0] == 128 + opcode
    requires var n := |payload|;
             if n < 126 then |head| == 2 && head[1] == 128 + n
             else if n < 65536 then |head| == 4 && head[1] == 254 && head[2..] == BigEndian(n, 2)
             else |head| == 10 && head[1] == 255 && head[2..] == BigEndian(n, 8)
    ensures LaidOut(head + KEY + Mask(KEY, payload), opcode, payload)
  {
    hide BigEndian, Mask, Masks, Pow2;
    var n, wide := |payload|, |head| - 2;
    var frame := head + KEY + Mask(KEY, payload);
    forall i | 2 <= i < 2 + wide ensures frame[i] == n / Pow2(8 * (wide + 1 - i)) % 256 {
      BigEndianOctets(n, wide, i - 2);
      assert frame[i] == head[2..][i - 2];
    }
    assert frame[|head|..|head| + 4] == KEY && frame[|head| + 4..] == Mask(KEY, payload);
    MaskFlips(KEY, payload);
  }

  /** `masked_frame`: whatever follows it, a server reads this payload and opcode back, under the
      shortest length there is. */
  method MaskedFrame(payload: seq<byte>, opcode: nat) returns (frame: seq<byte>)
    requires |payload| < TWO_63 && opcode < 16
    ensures forall rest: seq<byte> :: ParseClient(frame + rest) == Parsed(true, opcode, payload, |frame|)
    ensures LaidOut(frame, opcode, payload)
  {
    var n := |payload|;
    var head: seq<byte> := [0x80 + opcode];
    if n < 126 {
      head := head + [0x80 + n];
    } else if n < 65536 {
      head := head + [0x80 + 126];
      head := head + BigEndian(n, 2);
    } else {
      head := head + [0x80 + 127];
      head := head + BigEndian(n, 8);
    }
    forall tail: seq<byte> ensures LengthAt(head + tail) == Length(n, |head|) && Shortest(Length(n, |head|)) {
      HeadParses(head, n, tail);
    }
    assert Shortest(Length(n, |head|)) by { assert LengthAt(head + []) == Length(n, |head|); }
    frame := head + KEY + Mask(KEY, payload);
    LaysOut(head, opcode, payload);
    forall rest: seq<byte> ensures ParseClient(frame + rest) == Parsed(true, opcode, payload, |frame|) {
      ClientParses(head, opcode, payload, rest);
    }
  }

  // ---- reading a server ----

  /** The three forms a length may take. */
  datatype Form = Inline | Two | Eight

  datatype ServerFrame = ServerFrame(first: byte, form: Form, payload: seq<byte>)

  predicate Fits(f: ServerFrame) {
    |f.payload| < match f.form case Inline => 126 case Two => 65536 case Eight => TWO_64
  }

  function EncodeLength(form: Form, n: nat): seq<byte>
    requires n < match form case Inline => 126 case Two => 65536 case Eight => TWO_64
  {
    match form
    case Inline => [n]
    case Two => [126] + BigEndian(n, 2)
    case Eight => [127] + BigEndian(n, 8)
  }

  function Encode(f: ServerFrame): seq<byte>
    requires Fits(f)
  {
    [f.first] + EncodeLength(f.form, |f.payload|) + f.payload
  }

  function EncodeAll(fs: seq<ServerFrame>): seq<byte>
    requires forall f <- fs :: Fits(f)
  {
    if fs == [] then [] else Encode(fs[0]) + EncodeAll(fs[1..])
  }

  /** A whole unmasked frame is at the front. */
  predicate Whole(s: seq<byte>) {
    LengthAt(s).Length? && |s| >= LengthAt(s).head + LengthAt(s).n
  }

  lemma EncodedIsWhole(f: ServerFrame, rest: seq<byte>)
    requires Fits(f)
    ensures var s, l := Encode(f) + rest, LengthAt(Encode(f) + rest);
            Whole(s) && s[l.head..l.head + l.n] == f.payload && s[l.head + l.n..] == rest
  {
    hide BigEndian, FromBigEndian, Pow256;
    var n := |f.payload|;
    var s := Encode(f) + rest;
    match f.form
    case Inline =>
    case Two =>
      ReadsBack(n, 2);
      assert s[2..4] == BigEndian(n, 2);
    case Eight =>
      ReadsBack(n, 8);
      assert s[2..10] == BigEndian(n, 8);
  }

  /** `recv_exact`. */
  method RecvExact(s: Socket, n: nat, buf: seq<byte>) returns (r: Received<seq<byte>>, rest: seq<byte>)
    requires s.Valid()
    modifies s
    ensures s.Valid()
    ensures r.Got? <==> |buf + old(s.Coming())| >= n
    ensures r.Got? ==> |r.value| == n && r.value + (rest + s.Coming()) == buf + old(s.Coming())
  {
    var have := s.Fill(buf, n);
    if have.Closed? { return Closed, buf; }
    rest := have.value[n..];
    assert have.value[..n] + rest == have.value;
    return Got(have.value[..n]), rest;
  }

  /** `read_frame`: whatever the pieces, the payload at the front of the stream, and the rest kept. */
  method ReadFrame(s: Socket, buf: seq<byte>) returns (r: Received<seq<byte>>, rest: seq<byte>)
    requires s.Valid()
    modifies s
    ensures s.Valid()
    ensures r.Got? <==> Whole(buf + old(s.Coming()))
    ensures r.Got? ==> var all := buf + old(s.Coming());
                       var l := LengthAt(all);
                       r.value == all[l.head..l.head + l.n] && rest + s.Coming() == all[l.head + l.n..]
  {
    hide FromBigEndian, Pow256;
    ghost var all := buf + s.Coming();
    var head, ext;
    head, rest := RecvExact(s, 2, buf);
    if head.Closed? { return Closed, rest; }
    var n: nat := head.value[1] % 128;
    ghost var size: nat := 2;
    assert head.value == all[..2] && rest + s.Coming() == all[2..];
    if n == 126 {
      ext, rest := RecvExact(s, 2, rest);
      if ext.Closed? { return Closed, rest; }
      n, size := FromBigEndian(ext.value), 4;
      assert ext.value == all[2..4] && rest + s.Coming() == all[4..];
    } else if n == 127 {
      ext, rest := RecvExact(s, 8, rest);
      if ext.Closed? { return Closed, rest; }
      n, size := FromBigEndian(ext.value), 10;
      assert ext.value == all[2..10] && rest + s.Coming() == all[10..];
    }
    assert LengthAt(all) == Length(n, size);
    r, rest := RecvExact(s, n, rest);
    if r.Got? {
      assert r.value == all[size..][..n] == all[size..size + n];
      assert rest + s.Coming() == all[size..][n..] == all[size + n..];
    }
  }

  /** Every payload a server sent, in order, over any cut of the stream. */
  method ReadFrames(s: Socket, buf: seq<byte>, count: nat, ghost fs: seq<ServerFrame>, ghost suffix: seq<byte>)
    returns (payloads: seq<seq<byte>>, rest: seq<byte>)
    requires s.Valid() && count == |fs| && forall f <- fs :: Fits(f)
    requires buf + s.Coming() == EncodeAll(fs) + suffix
    modifies s
    ensures s.Valid() && rest + s.Coming() == suffix && |payloads| == |fs|
    ensures forall i | 0 <= i < |fs| :: payloads[i] == fs[i].payload
  {
    hide LengthAt, Encode;
    payloads, rest := [], buf;
    for k := 0 to count
      invariant s.Valid() && |payloads| == k
      invariant forall i | 0 <= i < k :: payloads[i] == fs[i].payload
      invariant (forall f <- fs[k..] :: Fits(f)) && rest + s.Coming() == EncodeAll(fs[k..]) + suffix
    {
      assert fs[k..][0] == fs[k] && fs[k..][1..] == fs[k + 1..];
      assert Fits(fs[k]) && forall f <- fs[k + 1..] :: f in fs[k..];
      var after := EncodeAll(fs[k + 1..]) + suffix;
      EncodedIsWhole(fs[k], after);
      assert rest + s.Coming() == Encode(fs[k]) + after;
      var r;
      r, rest := ReadFrame(s, rest);
      payloads := payloads + [r.value];
    }
  }
}
