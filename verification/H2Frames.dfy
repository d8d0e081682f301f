/** HTTP/2 frames as section 4.1 of RFC 9113 lays them out, read off a socket that cuts them
    anywhere (bench/mem.py:60-61, 137-165). */
module H2Frames {
  import opened Bytes
  import opened Sockets

  datatype Frame = Frame(kind: byte, flags: byte, stream: nat, payload: seq<byte>)

  /** The length fits its three octets and the stream its four. */
  predicate Fits(f: Frame) {
    |f.payload| < 0x100_0000 && f.stream < TWO_32
  }

  function Encode(f: Frame): seq<byte> {
    BigEndian(|f.payload|, 3) + [f.kind, f.flags] + BigEndian(f.stream, 4) + f.payload
  }

  function EncodeAll(fs: seq<Frame>): seq<byte> {
    if fs == [] then [] else Encode(fs[0]) + EncodeAll(fs[1..])
  }

  /** How many octets the frame at the front takes, once its header is there. */
  function FrameSize(s: seq<byte>): nat
    requires |s| >= 9
  {
    9 + FromBigEndian(s[..3])
  }

  /** A whole frame is at the front. */
  predicate Complete(s: seq<byte>) {
    |s| >= 9 && |s| >= FrameSize(s)
  }

  /** `kinds` are the kind and flags of the frames `all` begins with, and `rest` what follows. */
  ghost predicate Splits(all: seq<byte>, kinds: seq<(byte, byte)>, rest: seq<byte>)
    decreases |kinds|
  {
    if kinds == [] then all == rest
    else Complete(all) && (all[3], all[4]) == kinds[0] && Splits(all[FrameSize(all)..], kinds[1..], rest)
  }

  function Kinds(fs: seq<Frame>): seq<(byte, byte)> {
    if fs == [] then [] else [(fs[0].kind, fs[0].flags)] + Kinds(fs[1..])
  }

  /** Section 4.1, octet by octet: the length in three, the kind, the flags, the stream in four and
      the payload. */
  lemma FrameOctets(f: Frame)
    requires Fits(f)
    ensures var s := Encode(f);
            && |s| == 9 + |f.payload| && s[3] == f.kind && s[4] == f.flags && s[9..] == f.payload
            && (forall i | 0 <= i < 3 :: s[i] == |f.payload| / Pow2(8 * (2 - i)) % 256)
            && (forall i | 5 <= i < 9 :: s[i] == f.stream / Pow2(8 * (8 - i)) % 256)
  {
    hide BigEndian, Pow2;
    var s := Encode(f);
    forall i | 0 <= i < 3 ensures s[i] == |f.payload| / Pow2(8 * (2 - i)) % 256 {
      BigEndianOctets(|f.payload|, 3, i);
    }
    forall i | 5 <= i < 9 ensures s[i] == f.stream / Pow2(8 * (8 - i)) % 256 {
      BigEndianOctets(f.stream, 4, i - 5);
    }
  }

  /** Nothing of a frame is lost: stream and payload read back as well. */
  lemma EncodeOnce(f: Frame, g: Frame, x: seq<byte>, y: seq<byte>)
    requires Fits(f) && Fits(g) && Encode(f) + x == Encode(g) + y
    ensures f == g && x == y
  {
    FrameAtFront(f, x);
    FrameAtFront(g, y);
    var s := Encode(f) + x;
    Pow256Values();
    hide BigEndian, FromBigEndian;
    BigEndianRoundTrip(f.stream, 4);
    BigEndianRoundTrip(g.stream, 4);
    assert s[5..9] == BigEndian(f.stream, 4) && s[5..9] == BigEndian(g.stream, 4);
    assert s[9..|Encode(f)|] == f.payload && s[9..|Encode(g)|] == g.payload;
  }

  lemma FrameAtFront(f: Frame, suffix: seq<byte>)
    requires Fits(f)
    ensures var s := Encode(f) + suffix;
            && Complete(s) && FrameSize(s) == |Encode(f)|
            && s[3] == f.kind && s[4] == f.flags && s[FrameSize(s)..] == suffix
  {
    var s := Encode(f) + suffix;
    Pow256Values();
    assert s[..3] == BigEndian(|f.payload|, 3);
    BigEndianRoundTrip(|f.payload|, 3);
  }

  /** What `frame` wrote is what there is to read, frame by frame. */
  lemma {:induction false} FramesSplit(fs: seq<Frame>, suffix: seq<byte>)
    requires forall f <- fs :: Fits(f)
    ensures Splits(EncodeAll(fs) + suffix, Kinds(fs), suffix)
    decreases |fs|
  {
    if fs == [] {
      assert EncodeAll(fs) + suffix == suffix;
    } else {
      hide Encode;
      var rest := EncodeAll(fs[1..]) + suffix;
      assert EncodeAll(fs) + suffix == Encode(fs[0]) + rest;
      FrameAtFront(fs[0], rest);
      assert fs[0] in fs && forall f <- fs[1..] :: f in fs;
      FramesSplit(fs[1..], suffix);
      assert Kinds(fs)[1..] == Kinds(fs[1..]);
    }
  }

  /** There is one way to read a stream as so many frames. */
  lemma {:induction false} SplitsOnce(all: seq<byte>, a: seq<(byte, byte)>, restA: seq<byte>, b: seq<(byte, byte)>, restB: seq<byte>)
    requires Splits(all, a, restA) && Splits(all, b, restB) && |a| == |b|
    ensures a == b && restA == restB
    decreases |a|
  {
    if a != [] {
      SplitsOnce(all[FrameSize(all)..], a[1..], restA, b[1..], restB);
      assert a == [a[0]] + a[1..] && b == [b[0]] + b[1..];
    }
  }

  lemma {:induction false} SplitsAppends(all: seq<byte>, kinds: seq<(byte, byte)>, rest: seq<byte>)
    requires Splits(all, kinds, rest) && Complete(rest)
    ensures Splits(all, kinds + [(rest[3], rest[4])], rest[FrameSize(rest)..])
    decreases |kinds|
  {
    var kind: (byte, byte) := (rest[3], rest[4]);
    if kinds == [] {
      assert [] + [kind] == [kind] && [kind][1..] == [];
    } else {
      SplitsAppends(all[FrameSize(all)..], kinds[1..], rest);
      assert (kinds + [kind])[1..] == kinds[1..] + [kind];
    }
  }

  /** `next_frame`: whatever the pieces, the frame at the front of the stream, and the rest kept. */
  method NextFrame(s: Socket, buf: seq<byte>) returns (r: Received<(byte, byte)>, rest: seq<byte>)
    requires s.Valid()
    modifies s
    ensures s.Valid()
    ensures r.Got? <==> Complete(buf + old(s.Coming()))
    ensures r.Got? ==> var all := buf + old(s.Coming());
                       r.value == (all[3], all[4]) && rest + s.Coming() == all[FrameSize(all)..]
  {
    rest := buf;
    ghost var all := buf + s.Coming();
    var head := s.Fill(buf, 9);
    if head.Closed? { return Closed, rest; }
    var have := head.value;
    assert have + s.Coming() == all && have[..3] == all[..3];
    var length := FromBigEndian(have[..3]);
    var whole := s.Fill(have, 9 + length);
    if whole.Closed? { return Closed, rest; }
    have := whole.value;
    assert have + s.Coming() == all;
    rest := have[9 + length..];
    assert rest + s.Coming() == all[FrameSize(all)..];
    return Got((have[3], have[4])), rest;
  }

  /** Any number of `next_frame` calls, over any cut of a stream of frames. */
  method ReadFrames(s: Socket, buf: seq<byte>, ghost fs: seq<Frame>, ghost suffix: seq<byte>, count: nat)
    returns (kinds: seq<(byte, byte)>, rest: seq<byte>)
    requires s.Valid() && (forall f <- fs :: Fits(f)) && count == |fs|
    requires buf + s.Coming() == EncodeAll(fs) + suffix
    modifies s
    ensures s.Valid() && kinds == Kinds(fs) && rest + s.Coming() == suffix
  {
    kinds, rest := [], buf;
    ghost var all := buf + s.Coming();
    FramesSplit(fs, suffix);
    KindsLength(fs);
    hide FrameSize, Complete;
    for i := 0 to count
      invariant s.Valid() && |kinds| == i && Splits(all, kinds, rest + s.Coming())
    {
      MoreFrames(all, Kinds(fs), suffix, kinds, rest + s.Coming());
      ghost var now := rest + s.Coming();
      var r;
      r, rest := NextFrame(s, rest);
      SplitsAppends(all, kinds, now);
      kinds := kinds + [r.value];
    }
    SplitsOnce(all, kinds, rest + s.Coming(), Kinds(fs), suffix);
  }

  lemma KindsLength(fs: seq<Frame>)
    ensures |Kinds(fs)| == |fs|
  {
  }

  /** Short of all the frames there is a whole one to come. */
  lemma {:induction false} MoreFrames(all: seq<byte>, full: seq<(byte, byte)>, suffix: seq<byte>,
                                      some: seq<(byte, byte)>, rest: seq<byte>)
    requires Splits(all, full, suffix) && Splits(all, some, rest) && |some| < |full|
    ensures Complete(rest)
    decreases |some|
  {
    if some != [] {
      MoreFrames(all[FrameSize(all)..], full[1..], suffix, some[1..], rest);
    }
  }

  // ---- the handshake ----

  const SETTINGS: byte := 0x4
  const GOAWAY: byte := 0x7

  predicate IsAck(k: (byte, byte)) { k.0 == SETTINGS && k.1 % 2 == 1 }

  predicate IsSettings(k: (byte, byte)) { k.0 == SETTINGS && k.1 % 2 == 0 }

  function SettingsIn(kinds: seq<(byte, byte)>): nat {
    if kinds == [] then 0
    else SettingsIn(kinds[..|kinds| - 1]) + (if IsSettings(kinds[|kinds| - 1]) then 1 else 0)
  }

  predicate BothSeen(kinds: seq<(byte, byte)>) {
    (exists k <- kinds :: IsSettings(k)) && (exists k <- kinds :: IsAck(k))
  }

  datatype Handshake = Established | Refused | Ended

  lemma SeenAppends(kinds: seq<(byte, byte)>, k: (byte, byte))
    ensures (exists x <- kinds + [k] :: IsSettings(x)) <==> (exists x <- kinds :: IsSettings(x)) || IsSettings(k)
    ensures (exists x <- kinds + [k] :: IsAck(x)) <==> (exists x <- kinds :: IsAck(x)) || IsAck(k)
    ensures SettingsIn(kinds + [k]) == SettingsIn(kinds) + (if IsSettings(k) then 1 else 0)
  {
    assert forall x <- kinds :: x in kinds + [k];
    assert k in kinds + [k];
    assert (kinds + [k])[..|kinds|] == kinds;
  }

  /** What the handshake keeps: the flags say what has come, and no frame before ended it. */
  ghost predicate Shaking(kinds: seq<(byte, byte)>, settings: bool, acked: bool, sent: nat) {
    && (settings <==> exists k <- kinds :: IsSettings(k))
    && (acked <==> exists k <- kinds :: IsAck(k))
    && sent == SettingsIn(kinds)
    && (forall k <- kinds :: k.0 != GOAWAY)
    && (settings && acked ==> kinds != [])
    && (kinds != [] ==> !BothSeen(kinds[..|kinds| - 1]))
  }

  lemma ShakesOn(kinds: seq<(byte, byte)>, settings: bool, acked: bool, sent: nat, k: (byte, byte))
    requires Shaking(kinds, settings, acked, sent) && !(settings && acked)
    ensures (kinds + [k])[..|kinds|] == kinds && !BothSeen(kinds)
    ensures k.0 != GOAWAY ==>
              Shaking(kinds + [k], settings || IsSettings(k), acked || IsAck(k), sent + if IsSettings(k) then 1 else 0)
    ensures k.0 == GOAWAY ==> SettingsIn(kinds + [k]) == sent
  {
    SeenAppends(kinds, k);
  }

  lemma ShakingStarts()
    ensures Shaking([], false, false, 0)
  {
  }

  lemma ShakenSent(kinds: seq<(byte, byte)>, settings: bool, acked: bool, sent: nat)
    requires Shaking(kinds, settings, acked, sent)
    ensures sent == SettingsIn(kinds)
    ensures settings && acked ==> BothSeen(kinds) && kinds != [] && !BothSeen(kinds[..|kinds| - 1])
    ensures forall k <- kinds :: k.0 != GOAWAY
  {
  }

  /** The kinds the handshake looks for: SETTINGS is 4 and GOAWAY 7, and bit 0 of the flags makes the
      first an acknowledgement. */
  lemma KindOf(k: (byte, byte))
    ensures IsAck(k) <==> k.0 == 4 && Bit(k.1, 0) == 1
    ensures IsSettings(k) <==> k.0 == 4 && Bit(k.1, 0) == 0
    ensures k.0 == GOAWAY <==> k.0 == 7
  {
    BitAbove(k.1, 0);
  }

  lemma Shorter(all: seq<byte>)
    requires Complete(all)
    ensures |all[FrameSize(all)..]| < |all|
  {
  }

  /** `open_h2` up to its first request: read until a SETTINGS and an acknowledgement of ours have
      both come, acknowledging every SETTINGS; a GOAWAY or the end of the stream stops it. `left` is
      what no frame read accounts for. */
  method Shake(s: Socket) returns (r: Handshake, sent: nat, rest: seq<byte>, ghost kinds: seq<(byte, byte)>,
                                   ghost left: seq<byte>)
    requires s.Valid()
    modifies s
    ensures s.Valid() && Splits(old(s.Coming()), kinds, left)
    ensures sent == SettingsIn(kinds)
    ensures r.Established? ==> BothSeen(kinds) && kinds != [] && !BothSeen(kinds[..|kinds| - 1])
    ensures r.Established? ==> forall k <- kinds :: k.0 != GOAWAY
    ensures r.Refused? ==> kinds != [] && kinds[|kinds| - 1].0 == GOAWAY && !BothSeen(kinds[..|kinds| - 1])
    ensures r.Ended? ==> !BothSeen(kinds) && !Complete(left)
    ensures !r.Ended? ==> left == rest + s.Coming()
  {
    hide FrameSize, Complete, SettingsIn, IsSettings, IsAck, Shaking, BothSeen;
    var settings, acked := false, false;
    sent, rest, kinds, left := 0, [], [], s.Coming();
    ShakingStarts();
    while !(settings && acked)
      invariant s.Valid() && left == rest + s.Coming() && Splits(old(s.Coming()), kinds, left)
      invariant Shaking(kinds, settings, acked, sent)
      decreases |left|
    {
      var next;
      next, rest := NextFrame(s, rest);
      if next.Closed? {
        ShakesOn(kinds, settings, acked, sent, (0, 0));
        ShakenSent(kinds, settings, acked, sent);
        return Ended, sent, rest, kinds, left;
      }
      SplitsAppends(old(s.Coming()), kinds, left);
      Shorter(left);
      ShakesOn(kinds, settings, acked, sent, next.value);
      KindOf(next.value);
      kinds, left := kinds + [next.value], rest + s.Coming();
      var (kind, flags) := next.value;
      if kind == SETTINGS && flags % 2 == 1 {
        acked := true;
      } else if kind == SETTINGS {
        settings := true;
        sent := sent + 1;
      } else if kind == GOAWAY {
        return Refused, sent, rest, kinds, left;
      }
    }
    ShakenSent(kinds, settings, acked, sent);
    return Established, sent, rest, kinds, left;
  }
}
