/** UTF-8 well-formedness as RFC 3629 section 4 defines it, and the chunked check of
    proto/wire.zig:229-277 that only hands non-ASCII input to it. */
module Utf8 {
  import opened Bytes

  predicate Continuation(s: seq<byte>, i: nat, lo: byte, hi: byte) {
    i < |s| && lo <= s[i] <= hi
  }

  /** How many octets the character at the front takes; 0 when none is well formed. */
  function CharLen(s: seq<byte>): (n: nat)
    requires s != []
    ensures n <= |s| && n <= 4
  {
    var b := s[0];
    if b < 0x80 then 1
    else if 0xC2 <= b <= 0xDF && Continuation(s, 1, 0x80, 0xBF) then 2
    else if 0xE0 <= b <= 0xEF
            && Continuation(s, 1, if b == 0xE0 then 0xA0 else 0x80, if b == 0xED then 0x9F else 0xBF)
            && Continuation(s, 2, 0x80, 0xBF) then 3
    else if 0xF0 <= b <= 0xF4
            && Continuation(s, 1, if b == 0xF0 then 0x90 else 0x80, if b == 0xF4 then 0x8F else 0xBF)
            && Continuation(s, 2, 0x80, 0xBF) && Continuation(s, 3, 0x80, 0xBF) then 4
    else 0
  }

  predicate Valid(s: seq<byte>) {
    s == [] || (CharLen(s) > 0 && Valid(s[CharLen(s)..]))
  }

  predicate Ascii(s: seq<byte>, from: nat, to: nat)
    requires to <= |s|
  {
    forall i :: from <= i < to ==> s[i] < 0x80
  }

  /** An ASCII prefix never decides anything. */
  lemma {:induction false} AsciiPrefix(s: seq<byte>, n: nat)
    requires n <= |s| && Ascii(s, 0, n)
    ensures Valid(s) == Valid(s[n..])
  {
    if n > 0 {
      AsciiPrefix(s[1..], n - 1);
      assert s[1..][n - 1..] == s[n..];
    } else {
      assert s[0..] == s;
    }
  }

  // ---- the characters themselves ----

  /** A Unicode scalar value: any code point but a surrogate. */
  predicate Scalar(c: nat) {
    c < 0xD800 || 0xE000 <= c < 0x110000
  }

  /** Section 3 of RFC 3629: six bits an octet from the right, and the rest in the first. */
  function EncodeChar(c: nat): (s: seq<byte>)
    requires Scalar(c)
    ensures 1 <= |s| <= 4
  {
    if c < 0x80 then [c]
    else if c < 0x800 then [0xC0 + c / 64, 0x80 + c % 64]
    else if c < 0x10000 then [0xE0 + c / 64 / 64, 0x80 + c / 64 % 64, 0x80 + c % 64]
    else [0xF0 + c / 64 / 64 / 64, 0x80 + c / 64 / 64 % 64, 0x80 + c / 64 % 64, 0x80 + c % 64]
  }

  function EncodeText(cs: seq<nat>): seq<byte>
    requires forall c <- cs :: Scalar(c)
  {
    if cs == [] then [] else EncodeChar(cs[0]) + EncodeText(cs[1..])
  }

  lemma CharEncoded(c: nat, rest: seq<byte>)
    requires Scalar(c)
    ensures CharLen(EncodeChar(c) + rest) == |EncodeChar(c)|
  {
  }

  /** The well-formed octets at the front are those of one character. */
  lemma CharDecoded(s: seq<byte>) returns (c: nat)
    requires s != [] && CharLen(s) > 0
    ensures Scalar(c) && EncodeChar(c) == s[..CharLen(s)]
  {
    var n := CharLen(s);
    if n == 1 {
      c := s[0];
    } else if n == 2 {
      c := Two(s[0] - 0xC0, s[1] - 0x80);
    } else if n == 3 {
      c := Three(s[0] - 0xE0, s[1] - 0x80, s[2] - 0x80);
    } else {
      c := Four(s[0] - 0xF0, s[1] - 0x80, s[2] - 0x80, s[3] - 0x80);
    }
  }

  lemma Two(a: nat, b: nat) returns (c: nat)
    requires b < 64
    ensures c == 64 * a + b && c / 64 == a && c % 64 == b
  {
    c := 64 * a + b;
  }

  lemma Three(a: nat, b: nat, d: nat) returns (c: nat)
    requires b < 64 && d < 64
    ensures c == 4096 * a + 64 * b + d && c / 64 / 64 == a && c / 64 % 64 == b && c % 64 == d
  {
    var high := Two(a, b);
    c := Two(high, d);
  }

  lemma Four(a: nat, b: nat, d: nat, e: nat) returns (c: nat)
    requires b < 64 && d < 64 && e < 64
    ensures c == 262144 * a + 4096 * b + 64 * d + e
    ensures c / 64 / 64 / 64 == a && c / 64 / 64 % 64 == b && c / 64 % 64 == d && c % 64 == e
  {
    var high := Three(a, b, d);
    c := Two(high, e);
  }

  lemma {:induction false} TextIsValid(cs: seq<nat>)
    requires forall c <- cs :: Scalar(c)
    ensures Valid(EncodeText(cs))
    decreases |cs|
  {
    if cs != [] {
      hide CharLen, EncodeChar;
      var rest := EncodeText(cs[1..]);
      assert cs[0] in cs && forall c <- cs[1..] :: c in cs;
      CharEncoded(cs[0], rest);
      TextIsValid(cs[1..]);
      assert EncodeText(cs)[|EncodeChar(cs[0])|..] == rest;
    }
  }

  lemma {:induction false} ValidDecodes(s: seq<byte>) returns (cs: seq<nat>)
    requires Valid(s)
    ensures (forall c <- cs :: Scalar(c)) && EncodeText(cs) == s
    decreases |s|
  {
    hide CharLen, EncodeChar;
    if s == [] {
      cs := [];
    } else {
      var c := CharDecoded(s);
      var more := ValidDecodes(s[CharLen(s)..]);
      cs := [c] + more;
      assert cs[1..] == more;
    }
  }

  /** Octets are well formed exactly when they encode some characters. */
  lemma ValidIsText(s: seq<byte>)
    ensures Valid(s) <==> exists cs: seq<nat> :: (forall c <- cs :: Scalar(c)) && EncodeText(cs) == s
  {
    hide Valid, Scalar, EncodeText;
    if Valid(s) { var cs := ValidDecodes(s); }
    forall cs: seq<nat> | (forall c <- cs :: Scalar(c)) && EncodeText(cs) == s ensures Valid(s) {
      TextIsValid(cs);
    }
  }

  /** `std.unicode.utf8ValidateSlice` is taken to be `Valid`. */
  method ValidateSlice(s: seq<byte>) returns (ok: bool)
    ensures ok <==> Valid(s)
  {
    var i := 0;
    assert s[0..] == s;
    while i < |s|
      invariant 0 <= i <= |s| && Valid(s) == Valid(s[i..])
    {
      var n := CharLen(s[i..]);
      if n == 0 { return false; }
      assert s[i..][n..] == s[i + n..];
      i := i + n;
    }
    return true;
  }

  /** A chunk has no octet of 0x80 or more: what one masked load of it answers. */
  method AllAscii(s: seq<byte>, from: nat, count: nat) returns (ascii: bool)
    requires from + count <= |s|
    ensures ascii <==> Ascii(s, from, from + count)
  {
    ascii := true;
    for i := 0 to count
      invariant ascii <==> Ascii(s, from, from + i)
    {
      ascii := ascii && s[from + i] < 0x80;
    }
  }

  /** The fast check: overlapping loads up to 16 octets, then 64 and 16 at a time with one
      overlapping load at the end, and the slow check from the chunk that was not ASCII. */
  method ValidUtf8(b: seq<byte>) returns (ok: bool)
    ensures ok <==> Valid(b)
  {
    hide Valid;
    var n := |b|;
    if n <= 16 {
      ok := ValidShort(b);
      return;
    }
    var i := 0;
    while i + 64 <= n
      invariant 0 <= i <= n && Ascii(b, 0, i)
    {
      var ascii := AllAscii(b, i, 64);
      if !ascii {
        AsciiPrefix(b, i);
        ok := ValidateSlice(b[i..]);
        return;
      }
      i := i + 64;
    }
    while i + 16 <= n
      invariant 0 <= i <= n && Ascii(b, 0, i)
    {
      var ascii := AllAscii(b, i, 16);
      if !ascii {
        AsciiPrefix(b, i);
        ok := ValidateSlice(b[i..]);
        return;
      }
      i := i + 16;
    }
    AsciiPrefix(b, i);
    if i < n {
      var ascii := AllAscii(b, n - 16, 16);
      if !ascii {
        ok := ValidateSlice(b[i..]);
        return;
      }
      AsciiPrefix(b[i..], n - i);
    }
    EmptyIsValid();
    assert b[i..][n - i..] == [] && b[n..] == [];
    ok := true;
  }

  lemma EmptyIsValid()
    ensures Valid([])
  {
  }

  /** Up to 16 octets: two loads of 8 or of 4 that may overlap, or one pass. */
  method ValidShort(b: seq<byte>) returns (ok: bool)
    requires |b| <= 16
    ensures ok <==> Valid(b)
  {
    hide Valid;
    var n := |b|;
    var width := if n >= 8 then 8 else if n >= 4 then 4 else n;
    var lo := AllAscii(b, 0, width);
    var hi := AllAscii(b, n - width, width);
    if lo && hi {
      AsciiPrefix(b, n);
      EmptyIsValid();
      assert b[n..] == [];
      return true;
    }
    ok := ValidateSlice(b);
  }
}
