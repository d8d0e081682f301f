/** What a size line says (bench/mem.py:267), against printers of its own: which spellings `int` takes
    and what number each is, and a body coded by printing the length of each chunk in hex. */
module ChunkedSizes {
  import opened Bytes
  import opened Chunked
  import opened Common

  // ---- the lengths as they are usually printed ----

  /** The octet of one hex digit. */
  function Nibble(v: nat, upper: bool): byte
    requires v < 16
  {
    (if upper then "0123456789ABCDEF"[v] else "0123456789abcdef"[v]) as int
  }

  /** A number in hex, in lower or upper case. */
  function Hex(n: nat, upper: bool): (s: seq<byte>)
    ensures s != []
  {
    if n < 16 then [Nibble(n, upper)] else Hex(n / 16, upper) + [Nibble(n % 16, upper)]
  }

  lemma NibbleIs(v: nat, upper: bool)
    requires v < 16
    ensures HexDigit(Nibble(v, upper)) && DigitValue(Nibble(v, upper)) == v
  {
  }

  lemma NotUnderscore(b: byte)
    requires HexDigit(b)
    ensures b != UNDERSCORE
  {
  }

  lemma {:induction false} HexIs(n: nat, upper: bool)
    ensures forall b <- Hex(n, upper) :: HexDigit(b)
    ensures HexValue(Hex(n, upper)) == n
  {
    NibbleIs(n % 16, upper);
    hide Nibble, HexDigit, DigitValue;
    assert Nibble(n % 16, upper) != UNDERSCORE by { NotUnderscore(Nibble(n % 16, upper)); }
    var s := Hex(n, upper);
    if n < 16 {
      assert s[..0] == [];
    } else {
      HexIs(n / 16, upper);
      assert s[..|s| - 1] == Hex(n / 16, upper);
    }
  }

  /** The size line that prints a number in hex says that number. */
  lemma HexReads(n: nat, upper: bool)
    ensures LineSize(Hex(n, upper)) == Some(n)
  {
    HexIs(n, upper);
    var l := Line(Hex(n, upper), [], []);
    LineSays(l, n);
    assert l.digits + l.pad + l.ext == Hex(n, upper);
  }

  /** A body in chunks, each under its length in hex, and the last chunk and the end after it. */
  function Print(datas: seq<seq<byte>>, upper: bool): seq<byte> {
    if datas == [] then [48, 13, 10, 13, 10]
    else Hex(|datas[0]|, upper) + [13, 10] + datas[0] + [13, 10] + Print(datas[1..], upper)
  }

  function Chunks(datas: seq<seq<byte>>, upper: bool): (cs: seq<Chunk>)
    ensures |cs| == |datas| && forall i | 0 <= i < |cs| :: cs[i] == Chunk(Line(Hex(|datas[i]|, upper), [], []), datas[i])
  {
    seq(|datas|, i requires 0 <= i < |datas| => Chunk(Line(Hex(|datas[i]|, upper), [], []), datas[i]))
  }

  const LAST: Line := Line([48], [], [])

  /** Chunks whose size lines print their lengths are what section 7.1 allows. */
  lemma PrintedIsLegal(datas: seq<seq<byte>>, upper: bool)
    requires forall d <- datas :: d != []
    ensures Legal(Chunks(datas, upper), LAST)
  {
    HexIs(0, upper);
    hide HexValue, Nibble;
    assert Hex(0, upper) == [48];
    forall c | c in Chunks(datas, upper) ensures c.data != [] && Says(c.line, |c.data|) {
      var i :| 0 <= i < |datas| && c == Chunks(datas, upper)[i];
      assert datas[i] in datas;
      HexIs(|c.data|, upper);
    }
  }

  lemma {:induction false} PrintIsCoded(datas: seq<seq<byte>>, upper: bool)
    ensures Print(datas, upper) == EncodeChunks(Chunks(datas, upper)) + EncodeLine(LAST) + CRLF
    decreases |datas|
  {
    hide Hex;
    var cs := Chunks(datas, upper);
    if datas == [] {
      assert EncodeChunks(cs) == [] && EncodeLine(LAST) == [48, 13, 10];
    } else {
      PrintIsCoded(datas[1..], upper);
      assert cs[1..] == Chunks(datas[1..], upper);
      var head, d := Hex(|datas[0]|, upper), datas[0];
      assert EncodeLine(cs[0].line) == head + [13, 10];
      Associate(head + [13, 10] + d + [13, 10], EncodeChunks(cs[1..]), EncodeLine(LAST), CRLF);
    }
  }

  lemma Associate(a: seq<byte>, b: seq<byte>, c: seq<byte>, d: seq<byte>)
    ensures a + (b + c + d) == (a + b) + c + d
  {
  }

  /** A printed body is walked over to its final CRLF: turn by turn each chunk with its line and the
      CRLF after it, sixteen octets under `10` and not ten. */
  lemma PrintedScans(datas: seq<seq<byte>>, upper: bool, after: seq<byte>)
    requires forall d <- datas :: d != []
    ensures Scan(Print(datas, upper) + after)
         == Over(seq(|datas|, i requires 0 <= i < |datas| => |Hex(|datas[i]|, upper)| + |datas[i]| + 4), Done, CRLF + after)
  {
    hide Scan, EncodeChunks, Says;
    var cs := Chunks(datas, upper);
    PrintedIsLegal(datas, upper);
    PrintIsCoded(datas, upper);
    CodedScans(cs, LAST, CRLF + after);
    assert Print(datas, upper) + after == EncodeChunks(cs) + EncodeLine(LAST) + (CRLF + after);
    PrintedLengths(datas, upper);
  }

  lemma {:induction false} PrintedLengths(datas: seq<seq<byte>>, upper: bool)
    ensures Lengths(Chunks(datas, upper))
         == seq(|datas|, i requires 0 <= i < |datas| => |Hex(|datas[i]|, upper)| + |datas[i]| + 4)
    decreases |datas|
  {
    hide Hex;
    if datas != [] {
      PrintedLengths(datas[1..], upper);
      assert Chunks(datas, upper)[1..] == Chunks(datas[1..], upper);
    }
  }

  // ---- every spelling ----

  /** A hex digit, with an underscore before it or not. */
  datatype Digit = Digit(value: nat, upper: bool, joined: bool)

  datatype Sign = Unsigned | Plus | Minus

  /** White space, a sign, `0x` and an underscore, digits, white space, and the extensions. */
  datatype Spelling = Spelling(before: seq<byte>, sign: Sign, prefix: seq<byte>, digits: seq<Digit>,
                               after: seq<byte>, ext: seq<byte>)

  predicate Blank(s: seq<byte>) {
    forall b <- s :: b in [9, 10, 11, 12, 13, 32]
  }

  predicate Proper(ds: seq<Digit>) {
    ds != [] && !ds[0].joined && forall d <- ds :: d.value < 16
  }

  /** Nothing, or `0x` in either case, with one underscore or none. */
  predicate Prefix(s: seq<byte>) {
    s == [] || (2 <= |s| <= 3 && s[0] == 48 && (s[1] == 120 || s[1] == 88) && (|s| == 3 ==> s[2] == 95))
  }

  predicate Allowed(sp: Spelling) {
    && Blank(sp.before) && Blank(sp.after) && Proper(sp.digits)
    && Prefix(sp.prefix)
    && (sp.ext == [] || sp.ext[0] == 59)
  }

  function DigitOctets(ds: seq<Digit>): seq<byte>
    requires forall d <- ds :: d.value < 16
  {
    if ds == [] then []
    else
      var d := ds[|ds| - 1];
      DigitOctets(ds[..|ds| - 1]) + (if d.joined then [95] else []) + [Nibble(d.value, d.upper)]
  }

  function DigitsMean(ds: seq<Digit>): nat {
    if ds == [] then 0 else 16 * DigitsMean(ds[..|ds| - 1]) + ds[|ds| - 1].value
  }

  function SignOctets(sign: Sign): seq<byte> {
    match sign case Unsigned => [] case Plus => [43] case Minus => [45]
  }

  function Octets(sp: Spelling): seq<byte>
    requires Allowed(sp)
  {
    sp.before + (SignOctets(sp.sign) + sp.prefix + DigitOctets(sp.digits)) + sp.after + sp.ext
  }

  function Means(sp: Spelling): int {
    Signed(sp.sign, DigitsMean(sp.digits))
  }

  function Signed(sign: Sign, n: int): int {
    if sign.Minus? then -n else n
  }

  /** One digit more, joined or not. */
  lemma DigitAfter(rest: seq<byte>, joined: bool, b: byte)
    requires (if rest == [] then !joined else Digits(rest)) && HexDigit(b)
    ensures var s := rest + (if joined then [95] else []) + [b];
            Digits(s) && HexValue(s) == 16 * HexValue(rest) + DigitValue(b)
  {
    hide DigitValue;
    var join: seq<byte> := if joined then [95] else [];
    var s := rest + join + [b];
    assert s[..|s| - 1] == rest + join;
    if joined {
      assert (rest + join)[..|rest|] == rest;
    } else {
      assert rest + join == rest;
    }
  }

  /** Octets that are hex digits and joined underscores. */
  lemma {:induction false} DigitsSpell(ds: seq<Digit>)
    requires Proper(ds)
    ensures Digits(DigitOctets(ds)) && HexValue(DigitOctets(ds)) == DigitsMean(ds)
    decreases |ds|
  {
    var d, most := ds[|ds| - 1], ds[..|ds| - 1];
    NibbleIs(d.value, d.upper);
    hide Nibble, Digits, HexValue, HexDigit, DigitValue;
    if most != [] { DigitsSpell(most); } else { EmptyIsNothing(); }
    DigitAfter(DigitOctets(most), d.joined, Nibble(d.value, d.upper));
  }

  lemma EmptyIsNothing()
    ensures HexValue([]) == 0
  {
  }

  lemma {:induction false} SpacesGoLeft(blank: seq<byte>, text: seq<byte>)
    requires Blank(blank) && (text == [] || !Space(text[0]))
    ensures StripLeft(blank + text) == text
  {
    if blank == [] {
      assert blank + text == text;
    } else {
      assert blank[0] in blank && (blank + text)[1..] == blank[1..] + text;
      SpacesGoLeft(blank[1..], text);
    }
  }

  lemma {:induction false} SpacesGoRight(text: seq<byte>, blank: seq<byte>)
    requires Blank(blank) && (text == [] || !Space(text[|text| - 1]))
    ensures StripRight(text + blank) == text
  {
    if blank == [] {
      assert text + blank == text;
    } else {
      var n := |blank| - 1;
      assert blank[n] in blank && (text + blank)[..|text| + n] == text + blank[..n];
      SpacesGoRight(text, blank[..n]);
    }
  }

  lemma DigitEnds(digits: seq<byte>)
    requires Digits(digits)
    ensures forall i | 0 <= i < |digits| :: HexDigit(digits[i]) || digits[i] == UNDERSCORE
    ensures HexDigit(digits[0]) && HexDigit(digits[|digits| - 1])
  {
    hide HexDigit;
    assert forall i | 0 <= i < |digits| :: digits[i] in digits;
  }

  lemma PrefixGone(prefix: seq<byte>, digits: seq<byte>)
    requires Digits(digits) && Prefix(prefix)
    ensures Unprefixed(prefix + digits) == digits
  {
    DigitEnds(digits);
    hide Digits;
    var s := prefix + digits;
    assert s[|prefix|..] == digits;
  }

  lemma SignRead(sign: Sign, s: seq<byte>)
    requires s != [] && s[0] != 43 && s[0] != 45 && Magnitude(s).Some?
    ensures IntOf(SignOctets(sign) + s) == Some(Signed(sign, Magnitude(s).value))
  {
    hide Magnitude;
    var text := SignOctets(sign) + s;
    if sign.Unsigned? { assert text == s; } else { assert text[1..] == s; }
  }

  /** The number proper, sign and prefix and digits, is read as what it means. */
  lemma TextReads(sign: Sign, prefix: seq<byte>, digits: seq<byte>)
    requires Digits(digits) && Prefix(prefix)
    ensures IntOf(SignOctets(sign) + prefix + digits) == Some(Signed(sign, HexValue(digits)))
  {
    hide HexValue, Digits, HexDigit, IntOf, Unprefixed, SignOctets, Signed, Prefix;
    PrefixGone(prefix, digits);
    NoSignFirst(prefix, digits);
    SignRead(sign, prefix + digits);
    assert SignOctets(sign) + prefix + digits == SignOctets(sign) + (prefix + digits);
  }

  lemma NoSignFirst(prefix: seq<byte>, digits: seq<byte>)
    requires Digits(digits) && Prefix(prefix)
    ensures var s := prefix + digits; s != [] && s[0] != 43 && s[0] != 45
  {
    DigitEnds(digits);
    hide Digits;
  }

  /** Every spelling is taken, for what it means. */
  lemma SpellingReads(sp: Spelling)
    requires Allowed(sp)
    ensures LineSize(Octets(sp)) == Some(Means(sp))
  {
    hide HexValue, Digits, DigitOctets, IntOf, StripLeft, StripRight, BeforeSemicolon;
    var text := SignOctets(sp.sign) + sp.prefix + DigitOctets(sp.digits);
    DigitsSpell(sp.digits);
    TextReads(sp.sign, sp.prefix, DigitOctets(sp.digits));
    TextEnds(sp.sign, sp.prefix, DigitOctets(sp.digits));
    forall b <- sp.before + text + sp.after ensures b != SEMICOLON {}
    SemicolonFound(sp.before + text + sp.after, sp.ext);
    assert sp.before + text + sp.after == sp.before + (text + sp.after);
    SpacesGoLeft(sp.before, text + sp.after);
    SpacesGoRight(text, sp.after);
  }

  lemma TextEnds(sign: Sign, prefix: seq<byte>, digits: seq<byte>)
    requires Digits(digits) && Prefix(prefix)
    ensures var text := SignOctets(sign) + prefix + digits;
            text != [] && !Space(text[0]) && !Space(text[|text| - 1]) && SEMICOLON !in text
  {
    assert forall i | 0 <= i < |digits| :: digits[i] in digits;
  }

  // ---- nothing else is a size ----

  lemma NibbleOf(b: byte) returns (v: nat, upper: bool)
    requires HexDigit(b)
    ensures v < 16 && Nibble(v, upper) == b
  {
    v, upper := DigitValue(b), b < 97;
    assert forall i | 0 <= i < 10 :: "0123456789"[i] as int == 48 + i;
  }

  /** The digits before the last, without the underscore there may be between. */
  function Front(s: seq<byte>): seq<byte>
    requires |s| > 1
  {
    var n := |s| - 1;
    if s[n - 1] == UNDERSCORE then s[..n - 1] else s[..n]
  }

  lemma FrontIsDigits(s: seq<byte>)
    requires Digits(s) && |s| > 1
    ensures Digits(Front(s)) && HexDigit(s[|s| - 1])
    ensures s == Front(s) + (if s[|s| - 2] == UNDERSCORE then [95] else []) + [s[|s| - 1]]
  {
    hide HexDigit;
    assert s[|s| - 1] in s && forall b <- Front(s) :: b in s;
  }

  lemma OneMore(most: seq<Digit>, d: Digit)
    requires d.value < 16 && (if most == [] then !d.joined else Proper(most))
    ensures Proper(most + [d])
    ensures DigitOctets(most + [d]) == DigitOctets(most) + (if d.joined then [95] else []) + [Nibble(d.value, d.upper)]
  {
    assert (most + [d])[..|most|] == most;
  }

  lemma {:induction false} DigitsSpelled(s: seq<byte>) returns (ds: seq<Digit>)
    requires Digits(s)
    ensures Proper(ds) && DigitOctets(ds) == s
    decreases |s|
  {
    hide Nibble, HexDigit, DigitOctets, Front;
    var n := |s| - 1;
    assert s[n] in s;
    var v, upper := NibbleOf(s[n]);
    if n == 0 {
      ds := [] + [Digit(v, upper, false)];
      OneMore([], Digit(v, upper, false));
      NoDigits();
      assert s == [] + [] + [s[0]];
    } else {
      FrontIsDigits(s);
      hide Digits;
      var most := DigitsSpelled(Front(s));
      var d := Digit(v, upper, s[n - 1] == UNDERSCORE);
      OneMore(most, d);
      ds := most + [d];
    }
  }

  lemma NoDigits()
    ensures DigitOctets([]) == []
  {
  }

  lemma {:induction false} LeftIsBlank(s: seq<byte>) returns (blank: seq<byte>)
    ensures Blank(blank) && blank + StripLeft(s) == s
  {
    blank := [];
    if s != [] && Space(s[0]) {
      var more := LeftIsBlank(s[1..]);
      blank := [s[0]] + more;
      assert blank + StripLeft(s) == [s[0]] + (more + StripLeft(s[1..]));
    } else {
      assert [] + s == s;
    }
  }

  lemma {:induction false} RightIsBlank(s: seq<byte>) returns (blank: seq<byte>)
    ensures Blank(blank) && StripRight(s) + blank == s
  {
    blank := [];
    if s != [] && Space(s[|s| - 1]) {
      var more := RightIsBlank(s[..|s| - 1]);
      blank := more + [s[|s| - 1]];
      assert StripRight(s) + blank == (StripRight(s[..|s| - 1]) + more) + [s[|s| - 1]];
    } else {
      assert s + [] == s;
    }
  }

  lemma {:induction false} ExtensionAfter(line: seq<byte>) returns (ext: seq<byte>)
    ensures BeforeSemicolon(line) + ext == line && (ext == [] || ext[0] == 59)
  {
    if line == [] || line[0] == SEMICOLON {
      ext := line;
      assert [] + line == line;
    } else {
      ext := ExtensionAfter(line[1..]);
      assert BeforeSemicolon(line) + ext == [line[0]] + (BeforeSemicolon(line[1..]) + ext);
    }
  }

  lemma PrefixSpelled(s: seq<byte>) returns (prefix: seq<byte>)
    ensures Prefix(prefix) && prefix + Unprefixed(s) == s
  {
    prefix := s[..|s| - |Unprefixed(s)|];
  }

  lemma SignSpelled(text: seq<byte>) returns (sign: Sign, s: seq<byte>)
    requires IntOf(text).Some?
    ensures SignOctets(sign) + s == text && Magnitude(s).Some?
  {
    hide Magnitude;
    sign := if text == [] then Unsigned else if text[0] == 43 then Plus else if text[0] == 45 then Minus else Unsigned;
    s := if sign.Unsigned? then text else text[1..];
  }

  lemma TextSpelled(text: seq<byte>) returns (sign: Sign, prefix: seq<byte>, digits: seq<byte>)
    requires IntOf(text).Some?
    ensures Digits(digits) && Prefix(prefix) && SignOctets(sign) + prefix + digits == text
  {
    hide Digits, HexValue, IntOf, Unprefixed, Prefix, SignOctets;
    var s;
    sign, s := SignSpelled(text);
    prefix := PrefixSpelled(s);
    digits := Unprefixed(s);
    assert SignOctets(sign) + (prefix + digits) == SignOctets(sign) + prefix + digits;
  }

  /** A line that reads as a size is one of those spellings. */
  lemma OnlySpellingsRead(line: seq<byte>)
    ensures LineSize(line).Some? <==> exists sp: Spelling :: Allowed(sp) && Octets(sp) == line
  {
    hide Digits, DigitOctets, IntOf, StripLeft, StripRight, BeforeSemicolon, Blank;
    if LineSize(line).Some? {
      var ext := ExtensionAfter(line);
      var stripped := StripLeft(BeforeSemicolon(line));
      var before := LeftIsBlank(BeforeSemicolon(line));
      var after := RightIsBlank(stripped);
      var sign, prefix, digits := TextSpelled(StripRight(stripped));
      var ds := DigitsSpelled(digits);
      var sp := Spelling(before, sign, prefix, ds, after, ext);
      var text := StripRight(stripped);
      assert before + text + after == before + (text + after);
      assert Octets(sp) == line;
    }
    forall sp: Spelling | Allowed(sp) && Octets(sp) == line ensures LineSize(line).Some? {
      SpellingReads(sp);
    }
  }

  // ---- a turn by what its line says ----

  /** Any size line, however it is spelled, and what comes after it: at 0 the drain ends where a CRLF
      is; from -2 on the data and two octets go, once they are there; below that nothing goes when no
      more has come than the slice keeps, and otherwise it takes the cut to say. */
  lemma SpelledTurn(sp: Spelling, rest: seq<byte>)
    requires Allowed(sp) && 13 !in Octets(sp)
    ensures var gone, v := |Octets(sp)| + 2, Means(sp);
            Turn(Octets(sp) + [13, 10] + rest)
            == if v == 0 then Ends(if |rest| >= 2 && rest[0] == 13 && rest[1] == 10 then Done else ClosedEarly, rest)
               else if v >= -2 then (if |rest| < v + 2 then Ends(ClosedEarly, rest) else On(gone + v + 2))
               else if |rest| + v + 2 <= 0 then On(gone)
               else Unsure
  {
    hide LineSize, Octets, Allowed, FirstCrLf, Means;
    var line := Octets(sp);
    var s, n := line + [13, 10] + rest, |line|;
    SpellingReads(sp);
    assert s[..n] == line && s[n + 2..] == rest;
    forall i | 0 <= i < n ensures !CrLfAt(s, i) { assert s[i] == line[i] && line[i] in line; }
    CrLfFound(s, n);
    LineTurns(s, n, Means(sp));
  }

  /** And a line that is no spelling of a size ends the drain. */
  lemma UnspelledTurn(line: seq<byte>, rest: seq<byte>)
    requires 13 !in line && !exists sp: Spelling :: Allowed(sp) && Octets(sp) == line
    ensures Turn(line + [13, 10] + rest) == Ends(NotASize, rest)
  {
    OnlySpellingsRead(line);
    hide LineSize, Octets, Allowed, FirstCrLf;
    var s, n := line + [13, 10] + rest, |line|;
    assert s[..n] == line && s[n + 2..] == rest;
    forall i | 0 <= i < n ensures !CrLfAt(s, i) { assert s[i] == line[i] && line[i] in line; }
    CrLfFound(s, n);
  }
}
