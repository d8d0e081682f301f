/** Which streams a cut cannot change the drain of (bench/mem.py:261-275): two cuts of one stream,
    all of it at once and octet by octet, are enough to tell. */
module ChunkedCuts {
  import opened Bytes
  import opened Chunked
  import opened Common
  import opened Sockets

  function Singles(s: seq<byte>): (pieces: seq<seq<byte>>)
    ensures forall p <- pieces :: p != []
  {
    if s == [] then [] else [s[..1]] + Singles(s[1..])
  }

  lemma {:induction false} SinglesFlat(s: seq<byte>)
    ensures Flat(Singles(s)) == s
  {
    if s != [] {
      SinglesFlat(s[1..]);
      assert Flat(Singles(s)) == s[..1] + s[1..];
    }
  }

  /** Octet by octet, a loop stops where there first is enough. */
  lemma {:induction false} SinglesRead(need: Need, body: seq<byte>, s: seq<byte>, m: nat)
    requires m <= |s| && Enough(need, body + s[..m]) && forall i: nat | i < m :: !Enough(need, body + s[..i])
    ensures ReadUntil(need, Held(body, Singles(s))) == Held(body + s[..m], Singles(s[m..]))
    decreases m
  {
    hide Enough;
    assert body + s[..0] == body;
    if m > 0 {
      assert !Enough(need, body + s[..0]);
      var next := body + s[..1];
      forall i: nat | i < m ensures next + s[1..][..i] == body + s[..i + 1] {}
      assert next + s[1..][..m - 1] == body + s[..m];
      SinglesRead(need, next, s[1..], m - 1);
      assert s[1..][m - 1..] == s[m..];
    } else {
      assert s[0..] == s;
    }
  }

  lemma SinglesLine(s: seq<byte>)
    requires HasCrLf(s)
    ensures ReadUntil(UpToCrLf, Held([], Singles(s))) == Held(s[..FirstCrLf(s) + 2], Singles(s[FirstCrLf(s) + 2..]))
    ensures FirstCrLf(s[..FirstCrLf(s) + 2]) == FirstCrLf(s)
  {
    var n := FirstCrLf(s);
    SameLine(s, s[..n + 2], n);
    forall i: nat | i < n + 2 ensures !HasCrLf([] + s[..i]) {
      assert [] + s[..i] == s[..i];
      assert forall j | 0 <= j :: CrLfAt(s[..i], j) ==> CrLfAt(s, j);
    }
    assert [] + s[..n + 2] == s[..n + 2];
    SinglesRead(UpToCrLf, [], s, n + 2);
  }

  /** A chunk's octets one by one: nothing is ever held at the end of a turn. */
  lemma SinglesData(s: seq<byte>, size: int)
    requires !TurnData(s, size).Ends?
    ensures var gone := if size >= -2 then size + 2 else 0;
            gone <= |s| && StepData(Held([], Singles(s)), size) == Goes(gone, Held([], Singles(s[gone..])))
  {
    hide CrLfAt;
    var gone := if size >= -2 then size + 2 else 0;
    SinglesRead(AtLeast(size + 2), [], s, gone);
    assert [] + s[..gone] == s[..gone];
  }

  /** All at once: what is held is what is left. */
  lemma WholeData(s: seq<byte>, size: int)
    requires !TurnData(s, size).Ends?
    ensures var step := StepData(Held(s, []), size);
            step.Goes? && step.held.pieces == [] && (TurnData(s, size).Unsure? ==> step.gone > 0)
  {
    hide CrLfAt;
  }

  lemma WholeTurn(s: seq<byte>)
    requires !Turn(s).Ends?
    ensures var step := StepOf(Held(s, []));
            step.Goes? && step.held.pieces == [] && (Turn(s).Unsure? ==> step.gone > FirstCrLf(s) + 2)
  {
    hide FirstCrLf, LineSize, StepData, TurnData;
    var n := FirstCrLf(s);
    assert ReadUntil(UpToCrLf, Held(s, [])) == Held(s, []);
    WholeData(s[n + 2..], LineSize(s[..n]).value);
  }

  lemma SinglesTurn(s: seq<byte>)
    requires !Turn(s).Ends?
    ensures var gone := if Turn(s).On? then Turn(s).gone else FirstCrLf(s) + 2;
            gone <= |s| && StepOf(Held([], Singles(s))) == Goes(gone, Held([], Singles(s[gone..])))
  {
    hide FirstCrLf, LineSize, StepData, TurnData, ReadUntil, Singles, Turn, StepOf;
    NoEnd(s);
    var n := FirstCrLf(s);
    var rest, line, size := s[n + 2..], s[..n + 2], LineSize(s[..n]).value;
    LineTurns(s, n, size);
    SinglesLine(s);
    assert line[..n] == s[..n] && line[n + 2..] == [];
    Lined(Held([], Singles(s)), Held(line, Singles(rest)), n, size);
    SinglesSized(s, n, size);
  }

  lemma SinglesSized(s: seq<byte>, n: nat, size: int)
    requires n + 2 <= |s| && !TurnData(s[n + 2..], size).Ends?
    ensures var t := Past(n + 2, TurnData(s[n + 2..], size));
            var gone := if t.On? then t.gone else n + 2;
            && gone <= |s|
            && Later(n + 2, StepData(Held([], Singles(s[n + 2..])), size)) == Goes(gone, Held([], Singles(s[gone..])))
  {
    hide StepData, TurnData, Singles;
    var rest, gone := s[n + 2..], if size >= -2 then size + 2 else 0;
    SinglesData(rest, size);
    TurnDataIs(rest, size);
    DropTwice(s, n + 2, gone);
  }

  lemma TurnDataIs(s: seq<byte>, size: int)
    requires !TurnData(s, size).Ends?
    ensures TurnData(s, size) == if size >= -2 then On(size + 2) else if |s| <= -(size + 2) then On(0) else Unsure
  {
    hide CrLfAt;
  }

  /** The two cuts differ at the first turn that lets go what a cut decides. */
  lemma {:induction false} CutsDiffer(s: seq<byte>)
    requires Scan(s).Depends?
    ensures DrainOn(Held(s, [])).turns != DrainOn(Held([], Singles(s))).turns
    decreases |s|
  {
    hide FirstCrLf, Turn, StepOf, Singles, DrainOn;
    WholeTurn(s);
    SinglesTurn(s);
    DrainGoes(Held(s, []));
    DrainGoes(Held([], Singles(s)));
    StepOfIs(Held(s, []));
    assert Held(s, []).All() == s;
    if Turn(s).On? {
      var held := StepOf(Held(s, [])).held;
      assert held.body == held.All() && held == Held(s[Turn(s).gone..], []);
      CutsDiffer(s[Turn(s).gone..]);
    }
  }

  // ---- exactly when the cut does not matter ----

  ghost predicate Cuts(h: Held, s: seq<byte>) {
    h.All() == s && forall p <- h.pieces :: p != []
  }

  /** The same octets go at each turn, and the end and what is left then are the same. */
  predicate Alike(a: Run, b: Run) {
    a.turns == b.turns && a.end == b.end && a.held.All() == b.held.All()
  }

  ghost predicate EveryCutAlike(s: seq<byte>) {
    forall a: Held, b: Held | Cuts(a, s) && Cuts(b, s) :: Alike(DrainOn(a), DrainOn(b))
  }

  /** However a stream is cut the drain does the same, if and only if no size the scan of it comes
      to is below -2 with more octets after it than the slice then counts back over. */
  lemma CutsAlikeExactly(s: seq<byte>)
    ensures EveryCutAlike(s) <==> Scan(s).Over?
  {
    hide DrainOn, Scan;
    if Scan(s).Over? {
      forall a: Held, b: Held | Cuts(a, s) && Cuts(b, s) ensures Alike(DrainOn(a), DrainOn(b)) {
        DrainMeets(a);
        DrainMeets(b);
      }
    } else {
      var whole, singles := Held(s, []), Held([], Singles(s));
      SinglesFlat(s);
      assert Cuts(whole, s) && Cuts(singles, s);
      CutsDiffer(s);
      assert !Alike(DrainOn(whole), DrainOn(singles));
    }
  }

  /** No size line that the scan comes to says less than -2. */
  predicate NoneBelow(s: seq<byte>)
    decreases |s|
  {
    var n := FirstCrLf(s);
    && (n < |s| && LineSize(s[..n]).Some? ==> LineSize(s[..n]).value >= -2)
    && (Turn(s).On? ==> NoneBelow(s[Turn(s).gone..]))
  }

  lemma {:induction false} NoneBelowSuffices(s: seq<byte>)
    requires NoneBelow(s)
    ensures EveryCutAlike(s) && Scan(s).Over?
    decreases |s|
  {
    hide FirstCrLf, LineSize, EveryCutAlike;
    if Turn(s).On? { NoneBelowSuffices(s[Turn(s).gone..]); }
    CutsAlikeExactly(s);
  }

  lemma NoSemicolon(text: seq<byte>)
    requires |text| <= 2 && SEMICOLON !in text
    ensures BeforeSemicolon(text) == text
  {
    assert text != [] ==> text == [text[0]] + text[1..] && text[0] in text;
    assert |text| == 2 ==> text[1..] == [text[1]] && text[1..][1..] == [];
  }

  lemma OneDigit(b: byte)
    requires HexDigit(b)
    ensures Magnitude([b]) == Some(DigitValue(b))
  {
    var s := [b];
    assert s[..0] == [] && HexValue(s[..0]) == 0;
  }

  lemma NegativeDigit(text: seq<byte>)
    requires |text| == 2 && text[0] == MINUS && HexDigit(text[1])
    ensures LineSize(text) == Some(-(DigitValue(text[1]) as int))
  {
    hide BeforeSemicolon, Magnitude;
    NoSemicolon(text);
    assert text[1..] == [text[1]];
    OneDigit(text[1]);
  }

  lemma NoDigit(text: seq<byte>)
    requires |text| == 1 && text[0] == ZERO
    ensures LineSize(text) == Some(0)
  {
    hide BeforeSemicolon, Magnitude;
    NoSemicolon(text);
    OneDigit(text[0]);
    assert text == [text[0]];
  }

  /** A line of two octets and then `rest`, when the size is below -2: what is held counts back. */
  lemma NegativeStep(h: Held, size: int)
    requires FirstCrLf(h.body) == 2 < |h.body| && LineSize(h.body[..2]) == Some(size) && size < -2
    ensures var held := From(h.body[4..], size + 2);
            StepOf(h) == Goes(|h.body| - |held|, Held(held, h.pieces))
  {
    hide FirstCrLf, LineSize, From;
    Lined(h, h, 2, size);
  }

  lemma LastStep(h: Held)
    requires CrLfAt(h.body, 1) && !CrLfAt(h.body, 0) && CrLfAt(h.body, 3) && LineSize(h.body[..1]) == Some(0)
    ensures StepOf(h) == Stopped(Done, Held(h.body[3..], h.pieces))
  {
    hide LineSize;
    CrLfFound(h.body, 1);
    Lined(h, h, 1, 0);
  }

  lemma OnePiece(piece: seq<byte>)
    requires HasCrLf(piece) && !HasCrLf([])
    ensures StepOf(Held([], [piece])) == StepOf(Held(piece, []))
  {
    hide FirstCrLf, LineSize, StepData;
    assert [] + piece == piece && |[piece][1..]| == 0;
    assert ReadUntil(UpToCrLf, Held(piece, [])) == Held(piece, []);
  }

  lemma NoLine(h: Held)
    requires |h.body| < 2 && h.pieces == []
    ensures StepOf(h) == Stopped(ClosedEarly, h)
  {
  }

  /** The size -3 lets go all but the last octet of what has come by then. In one piece that is all
      of this stream, and the drain is left waiting; with nothing but the line it goes on to its end. */
  lemma NegativeSizeDepends(s: seq<byte>)
    requires s == [MINUS, 51, CR, LF, ZERO, CR, LF, CR, LF]
    ensures var whole, cut := Held(s, []), Held(s[..4], [s[4..]]);
            && Cuts(whole, s) && Cuts(cut, s)
            && DrainOn(whole) == Run([8], ClosedEarly, Held([LF], []))
            && DrainOn(cut) == Run([4], Done, Held(CRLF, []))
  {
    hide StepOf, DrainOn, ReadUntil, LineSize, FirstCrLf;
    var whole, cut, line, rest := Held(s, []), Held(s[..4], [s[4..]]), s[..4], s[4..];
    CrLfFound(s, 2);
    CrLfFound(line, 2);
    CrLfFound(rest, 1);
    assert s[..2] == [MINUS, 51] == line[..2] && rest[..1] == [ZERO] && line[4..] == [];
    assert cut.pieces[1..] == [] && Flat(cut.pieces) == rest && s == line + rest;
    NegativeDigit(s[..2]);
    NoDigit(rest[..1]);
    NegativeStep(whole, -3);
    NegativeStep(cut, -3);
    assert From(rest, -1) == [LF] && From([], -1) == [];
    OnePiece(rest);
    LastStep(Held(rest, []));
    assert rest[3..] == CRLF;
    DrainGoes(whole);
    DrainGoes(cut);
    NoLine(Held([LF], []));
    DrainStops(Held([LF], []));
    DrainStops(Held([], [rest]));
  }
}
