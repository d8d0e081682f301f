/** The chunked coding of section 7.1 of RFC 9112, drained off a socket that cuts it anywhere
    (bench/mem.py:246-275). */
module Chunked {
  import opened Bytes
  import opened Common
  import opened Sockets

  const CR: byte := 13
  const LF: byte := 10
  const SEMICOLON: byte := 59
  const CRLF: seq<byte> := [CR, LF]

  predicate CrLfAt(s: seq<byte>, i: int) {
    0 <= i && i + 2 <= |s| && s[i] == CR && s[i + 1] == LF
  }

  /** Where the first CRLF is, or the length of `s` when there is none. */
  function FirstCrLf(s: seq<byte>): (n: nat)
    ensures n <= |s| && (n < |s| ==> CrLfAt(s, n))
    ensures forall i | 0 <= i < n :: !CrLfAt(s, i)
  {
    if |s| < 2 then |s|
    else if CrLfAt(s, 0) then 0
    else
      var n := FirstCrLf(s[1..]);
      assert forall i | 1 <= i < 1 + n :: CrLfAt(s, i) ==> CrLfAt(s[1..], i - 1);
      1 + n
  }

  predicate HasCrLf(s: seq<byte>) {
    FirstCrLf(s) < |s|
  }

  lemma CrLfFound(s: seq<byte>, n: nat)
    requires CrLfAt(s, n) && forall i | 0 <= i < n :: !CrLfAt(s, i)
    ensures FirstCrLf(s) == n && HasCrLf(s)
  {
  }

  lemma CrLfStays(s: seq<byte>, more: seq<byte>)
    requires HasCrLf(s)
    ensures FirstCrLf(s + more) == FirstCrLf(s) && HasCrLf(s + more)
  {
    var n := FirstCrLf(s);
    assert forall i | 0 <= i < n :: CrLfAt(s + more, i) ==> CrLfAt(s, i);
    CrLfFound(s + more, n);
  }

  /** The first CRLF of `s` is the first of anything that shares the line it ends. */
  lemma SameLine(s: seq<byte>, other: seq<byte>, n: nat)
    requires FirstCrLf(s) == n < |s| && |other| >= n + 2 && other[..n + 2] == s[..n + 2]
    ensures FirstCrLf(other) == n && other[..n] == s[..n]
  {
    hide FirstCrLf;
    assert forall i | 0 <= i < n + 2 :: other[i] == other[..n + 2][i] == s[..n + 2][i] == s[i];
    forall i | 0 <= i < n ensures !CrLfAt(other, i) {
      assert !CrLfAt(s, i);
    }
    CrLfFound(other, n);
    assert other[..n] == other[..n + 2][..n] == s[..n];
  }

  // ---- the size line ----

  const PLUS: byte := 43
  const MINUS: byte := 45
  const ZERO: byte := 48
  const UNDERSCORE: byte := 95

  predicate Space(b: byte) { b == 32 || 9 <= b <= 13 }

  predicate HexDigit(b: byte) { 48 <= b <= 57 || 65 <= b <= 70 || 97 <= b <= 102 }

  function DigitValue(b: byte): nat
    requires HexDigit(b)
  {
    if b <= 57 then b - 48 else if b <= 70 then b - 55 else b - 87
  }

  /** Hex digits and single underscores between them. */
  predicate Digits(s: seq<byte>) {
    && s != [] && s[0] != UNDERSCORE && s[|s| - 1] != UNDERSCORE
    && (forall b <- s :: HexDigit(b) || b == UNDERSCORE)
    && forall i | 0 < i < |s| :: s[i - 1] != UNDERSCORE || s[i] != UNDERSCORE
  }

  function HexValue(s: seq<byte>): nat
    requires forall b <- s :: HexDigit(b) || b == UNDERSCORE
  {
    if s == [] then 0
    else
      var most, b := HexValue(s[..|s| - 1]), s[|s| - 1];
      if b == UNDERSCORE then most else 16 * most + DigitValue(b)
  }

  function StripLeft(s: seq<byte>): seq<byte> {
    if s != [] && Space(s[0]) then StripLeft(s[1..]) else s
  }

  function StripRight(s: seq<byte>): seq<byte> {
    if s != [] && Space(s[|s| - 1]) then StripRight(s[..|s| - 1]) else s
  }

  function BeforeSemicolon(line: seq<byte>): seq<byte> {
    if line == [] || line[0] == SEMICOLON then [] else [line[0]] + BeforeSemicolon(line[1..])
  }

  /** What is left of a `0x`, after which one underscore may come. */
  function Unprefixed(s: seq<byte>): seq<byte> {
    if |s| < 2 || s[0] != ZERO || (s[1] != 88 && s[1] != 120) then s
    else if |s| > 2 && s[2] == UNDERSCORE then s[3..]
    else s[2..]
  }

  function Magnitude(s: seq<byte>): Option<int> {
    var digits := Unprefixed(s);
    if Digits(digits) then Some(HexValue(digits)) else None
  }

  /** `int(text, 16)` of text without white space around it. */
  function IntOf(text: seq<byte>): Option<int> {
    if text == [] || (text[0] != PLUS && text[0] != MINUS) then Magnitude(text)
    else
      match Magnitude(text[1..])
      case None => None
      case Some(m) => Some(if text[0] == MINUS then -m else m)
  }

  /** `int(line.split(b";")[0], 16)`. */
  function LineSize(line: seq<byte>): Option<int> {
    IntOf(StripRight(StripLeft(BeforeSemicolon(line))))
  }

  // ---- the drain, on a stream in pieces ----

  /** What has been read and not let go, and the pieces still to come. */
  datatype Held = Held(body: seq<byte>, pieces: seq<seq<byte>>) {
    function All(): seq<byte> {
      body + Flat(pieces)
    }
  }

  /** What one of the three loops waits for. */
  datatype Need = UpToCrLf | AtCrLf | AtLeast(n: int)

  predicate Enough(need: Need, body: seq<byte>) {
    match need
    case UpToCrLf => HasCrLf(body)
    case AtCrLf => CrLfAt(body, 0)
    case AtLeast(n) => |body| >= n
  }

  /** Pieces taken one by one until there is enough, or all of them. */
  function ReadUntil(need: Need, h: Held): Held
    decreases |h.pieces|
  {
    if Enough(need, h.body) || h.pieces == [] then h
    else ReadUntil(need, Held(h.body + h.pieces[0], h.pieces[1..]))
  }

  /** Python's `s[i:]`: a negative bound counts from the end, and no further than the front. */
  function From(s: seq<byte>, i: int): seq<byte> {
    if i > |s| then [] else if i >= 0 then s[i..] else if -i <= |s| then s[|s| + i..] else s
  }

  datatype Drained = Done | ClosedEarly | NotASize

  /** One turn of the outer loop ends the drain, or lets so many octets go. */
  datatype Step = Stopped(end: Drained, held: Held) | Goes(gone: nat, held: Held)

  function StepData(h: Held, size: int): Step {
    if size == 0 then
      var ended := ReadUntil(AtCrLf, h);
      Stopped(if CrLfAt(ended.body, 0) then Done else ClosedEarly, ended)
    else
      var filled := ReadUntil(AtLeast(size + 2), h);
      if |filled.body| < size + 2 then Stopped(ClosedEarly, filled)
      else
        var kept := From(filled.body, size + 2);
        Goes(|filled.body| - |kept|, Held(kept, filled.pieces))
  }

  function StepOf(h: Held): Step {
    var lined := ReadUntil(UpToCrLf, h);
    var n := FirstCrLf(lined.body);
    if n == |lined.body| then Stopped(ClosedEarly, lined)
    else
      var rest := Held(lined.body[n + 2..], lined.pieces);
      match LineSize(lined.body[..n])
      case None => Stopped(NotASize, rest)
      case Some(size) => Later(n + 2, StepData(rest, size))
  }

  function Later(n: nat, step: Step): Step {
    match step
    case Stopped(_, _) => step
    case Goes(gone, held) => Goes(n + gone, held)
  }

  /** A whole drain: what each turn let go, how it ended, and what was held then. */
  datatype Run = Run(turns: seq<nat>, end: Drained, held: Held)

  function DrainOn(h: Held): Run
    decreases |h.All()|
  {
    StepShrinks(h);
    match StepOf(h)
    case Stopped(end, held) => Run([], end, held)
    case Goes(gone, held) =>
      var run := DrainOn(held);
      Run([gone] + run.turns, run.end, run.held)
  }

  // ---- the same on the stream alone ----

  /** What a turn makes of a stream, or that it takes a cut of it to say. */
  datatype Turned = Ends(end: Drained, left: seq<byte>) | On(gone: nat) | Unsure

  function TurnData(s: seq<byte>, size: int): (t: Turned)
    ensures t.On? ==> t.gone <= |s|
  {
    if size == 0 then Ends(if CrLfAt(s, 0) then Done else ClosedEarly, s)
    else if size >= -2 then if |s| < size + 2 then Ends(ClosedEarly, s) else On(size + 2)
    else if |s| <= -(size + 2) then On(0)
    else Unsure
  }

  function Turn(s: seq<byte>): (t: Turned)
    ensures t.On? ==> 2 <= t.gone <= |s|
  {
    var n := FirstCrLf(s);
    if n == |s| then Ends(ClosedEarly, s)
    else
      match LineSize(s[..n])
      case None => Ends(NotASize, s[n + 2..])
      case Some(size) => Past(n + 2, TurnData(s[n + 2..], size))
  }

  function Past(n: nat, t: Turned): Turned {
    match t
    case On(gone) => On(n + gone)
    case _ => t
  }

  /** What the turns let go, how they end and what is left then; or that it takes a cut to say. */
  datatype Scanned = Over(turns: seq<nat>, end: Drained, left: seq<byte>) | Depends

  function Scan(s: seq<byte>): Scanned
    decreases |s|
  {
    match Turn(s)
    case Ends(end, left) => Over([], end, left)
    case Unsure => Depends
    case On(gone) =>
      match Scan(s[gone..])
      case Depends => Depends
      case Over(turns, end, left) => Over([gone] + turns, end, left)
  }

  /** The octets so far are no whole message, and nothing in them is wrong. */
  predicate Short(s: seq<byte>) {
    Scan(s).Over? && Scan(s).end.ClosedEarly?
  }

  // ---- reading until there is enough ----

  lemma EnoughStays(need: Need, s: seq<byte>, more: seq<byte>)
    requires Enough(need, s)
    ensures Enough(need, s + more)
  {
    if need.UpToCrLf? { CrLfStays(s, more); }
  }

  lemma {:induction false} FlatPrefix(pieces: seq<seq<byte>>, i: nat)
    requires i <= |pieces|
    ensures Flat(pieces[..i]) + Flat(pieces[i..]) == Flat(pieces)
  {
    if i == 0 {
      assert pieces[..i] == [] && pieces[i..] == pieces;
    } else {
      var front, rest := pieces[..i], pieces[1..];
      FlatPrefix(rest, i - 1);
      assert front[1..] == rest[..i - 1] && rest[i - 1..] == pieces[i..];
      Joins(pieces[0], Flat(front[1..]), Flat(pieces[i..]));
    }
  }

  lemma Joins(a: seq<byte>, b: seq<byte>, c: seq<byte>)
    ensures (a + b) + c == a + (b + c)
  {
  }

  /** How many pieces went from `a` to `b`. */
  function Taken(a: Held, b: Held): int { |a.pieces| - |b.pieces| }

  /** `i` pieces were read and nothing let go; without the last of them there was not enough. */
  ghost predicate ReadAs(need: Need, h: Held, r: Held, i: nat) {
    && i <= |h.pieces| && r.pieces == h.pieces[i..] && r.body == h.body + Flat(h.pieces[..i])
    && (i > 0 ==> !Enough(need, h.body + Flat(h.pieces[..i - 1])))
    && (!Enough(need, r.body) ==> r.pieces == [])
  }

  lemma {:induction false} ReadUntilIs(need: Need, h: Held)
    ensures var r := ReadUntil(need, h); Taken(h, r) >= 0 && ReadAs(need, h, r, Taken(h, r))
    decreases |h.pieces|
  {
    hide Enough;
    assert h.body + Flat(h.pieces[..0]) == h.body;
    if !Enough(need, h.body) && h.pieces != [] {
      var next := Held(h.body + h.pieces[0], h.pieces[1..]);
      ReadUntilIs(need, next);
      var i := Taken(next, ReadUntil(need, next));
      FirstPiece(h, i);
      if i > 0 { FirstPiece(h, i - 1); }
    }
  }

  lemma FirstPiece(h: Held, i: nat)
    requires h.pieces != [] && i < |h.pieces|
    ensures h.body + h.pieces[0] + Flat(h.pieces[1..][..i]) == h.body + Flat(h.pieces[..i + 1])
    ensures h.pieces[1..][i..] == h.pieces[i + 1..]
  {
    assert h.pieces[..i + 1][1..] == h.pieces[1..][..i];
  }

  /** Reading loses nothing, and there is enough exactly when the whole stream has it. */
  lemma ReadKeeps(need: Need, h: Held)
    ensures var r := ReadUntil(need, h);
            r.All() == h.All() && h.body <= r.body && (Enough(need, r.body) <==> Enough(need, h.All()))
  {
    hide Enough;
    var r := ReadUntil(need, h);
    ReadUntilIs(need, h);
    FlatPrefix(h.pieces, Taken(h, r));
    assert r.All() == h.All();
    if Enough(need, r.body) {
      EnoughStays(need, r.body, Flat(r.pieces));
    } else {
      assert r.body == r.All();
    }
  }

  lemma StepShrinks(h: Held)
    ensures StepOf(h).Goes? ==> |StepOf(h).held.All()| < |h.All()|
  {
    hide LineSize, FirstCrLf, ReadUntil;
    ReadKeeps(UpToCrLf, h);
    var lined := ReadUntil(UpToCrLf, h);
    var n := FirstCrLf(lined.body);
    if n < |lined.body| && LineSize(lined.body[..n]).Some? {
      ReadKeeps(AtLeast(LineSize(lined.body[..n]).value + 2), Held(lined.body[n + 2..], lined.pieces));
    }
  }

  /** A turn that reads its size line goes on with the data after it. */
  lemma Lined(h: Held, lined: Held, n: nat, size: int)
    requires lined == ReadUntil(UpToCrLf, h) && FirstCrLf(lined.body) == n < |lined.body|
    requires LineSize(lined.body[..n]) == Some(size)
    ensures StepOf(h) == Later(n + 2, StepData(Held(lined.body[n + 2..], lined.pieces), size))
  {
    hide FirstCrLf, LineSize, StepData, ReadUntil;
  }

  lemma LineTurns(s: seq<byte>, n: nat, size: int)
    requires FirstCrLf(s) == n < |s| && LineSize(s[..n]) == Some(size)
    ensures Turn(s) == Past(n + 2, TurnData(s[n + 2..], size))
  {
    hide FirstCrLf, LineSize, TurnData;
  }

  lemma NoEnd(s: seq<byte>)
    requires !Turn(s).Ends?
    ensures var n := FirstCrLf(s); n < |s| && LineSize(s[..n]).Some? && !TurnData(s[n + 2..], LineSize(s[..n]).value).Ends?
  {
    hide FirstCrLf, LineSize, TurnData;
  }

  // ---- what a cut cannot change ----

  /** A turn on pieces is the turn on the stream they cut. */
  ghost predicate StepIs(step: Step, t: Turned, s: seq<byte>) {
    match t
    case Ends(end, left) => step.Stopped? && step.end == end && step.held.All() == left
    case On(gone) => gone <= |s| && step.Goes? && step.gone == gone && step.held.All() == s[gone..]
    case Unsure => step.Goes?
  }

  lemma FromKeeps(s: seq<byte>, more: seq<byte>, i: int)
    requires i <= |s| && (i >= 0 || |s + more| <= -i)
    ensures From(s, i) + more == (s + more)[if i >= 0 then i else 0..]
    ensures |s| - |From(s, i)| == if i >= 0 then i else 0
  {
  }

  lemma StepDataIs(h: Held, size: int)
    ensures StepIs(StepData(h, size), TurnData(h.All(), size), h.All())
  {
    hide ReadUntil, From, CrLfAt;
    if size == 0 {
      ReadKeeps(AtCrLf, h);
    } else {
      ReadKeeps(AtLeast(size + 2), h);
      var filled := ReadUntil(AtLeast(size + 2), h);
      if |filled.body| >= size + 2 && (size >= -2 || |h.All()| <= -(size + 2)) {
        FromKeeps(filled.body, Flat(filled.pieces), size + 2);
      }
    }
  }

  lemma StepOfIs(h: Held)
    ensures StepIs(StepOf(h), Turn(h.All()), h.All())
  {
    hide ReadUntil, FirstCrLf, LineSize, StepData, TurnData;
    var s, lined := h.All(), ReadUntil(UpToCrLf, h);
    ReadKeeps(UpToCrLf, h);
    if HasCrLf(lined.body) {
      var n := FirstCrLf(lined.body);
      CrLfStays(lined.body, Flat(lined.pieces));
      assert s[..n] == lined.body[..n];
      var rest := Held(lined.body[n + 2..], lined.pieces);
      assert rest.All() == s[n + 2..];
      if LineSize(s[..n]).Some? { StepDataIs(rest, LineSize(s[..n]).value); }
    }
  }

  ghost predicate Meets(run: Run, all: Scanned) {
    all.Over? ==> run.turns == all.turns && run.end == all.end && run.held.All() == all.left
  }

  lemma {:induction false} DrainMeets(h: Held)
    ensures Meets(DrainOn(h), Scan(h.All()))
    decreases |h.All()|
  {
    hide StepOf, Turn;
    var s := h.All();
    StepOfIs(h);
    StepShrinks(h);
    if StepOf(h).Goes? && Turn(s).On? { DrainMeets(StepOf(h).held); }
  }

  lemma DrainGoes(h: Held)
    requires StepOf(h).Goes?
    ensures var run, rest := DrainOn(h), DrainOn(StepOf(h).held);
            |run.turns| > 0 && run.turns[0] == StepOf(h).gone && run.turns[1..] == rest.turns
            && run.end == rest.end && run.held == rest.held
  {
    hide StepOf;
  }

  lemma DrainStops(h: Held)
    requires StepOf(h).Stopped?
    ensures DrainOn(h) == Run([], StepOf(h).end, StepOf(h).held)
  {
    hide StepOf;
  }

  // ---- it asks only while the message is short ----

  /** Of less of a stream a turn makes the same, or waits. */
  lemma TurnBefore(s: seq<byte>, t: seq<byte>)
    requires t <= s && !Turn(s).Unsure?
    ensures (Turn(t).Ends? && Turn(t).end == ClosedEarly) || (HasCrLf(t) && FirstCrLf(t) == FirstCrLf(s))
    ensures Turn(s).On? ==> Turn(t) == Turn(s) || (Turn(t).Ends? && Turn(t).end == ClosedEarly)
    ensures Turn(s).Ends? && Turn(s).end == ClosedEarly ==> Turn(t).Ends? && Turn(t).end == ClosedEarly
  {
    hide FirstCrLf, LineSize;
    if HasCrLf(t) {
      var n := FirstCrLf(t);
      SameLine(t, s, n);
      assert t[n + 2..] <= s[n + 2..];
    }
  }

  lemma {:induction false} ShortBefore(s: seq<byte>, t: seq<byte>)
    requires Short(s) && t <= s
    ensures Short(t)
    decreases |s|
  {
    hide Turn;
    TurnBefore(s, t);
    if Turn(s).On? && Turn(t).On? {
      var gone := Turn(s).gone;
      assert t[gone..] <= s[gone..];
      ShortBefore(s[gone..], t[gone..]);
    }
  }

  /** The stream as it stood when `n` pieces had been read. */
  function Upto(h: Held, n: nat): seq<byte>
    requires n <= |h.pieces|
  {
    h.body + Flat(h.pieces[..n])
  }

  ghost predicate Waits(s: seq<byte>) {
    Turn(s).Ends? && Turn(s).end == ClosedEarly
  }

  /** `i` pieces were read, the last of them when the turn could not go on without. */
  ghost predicate TookShort(h: Held, held: Held, i: int) {
    0 <= i <= |h.pieces| && held.pieces == h.pieces[i..] && (i > 0 ==> Waits(Upto(h, i - 1)))
  }

  lemma DataTook(h: Held, size: int)
    requires !TurnData(h.All(), size).Unsure?
    ensures var held := StepData(h, size).held; var i := Taken(h, held);
            && 0 <= i <= |h.pieces| && held.pieces == h.pieces[i..]
            && (i > 0 ==> TurnData(Upto(h, i - 1), size).Ends? && TurnData(Upto(h, i - 1), size).end == ClosedEarly)
            && (StepData(h, size).Goes? ==> held.body == From(Upto(h, i), size + 2))
  {
    hide ReadUntil, CrLfAt;
    ReadUntilIs(if size == 0 then AtCrLf else AtLeast(size + 2), h);
  }

  lemma UptoIs(h: Held, n: nat)
    requires n <= |h.pieces|
    ensures Upto(h, n) + Flat(h.pieces[n..]) == h.All()
  {
    FlatPrefix(h.pieces, n);
  }

  lemma UptoBefore(h: Held, m: nat, n: nat)
    requires m <= n <= |h.pieces|
    ensures Upto(h, m) <= Upto(h, n)
  {
    FlatPrefix(h.pieces[..n], m);
    assert h.pieces[..n][..m] == h.pieces[..m];
  }

  lemma StepTook(h: Held)
    requires !Turn(h.All()).Unsure?
    ensures TookShort(h, StepOf(h).held, Taken(h, StepOf(h).held))
  {
    hide ReadUntil, FirstCrLf, LineSize, StepData, TurnData, Upto, StepOf, Turn, Waits;
    var s, lined := h.All(), ReadUntil(UpToCrLf, h);
    ReadKeeps(UpToCrLf, h);
    ReadUntilIs(UpToCrLf, h);
    LineTook(h, lined, Taken(h, lined));
    var n := FirstCrLf(lined.body);
    if n < |lined.body| && LineSize(lined.body[..n]).Some? {
      SizedTook(h, lined, n, LineSize(lined.body[..n]).value);
    } else {
      Unsized(h, lined);
    }
  }

  lemma Unsized(h: Held, lined: Held)
    requires lined == ReadUntil(UpToCrLf, h)
    requires var n := FirstCrLf(lined.body); n < |lined.body| ==> LineSize(lined.body[..n]).None?
    ensures StepOf(h).held.pieces == lined.pieces
  {
    hide FirstCrLf, LineSize, ReadUntil, StepData;
  }

  lemma SizedTook(h: Held, lined: Held, n: nat, size: int)
    requires !Turn(h.All()).Unsure? && lined == ReadUntil(UpToCrLf, h) && lined.All() == h.All()
    requires FirstCrLf(lined.body) == n < |lined.body| && LineSize(lined.body[..n]) == Some(size)
    requires var i := Taken(h, lined); TookShort(h, lined, i) && lined.body == Upto(h, i)
    ensures TookShort(h, StepOf(h).held, Taken(h, StepOf(h).held))
  {
    hide ReadUntil, FirstCrLf, LineSize, StepData, TurnData, Upto, StepOf, Turn, Waits;
    var s, i := h.All(), Taken(h, lined);
    CrLfStays(lined.body, Flat(lined.pieces));
    var rest := Held(lined.body[n + 2..], lined.pieces);
    PastLine(lined.body, Flat(lined.pieces), n);
    LineTurns(s, n, size);
    Lined(h, lined, n, size);
    hide Flat;
    DataTook(rest, size);
    var j := Taken(rest, StepOf(h).held);
    DropTwice(h.pieces, i, j);
    if j > 0 { DataWaits(h, lined, i, j - 1, n, size); }
  }

  lemma PastLine(body: seq<byte>, more: seq<byte>, n: nat)
    requires n + 2 <= |body|
    ensures (body + more)[..n] == body[..n] && body[n + 2..] + more == (body + more)[n + 2..]
  {
  }

  lemma DropTwice<T>(s: seq<T>, m: nat, n: nat)
    requires m + n <= |s|
    ensures s[m..][n..] == s[m + n..]
  {
  }

  lemma LineTook(h: Held, lined: Held, i: int)
    requires 0 <= i && ReadAs(UpToCrLf, h, lined, i)
    ensures i <= |h.pieces| && lined.pieces == h.pieces[i..] && lined.body == Upto(h, i)
    ensures i > 0 ==> Waits(Upto(h, i - 1))
  {
    hide FirstCrLf, LineSize, Flat;
  }

  /** The line is whole and what has come after it is not yet enough. */
  lemma DataWaits(h: Held, lined: Held, i: nat, j: nat, n: nat, size: int)
    requires i <= |h.pieces| && lined == Held(Upto(h, i), h.pieces[i..]) && j < |lined.pieces|
    requires FirstCrLf(lined.body) == n < |lined.body| && LineSize(lined.body[..n]) == Some(size)
    requires var t := TurnData(Upto(Held(lined.body[n + 2..], lined.pieces), j), size); t.Ends? && t.end == ClosedEarly
    ensures Waits(Upto(h, i + j))
  {
    hide FirstCrLf, LineSize, TurnData;
    var more := Flat(lined.pieces[..j]);
    FlatPrefix(h.pieces[..i + j], i);
    assert h.pieces[..i + j][..i] == h.pieces[..i] && h.pieces[..i + j][i..] == lined.pieces[..j];
    assert Upto(h, i + j) == lined.body + more;
    CrLfStays(lined.body, more);
    assert (lined.body + more)[..n] == lined.body[..n] && (lined.body + more)[n + 2..] == lined.body[n + 2..] + more;
  }

  /** The last piece that the drain took it asked for while the message was short. */
  lemma {:induction false} DrainTook(h: Held)
    requires Scan(h.All()).Over?
    ensures var held := DrainOn(h).held; var i := Taken(h, held);
            0 <= i <= |h.pieces| && held.pieces == h.pieces[i..] && (i > 0 ==> Short(Upto(h, i - 1)))
    decreases |h.All()|
  {
    hide StepOf, Turn, Upto, DrainOn, Short;
    var s, step := h.All(), StepOf(h);
    StepOfIs(h);
    StepTook(h);
    StepShrinks(h);
    var i := Taken(h, step.held);
    if i > 0 { WaitsShort(Upto(h, i - 1)); }
    if step.Goes? {
      DrainGoes(h);
      DrainTook(step.held);
      var j := Taken(step.held, DrainOn(h).held);
      assert h.pieces[i..][j..] == h.pieces[i + j..];
      if j > 0 { TookLater(h, step.held, i, j - 1, Turn(s).gone); }
    } else {
      DrainStops(h);
    }
  }

  lemma WaitsShort(s: seq<byte>)
    requires Waits(s)
    ensures Short(s)
  {
    hide Turn;
  }

  lemma TookLater(h: Held, held: Held, i: nat, j: nat, gone: nat)
    requires Turn(h.All()) == On(gone) && gone <= |h.All()| && held.All() == h.All()[gone..]
    requires i + j <= |h.pieces| && held.pieces == h.pieces[i..] && Short(Upto(held, j))
    ensures Short(Upto(h, i + j))
  {
    hide Turn, Upto;
    var s, t := h.All(), Upto(h, i + j);
    UptoIs(h, i + j);
    UptoIs(held, j);
    assert h.pieces[i + j..] == held.pieces[j..];
    TurnBefore(s, t);
    if Turn(t).On? { SameTail(s, t, gone, Upto(held, j), Flat(held.pieces[j..])); }
  }

  lemma SameTail(s: seq<byte>, t: seq<byte>, gone: nat, u: seq<byte>, more: seq<byte>)
    requires gone <= |t| && s == t + more && s[gone..] == u + more
    ensures t[gone..] == u
  {
    assert t[gone..] == s[gone..][..|t| - gone];
    assert u == s[gone..][..|u|];
  }

  // ---- the loops ----

  /** `while …: body += more()`, which gives up when the peer closes. */
  method Until(s: Socket, need: Need, body: seq<byte>) returns (ok: bool, have: seq<byte>)
    requires s.Valid()
    modifies s
    ensures s.Valid() && Held(have, s.pieces) == ReadUntil(need, Held(body, old(s.pieces)))
    ensures ok <==> Enough(need, have)
  {
    hide Enough;
    have := body;
    while !Enough(need, have)
      invariant s.Valid() && ReadUntil(need, Held(have, s.pieces)) == ReadUntil(need, Held(body, old(s.pieces)))
      decreases |s.pieces|
    {
      var chunk := s.Recv();
      if chunk == [] { return false, have; }
      have := have + chunk;
    }
    return true, have;
  }

  /** `gone` and then `rest` is the whole run. */
  ghost predicate Continues(run: Run, gone: seq<nat>, rest: Run) {
    run == Run(gone + rest.turns, rest.end, rest.held)
  }

  lemma ContinuesOn(run: Run, gone: seq<nat>, h: Held)
    requires Continues(run, gone, DrainOn(h)) && StepOf(h).Goes?
    ensures Continues(run, gone + [StepOf(h).gone], DrainOn(StepOf(h).held))
  {
    hide StepOf, DrainOn;
    DrainGoes(h);
    var turns := DrainOn(h).turns;
    assert turns == [turns[0]] + turns[1..];
    assert gone + turns == gone + [turns[0]] + turns[1..];
  }

  lemma ContinuesTo(run: Run, gone: seq<nat>, h: Held)
    requires Continues(run, gone, DrainOn(h)) && StepOf(h).Stopped?
    ensures run == Run(gone, StepOf(h).end, StepOf(h).held)
  {
    hide StepOf, DrainOn;
    DrainStops(h);
    assert gone + [] == gone;
  }

  /** One turn; the drain is over when there is an `end`. */
  method TakeTurn(s: Socket, start: seq<byte>) returns (end: Option<Drained>, body: seq<byte>, ghost gone: nat)
    requires s.Valid()
    modifies s
    ensures s.Valid()
    ensures StepOf(Held(start, old(s.pieces))) ==
              if end.Some? then Stopped(end.value, Held(body, s.pieces)) else Goes(gone, Held(body, s.pieces))
  {
    hide FirstCrLf, LineSize, ReadUntil;
    var ok;
    gone := 0;
    ok, body := Until(s, UpToCrLf, start);
    if !ok { return Some(ClosedEarly), body, 0; }
    var n := FirstCrLf(body);
    var line;
    line, body := body[..n], body[n + 2..];
    var size := LineSize(line);
    if size.None? { return Some(NotASize), body, 0; }
    if size.value == 0 {
      ok, body := Until(s, AtCrLf, body);
      return Some(if ok then Done else ClosedEarly), body, 0;
    }
    ok, body := Until(s, AtLeast(size.value + 2), body);
    if !ok { return Some(ClosedEarly), body, 0; }
    var kept := From(body, size.value + 2);
    return None, kept, n + 2 + (|body| - |kept|);
  }

  /** The drain of `open_one`. On a stream whose every cut is alike the pieces do not matter, and it
      asks for another only while the message so far is short. */
  method Drain(s: Socket, start: seq<byte>) returns (r: Drained, body: seq<byte>, ghost turns: seq<nat>)
    requires s.Valid()
    modifies s
    ensures s.Valid() && Run(turns, r, Held(body, s.pieces)) == DrainOn(Held(start, old(s.pieces)))
    ensures var all := Scan(start + old(s.Coming()));
            all.Over? ==> turns == all.turns && r == all.end && body + s.Coming() == all.left
    ensures Scan(start + old(s.Coming())).Over? ==>
              forall n: nat | n < |old(s.pieces)| - |s.pieces| :: Short(start + Flat(old(s.pieces)[..n]))
  {
    hide StepOf, DrainOn, Scan, Turn;
    ghost var first, run := Held(start, s.pieces), DrainOn(Held(start, s.pieces));
    DrainMeets(first);
    body, turns := start, [];
    while true
      invariant s.Valid() && Continues(run, turns, DrainOn(Held(body, s.pieces)))
      decreases |Held(body, s.pieces).All()|
    {
      ghost var h := Held(body, s.pieces);
      StepShrinks(h);
      var end;
      ghost var gone;
      end, body, gone := TakeTurn(s, body);
      if end.Some? {
        ContinuesTo(run, turns, h);
        AskedShort(first);
        return end.value, body, turns;
      }
      ContinuesOn(run, turns, h);
      turns := turns + [gone];
    }
  }

  lemma AskedShort(h: Held)
    ensures Scan(h.All()).Over? ==> var held := DrainOn(h).held;
              Taken(h, held) <= |h.pieces| && forall n: nat | n < Taken(h, held) :: Short(h.body + Flat(h.pieces[..n]))
  {
    hide DrainOn, Scan, Short;
    if Scan(h.All()).Over? {
      DrainTook(h);
      var i := Taken(h, DrainOn(h).held);
      forall n: nat | n < i ensures Short(h.body + Flat(h.pieces[..n])) {
        UptoBefore(h, n, i - 1);
        ShortBefore(Upto(h, i - 1), Upto(h, n));
      }
    }
  }

  // ---- what section 7.1 codes ----

  /** A size line: the size in hex digits of either case, blanks, and the extensions. */
  datatype Line = Line(digits: seq<byte>, pad: seq<byte>, ext: seq<byte>)

  datatype Chunk = Chunk(line: Line, data: seq<byte>)

  ghost predicate Says(l: Line, size: nat) {
    && l.digits != [] && (forall b <- l.digits :: HexDigit(b)) && HexValue(l.digits) == size
    && (forall b <- l.pad :: b == 32 || b == 9)
    && (l.ext == [] || l.ext[0] == SEMICOLON) && CR !in l.ext
  }

  function EncodeLine(l: Line): seq<byte> {
    l.digits + l.pad + l.ext + CRLF
  }

  function EncodeChunks(chunks: seq<Chunk>): seq<byte> {
    if chunks == [] then []
    else EncodeLine(chunks[0].line) + chunks[0].data + CRLF + EncodeChunks(chunks[1..])
  }

  /** How long each chunk is with its line and the CRLF after it. */
  function Lengths(chunks: seq<Chunk>): seq<nat> {
    if chunks == [] then []
    else [|EncodeLine(chunks[0].line)| + |chunks[0].data| + 2] + Lengths(chunks[1..])
  }

  ghost predicate Legal(chunks: seq<Chunk>, final: Line) {
    (forall c <- chunks :: c.data != [] && Says(c.line, |c.data|)) && Says(final, 0)
  }

  lemma {:induction false} SemicolonFound(text: seq<byte>, ext: seq<byte>)
    requires SEMICOLON !in text && (ext == [] || ext[0] == SEMICOLON)
    ensures BeforeSemicolon(text + ext) == text
  {
    if text == [] {
      assert text + ext == ext;
    } else {
      assert (text + ext)[1..] == text[1..] + ext;
      SemicolonFound(text[1..], ext);
    }
  }

  lemma {:induction false} PadStrips(digits: seq<byte>, pad: seq<byte>)
    requires digits != [] && (forall b <- digits :: HexDigit(b)) && forall b <- pad :: b == 32 || b == 9
    ensures StripRight(digits + pad) == digits
  {
    if pad == [] {
      assert digits + pad == digits && digits[|digits| - 1] in digits;
    } else {
      var most := pad[..|pad| - 1];
      assert (digits + pad)[..|digits + pad| - 1] == digits + most;
      assert pad[|pad| - 1] in pad && forall b <- most :: b in pad;
      PadStrips(digits, most);
    }
  }

  lemma DigitsRead(digits: seq<byte>)
    requires digits != [] && forall b <- digits :: HexDigit(b)
    ensures IntOf(digits) == Some(HexValue(digits))
  {
    hide HexValue;
    assert digits[0] in digits && (|digits| > 1 ==> digits[1] in digits);
    assert forall i | 0 <= i < |digits| :: digits[i] in digits;
  }

  lemma LineSays(l: Line, size: nat)
    requires Says(l, size)
    ensures LineSize(l.digits + l.pad + l.ext) == Some(size)
  {
    hide IntOf, HexValue, BeforeSemicolon, StripRight;
    assert l.digits[0] in l.digits && (l.digits + l.pad)[0] == l.digits[0];
    SemicolonFound(l.digits + l.pad, l.ext);
    PadStrips(l.digits, l.pad);
    DigitsRead(l.digits);
  }

  /** The size on a coded line is what `int` reads off it, and the line ends where it was ended. */
  lemma LineReads(l: Line, size: nat, rest: seq<byte>)
    requires Says(l, size)
    ensures var s, n := EncodeLine(l) + rest, |EncodeLine(l)| - 2;
            FirstCrLf(s) == n && LineSize(s[..n]) == Some(size) && s[n + 2..] == rest
  {
    hide LineSize, HexValue, FirstCrLf;
    var line := l.digits + l.pad + l.ext;
    LineSays(l, size);
    forall b <- line ensures b != CR {}
    var s, n := EncodeLine(l) + rest, |line|;
    assert s == line + CRLF + rest && s[..n] == line;
    forall i | 0 <= i < n ensures !CrLfAt(s, i) {
      assert s[i] == line[i] && line[i] in line;
    }
    CrLfFound(s, n);
  }

  lemma NoChunks()
    ensures EncodeChunks([]) == []
  {
  }

  lemma FirstChunk(chunks: seq<Chunk>, final: Line, after: seq<byte>)
    requires chunks != []
    ensures var c, rest := chunks[0], EncodeChunks(chunks[1..]) + EncodeLine(final) + after;
            && EncodeChunks(chunks) + EncodeLine(final) + after == EncodeLine(c.line) + (c.data + CRLF + rest)
            && (c.data + CRLF + rest)[|c.data| + 2..] == rest
  {
    var c, more := chunks[0], EncodeChunks(chunks[1..]);
    var line := EncodeLine(c.line);
    hide EncodeLine;
    Associates(line, c.data, CRLF, more, EncodeLine(final), after);
  }

  lemma Associates(a: seq<byte>, b: seq<byte>, c: seq<byte>, d: seq<byte>, e: seq<byte>, f: seq<byte>)
    ensures (a + b + c + d) + e + f == a + (b + c + (d + e + f))
    ensures (b + c + (d + e + f))[|b| + |c|..] == d + e + f
  {
    var x, y := a + b + c, e + f;
    assert x + d + e + f == x + (d + y) && d + y == d + e + f;
    assert x == a + (b + c);
    assert a + (b + c) + (d + y) == a + (b + c + (d + y));
  }

  lemma ScanIsOver(s: seq<byte>, end: Drained, left: seq<byte>)
    requires Turn(s) == Ends(end, left)
    ensures Scan(s) == Over([], end, left)
  {
    hide Turn;
  }

  lemma ScanGoes(s: seq<byte>, gone: nat, rest: seq<byte>)
    requires Turn(s) == On(gone) && gone <= |s| && rest == s[gone..] && Scan(rest).Over?
    ensures Scan(s) == Over([gone] + Scan(rest).turns, Scan(rest).end, Scan(rest).left)
  {
    hide Turn;
  }

  lemma LastScans(final: Line, after: seq<byte>)
    requires Says(final, 0)
    ensures Scan(EncodeLine(final) + after) == Over([], if CrLfAt(after, 0) then Done else ClosedEarly, after)
  {
    hide LineSize, FirstCrLf, EncodeLine, Turn, Scan, Says, CrLfAt;
    var s, n := EncodeLine(final) + after, |EncodeLine(final)| - 2;
    LineReads(final, 0, after);
    LineTurns(s, n, 0);
    ScanIsOver(s, if CrLfAt(after, 0) then Done else ClosedEarly, after);
  }

  lemma ChunkScans(c: Chunk, rest: seq<byte>)
    requires c.data != [] && Says(c.line, |c.data|) && Scan(rest).Over?
    ensures var gone := |EncodeLine(c.line)| + |c.data| + 2;
            Scan(EncodeLine(c.line) + (c.data + CRLF + rest))
              == Over([gone] + Scan(rest).turns, Scan(rest).end, Scan(rest).left)
  {
    hide LineSize, FirstCrLf, EncodeLine, Turn, Scan, Says, CrLfAt;
    var data := c.data + CRLF + rest;
    var s, n := EncodeLine(c.line) + data, |EncodeLine(c.line)| - 2;
    LineReads(c.line, |c.data|, data);
    LineTurns(s, n, |c.data|);
    assert s[|EncodeLine(c.line)| + |c.data| + 2..] == rest;
    ScanGoes(s, |EncodeLine(c.line)| + |c.data| + 2, rest);
  }

  /** A coded body is walked over whole, chunk by chunk, and it is over exactly when a CRLF comes
      next: so the empty trailer of every server here ends it, and with one that is not empty the
      drain goes on waiting. */
  lemma {:induction false} CodedScans(chunks: seq<Chunk>, final: Line, after: seq<byte>)
    requires Legal(chunks, final)
    ensures Scan(EncodeChunks(chunks) + EncodeLine(final) + after) ==
              Over(Lengths(chunks), if CrLfAt(after, 0) then Done else ClosedEarly, after)
  {
    hide EncodeLine, EncodeChunks, Scan, Says, CrLfAt;
    if chunks == [] {
      NoChunks();
      assert EncodeChunks(chunks) + EncodeLine(final) + after == EncodeLine(final) + after;
      LastScans(final, after);
    } else {
      assert chunks[0] in chunks && forall d <- chunks[1..] :: d in chunks;
      CodedScans(chunks[1..], final, after);
      FirstChunk(chunks, final, after);
      ChunkScans(chunks[0], EncodeChunks(chunks[1..]) + EncodeLine(final) + after);
    }
  }

  /** Over any cut of a coded message the drain lets go its chunks one by one, stops at its final
      CRLF, and never asks for a piece once it has the message. */
  method DrainCoded(s: Socket, start: seq<byte>, ghost chunks: seq<Chunk>, ghost final: Line, ghost suffix: seq<byte>)
    returns (r: Drained, body: seq<byte>, ghost turns: seq<nat>)
    requires s.Valid() && Legal(chunks, final)
    requires start + s.Coming() == EncodeChunks(chunks) + EncodeLine(final) + (CRLF + suffix)
    modifies s
    ensures s.Valid() && r.Done? && body + s.Coming() == CRLF + suffix && turns == Lengths(chunks)
    ensures forall n: nat | n < |old(s.pieces)| - |s.pieces| ::
              |start + Flat(old(s.pieces)[..n])| < |EncodeChunks(chunks) + EncodeLine(final) + CRLF|
  {
    hide Scan, LineSize, FirstCrLf, EncodeLine, EncodeChunks, Lengths;
    ghost var all, pieces := start + s.Coming(), s.pieces;
    ghost var coded := EncodeChunks(chunks) + EncodeLine(final);
    CodedScans(chunks, final, CRLF + suffix);
    r, body, turns := Drain(s, start);
    forall n: nat | n < |pieces| - |s.pieces| ensures |start + Flat(pieces[..n])| < |coded + CRLF| {
      var cut := start + Flat(pieces[..n]);
      if |cut| >= |coded + CRLF| {
        FlatPrefix(pieces, n);
        assert all == cut + Flat(pieces[n..]) && cut == all[..|cut|];
        assert cut == coded + (CRLF + cut[|coded| + 2..]);
        CodedScans(chunks, final, CRLF + cut[|coded| + 2..]);
        assert false;
      }
    }
  }
}
