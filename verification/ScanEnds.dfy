/** When the scanner's loop ends (spike/grpc/probe/main.go:91-127). Nothing in the source bounds the
    length a string claims, and the sum that moves the index is taken in 64 bits, so the index can
    come back; the loop ends exactly when it never does. */
module ScanEnds {
  import opened Bytes
  import opened Hpack

  /** The index after some turns, or that the loop is over, with a panic or without. */
  datatype Where = At(i: int) | Over

  function Next(b: seq<byte>, i: int): Where {
    match Turn(b, Running(i, ZERO))
    case Running(j, _) => At(j)
    case Finished(_) => Over
    case Panicked => Over
  }

  /** Where `turns` turns from the start of the block lead. */
  function Walk(b: seq<byte>, turns: nat): Where {
    if turns == 0 then At(0)
    else
      match Walk(b, turns - 1)
      case Over => Over
      case At(i) => Next(b, i)
  }

  /** Some turn begins at an index an earlier one began at. */
  ghost predicate ComesBack(b: seq<byte>) {
    exists j: nat, k: nat :: j < k && Returns(b, j, k)
  }

  ghost predicate Returns(b: seq<byte>, j: nat, k: nat) {
    Walk(b, j).At? && Walk(b, k) == Walk(b, j)
  }

  // ---- the walk and the run ----

  /** Where a turn leads does not depend on what has been counted. */
  lemma TurnIsNext(b: seq<byte>, i: int, n: Counts)
    ensures var s := Turn(b, Running(i, n));
            if s.Running? then Next(b, i) == At(s.i) else Next(b, i) == Over
  {
    hide ReadInt, SkipString;
  }

  lemma {:induction false} RunTurn(b: seq<byte>, s: Scan, turns: nat)
    ensures Run(b, s, turns + 1) == Turn(b, Run(b, s, turns))
    decreases turns
  {
    hide Turn;
    if turns > 0 { RunTurn(b, Turn(b, s), turns - 1); }
  }

  lemma {:induction false} RunIsWalk(b: seq<byte>, n: Counts, turns: nat)
    ensures var s := Run(b, Running(0, n), turns);
            if s.Running? then Walk(b, turns) == At(s.i) else Walk(b, turns) == Over
  {
    hide Turn, Next;
    if turns > 0 {
      RunIsWalk(b, n, turns - 1);
      RunTurn(b, Running(0, n), turns - 1);
      hide Run;
      var s := Run(b, Running(0, n), turns - 1);
      if s.Running? { TurnIsNext(b, s.i, s.counts); } else { StoppedTurn(b, s); }
    }
  }

  lemma StoppedTurn(b: seq<byte>, s: Scan)
    requires !s.Running?
    ensures Turn(b, s) == s
  {
  }

  lemma {:induction false} StaysStopped(b: seq<byte>, s: Scan, turns: nat)
    requires !s.Running?
    ensures Run(b, s, turns) == s
  {
    if turns > 0 { StaysStopped(b, s, turns - 1); }
  }

  /** A loop that goes on is inside the block. */
  lemma GoesOnInside(b: seq<byte>, i: int)
    requires Next(b, i).At?
    ensures 0 <= i < |b|
  {
    hide ReadInt, AfterStrings;
  }

  // ---- the loop ends or comes back ----

  lemma {:induction false} StillOver(b: seq<byte>, j: nat, k: nat)
    requires j <= k && Walk(b, j).Over?
    ensures Walk(b, k).Over?
    decreases k - j
  {
    hide Next;
    if j < k { StillOver(b, j, k - 1); }
  }

  lemma {:induction false} SameFromThere(b: seq<byte>, j: nat, k: nat, d: nat)
    requires Walk(b, j) == Walk(b, k)
    ensures Walk(b, j + d) == Walk(b, k + d)
  {
    hide Next;
    if d > 0 { SameFromThere(b, j, k, d - 1); }
  }

  /** Once the index has come back the loop goes round for ever. */
  lemma {:induction false} GoesRound(b: seq<byte>, j: nat, k: nat, turns: nat)
    requires j < k && Returns(b, j, k)
    ensures Walk(b, turns).At?
    decreases turns
  {
    hide Walk, Next;
    if turns <= k {
      if Walk(b, turns).Over? { StillOver(b, turns, k); }
    } else {
      SameFromThere(b, j, k, turns - k);
      GoesRound(b, j, k, turns - (k - j));
    }
  }

  /** Among more numbers than there are places for, two are the same. */
  lemma {:induction false} TwoAlike(s: seq<int>, n: nat) returns (j: nat, k: nat)
    requires |s| > n && forall x <- s :: 0 <= x < n
    ensures j < k < |s| && s[j] == s[k]
    decreases n
  {
    var last := n - 1;
    assert s[0] in s;
    if i :| 0 <= i < |s| && s[i] == last {
      if i' :| 0 <= i' < |s| && i' != i && s[i'] == last {
        j, k := if i < i' then i else i', if i < i' then i' else i;
      } else {
        var rest := s[..i] + s[i + 1..];
        forall x <- rest ensures 0 <= x < last {
          var at :| 0 <= at < |rest| && rest[at] == x;
          var there := if at < i then at else at + 1;
          assert x == s[there] && s[there] in s && there != i;
        }
        var a, c := TwoAlike(rest, last);
        j, k := if a < i then a else a + 1, if c < i then c else c + 1;
      }
    } else {
      forall x <- s ensures 0 <= x < last {}
      j, k := TwoAlike(s, last);
    }
  }

  function Indices(b: seq<byte>, turns: nat): (s: seq<int>)
    requires Walk(b, turns).At?
    ensures |s| == turns + 1 && forall t | 0 <= t <= turns :: Walk(b, t) == At(s[t])
  {
    hide Next;
    if turns == 0 then [0]
    else
      Indices(b, turns - 1) + [Walk(b, turns).i]
  }

  /** A loop still going after a turn for every octet and one more has come back. */
  lemma LongWalkComesBack(b: seq<byte>)
    requires Walk(b, |b| + 1).At?
    ensures ComesBack(b)
  {
    var s := Indices(b, |b| + 1)[..|b| + 1];
    forall x <- s ensures 0 <= x < |b| {
      var t :| 0 <= t < |s| && s[t] == x;
      assert Walk(b, t) == At(x) && Walk(b, t + 1).At?;
      GoesOnInside(b, x);
    }
    var j, k := TwoAlike(s, |b|);
    assert Returns(b, j, k);
  }

  /** The loop ends, and then by turn |b| + 1, exactly when the index never comes back; and when it
      does the loop never ends. */
  lemma EndsUnlessItComesBack(b: seq<byte>, n: Counts)
    ensures ComesBack(b) <==> forall turns: nat :: Run(b, Running(0, n), turns).Running?
    ensures ComesBack(b) <==> Run(b, Running(0, n), |b| + 1).Running?
  {
    hide Run, Walk, Returns;
    forall turns: nat ensures Run(b, Running(0, n), turns).Running? <==> Walk(b, turns).At? {
      RunIsWalk(b, n, turns);
    }
    RunIsWalk(b, n, |b| + 1);
    if ComesBack(b) {
      var j: nat, k: nat :| j < k && Returns(b, j, k);
      forall turns: nat ensures Walk(b, turns).At? { GoesRound(b, j, k, turns); }
    } else if Walk(b, |b| + 1).At? {
      LongWalkComesBack(b);
    }
  }

  /** Where it has ended by some turn is where it ends. */
  lemma EndsByThen(b: seq<byte>, n: Counts, turns: nat)
    requires !Run(b, Running(0, n), turns).Running?
    ensures Run(b, Running(0, n), |b| + 1) == Run(b, Running(0, n), turns)
  {
    hide Run;
    EndsUnlessItComesBack(b, n);
    if turns <= |b| + 1 {
      RunsOn(b, Running(0, n), turns, |b| + 1 - turns);
    } else {
      RunsOn(b, Running(0, n), |b| + 1, turns - (|b| + 1));
    }
  }

  lemma {:induction false} RunsOn(b: seq<byte>, s: Scan, turns: nat, more: nat)
    requires !Run(b, s, turns).Running?
    ensures Run(b, s, turns + more) == Run(b, s, turns)
    decreases turns
  {
    hide Turn;
    if turns == 0 { StaysStopped(b, s, more); } else { RunsOn(b, Turn(b, s), turns - 1, more); }
  }

  /** What a client writes is always scanned to the end. */
  lemma EncodingNeverComesBack(reps: seq<Rep>)
    requires (forall r <- reps :: Sendable(r)) && |EncodeBlock(reps)| < TWO_63
    ensures !ComesBack(EncodeBlock(reps))
  {
    hide EncodeBlock, Run;
    ScanOfEncoding(reps);
    EndsUnlessItComesBack(EncodeBlock(reps), ZERO);
  }

  // ---- strings that cannot take the index back ----

  /** The string at `i`, if one can be read there, does not carry the sum past 63 bits. */
  ghost predicate StringFits(b: seq<byte>, i: int) {
    ReadInt(b, i, 7).Read? ==> |b| + ReadInt(b, i, 7).value < TWO_63
  }

  /** The strings that a turn at `i` reads, and no others. */
  ghost predicate StringsFit(b: seq<byte>, i: int) {
    0 <= i < |b| && (b[i] < 0x20 || 0x40 <= b[i] < 0x80) ==>
      var r := ReadInt(b, i, if b[i] >= 0x40 then 6 else 4);
      r.Read? ==>
        && StringFits(b, r.next)
        && (r.value == 0 && SkipString(b, r.next).Read? ==> StringFits(b, SkipString(b, r.next).next))
  }

  lemma ReadAdvances(b: seq<byte>, i: int, prefix: nat)
    requires 1 <= prefix <= 7
    ensures ReadInt(b, i, prefix).Read? ==> i < ReadInt(b, i, prefix).next <= |b|
  {
  }

  lemma SkipAdvances(b: seq<byte>, i: int)
    requires i >= 0 && StringFits(b, i)
    ensures SkipString(b, i).Read? ==> i < SkipString(b, i).next
  {
    ReadAdvances(b, i, 7);
    hide ReadInt, ToInt64;
    var r := ReadInt(b, i, 7);
    if r.Read? {
      SmallStays(r.value);
      SmallStays(r.next + r.value);
    }
  }

  lemma SmallStays(n: nat)
    requires n < TWO_63
    ensures ToInt64(n) == n
  {
  }

  lemma NextAdvances(b: seq<byte>, i: nat)
    requires StringsFit(b, i)
    ensures Next(b, i).At? ==> i < Next(b, i).i
  {
    hide ReadInt, SkipString, StringFits;
    if i < |b| {
      var prefix := if b[i] >= 0x80 then 7 else if b[i] >= 0x40 then 6 else if b[i] >= 0x20 then 5 else 4;
      ReadAdvances(b, i, prefix);
      var r := ReadInt(b, i, prefix);
      if r.Read? && (b[i] < 0x20 || 0x40 <= b[i] < 0x80) {
        SkipAdvances(b, r.next);
        var named := SkipString(b, r.next);
        if r.value == 0 && named.Read? { SkipAdvances(b, named.next); }
      }
    }
  }

  lemma {:induction false} WalkAdvances(b: seq<byte>, j: nat, k: nat)
    requires forall t: nat | Walk(b, t).At? :: StringsFit(b, Walk(b, t).i)
    requires j <= k && Walk(b, k).At?
    ensures Walk(b, j).At? && 0 <= Walk(b, j).i && Walk(b, j).i + (k - j) <= Walk(b, k).i
    decreases k
  {
    hide Next, StringsFit;
    if j < k || k > 0 {
      WalkAdvances(b, if j < k then j else k - 1, k - 1);
      NextAdvances(b, Walk(b, k - 1).i);
    }
  }

  /** If the strings read at the places the walk reaches fit, malformed or not, the loop ends. */
  lemma ScanStops(b: seq<byte>, n: Counts)
    requires forall t: nat | Walk(b, t).At? :: StringsFit(b, Walk(b, t).i)
    ensures !ComesBack(b) && !Run(b, Running(0, n), |b| + 1).Running?
  {
    hide Run, Walk, StringsFit;
    if ComesBack(b) {
      var j: nat, k: nat :| j < k && Returns(b, j, k);
      WalkAdvances(b, j, k);
      assert false;
    }
    EndsUnlessItComesBack(b, n);
  }

  // ---- when it ends with a panic ----

  /** Where a turn at `i` begins to read, up to the first place that is outside the block. */
  function Starts(b: seq<byte>, i: int): seq<int> {
    if i >= |b| then []
    else if i < 0 || b[i] >= 0x80 || 0x20 <= b[i] < 0x40 then [i]
    else
      match ReadInt(b, i, if b[i] >= 0x40 then 6 else 4)
      case OutOfRange => [i]
      case Read(index, next) =>
        if index != 0 then [i, next]
        else
          match SkipString(b, next)
          case OutOfRange => [i, next]
          case Read(_, value) => [i, next, value]
  }

  predicate Inside(b: seq<byte>, i: int) { 0 <= i < |b| }

  lemma ReadsInside(b: seq<byte>, i: int, prefix: nat)
    requires 1 <= prefix <= 7
    ensures ReadInt(b, i, prefix).Read? <==> Inside(b, i)
    ensures SkipString(b, i).Read? <==> Inside(b, i)
  {
    hide ReadRest, ToInt64;
  }

  lemma TurnPanics(b: seq<byte>, i: int, n: Counts)
    ensures Turn(b, Running(i, n)).Panicked? <==> exists at <- Starts(b, i) :: !Inside(b, at)
  {
    hide ReadInt, SkipString;
    if Inside(b, i) {
      var prefix := if b[i] >= 0x80 then 7 else if b[i] >= 0x40 then 6 else if b[i] >= 0x20 then 5 else 4;
      ReadsInside(b, i, prefix);
      if b[i] < 0x20 || 0x40 <= b[i] < 0x80 {
        var r := ReadInt(b, i, prefix);
        ReadsInside(b, r.next, 7);
        assert r.next in Starts(b, i);
        if r.value == 0 && SkipString(b, r.next).Read? {
          ReadsInside(b, SkipString(b, r.next).next, 7);
          assert SkipString(b, r.next).next in Starts(b, i);
        }
      }
    } else if i < 0 {
      assert i in Starts(b, i);
    }
  }

  /** Somewhere on the walk a read begins outside the block. */
  ghost predicate Strays(b: seq<byte>) {
    exists k: nat :: StraysAt(b, k)
  }

  ghost predicate StraysAt(b: seq<byte>, k: nat) {
    Walk(b, k).At? && exists at <- Starts(b, Walk(b, k).i) :: !Inside(b, at)
  }

  lemma {:induction false} StraysBefore(b: seq<byte>, n: Counts, turns: nat)
    requires Run(b, Running(0, n), turns).Panicked?
    ensures Strays(b)
    decreases turns
  {
    hide Turn, Walk, Starts;
    if turns > 0 {
      RunTurn(b, Running(0, n), turns - 1);
      RunIsWalk(b, n, turns - 1);
      hide Run;
      var s := Run(b, Running(0, n), turns - 1);
      if s.Running? {
        TurnPanics(b, s.i, s.counts);
        assert StraysAt(b, turns - 1);
      } else {
        StoppedTurn(b, s);
        StraysBefore(b, n, turns - 1);
      }
    }
  }

  /** The loop ends with a panic exactly when some read on its way begins outside the block. */
  lemma PanicsExactly(b: seq<byte>, n: Counts)
    ensures Run(b, Running(0, n), |b| + 1).Panicked? <==> Strays(b)
    ensures Run(b, Running(0, n), |b| + 1).Finished? <==> !ComesBack(b) && !Strays(b)
  {
    hide Run, Turn, Walk, Starts, ComesBack;
    EndsUnlessItComesBack(b, n);
    if Strays(b) {
      var k: nat :| StraysAt(b, k);
      RunIsWalk(b, n, k);
      RunTurn(b, Running(0, n), k);
      var s := Run(b, Running(0, n), k);
      TurnPanics(b, s.i, s.counts);
      EndsByThen(b, n, k + 1);
    }
    if Run(b, Running(0, n), |b| + 1).Panicked? { StraysBefore(b, n, |b| + 1); }
  }

  lemma OneOctetStarts(b: seq<byte>)
    requires |b| == 1 && b[0] == 0x40
    ensures 1 in Starts(b, 0)
  {
    hide ReadRest, SkipString, ToInt64;
    ReadsInside(b, 1, 7);
    var r := ReadInt(b, 0, 6);
    assert r == Read(0, 1);
    assert SkipString(b, r.next).OutOfRange?;
  }

  /** One octet is enough: a literal with nothing behind it. */
  lemma OneOctetPanics(b: seq<byte>, n: Counts)
    requires |b| == 1 && b[0] == 0x40
    ensures Strays(b) && Run(b, Running(0, n), |b| + 1).Panicked?
  {
    hide Run, Starts, Next;
    OneOctetStarts(b);
    assert Walk(b, 0) == At(0) && StraysAt(b, 0);
    PanicsExactly(b, n);
  }

  // ---- a block that is never left ----

  /** One literal whose value claims 2^64 - 12 octets: its end is where it began. */
  function Endless(): seq<byte> {
    [0x01, 0x7f] + EncodeVarint(TWO_64 - 12 - 127)
  }

  function Letters(n: nat): seq<char> {
    if n == 0 then [] else ['l'] + Letters(n - 1)
  }

  /** A string's length read behind a literal's first octet. */
  lemma ClaimReads(b: seq<byte>, w: nat)
    requires b == [0x01, 0x7f] + EncodeVarint(w) && 127 + w < TWO_64
    ensures ReadInt(b, 0, 4) == Read(1, 1)
    ensures ReadInt(b, 1, 7) == Read(127 + w, |b|)
  {
    assert b[2..|b|] == EncodeVarint(w);
    hide EncodeVarint;
    assert Pow128(0) == 1;
    ReadRestInverts(b, 2, 127, 0, w);
    hide ReadRest;
  }

  lemma EndlessReads()
    ensures |Endless()| == 12 && Endless()[0] == 1
    ensures ReadInt(Endless(), 0, 4) == Read(1, 1)
    ensures ReadInt(Endless(), 1, 7) == Read(TWO_64 - 12, 12)
  {
    hide EncodeVarint, ReadInt;
    TenOctets(TWO_64 - 12 - 127);
    ClaimReads(Endless(), TWO_64 - 12 - 127);
  }

  lemma EndlessTurn(n: Counts)
    ensures Turn(Endless(), Running(0, n)) == Running(0, n.(noIndex := n.noIndex + 1, kinds := n.kinds + ['l']))
  {
    hide Endless, ReadInt;
    EndlessReads();
    assert ToInt64(TWO_64 - 12) == -12;
    assert SkipString(Endless(), 1) == Read(TWO_64 - 12, 0);
  }

  /** Twelve octets on which the loop never ends, and records a literal on every turn. */
  lemma {:induction false} EndlessNeverEnds(n: Counts, turns: nat)
    ensures Run(Endless(), Running(0, n), turns)
            == Running(0, n.(noIndex := n.noIndex + turns, kinds := n.kinds + Letters(turns)))
    ensures ComesBack(Endless())
    decreases turns
  {
    hide Endless, Turn;
    EndlessTurn(n);
    if turns == 0 {
      assert n.kinds + [] == n.kinds;
      TurnIsNext(Endless(), 0, n);
      assert Walk(Endless(), 0) == At(0) && Walk(Endless(), 1) == At(0);
      assert Returns(Endless(), 0, 1);
    } else {
      var m := n.(noIndex := n.noIndex + 1, kinds := n.kinds + ['l']);
      EndlessNeverEnds(m, turns - 1);
      assert n.kinds + Letters(turns) == m.kinds + Letters(turns - 1);
    }
  }
}
