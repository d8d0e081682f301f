/** `scan` as it runs (spike/grpc/probe/main.go:36-127): an index that moves and a block record
    whose fields are bumped, proved against `Hpack.Run`. */
module HpackScanner {
  import opened Bytes
  import opened Hpack
  import ScanEnds

  class Block {
    var indexed: nat
    var incIndex: nat
    var noIndex: nat
    var never: nat
    var sizeUpdate: seq<nat>
    var kinds: seq<char>

    constructor ()
      ensures Snapshot() == ZERO
    {
      indexed, incIndex, noIndex, never, sizeUpdate, kinds := 0, 0, 0, 0, [], [];
    }

    function Snapshot(): Counts
      reads this
    {
      Counts(indexed, incIndex, noIndex, never, sizeUpdate, kinds)
    }
  }

  method ReadIntAt(b: seq<byte>, i: int, prefix: nat) returns (r: Read)
    requires 1 <= prefix <= 7
    ensures r == ReadInt(b, i, prefix)
  {
    if !(0 <= i < |b|) { return OutOfRange; }
    var mask := Mask(prefix);
    var v: nat := b[i] % (mask + 1);
    var j: nat, k: nat := i + 1, 0;
    if v < mask { return Read(v, j); }
    ghost var rest := ReadRest(b, j, v, k);
    while j < |b|
      invariant j <= |b| && ReadRest(b, j, v, k) == rest
      decreases |b| - j
    {
      hide Shift;
      var c := b[j];
      j := j + 1;
      v := (v + Shift(c % 128, k)) % TWO_64;
      k := k + 1;
      if c < 128 { return Read(v, j); }
    }
    return Read(v, j);
  }

  method SkipStringAt(b: seq<byte>, i: int) returns (r: Read)
    ensures r == SkipString(b, i)
  {
    r := ReadIntAt(b, i, 7);
    match r
    case OutOfRange =>
    case Read(n, next) => r := Read(n, ToInt64(next + ToInt64(n)));
  }

  /** The name, when it is not a table entry, and the value: where they end. */
  method SkipLiteral(b: seq<byte>, i: int, prefix: nat) returns (ok: bool, end: int)
    requires 1 <= prefix <= 7
    ensures forall counts :: AfterStrings(b, ReadInt(b, i, prefix), counts)
                          == if ok then Running(end, counts) else Panicked
  {
    hide ReadInt, SkipString;
    ok, end := false, i;
    var r := ReadIntAt(b, i, prefix);
    if r.OutOfRange? { return; }
    if r.value == 0 {
      r := SkipStringAt(b, r.next);
      if r.OutOfRange? { return; }
    }
    r := SkipStringAt(b, r.next);
    if r.OutOfRange? { return; }
    return true, r.next;
  }

  /** How the loop stood when it was left: over, given up with a panic, or still going. */
  datatype Left = Ended | GaveUp | Going

  /** At most `limit` turns of the loop, on any block at all; a read outside the block is a panic. */
  method Turns(b: seq<byte>, blk: Block, limit: nat) returns (left: Left)
    modifies blk
    ensures match Run(b, Running(0, old(blk.Snapshot())), limit)
            case Finished(counts) => left.Ended? && counts == blk.Snapshot()
            case Panicked => left.GaveUp?
            case Running(_, counts) => left.Going? && counts == blk.Snapshot()
  {
    hide ReadInt, AfterStrings, Run;
    var i := 0;
    ghost var end := Run(b, Running(0, blk.Snapshot()), limit);
    for turn := 0 to limit
      invariant Run(b, Running(i, blk.Snapshot()), limit - turn) == end
    {
      OneTurn(b, Running(i, blk.Snapshot()), limit - turn);
      if i >= |b| {
        ScanEnds.StaysStopped(b, Finished(blk.Snapshot()), limit - turn - 1);
        return Ended;
      }
      if i < 0 {
        ScanEnds.StaysStopped(b, Panicked, limit - turn - 1);
        return GaveUp;
      }
      var c := b[i];
      var ok := true;
      if c >= 0x80 {
        var r := ReadIntAt(b, i, 7);
        if r.OutOfRange? { ok := false; } else {
          i := r.next;
          blk.indexed := blk.indexed + 1;
          blk.kinds := blk.kinds + ['i'];
        }
      } else if c >= 0x40 {
        ok, i := SkipLiteral(b, i, 6);
        if ok {
          blk.incIndex := blk.incIndex + 1;
          blk.kinds := blk.kinds + ['+'];
        }
      } else if c >= 0x20 {
        var r := ReadIntAt(b, i, 5);
        if r.OutOfRange? { ok := false; } else {
          i := r.next;
          blk.sizeUpdate := blk.sizeUpdate + [r.value];
        }
      } else if c >= 0x10 {
        ok, i := SkipLiteral(b, i, 4);
        if ok {
          blk.never := blk.never + 1;
          blk.kinds := blk.kinds + ['n'];
        }
      } else {
        ok, i := SkipLiteral(b, i, 4);
        if ok {
          blk.noIndex := blk.noIndex + 1;
          blk.kinds := blk.kinds + ['l'];
        }
      }
      if !ok {
        ScanEnds.StaysStopped(b, Panicked, limit - turn - 1);
        return GaveUp;
      }
    }
    NoTurns(b, Running(i, blk.Snapshot()));
    return Going;
  }

  lemma OneTurn(b: seq<byte>, s: Hpack.Scan, turns: nat)
    requires turns > 0
    ensures Run(b, s, turns) == Run(b, Turn(b, s), turns - 1)
  {
  }

  lemma NoTurns(b: seq<byte>, s: Hpack.Scan)
    ensures Run(b, s, 0) == s
  {
  }

  /** `scan`, on every block its loop ends on: a turn an octet and one more are all it takes. */
  method Scan(b: seq<byte>, blk: Block) returns (panicked: bool)
    requires !ScanEnds.ComesBack(b)
    modifies blk
    ensures Run(b, Running(0, old(blk.Snapshot())), |b| + 1)
         == if panicked then Panicked else Finished(blk.Snapshot())
  {
    hide Run;
    ScanEnds.EndsUnlessItComesBack(b, blk.Snapshot());
    var left := Turns(b, blk, |b| + 1);
    return left.GaveUp?;
  }
}
