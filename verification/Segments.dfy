/** The segment writer (bench/json_segments.zig:48-120): a writer whose buffer is one segment,
    sealed when it is full and never touched again. It is plain append, and its bookkeeping is
    `SegmentLayout`. */
module Segments {
  import opened Bytes
  import opened SegmentLayout

  /** An iovec: where the octets are and how many of them count. */
  datatype Part = Part(buf: array<byte>, len: nat)

  ghost function Flatten(parts: seq<Part>): seq<byte>
    requires forall p <- parts :: p.len <= p.buf.Length
    reads set p <- parts :: p.buf
  {
    if parts == [] then []
    else
      var last := parts[|parts| - 1];
      assert last in parts && forall p <- parts[..|parts| - 1] :: p in parts;
      Flatten(parts[..|parts| - 1]) + last.buf[..last.len]
  }

  /** The parts without their octets. */
  function Shapes(parts: seq<Part>): (s: seq<Sealed>)
    ensures |s| == |parts|
  {
    seq(|parts|, i requires 0 <= i < |parts| => Sealed(parts[i].buf.Length, parts[i].len))
  }

  function Concat(data: seq<seq<byte>>): seq<byte> {
    if data == [] then [] else data[0] + Concat(data[1..])
  }

  function Lengths(data: seq<seq<byte>>): (lens: seq<nat>)
    ensures |lens| == |data|
  {
    seq(|data|, i requires 0 <= i < |data| => |data[i]|)
  }

  lemma {:induction false} LengthsAddUp(data: seq<seq<byte>>)
    ensures Sum(Lengths(data)) == |Concat(data)|
  {
    if data != [] {
      LengthsAddUp(data[1..]);
      SumHead(|data[0]|, Lengths(data[1..]));
      assert Lengths(data) == [|data[0]|] + Lengths(data[1..]);
    }
  }

  lemma {:induction false} SumHead(n: nat, rest: seq<nat>)
    ensures Sum([n] + rest) == n + Sum(rest)
  {
    if rest == [] {
      assert [n] + rest == [n] && [n][..0] == [];
    } else {
      SumHead(n, rest[..|rest| - 1]);
      assert ([n] + rest)[..|rest|] == [n] + rest[..|rest| - 1];
    }
  }

  function Repeat(slice: seq<byte>, times: nat): seq<byte> {
    if times == 0 then [] else slice + Repeat(slice, times - 1)
  }

  /** What a vectored write carries: every slice once, the last one `splat` times. */
  function Payload(data: seq<seq<byte>>, splat: nat): seq<byte> {
    if data == [] then []
    else if |data| == 1 then Repeat(data[0], splat)
    else data[0] + Payload(data[1..], splat)
  }

  /** A vectored write is its slices one after another with the last as often as `splat` says. */
  lemma {:induction false} PayloadIs(front: seq<seq<byte>>, last: seq<byte>, splat: nat)
    ensures Payload(front + [last], splat) == Concat(front) + Repeat(last, splat)
  {
    if front == [] {
      assert front + [last] == [last];
      assert Concat(front) + Repeat(last, splat) == Repeat(last, splat);
    } else {
      PayloadIs(front[1..], last, splat);
      assert (front + [last])[1..] == front[1..] + [last];
      Chained(front[0], Concat(front[1..]), Repeat(last, splat));
    }
  }

  lemma Chained(a: seq<byte>, b: seq<byte>, c: seq<byte>)
    ensures a + (b + c) == (a + b) + c
  {
  }

  /** Octet `i` of a slice repeated is octet `i` modulo its length, and there are as many as it takes. */
  lemma {:induction false} RepeatIs(slice: seq<byte>, times: nat, i: nat)
    requires slice != []
    ensures |Repeat(slice, times)| == times * |slice|
    ensures i < times * |slice| ==> Repeat(slice, times)[i] == slice[i % |slice|]
  {
    if times > 0 {
      OneMore(times, |slice|);
      if i < |slice| {
        RepeatIs(slice, times - 1, i);
        Small(i, |slice|);
      } else {
        RepeatIs(slice, times - 1, i - |slice|);
        Around(i, |slice|);
      }
    }
  }

  lemma OneMore(times: nat, n: nat)
    requires times > 0
    ensures times * n == n + (times - 1) * n
  {
  }

  lemma Small(i: nat, n: nat)
    requires i < n
    ensures i % n == i
  {
  }

  lemma Around(i: nat, n: nat)
    requires 0 < n <= i
    ensures i % n == (i - n) % n
  {
    var q, r := (i - n) / n, (i - n) % n;
    Distributes(n, q, 1);
    assert i == n * (q + 1) + r;
    Quotient(i, n, q + 1, r);
  }

  class Writer {
    const first: nat
    const cap: nat
    var nextSize: nat
    var list: seq<Part>
    var buffer: array<byte>
    var end: nat

    /** The sealed segments are distinct and apart from the buffer being filled. */
    ghost predicate Valid()
      reads this
    {
      && Sound(Shape())
      && Apart()
      && forall p <- list :: p.buf != buffer
    }

    ghost predicate Apart()
      reads this
    {
      && (forall p <- list :: 0 < p.len <= p.buf.Length)
      && forall i, j :: 0 <= i < j < |list| ==> list[i].buf != list[j].buf
    }

    ghost function Contents(): seq<byte>
      requires Valid()
      reads this, buffer, set p <- list :: p.buf
    {
      Flatten(list) + buffer[..end]
    }

    ghost function Shape(): Layout
      reads this
    {
      Layout(cap, nextSize, Shapes(list), buffer.Length, end)
    }

    constructor (first: nat, cap: nat)
      requires 0 < first && 0 < cap
      ensures Valid() && fresh(buffer) && list == [] && Contents() == []
      ensures this.first == first && this.cap == cap
      ensures Shape() == Start(first, cap)
    {
      this.first, this.cap, this.nextSize, this.list := first, cap, first, [];
      this.buffer, this.end := new byte[0], 0;
      new;
      Fresh();
    }

    /** Take a new segment. */
    method Fresh()
      requires 0 < nextSize && 0 < cap && Apart()
      modifies this
      ensures Valid() && fresh(buffer) && end == 0 && list == old(list) && buffer.Length == old(nextSize)
      ensures Shape() == SegmentLayout.Fresh(old(Shape()))
    {
      var buf := new byte[nextSize];
      nextSize := Min(nextSize * 2, cap);
      buffer, end := buf, 0;
    }

    /** The filled part of the buffer becomes the next part of the answer. */
    method Seal()
      requires Valid()
      modifies this
      ensures Apart() && end == 0 && buffer == old(buffer) && nextSize == old(nextSize)
      ensures list == if old(end) == 0 then old(list) else old(list) + [Part(buffer, old(end))]
      ensures Flatten(list) == old(Contents())
      ensures Shape() == SegmentLayout.Seal(old(Shape()))
    {
      if end == 0 {
        assert buffer[..0] == [];
        return;
      }
      ghost var before := Shapes(list);
      list := list + [Part(buffer, end)];
      assert list[..|list| - 1] == old(list);
      assert Shapes(list) == before + [Sealed(buffer.Length, end)];
      end := 0;
    }

    /** No room is left: seal, and take a new segment. */
    method NextSegment()
      requires Valid() && end == buffer.Length
      modifies this
      ensures Valid() && fresh(buffer) && buffer.Length > 0 && end == 0 && old(list) <= list
      ensures Contents() == old(Contents())
      ensures Shape() == SegmentLayout.Fresh(SegmentLayout.Seal(old(Shape())))
    {
      Seal();
      Fresh();
      assert buffer[..end] == [];
    }

    /** As much of `rest` as there is room for. */
    method CopyIn(rest: seq<byte>) returns (n: nat)
      requires Valid()
      modifies this`end, buffer
      ensures Valid() && n == Min(buffer.Length - old(end), |rest|) && end == old(end) + n
      ensures Contents() == old(Contents()) + rest[..n]
    {
      hide Flatten;
      n := Min(buffer.Length - end, |rest|);
      forall k | 0 <= k < n { buffer[end + k] := rest[k]; }
      assert Flatten(list) == old(Flatten(list));
      assert buffer[..end + n] == old(buffer[..end]) + rest[..n];
      end := end + n;
    }

    /** The innermost loop of `drain`: one slice, copied into what room there is, segment after
        segment. */
    method TakeSlice(slice: seq<byte>)
      requires Valid()
      modifies this, buffer
      ensures Valid() && (buffer == old(buffer) || fresh(buffer)) && old(list) <= list
      ensures Contents() == old(Contents()) + slice
      ensures Shape() == Fill(old(Shape()), |slice|)
    {
      hide Flatten, Contents;
      var rest := slice;
      ghost var done := [];
      assert Contents() + [] == Contents();
      while |rest| > 0
        invariant Valid() && (buffer == old(buffer) || fresh(buffer)) && old(list) <= list
        invariant done + rest == slice && Contents() == old(Contents()) + done
        invariant Fill(Shape(), |rest|) == Fill(old(Shape()), |slice|)
        decreases |rest|, if buffer.Length - end == 0 then 1 else 0
      {
        if buffer.Length - end == 0 {
          NextSegment();
          continue;
        }
        var n := CopyIn(rest);
        assert slice == (done + rest[..n]) + rest[n..];
        assert old(Contents()) + done + rest[..n] == old(Contents()) + (done + rest[..n]);
        done := done + rest[..n];
        rest := rest[n..];
      }
      assert done == slice;
    }

    /** One slice as often as `drain` is to write it. */
    method TakeTimes(slice: seq<byte>, times: nat) returns (taken: nat)
      requires Valid()
      modifies this, buffer
      ensures Valid() && (buffer == old(buffer) || fresh(buffer)) && old(list) <= list
      ensures Contents() == old(Contents()) + Repeat(slice, times) && taken == |Repeat(slice, times)|
      ensures Shape() == Fill(old(Shape()), |Repeat(slice, times)|)
    {
      hide Flatten, Contents, Fill;
      taken := 0;
      ghost var all := Repeat(slice, times);
      for t := 0 to times
        invariant Valid() && (buffer == old(buffer) || fresh(buffer)) && old(list) <= list
        invariant Contents() + Repeat(slice, times - t) == old(Contents()) + all
        invariant taken + |Repeat(slice, times - t)| == |all|
        invariant Fill(Shape(), |Repeat(slice, times - t)|) == Fill(old(Shape()), |all|)
      {
        ghost var later := Repeat(slice, times - t - 1);
        assert Repeat(slice, times - t) == slice + later;
        ghost var had := Contents();
        assert had + (slice + later) == (had + slice) + later;
        FillSplits(Shape(), |slice|, |later|);
        TakeSlice(slice);
        taken := taken + |slice|;
      }
      assert Contents() + [] == Contents();
      FillNothing(Shape());
    }

    /** The start of `drain`: the buffer, however full, is sealed and let go. */
    method LetGo()
      requires Valid()
      modifies this
      ensures Valid() && fresh(buffer) && buffer.Length == 0 && old(list) <= list
      ensures Contents() == old(Contents())
      ensures Shape() == SegmentLayout.Seal(old(Shape())).(room := 0)
    {
      hide Flatten, SegmentLayout.Seal;
      Seal();
      SealSound(old(Shape()));
      buffer := new byte[0];
      assert buffer[..0] == [];
    }

    /** `drain`: whatever is buffered is sealed, and all of `data` goes into segments taken after
        it. Only `this` is modified: no octet already written, sealed or buffered, is written again. */
    method Drain(data: seq<seq<byte>>, splat: nat) returns (taken: nat)
      requires Valid()
      modifies this
      ensures Valid() && fresh(buffer) && old(list) <= list
      ensures Contents() == old(Contents()) + Payload(data, splat) && taken == |Payload(data, splat)|
      ensures Shape() == SegmentLayout.Drain(old(Shape()), |Payload(data, splat)|)
    {
      hide Flatten, Contents, Payload, Repeat, Fill, SegmentLayout.Seal, SegmentLayout.Drain, Shapes, Apart;
      ghost var all := Payload(data, splat);
      ghost var whole := Contents() + all;
      EmptyPayload(splat);
      LetGo();
      ghost var end := SegmentLayout.Drain(old(Shape()), |all|);
      DrainFills(old(Shape()), |all|);
      taken := 0;
      ghost var left := all;
      assert data[0..] == data;
      for i := 0 to |data|
        invariant Valid() && fresh(buffer) && old(list) <= list
        invariant left == Payload(data[i..], splat)
        invariant Contents() + left == whole && taken + |left| == |all| && Fill(Shape(), |left|) == end
      {
        var times := if i == |data| - 1 then splat else 1;
        PayloadTurn(data, splat, i, Contents());
        left := Payload(data[i + 1..], splat);
        FillSplits(Shape(), |Repeat(data[i], times)|, |left|);
        var n := TakeTimes(data[i], times);
        taken := taken + n;
      }
      assert data[|data|..] == [] && Contents() + [] == Contents();
      FillNothing(Shape());
    }

    /** The buffered write in front of `drain`: a copy when it fits, `drain` when it does not. */
    method Put(bytes: seq<byte>) returns (n: nat)
      requires Valid()
      modifies this, buffer
      ensures Valid() && (buffer == old(buffer) || fresh(buffer)) && old(list) <= list
      ensures Contents() == old(Contents()) + bytes && n == |bytes|
      ensures Shape() == SegmentLayout.Put(old(Shape()), |bytes|)
    {
      hide Fill;
      if end + |bytes| <= buffer.Length {
        n := CopyIn(bytes);
        assert bytes[..n] == bytes;
      } else {
        n := Drain([bytes], 1);
        assert Repeat(bytes, 1) == bytes + Repeat(bytes, 0) == bytes;
      }
    }

    /** Flush, and hand back the parts: everything written, in order. */
    method Finish() returns (parts: seq<Part>)
      requires Valid()
      modifies this
      ensures parts == list && Apart() && end == 0
      ensures Flatten(parts) == old(Contents())
      ensures Shapes(parts) == SegmentLayout.Seal(old(Shape())).list
    {
      if end != 0 {
        var n := Drain([[]], 1);
        assert Repeat([], 1) == [] + Repeat([], 0) == [];
        FillNothing(SegmentLayout.Seal(old(Shape())).(room := 0));
      }
      assert buffer[..0] == [];
      assert Contents() == Flatten(list);
      return list;
    }
  }

  lemma SealSound(s: Layout)
    requires Sound(s)
    ensures Sound(SegmentLayout.Seal(s).(room := 0)) && SegmentLayout.Seal(s).end == 0
  {
  }

  lemma DrainFills(s: Layout, n: nat)
    requires Sound(s)
    ensures SegmentLayout.Drain(s, n) == Fill(SegmentLayout.Seal(s).(room := 0), n)
  {
  }

  lemma FillNothing(s: Layout)
    requires Sound(s)
    ensures Fill(s, 0) == s
  {
  }

  lemma EmptyPayload(splat: nat)
    ensures Payload([], splat) == []
  {
  }

  /** One slice of a vectored write, and what is left behind it. */
  lemma PayloadTurn(data: seq<seq<byte>>, splat: nat, i: nat, had: seq<byte>)
    requires i < |data|
    ensures var now := Repeat(data[i], if i == |data| - 1 then splat else 1);
            var after := Payload(data[i + 1..], splat);
            && had + Payload(data[i..], splat) == had + now + after
            && |Payload(data[i..], splat)| == |now| + |after|
  {
    assert data[i..][1..] == data[i + 1..];
    assert Repeat(data[i], 1) == data[i] + Repeat(data[i], 0) == data[i];
    var now := Repeat(data[i], if i == |data| - 1 then splat else 1);
    assert Payload(data[i..], splat) == now + Payload(data[i + 1..], splat);
  }

  // ---- an answer ----

  lemma ConcatStep(writes: seq<seq<byte>>, i: nat)
    requires i <= |writes|
    ensures Concat(writes[i..]) == if i < |writes| then writes[i] + Concat(writes[i + 1..]) else []
  {
    if i < |writes| { assert writes[i..][1..] == writes[i + 1..]; }
  }

  /** A body written piece by piece and finished. */
  method Body(first: nat, writes: seq<seq<byte>>) returns (parts: seq<Part>)
    requires 0 < first <= 4096
    ensures forall p <- parts :: p.len <= p.buf.Length
    ensures Flatten(parts) == Concat(writes)
    ensures Shapes(parts) == Parts(first, 4096, Lengths(writes))
  {
    var w := new Writer(first, 4096);
    hide Flatten, Writer.Contents, Writer.Apart, SegmentLayout.Put, SegmentLayout.Seal, Start, Shapes, Concat, PutAll, Lengths;
    ghost var lens, start := Lengths(writes), Start(first, 4096);
    ConcatStep(writes, 0);
    NonePut(start, lens);
    assert writes[0..] == writes;
    assert w.Contents() + Concat(writes) == Concat(writes);
    for i := 0 to |writes|
      invariant w.Valid() && fresh(w) && fresh(w.buffer)
      invariant w.Contents() + Concat(writes[i..]) == Concat(writes)
      invariant w.Shape() == PutAll(start, lens[..i])
    {
      ConcatStep(writes, i);
      OnePut(start, writes, i);
      Regroup(w.Contents(), writes[i], Concat(writes[i + 1..]));
      var n := w.Put(writes[i]);
    }
    ConcatStep(writes, |writes|);
    assert w.Contents() + [] == w.Contents();
    assert lens[..|writes|] == lens;
    parts := w.Finish();
  }

  lemma Regroup(had: seq<byte>, now: seq<byte>, later: seq<byte>)
    ensures had + (now + later) == (had + now) + later
  {
  }

  lemma NonePut(s: Layout, lens: seq<nat>)
    requires Sound(s)
    ensures PutAll(s, lens[..0]) == s
  {
  }

  lemma OnePut(s: Layout, writes: seq<seq<byte>>, i: nat)
    requires Sound(s) && i < |writes|
    ensures PutAll(s, Lengths(writes)[..i + 1]) == SegmentLayout.Put(PutAll(s, Lengths(writes)[..i]), |writes[i]|)
  {
    assert Lengths(writes)[..i + 1][..i] == Lengths(writes)[..i];
  }

  /** One answer: its parts behind the head, in the 64 iovecs there is room for. Nothing in the
      source looks at the room; the copy is out of bounds exactly when `fits` is false, which no
      body below the size's limit makes it. */
  method Answer(first: nat, writes: seq<seq<byte>>, head: Part, iov: array<Part>) returns (fits: bool, count: nat)
    requires (first == 512 || first == 4096) && iov.Length == 64
    modifies iov
    ensures count == |Parts(first, 4096, Lengths(writes))| + 1 && (fits <==> count <= 64)
    ensures |Concat(writes)| < Limit(first) ==> fits
    ensures fits ==> iov[0] == head && (forall p <- iov[1..count] :: p.len <= p.buf.Length)
    ensures fits ==> Flatten(iov[1..count]) == Concat(writes)
    ensures !fits ==> iov[..] == old(iov[..])
  {
    hide Flatten, Concat, Parts, AlwaysUnder;
    var parts := Body(first, writes);
    count := |parts| + 1;
    fits := count <= 64;
    LengthsAddUp(writes);
    VariantFitsExactly(first, |Concat(writes)|);
    if |Concat(writes)| < Limit(first) { FitsUnder(first, Lengths(writes), 64); }
    if !fits { return; }
    iov[0] := head;
    forall k | 0 <= k < |parts| { iov[1 + k] := parts[k]; }
    assert iov[1..count] == parts;
  }

  lemma FitsUnder(first: nat, writes: seq<nat>, segments: nat)
    requires 0 < first && AlwaysUnder(first, 4096, Sum(writes), segments)
    ensures |Parts(first, 4096, writes)| < segments
  {
  }

  function Zeros(lens: seq<nat>): seq<seq<byte>> {
    seq(|lens|, i requires 0 <= i < |lens| => seq(lens[i], _ => 0))
  }

  /** At the limit and at every size past it there are writes whose answer does not fit. */
  lemma RoomRunsOut(first: nat, n: nat) returns (writes: seq<seq<byte>>)
    requires (first == 512 || first == 4096) && n >= Limit(first)
    ensures |Concat(writes)| == n && |Parts(first, 4096, Lengths(writes))| + 1 > 64
  {
    hide Parts, Sum, Concat;
    VariantFitsExactly(first, n);
    var lens: seq<nat> :| Sum(lens) == n && |Parts(first, 4096, lens)| >= 64;
    writes := Zeros(lens);
    assert Lengths(writes) == lens;
    LengthsAddUp(writes);
  }
}
