/** The segment writer's bookkeeping without its octets (bench/json_segments.zig:70-119): how a
    sequence of writes falls into segments, and exactly how many segments so many octets can take. */
module SegmentLayout {

  function Min(a: nat, b: nat): nat { if a < b then a else b }

  /** The size of the k-th segment taken: doubling, up to the cap. */
  function Schedule(first: nat, cap: nat, k: nat): nat {
    if k == 0 then first else Min(2 * Schedule(first, cap, k - 1), cap)
  }

  /** A sealed segment: the room it had and how much of it was written. */
  datatype Sealed = Sealed(room: nat, len: nat)

  /** The sealed segments, and the one being filled: its room and how much of it is taken. */
  datatype Layout = Layout(cap: nat, nextSize: nat, list: seq<Sealed>, room: nat, end: nat)

  function Start(first: nat, cap: nat): Layout {
    Fresh(Layout(cap, first, [], 0, 0))
  }

  function Fresh(s: Layout): Layout {
    s.(nextSize := Min(s.nextSize * 2, s.cap), room := s.nextSize, end := 0)
  }

  function Seal(s: Layout): Layout {
    if s.end == 0 then s else s.(list := s.list + [Sealed(s.room, s.end)], end := 0)
  }

  predicate Sound(s: Layout) {
    s.end <= s.room && 0 < s.nextSize && 0 < s.cap
  }

  /** The innermost loop of `drain` on `n` octets. */
  function Fill(s: Layout, n: nat): (r: Layout)
    requires Sound(s)
    ensures Sound(r) && r.cap == s.cap
    decreases n, s.room == s.end
  {
    if n == 0 then s
    else if s.room == s.end then Fill(Fresh(Seal(s)), n)
    else
      var m := Min(s.room - s.end, n);
      Fill(s.(end := s.end + m), n - m)
  }

  /** `drain` with `n` octets. */
  function Drain(s: Layout, n: nat): (r: Layout)
    requires Sound(s)
    ensures Sound(r) && r.cap == s.cap
  {
    Fill(Seal(s).(room := 0), n)
  }

  function Put(s: Layout, n: nat): (r: Layout)
    requires Sound(s)
    ensures Sound(r) && r.cap == s.cap
  {
    if s.end + n <= s.room then s.(end := s.end + n) else Drain(s, n)
  }

  function PutAll(s: Layout, writes: seq<nat>): (r: Layout)
    requires Sound(s)
    ensures Sound(r) && r.cap == s.cap
  {
    if writes == [] then s else Put(PutAll(s, writes[..|writes| - 1]), writes[|writes| - 1])
  }

  /** The segments `finish` hands back. */
  function Parts(first: nat, cap: nat, writes: seq<nat>): seq<Sealed>
    requires 0 < first && 0 < cap
  {
    Seal(PutAll(Start(first, cap), writes)).list
  }

  function Sum(writes: seq<nat>): nat {
    if writes == [] then 0 else Sum(writes[..|writes| - 1]) + writes[|writes| - 1]
  }

  lemma {:induction false} FillSplits(s: Layout, n: nat, m: nat)
    requires Sound(s)
    ensures Fill(s, n + m) == Fill(Fill(s, n), m)
    decreases n, s.room == s.end
  {
    if n == 0 {
    } else if s.room == s.end {
      FillSplits(Fresh(Seal(s)), n, m);
    } else {
      var took := Min(s.room - s.end, n);
      FillSplits(s.(end := s.end + took), n - took, m);
      if took < n {
        assert Min(s.room - s.end, n + m) == took;
      } else if m > 0 {
        SplitsInside(s, n, m);
      }
    }
  }

  /** Room for all of the first part. */
  lemma SplitsInside(s: Layout, n: nat, m: nat)
    requires Sound(s) && 0 < n <= s.room - s.end && m > 0
    ensures Fill(s, n + m) == Fill(s.(end := s.end + n), m)
  {
    if n == s.room - s.end {
    } else {
      var took := Min(s.room - s.end, n + m);
      assert Fill(s, n + m) == Fill(s.(end := s.end + took), n + m - took);
    }
  }

  // ---- what the segments hold between them ----

  /** Sizes only grow, and are at least what the schedule says. */
  ghost predicate Sized(first: nat, s: Layout) {
    && first <= s.cap && s.nextSize <= s.cap
    && (forall k | 0 <= k < |s.list| :: Schedule(first, s.cap, k) <= s.list[k].room <= s.nextSize && 0 < s.list[k].len)
    && Schedule(first, s.cap, |s.list|) <= s.nextSize
    && (s.room > 0 ==>
          && Schedule(first, s.cap, |s.list|) <= s.room <= s.nextSize
          && Schedule(first, s.cap, |s.list| + 1) <= s.nextSize
          && forall k | 0 <= k < |s.list| :: s.list[k].room <= s.room)
  }

  /** A sealed segment and its neighbour together hold more than the segment could. */
  ghost predicate Neighbours(list: seq<Sealed>) {
    forall k | 0 <= k < |list| - 1 :: list[k].len + list[k + 1].len > list[k].room
  }

  /** The last sealed segment and what is behind it do too. */
  ghost predicate Pending(s: Layout, more: nat) {
    s.list != [] ==> s.list[|s.list| - 1].len + s.end + more > s.list[|s.list| - 1].room
  }

  ghost predicate Tight(first: nat, s: Layout, more: nat) {
    Sized(first, s) && Neighbours(s.list) && Pending(s, more)
  }

  lemma StartTight(first: nat, cap: nat)
    requires 0 < first <= cap
    ensures Tight(first, Start(first, cap), 0)
  {
  }

  /** A segment with nothing more to come in it is sealed, and the next is taken or not. */
  lemma SealKeeps(first: nat, s: Layout, more: nat)
    requires Sound(s) && Tight(first, s, 0)
    ensures Sized(first, Seal(s).(room := 0)) && Neighbours(Seal(s).list)
    ensures more > s.room - s.end ==> Tight(first, Seal(s).(room := 0), more)
  {
    hide Schedule;
  }

  lemma FreshKeeps(first: nat, s: Layout, more: nat)
    requires Sound(s) && Tight(first, s.(room := 0), more) && s.end == 0
    ensures Tight(first, Fresh(s), more)
  {
    assert Schedule(first, s.cap, |s.list| + 1) == Min(2 * Schedule(first, s.cap, |s.list|), s.cap);
    hide Schedule;
  }

  lemma {:induction false} FillKeeps(first: nat, s: Layout, n: nat)
    requires Sound(s) && Tight(first, s, n)
    ensures Tight(first, Fill(s, n), 0)
    decreases n, s.room == s.end
  {
    hide Schedule;
    if n == 0 {
    } else if s.room == s.end {
      TurnKeeps(first, s, n);
      hide Tight;
      FillKeeps(first, Fresh(Seal(s)), n);
    } else {
      var m := Min(s.room - s.end, n);
      assert Tight(first, s.(end := s.end + m), n - m);
      hide Tight;
      FillKeeps(first, s.(end := s.end + m), n - m);
    }
  }

  /** A full segment, with more to come: it is sealed and the next one taken. */
  lemma TurnKeeps(first: nat, s: Layout, n: nat)
    requires Sound(s) && Tight(first, s, n) && s.room == s.end && n > 0
    ensures Tight(first, Fresh(Seal(s)), n)
  {
    hide Schedule;
    if s.end > 0 && s.list != [] {
      assert s.list[|s.list| - 1].len + s.end > s.list[|s.list| - 1].room;
    }
    assert Tight(first, Seal(s).(room := 0), n);
    FreshKeeps(first, Seal(s), n);
  }

  lemma PutKeeps(first: nat, s: Layout, n: nat)
    requires Sound(s) && Tight(first, s, 0)
    ensures Tight(first, Put(s, n), 0)
  {
    hide Schedule, Fill;
    if s.end + n > s.room {
      SealKeeps(first, s, n);
      FillKeeps(first, Seal(s).(room := 0), n);
    }
  }

  lemma {:induction false} PutAllKeeps(first: nat, cap: nat, writes: seq<nat>)
    requires 0 < first <= cap
    ensures Tight(first, PutAll(Start(first, cap), writes), 0)
  {
    if writes == [] {
      StartTight(first, cap);
    } else {
      hide Tight, Put, Start;
      PutAllKeeps(first, cap, writes[..|writes| - 1]);
      PutKeeps(first, PutAll(Start(first, cap), writes[..|writes| - 1]), writes[|writes| - 1]);
    }
  }

  // ---- nothing is lost ----

  function Held(list: seq<Sealed>): nat {
    if list == [] then 0 else Held(list[..|list| - 1]) + list[|list| - 1].len
  }

  lemma {:induction false} FillHolds(s: Layout, n: nat)
    requires Sound(s)
    ensures Held(Fill(s, n).list) + Fill(s, n).end == Held(s.list) + s.end + n
    decreases n, s.room == s.end
  {
    if n == 0 {
    } else if s.room == s.end {
      SealHolds(s);
      FillHolds(Fresh(Seal(s)), n);
    } else {
      var m := Min(s.room - s.end, n);
      FillHolds(s.(end := s.end + m), n - m);
    }
  }

  lemma SealHolds(s: Layout)
    ensures Held(Seal(s).list) == Held(s.list) + s.end
  {
    if s.end > 0 { assert Seal(s).list[..|s.list|] == s.list; }
  }

  lemma {:induction false} PartsHold(first: nat, cap: nat, writes: seq<nat>)
    requires 0 < first && 0 < cap
    ensures var s := PutAll(Start(first, cap), writes); Held(s.list) + s.end == Sum(writes)
    ensures Held(Parts(first, cap, writes)) == Sum(writes)
  {
    var s := PutAll(Start(first, cap), writes);
    SealHolds(s);
    if writes != [] {
      PartsHold(first, cap, writes[..|writes| - 1]);
      var before, n := PutAll(Start(first, cap), writes[..|writes| - 1]), writes[|writes| - 1];
      if before.end + n > before.room {
        SealHolds(before);
        FillHolds(Seal(before).(room := 0), n);
      }
    }
  }

  // ---- how many parts there can be ----

  /** The least that `pairs` pairs of neighbours hold between them. */
  function Least(first: nat, cap: nat, pairs: nat): nat {
    if pairs == 0 then 0 else Least(first, cap, pairs - 1) + Schedule(first, cap, 2 * (pairs - 1)) + 1
  }

  lemma {:induction false} PairsHold(first: nat, s: Layout, pairs: nat)
    requires Sized(first, s) && Neighbours(s.list) && 2 * pairs <= |s.list|
    ensures Held(s.list[..2 * pairs]) >= Least(first, s.cap, pairs)
    decreases pairs
  {
    if pairs > 0 {
      var k := 2 * (pairs - 1);
      PairsHold(first, s, pairs - 1);
      hide Schedule;
      assert s.list[..k + 2][..k + 1] == s.list[..k + 1] && s.list[..k + 1][..k] == s.list[..k];
      assert s.list[k].len + s.list[k + 1].len > s.list[k].room >= Schedule(first, s.cap, k);
    }
  }

  lemma {:induction false} HeldGrows(list: seq<Sealed>, k: nat)
    requires k <= |list|
    ensures Held(list[..k]) <= Held(list)
    decreases |list|
  {
    if k == |list| { assert list[..k] == list; } else {
      assert list[..|list| - 1][..k] == list[..k];
      HeldGrows(list[..|list| - 1], k);
    }
  }

  /** Too few octets for that many pairs: fewer than twice that many parts. */
  lemma PartsBound(first: nat, cap: nat, writes: seq<nat>, pairs: nat)
    requires 0 < first <= cap && Sum(writes) < Least(first, cap, pairs)
    ensures |Parts(first, cap, writes)| < 2 * pairs
  {
    var s := PutAll(Start(first, cap), writes);
    PutAllKeeps(first, cap, writes);
    SealKeeps(first, s, 0);
    PartsHold(first, cap, writes);
    hide PutAll, Schedule, Sized, Neighbours;
    var parts := Parts(first, cap, writes);
    if |parts| >= 2 * pairs {
      PairsHold(first, Seal(s).(room := 0), pairs);
      HeldGrows(parts, 2 * pairs);
    }
  }

  // ---- and that there can be so many ----

  /** The k-th of the writes that waste the most: just too long for what its segment has left. */
  function Greedy(first: nat, cap: nat, k: nat): (n: nat)
    requires 0 < first <= cap
    ensures 0 < n <= Schedule(first, cap, k)
  {
    ScheduleGrows(first, cap, if k == 0 then 0 else k - 1, k);
    if k == 0 then 1 else Schedule(first, cap, k - 1) + 1 - Greedy(first, cap, k - 1)
  }

  lemma {:induction false} ScheduleGrows(first: nat, cap: nat, j: nat, k: nat)
    requires 0 < first <= cap && j <= k
    ensures 0 < Schedule(first, cap, j) <= Schedule(first, cap, k) <= cap
    decreases k
  {
    if j < k { ScheduleGrows(first, cap, j, k - 1); } else if k > 0 { ScheduleGrows(first, cap, k - 1, k - 1); }
  }

  function GreedyWrites(first: nat, cap: nat, count: nat): (writes: seq<nat>)
    requires 0 < first <= cap
    ensures |writes| == count
  {
    if count == 0 then [] else GreedyWrites(first, cap, count - 1) + [Greedy(first, cap, count - 1)]
  }

  /** Each of them finds its segment too full and takes the next. */
  lemma {:induction false} GreedyLands(first: nat, cap: nat, count: nat)
    requires 0 < first <= cap && count > 0
    ensures var s := PutAll(Start(first, cap), GreedyWrites(first, cap, count));
            && |s.list| == count - 1 && s.end == Greedy(first, cap, count - 1)
            && s.room == Schedule(first, cap, count - 1) && s.nextSize == Schedule(first, cap, count)
  {
    var writes := GreedyWrites(first, cap, count);
    assert writes[..count - 1] == GreedyWrites(first, cap, count - 1);
    var n := Greedy(first, cap, count - 1);
    if count == 1 {
      assert PutAll(Start(first, cap), GreedyWrites(first, cap, 0)) == Start(first, cap);
    } else {
      GreedyLands(first, cap, count - 1);
      var s := PutAll(Start(first, cap), GreedyWrites(first, cap, count - 1));
      assert n == Schedule(first, cap, count - 2) + 1 - Greedy(first, cap, count - 2);
      TakesTheNext(s, n);
    }
  }

  lemma TakesTheNext(s: Layout, n: nat)
    requires Sound(s) && 0 < s.end && s.end + n > s.room && 0 < n <= s.nextSize
    ensures var r := Put(s, n);
            |r.list| == |s.list| + 1 && r.end == n && r.room == s.nextSize && r.nextSize == Min(s.nextSize * 2, s.cap)
  {
    var empty := Seal(s).(room := 0);
    var next := Fresh(empty);
    assert Fill(empty, n) == Fill(next, n);
    assert Fill(next, n) == Fill(next.(end := n), 0);
  }

  lemma {:induction false} GreedySum(first: nat, cap: nat, pairs: nat)
    requires 0 < first <= cap
    ensures Sum(GreedyWrites(first, cap, 2 * pairs)) == Least(first, cap, pairs)
  {
    hide Schedule, Greedy;
    if pairs > 0 {
      GreedySum(first, cap, pairs - 1);
      var k := 2 * (pairs - 1);
      assert 2 * pairs == k + 2;
      TwoGreedy(first, cap, k);
    }
  }

  /** A pair of them holds one more than its first segment has room for. */
  lemma TwoGreedy(first: nat, cap: nat, k: nat)
    requires 0 < first <= cap
    ensures Sum(GreedyWrites(first, cap, k + 2)) == Sum(GreedyWrites(first, cap, k)) + Schedule(first, cap, k) + 1
  {
    assert Greedy(first, cap, k + 1) == Schedule(first, cap, k) + 1 - Greedy(first, cap, k);
    hide Schedule, Greedy, Sum, GreedyWrites;
    OneGreedy(first, cap, k);
    OneGreedy(first, cap, k + 1);
  }

  lemma OneGreedy(first: nat, cap: nat, k: nat)
    requires 0 < first <= cap
    ensures Sum(GreedyWrites(first, cap, k + 1)) == Sum(GreedyWrites(first, cap, k)) + Greedy(first, cap, k)
  {
    hide Greedy;
    assert GreedyWrites(first, cap, k + 1)[..k] == GreedyWrites(first, cap, k);
  }

  /** Writes of so many octets that take at least twice that many segments. */
  lemma Overflowing(first: nat, cap: nat, pairs: nat, n: nat) returns (writes: seq<nat>)
    requires 0 < first <= cap && pairs > 0 && n >= Least(first, cap, pairs)
    ensures Sum(writes) == n && |Parts(first, cap, writes)| >= 2 * pairs
  {
    var greedy := GreedyWrites(first, cap, 2 * pairs);
    writes := greedy + [n - Least(first, cap, pairs)];
    assert writes[..|greedy|] == greedy;
    GreedySum(first, cap, pairs);
    GreedyLands(first, cap, 2 * pairs);
    PutLeavesAsMany(PutAll(Start(first, cap), greedy), n - Least(first, cap, pairs));
  }

  lemma PutLeavesAsMany(s: Layout, n: nat)
    requires Sound(s) && s.end > 0
    ensures |Seal(Put(s, n)).list| >= |s.list| + 1
  {
    if s.end + n > s.room { FillLeavesAsMany(Seal(s).(room := 0), n); }
  }

  lemma {:induction false} FillLeavesAsMany(s: Layout, n: nat)
    requires Sound(s)
    ensures |Fill(s, n).list| >= |s.list|
    decreases n, s.room == s.end
  {
    if n == 0 {
    } else if s.room == s.end {
      FillLeavesAsMany(Fresh(Seal(s)), n);
    } else {
      FillLeavesAsMany(s.(end := s.end + Min(s.room - s.end, n)), n - Min(s.room - s.end, n));
    }
  }

  /** Every way of writing `n` octets takes fewer than so many segments exactly when `n` is less
      than that many neighbours must hold. */
  ghost predicate AlwaysUnder(first: nat, cap: nat, n: nat, segments: nat)
    requires 0 < first && 0 < cap
  {
    forall writes: seq<nat> | Sum(writes) == n :: |Parts(first, cap, writes)| < segments
  }

  lemma FitsExactly(first: nat, cap: nat, n: nat, pairs: nat)
    requires 0 < first <= cap && pairs > 0
    ensures AlwaysUnder(first, cap, n, 2 * pairs) <==> n < Least(first, cap, pairs)
  {
    hide Parts, Sum;
    if n < Least(first, cap, pairs) {
      forall writes: seq<nat> | Sum(writes) == n ensures |Parts(first, cap, writes)| < 2 * pairs {
        PartsBound(first, cap, writes, pairs);
      }
    } else {
      var writes := Overflowing(first, cap, pairs, n);
    }
  }

  // ---- the two variants ----

  lemma ScheduleDoubles(k: nat)
    ensures Schedule(512, 4096, k) == if k == 0 then 512 else if k == 1 then 1024 else if k == 2 then 2048 else 4096
  {
    if k > 3 { ScheduleDoubles(k - 1); }
  }

  lemma ScheduleFlat(k: nat)
    ensures Schedule(4096, 4096, k) == 4096
  {
  }

  lemma {:induction false} LeastDoubling(pairs: nat)
    requires pairs >= 2
    ensures Least(512, 4096, pairs) == 2562 + 4097 * (pairs - 2)
    decreases pairs
  {
    ScheduleDoubles(2 * (pairs - 1));
    if pairs == 2 {
      ScheduleDoubles(0);
      assert Least(512, 4096, 1) == 513;
    } else {
      LeastDoubling(pairs - 1);
    }
  }

  lemma {:induction false} LeastFlat(pairs: nat)
    ensures Least(4096, 4096, pairs) == 4097 * pairs
    decreases pairs
  {
    if pairs > 0 {
      ScheduleFlat(2 * (pairs - 1));
      LeastFlat(pairs - 1);
    }
  }

  /** The body sizes whose iovecs, with the head's, always fit in 64. */
  function Limit(first: nat): nat {
    if first == 4096 then 131104 else 125472
  }

  /** Under each of the benchmark's two sizes, every way of writing `n` octets fits head and body in
      64 iovecs if and only if `n` is below that size's limit. */
  lemma VariantFitsExactly(first: nat, n: nat)
    requires first == 512 || first == 4096
    ensures AlwaysUnder(first, 4096, n, 64) <==> n < Limit(first)
  {
    hide AlwaysUnder, Least;
    FitsExactly(first, 4096, n, 32);
    LeastDoubling(32);
    LeastFlat(32);
  }

  /** And the benchmark's own bodies, of 16 KiB, take far fewer. */
  lemma SixteenKiB(first: nat, writes: seq<nat>)
    requires (first == 512 || first == 4096) && Sum(writes) <= 16384
    ensures |Parts(first, 4096, writes)| <= if first == 512 then 11 else 7
  {
    hide Parts, Sum;
    LeastDoubling(6);
    LeastFlat(4);
    PartsBound(first, 4096, writes, if first == 512 then 6 else 4);
  }
}
