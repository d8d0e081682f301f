/** Round-trip times kept as one histogram a connection, merged and read at a percentile
    (bench/compare/wsload/main.go:35, 91-117, 137-164). Exact reals stand for the floats. */
module Percentile {
  import Bytes

  const BUCKETS := 20000
  const TWO_32 := Bytes.TWO_32
  const TWO_64 := Bytes.TWO_64

  /** Below nothing is nothing, and past the last bucket is the tail. */
  function Clamp(us: int): nat {
    if us < 0 then 0 else if us >= BUCKETS then BUCKETS else us
  }

  /** How many of the times fall in bucket `b`. */
  function CountOf(times: seq<int>, b: int): nat {
    if times == [] then 0 else CountOf(times[..|times| - 1], b) + if Clamp(times[|times| - 1]) == b then 1 else 0
  }

  function Join(times: seq<seq<int>>): seq<int> {
    if times == [] then [] else Join(times[..|times| - 1]) + times[|times| - 1]
  }

  lemma {:induction false} CountJoins(a: seq<int>, c: seq<int>, b: int)
    ensures CountOf(a + c, b) == CountOf(a, b) + CountOf(c, b)
  {
    if c == [] {
      assert a + c == a;
    } else {
      CountJoins(a, c[..|c| - 1], b);
      assert (a + c)[..|a + c| - 1] == a + c[..|c| - 1];
    }
  }

  lemma CountsOneMore(times: seq<int>, elapsed: int)
    ensures forall b :: CountOf(times + [elapsed], b) == CountOf(times, b) + if Clamp(elapsed) == b then 1 else 0
    ensures forall b :: (CountOf(times, b) % TWO_32 + 1) % TWO_32 == (CountOf(times, b) + 1) % TWO_32
    ensures (|times| % TWO_64 + 1) % TWO_64 == |times + [elapsed]| % TWO_64
  {
    assert (times + [elapsed])[..|times|] == times;
    forall b ensures (CountOf(times, b) % TWO_32 + 1) % TWO_32 == (CountOf(times, b) + 1) % TWO_32 {
      Wraps32(CountOf(times, b), 1);
    }
    Wraps64(|times|, 1);
  }

  class Conn {
    const hist: array<nat>
    var ops: nat

    constructor ()
      ensures Recorded([]) && fresh(hist)
    {
      hist := new nat[BUCKETS + 1](_ => 0);
      ops := 0;
    }

    /** The counters after these times: 32 bits a bucket, 64 bits in all. */
    ghost predicate Recorded(times: seq<int>)
      reads this, hist
    {
      hist.Length == BUCKETS + 1 && ops == |times| % TWO_64
      && forall b | 0 <= b <= BUCKETS :: hist[b] == CountOf(times, b) % TWO_32
    }

    method Record(elapsed: int, ghost times: seq<int>)
      requires Recorded(times)
      modifies this, hist
      ensures Recorded(times + [elapsed])
    {
      var us := elapsed;
      if us < 0 { us := 0; }
      if us >= BUCKETS { us := BUCKETS; }
      CountsOneMore(times, elapsed);
      hide CountOf;
      hist[us] := (hist[us] + 1) % TWO_32;
      ops := (ops + 1) % TWO_64;
    }
  }

  /** What the merged histogram holds of all the times. */
  ghost predicate Merges(merged: seq<nat>, total: nat, all: seq<int>) {
    |merged| == BUCKETS + 1 && total == |all| % TWO_64
    && forall b | 0 <= b <= BUCKETS :: merged[b] == CountOf(all, b) % TWO_32
  }

  lemma AddsWrapped(a: nat, b: nat)
    ensures (a % TWO_32 + b % TWO_32) % TWO_32 == (a + b) % TWO_32
    ensures (a % TWO_64 + b % TWO_64) % TWO_64 == (a + b) % TWO_64
  {
    Wraps64(a, b % TWO_64);
    Wraps64(b, a);
    Wraps32(a, b % TWO_32);
    Wraps32(b, a);
  }

  lemma Remainder32(v: nat, q: nat, r: nat)
    requires v == q * TWO_32 + r && r < TWO_32
    ensures v % TWO_32 == r
  {
    var d := v / TWO_32 - q;
    assert d * TWO_32 == r - v % TWO_32;
    assert d < 1 && d > -1;
  }

  lemma Wraps64(a: nat, b: nat)
    ensures (a % TWO_64 + b) % TWO_64 == (a + b) % TWO_64
  {
    Bytes.Wraps64(a, b);
  }

  lemma Wraps32(a: nat, b: nat)
    ensures (a % TWO_32 + b) % TWO_32 == (a + b) % TWO_32
  {
    var q, r := a / TWO_32, a % TWO_32;
    var p, s := (r + b) / TWO_32, (r + b) % TWO_32;
    Remainder32(a + b, q + p, s);
  }

  lemma JoinStep(times: seq<seq<int>>, k: nat)
    requires k < |times|
    ensures Join(times[..k + 1]) == Join(times[..k]) + times[k]
  {
    assert times[..k + 1][..k] == times[..k];
  }

  lemma NothingMerged()
    ensures Join([]) == [] && forall b :: CountOf([], b) == 0
  {
  }

  method Merge(cs: seq<Conn>, ghost times: seq<seq<int>>) returns (merged: array<nat>, total: nat)
    requires |cs| == |times| && forall k | 0 <= k < |cs| :: cs[k].Recorded(times[k])
    ensures fresh(merged) && Merges(merged[..], total, Join(times))
  {
    hide CountOf, Join;
    total := 0;
    merged := new nat[BUCKETS + 1](_ => 0);
    NothingMerged();
    for k := 0 to |cs|
      invariant merged.Length == BUCKETS + 1 && total == |Join(times[..k])| % TWO_64
      invariant forall b | 0 <= b <= BUCKETS :: merged[b] == CountOf(Join(times[..k]), b) % TWO_32
    {
      ghost var before, now := Join(times[..k]), Join(times[..k + 1]);
      JoinStep(times, k);
      AddsWrapped(|before|, |times[k]|);
      assert cs[k].Recorded(times[k]);
      total := (total + cs[k].ops) % TWO_64;
      var hist := cs[k].hist;
      for i := 0 to BUCKETS + 1
        invariant forall b | 0 <= b < i :: merged[b] == CountOf(now, b) % TWO_32
        invariant forall b | i <= b <= BUCKETS :: merged[b] == CountOf(before, b) % TWO_32
      {
        CountJoins(before, times[k], i);
        AddsWrapped(CountOf(before, i), CountOf(times[k], i));
        merged[i] := (merged[i] + hist[i]) % TWO_32;
      }
    }
    assert times[..|cs|] == times;
  }

  // ---- the percentile ----

  datatype Answer = Unknown | Tail | Micros(us: nat)

  function Show(bucket: nat): Answer {
    if bucket >= BUCKETS then Tail else Micros(bucket)
  }

  /** The sum of the first `n` counts. */
  function Seen(m: seq<nat>, n: nat): nat
    requires n <= |m|
  {
    if n == 0 then 0 else Seen(m, n - 1) + m[n - 1]
  }

  /** Which of so many, counted from the shortest: `uint64(float64(total) * p)`. */
  function Rank(total: nat, p: real): int {
    (total as real * p).Floor
  }

  ghost predicate FirstReaching(m: seq<nat>, want: int, b: nat) {
    b < |m| && Seen(m, b + 1) >= want && forall j | 1 <= j <= b :: Seen(m, j) < want
  }

  /** `pct`: the first bucket by which so many have been seen. */
  method Pct(merged: array<nat>, total: nat, p: real) returns (r: Answer, ghost bucket: nat)
    requires merged.Length == BUCKETS + 1 && p >= 0.0
    ensures r.Unknown? ==> Seen(merged[..], merged.Length) < Rank(total, p)
    ensures !r.Unknown? ==> r == Show(bucket) && FirstReaching(merged[..], Rank(total, p), bucket)
  {
    var want := (total as real * p).Floor;
    var seen: nat := 0;
    for i := 0 to merged.Length
      invariant seen == Seen(merged[..], i) && forall j | 1 <= j <= i :: Seen(merged[..], j) < want
    {
      seen := seen + merged[i];
      if seen >= want {
        if i >= BUCKETS { return Tail, i; }
        return Micros(i), i;
      }
    }
    return Unknown, 0;
  }

  /** A time below twenty milliseconds shows as itself, a negative one as none, any other as the tail. */
  lemma ClampShows(us: int)
    ensures Show(Clamp(us)) == if us >= 20000 then Tail else if us >= 0 then Micros(us) else Micros(0)
    ensures 0 <= Clamp(us) <= BUCKETS
  {
  }

  /** How many of the times are in bucket `b` or below. */
  function AtMost(times: seq<int>, b: int): nat {
    if times == [] then 0 else AtMost(times[..|times| - 1], b) + if Clamp(times[|times| - 1]) <= b then 1 else 0
  }

  /** The `want`-th shortest, in its bucket. */
  ghost predicate Ranked(all: seq<int>, want: int, b: nat) {
    AtMost(all, b - 1) < want <= AtMost(all, b)
  }

  lemma {:induction false} AtMostAdds(all: seq<int>, b: int)
    ensures AtMost(all, b) == AtMost(all, b - 1) + CountOf(all, b)
  {
    if all != [] { AtMostAdds(all[..|all| - 1], b); }
  }

  lemma {:induction false} AtMostBounds(all: seq<int>, a: int, b: int)
    requires a <= b
    ensures AtMost(all, -1) == 0 && AtMost(all, a) <= AtMost(all, b) <= |all|
    ensures b >= BUCKETS ==> AtMost(all, b) == |all|
  {
    if all != [] { AtMostBounds(all[..|all| - 1], a, b); }
  }

  ghost predicate NoBucketWraps(all: seq<int>) {
    forall b | 0 <= b <= BUCKETS :: CountOf(all, b) < TWO_32
  }

  /** What is seen by a bucket is what is there, less what wrapped away. */
  lemma {:induction false} SeenIsAtMost(m: seq<nat>, total: nat, all: seq<int>, n: nat)
    requires Merges(m, total, all) && n <= BUCKETS + 1
    ensures Seen(m, n) <= AtMost(all, n - 1)
    ensures Seen(m, n) == AtMost(all, n - 1) <==> forall b | 0 <= b < n :: CountOf(all, b) < TWO_32
  {
    if n == 0 {
      AtMostBounds(all, -1, -1);
    } else {
      SeenIsAtMost(m, total, all, n - 1);
      AtMostAdds(all, n - 1);
    }
  }

  /** The whole part of the share, as the conversion drops the rest. */
  lemma RankIs(total: nat, p: real)
    ensures Rank(total, p) as real <= total as real * p < Rank(total, p) as real + 1.0
  {
  }

  lemma RankBounds(total: nat, p: real)
    requires 0.0 <= p <= 1.0
    ensures 0 <= Rank(total, p) <= total && Rank(total, 1.0) == total
  {
    ScalesUp(total as real, p, 1.0);
    ScalesUp(total as real, 0.0, p);
  }

  /** With nothing wrapped, the first bucket reaching a rank is where that rank falls. */
  lemma ReachesRanked(m: seq<nat>, total: nat, all: seq<int>, want: nat, b: nat)
    requires Merges(m, total, all) && NoBucketWraps(all) && 1 <= want <= |all|
    ensures FirstReaching(m, want, b) <==> Ranked(all, want, b)
  {
    AtMostBounds(all, b - 1, b);
    if b <= BUCKETS {
      SeenIsAtMost(m, total, all, b);
      SeenIsAtMost(m, total, all, b + 1);
      hide Merges, NoBucketWraps, AtMost;
      forall j | 1 <= j <= b ensures Seen(m, j) <= Seen(m, b) {
        SeenGrows(m, j, b);
      }
      assert b == 0 ==> Seen(m, b) == 0;
    } else {
      AtMostBounds(all, b - 1, b - 1);
    }
  }

  lemma {:induction false} SeenGrows(m: seq<nat>, j: nat, b: nat)
    requires j <= b <= |m|
    ensures Seen(m, j) <= Seen(m, b)
    decreases b - j
  {
    if j < b { SeenGrows(m, j, b - 1); }
  }

  /** Some bucket is the first to reach what is reached in all. */
  lemma {:induction false} SomeReaches(m: seq<nat>, want: int, n: nat) returns (b: nat)
    requires 1 <= n <= |m| && Seen(m, n) >= want
    ensures FirstReaching(m, want, b)
  {
    if n > 1 && Seen(m, n - 1) >= want {
      b := SomeReaches(m, want, n - 1);
    } else {
      b := n - 1;
      forall j | 1 <= j <= b ensures Seen(m, j) < want { SeenGrows(m, j, b); }
    }
  }

  /** `pct` names the bucket its rank falls in. */
  ghost predicate Right(m: seq<nat>, all: seq<int>, want: int) {
    exists b: nat :: FirstReaching(m, want, b) && Ranked(all, want, b)
  }

  lemma RightWithoutWrap(m: seq<nat>, total: nat, all: seq<int>, want: nat)
    requires Merges(m, total, all) && NoBucketWraps(all) && 1 <= want <= |all|
    ensures Right(m, all, want)
  {
    SeenIsAtMost(m, total, all, BUCKETS + 1);
    AtMostBounds(all, BUCKETS, BUCKETS);
    var b := SomeReaches(m, want, BUCKETS + 1);
    ReachesRanked(m, total, all, want, b);
  }

  /** Every percentile with a rank is the order statistic of the clamped times, exactly when no
      bucket holds 2^32 of them: past that the last percentile finds no bucket at all. */
  lemma RightIffNothingWraps(m: seq<nat>, total: nat, all: seq<int>)
    requires Merges(m, total, all) && |all| < TWO_64
    ensures (forall p: real | 0.0 < p <= 1.0 && Rank(total, p) >= 1 :: Right(m, all, Rank(total, p)))
            <==> NoBucketWraps(all)
  {
    if NoBucketWraps(all) {
      forall p: real | 0.0 < p <= 1.0 && Rank(total, p) >= 1 ensures Right(m, all, Rank(total, p)) {
        RankBounds(total, p);
        RightWithoutWrap(m, total, all, Rank(total, p));
      }
    } else {
      RankBounds(total, 1.0);
      SeenIsAtMost(m, total, all, BUCKETS + 1);
      AtMostBounds(all, BUCKETS, BUCKETS);
      assert |all| == total;
      assert AtMost(all, BUCKETS) == |all|;
      assert Seen(m, BUCKETS + 1) <= AtMost(all, BUCKETS);
      assert exists b :: 0 <= b <= BUCKETS && CountOf(all, b) >= TWO_32;
      assert Seen(m, BUCKETS + 1) != AtMost(all, BUCKETS);
      forall b: nat ensures !FirstReaching(m, Rank(total, 1.0), b) {
        if b < |m| { SeenGrows(m, b + 1, |m|); }
      }
      assert !Right(m, all, Rank(total, 1.0));
    }
  }

  lemma {:induction false} SameBucket(n: nat)
    ensures CountOf(seq(n, _ => 5), 5) == n
  {
    if n > 0 {
      assert seq(n, _ => 5)[..n - 1] == seq(n - 1, _ => 5);
      SameBucket(n - 1);
    }
  }

  lemma {:induction false} OtherBuckets(n: nat, b: int)
    requires b != 5
    ensures CountOf(seq(n, _ => 5), b) == 0
  {
    if n > 0 {
      assert seq(n, _ => 5)[..n - 1] == seq(n - 1, _ => 5);
      OtherBuckets(n - 1, b);
    }
  }

  lemma {:induction false} NoneSeen(m: seq<nat>, n: nat)
    requires n <= |m| && forall b | 0 <= b < n :: m[b] == 0
    ensures Seen(m, n) == 0
  {
    if n > 0 { NoneSeen(m, n - 1); }
  }

  /** 2^32 round trips of five microseconds are such a run: the one bucket they fill counts nothing,
      and no percentile finds any, the four that are printed included. */
  lemma EnoughOfOneBucketWraps(m: seq<nat>, total: nat, p: real, b: nat)
    requires Merges(m, total, seq(TWO_32, _ => 5)) && 0.0 < p <= 1.0 && Rank(total, p) >= 1
    ensures Seen(m, |m|) == 0 && !FirstReaching(m, Rank(total, p), b)
  {
    var all := seq(TWO_32, _ => 5);
    forall c | 0 <= c <= BUCKETS ensures m[c] == 0 {
      if c == 5 { SameBucket(TWO_32); } else { OtherBuckets(TWO_32, c); }
    }
    hide CountOf;
    NoneSeen(m, |m|);
    if b < |m| { NoneSeen(m, b + 1); }
  }

  /** The four percentiles the program prints all have ranks from two round trips on, and none with one. */
  lemma PrintedHaveRanks(total: nat)
    ensures total >= 2 <==> Rank(total, 0.5) >= 1
    ensures total >= 2 ==> Rank(total, 0.9) >= 1 && Rank(total, 0.99) >= 1 && Rank(total, 0.999) >= 1
    ensures total < 2 ==> Rank(total, 0.5) == Rank(total, 0.9) == Rank(total, 0.99) == Rank(total, 0.999) == 0
  {
  }

  /** A percentile without a rank reads as bucket 0, whatever the times; the shortest, which is what
      there is to name, is there exactly when some time was below a microsecond. */
  lemma WithoutRank(m: seq<nat>, total: nat, all: seq<int>, p: real, b: nat)
    requires Merges(m, total, all) && all != [] && 0.0 < p && Rank(total, p) < 1
    ensures FirstReaching(m, Rank(total, p), b) <==> b == 0
    ensures Ranked(all, 1, 0) <==> exists t <- all :: t < 1
  {
    ScalesUp(total as real, 0.0, p);
    assert Seen(m, 0) == 0;
    if b > 0 { assert Seen(m, 1) >= Rank(total, p); }
    AtMostBounds(all, -1, 0);
    SomeAtMost(all, 0);
  }

  lemma {:induction false} SomeAtMost(all: seq<int>, b: nat)
    ensures AtMost(all, b) >= 1 <==> exists t <- all :: Clamp(t) <= b
  {
    if all != [] {
      var most := all[..|all| - 1];
      SomeAtMost(most, b);
      assert forall t <- all :: t in most || t == all[|all| - 1];
      assert all[|all| - 1] in all && forall t <- most :: t in all;
    }
  }

  lemma ScalesUp(t: real, p: real, q: real)
    requires t >= 0.0 && p <= q
    ensures t * p <= t * q
  {
    assert t * q - t * p == t * (q - p);
  }

  lemma FloorRises(x: real, y: real)
    requires x <= y
    ensures x.Floor <= y.Floor
  {
  }

  /** A higher percentile is never a lower bucket, wrapped or not. */
  lemma PercentilesRise(m: seq<nat>, total: nat, p: real, q: real, a: nat, b: nat)
    requires 0.0 <= p <= q && FirstReaching(m, Rank(total, p), a) && FirstReaching(m, Rank(total, q), b)
    ensures a <= b
  {
    ScalesUp(total as real, p, q);
    FloorRises(total as real * p, total as real * q);
  }

  /** One connection's run. */
  method RecordAll(times: seq<int>) returns (c: Conn)
    ensures c.Recorded(times) && fresh(c) && fresh(c.hist)
  {
    hide CountOf;
    c := new Conn();
    assert times[..0] == [];
    for j := 0 to |times|
      invariant c.Recorded(times[..j]) && fresh(c) && fresh(c.hist)
    {
      assert times[..j + 1] == times[..j] + [times[j]];
      c.Record(times[j], times[..j]);
    }
    assert times[..|times|] == times;
  }

  /** A whole run: each connection's round trips recorded, the histograms merged, one percentile
      read. It is the order statistic asked for, or 0us for want of a rank, or there was nothing to ask about. */
  method Measure(times: seq<seq<int>>, p: real) returns (r: Answer, none: bool)
    requires 0.0 < p <= 1.0 && |Join(times)| < TWO_64
    ensures none <==> Join(times) == []
    ensures !none && NoBucketWraps(Join(times)) && Rank(|Join(times)|, p) >= 1 ==>
              exists b: nat :: r == Show(b) && Ranked(Join(times), Rank(|Join(times)|, p), b)
    ensures !none && Rank(|Join(times)|, p) < 1 ==> r == Micros(0)
  {
    hide Join, CountOf, AtMost;
    var cs: seq<Conn> := [];
    for k := 0 to |times|
      invariant |cs| == k && forall i | 0 <= i < k :: cs[i].Recorded(times[i])
    {
      var c := RecordAll(times[k]);
      cs := cs + [c];
    }
    var merged, total := Merge(cs, times);
    if total == 0 { return Unknown, true; }
    ghost var bucket;
    r, bucket := Pct(merged, total, p);
    none := false;
    if Rank(total, p) < 1 {
      WithoutRank(merged[..], total, Join(times), p, 0);
      WithoutRank(merged[..], total, Join(times), p, bucket);
      SeenGrows(merged[..], 1, |merged[..]|);
    } else if NoBucketWraps(Join(times)) {
      RankBounds(total, p);
      RightWithoutWrap(merged[..], total, Join(times), Rank(total, p));
      Found(merged[..], total, Join(times), Rank(total, p), r, bucket);
    }
  }

  lemma Found(m: seq<nat>, total: nat, all: seq<int>, want: nat, r: Answer, bucket: nat)
    requires Merges(m, total, all) && NoBucketWraps(all) && 1 <= want <= |all|
    requires r.Unknown? ==> Seen(m, |m|) < want
    requires !r.Unknown? ==> r == Show(bucket) && FirstReaching(m, want, bucket)
    ensures r == Show(bucket) && Ranked(all, want, bucket)
  {
    RightWithoutWrap(m, total, all, want);
    var b: nat :| FirstReaching(m, want, b);
    SeenGrows(m, b + 1, |m|);
    ReachesRanked(m, total, all, want, bucket);
  }
}
