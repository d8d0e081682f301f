/** Draws from a popularity table by binary search, and the most any cache can answer of them
    (bench/cache_hitrate.zig:14-17, 45-79). Exact reals stand for the floats. */
module Zipf {
  import opened Common

  /** The sum of the first `n`. */
  function Prefix(w: seq<real>, n: nat): real
    requires n <= |w|
  {
    if n == 0 then 0.0 else Prefix(w, n - 1) + w[n - 1]
  }

  ghost predicate Positive(w: seq<real>) {
    w != [] && forall i | 0 <= i < |w| :: w[i] > 0.0
  }

  ghost predicate Falling(w: seq<real>) {
    forall i, j | 0 <= i <= j < |w| :: w[i] >= w[j]
  }

  lemma {:induction false} PrefixGrows(w: seq<real>, i: nat, j: nat)
    requires Positive(w) && i <= j <= |w|
    ensures Prefix(w, i) <= Prefix(w, j) && (i < j ==> Prefix(w, i) < Prefix(w, j))
    decreases j - i
  {
    if i < j { PrefixGrows(w, i, j - 1); }
  }

  function Total(w: seq<real>): (t: real)
    requires Positive(w)
    ensures t > 0.0
  {
    PrefixGrows(w, 0, |w|);
    Prefix(w, |w|)
  }

  /** `build`: a running sum of the weights, then each divided by their total. The weights are
      `1 / rank^alpha` in the source; any positive ones will do. */
  method Build(weights: seq<real>) returns (cdf: array<real>)
    requires Positive(weights)
    ensures fresh(cdf) && cdf.Length == |weights|
    ensures forall i | 0 <= i < |weights| :: cdf[i] == Prefix(weights, i + 1) / Total(weights)
  {
    var n := |weights|;
    cdf := new real[n];
    var sum := 0.0;
    for i := 0 to n
      invariant sum == Prefix(weights, i)
      invariant forall j | 0 <= j < i :: cdf[j] == Prefix(weights, j + 1)
    {
      sum := sum + weights[i];
      cdf[i] := sum;
    }
    assert sum == Total(weights);
    for i := 0 to n
      invariant forall j | 0 <= j < i :: cdf[j] == Prefix(weights, j + 1) / sum
      invariant forall j | i <= j < n :: cdf[j] == Prefix(weights, j + 1)
    {
      cdf[i] := cdf[i] / sum;
    }
  }

  /** Each key's own chance. */
  function Chances(weights: seq<real>): seq<real>
    requires Positive(weights)
  {
    seq(|weights|, i requires 0 <= i < |weights| => weights[i] / Total(weights))
  }

  lemma {:induction false} ChancesAddUp(weights: seq<real>, n: nat)
    requires Positive(weights) && n <= |weights|
    ensures Prefix(Chances(weights), n) == Prefix(weights, n) / Total(weights)
  {
    var total := Total(weights);
    if n == 0 {
      assert 0.0 / total == 0.0;
    } else {
      ChancesAddUp(weights, n - 1);
      assert Prefix(weights, n - 1) / total + weights[n - 1] / total == Prefix(weights, n) / total;
    }
  }

  /** The chances of a table: positive, falling, and one in all. */
  ghost predicate Table(p: seq<real>) {
    Positive(p) && Falling(p) && Prefix(p, |p|) == 1.0
  }

  lemma Divides(a: real, b: real, c: real)
    requires c > 0.0
    ensures a <= b ==> a / c <= b / c
    ensures 0.0 < b ==> 0.0 < b / c
    ensures c / c == 1.0
  {
  }

  /** What `build` leaves is the running sum of chances, and falling weights give a table. */
  lemma BuildsTable(weights: seq<real>)
    requires Positive(weights)
    ensures Positive(Chances(weights)) && Prefix(Chances(weights), |weights|) == 1.0
    ensures Falling(weights) ==> Table(Chances(weights))
  {
    hide Prefix, Total;
    var p := Chances(weights);
    forall i, j | 0 <= i < |p| && 0 <= j < |p|
      ensures p[i] > 0.0 && (weights[i] >= weights[j] ==> p[i] >= p[j])
    {
      Divides(weights[j], weights[i], Total(weights));
    }
    assert Positive(p) by {
      forall i | 0 <= i < |p| ensures p[i] > 0.0 { assert p[i] >= p[i]; }
    }
    assert Prefix(p, |p|) == 1.0 by {
      ChancesAddUp(weights, |weights|);
      TotalIsPrefix(weights);
      Divides(0.0, 1.0, Total(weights));
    }
  }

  lemma TotalIsPrefix(w: seq<real>)
    requires Positive(w)
    ensures Total(w) == Prefix(w, |w|)
  {
  }

  // ---- the draw ----

  ghost predicate Rising(s: seq<real>) {
    forall i, j | 0 <= i <= j < |s| :: s[i] <= s[j]
  }

  /** `pick`: the least index whose entry reaches `u`, or the last when none does. */
  method Pick(cdf: array<real>, u: real) returns (lo: nat)
    requires cdf.Length > 0 && Rising(cdf[..])
    ensures lo < cdf.Length && forall i | 0 <= i < lo :: cdf[i] < u
    ensures u <= cdf[lo] || (lo == cdf.Length - 1 && forall i | 0 <= i < lo :: cdf[i] < u)
  {
    lo := 0;
    var hi := cdf.Length - 1;
    while lo < hi
      invariant lo <= hi < cdf.Length
      invariant forall i | 0 <= i < lo :: cdf[i] < u
      invariant hi == cdf.Length - 1 || u <= cdf[hi]
    {
      var mid := lo + (hi - lo) / 2;
      assert forall i | 0 <= i <= mid :: cdf[..][i] <= cdf[..][mid];
      if cdf[mid] < u { lo := mid + 1; } else { hi := mid; }
    }
  }

  /** Where a draw lands: in key `i`'s own stretch of the unit interval, which is as long as its
      chance. */
  ghost predicate Lands(p: seq<real>, u: real, i: nat) {
    i < |p| && u <= Prefix(p, i + 1) && (i == 0 || Prefix(p, i) < u)
  }

  /** A table built and searched draws each key on exactly its stretch. */
  method Draw(weights: seq<real>, u: real) returns (key: nat)
    requires Positive(weights) && 0.0 <= u <= 1.0
    ensures key < |weights| && forall i: nat :: Lands(Chances(weights), u, i) <==> i == key
    ensures Prefix(Chances(weights), key + 1) - Prefix(Chances(weights), key) == weights[key] / Total(weights)
  {
    var cdf := Build(weights);
    ghost var p := Chances(weights);
    BuildsTable(weights);
    forall i | 0 <= i < |weights| ensures cdf[i] == Prefix(p, i + 1) {
      ChancesAddUp(weights, i + 1);
    }
    forall i, j | 0 <= i <= j < |weights| ensures cdf[..][i] <= cdf[..][j] {
      PrefixGrows(p, i + 1, j + 1);
    }
    key := Pick(cdf, u);
    forall i: nat ensures Lands(p, u, i) <==> i == key {
      if key > 0 { assert cdf[key - 1] == Prefix(p, key); }
      if i < |p| && i < key { assert cdf[i] < u; }
      if key < i < |p| { PrefixGrows(p, key + 1, i); }
    }
  }

  // ---- the ceiling ----

  /** `ceiling`. */
  function Ceiling(p: seq<real>, k: nat): real {
    if k == 0 then 0.0 else if k >= |p| then 1.0 else Prefix(p, k)
  }

  /** The chance that a draw below `n` is among `keys`. */
  function ChanceIn(p: seq<real>, keys: set<int>, n: nat): real
    requires n <= |p|
  {
    if n == 0 then 0.0 else ChanceIn(p, keys, n - 1) + if n - 1 in keys then p[n - 1] else 0.0
  }

  function Below(keys: set<int>, n: nat): set<int> {
    set i | i in keys && 0 <= i < n
  }

  /** So many keys together are never more likely than as many of the most popular. */
  lemma {:induction false} BestIsPopular(p: seq<real>, keys: set<int>, n: nat)
    requires Falling(p) && n <= |p|
    ensures |Below(keys, n)| <= n && ChanceIn(p, keys, n) <= Prefix(p, |Below(keys, n)|)
  {
    if n == 0 {
      assert Below(keys, 0) == {};
    } else {
      BestIsPopular(p, keys, n - 1);
      if n - 1 in keys {
        assert Below(keys, n) == Below(keys, n - 1) + {n - 1};
      } else {
        assert Below(keys, n) == Below(keys, n - 1);
      }
    }
  }

  /** No `k` keys cover more of the draws than `ceiling(k)`. */
  lemma NothingAboveCeiling(p: seq<real>, keys: set<int>, k: nat)
    requires Table(p) && |keys| <= k
    ensures ChanceIn(p, keys, |p|) <= Ceiling(p, k)
  {
    BestIsPopular(p, keys, |p|);
    var m := |Below(keys, |p|)|;
    SubsetSize(Below(keys, |p|), keys);
    if k < |p| { PrefixGrows(p, m, k); } else { PrefixGrows(p, m, |p|); }
  }

  function Popular(k: nat): (keys: set<int>)
    ensures |keys| == k && forall i: int :: i in keys <==> 0 <= i < k
  {
    if k == 0 then {} else Popular(k - 1) + {k - 1}
  }

  lemma {:induction false} PopularPrefix(p: seq<real>, k: nat, n: nat)
    requires n <= |p|
    ensures ChanceIn(p, Popular(k), n) == Prefix(p, if n <= k then n else k)
  {
    if n > 0 { PopularPrefix(p, k, n - 1); }
  }

  /** The `k` most popular keys cover exactly that. */
  lemma PopularReachCeiling(p: seq<real>, k: nat)
    requires Table(p)
    ensures ChanceIn(p, Popular(k), |p|) == Ceiling(p, k)
  {
    PopularPrefix(p, k, |p|);
  }

  // ---- whole policies ----

  /** What a cache holds when the next draw comes: chosen from the draws before it and, for one that
      can see ahead, from that draw. */
  type Policy = (seq<int>, int) -> set<int>

  ghost predicate Holds(policy: Policy, k: nat) {
    forall h: seq<int>, next: int :: |policy(h, next)| <= k
  }

  ghost predicate Blind(policy: Policy) {
    forall h: seq<int>, a: int, b: int :: policy(h, a) == policy(h, b)
  }

  /** The expected number of hits in `t` more draws. */
  function Expected(p: seq<real>, policy: Policy, h: seq<int>, t: nat): real
    decreases t, |p| + 1
  {
    if t == 0 then 0.0 else ExpectedUpTo(p, policy, h, t, |p|)
  }

  /** The part of it from a first draw below `n`. */
  function ExpectedUpTo(p: seq<real>, policy: Policy, h: seq<int>, t: nat, n: nat): real
    requires n <= |p| && t > 0
    decreases t, n
  {
    if n == 0 then 0.0
    else
      ExpectedUpTo(p, policy, h, t, n - 1)
      + Weighed(p[n - 1], (if n - 1 in policy(h, n - 1) then 1.0 else 0.0) + Expected(p, policy, h + [n - 1], t - 1))
  }

  /** `a` with the chance `p`. */
  function Weighed(p: real, a: real): real {
    p * a
  }

  lemma OneDraw(p: real, hit: bool, e: real, bound: real, before: real)
    requires p > 0.0 && e <= bound
    ensures var w := Weighed(p, (if hit then 1.0 else 0.0) + e);
            && w <= (if hit then p else 0.0) + Weighed(p, bound)
            && (e == bound ==> w == (if hit then p else 0.0) + Weighed(p, bound))
    ensures Weighed(before + p, bound) == Weighed(before, bound) + Weighed(p, bound)
  {
    if hit {
      assert p * (1.0 + e) == p + p * e;
    }
    assert p * bound - p * e == p * (bound - e);
  }

  /** The first draw adds its chance of a hit, and the rest is averaged. */
  lemma {:induction false} FirstDraw(p: seq<real>, policy: Policy, h: seq<int>, t: nat, n: nat, keys: set<int>, bound: real)
    requires Positive(p) && n <= |p| && t > 0
    requires forall i: int :: policy(h, i) == keys
    requires forall i: int :: Expected(p, policy, h + [i], t - 1) <= bound
    ensures ExpectedUpTo(p, policy, h, t, n) <= ChanceIn(p, keys, n) + Weighed(Prefix(p, n), bound)
    ensures (forall i: int :: Expected(p, policy, h + [i], t - 1) == bound) ==>
              ExpectedUpTo(p, policy, h, t, n) == ChanceIn(p, keys, n) + Weighed(Prefix(p, n), bound)
  {
    if n == 0 {
      assert Weighed(0.0, bound) == 0.0;
    } else {
      hide Weighed, Expected;
      FirstDraw(p, policy, h, t, n - 1, keys, bound);
      var i := n - 1;
      OneDraw(p[i], i in keys, Expected(p, policy, h + [i], t - 1), bound, Prefix(p, i));
    }
  }

  lemma OneMore(t: nat, c: real, before: real)
    requires t > 0 && before == (t - 1) as real * c
    ensures t as real * c == c + Weighed(1.0, before)
  {
    assert t as real == 1.0 + (t - 1) as real;
  }

  /** No policy that cannot see the next draw is expected more than the ceiling's share of hits,
      whatever it has seen before. */
  lemma {:induction false} NoPolicyBeatsCeiling(p: seq<real>, policy: Policy, k: nat, h: seq<int>, t: nat)
    requires Table(p) && Holds(policy, k) && Blind(policy)
    ensures Expected(p, policy, h, t) <= t as real * Ceiling(p, k)
    decreases t
  {
    hide Ceiling, Weighed, ChanceIn;
    if t > 0 {
      var bound := (t - 1) as real * Ceiling(p, k);
      forall i: int ensures Expected(p, policy, h + [i], t - 1) <= bound {
        NoPolicyBeatsCeiling(p, policy, k, h + [i], t - 1);
      }
      var keys := policy(h, 0);
      FirstDraw(p, policy, h, t, |p|, keys, bound);
      NothingAboveCeiling(p, keys, k);
      OneMore(t, Ceiling(p, k), bound);
    } else {
      assert 0.0 * Ceiling(p, k) == 0.0;
    }
  }

  lemma {:induction false} PopularSize(k: nat)
    ensures |Popular(k)| == k
  {
    if k > 0 {
      PopularSize(k - 1);
      assert Popular(k) == Popular(k - 1) + {k - 1};
    }
  }

  /** Holding the most popular keys is a policy of that size that does not look ahead. */
  lemma PopularIsBlind(k: nat)
    ensures Holds((_, _) => Popular(k), k) && Blind((_, _) => Popular(k))
  {
    PopularSize(k);
    hide Popular;
  }

  /** Holding the most popular keys all along is expected exactly that share. */
  lemma {:induction false} PopularPolicyReachesCeiling(p: seq<real>, k: nat, h: seq<int>, t: nat)
    requires Table(p)
    ensures Expected(p, (_, _) => Popular(k), h, t) == t as real * Ceiling(p, k)
    decreases t
  {
    hide Ceiling, Weighed, ChanceIn;
    var policy: Policy := (_, _) => Popular(k);
    if t > 0 {
      var bound := (t - 1) as real * Ceiling(p, k);
      forall i: int ensures Expected(p, policy, h + [i], t - 1) == bound {
        PopularPolicyReachesCeiling(p, k, h + [i], t - 1);
      }
      FirstDraw(p, policy, h, t, |p|, Popular(k), bound);
      PopularReachCeiling(p, k);
      OneMore(t, Ceiling(p, k), bound);
    } else {
      assert 0.0 * Ceiling(p, k) == 0.0;
    }
  }
}
