/** What seeing ahead is worth to a cache (bench/cache_hitrate.zig:14-17): with room for some keys and
    not all, a policy that is filled by demand and sees no more than the next draw is above the
    ceiling, on every table. */
module Foresight {
  import opened Common
  import opened Zipf

  /** What is there to choose from: what was held at the last draw, and what it fetched. */
  function AtHand(policy: Policy, h: seq<int>): set<int> {
    if h == [] then {} else policy(h[..|h| - 1], h[|h| - 1]) + {h[|h| - 1]}
  }

  /** Nothing is held that was not held or fetched just before. */
  ghost predicate Demand(policy: Policy) {
    forall h: seq<int>, next: int :: policy(h, next) <= AtHand(policy, h)
  }

  // ---- the policy ----

  /** The last place in the cache goes to one of two keys, the least popular that would fit and the
      most popular that would not. Both are at hand right after one was held and the other drawn. */
  datatype Slot = Neither | Inner | Outer | Both

  function After(k: nat, s: Slot, drawn: int): Slot
    requires k > 0
  {
    match s
    case Neither => if drawn == k - 1 then Inner else if drawn == k then Outer else Neither
    case Inner => if drawn == k then Both else Inner
    case Outer => if drawn == k - 1 then Both else Outer
    case Both => if drawn == k then Outer else Inner
  }

  function SlotOf(k: nat, h: seq<int>): Slot
    requires k > 0
  {
    if h == [] then Neither else After(k, SlotOf(k, h[..|h| - 1]), h[|h| - 1])
  }

  /** With both at hand the next draw decides, and otherwise popularity. */
  function Kept(k: nat, s: Slot, next: int): set<int>
    requires k > 0
  {
    match s
    case Neither => {}
    case Inner => {k - 1}
    case Outer => {k}
    case Both => if next == k then {k} else {k - 1}
  }

  /** The `k - 1` most popular keys stay once they have come. */
  function Pinned(k: nat, h: seq<int>): (keys: set<int>)
    requires k > 0
    ensures forall i <- keys :: 0 <= i < k - 1
  {
    if h == [] then {}
    else Pinned(k, h[..|h| - 1]) + if 0 <= h[|h| - 1] < k - 1 then {h[|h| - 1]} else {}
  }

  function Ahead(k: nat): Policy
    requires k > 0
  {
    (h: seq<int>, next: int) => Pinned(k, h) + Kept(k, SlotOf(k, h), next)
  }

  lemma PinnedFit(k: nat, h: seq<int>)
    requires k > 0
    ensures |Pinned(k, h)| <= k - 1
  {
    var keys := Popular(k - 1);
    assert Pinned(k, h) <= keys;
    SubsetSize(Pinned(k, h), keys);
  }

  lemma StepOf(k: nat, h: seq<int>, i: int)
    requires k > 0
    ensures SlotOf(k, h + [i]) == After(k, SlotOf(k, h), i)
    ensures Pinned(k, h + [i]) == Pinned(k, h) + if 0 <= i < k - 1 then {i} else {}
  {
    assert (h + [i])[..|h|] == h;
  }

  /** It fits in `k` places and is filled by demand alone. */
  lemma AheadIsDemand(k: nat)
    requires k > 0
    ensures Holds(Ahead(k), k) && Demand(Ahead(k))
  {
    forall h: seq<int>, next: int ensures |Ahead(k)(h, next)| <= k {
      PinnedFit(k, h);
      var kept := Kept(k, SlotOf(k, h), next);
      assert |kept| <= 1;
      UnionFits(Pinned(k, h), kept);
    }
    forall h: seq<int>, next: int ensures Ahead(k)(h, next) <= AtHand(Ahead(k), h) {
      if h != [] {
        var before, i := h[..|h| - 1], h[|h| - 1];
        assert h == before + [i];
        StepOf(k, before, i);
        assert Kept(k, SlotOf(k, h), next) <= Kept(k, SlotOf(k, before), i) + {i};
      }
    }
  }

  lemma UnionFits(a: set<int>, b: set<int>)
    ensures |a + b| <= |a| + |b|
  {
    assert a + b == a + (b - a);
    SubsetSize(b - a, b);
  }

  // ---- what each state of the slot is worth ----

  function Sq(y: real): real {
    Weighed(y, y)
  }

  /** What having both at hand is worth over holding the more popular. */
  function Lift(x: real, y: real): real
    requires x > 0.0 && y > 0.0
  {
    Squares(y);
    Sq(y) / (x + Sq(y))
  }

  /** What seeing ahead gains on each draw. */
  function Gain(x: real, y: real): real
    requires x > 0.0 && y > 0.0
  {
    y * Lift(x, y)
  }

  function Drop(x: real, y: real): real
    requires x > 0.0 && y > 0.0
  {
    (x - y + Gain(x, y)) / x - Lift(x, y)
  }

  function Start(x: real, y: real): real
    requires x > 0.0 && y > 0.0
  {
    (x + y - Lift(x, y)) / (x + y)
  }

  lemma Squares(y: real)
    requires y > 0.0
    ensures Sq(y) > 0.0
  {
    Product(y, y, y);
  }

  lemma Product(a: real, b: real, x: real)
    requires a > 0.0 && 0.0 < b <= x
    ensures 0.0 < Weighed(a, b) <= a * x
  {
    Times(a, b);
    if b < x { Times(a, x - b); }
  }

  lemma Over(a: real, b: real)
    requires b > 0.0
    ensures a / b * b == a
  {
  }

  lemma Times(a: real, x: real)
    requires a > 0.0 && x > 0.0
    ensures a * x > 0.0
  {
  }

  lemma Cancels(a: real, b: real, x: real)
    requires x > 0.0
    ensures a * x <= b * x <==> a <= b
    ensures a * x == b * x <==> a == b
  {
    assert (a - b) * x == a * x - b * x && (b - a) * x == b * x - a * x;
    if a > b { Times(a - b, x); }
    if b > a { Times(b - a, x); }
  }

  /** A share of more than there is to share is between nothing and all. */
  lemma ShareBounds(d: real, s: real, w: real)
    requires 0.0 < s <= w && d * w == s
    ensures 0.0 < d <= 1.0
  {
    Cancels(d, 0.0, w);
    Cancels(d, 1.0, w);
  }

  lemma Expand(d: real, x: real, s: real)
    ensures d * (x + s) == d * x + d * s
  {
  }

  lemma LiftIs(x: real, y: real)
    requires 0.0 < y <= x
    ensures Lift(x, y) * x + Lift(x, y) * Sq(y) == Sq(y)
    ensures 0.0 < Lift(x, y) <= y && Lift(x, y) <= 1.0
  {
    SquareUnder(x, y);
    Squares(y);
    hide Sq;
    var d, s := Lift(x, y), Sq(y);
    var w := x + s;
    Over(s, w);
    assert d == s / w;
    hide Lift;
    Expand(d, x, s);
    ShareBounds(d, s, w);
    Times(d, s);
    PartUnder(d * x, d * s, s, y * x);
    Cancels(d, y, x);
  }

  lemma PartUnder(dx: real, ds: real, s: real, yx: real)
    requires dx + ds == s && ds > 0.0 && s <= yx
    ensures dx <= yx
  {
  }

  lemma SquareUnder(x: real, y: real)
    requires 0.0 < y <= x
    ensures Sq(y) <= y * x
  {
    Product(y, y, x);
  }

  lemma GainIs(x: real, y: real)
    requires 0.0 < y <= x
    ensures Gain(x, y) == y * Lift(x, y) && 0.0 < Gain(x, y) <= y
  {
    LiftIs(x, y);
    var d := Lift(x, y);
    assert Gain(x, y) == y * d;
    hide Lift, Gain;
    Product(y, d, 1.0);
  }

  lemma DropIs(x: real, y: real)
    requires 0.0 < y <= x
    ensures var d, e, c := Lift(x, y), Gain(x, y), Drop(x, y);
            c * x == x - y + e - d * x && -d <= c <= 1.0
  {
    var d, e, c := Lift(x, y), Gain(x, y), Drop(x, y);
    GainIs(x, y);
    LiftIs(x, y);
    hide Lift, Gain;
    var u := x - y + e;
    Over(u, x);
    Ratio(u / x, d, x);
    Times(d, x);
    DropBounds(x, u, d, c, c * x, d * x);
  }

  lemma DropBounds(x: real, u: real, d: real, c: real, cx: real, dx: real)
    requires 0.0 < x && 0.0 < u <= x && cx == c * x && dx == d * x && dx > 0.0 && cx == u - dx
    ensures -d <= c <= 1.0
  {
    Negated(d, x);
    Cancels(-d, c, x);
    Cancels(c, 1.0, x);
  }

  lemma Negated(d: real, x: real)
    ensures (-d) * x == -(d * x)
  {
  }

  lemma Ratio(q: real, d: real, x: real)
    ensures (q - d) * x == q * x - d * x
  {
  }

  lemma StartIs(x: real, y: real)
    requires 0.0 < y <= x
    ensures Start(x, y) * (x + y) == x + y - Lift(x, y) && 0.0 <= Start(x, y) <= 1.0
  {
    LiftIs(x, y);
    hide Lift;
    var w, s := Start(x, y), x + y;
    Over(s - Lift(x, y), s);
    StartBounds(w, s, Lift(x, y));
  }

  lemma StartBounds(w: real, s: real, d: real)
    requires s > 0.0 && w * s == s - d && 0.0 <= d <= s
    ensures 0.0 <= w <= 1.0
  {
    assert 0.0 * s == 0.0 && 1.0 * s == s;
    Cancels(0.0, w, s);
    Cancels(w, 1.0, s);
  }

  /** The worth of a state is what it gives now and the worth of where it leads, less the long-run
      gain: one equation a state of the slot. */
  lemma SlotEquations(x: real, y: real)
    requires 0.0 < y <= x
    ensures var d, e, c, w := Lift(x, y), Gain(x, y), Drop(x, y), Start(x, y);
            && 0.0 < d <= 1.0 && e > 0.0 && e == Weighed(y, d)
            && y - Weighed(y, c) == e + d
            && Weighed(x, d) + y + Weighed(x, c) == x + e
            && x + e + Weighed(y, c) == Weighed(x, w) + Weighed(y, w)
            && -d <= c <= 1.0 && 0.0 <= w <= 1.0
  {
    hide Lift, Gain, Drop, Start, Sq;
    LiftIs(x, y);
    GainIs(x, y);
    DropIs(x, y);
    StartIs(x, y);
    FourEquations(x, y, Lift(x, y), Gain(x, y), Drop(x, y), Start(x, y));
  }

  lemma FourEquations(x: real, y: real, d: real, e: real, c: real, w: real)
    requires 0.0 < y <= x && e == y * d && c * x == x - y + e - d * x && d * x + d * Sq(y) == Sq(y)
    requires w * (x + y) == x + y - d
    ensures e == Weighed(y, d)
    ensures y - Weighed(y, c) == e + d
    ensures Weighed(x, d) + y + Weighed(x, c) == x + e
    ensures x + e + Weighed(y, c) == Weighed(x, w) + Weighed(y, w)
  {
    InnerEquation(x, y, d, e, c);
    Expand(w, x, y);
  }

  lemma InnerEquation(x: real, y: real, d: real, e: real, c: real)
    requires 0.0 < y <= x && e == y * d && c * x == x - y + e - d * x && d * x + d * Sq(y) == Sq(y)
    ensures y - y * c == e + d
  {
    var left, right := y - y * c, e + d;
    assert left * x == y * x - y * (c * x);
    assert y * (c * x) == y * x - y * y + y * e - y * (d * x);
    assert y * e == d * (y * y) && y * (d * x) == e * x;
    assert left * x == y * y - d * (y * y) + e * x == d * x + e * x;
    assert right * x == e * x + d * x;
    Cancels(left, right, x);
  }

  // ---- the policy's hits, draw by draw ----

  /** The two keys of the slot, by their chances. */
  ghost predicate Room(p: seq<real>, k: nat) {
    Table(p) && 0 < k < |p|
  }

  function SlotWorth(p: seq<real>, k: nat, s: Slot): real
    requires 0 < k < |p| && p[k - 1] > 0.0 && p[k] > 0.0
  {
    match s
    case Neither => -Start(p[k - 1], p[k])
    case Inner => 0.0
    case Outer => -Drop(p[k - 1], p[k])
    case Both => Lift(p[k - 1], p[k])
  }

  /** What a history is worth: its slot's state, less a hit for every popular key yet to come. */
  function Worth(p: seq<real>, k: nat, h: seq<int>): real
    requires 0 < k < |p| && p[k - 1] > 0.0 && p[k] > 0.0
  {
    SlotWorth(p, k, SlotOf(k, h)) - (k - 1 - |Pinned(k, h)|) as real
  }

  /** What the draw of key `i` gives, and the worth of where it leads. */
  function Gives(p: seq<real>, k: nat, h: seq<int>, i: int): real
    requires 0 < k < |p| && p[k - 1] > 0.0 && p[k] > 0.0
  {
    (if i in Ahead(k)(h, i) then 1.0 else 0.0) + Worth(p, k, h + [i])
  }

  function GivesUpTo(p: seq<real>, k: nat, h: seq<int>, n: nat): real
    requires 0 < k < |p| && p[k - 1] > 0.0 && p[k] > 0.0 && n <= |p|
  {
    if n == 0 then 0.0 else GivesUpTo(p, k, h, n - 1) + Weighed(p[n - 1], Gives(p, k, h, n - 1))
  }

  /** The slot's own hit. */
  function SlotHit(k: nat, s: Slot, i: int): real
    requires k > 0
  {
    if i in Kept(k, s, i) then 1.0 else 0.0
  }

  /** Draws of the most popular keys, of the slot's two and of the rest. */
  lemma GivesBy(p: seq<real>, k: nat, h: seq<int>, i: nat)
    requires Room(p, k)
    ensures var s, u := SlotOf(k, h), (k - 1 - |Pinned(k, h)|) as real;
            Gives(p, k, h, i) == (if i < k - 1 then 1.0 else if i <= k then SlotHit(k, s, i) else 0.0)
                                 + SlotWorth(p, k, After(k, s, i)) - u
  {
    StepOf(k, h, i);
    hide SlotWorth, SlotOf;
    if i < k - 1 && i !in Pinned(k, h) {
      assert |Pinned(k, h + [i])| == |Pinned(k, h)| + 1;
    } else {
      assert Pinned(k, h + [i]) == Pinned(k, h);
    }
  }

  lemma WeighsApart(a: real, b: real, c: real)
    ensures Weighed(a + b, c) == Weighed(a, c) + Weighed(b, c)
    ensures Weighed(a, b + c) == Weighed(a, b) + Weighed(a, c)
    ensures Weighed(a, b - c) == Weighed(a, b) - Weighed(a, c)
    ensures Weighed(a, 0.0) == 0.0 && Weighed(0.0, c) == 0.0 && Weighed(1.0, c) == c && Weighed(a, 1.0) == a
  {
  }

  /** What the draws below `n` give, said at once: `top` for each of the most popular, `inner` and
      `outer` for the slot's two, and `rest` for each of the others. */
  function Said(p: seq<real>, k: nat, n: nat, top: real, inner: real, outer: real, rest: real): real
    requires 0 < k < |p| && n <= |p|
  {
    if n < k then Weighed(Prefix(p, n), top)
    else if n == k then Weighed(Prefix(p, k - 1), top) + Weighed(p[k - 1], inner)
    else
      Weighed(Prefix(p, k - 1), top) + Weighed(p[k - 1], inner) + Weighed(p[k], outer)
      + Weighed(Prefix(p, n) - Prefix(p, k + 1), rest)
  }

  lemma SaidStep(p: seq<real>, k: nat, i: nat, top: real, inner: real, outer: real, rest: real)
    requires 0 < k < |p| && i < |p|
    ensures Said(p, k, 0, top, inner, outer, rest) == 0.0
    ensures Said(p, k, i + 1, top, inner, outer, rest)
            == Said(p, k, i, top, inner, outer, rest)
               + Weighed(p[i], if i < k - 1 then top else if i == k - 1 then inner else if i == k then outer else rest)
  {
    hide Weighed;
    WeighsApart(0.0, 0.0, top);
    WeighsApart(0.0, 0.0, rest);
    if i < k - 1 {
      WeighsApart(Prefix(p, i), p[i], top);
    } else if i > k {
      WeighsApart(Prefix(p, i) - Prefix(p, k + 1), p[i], rest);
    }
  }

  /** What the draw of a key that is not the slot's gives, but for a hit. */
  function Rest(p: seq<real>, k: nat, h: seq<int>): real
    requires Room(p, k)
  {
    SlotWorth(p, k, After(k, SlotOf(k, h), -1)) - (k - 1 - |Pinned(k, h)|) as real
  }

  /** What the draw of a key of the slot gives. */
  function OfSlot(p: seq<real>, k: nat, h: seq<int>, i: nat): real
    requires Room(p, k)
  {
    SlotHit(k, SlotOf(k, h), i) + SlotWorth(p, k, After(k, SlotOf(k, h), i)) - (k - 1 - |Pinned(k, h)|) as real
  }

  lemma GivesCase(p: seq<real>, k: nat, h: seq<int>, i: nat)
    requires Room(p, k)
    ensures Gives(p, k, h, i) == if i < k - 1 then 1.0 + Rest(p, k, h)
                                 else if i == k - 1 then OfSlot(p, k, h, k - 1)
                                 else if i == k then OfSlot(p, k, h, k)
                                 else Rest(p, k, h)
  {
    GivesBy(p, k, h, i);
    hide Gives, SlotWorth, SlotHit, SlotOf;
  }

  lemma {:induction false} GivesTo(p: seq<real>, k: nat, h: seq<int>, n: nat)
    requires Room(p, k) && n <= |p|
    ensures GivesUpTo(p, k, h, n)
            == Said(p, k, n, 1.0 + Rest(p, k, h), OfSlot(p, k, h, k - 1), OfSlot(p, k, h, k), Rest(p, k, h))
    decreases n
  {
    hide Said, Weighed, Gives, Rest, OfSlot;
    var i := if n == 0 then 0 else n - 1;
    SaidStep(p, k, i, 1.0 + Rest(p, k, h), OfSlot(p, k, h, k - 1), OfSlot(p, k, h, k), Rest(p, k, h));
    if n > 0 {
      GivesTo(p, k, h, i);
      GivesCase(p, k, h, i);
    }
  }

  /** The slot's equations, state by state: what its two keys' draws and all others give is its worth
      and the gain over holding the more popular. */
  lemma SlotBalances(p: seq<real>, k: nat, s: Slot)
    requires Room(p, k)
    ensures var x, y := p[k - 1], p[k];
            var o := SlotWorth(p, k, After(k, s, -1));
            Weighed(x, SlotHit(k, s, k - 1) + SlotWorth(p, k, After(k, s, k - 1)))
            + Weighed(y, SlotHit(k, s, k) + SlotWorth(p, k, After(k, s, k)))
            + Weighed(1.0 - x - y, o)
            == x + Gain(x, y) + SlotWorth(p, k, s)
  {
    var x, y := p[k - 1], p[k];
    SlotEquations(x, y);
    hide Lift, Gain, Drop, Start, Weighed;
    assert Gain(x, y) == Weighed(y, Lift(x, y));
    FourBalances(x, y, Lift(x, y), Gain(x, y), Drop(x, y), Start(x, y));
    match s
    case Neither =>
    case Inner =>
    case Outer =>
    case Both =>
  }

  lemma WeighsRest(x: real, y: real, o: real)
    ensures Weighed(1.0 - x - y, o) == o - Weighed(x, o) - Weighed(y, o)
  {
    hide Weighed;
    WeighsApart(1.0 - x - y, x, o);
    WeighsApart(1.0 - y, y, o);
    assert (1.0 - x - y) + x == 1.0 - y && (1.0 - y) + y == 1.0;
  }

  lemma WeighsLess(a: real, c: real)
    ensures Weighed(a, -c) == -Weighed(a, c) && Weighed(a, 1.0 - c) == a - Weighed(a, c)
  {
    hide Weighed;
    WeighsApart(a, 0.0, c);
    WeighsApart(a, 1.0, c);
    assert 0.0 - c == -c;
  }

  lemma FourBalances(x: real, y: real, d: real, e: real, c: real, w: real)
    requires e == Weighed(y, d) && y - Weighed(y, c) == e + d && Weighed(x, d) + y + Weighed(x, c) == x + e
    requires x + e + Weighed(y, c) == Weighed(x, w) + Weighed(y, w)
    ensures Weighed(x, 0.0) + Weighed(y, -c) + Weighed(1.0 - x - y, -w) == x + e - w
    ensures Weighed(x, 1.0) + Weighed(y, d) + Weighed(1.0 - x - y, 0.0) == x + e
    ensures Weighed(x, d) + Weighed(y, 1.0 - c) + Weighed(1.0 - x - y, -c) == x + e - c
    ensures Weighed(x, 1.0) + Weighed(y, 1.0 - c) + Weighed(1.0 - x - y, 0.0) == x + e + d
  {
    hide Weighed;
    WeighsApart(x, 0.0, 0.0);
    WeighsApart(1.0 - x - y, 0.0, 0.0);
    WeighsLess(y, c);
    WeighsLess(x, c);
    WeighsLess(x, w);
    WeighsLess(y, w);
    WeighsRest(x, y, -w);
    WeighsRest(x, y, -c);
  }

  lemma SaidInAll(p: seq<real>, k: nat, u: real, o: real, inner: real, outer: real)
    requires Room(p, k)
    ensures Said(p, k, |p|, 1.0 + (o - u), inner - u, outer - u, o - u)
            == Prefix(p, k - 1) - u + (Weighed(p[k - 1], inner) + Weighed(p[k], outer) + Weighed(1.0 - p[k - 1] - p[k], o))
    ensures Ceiling(p, k) == Prefix(p, k - 1) + p[k - 1]
  {
    assert Prefix(p, k + 1) == Prefix(p, k - 1) + p[k - 1] + p[k] && Prefix(p, |p|) == 1.0;
    hide Prefix, Weighed;
    AddsUp(Prefix(p, k - 1), p[k - 1], p[k], u, o, inner, outer);
  }

  /** Over all draws: the ceiling, the gain, and the worth of the history. */
  lemma GivesInAll(p: seq<real>, k: nat, h: seq<int>)
    requires Room(p, k)
    ensures GivesUpTo(p, k, h, |p|) == Ceiling(p, k) + Gain(p[k - 1], p[k]) + Worth(p, k, h)
  {
    hide Weighed, SlotWorth, SlotOf, SlotHit, Gain, GivesUpTo, Said, Ceiling;
    var s, u := SlotOf(k, h), (k - 1 - |Pinned(k, h)|) as real;
    var o := SlotWorth(p, k, After(k, s, -1));
    GivesTo(p, k, h, |p|);
    SlotBalances(p, k, s);
    SaidInAll(p, k, u, o, OfSlot(p, k, h, k - 1) + u, OfSlot(p, k, h, k) + u);
  }

  lemma AddsUp(top: real, x: real, y: real, u: real, o: real, inner: real, outer: real)
    ensures Weighed(top, 1.0 + (o - u)) + Weighed(x, inner - u) + Weighed(y, outer - u)
            + Weighed(1.0 - (top + x + y), o - u)
            == top - u + (Weighed(x, inner) + Weighed(y, outer) + Weighed(1.0 - x - y, o))
  {
    hide Weighed;
    var v := o - u;
    WeighsApart(top, 1.0, v);
    WeighsApart(x, inner, u);
    WeighsApart(y, outer, u);
    WeighsApart(1.0 - x - y - top, top, v);
    WeighsApart(1.0 - x - y, o, u);
    WeighsRest(x, y, u);
    assert 1.0 - (top + x + y) == 1.0 - x - y - top;
    assert (1.0 - x - y - top) + top == 1.0 - x - y;
  }

  // ---- the expectation ----

  lemma WorthBounds(p: seq<real>, k: nat, h: seq<int>)
    requires Room(p, k)
    ensures -(k as real) <= Worth(p, k, h) <= 1.0
  {
    SlotEquations(p[k - 1], p[k]);
    PinnedFit(k, h);
    hide Lift, Gain, Drop, Start, SlotOf, Pinned;
  }

  lemma Between(p: real, a: real, low: real, high: real)
    requires p > 0.0 && low <= a <= high
    ensures Weighed(p, low) <= Weighed(p, a) <= Weighed(p, high)
  {
    if low < a { Times(p, a - low); }
    if a < high { Times(p, high - a); }
  }

  lemma OneDrawWithin(p: real, before: real, gave: real, low: real, high: real, g: real, a: real, was: real)
    requires p > 0.0 && g + low <= a <= g + high
    requires gave + Weighed(before, low) <= was <= gave + Weighed(before, high)
    ensures (gave + Weighed(p, g)) + Weighed(before + p, low) <= was + Weighed(p, a)
    ensures was + Weighed(p, a) <= (gave + Weighed(p, g)) + Weighed(before + p, high)
  {
    hide Weighed;
    Between(p, a, g + low, g + high);
    WeighsApart(p, g, low);
    WeighsApart(p, g, high);
    WeighsApart(before, p, low);
    WeighsApart(before, p, high);
  }

  /** The expectation before a draw, when after each it is within `low` and `high` of its worth. */
  ghost predicate Within(p: seq<real>, k: nat, h: seq<int>, t: nat, low: real, high: real)
    requires Room(p, k)
  {
    forall i: nat | i < |p| :: WithinAt(p, k, h + [i], t, low, high)
  }

  ghost predicate WithinAt(p: seq<real>, k: nat, h: seq<int>, t: nat, low: real, high: real)
    requires Room(p, k)
  {
    low + Worth(p, k, h) <= Expected(p, Ahead(k), h, t) <= high + Worth(p, k, h)
  }

  /** A draw's hit, and the expectation after it. */
  function Taken(p: seq<real>, k: nat, h: seq<int>, t: nat, i: int): real
    requires k > 0
  {
    (if i in Ahead(k)(h, i) then 1.0 else 0.0) + Expected(p, Ahead(k), h + [i], t)
  }

  lemma TakenWithin(p: seq<real>, k: nat, h: seq<int>, t: nat, i: nat, low: real, high: real)
    requires Room(p, k) && i < |p| && Within(p, k, h, t, low, high)
    ensures Gives(p, k, h, i) + low <= Taken(p, k, h, t, i) <= Gives(p, k, h, i) + high
  {
    assert WithinAt(p, k, h + [i], t, low, high);
    hide Worth, Expected, Ahead;
  }

  lemma TakenNext(p: seq<real>, k: nat, h: seq<int>, t: nat, n: nat)
    requires k > 0 && t > 0 && n < |p|
    ensures ExpectedUpTo(p, Ahead(k), h, t, 0) == 0.0
    ensures ExpectedUpTo(p, Ahead(k), h, t, n + 1)
            == ExpectedUpTo(p, Ahead(k), h, t, n) + Weighed(p[n], Taken(p, k, h, t - 1, n))
  {
    hide Expected, Ahead, Weighed;
  }

  lemma {:induction false} DrawsWithin(p: seq<real>, k: nat, h: seq<int>, t: nat, n: nat, low: real, high: real)
    requires Room(p, k) && t > 0 && n <= |p| && Within(p, k, h, t - 1, low, high)
    ensures GivesUpTo(p, k, h, n) + Weighed(Prefix(p, n), low) <= ExpectedUpTo(p, Ahead(k), h, t, n)
    ensures ExpectedUpTo(p, Ahead(k), h, t, n) <= GivesUpTo(p, k, h, n) + Weighed(Prefix(p, n), high)
    decreases n
  {
    hide Weighed, Gives, Taken, Within, ExpectedUpTo, Expected, Ahead;
    TakenNext(p, k, h, t, if n == 0 then 0 else n - 1);
    if n == 0 {
      WeighsApart(0.0, 0.0, low);
      WeighsApart(0.0, 0.0, high);
    } else {
      var i := n - 1;
      DrawsWithin(p, k, h, t, i, low, high);
      TakenWithin(p, k, h, t - 1, i, low, high);
      OneDrawWithin(p[i], Prefix(p, i), GivesUpTo(p, k, h, i), low, high, Gives(p, k, h, i),
                    Taken(p, k, h, t - 1, i), ExpectedUpTo(p, Ahead(k), h, t, i));
    }
  }

  /** The expected hits of the policy, from any history and for any number of draws: so many times the
      ceiling and the gain, within a bound that does not grow. */
  lemma {:induction false} AheadExpects(p: seq<real>, k: nat, h: seq<int>, t: nat, each: real)
    requires Room(p, k) && each == Ceiling(p, k) + Gain(p[k - 1], p[k])
    ensures WithinAt(p, k, h, t, Weighed(t as real, each) - 1.0, Weighed(t as real, each) + k as real)
    decreases t
  {
    if t == 0 {
      WorthBounds(p, k, h);
      hide Worth, Ceiling, Gain, Weighed;
      WeighsApart(0.0, 0.0, each);
    } else {
      hide Expected, Worth, Ceiling, Gain, Weighed, WithinAt, Room;
      var base := Weighed((t - 1) as real, each);
      forall i: nat | i < |p| ensures WithinAt(p, k, h + [i], t - 1, base - 1.0, base + k as real) {
        AheadExpects(p, k, h + [i], t - 1, each);
      }
      DrawsWithin(p, k, h, t, |p|, base - 1.0, base + k as real);
      GivesInAll(p, k, h);
      WeighsApart(1.0, (t - 1) as real, each);
      assert 1.0 + (t - 1) as real == t as real;
      DrawsAll(p, k, h, t, each, base);
    }
  }

  /** Over all draws the bounds are those of the step before, one draw further. */
  lemma DrawsAll(p: seq<real>, k: nat, h: seq<int>, t: nat, each: real, base: real)
    requires Room(p, k) && t > 0 && Weighed(t as real, each) == each + base
    requires GivesUpTo(p, k, h, |p|) == each + Worth(p, k, h)
    requires GivesUpTo(p, k, h, |p|) + Weighed(Prefix(p, |p|), base - 1.0) <= ExpectedUpTo(p, Ahead(k), h, t, |p|)
             <= GivesUpTo(p, k, h, |p|) + Weighed(Prefix(p, |p|), base + k as real)
    ensures WithinAt(p, k, h, t, Weighed(t as real, each) - 1.0, Weighed(t as real, each) + k as real)
  {
    hide Weighed, Worth, GivesUpTo, ExpectedUpTo, Ahead;
    WeighsApart(1.0, 0.0, base - 1.0);
    WeighsApart(1.0, 0.0, base + k as real);
  }

  lemma FromEmpty(p: seq<real>, k: nat, t: nat, each: real)
    requires Room(p, k) && each == Ceiling(p, k) + Gain(p[k - 1], p[k])
    ensures Gain(p[k - 1], p[k]) > 0.0
    ensures Weighed(t as real, each) - (k + 1) as real <= Expected(p, Ahead(k), [], t)
            <= Weighed(t as real, each) + (k + 1) as real
  {
    SlotEquations(p[k - 1], p[k]);
    WorthBounds(p, k, []);
    AheadExpects(p, k, [], t, each);
    hide Worth, Gain, Ceiling, Expected, Ahead, Room, Weighed;
  }

  /** From an empty cache, `each` draw is worth the ceiling and the gain: in the long run exactly. */
  lemma AheadOfCeiling(p: seq<real>, k: nat, t: nat, each: real)
    requires Room(p, k) && each == Ceiling(p, k) + Gain(p[k - 1], p[k])
    ensures each > Ceiling(p, k)
    ensures t as real * each - (k + 1) as real <= Expected(p, Ahead(k), [], t) <= t as real * each + (k + 1) as real
  {
    FromEmpty(p, k, t, each);
    hide Gain, Ceiling, Expected, Ahead, Room;
    Unweighed(t as real, each, Weighed(t as real, each));
  }

  lemma Unweighed(t: real, each: real, total: real)
    requires total == Weighed(t, each)
    ensures t * each == total
  {
  }

  // ---- when seeing ahead helps ----

  /** From some number of draws on, the policy is expected more hits than the ceiling allows. */
  ghost predicate Beats(p: seq<real>, policy: Policy, k: nat) {
    exists from: nat :: BeatsFrom(p, policy, k, from)
  }

  ghost predicate BeatsFrom(p: seq<real>, policy: Policy, k: nat, from: nat) {
    forall t: nat | t >= from :: Expected(p, policy, [], t) > t as real * Ceiling(p, k)
  }

  lemma {:induction false} HitsAreDraws(p: seq<real>, policy: Policy, h: seq<int>, t: nat)
    requires Table(p)
    ensures Expected(p, policy, h, t) <= t as real
    decreases t
  {
    if t > 0 {
      forall i: int ensures Expected(p, policy, h + [i], t - 1) <= (t - 1) as real {
        HitsAreDraws(p, policy, h + [i], t - 1);
      }
      AtMostOne(p, policy, h, t, |p|);
      WeighsApart(1.0, 0.0, t as real);
    }
  }

  lemma {:induction false} AtMostOne(p: seq<real>, policy: Policy, h: seq<int>, t: nat, n: nat)
    requires Positive(p) && t > 0 && n <= |p|
    requires forall i: int :: Expected(p, policy, h + [i], t - 1) <= (t - 1) as real
    ensures ExpectedUpTo(p, policy, h, t, n) <= Weighed(Prefix(p, n), t as real)
    decreases n
  {
    if n == 0 {
      WeighsApart(0.0, 0.0, t as real);
    } else {
      hide Weighed, Expected;
      var i := n - 1;
      AtMostOne(p, policy, h, t, i);
      var a := (if i in policy(h, i) then 1.0 else 0.0) + Expected(p, policy, h + [i], t - 1);
      Between(p[i], a, a, t as real);
      WeighsApart(Prefix(p, i), p[i], t as real);
    }
  }

  /** No room, no hits. */
  lemma {:induction false} NoRoomNoHits(p: seq<real>, policy: Policy, h: seq<int>, t: nat)
    requires Table(p) && Holds(policy, 0)
    ensures Expected(p, policy, h, t) == 0.0
    decreases t
  {
    forall i: int ensures policy(h, i) == {} {}
    if t > 0 {
      forall i: int ensures Expected(p, policy, h + [i], t - 1) == 0.0 { NoRoomNoHits(p, policy, h + [i], t - 1); }
      NothingFrom(p, policy, h, t, |p|);
    }
  }

  lemma {:induction false} NothingFrom(p: seq<real>, policy: Policy, h: seq<int>, t: nat, n: nat)
    requires t > 0 && n <= |p| && forall i: int :: policy(h, i) == {}
    requires forall i: int :: Expected(p, policy, h + [i], t - 1) == 0.0
    ensures ExpectedUpTo(p, policy, h, t, n) == 0.0
    decreases n
  {
    if n > 0 {
      NothingFrom(p, policy, h, t, n - 1);
      WeighsApart(p[n - 1], 0.0, 0.0);
    }
  }

  /** Seeing ahead beats the ceiling exactly when there is room for some keys and not for all: then one
      draw ahead is enough, filled by demand, on every table; otherwise no policy at all does. */
  lemma ForesightBeatsCeiling(p: seq<real>, k: nat)
    requires Table(p)
    ensures (exists policy: Policy :: Holds(policy, k) && Demand(policy) && Beats(p, policy, k)) <==> 0 < k < |p|
    ensures !(0 < k < |p|) ==> forall policy: Policy | Holds(policy, k) :: !Beats(p, policy, k)
  {
    if 0 < k < |p| {
      AheadIsDemand(k);
      AheadBeats(p, k);
    } else {
      forall policy: Policy | Holds(policy, k) ensures !Beats(p, policy, k) {
        NothingBeats(p, policy, k);
      }
    }
  }

  lemma NothingBeats(p: seq<real>, policy: Policy, k: nat)
    requires Table(p) && Holds(policy, k) && !(0 < k < |p|)
    ensures !Beats(p, policy, k)
  {
    forall from: nat ensures !BeatsFrom(p, policy, k, from) {
      if k == 0 {
        NoRoomNoHits(p, policy, [], from);
        assert from as real * 0.0 == 0.0;
      } else {
        HitsAreDraws(p, policy, [], from);
        assert from as real * 1.0 == from as real;
      }
    }
  }

  lemma AheadBeats(p: seq<real>, k: nat)
    requires Room(p, k)
    ensures Beats(p, Ahead(k), k)
  {
    var gain, bound := Gain(p[k - 1], p[k]), (k + 1) as real;
    FromEmpty(p, k, 0, Ceiling(p, k) + gain);
    hide Gain, Ceiling, Expected, Ahead, Room;
    var from := FloorAbove(bound, gain);
    forall t: nat | t >= from ensures Expected(p, Ahead(k), [], t) > t as real * Ceiling(p, k) {
      AheadBeatsAt(p, k, t, from);
    }
    assert BeatsFrom(p, Ahead(k), k, from);
  }

  lemma AheadBeatsAt(p: seq<real>, k: nat, t: nat, from: nat)
    requires Room(p, k) && Gain(p[k - 1], p[k]) > 0.0
    requires from == FloorAbove((k + 1) as real, Gain(p[k - 1], p[k])) && t >= from
    ensures Expected(p, Ahead(k), [], t) > t as real * Ceiling(p, k)
  {
    var c, gain := Ceiling(p, k), Gain(p[k - 1], p[k]);
    FromEmpty(p, k, t, c + gain);
    Outgrows(t, (k + 1) as real, gain);
    hide Gain, Ceiling, Expected, Ahead, Room, Weighed;
    WeighsApart(t as real, c, gain);
    Unweighed(t as real, c, Weighed(t as real, c));
  }

  /** From this number on, so many times the gain is more than the bound. */
  function FloorAbove(bound: real, gain: real): (from: nat)
    requires gain > 0.0 && bound > 0.0
    ensures from > (bound / gain).Floor
  {
    Cancels(0.0, bound / gain, gain);
    (bound / gain).Floor + 1
  }

  lemma Outgrows(t: nat, bound: real, gain: real)
    requires gain > 0.0 && t > (bound / gain).Floor
    ensures Weighed(t as real, gain) > bound
  {
    Over(bound, gain);
    Cancels(t as real, bound / gain, gain);
  }

  /** On two keys drawn in the ratio `r` the share of draws that miss is `1 / (1 + r + 1 / r)`, where
      the ceiling's is `1 / (1 + r)`. */
  lemma TwoKeys(a: real, b: real)
    requires 0.0 < b <= a && a + b == 1.0
    ensures var p, r := [a, b], a / b;
            && Room(p, 1)
            && 1.0 - Ceiling(p, 1) == 1.0 / (1.0 + r)
            && 1.0 - (Ceiling(p, 1) + Gain(a, b)) == 1.0 / (1.0 + r + 1.0 / r)
  {
    var p := [a, b];
    assert Prefix(p, 1) == a && Prefix(p, 2) == 1.0;
  }
}
