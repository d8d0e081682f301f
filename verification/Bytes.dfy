/** Octets, machine integers and the fixed-width codings every wire format here is built from. */
module Bytes {

  type byte = b: int | 0 <= b < 256

  const TWO_32: int := 0x1_0000_0000
  const TWO_63: int := 0x8000_0000_0000_0000
  const TWO_64: int := 0x1_0000_0000_0000_0000

  function Pow2(k: nat): (p: nat)
    ensures p >= 1
  {
    if k == 0 then 1 else 2 * Pow2(k - 1)
  }

  /** Bit `k` of a number. */
  function Bit(v: nat, k: nat): nat {
    v / Pow2(k) % 2
  }

  lemma Quotient(v: nat, m: nat, q: nat, r: nat)
    requires v == m * q + r && r < m
    ensures v / m == q
  {
    var d := v / m - q;
    assert m * d == r - v % m;
    Between(m, d);
  }

  lemma Between(m: nat, d: int)
    requires m > 0 && 0 - m < m * d < m
    ensures d == 0
  {
  }

  lemma Regroup(a: nat, b: nat, s: nat, t: nat)
    ensures a * (b * s + t) == (a * b) * s + a * t
  {
    Associates(a, b, s);
    Distributes(a, b * s, t);
  }

  lemma Associates(a: nat, b: nat, c: nat)
    ensures a * (b * c) == (a * b) * c
  {
  }

  lemma Distributes(a: nat, b: nat, c: nat)
    ensures a * (b + c) == a * b + a * c
  {
  }

  lemma DivideTwice(v: nat, a: nat, b: nat)
    requires a > 0 && b > 0
    ensures a * b > 0 && v / a / b == v / (a * b)
  {
    var q, r := v / a, v % a;
    var s, t := q / b, q % b;
    Regroup(a, b, s, t);
    TopGroup(a, b, t);
    Quotient(v, a * b, s, a * t + r);
  }

  lemma TopGroup(a: nat, b: nat, t: nat)
    requires a > 0 && t < b
    ensures a * t + a <= a * b
  {
    Distributes(a, t, b - t);
    AtLeast(a, b - t);
  }

  lemma AtLeast(a: nat, c: nat)
    requires c > 0
    ensures a * c >= a
  {
  }

  lemma BitAbove(v: nat, k: nat)
    ensures Bit(v, k + 1) == Bit(v / 2, k) && Bit(v, 0) == v % 2
  {
    DivideTwice(v, 2, Pow2(k));
  }

  lemma {:induction false} PowersJoin(a: nat, b: nat)
    ensures Pow2(a + b) == Pow2(a) * Pow2(b)
  {
    if a > 0 {
      PowersJoin(a - 1, b);
      Associates(2, Pow2(a - 1), Pow2(b));
    }
  }

  lemma SmallPowers()
    ensures Pow2(7) == 128 && Pow2(8) == 256
  {
    assert Pow2(4) == 16;
  }

  /** The value of bit group `k` in a base-128 integer: a shift by 7k bits. */
  function Pow128(k: nat): (p: nat)
    ensures p >= 1
  {
    if k == 0 then 1 else 128 * Pow128(k - 1)
  }

  /** `v << 7k`. */
  function Shift(v: nat, k: nat): nat {
    v * Pow128(k)
  }

  function Pow256(n: nat): (p: nat)
    ensures p >= 1
  {
    if n == 0 then 1 else 256 * Pow256(n - 1)
  }

  lemma Pow128Nine()
    ensures Pow128(9) == TWO_63
  {
    assert Pow128(3) == 0x20_0000;
    assert Pow128(6) == 0x400_0000_0000;
  }

  lemma Remainder64(v: nat, q: nat, r: nat)
    requires v == q * TWO_64 + r && r < TWO_64
    ensures v % TWO_64 == r
  {
    var d := v / TWO_64 - q;
    assert d * TWO_64 == r - v % TWO_64;
    assert d < 1 && d > -1;
  }

  /** Modulo 2^64. */
  function Wrap64(v: nat): (w: nat)
    ensures w < TWO_64 && (v < TWO_64 ==> w == v)
  {
    v % TWO_64
  }

  /** A sum may be wrapped at any point. */
  lemma Wraps64(a: nat, b: nat)
    ensures Wrap64(Wrap64(a) + b) == Wrap64(a + b)
  {
    var q, r := a / TWO_64, a % TWO_64;
    var p, s := (r + b) / TWO_64, (r + b) % TWO_64;
    Remainder64(a + b, q + p, s);
  }

  /** Adding changes a wrapped sum unless what is added wraps to nothing. */
  lemma Cancels64(a: nat, b: nat)
    ensures Wrap64(a + b) == Wrap64(a) <==> Wrap64(b) == 0
  {
    var q, r, p, s := a / TWO_64, a % TWO_64, b / TWO_64, b % TWO_64;
    if r + s < TWO_64 {
      Remainder64(a + b, q + p, r + s);
    } else {
      Remainder64(a + b, q + p + 1, r + s - TWO_64);
    }
  }

  /** Base-128 groups, least significant first, the high bit set on all but the last. */
  function EncodeVarint(v: nat): (s: seq<byte>)
    ensures |s| >= 1
  {
    if v < 128 then [v] else [v % 128 + 128] + EncodeVarint(v / 128)
  }

  lemma {:induction false} VarintLength(v: nat, k: nat)
    requires v < Pow128(k + 1) && (k > 0 ==> Pow128(k) <= v)
    ensures |EncodeVarint(v)| == k + 1
    decreases k
  {
    if k > 0 {
      assert Pow128(k + 1) == 128 * Pow128(k) && Pow128(k) == 128 * Pow128(k - 1);
      assert v >= 128 && v / 128 < Pow128(k) && (k > 1 ==> Pow128(k - 1) <= v / 128);
      VarintLength(v / 128, k - 1);
    }
  }

  /** Octet `k` has seven bits of `v`, from bit 7k on, and a high bit unless it is the last. */
  lemma {:induction false} VarintGroups(v: nat, k: nat)
    requires k < |EncodeVarint(v)|
    ensures EncodeVarint(v)[k] % 128 == v / Pow2(7 * k) % 128
    ensures EncodeVarint(v)[k] >= 128 <==> k < |EncodeVarint(v)| - 1
    decreases v
  {
    SmallPowers();
    if k > 0 {
      VarintGroups(v / 128, k - 1);
      PowersJoin(7, 7 * (k - 1));
      DivideTwice(v, 128, Pow2(7 * (k - 1)));
    }
  }

  /** The octets are as many as `v` has need of. */
  lemma {:induction false} VarintFits(v: nat)
    ensures v < Pow2(7 * |EncodeVarint(v)|)
    ensures |EncodeVarint(v)| > 1 ==> v >= Pow2(7 * (|EncodeVarint(v)| - 1))
    decreases v
  {
    SmallPowers();
    if v >= 128 {
      var n := |EncodeVarint(v / 128)|;
      VarintFits(v / 128);
      PowersJoin(7, 7 * n);
      PowersJoin(7, 7 * (n - 1));
    }
  }

  lemma TenOctets(v: nat)
    requires TWO_63 <= v < TWO_64
    ensures |EncodeVarint(v)| == 10
  {
    Pow128Nine();
    assert Pow128(10) == 128 * Pow128(9);
    VarintLength(v, 9);
  }

  /** `v` in `n` octets, least significant first. */
  function LittleEndian(v: nat, n: nat): (s: seq<byte>)
    ensures |s| == n
  {
    if n == 0 then [] else [v % 256] + LittleEndian(v / 256, n - 1)
  }

  function FromLittleEndian(s: seq<byte>): (v: nat)
    ensures v < Pow256(|s|)
  {
    if s == [] then 0 else s[0] + 256 * FromLittleEndian(s[1..])
  }

  lemma {:induction false} LittleEndianRoundTrip(v: nat, n: nat)
    requires v < Pow256(n)
    ensures FromLittleEndian(LittleEndian(v, n)) == v
  {
    if n > 0 {
      LittleEndianRoundTrip(v / 256, n - 1);
      assert LittleEndian(v, n)[1..] == LittleEndian(v / 256, n - 1);
    }
  }

  lemma {:induction false} LittleEndianOctets(v: nat, n: nat, k: nat)
    requires k < n
    ensures LittleEndian(v, n)[k] == v / Pow2(8 * k) % 256
  {
    SmallPowers();
    if k > 0 {
      LittleEndianOctets(v / 256, n - 1, k - 1);
      PowersJoin(8, 8 * (k - 1));
      DivideTwice(v, 256, Pow2(8 * (k - 1)));
    }
  }

  /** `v` in `n` octets, most significant first. */
  function BigEndian(v: nat, n: nat): (s: seq<byte>)
    ensures |s| == n
  {
    if n == 0 then [] else BigEndian(v / 256, n - 1) + [v % 256]
  }

  function FromBigEndian(s: seq<byte>): (v: nat)
    ensures v < Pow256(|s|)
  {
    if s == [] then 0 else 256 * FromBigEndian(s[..|s| - 1]) + s[|s| - 1]
  }

  lemma {:induction false} BigEndianRoundTrip(v: nat, n: nat)
    requires v < Pow256(n)
    ensures FromBigEndian(BigEndian(v, n)) == v
  {
    if n > 0 {
      BigEndianRoundTrip(v / 256, n - 1);
      assert BigEndian(v, n)[..n - 1] == BigEndian(v / 256, n - 1);
    }
  }

  lemma {:induction false} BigEndianOctets(v: nat, n: nat, k: nat)
    requires k < n
    ensures BigEndian(v, n)[k] == v / Pow2(8 * (n - 1 - k)) % 256
  {
    SmallPowers();
    if k < n - 1 {
      BigEndianOctets(v / 256, n - 1, k);
      PowersJoin(8, 8 * (n - 2 - k));
      DivideTwice(v, 256, Pow2(8 * (n - 2 - k)));
    }
  }

  lemma Pow256Values()
    ensures Pow256(2) == 0x1_0000 && Pow256(3) == 0x100_0000
    ensures Pow256(4) == TWO_32 && Pow256(8) == TWO_64
  {
    assert Pow256(6) == 0x1_0000_0000_0000;
  }
}
