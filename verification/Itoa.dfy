/**
 Decimal digits without division, as in itoa.c: reciprocal multiplications on
 several lanes of a 64-bit word at once.
 */
module Itoa {
  import opened Bits

  const W := 0x1_0000_0000_0000_0000
  type Byte = x: int | 0 <= x < 256

  // ---- What the digits of a number are --------------------------------------

  // The decimal digits as ASCII, most significant first.
  function Dec(x: nat): (r: seq<Byte>)
    ensures r != []
  {
    if x < 10 then [0x30 + x] else Dec(x / 10) + [0x30 + x % 10]
  }

  // The last `k` digits, with leading zeros.
  function Pad(x: nat, k: nat): (r: seq<Byte>)
    ensures |r| == k
  {
    if k == 0 then [] else Pad(x / 10, k - 1) + [0x30 + x % 10]
  }

  function Pow10(k: nat): (p: nat)
    ensures 0 < p
  {
    if k == 0 then 1 else 10 * Pow10(k - 1)
  }

  // What a string of digits means.
  function Value(ds: seq<Byte>): int {
    if ds == [] then 0 else
      var c: int := ds[|ds| - 1];
      10 * Value(ds[..|ds| - 1]) + (c - 0x30)
  }

  // Dec is the inverse of Value, without leading zeros.
  lemma {:induction false} DecMeans(x: nat)
    ensures Value(Dec(x)) == x && (forall i :: 0 <= i < |Dec(x)| ==> 0x30 <= Dec(x)[i] <= 0x39)
    ensures Dec(x)[0] == 0x30 ==> x == 0
    decreases x
  {
    hide *;
    DecStep(x);
    if 10 <= x {
      DecMeans(x / 10);
      ValueSnoc(Dec(x / 10), 0x30 + x % 10);
    } else {
      ValueSnoc([], 0x30 + x);
    }
  }

  lemma DecStep(x: nat)
    ensures Dec(x) == if x < 10 then [] + [0x30 + x] else Dec(x / 10) + [0x30 + x % 10]
    ensures Value([]) == 0
  {
  }

  lemma ValueSnoc(ds: seq<Byte>, d: Byte)
    ensures Value(ds + [d]) == 10 * Value(ds) + (d - 0x30)
  {
    assert (ds + [d])[..|ds|] == ds;
  }

  lemma {:induction false} PadEndsInDec(x: nat, k: nat)
    requires |Dec(x)| <= k
    ensures Pad(x, k)[k - |Dec(x)|..] == Dec(x)
    decreases k
  {
    if x < 10 {
      assert Pad(x, k)[k - 1..] == [0x30 + x % 10];
    } else {
      PadEndsInDec(x / 10, k - 1);
      var p, d := Pad(x / 10, k - 1), |Dec(x / 10)|;
      assert (p + [0x30 + x % 10])[k - (d + 1)..] == p[k - 1 - d..] + [0x30 + x % 10];
    }
  }

  // High digits, then `k` low digits.
  lemma {:induction false} DecHighLow(h: nat, l: nat, k: nat)
    requires 0 < h && l < Pow10(k)
    ensures Dec(h * Pow10(k) + l) == Dec(h) + Pad(l, k)
    decreases k
  {
    if k == 0 {
      assert h * Pow10(0) == h;
    } else {
      var p := Pow10(k - 1);
      var x := h * Pow10(k) + l;
      TenTimes(h, p);
      assert x == 10 * (h * p + l / 10) + l % 10;
      AtLeast(h, p);
      DecHighLow(h, l / 10, k - 1);
      assert x / 10 == h * p + l / 10 && x % 10 == l % 10;
    }
  }

  lemma TenTimes(h: nat, p: nat)
    ensures h * (10 * p) == 10 * (h * p)
  {
  }

  lemma AtLeast(h: nat, p: nat)
    requires 0 < h
    ensures p <= h * p
  {
    assert h * p == (h - 1) * p + p;
  }

  lemma DecLength(x: nat)
    requires x < 100_000_000
    ensures |Dec(x)| ==
      if x <= 9 then 1 else if x <= 99 then 2 else if x <= 999 then 3 else if x <= 9999 then 4
      else if x <= 99999 then 5 else if x <= 999999 then 6 else if x <= 9999999 then 7 else 8
    decreases x
  {
    if 10 <= x {
      DecLength(x / 10);
    }
  }

  // Two digits.
  function Two(v: nat): (r: seq<Byte>)
    requires v <= 99
    ensures |r| == 2
  {
    [0x30 + v / 10, 0x30 + v % 10]
  }

  // Two digits behind the others.
  lemma PadTwo(x: nat, y: nat, k: nat)
    requires y <= 99
    ensures Pad(100 * x + y, k + 2) == Pad(x, k) + Two(y)
  {
    var n := 100 * x + y;
    assert n / 10 == 10 * x + y / 10 && n % 10 == y % 10;
    assert n / 10 / 10 == x && n / 10 % 10 == y / 10;
    assert Pad(n, k + 2) == Pad(n / 10, k + 1) + [0x30 + n % 10];
    assert Pad(n / 10, k + 1) == Pad(x, k) + [0x30 + y / 10];
  }

  // ---- Lanes ----------------------------------------------------------------

  // Four lanes of 16 bits.
  function Lanes(a: nat, b: nat, c: nat, d: nat): nat {
    a + 0x1_0000 * (b + 0x1_0000 * (c + 0x1_0000 * d))
  }

  lemma Pow2Is16()
    ensures Pow2(16) == 0x1_0000
  {
    assert Pow2(4) == 16;
    assert Pow2(8) == 256;
    assert Pow2(12) == 4096;
  }

  lemma AndLanes(a: nat, b: nat, c: nat, d: nat, e: nat, f: nat, g: nat, h: nat)
    requires a < 0x1_0000 && b < 0x1_0000 && c < 0x1_0000 && e < 0x1_0000 && f < 0x1_0000 && g < 0x1_0000
    ensures And(Lanes(a, b, c, d), Lanes(e, f, g, h)) == Lanes(And(a, e), And(b, f), And(c, g), And(d, h))
  {
    hide And, Pow2;
    Pow2Is16();
    AndLane(16, c, d, g, h);
    AndLane(16, b, c + 0x1_0000 * d, f, g + 0x1_0000 * h);
    AndLane(16, a, b + 0x1_0000 * (c + 0x1_0000 * d), e, f + 0x1_0000 * (g + 0x1_0000 * h));
  }

  lemma OrLanes(a: nat, b: nat, c: nat, d: nat, e: nat, f: nat, g: nat, h: nat)
    requires a < 0x1_0000 && b < 0x1_0000 && c < 0x1_0000 && e < 0x1_0000 && f < 0x1_0000 && g < 0x1_0000
    ensures Or(Lanes(a, b, c, d), Lanes(e, f, g, h)) == Lanes(Or(a, e), Or(b, f), Or(c, g), Or(d, h))
  {
    hide Or, Pow2;
    Pow2Is16();
    OrLane(16, c, d, g, h);
    OrLane(16, b, c + 0x1_0000 * d, f, g + 0x1_0000 * h);
    OrLane(16, a, b + 0x1_0000 * (c + 0x1_0000 * d), e, f + 0x1_0000 * (g + 0x1_0000 * h));
  }

  // The reciprocals are exact on their ranges.
  lemma TenthOf(v: nat)
    requires v <= 99
    ensures v * 103 / 512 / 2 == v / 10 && v * 103 / 512 < 20
  {
  }

  lemma HundredthOf(v: nat)
    requires v <= 9999
    ensures v * 5243 / 0x8_0000 == v / 100
  {
    var q, r := v / 100, v % 100;
    assert v * 5243 == q * 0x8_0000 + (q * 12 + r * 5243);
  }

  lemma TenThousandthOf(v: nat)
    requires v < 100_000_000
    ensures v * 109951163 / 0x100_0000_0000 == v / 10000
  {
    var q, r := v / 10000, v % 10000;
    assert v * 109951163 == q * 0x100_0000_0000 + (q * 2224 + r * 109951163);
  }

  // ((low * 103) >> 9) & 0x1E..: twice the tens of every lane.
  lemma TensOfLanes(a: nat, b: nat, c: nat, d: nat)
    requires a <= 99 && b <= 99 && c <= 99 && d <= 99
    ensures Lanes(a, b, c, d) * 103 < W
    ensures And(Lanes(a, b, c, d) * 103 / 512, Lanes(0x1E, 0x1E, 0x1E, 0x1E))
      == Lanes(2 * (a / 10), 2 * (b / 10), 2 * (c / 10), 2 * (d / 10))
  {
    hide And, Lanes;
    TensBound(a, b, c, d);
    var x := Lanes(a, b, c, d) * 103;
    var qa, qb, qc, qd := a * 103 / 512, b * 103 / 512, c * 103 / 512, d * 103 / 512;
    var ra, rb, rc, rd := a * 103 % 512, b * 103 % 512, c * 103 % 512, d * 103 % 512;
    var y := Lanes(qa + 128 * rb, qb + 128 * rc, qc + 128 * rd, qd);
    TensApart(a, b, c, d);
    Quotient9(y, ra);
    TenthOf(a);
    TenthOf(b);
    TenthOf(c);
    TenthOf(d);
    AndLanes(qa + 128 * rb, qb + 128 * rc, qc + 128 * rd, qd, 0x1E, 0x1E, 0x1E, 0x1E);
    TensOfLane(qa, rb);
    TensOfLane(qb, rc);
    TensOfLane(qc, rd);
    TensOfLane(qd, 0);
    assert qd + 128 * 0 == qd;
  }

  lemma TensBound(a: nat, b: nat, c: nat, d: nat)
    requires a <= 99 && b <= 99 && c <= 99 && d <= 99
    ensures Lanes(a, b, c, d) * 103 < W
  {
  }

  // The products of the lanes, 512 of each being one of the next.
  lemma TensApart(a: nat, b: nat, c: nat, d: nat)
    ensures
      var qa, qb, qc, qd := a * 103 / 512, b * 103 / 512, c * 103 / 512, d * 103 / 512;
      var ra, rb, rc, rd := a * 103 % 512, b * 103 % 512, c * 103 % 512, d * 103 % 512;
      Lanes(a, b, c, d) * 103 == 512 * Lanes(qa + 128 * rb, qb + 128 * rc, qc + 128 * rd, qd) + ra
  {
  }

  lemma TensOfLane(q: nat, r: nat)
    requires q < 20
    ensures And(q + 128 * r, 0x1E) == 2 * (q / 2)
  {
    hide And;
    And1E(q + 128 * r);
    HalfAbove(q, r);
    LowBits(q / 2, r);
  }

  lemma Quotient9(y: nat, r: nat)
    requires r < 512
    ensures (512 * y + r) / 512 == y
  {
  }

  lemma HalfAbove(q: nat, r: nat)
    ensures (q + 128 * r) / 2 == q / 2 + 64 * r
  {
    assert q + 128 * r == 2 * (q / 2 + 64 * r) + q % 2;
  }

  lemma LowBits(h: nat, r: nat)
    requires h < 16
    ensures (h + 64 * r) % 16 == h
  {
    Remainder16(h + 64 * r, 4 * r, h);
  }

  // ---- Bytes ----------------------------------------------------------------

  // A word in memory, least significant byte first.
  function Bytes(v: nat, n: nat): (r: seq<Byte>)
    ensures |r| == n
  {
    if n == 0 then [] else [v % 256] + Bytes(v / 256, n - 1)
  }

  // Two bytes as a 16-bit number.
  function Pair(x: Byte, y: Byte): (n: nat)
    ensures n < 0x1_0000
  {
    var u: int, v: int := x, y;
    u + 256 * v
  }

  lemma BytesOfLanes(p: seq<Byte>, q: seq<Byte>, r: seq<Byte>, t: seq<Byte>)
    requires |p| == |q| == |r| == |t| == 2
    ensures Bytes(Lanes(Pair(p[0], p[1]), Pair(q[0], q[1]), Pair(r[0], r[1]), Pair(t[0], t[1])), 8) == p + (q + (r + t))
  {
    hide Bytes;
    var d := Pair(t[0], t[1]);
    var c := Pair(r[0], r[1]) + 0x1_0000 * d;
    var b := Pair(q[0], q[1]) + 0x1_0000 * c;
    TwoBytes(t[0], t[1], 0, 2);
    TwoBytes(r[0], r[1], d, 4);
    TwoBytes(q[0], q[1], c, 6);
    TwoBytes(p[0], p[1], b, 8);
    assert p == [p[0], p[1]] && q == [q[0], q[1]] && r == [r[0], r[1]] && t == [t[0], t[1]] + [];
  }

  lemma TwoBytes(x: Byte, y: Byte, rest: nat, n: nat)
    requires 2 <= n
    ensures Bytes(Pair(x, y) + 0x1_0000 * rest, n) == [x, y] + Bytes(rest, n - 2)
    ensures n == 2 ==> Bytes(rest, n - 2) == []
  {
    hide Bytes;
    var u: int, v: int := x, y;
    OneByte(u, v + 256 * rest, n);
    OneByte(v, rest, n - 1);
    assert Pair(x, y) + 0x1_0000 * rest == u + 256 * (v + 256 * rest);
    NoBytes(rest);
  }

  lemma NoBytes(v: nat)
    ensures Bytes(v, 0) == []
  {
  }

  lemma OneByte(x: int, rest: nat, n: nat)
    requires 1 <= n && 0 <= x < 256
    ensures Bytes(x + 256 * rest, n) == [x] + Bytes(rest, n - 1)
  {
    var w := x + 256 * rest;
    assert w % 256 == x && w / 256 == rest;
  }

  // ---- The steps of the conversion ------------------------------------------

  const W32 := 0x1_0000_0000

  lemma Pow2Is32()
    ensures Pow2(4) == 16 && Pow2(8) == 256 && Pow2(32) == W32
  {
    Pow2Is16();
    assert Pow2(20) == 0x10_0000;
    assert Pow2(24) == 0x100_0000;
    assert Pow2(28) == 0x1000_0000;
  }

  // Half words: the low one is added, the high one shifted in.
  lemma Halves(lo: nat, hi: nat)
    requires lo < W32
    ensures Or(lo, hi * W32) == lo + W32 * hi
  {
    hide Or, Pow2;
    Pow2Is32();
    OrDisjoint(32, lo, hi);
  }

  // low -= ll * 10000; low |= ll << 32.
  lemma TenThousands(x: nat)
    requires x < 100_000_000
    ensures x * 109951163 < W
    ensures var ll := x * 109951163 / 0x100_0000_0000;
      && ll == x / 10000 && ll * W32 < W && Or(x - ll * 10000, ll * W32) == x % 10000 + W32 * (x / 10000)
  {
    hide Or;
    TenThousandthOf(x);
    Halves(x % 10000, x / 10000);
  }

  // ((low * 5243) >> 19) & 0xFF..: the hundreds of both half words.
  lemma Hundreds(b: nat, a: nat)
    requires a <= 9999 && b <= 9999
    ensures (b + W32 * a) * 5243 < W
    ensures And((b + W32 * a) * 5243 / 0x8_0000, 0xFF + W32 * 0xFF) == b / 100 + W32 * (a / 100)
  {
    hide And, Pow2;
    var qa, ra, qb, rb := a * 5243 / 0x8_0000, a * 5243 % 0x8_0000, b * 5243 / 0x8_0000, b * 5243 % 0x8_0000;
    assert a * 5243 == 0x8_0000 * qa + ra && b * 5243 == 0x8_0000 * qb + rb;
    assert (b + W32 * a) * 5243 == (0x8_0000 * qb + rb) + W32 * (0x8_0000 * qa + ra);
    HundredthOf(a);
    HundredthOf(b);
    HundredsOfParts(qa, ra, qb, rb);
  }

  lemma HundredsOfParts(qa: nat, ra: nat, qb: nat, rb: nat)
    requires qa <= 99 && qb <= 99 && ra < 0x8_0000 && rb < 0x8_0000
    ensures And(((0x8_0000 * qb + rb) + W32 * (0x8_0000 * qa + ra)) / 0x8_0000, 0xFF + W32 * 0xFF) == qb + W32 * qa
  {
    hide And, Pow2;
    var lo := qb + 0x2000 * ra;
    assert (0x8_0000 * qb + rb) + W32 * (0x8_0000 * qa + ra) == 0x8_0000 * (lo + W32 * qa) + rb;
    Quotient19(lo + W32 * qa, rb);
    Pow2Is32();
    AndLane(32, lo, qa, 0xFF, 0xFF);
    AndFF(lo);
    AndFF(qa);
    LowByte(qb, ra);
  }

  lemma Quotient19(y: nat, r: nat)
    requires r < 0x8_0000
    ensures (0x8_0000 * y + r) / 0x8_0000 == y
  {
  }

  lemma LowByte(q: nat, r: nat)
    requires q < 256
    ensures (q + 0x2000 * r) % 256 == q == q % 256
  {
    Remainder256(q + 0x2000 * r, 32 * r, q);
    Remainder256(q, 0, q);
  }

  // low -= ll * 100; low = (low << 16) | ll: four lanes of two digits.
  lemma FourLanes(b: nat, a: nat)
    requires a <= 9999 && b <= 9999
    ensures
      var low, ll := b + W32 * a, b / 100 + W32 * (a / 100);
      && ll * 100 <= low && (low - ll * 100) * 0x1_0000 < W
      && Or((low - ll * 100) * 0x1_0000, ll) == Lanes(b / 100, b % 100, a / 100, a % 100)
  {
    hide Or;
    var low, ll := b + W32 * a, b / 100 + W32 * (a / 100);
    assert low - ll * 100 == b % 100 + W32 * (a % 100);
    assert (low - ll * 100) * 0x1_0000 == Lanes(0, b % 100, 0, a % 100);
    assert ll == Lanes(b / 100, 0, a / 100, 0);
    OrLanes(0, b % 100, 0, a % 100, b / 100, 0, a / 100, 0);
    OrZero(b / 100);
    OrZero(b % 100);
    OrZero(a / 100);
    OrZero(a % 100);
  }

  // A lane with its two digits in different halves of a byte.
  function Bcd(v: nat): nat {
    16 * (v / 10) + v % 10
  }

  // low += ll * 3.
  lemma ToBcd(a: nat, b: nat, c: nat, d: nat)
    ensures Lanes(a, b, c, d) + Lanes(2 * (a / 10), 2 * (b / 10), 2 * (c / 10), 2 * (d / 10)) * 3
      == Lanes(Bcd(a), Bcd(b), Bcd(c), Bcd(d))
  {
    BcdOf(a);
    BcdOf(b);
    BcdOf(c);
    BcdOf(d);
  }

  lemma BcdOf(v: nat)
    ensures v + 6 * (v / 10) == Bcd(v)
  {
  }

  // A lane with a digit in each of its two bytes.
  function Digits(v: nat): nat {
    v / 10 + 256 * (v % 10)
  }

  // ((low & 0x00F0..) >> 4) | (low & 0x000F..) << 8.
  lemma Spread(a: nat, b: nat, c: nat, d: nat)
    requires a <= 99 && b <= 99 && c <= 99 && d <= 99
    ensures
      var low := Lanes(Bcd(a), Bcd(b), Bcd(c), Bcd(d));
      && And(low, Lanes(0x0F, 0x0F, 0x0F, 0x0F)) * 256 < W
      && Or(And(low, Lanes(0xF0, 0xF0, 0xF0, 0xF0)) / 16, And(low, Lanes(0x0F, 0x0F, 0x0F, 0x0F)) * 256)
         == Lanes(Digits(a), Digits(b), Digits(c), Digits(d))
  {
    hide And, Or, Lanes;
    SpreadLow(a, b, c, d);
    SpreadHigh(a, b, c, d);
    Nibbles(a);
    Nibbles(b);
    Nibbles(c);
    Nibbles(d);
    OrLanes(a / 10, b / 10, c / 10, d / 10, 256 * (a % 10), 256 * (b % 10), 256 * (c % 10), 256 * (d % 10));
  }

  lemma SpreadHigh(a: nat, b: nat, c: nat, d: nat)
    requires a <= 99 && b <= 99 && c <= 99 && d <= 99
    ensures And(Lanes(Bcd(a), Bcd(b), Bcd(c), Bcd(d)), Lanes(0xF0, 0xF0, 0xF0, 0xF0)) / 16
      == Lanes(a / 10, b / 10, c / 10, d / 10)
  {
    hide And, Lanes;
    Nibbles(a);
    Nibbles(b);
    Nibbles(c);
    Nibbles(d);
    AndLanes(Bcd(a), Bcd(b), Bcd(c), Bcd(d), 0xF0, 0xF0, 0xF0, 0xF0);
    SixteenTimes(a / 10, b / 10, c / 10, d / 10);
  }

  lemma SixteenTimes(a: nat, b: nat, c: nat, d: nat)
    ensures Lanes(16 * a, 16 * b, 16 * c, 16 * d) / 16 == Lanes(a, b, c, d)
  {
    assert Lanes(16 * a, 16 * b, 16 * c, 16 * d) == 16 * Lanes(a, b, c, d);
  }

  lemma SpreadLow(a: nat, b: nat, c: nat, d: nat)
    requires a <= 99 && b <= 99 && c <= 99 && d <= 99
    ensures And(Lanes(Bcd(a), Bcd(b), Bcd(c), Bcd(d)), Lanes(0x0F, 0x0F, 0x0F, 0x0F)) * 256
      == Lanes(256 * (a % 10), 256 * (b % 10), 256 * (c % 10), 256 * (d % 10)) < W
  {
    hide And, Lanes;
    Nibbles(a);
    Nibbles(b);
    Nibbles(c);
    Nibbles(d);
    AndLanes(Bcd(a), Bcd(b), Bcd(c), Bcd(d), 0x0F, 0x0F, 0x0F, 0x0F);
    ByteTimes(a % 10, b % 10, c % 10, d % 10);
  }

  lemma ByteTimes(a: nat, b: nat, c: nat, d: nat)
    requires a <= 9 && b <= 9 && c <= 9 && d <= 9
    ensures Lanes(a, b, c, d) * 256 == Lanes(256 * a, 256 * b, 256 * c, 256 * d) < W
  {
  }

  lemma Nibbles(v: nat)
    requires v <= 99
    ensures And(Bcd(v), 0xF0) == 16 * (v / 10) && And(Bcd(v), 0x0F) == v % 10
    ensures Or(v / 10, 256 * (v % 10)) == Digits(v) && Bcd(v) < 0x1_0000
  {
    hide And, Or, Pow2;
    AndF0(Bcd(v));
    And0F(Bcd(v));
    Pow2Is32();
    OrDisjoint(8, v / 10, v % 10);
  }

  // ll = (ll >> 32) | (ll << 32).
  lemma Swap(a: nat, b: nat, c: nat, d: nat)
    requires a < 0x1_0000 && b < 0x1_0000 && c < 0x1_0000 && d < 0x1_0000
    ensures Or(Lanes(a, b, c, d) / W32, Lanes(a, b, c, d) * W32 % W) == Lanes(c, d, a, b)
  {
    hide Or;
    var lo, hi := a + 0x1_0000 * b, c + 0x1_0000 * d;
    assert Lanes(a, b, c, d) == lo + W32 * hi && Lanes(c, d, a, b) == hi + W32 * lo;
    assert (lo + W32 * hi) * W32 == lo * W32 + W * hi;
    assert (lo * W32 + W * hi) % W == lo * W32;
    Halves(hi, lo);
  }

  // ll |= 0x3030..: digits become characters.
  lemma ToAscii(a: nat, b: nat, c: nat, d: nat)
    requires a <= 99 && b <= 99 && c <= 99 && d <= 99
    ensures Or(Lanes(Digits(a), Digits(b), Digits(c), Digits(d)), Lanes(0x3030, 0x3030, 0x3030, 0x3030))
      == Lanes(Chars(a), Chars(b), Chars(c), Chars(d))
  {
    hide Or;
    CharsOf(a);
    CharsOf(b);
    CharsOf(c);
    CharsOf(d);
    OrLanes(Digits(a), Digits(b), Digits(c), Digits(d), 0x3030, 0x3030, 0x3030, 0x3030);
  }

  function Chars(v: nat): nat {
    Digits(v) + 0x3030
  }

  lemma CharsOf(v: nat)
    requires v <= 99
    ensures Or(Digits(v), 0x3030) == Chars(v) == Pair(Two(v)[0], Two(v)[1]) && Digits(v) < 0x1_0000
  {
    hide Or, Pow2;
    Pow2Is32();
    OrLane(8, v / 10, v % 10, 0x30, 0x30);
    DigitOr(v / 10);
    DigitOr(v % 10);
  }

  lemma DigitOr(d: nat)
    requires d <= 9
    ensures Or(d, 0x30) == 0x30 + d
  {
    hide Or, Pow2;
    Pow2Is32();
    OrDisjoint(4, d, 3);
  }

  // ---- The conversion -------------------------------------------------------

  // A word, or a part of one, goes to memory.
  method Store(s: array<Byte>, at: nat, bs: seq<Byte>)
    requires at + |bs| <= s.Length
    modifies s
    ensures s[..] == old(s[..at]) + bs + old(s[at + |bs|..])
  {
    ghost var was := s[..];
    for i := 0 to |bs|
      invariant forall k :: 0 <= k < s.Length && !(at <= k < at + i) ==> s[k] == was[k]
      invariant forall k :: at <= k < at + i ==> s[k] == bs[k - at]
    {
      s[at + i] := bs[i];
    }
    Spliced(was, s[..], at, bs);
  }

  lemma Spliced(was: seq<Byte>, now: seq<Byte>, at: nat, bs: seq<Byte>)
    requires at + |bs| <= |was| == |now|
    requires forall k :: 0 <= k < |now| && !(at <= k < at + |bs|) ==> now[k] == was[k]
    requires forall k :: at <= k < at + |bs| ==> now[k] == bs[k - at]
    ensures now == was[..at] + bs + was[at + |bs|..]
  {
    assert now[..at] == was[..at] && now[at..at + |bs|] == bs && now[at + |bs|..] == was[at + |bs|..];
  }

  // The digits of `x` are written, and nothing else.
  twostate predicate Written(s: array<Byte>, x: nat)
    reads s
  {
    |Dec(x)| <= s.Length && s[..] == Dec(x) + old(s[|Dec(x)|..])
  }

  // SmallDecimalToString for two digits.
  lemma TwoDigits(x: nat)
    requires 10 <= x <= 99
    ensures
      var t := And(x * 103 / 512, 0x1E);
      var low := x + t * 3;
      var ll := Or(And(low, 0xF0) / 16, And(low, 0x0F) * 256);
      Bytes(Or(ll, 0x3030), 2) == Dec(x)
  {
    hide And, Or, Bytes;
    TenthOf(x);
    TensOfLane(x * 103 / 512, 0);
    BcdOf(x);
    Nibbles(x);
    CharsOf(x);
    TwoBytes(0x30 + x / 10, 0x30 + x % 10, 0, 2);
    assert Dec(x / 10) == [0x30 + x / 10];
  }

  // SmallDecimalToString.
  method SmallDecimalToString(x: nat, s: array<Byte>) returns (n: nat)
    requires x <= 99 ==> |Dec(x)| <= s.Length
    modifies s
    ensures if x <= 99 then n == |Dec(x)| && Written(s, x) else n == 0 && s[..] == old(s[..])
  {
    hide And, Or, Bytes;
    if x <= 9 {
      DigitOr(x);
      Store(s, 0, [Or(x, 0x30)]);
      return 1;
    } else if x <= 99 {
      var low := x;
      TwoDigits(x);
      var ll := And(low * 103 / 512, 0x1E);
      low := low + ll * 3;
      ll := Or(And(low, 0xF0) / 16, And(low, 0x0F) * 256);
      Store(s, 0, Bytes(Or(ll, 0x3030), 2));
      return 2;
    }
    return 0;
  }

  // The multiplications of SmallUlongToString use the two lower lanes only.
  lemma TensOfTwo(a: nat, b: nat)
    requires a <= 99 && b <= 99
    ensures And(Lanes(a, b, 0, 0) * 103 / 512, 0x1E001E) == Lanes(2 * (a / 10), 2 * (b / 10), 0, 0)
  {
    hide And;
    var qa, qb, ra, rb := a * 103 / 512, b * 103 / 512, a * 103 % 512, b * 103 % 512;
    assert Lanes(a, b, 0, 0) * 103 == 512 * Lanes(qa + 128 * rb, qb, 0, 0) + ra;
    TenthOf(a);
    TenthOf(b);
    AndLanes(qa + 128 * rb, qb, 0, 0, 0x1E, 0x1E, 0, 0);
    TensOfLane(qa, rb);
    TensOfLane(qb, 0);
    AndZero();
  }

  lemma AndZero()
    ensures And(0, 0) == 0
  {
  }

  lemma SpreadTwo(a: nat, b: nat)
    requires a <= 99 && b <= 99
    ensures
      var low := Lanes(Bcd(a), Bcd(b), 0, 0);
      Or(And(low, 0x00F000F0) * 0x1000_0000, And(low, 0x000F000F) * 0x100_0000_0000)
        == Lanes(0, 0, Digits(a), Digits(b))
  {
    hide And, Or;
    AndLanes(Bcd(a), Bcd(b), 0, 0, 0xF0, 0xF0, 0, 0);
    AndLanes(Bcd(a), Bcd(b), 0, 0, 0x0F, 0x0F, 0, 0);
    AndZero();
    Nibbles(a);
    Nibbles(b);
    assert Lanes(16 * (a / 10), 16 * (b / 10), 0, 0) * 0x1000_0000 == Lanes(0, 0, a / 10, b / 10);
    assert Lanes(a % 10, b % 10, 0, 0) * 0x100_0000_0000 == Lanes(0, 0, 256 * (a % 10), 256 * (b % 10));
    OrLanes(0, 0, a / 10, b / 10, 0, 0, 256 * (a % 10), 256 * (b % 10));
    OrZero(0);
  }

  lemma AsciiTwo(a: nat, b: nat)
    requires a <= 99 && b <= 99
    ensures Or(Lanes(0, 0, Digits(a), Digits(b)), 0x3030303000000000) == Lanes(0, 0, Chars(a), Chars(b))
  {
    hide Or;
    CharsOf(a);
    CharsOf(b);
    OrLanes(0, 0, Digits(a), Digits(b), 0, 0, 0x3030, 0x3030);
    OrZero(0);
  }

  // Two lanes of characters, in memory.
  lemma CharsInMemory(a: nat, b: nat, c: nat, d: nat)
    requires a <= 99 && b <= 99 && c <= 99 && d <= 99
    ensures Bytes(Lanes(Chars(a), Chars(b), Chars(c), Chars(d)), 8) == Pad(100 * (100 * (100 * a + b) + c) + d, 8)
  {
    hide Bytes, Lanes, Pad, Two, Pair, Chars;
    CharsOf(a);
    CharsOf(b);
    CharsOf(c);
    CharsOf(d);
    BytesOfLanes(Two(a), Two(b), Two(c), Two(d));
    PadEight(a, b, c, d);
  }

  lemma PadFour(a: nat, b: nat)
    requires a <= 99 && b <= 99
    ensures Pad(100 * a + b, 4) == Two(a) + Two(b)
  {
    hide Pad, Two;
    PadTwo(a, b, 2);
    PadTwo(0, a, 0);
    PadNone();
    assert [] + Two(a) == Two(a);
  }

  lemma PadEight(a: nat, b: nat, c: nat, d: nat)
    requires a <= 99 && b <= 99 && c <= 99 && d <= 99
    ensures Pad(100 * (100 * (100 * a + b) + c) + d, 8) == Two(a) + (Two(b) + (Two(c) + Two(d)))
  {
    hide Pad, Two;
    PadTwo(100 * (100 * a + b) + c, d, 6);
    PadTwo(100 * a + b, c, 4);
    PadFour(a, b);
    InARow(Two(a), Two(b), Two(c), Two(d));
  }

  lemma InARow(p: seq<Byte>, q: seq<Byte>, r: seq<Byte>, t: seq<Byte>)
    ensures p + q + r + t == p + (q + (r + t))
  {
  }

  lemma PadNone()
    ensures Pad(0, 0) == []
  {
  }

  lemma NoPair()
    ensures Pair(0, 0) == 0
  {
  }

  lemma Zeros(s: seq<Byte>)
    ensures [0, 0] + ([0, 0] + s) == [0, 0, 0, 0] + s
  {
  }

  lemma TwoLanesInMemory(a: nat, b: nat)
    requires a <= 99 && b <= 99
    ensures Bytes(Lanes(0, 0, Chars(a), Chars(b)), 8) == [0, 0, 0, 0] + Pad(a * 100 + b, 4)
  {
    hide *;
    CharsOf(a);
    CharsOf(b);
    BytesOfLanes([0, 0], [0, 0], Two(a), Two(b));
    NoPair();
    PadFour(a, b);
    Zeros(Two(a) + Two(b));
  }

  // low -= ll * 100; low = (low << 16) | ll, for one number.
  lemma TwoLanes(x: nat)
    requires x <= 9999
    ensures Or((x - x / 100 * 100) * 0x1_0000, x / 100) == Lanes(x / 100, x % 100, 0, 0)
  {
    hide Or;
    FourLanes(x, 0);
  }

  // Four digits in the upper half of a word.
  method FourDigits(x: nat) returns (word: nat)
    requires x <= 9999
    ensures Bytes(word, 8) == [0, 0, 0, 0] + Pad(x, 4)
  {
    hide *;
    ghost var h, l := x / 100, x % 100;
    HundredthOf(x);
    AndFF(h);
    TwoLanes(x);
    TensOfTwo(h, l);
    ToBcd(h, l, 0, 0);
    SpreadTwo(h, l);
    AsciiTwo(h, l);
    TwoLanesInMemory(h, l);
    Remainder256(h, 0, h);
    NoTens();
    var ll := And(x * 5243 / 0x8_0000, 0xFF);
    var low := Or((x - ll * 100) * 0x1_0000, ll);
    ll := And(low * 103 / 512, 0x1E001E);
    low := low + ll * 3;
    ll := Or(And(low, 0x00F000F0) * 0x1000_0000, And(low, 0x000F000F) * 0x100_0000_0000);
    word := Or(ll, 0x3030303000000000);
  }

  lemma NoTens()
    ensures Bcd(0) == 0
  {
  }

  // SmallUlongToString.
  method SmallUlongToString(x: nat, s: array<Byte>) returns (digits: nat)
    requires x <= 9999 && |Dec(x)| <= s.Length
    modifies s
    ensures digits == |Dec(x)| && Written(s, x)
  {
    hide Bytes, Dec, Pad;
    if x <= 99 {
      digits := SmallDecimalToString(x, s);
      return;
    }
    digits := if x > 999 then 4 else 3;
    DecLength(x);
    PadEndsInDec(x, 4);
    var word := FourDigits(x);
    var p := Bytes(word, 8);
    assert p[4..] == Pad(x, 4) && p[8 - digits..] == p[4..][4 - digits..];
    if digits == 4 {
      Store(s, 0, p[4..]);
    } else {
      ghost var was := s[..];
      Store(s, 0, p[5..7]);
      Store(s, 2, p[7..]);
      TwoParts(was, p);
    }
  }

  // Three bytes are written in two parts.
  lemma TwoParts(was: seq<Byte>, p: seq<Byte>)
    requires 3 <= |was| && |p| == 8
    ensures var mid := was[..0] + p[5..7] + was[2..]; mid[..2] + p[7..] + mid[3..] == p[5..] + was[3..]
  {
    var mid := was[..0] + p[5..7] + was[2..];
    assert mid[..2] == p[5..7] && mid[3..] == was[3..] && p[5..7] + p[7..] == p[5..];
  }

  // The masks of itoa, as lanes.
  lemma Masks()
    ensures 0xFF000000FF == 0xFF + W32 * 0xFF
    ensures 0x1E001E001E001E == Lanes(0x1E, 0x1E, 0x1E, 0x1E)
    ensures 0xF000F000F000F0 == Lanes(0xF0, 0xF0, 0xF0, 0xF0)
    ensures 0xF000F000F000F == Lanes(0x0F, 0x0F, 0x0F, 0x0F)
    ensures 0x3030303030303030 == Lanes(0x3030, 0x3030, 0x3030, 0x3030)
  {
  }

  // Multiplication, addition and subtraction of 64-bit words.
  function Times(a: nat, b: nat): (r: nat)
    ensures r < W
  {
    a * b % W
  }

  function Plus(a: nat, b: nat): nat {
    (a + b) % W
  }

  function Minus(a: nat, b: nat): (r: nat)
    ensures r < W
  {
    (a - b) % W
  }

  lemma NoOverflow(a: nat, b: nat)
    ensures a * b < W ==> Times(a, b) == a * b
    ensures a + b < W ==> Plus(a, b) == a + b
    ensures b <= a < W ==> Minus(a, b) == a - b
  {
    if a * b < W {
      Fits(a * b);
    }
    if a + b < W {
      Fits(a + b);
    }
    if b <= a < W {
      Fits(a - b);
    }
  }

  lemma Fits(n: nat)
    requires n < W
    ensures n % W == n
  {
  }

  // Two numbers of four digits in one word.
  method Fours(x: nat) returns (low: nat)
    requires x < W
    ensures x < 100_000_000 ==> low == x % 10000 + W32 * (x / 10000)
  {
    hide Times, Minus, Or;
    var ll := Times(x, 109951163) / 0x100_0000_0000;
    low := Minus(x, Times(ll, 10000));
    low := Or(low, Times(ll, W32));
    if x < 100_000_000 {
      TenThousands(x);
      NoOverflow(x, 109951163);
      NoOverflow(ll, 10000);
      NoOverflow(x, ll * 10000);
      NoOverflow(ll, W32);
    }
  }

  // Four numbers of two digits; `a` and `b` are the numbers of four, if `ok`.
  method Twos(x: nat, ghost ok: bool, ghost a: nat, ghost b: nat) returns (low: nat)
    requires ok ==> a <= 9999 && b <= 9999 && x == b + W32 * a
    ensures ok ==> low == Lanes(b / 100, b % 100, a / 100, a % 100)
  {
    hide Times, Minus, And, Or, Lanes;
    Masks();
    var ll := And(Times(x, 5243) / 0x8_0000, 0xFF000000FF);
    low := Minus(x, Times(ll, 100));
    low := Or(Times(low, 0x1_0000), ll);
    if ok {
      Hundreds(b, a);
      FourLanes(b, a);
      NoOverflow(x, 5243);
      NoOverflow(ll, 100);
      NoOverflow(x, ll * 100);
      NoOverflow(x - ll * 100, 0x1_0000);
    }
  }

  // Eight digits.
  method Ones(x: nat, ghost ok: bool, ghost a: nat, ghost b: nat) returns (low: nat)
    requires ok ==> a <= 9999 && b <= 9999 && x == Lanes(b / 100, b % 100, a / 100, a % 100)
    ensures ok ==> low == Lanes(Bcd(b / 100), Bcd(b % 100), Bcd(a / 100), Bcd(a % 100))
  {
    hide Times, Plus, And, Lanes, Bcd;
    Masks();
    var ll := And(Times(x, 103) / 512, 0x1E001E001E001E);
    low := Plus(x, Times(ll, 3));
    if ok {
      TensOfLanes(b / 100, b % 100, a / 100, a % 100);
      ToBcd(b / 100, b % 100, a / 100, a % 100);
      BcdFits(b / 100, b % 100, a / 100, a % 100);
      NoOverflow(x, 103);
      NoOverflow(ll, 3);
      NoOverflow(x, ll * 3);
    }
  }

  lemma BcdFits(a: nat, b: nat, c: nat, d: nat)
    requires a <= 99 && b <= 99 && c <= 99 && d <= 99
    ensures Lanes(Bcd(a), Bcd(b), Bcd(c), Bcd(d)) < W
    ensures Lanes(2 * (a / 10), 2 * (b / 10), 2 * (c / 10), 2 * (d / 10)) * 3 < W
  {
    assert Bcd(a) < 256 && Bcd(b) < 256 && Bcd(c) < 256 && Bcd(d) < 256;
  }

  // Digits to characters, in the order of the memory.
  method Finish(low: nat, ghost ok: bool, ghost a: nat, ghost b: nat) returns (p: seq<Byte>)
    requires ok ==> a <= 9999 && b <= 9999 && low == Lanes(Bcd(b / 100), Bcd(b % 100), Bcd(a / 100), Bcd(a % 100))
    ensures |p| == 8 && (ok ==> p == Pad(a * 10000 + b, 8))
  {
    hide Times, And, Or, Bytes, Lanes, Pad, Digits, Bcd, Chars;
    Masks();
    var ll := Or(And(low, 0xF000F000F000F0) / 16, Times(And(low, 0xF000F000F000F), 256));
    ll := Or(ll / W32, Times(ll, W32));
    ll := Or(ll, 0x3030303030303030);
    p := Bytes(ll, 8);
    if ok {
      Characters(low, a, b);
    }
  }

  lemma Characters(low: nat, a: nat, b: nat)
    requires a <= 9999 && b <= 9999 && low == Lanes(Bcd(b / 100), Bcd(b % 100), Bcd(a / 100), Bcd(a % 100))
    ensures
      var ll := Or(And(low, 0xF000F000F000F0) / 16, Times(And(low, 0xF000F000F000F), 256));
      Bytes(Or(Or(ll / W32, Times(ll, W32)), 0x3030303030303030), 8) == Pad(a * 10000 + b, 8)
  {
    hide *;
    Masks();
    var c, d, e, f := a / 100, a % 100, b / 100, b % 100;
    Spread(e, f, c, d);
    NoOverflow(And(low, 0xF000F000F000F), 256);
    CharsOf(c);
    CharsOf(d);
    CharsOf(e);
    CharsOf(f);
    Swap(Digits(e), Digits(f), Digits(c), Digits(d));
    TimesIs(Lanes(Digits(e), Digits(f), Digits(c), Digits(d)), W32);
    ToAscii(c, d, e, f);
    CharsInMemory(c, d, e, f);
    assert 100 * (100 * (100 * c + d) + e) + f == a * 10000 + b;
  }

  lemma TimesIs(a: nat, b: nat)
    ensures Times(a, b) == a * b % W
  {
  }

  // The part of itoa that handles the last eight digits at once.
  method EightDigits(x: nat) returns (p: seq<Byte>)
    requires x < W
    ensures |p| == 8 && (x < 100_000_000 ==> p == Pad(x, 8))
  {
    hide Lanes, Pad, Bcd;
    ghost var ok, a, b := x < 100_000_000, x / 10000, x % 10000;
    var low := Fours(x);
    low := Twos(low, ok, a, b);
    low := Ones(low, ok, a, b);
    p := Finish(low, ok, a, b);
  }

  // The multiplication by the reciprocal of 10^8, and where its range ends.
  const RECIPROCAL := 0x55E63B89
  const SHIFT57 := 0x200_0000_0000_0000

  lemma HundredMillionthOf(x: nat)
    ensures x * RECIPROCAL / SHIFT57 == x / 100_000_000 <==>
      x / 100_000_000 * 24144128 + x % 100_000_000 * RECIPROCAL < SHIFT57
    ensures x < 10_000_000_000 ==> x * RECIPROCAL < W
  {
    var q, r := x / 100_000_000, x % 100_000_000;
    assert x * RECIPROCAL == q * SHIFT57 + (q * 24144128 + r * RECIPROCAL);
  }

  // The numbers of which itoa writes the digits.
  predicate Right(x: nat) {
    x < 100_000_000 ||
    (x < 10_000_000_000 && x / 100_000_000 * 24144128 + x % 100_000_000 * RECIPROCAL < SHIFT57)
  }

  // All up to 5999999998 are among them, 5999999999 is not, 6000000000 is again.
  lemma FirstFailure()
    ensures (forall x: nat :: x < 5_999_999_999 ==> Right(x)) && !Right(5_999_999_999) && Right(6_000_000_000)
  {
    forall x: nat | x < 5_999_999_999
      ensures Right(x)
    {
      var q, r := x / 100_000_000, x % 100_000_000;
      assert q <= 59 && r < 100_000_000 && (q < 59 || r < 99_999_999);
    }
  }

  // The number in front of the last eight digits, as itoa computes it.
  function High(x: nat): (h: nat)
    ensures h < 128
  {
    Times(x, RECIPROCAL) / SHIFT57
  }

  lemma HighIsRight(x: nat)
    requires 100_000_000 <= x
    ensures Right(x) <==> High(x) <= 99 && High(x) == x / 100_000_000
  {
    HundredMillionthOf(x);
    NoOverflow(x, RECIPROCAL);
  }

  // The digits of a number are those in front, and the last eight.
  lemma DecParts(x: nat)
    requires 100_000_000 <= x
    ensures Dec(x) == Dec(x / 100_000_000) + Pad(x % 100_000_000, 8)
  {
    hide Dec, Pad;
    assert Pow10(8) == 100_000_000;
    DecHighLow(x / 100_000_000, x % 100_000_000, 8);
  }

  // Different numbers in front have different digits.
  lemma DecIsInjective(h: nat, q: nat)
    requires Dec(h) == Dec(q)
    ensures h == q
  {
    DecMeans(h);
    DecMeans(q);
  }

  // There is room for what itoa writes.
  lemma RoomForDigits(x: nat)
    requires 100_000_000 <= x
    ensures (if High(x) <= 99 then |Dec(High(x))| else 0) + 8 <= |Dec(x)|
  {
    hide Right, High;
    HighIsRight(x);
    DecParts(x);
    DecLength(if High(x) <= 99 then High(x) else 0);
    if x < 1_000_000_000 {
      FirstFailure();
      assert Right(x);
    } else {
      TwoInFront(x / 100_000_000);
    }
  }

  lemma TwoInFront(q: nat)
    requires 10 <= q
    ensures 2 <= |Dec(q)|
  {
    assert Dec(q) == Dec(q / 10) + [0x30 + q % 10];
  }

  // What stands in the buffer tells whether the number in front was right.
  lemma FrontTells(x: nat, digits: nat, out: seq<Byte>, p: seq<Byte>)
    requires 100_000_000 <= x && |p| == 8
    requires digits == (if High(x) <= 99 then |Dec(High(x))| else 0) + 8 <= |out|
    requires High(x) <= 99 ==> out[..digits - 8] == Dec(High(x))
    requires out[digits - 8..digits] == p
    requires High(x) == x / 100_000_000 ==> p == Pad(x % 100_000_000, 8)
    ensures digits == |Dec(x)| && out[..digits] == Dec(x) <==> Right(x)
  {
    hide Right, High, Dec, Pad;
    HighIsRight(x);
    DecParts(x);
    var h, q := High(x), x / 100_000_000;
    assert out[..digits] == out[..digits - 8] + p;
    if digits == |Dec(x)| && out[..digits] == Dec(x) {
      assert |Dec(x)| == |Dec(q)| + 8 && out[..digits][..digits - 8] == Dec(q);
      if h <= 99 {
        DecIsInjective(h, q);
      }
    }
  }

  // itoa: the digits of `x`, and not a byte more, exactly for the numbers above.
  method Itoa(x: nat, s: array<Byte>) returns (digits: nat)
    requires x < W && |Dec(x)| <= s.Length
    modifies s
    ensures digits == |Dec(x)| && Written(s, x) <==> Right(x)
    ensures digits <= s.Length && s[digits..] == old(s[digits..])
  {
    hide Dec, Pad;
    if x <= 9999 {
      digits := SmallUlongToString(x, s);
      assert s[digits..] == old(s[digits..]);
    } else if x < 100_000_000 {
      digits := MediumUlongToString(x, s);
    } else {
      digits := LargeUlongToString(x, s);
    }
  }

  // Five to eight digits.
  method MediumUlongToString(x: nat, s: array<Byte>) returns (digits: nat)
    requires 9999 < x < 100_000_000 && |Dec(x)| <= s.Length
    modifies s
    ensures digits == |Dec(x)| && Written(s, x) && s[digits..] == old(s[digits..])
  {
    hide Dec, Pad;
    DecLength(x);
    if x > 999999 {
      digits := if x > 9999999 then 8 else 7;
    } else {
      digits := if x > 99999 then 6 else 5;
    }
    var ll := EightDigits(x);
    PadEndsInDec(x, 8);
    CopyTail(s, ll, digits);
    assert s[..] == s[..digits] + s[digits..];
  }

  // More digits: those in front first, then eight.
  method LargeUlongToString(x: nat, s: array<Byte>) returns (digits: nat)
    requires 100_000_000 <= x < W && |Dec(x)| <= s.Length
    modifies s
    ensures digits <= s.Length && (digits == |Dec(x)| && Written(s, x) <==> Right(x))
    ensures s[digits..] == old(s[digits..])
  {
    hide Dec, Pad, Right;
    ghost var was := s[..];
    RoomForDigits(x);
    var high := Times(x, RECIPROCAL) / SHIFT57;
    var low := Minus(x, Times(high, 100_000_000));
    if high == x / 100_000_000 {
      LowIs(x, high);
    }
    digits := SmallDecimalToString(high, s);
    assert high <= 99 ==> s[..digits] == Dec(high);
    digits := digits + 8;
    var ll := EightDigits(low);
    ghost var front, tail := s[..digits - 8], s[digits..];
    assert tail == was[digits..];
    Store(s, digits - 8, ll);
    Appended(s[..], front, ll, tail);
    FrontTells(x, digits, s[..], ll);
    WrittenIs(s[..], was, Dec(x), digits);
  }

  lemma LowIs(x: nat, high: nat)
    requires high == x / 100_000_000 && x < W
    ensures Minus(x, Times(high, 100_000_000)) == x % 100_000_000
  {
    NoOverflow(high, 100_000_000);
    NoOverflow(x, high * 100_000_000);
  }

  lemma Appended(s: seq<Byte>, a: seq<Byte>, b: seq<Byte>, c: seq<Byte>)
    requires s == a + b + c
    ensures s[..|a|] == a && s[|a|..|a| + |b|] == b && s[|a| + |b|..] == c
  {
  }

  lemma WrittenIs(s: seq<Byte>, was: seq<Byte>, d: seq<Byte>, digits: nat)
    requires |s| == |was| && digits <= |s| && |d| <= |s| && s[digits..] == was[digits..]
    ensures digits == |d| && s == d + was[|d|..] <==> digits == |d| && s[..digits] == d
  {
    if digits == |d| && s[..digits] == d {
      assert s == s[..digits] + s[digits..];
    }
  }

  // `k` more bytes of the word.
  method Copy(s: array<Byte>, s1: nat, ll: seq<Byte>, pll: nat, k: nat, ghost digits: nat)
    requires s1 + k <= digits <= s.Length && s1 <= pll && pll + k <= |ll| && s[..s1] == ll[pll - s1..pll]
    modifies s
    ensures s[..s1 + k] == ll[pll - s1..pll + k] && s[digits..] == old(s[digits..])
  {
    Store(s, s1, ll[pll..pll + k]);
    assert ll[pll - s1..pll + k] == ll[pll - s1..pll] + ll[pll..pll + k];
  }

  // The last `digits` bytes of the word, by fours, twos and ones.
  method CopyTail(s: array<Byte>, ll: seq<Byte>, digits: nat)
    requires |ll| == 8 && digits <= 8 && digits <= s.Length
    modifies s
    ensures s[..digits] == ll[8 - digits..] && s[digits..] == old(s[digits..])
  {
    if digits >= 8 {
      Copy(s, 0, ll, 0, 8, digits);
      assert ll[0..8] == ll[0..];
      return;
    }
    var d, s1, pll := digits, 0, 8 - digits;
    NoneYet(s, ll, pll);
    if d >= 4 {
      Copy(s, s1, ll, pll, 4, digits);
      s1, pll, d := s1 + 4, pll + 4, d - 4;
    }
    if d >= 2 {
      Copy(s, s1, ll, pll, 2, digits);
      s1, pll, d := s1 + 2, pll + 2, d - 2;
    }
    if d > 0 {
      Copy(s, s1, ll, pll, 1, digits);
      s1, pll := s1 + 1, pll + 1;
    }
    assert s1 == digits && pll == 8 && ll[8 - digits..8] == ll[8 - digits..];
  }

  lemma NoneYet(s: array<Byte>, ll: seq<Byte>, pll: nat)
    requires pll <= |ll|
    ensures s[..0] == ll[pll..pll]
  {
  }
}
