/**
 Arithmetic behind the hash table of khash.h: rounding up to a power of two,
 and triangular probing, which on a power of two reaches every bucket.
 */
module Probing {
  import opened Bits

  predicate IsPow2(n: nat) {
    n == 1 || (0 < n && n % 2 == 0 && IsPow2(n / 2))
  }

  const TWO32: nat := 0x1_0000_0000

  // kroundup32, on 32-bit words.
  function RoundUp32(x: nat): nat {
    var a: nat := (x - 1) % TWO32;
    var b := Or(a, a / 2);
    var c := Or(b, b / 4);
    var d := Or(c, c / 16);
    var e := Or(d, d / 256);
    var f := Or(e, e / 0x1_0000);
    (f + 1) % TWO32
  }

  // The least power of two that is at least `x`, sought upwards from `p`.
  function LeastPow2(x: nat, p: nat := 1): nat
    requires 0 < p
    decreases x - p
  {
    if x <= p then p else LeastPow2(x, 2 * p)
  }

  lemma {:induction false} LeastPow2IsLeast(x: nat, p: nat)
    requires IsPow2(p) && (p == 1 || p / 2 < x)
    ensures var r := LeastPow2(x, p); IsPow2(r) && x <= r && (r == 1 || r / 2 < x)
    decreases x - p
  {
    hide *;
    LeastPow2Step(x, p);
    if p < x {
      LeastPow2IsLeast(x, 2 * p);
    }
  }

  lemma LeastPow2Step(x: nat, p: nat)
    requires IsPow2(p)
    ensures 0 < p && IsPow2(2 * p) && 2 * p / 2 == p
    ensures LeastPow2(x, p) == if x <= p then p else LeastPow2(x, 2 * p)
  {
  }

  lemma {:induction false} Pow2Sandwich(x: nat, r: nat, q: nat)
    requires IsPow2(r) && IsPow2(q) && x <= r && x <= q
    requires (r == 1 || r / 2 < x) && (q == 1 || q / 2 < x)
    ensures r == q
  {
    if r != 1 && q != 1 {
      Pow2Sandwich((x + 1) / 2, r / 2, q / 2);
    }
  }

  lemma IsLeastPow2(x: nat, r: nat)
    requires IsPow2(r) && r / 2 < x <= r
    ensures r == LeastPow2(x)
  {
    LeastPow2IsLeast(x, 1);
    Pow2Sandwich(x, r, LeastPow2(x));
  }

  lemma {:induction false} NoPow2Between(r: nat, q: nat)
    requires IsPow2(r) && IsPow2(q) && q < r
    ensures 2 * q <= r
  {
    if q != 1 && r != 1 {
      NoPow2Between(r / 2, q / 2);
    }
  }

  // As many ones as `a` has bits.
  function Ones(a: nat): nat {
    if a == 0 then 0 else 1 + 2 * Ones(a / 2)
  }

  lemma {:induction false} OnesIsLeast(a: nat)
    ensures IsPow2(Ones(a) + 1) && a <= Ones(a) && (a != 0 ==> (Ones(a) + 1) / 2 <= a)
  {
    if a != 0 {
      OnesIsLeast(a / 2);
      assert Ones(a) + 1 == 2 * (Ones(a / 2) + 1);
    }
  }

  // `a` moved down by `k` bits, and whether one of its last `m` bits is set.
  function Down(a: nat, k: nat): nat
    decreases k
  {
    if k == 0 then a else Down(a / 2, k - 1)
  }

  predicate AnyBit(a: nat, m: nat)
    decreases m
  {
    m != 0 && (a % 2 == 1 || AnyBit(a / 2, m - 1))
  }

  lemma {:induction false} DownTwice(a: nat, j: nat, k: nat)
    ensures Down(a, j + k) == Down(Down(a, j), k)
    decreases j
  {
    if j != 0 {
      DownTwice(a / 2, j - 1, k);
    }
  }

  lemma DownHalf(a: nat, k: nat)
    ensures Down(a / 2, k) == Down(a, k) / 2
  {
    DownTwice(a, k, 1);
    assert Down(a, 1 + k) == Down(a / 2, k) && Down(Down(a, k), 1) == Down(Down(a, k) / 2, 0);
  }

  lemma {:induction false} AnyBitSplit(a: nat, m: nat, k: nat)
    ensures AnyBit(a, m + k) == (AnyBit(a, m) || AnyBit(Down(a, m), k))
    decreases m
  {
    if m != 0 {
      AnyBitSplit(a / 2, m - 1, k);
    }
  }

  lemma {:induction false} NoBit(m: nat)
    ensures !AnyBit(0, m) && Down(0, m) == 0
  {
    if m != 0 {
      NoBit(m - 1);
    }
  }

  lemma {:induction false} SomeBit(a: nat, m: nat)
    requires a != 0 && Down(a, m) == 0
    ensures AnyBit(a, m)
    decreases m
  {
    if m != 0 && a % 2 == 0 {
      SomeBit(a / 2, m - 1);
    }
  }

  // `a` with all that it gives when moved down by less than `m` bits.
  function Smeared(a: nat, m: nat): nat
    decreases a
  {
    if a == 0 then 0 else (if AnyBit(a, m) then 1 else 0) + 2 * Smeared(a / 2, m)
  }

  lemma SmearedIs(a: nat, m: nat)
    ensures Smeared(a, m) == (if AnyBit(a, m) then 1 else 0) + 2 * Smeared(a / 2, m)
  {
    hide AnyBit;
    NoBit(m);
    assert a == 0 ==> a / 2 == 0;
  }

  lemma SmearedBits(a: nat, m: nat)
    ensures Smeared(a, m) % 2 == (if AnyBit(a, m) then 1 else 0) && Smeared(a, m) / 2 == Smeared(a / 2, m)
  {
    hide *;
    SmearedIs(a, m);
    BitAndRest(if AnyBit(a, m) then 1 else 0, Smeared(a / 2, m));
  }

  lemma BitAndRest(b: nat, t: nat)
    requires b <= 1
    ensures (b + 2 * t) % 2 == b && (b + 2 * t) / 2 == t
  {
  }

  // Smearing twice as far.
  lemma {:induction false} SmearTwice(a: nat, m: nat)
    ensures Or(Smeared(a, m), Smeared(Down(a, m), m)) == Smeared(a, m + m)
    decreases a
  {
    hide Or, AnyBit, Down;
    if a == 0 {
      NoBit(m);
      OrZero(0);
    } else {
      SmearTwice(a / 2, m);
      DownHalf(a, m);
      AnyBitSplit(a, m, m);
      OrBit(Smeared(a, m), Smeared(Down(a, m), m));
      SmearedBits(a, m);
      SmearedBits(Down(a, m), m);
      SmearedBits(a, m + m);
    }
  }

  // Moved down, it is the same of what was moved down.
  lemma {:induction false} SmearedDown(a: nat, m: nat, k: nat)
    ensures Down(Smeared(a, m), k) == Smeared(Down(a, k), m)
    decreases k
  {
    if k != 0 {
      SmearedBits(a, m);
      SmearedDown(a / 2, m, k - 1);
    }
  }

  lemma SmearStep(a: nat, m: nat)
    ensures Or(Smeared(a, m), Down(Smeared(a, m), m)) == Smeared(a, m + m)
  {
    SmearedDown(a, m, m);
    SmearTwice(a, m);
  }

  lemma {:induction false} SmearedByOne(a: nat)
    ensures Smeared(a, 1) == a
  {
    if a != 0 {
      assert AnyBit(a, 1) <==> a % 2 == 1 || AnyBit(a / 2, 0);
      SmearedByOne(a / 2);
    }
  }

  lemma {:induction false} SmearedAll(a: nat, m: nat)
    requires Down(a, m) == 0
    ensures Smeared(a, m) == Ones(a)
    decreases a
  {
    if a != 0 {
      SomeBit(a, m);
      DownHalf(a, m);
      SmearedAll(a / 2, m);
    }
  }

  // The shifts of kroundup32.
  lemma Shifts(a: nat)
    ensures Down(a, 1) == a / 2 && Down(a, 2) == a / 4 && Down(a, 4) == a / 16 && Down(a, 8) == a / 256
    ensures Down(a, 16) == a / 0x1_0000 && Down(a, 32) == a / TWO32
  {
    hide Down;
    DownTwo(a);
    DownFour(a);
    DownEight(a);
    DownSixteen(a);
    DownSixteen(a / 0x1_0000);
    DownTwice(a, 16, 16);
  }

  lemma DownTwo(a: nat)
    ensures Down(a, 1) == a / 2 && Down(a, 2) == a / 4
  {
    assert Down(a, 1) == Down(a / 2, 0);
    assert Down(a, 2) == Down(a / 2, 1) == Down(a / 2 / 2, 0);
  }

  lemma DownFour(a: nat)
    ensures Down(a, 4) == a / 16
  {
    DownTwo(a);
    DownTwo(a / 4);
    DownTwice(a, 2, 2);
  }

  lemma DownEight(a: nat)
    ensures Down(a, 8) == a / 256
  {
    DownFour(a);
    DownFour(a / 16);
    DownTwice(a, 4, 4);
  }

  lemma DownSixteen(a: nat)
    ensures Down(a, 16) == a / 0x1_0000
  {
    DownEight(a);
    DownEight(a / 256);
    DownTwice(a, 8, 8);
  }

  lemma RoundUpIsOnes(x: nat)
    requires x < TWO32
    ensures RoundUp32(x) == (Ones((x - 1) % TWO32) + 1) % TWO32
  {
    hide Or, Smeared, Ones, Down;
    var a: nat := (x - 1) % TWO32;
    SmearedByOne(a);
    SmearStep(a, 1);
    SmearStep(a, 2);
    SmearStep(a, 4);
    SmearStep(a, 8);
    SmearStep(a, 16);
    Shifts(a);
    Shifts(Smeared(a, 1));
    Shifts(Smeared(a, 2));
    Shifts(Smeared(a, 4));
    Shifts(Smeared(a, 8));
    Shifts(Smeared(a, 16));
    SmearedAll(a, 32);
  }

  // kroundup32 finds the least power of two that is at least its argument,
  // or 0 when no 32-bit word is one.
  lemma RoundUp32IsLeast(x: nat)
    requires x < TWO32
    ensures RoundUp32(x) == if 1 <= x <= 0x8000_0000 then LeastPow2(x) else 0
  {
    hide RoundUp32, Ones, IsPow2, LeastPow2;
    RoundUpIsOnes(x);
    Wrapped(x);
    var a: nat := (x - 1) % TWO32;
    OnesIsLeast(a);
    OnesOfNone();
    TopPowers();
    if 1 <= x <= 0x8000_0000 {
      IsLeastPow2(x, Ones(a) + 1);
    } else {
      Pow2Sandwich(a + 1, Ones(a) + 1, TWO32);
    }
  }

  lemma Wrapped(x: nat)
    requires x < TWO32
    ensures (x - 1) % TWO32 == if x == 0 then TWO32 - 1 else x - 1
    ensures TWO32 % TWO32 == 0
  {
  }

  lemma OnesOfNone()
    ensures Ones(0) == 0
  {
  }

  lemma {:induction false} PowersAre(k: nat)
    ensures IsPow2(Pow2(k))
  {
    if k != 0 {
      PowersAre(k - 1);
    }
  }

  lemma {:induction false} Pow2Product(j: nat, k: nat)
    ensures Pow2(j + k) == Pow2(j) * Pow2(k)
  {
    if j != 0 {
      Pow2Product(j - 1, k);
      Double(Pow2(k), Pow2(j - 1));
    } else {
      assert 1 * Pow2(k) == Pow2(k);
    }
  }

  lemma TopPowers()
    ensures IsPow2(0x8000_0000) && IsPow2(TWO32)
  {
    hide IsPow2;
    PowersAre(32);
    PowersAre(31);
    assert Pow2(4) == 2 * Pow2(3) && Pow2(2) == 2 * Pow2(1) && Pow2(3) == 2 * Pow2(2) && Pow2(1) == 2;
    Pow2Product(4, 4);
    Pow2Product(8, 8);
    Pow2Product(16, 16);
    assert Pow2(32) == 2 * Pow2(31);
  }

  // Masking with n - 1 is taking modulo n, for a power of two.
  lemma {:induction false} MaskIsModulo(x: nat, n: nat)
    requires IsPow2(n)
    ensures And(x, n - 1) == x % n
  {
    if n != 1 {
      MaskIsModulo(x / 2, n / 2);
      AndBit(x, n - 1);
      assert (n - 1) % 2 == 1 && (n - 1) / 2 == n / 2 - 1;
      Remainders(x, n / 2);
    }
  }

  lemma Remainders(x: nat, m: nat)
    requires 0 < m
    ensures x % (2 * m) == x % 2 + 2 * (x / 2 % m)
  {
    var u := x / 2;
    assert u == m * (u / m) + u % m && x == 2 * u + x % 2;
    assert 2 * (m * (u / m) + u % m) == (2 * m) * (u / m) + 2 * (u % m);
    ModUnique(x, u / m, x % 2 + 2 * (u % m), 2 * m);
  }

  function Mask(x: nat, n: nat): nat
    requires IsPow2(n)
  {
    And(x, n - 1)
  }

  // n & (n - 1) is 0 for powers of two only.
  lemma {:induction false} OneBit(n: nat)
    requires 0 < n
    ensures And(n, n - 1) == 0 <==> IsPow2(n)
  {
    if n != 1 {
      AndBit(n, n - 1);
      if n % 2 == 0 {
        OneBit(n / 2);
        assert (n - 1) / 2 == n / 2 - 1;
      } else {
        AndSelf(n / 2);
        assert (n - 1) / 2 == n / 2;
      }
    }
  }

  lemma {:induction false} AndSelf(a: nat)
    ensures And(a, a) == a
  {
    if a != 0 {
      AndSelf(a / 2);
    }
  }

  // The offset of the s-th probe from the first: 1 + 2 + ... + s.
  function Tri(s: nat): nat {
    if s == 0 then 0 else Tri(s - 1) + s
  }

  function Probe(h: nat, s: nat, n: nat): (i: nat)
    requires 0 < n
    ensures i < n
  {
    (h + Tri(s)) % n
  }

  lemma {:induction false} TriTwice(s: nat)
    ensures 2 * Tri(s) == s * (s + 1)
  {
    if 0 < s {
      TriTwice(s - 1);
      assert s * (s + 1) == (s - 1) * s + 2 * s;
    }
  }

  // One step of the loop moves from one probe to the next.
  lemma ProbeStep(h: nat, s: nat, n: nat)
    requires 0 < n
    ensures (Probe(h, s, n) + s + 1) % n == Probe(h, s + 1, n)
  {
    ModAdd(h + Tri(s), s + 1, n);
  }

  lemma ModAdd(a: nat, b: nat, n: nat)
    requires 0 < n
    ensures (a % n + b) % n == (a + b) % n
  {
    var u := a % n + b;
    var q, p := a / n, u / n;
    assert a + b == n * q + (n * p + u % n) == n * (q + p) + u % n;
    ModUnique(a + b, q + p, u % n, n);
  }

  lemma ModUnique(a: nat, q: int, r: nat, n: nat)
    requires 0 < n && a == n * q + r && r < n
    ensures a % n == r
  {
    var p := a / n;
    assert a == n * p + a % n;
    assert n * (q - p) == a % n - r;
    if a % n > r {
      NoMultipleBetween(n, a % n - r, q - p);
    } else if a % n < r {
      assert n * (p - q) == r - a % n;
      NoMultipleBetween(n, r - a % n, p - q);
    }
  }

  // An odd factor contributes nothing to divisibility by a power of two.
  lemma {:induction false} OddFactor(n: nat, x: int, y: int, c: int) returns (d: int)
    requires IsPow2(n) && x * y == n * c && y % 2 == 1
    ensures x == n * d
  {
    if n == 1 {
      d := x;
    } else {
      var k, j := n / 2, y / 2;
      assert x * y == 2 * (x * j) + x;
      assert n * c == 2 * (k * c);
      var x' := k * c - x * j;
      assert x == 2 * x';
      assert 2 * (x' * y) == 2 * (k * c);
      d := OddFactor(k, x', y, c);
      assert x == 2 * (k * d) == n * d;
    }
  }

  lemma SameRemainder(u: nat, v: nat, n: nat) returns (c: int)
    requires 0 < n && u % n == v % n
    ensures v - u == n * c
  {
    var p, q := u / n, v / n;
    assert u == n * p + u % n && v == n * q + v % n;
    c := q - p;
  }

  lemma TwiceMultiple(n: int, c: int)
    ensures 2 * (n * c) == (2 * n) * c
  {
  }

  lemma TriDifference(a: nat, b: nat)
    ensures (b - a) * (a + b + 1) == 2 * (Tri(b) - Tri(a))
  {
    TriTwice(a);
    TriTwice(b);
    assert (b - a) * (a + b + 1) == b * (b + 1) - a * (a + 1);
  }

  // Equal probes make twice the difference of the triangular numbers a
  // multiple of 2n.
  lemma EqualProbes(h: nat, a: nat, b: nat, n: nat) returns (c: int)
    requires 0 < n && Probe(h, a, n) == Probe(h, b, n)
    ensures 2 * (Tri(b) - Tri(a)) == (2 * n) * c
  {
    c := SameRemainder(h + Tri(a), h + Tri(b), n);
    TwiceMultiple(n, c);
  }

  // No two of the first `n` probes fall on the same bucket: of the factors
  // b - a and a + b + 1 one is odd, and both are below 2n.
  lemma ProbesDiffer(h: nat, a: nat, b: nat, n: nat)
    requires IsPow2(n) && a < b < n
    ensures Probe(h, a, n) != Probe(h, b, n)
  {
    if Probe(h, a, n) == Probe(h, b, n) {
      var c := EqualProbes(h, a, b, n);
      TriDifference(a, b);
      DoublePow2(n);
      NoEvenProduct(2 * n, b - a, a + b + 1, c);
    }
  }

  lemma DoublePow2(n: nat)
    requires IsPow2(n)
    ensures IsPow2(2 * n)
  {
  }

  // Of two factors below m, one odd and one even, the product is no multiple
  // of m.
  lemma NoEvenProduct(m: nat, x: int, y: int, c: int)
    requires IsPow2(m) && 0 < x < m && 0 < y < m && (x + y) % 2 == 1
    ensures x * y != m * c
  {
    if y % 2 == 1 {
      NoOddMultiple(m, x, y, c);
    } else {
      NoOddMultiple(m, y, x, c);
    }
  }

  lemma NoOddMultiple(m: nat, x: int, y: int, c: int)
    requires IsPow2(m) && 0 < x < m && y % 2 == 1
    ensures x * y != m * c
  {
    if x * y == m * c {
      var d := OddFactor(m, x, y, c);
      NoMultipleBetween(m, x, d);
    }
  }

  lemma NoMultipleBetween(n: nat, x: int, d: int)
    requires 0 < x < n
    ensures x != n * d
  {
    if 1 <= d {
      assert n * d == n + n * (d - 1);
      assert 0 <= n * (d - 1);
    } else {
      assert n * d <= 0;
    }
  }

  function Buckets(n: nat): set<nat> {
    if n == 0 then {} else Buckets(n - 1) + {n - 1}
  }

  lemma {:induction false} BucketsSize(n: nat)
    ensures |Buckets(n)| == n
    ensures forall i: nat :: i in Buckets(n) <==> i < n
  {
    if 0 < n {
      BucketsSize(n - 1);
    }
  }

  lemma SubsetSize(a: set<nat>, b: set<nat>)
    requires a <= b
    ensures |a| <= |b|
    ensures |a| == |b| ==> a == b
  {
    assert b == a + (b - a);
  }

  // Where the first `k` probes fall.
  function Probed(h: nat, n: nat, k: nat): (r: set<nat>)
    requires 0 < n
  {
    if k == 0 then {} else Probed(h, n, k - 1) + {Probe(h, k - 1, n)}
  }

  lemma {:induction false} ProbedMembers(h: nat, n: nat, k: nat)
    requires IsPow2(n) && k <= n
    ensures |Probed(h, n, k)| == k
    ensures forall i :: i in Probed(h, n, k) <==> exists s: nat :: s < k && Probe(h, s, n) == i
  {
    if 0 < k {
      ProbedMembers(h, n, k - 1);
      forall s: nat | s < k - 1
        ensures Probe(h, s, n) != Probe(h, k - 1, n)
      {
        ProbesDiffer(h, s, k - 1, n);
      }
      hide Probe, IsPow2;
      assert Probe(h, k - 1, n) in Probed(h, n, k);
    }
  }

  // The first `n` probes reach every bucket.
  lemma ProbesCover(h: nat, n: nat, b: nat) returns (s: nat)
    requires IsPow2(n) && b < n
    ensures s < n && Probe(h, s, n) == b
  {
    ProbedMembers(h, n, n);
    BucketsSize(n);
    SubsetSize(Probed(h, n, n), Buckets(n));
    assert b in Probed(h, n, n);
    s :| s < n && Probe(h, s, n) == b;
  }
}
