/**
 Bitwise operations on natural numbers, and how they work on lanes: fields of
 some bits next to each other in one machine word.
 */
module Bits {

  function Pow2(k: nat): (p: nat)
    ensures 0 < p
  {
    if k == 0 then 1 else 2 * Pow2(k - 1)
  }

  function And(a: nat, b: nat): nat {
    if a == 0 || b == 0 then 0 else (if a % 2 == 1 && b % 2 == 1 then 1 else 0) + 2 * And(a / 2, b / 2)
  }

  function Or(a: nat, b: nat): nat {
    if a == 0 && b == 0 then 0 else (if a % 2 == 1 || b % 2 == 1 then 1 else 0) + 2 * Or(a / 2, b / 2)
  }

  lemma AndBit(a: nat, b: nat)
    ensures And(a, b) == (if a % 2 == 1 && b % 2 == 1 then 1 else 0) + 2 * And(a / 2, b / 2)
  {
  }

  lemma OrBit(a: nat, b: nat)
    ensures Or(a, b) == (if a % 2 == 1 || b % 2 == 1 then 1 else 0) + 2 * Or(a / 2, b / 2)
  {
  }

  lemma Pow2Step(k: nat)
    ensures Pow2(k) == if k == 0 then 1 else 2 * Pow2(k - 1)
  {
  }

  lemma Times1(a: nat, b: nat, c: nat)
    ensures a * 1 == a && b * 1 == b && c * 1 == c
  {
  }

  // Half of a word with two lanes.
  lemma HalfOf(lo: nat, hi: nat, p: nat)
    ensures (lo + hi * (2 * p)) % 2 == lo % 2 && (lo + hi * (2 * p)) / 2 == lo / 2 + hi * p
  {
    assert lo + hi * (2 * p) == lo % 2 + 2 * (lo / 2 + hi * p);
  }

  // Lanes do not touch each other: `k` bits below, the others above.
  lemma {:induction false} AndLane(k: nat, lo: nat, hi: nat, ml: nat, mh: nat)
    requires lo < Pow2(k) && ml < Pow2(k)
    ensures And(lo + hi * Pow2(k), ml + mh * Pow2(k)) == And(lo, ml) + And(hi, mh) * Pow2(k)
  {
    hide *;
    Pow2Step(k);
    if k == 0 {
      AndBit(0, 0);
      Times1(hi, mh, And(hi, mh));
    } else {
      var p := Pow2(k - 1);
      HalfOf(lo, hi, p);
      HalfOf(ml, mh, p);
      AndBit(lo + hi * (2 * p), ml + mh * (2 * p));
      AndBit(lo, ml);
      AndLane(k - 1, lo / 2, hi, ml / 2, mh);
      Double(And(hi, mh), p);
    }
  }

  lemma {:induction false} OrLane(k: nat, lo: nat, hi: nat, ml: nat, mh: nat)
    requires lo < Pow2(k) && ml < Pow2(k)
    ensures Or(lo + hi * Pow2(k), ml + mh * Pow2(k)) == Or(lo, ml) + Or(hi, mh) * Pow2(k)
  {
    hide *;
    Pow2Step(k);
    if k == 0 {
      OrBit(0, 0);
      Times1(hi, mh, Or(hi, mh));
    } else {
      var p := Pow2(k - 1);
      HalfOf(lo, hi, p);
      HalfOf(ml, mh, p);
      OrBit(lo + hi * (2 * p), ml + mh * (2 * p));
      OrBit(lo, ml);
      OrLane(k - 1, lo / 2, hi, ml / 2, mh);
      Double(Or(hi, mh), p);
    }
  }

  lemma Double(n: nat, p: nat)
    ensures 2 * (n * p) == n * (2 * p)
  {
  }

  lemma {:induction false} OrZero(a: nat)
    ensures Or(a, 0) == a && Or(0, a) == a
  {
    if a != 0 {
      OrZero(a / 2);
    }
  }

  // One bit more of a mask.
  lemma MaskOne(a: nat, m: nat)
    ensures And(a, 2 * m + 1) == a % 2 + 2 * And(a / 2, m)
  {
    hide *;
    Twice(m);
    AndBit(a, 2 * m + 1);
  }

  lemma Twice(m: nat)
    ensures 2 * m % 2 == 0 && 2 * m / 2 == m && (2 * m + 1) % 2 == 1 && (2 * m + 1) / 2 == m
  {
  }

  lemma MaskZero(a: nat, m: nat)
    ensures And(a, 2 * m) == 2 * And(a / 2, m)
  {
    hide *;
    Twice(m);
    AndBit(a, 2 * m);
  }

  // Masks of some ones in a row.
  lemma And03(a: nat)
    ensures And(a, 0x03) == a % 4
  {
    MaskOne(a, 1);
    MaskOne(a / 2, 0);
    assert And(a / 2 / 2, 0) == 0;
  }

  lemma MaskThree(a: nat, m: nat)
    ensures And(a, 4 * m + 3) == a % 4 + 4 * And(a / 4, m)
  {
    hide And;
    MaskOne(a, 2 * m + 1);
    MaskOne(a / 2, m);
    assert a / 2 / 2 == a / 4;
  }

  lemma And0F(a: nat)
    ensures And(a, 0x0F) == a % 16
  {
    hide And;
    MaskThree(a, 3);
    And03(a / 4);
    TwoFours(a);
  }

  lemma TwoFours(a: nat)
    ensures a % 4 + 4 * (a / 4 % 4) == a % 16
  {
    var b := a / 4;
    assert a == 4 * b + a % 4 && b == 4 * (b / 4) + b % 4;
    Remainder16(a, b / 4, a % 4 + 4 * (b % 4));
  }

  lemma Remainder16(n: nat, k: nat, h: nat)
    requires n == 16 * k + h && h < 16
    ensures n % 16 == h
  {
  }

  lemma Remainder256(n: nat, k: nat, h: nat)
    requires n == 256 * k + h && h < 256
    ensures n % 256 == h
  {
  }

  lemma And1E(a: nat)
    ensures And(a, 0x1E) == 2 * (a / 2 % 16)
  {
    hide And;
    MaskZero(a, 0x0F);
    And0F(a / 2);
  }

  // Zeros below the mask.
  lemma MaskZeros(a: nat, m: nat)
    ensures And(a, 16 * m) == 16 * And(a / 16, m)
  {
    hide And;
    MaskZero(a, 8 * m);
    MaskZero(a / 2, 4 * m);
    MaskZero(a / 2 / 2, 2 * m);
    MaskZero(a / 2 / 2 / 2, m);
    assert a / 2 / 2 / 2 / 2 == a / 16;
  }

  lemma AndF0(a: nat)
    ensures And(a, 0xF0) == 16 * (a / 16 % 16)
  {
    hide And;
    MaskZeros(a, 0x0F);
    And0F(a / 16);
  }

  lemma AndFF(a: nat)
    ensures And(a, 0xFF) == a % 256
  {
    hide And;
    MaskThree(a, 0x3F);
    MaskThree(a / 4, 0x0F);
    And0F(a / 4 / 4);
    InFours(a);
  }

  lemma InFours(a: nat)
    ensures a % 4 + 4 * (a / 4 % 4 + 4 * (a / 4 / 4 % 16)) == a % 256
  {
    var b, c := a / 4, a / 4 / 4;
    assert a == 4 * b + a % 4 && b == 4 * c + b % 4 && c == 16 * (c / 16) + c % 16;
    Remainder256(a, c / 16, a % 4 + 4 * (b % 4 + 4 * (c % 16)));
  }

  lemma Times0(p: nat)
    ensures 0 * p == 0
  {
  }

  // What is in different lanes is simply added.
  lemma OrDisjoint(k: nat, lo: nat, hi: nat)
    requires lo < Pow2(k)
    ensures Or(lo, hi * Pow2(k)) == lo + hi * Pow2(k) && Or(hi * Pow2(k), lo) == lo + hi * Pow2(k)
  {
    hide *;
    OrLane(k, lo, 0, 0, hi);
    OrLane(k, 0, hi, lo, 0);
    OrZero(lo);
    OrZero(hi);
    Times0(Pow2(k));
  }
}
