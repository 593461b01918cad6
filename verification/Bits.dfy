/** Machine integers as bounded mathematical integers, with the bit operations of an
    unsigned 64-bit word spelled out on their binary digits. */
module Bits {

  const TWO16: int := 0x1_0000
  const TWO32: int := 0x1_0000_0000
  const TWO64: int := 0x1_0000_0000_0000_0000

  type u8 = x: int | 0 <= x < 256
  type u16 = x: int | 0 <= x < TWO16
  type u32 = x: int | 0 <= x < TWO32
  type u64 = x: int | 0 <= x < TWO64

  /** Unsigned 64-bit increment without an overflow check. */
  function Inc64(c: u64): u64 {
    if c == TWO64 - 1 then 0 else c + 1
  }

  /** `n` reduced to 64 bits. */
  function Wrap64(n: nat): u64 {
    n % TWO64
  }

  lemma IncWraps(n: nat)
    ensures Inc64(Wrap64(n)) == Wrap64(n + 1)
  {
    var q, r := n / TWO64, n % TWO64;
    if r + 1 < TWO64 {
      DivMod(n + 1, TWO64, q, r + 1);
    } else {
      DivMod(n + 1, TWO64, q + 1, 0);
    }
  }

  lemma WrapSmall(n: nat)
    requires n < TWO64
    ensures Wrap64(n) == n
  {
    DivMod(n, TWO64, 0, n);
  }

  /** Adding the same amount to both sides keeps congruence modulo 2^64, both ways. */
  lemma WrapShift(i: nat, j: nat, d: nat)
    ensures Wrap64(i + d) == Wrap64(j + d) <==> Wrap64(i) == Wrap64(j)
  {
    var e := if Wrap64(i) == Wrap64(j) then i / TWO64 - j / TWO64 else (i + d) / TWO64 - (j + d) / TWO64;
    if Wrap64(i + d) == Wrap64(j + d) || Wrap64(i) == Wrap64(j) {
      assert i == j + TWO64 * e;
      DivMod(i, TWO64, j / TWO64 + e, Wrap64(j));
      DivMod(i + d, TWO64, (j + d) / TWO64 + e, Wrap64(j + d));
    }
  }

  function Pow2(n: nat): (p: nat)
    ensures p > 0
  {
    if n == 0 then 1 else 2 * Pow2(n - 1)
  }

  /** Binary digit `i` of `w`. */
  predicate Bit(w: nat, i: nat) {
    if i == 0 then w % 2 == 1 else Bit(w / 2, i - 1)
  }

  function Or(a: nat, b: nat): nat {
    if a == 0 && b == 0 then 0
    else 2 * Or(a / 2, b / 2) + if a % 2 == 1 || b % 2 == 1 then 1 else 0
  }

  function And(a: nat, b: nat): nat {
    if a == 0 && b == 0 then 0
    else 2 * And(a / 2, b / 2) + if a % 2 == 1 && b % 2 == 1 then 1 else 0
  }

  /** `w << n` on a 64-bit word: the digits pushed past bit 63 are lost. */
  function Shl64(w: nat, n: nat): u64 {
    w * Pow2(n) % TWO64
  }

  function Shr(w: nat, n: nat): nat {
    if n == 0 then w else Shr(w / 2, n - 1)
  }

  lemma {:induction false} BitOfZero(i: nat)
    ensures !Bit(0, i)
  {
    if i > 0 { BitOfZero(i - 1); }
  }

  lemma {:induction false} BitOr(a: nat, b: nat, i: nat)
    ensures Bit(Or(a, b), i) == (Bit(a, i) || Bit(b, i))
  {
    if a == 0 && b == 0 {
      BitOfZero(i);
    } else if i > 0 {
      BitOr(a / 2, b / 2, i - 1);
    }
  }

  lemma {:induction false} OrBound(a: nat, b: nat, n: nat)
    requires a < Pow2(n) && b < Pow2(n)
    ensures Or(a, b) < Pow2(n)
  {
    if n > 0 && !(a == 0 && b == 0) { OrBound(a / 2, b / 2, n - 1); }
  }

  lemma {:induction false} BitPow2(k: nat, i: nat)
    ensures Bit(Pow2(k), i) == (i == k)
  {
    if k == 0 {
      if i > 0 { BitOfZero(i - 1); }
    } else if i > 0 {
      BitPow2(k - 1, i - 1);
    }
  }

  lemma {:induction false} AndOfZero(a: nat)
    ensures And(a, 0) == 0
  {
    if a > 0 { AndOfZero(a / 2); }
  }

  /** Masking with a single bit tests that bit. */
  lemma {:induction false} AndPow2(a: nat, k: nat)
    ensures And(a, Pow2(k)) != 0 <==> Bit(a, k)
  {
    if k == 0 {
      AndOfZero(a / 2);
    } else {
      AndPow2(a / 2, k - 1);
    }
  }

  lemma DivMod(a: int, m: int, q: int, r: int)
    requires m > 0 && a == m * q + r && 0 <= r < m
    ensures a / m == q && a % m == r
  {
    var d := a / m - q;
    assert m * d == r - a % m;
    assert d >= 1 ==> m * d >= m;
    assert d <= -1 ==> m * d <= -m;
  }

  lemma {:induction false} BitModPow2(a: nat, n: nat, i: nat)
    ensures Bit(a % Pow2(n), i) == (i < n && Bit(a, i))
  {
    if n == 0 {
      BitOfZero(i);
    } else {
      var p := Pow2(n - 1);
      var q, r := a / (2 * p), a % (2 * p);
      assert a == 2 * (p * q) + r;
      DivMod(a / 2, p, q, r / 2);
      if i > 0 { BitModPow2(a / 2, n - 1, i - 1); }
    }
  }

  lemma {:induction false} BitIsShifted(a: nat, i: nat)
    ensures Bit(a, i) == (Shr(a, i) % 2 == 1)
  {
    if i > 0 { BitIsShifted(a / 2, i - 1); }
  }

  lemma {:induction false} ShrBound(a: nat, n: nat)
    requires a < 2 * Pow2(n)
    ensures Shr(a, n) <= 1
  {
    if n > 0 { ShrBound(a / 2, n - 1); }
  }

  lemma {:induction false} BitOfShr(a: nat, n: nat, i: nat)
    ensures Bit(Shr(a, n), i) == Bit(a, n + i)
  {
    if n > 0 { BitOfShr(a / 2, n - 1, i); }
  }

  /** A number is determined by its binary digits. */
  lemma {:induction false} DigitsDetermine(a: nat, b: nat)
    requires forall i: nat :: Bit(a, i) == Bit(b, i)
    ensures a == b
  {
    if a != b {
      assert Bit(a, 0) == Bit(b, 0);
      forall i: nat ensures Bit(a / 2, i) == Bit(b / 2, i) {
        assert Bit(a, i + 1) == Bit(b, i + 1);
      }
      if a + b > 1 { DigitsDetermine(a / 2, b / 2); }
    }
  }

  /** The same digits from place `n` up. */
  ghost predicate AgreeFrom(a: nat, b: nat, n: nat) {
    forall i: nat :: i >= n ==> Bit(a, i) == Bit(b, i)
  }

  /** Shifting two numbers right gives the same exactly when they agree in all higher digits. */
  lemma ShrEqual(a: nat, b: nat, n: nat)
    ensures Shr(a, n) == Shr(b, n) <==> AgreeFrom(a, b, n)
  {
    if Shr(a, n) == Shr(b, n) {
      forall i: nat | i >= n ensures Bit(a, i) == Bit(b, i) {
        BitOfShr(a, n, i - n);
        BitOfShr(b, n, i - n);
      }
    }
    if AgreeFrom(a, b, n) {
      forall i: nat ensures Bit(Shr(a, n), i) == Bit(Shr(b, n), i) {
        BitOfShr(a, n, i);
        BitOfShr(b, n, i);
        assert n + i >= n;
      }
      DigitsDetermine(Shr(a, n), Shr(b, n));
    }
  }

  lemma {:induction false} Pow2Sum(a: nat, b: nat)
    ensures Pow2(a + b) == Pow2(a) * Pow2(b)
  {
    if a > 0 { Pow2Sum(a - 1, b); }
  }

  lemma Pow2Is64()
    ensures Pow2(63) == 0x8000_0000_0000_0000 && Pow2(64) == TWO64
  {
    assert Pow2(8) == 256;
    Pow2Sum(8, 8);
    Pow2Sum(16, 16);
    Pow2Sum(32, 32);
    assert Pow2(64) == 2 * Pow2(63);
  }

  lemma {:induction false} Pow2Monotone(a: nat, b: nat)
    requires a <= b
    ensures Pow2(a) <= Pow2(b)
  {
    if a < b { Pow2Monotone(a, b - 1); }
  }

  /** The digits of `(w << 1) | carry`: every digit moves up one place and `carry` comes in
      at the bottom. */
  lemma BitShiftCarry(w: u64, carry: nat, i: nat)
    requires carry <= 1 && i < 64
    ensures Bit(Or(Shl64(w, 1), carry), i) == if i == 0 then carry == 1 else Bit(w, i - 1)
    ensures Or(Shl64(w, 1), carry) < TWO64
  {
    Pow2Is64();
    var up := Shl64(w, 1);
    assert up == 2 * w % TWO64 by { assert Pow2(1) == 2; }
    OrBound(up, carry, 64);
    BitOr(up, carry, i);
    BitModPow2(2 * w, 64, i);
    if i > 0 { BitOfZero(i - 1); }
  }

  /** The word shifted out by `w >> 63` is the top digit of `w`. */
  lemma TopBit(w: u64)
    ensures Shr(w, 63) <= 1
    ensures (Shr(w, 63) == 1) == Bit(w, 63)
  {
    Pow2Is64();
    BitIsShifted(w, 63);
    ShrBound(w, 63);
  }

  /** Setting bit `k` with `|= 1 << k` changes that bit and no other. */
  lemma BitMark(w: u64, k: nat, i: nat)
    requires k < 64
    ensures Bit(Or(w, Shl64(1, k)), i) == (i == k || Bit(w, i))
    ensures Or(w, Shl64(1, k)) < TWO64
  {
    OneShifted(k);
    Pow2Is64();
    BitOr(w, Pow2(k), i);
    BitPow2(k, i);
    OrBound(w, Pow2(k), 64);
  }

  lemma OneShifted(k: nat)
    requires k < 64
    ensures Shl64(1, k) == Pow2(k) < TWO64
  {
    Pow2Is64();
    Pow2Monotone(k, 63);
    DivMod(Pow2(k), TWO64, 0, Pow2(k));
  }
}
