/** Unsigned machine words of lib/dht/murmur_hash.cc: bitwise operations, shifts, rotations and
    products modulo 2^64, as arithmetic on naturals. */
module Words {
  import opened Bytes

  const MODULUS: nat := 0x1_0000_0000_0000_0000
  const ONES: uint64 := 0xffff_ffff_ffff_ffff

  function Pow2(n: nat): (p: nat)
    ensures p > 0
  {
    if n == 0 then 1 else 2 * Pow2(n - 1)
  }

  lemma Pow2Values()
    ensures Pow2(64) == MODULUS && Pow2(63) == 0x8000_0000_0000_0000 && Pow2(32) == 0x1_0000_0000 && Pow2(8) == 256
  {
    assert Pow2(4) == 0x10;
    assert Pow2(8) == 0x100;
    assert Pow2(12) == 0x1000;
    assert Pow2(16) == 0x1_0000;
    assert Pow2(20) == 0x10_0000;
    assert Pow2(24) == 0x100_0000;
    assert Pow2(28) == 0x1000_0000;
    assert Pow2(32) == 0x1_0000_0000;
    assert Pow2(36) == 0x10_0000_0000;
    assert Pow2(40) == 0x100_0000_0000;
    assert Pow2(44) == 0x1000_0000_0000;
    assert Pow2(48) == 0x1_0000_0000_0000;
    assert Pow2(52) == 0x10_0000_0000_0000;
    assert Pow2(56) == 0x100_0000_0000_0000;
    assert Pow2(60) == 0x1000_0000_0000_0000;
  }

  /** Bit p of a word, bit 0 the least significant. */
  predicate Bit(x: nat, p: nat)
    decreases p
  {
    if p == 0 then x % 2 == 1 else Bit(x / 2, p - 1)
  }

  function Xor(x: nat, y: nat): (r: nat)
    decreases x + y
  {
    if x == 0 && y == 0 then 0 else 2 * Xor(x / 2, y / 2) + (if x % 2 != y % 2 then 1 else 0)
  }

  function And(x: nat, y: nat): (r: nat)
    decreases x + y
  {
    if x == 0 && y == 0 then 0 else 2 * And(x / 2, y / 2) + (if x % 2 == 1 && y % 2 == 1 then 1 else 0)
  }

  function Or(x: nat, y: nat): (r: nat)
    decreases x + y
  {
    if x == 0 && y == 0 then 0 else 2 * Or(x / 2, y / 2) + (if x % 2 == 1 || y % 2 == 1 then 1 else 0)
  }

  /** x >> n, one place at a time. */
  function Shr(x: nat, n: nat): (r: nat)
    ensures r <= x
    decreases n
  {
    if n == 0 then x else Shr(x / 2, n - 1)
  }

  /** x << n on 64 bits, one place at a time. */
  function Shl(x: uint64, n: nat): (r: uint64)
    decreases n
  {
    if n == 0 then x else Shl((2 * x) % MODULUS, n - 1)
  }

  // ----- bits of the operations

  lemma {:induction false} BitZero(p: nat)
    ensures !Bit(0, p)
  {
    if p > 0 { BitZero(p - 1); }
  }

  lemma {:induction false} BitHigh(x: nat, p: nat)
    requires x < Pow2(p)
    ensures !Bit(x, p)
  {
    if p > 0 { BitHigh(x / 2, p - 1); }
  }

  lemma {:induction false} Pow2Monotone(a: nat, b: nat)
    requires a <= b
    ensures Pow2(a) <= Pow2(b)
    decreases b - a
  {
    if a < b { Pow2Monotone(a + 1, b); }
  }

  lemma WordHigh(x: uint64, p: nat)
    requires p >= 64
    ensures !Bit(x, p)
  {
    Pow2Values();
    Pow2Monotone(64, p);
    BitHigh(x, p);
  }

  /** Each operation works on the low bits and on the rest separately. */
  lemma Halves(x: nat, y: nat)
    ensures Xor(x, y) / 2 == Xor(x / 2, y / 2) && (Xor(x, y) % 2 == 1 <==> x % 2 != y % 2)
    ensures And(x, y) / 2 == And(x / 2, y / 2) && (And(x, y) % 2 == 1 <==> x % 2 == 1 && y % 2 == 1)
    ensures Or(x, y) / 2 == Or(x / 2, y / 2) && (Or(x, y) % 2 == 1 <==> x % 2 == 1 || y % 2 == 1)
  {
  }

  lemma {:induction false} BitXor(x: nat, y: nat, p: nat)
    ensures Bit(Xor(x, y), p) <==> Bit(x, p) != Bit(y, p)
    decreases p
  {
    hide Xor;
    Halves(x, y);
    if p > 0 { BitXor(x / 2, y / 2, p - 1); }
  }

  lemma {:induction false} BitAnd(x: nat, y: nat, p: nat)
    ensures Bit(And(x, y), p) <==> Bit(x, p) && Bit(y, p)
    decreases p
  {
    hide And;
    Halves(x, y);
    if p > 0 { BitAnd(x / 2, y / 2, p - 1); }
  }

  lemma {:induction false} BitOr(x: nat, y: nat, p: nat)
    ensures Bit(Or(x, y), p) <==> Bit(x, p) || Bit(y, p)
    decreases p
  {
    hide Or;
    Halves(x, y);
    if p > 0 { BitOr(x / 2, y / 2, p - 1); }
  }

  lemma {:induction false} BitShr(x: nat, n: nat, p: nat)
    ensures Bit(Shr(x, n), p) == Bit(x, n + p)
    decreases n
  {
    if n > 0 { BitShr(x / 2, n - 1, p); }
  }

  /** Naturals below 2^n with the same n bits are the same. */
  lemma {:induction false} SameBits(x: nat, y: nat, n: nat)
    requires x < Pow2(n) && y < Pow2(n) && forall p | 0 <= p < n :: Bit(x, p) == Bit(y, p)
    ensures x == y
    decreases n
  {
    if n > 0 {
      forall p | 0 <= p < n - 1 ensures Bit(x / 2, p) == Bit(y / 2, p) {
        assert Bit(x, p + 1) == Bit(y, p + 1);
      }
      SameBits(x / 2, y / 2, n - 1);
      assert Bit(x, 0) == Bit(y, 0);
    }
  }

  lemma SameWords(x: uint64, y: uint64)
    requires forall p | 0 <= p < 64 :: Bit(x, p) == Bit(y, p)
    ensures x == y
  {
    Pow2Values();
    SameBits(x, y, 64);
  }

  lemma {:induction false} Bounded(x: nat, y: nat, n: nat)
    requires x < Pow2(n) && y < Pow2(n)
    ensures Xor(x, y) < Pow2(n) && And(x, y) < Pow2(n) && Or(x, y) < Pow2(n)
    decreases n
  {
    if n > 0 { Bounded(x / 2, y / 2, n - 1); }
  }

  /** Xor, And and Or of words are words. */
  lemma WordBounds(x: uint64, y: uint64)
    ensures Xor(x, y) < MODULUS && And(x, y) < MODULUS && Or(x, y) < MODULUS
  {
    Pow2Values();
    Bounded(x, y, 64);
  }

  // ----- xor

  lemma {:induction false} XorCancels(x: nat, y: nat)
    ensures Xor(Xor(x, y), y) == x
    decreases x + y
  {
    if x != 0 || y != 0 {
      XorCancels(x / 2, y / 2);
      Halves(x, y);
      Halves(Xor(x, y), y);
      hide Xor;
    }
  }

  lemma XorInjective(x: nat, x': nat, y: nat)
    requires Xor(x, y) == Xor(x', y)
    ensures x == x'
  {
    XorCancels(x, y);
    XorCancels(x', y);
  }

  lemma {:induction false} XorCommutes(x: nat, y: nat)
    ensures Xor(x, y) == Xor(y, x)
    decreases x + y
  {
    if x != 0 || y != 0 { XorCommutes(x / 2, y / 2); }
  }

  lemma XorInjectiveRight(x: nat, y: nat, y': nat)
    requires Xor(x, y) == Xor(x, y')
    ensures y == y'
  {
    XorCommutes(x, y);
    XorCommutes(x, y');
    XorInjective(y, y', x);
  }

  lemma {:induction false} XorZero(x: nat)
    ensures Xor(0, x) == x
  {
    if x > 0 { XorZero(x / 2); }
  }

  // ----- shifting left

  lemma {:induction false} DropTop(x: nat, n: nat, p: nat)
    requires Pow2(n) <= x < Pow2(n + 1)
    ensures Bit(x - Pow2(n), p) <==> p != n && Bit(x, p)
    ensures Bit(x, n)
    decreases n
  {
    if n == 0 {
      assert x == 1;
      BitZero(p);
      if p > 0 { BitZero(p - 1); }
    } else {
      assert (x - Pow2(n)) / 2 == x / 2 - Pow2(n - 1);
      DropTop(x / 2, n - 1, if p == 0 then 0 else p - 1);
    }
  }

  lemma DoubleHalf(x: uint64)
    ensures var y, half := (2 * x) % MODULUS, 0x8000_0000_0000_0000;
      y % 2 == 0 && y / 2 == if x < half then x else x - half
  {
  }

  lemma BitNext(x: nat, p: nat)
    ensures Bit(x, p) == if p == 0 then x % 2 == 1 else Bit(x / 2, p - 1)
  {
  }

  lemma BitDouble(x: uint64, p: nat)
    ensures Bit((2 * x) % MODULUS, p) <==> 1 <= p < 64 && Bit(x, p - 1)
  {
    hide Bit, Pow2;
    Pow2Values();
    DoubleHalf(x);
    BitNext((2 * x) % MODULUS, p);
    if p >= 64 { WordHigh((2 * x) % MODULUS, p); }
    if p > 0 && x >= Pow2(63) {
      assert Pow2(64) == 2 * Pow2(63);
      DropTop(x, 63, p - 1);
    }
  }

  lemma {:induction false} BitShl(x: uint64, n: nat, p: nat)
    ensures Bit(Shl(x, n), p) <==> n <= p < 64 && Bit(x, p - n)
    decreases n
  {
    if n == 0 {
      if p >= 64 { WordHigh(x, p); }
    } else {
      BitShl((2 * x) % MODULUS, n - 1, p);
      if n - 1 <= p { BitDouble(x, p - n + 1); }
    }
  }

  lemma {:induction false} BitMask(n: nat, p: nat)
    ensures Bit(Pow2(n) - 1, p) <==> p < n
    decreases p
  {
    if n == 0 {
      BitZero(p);
    } else if p > 0 {
      assert (Pow2(n) - 1) / 2 == Pow2(n - 1) - 1;
      BitMask(n - 1, p - 1);
    }
  }

  // ----- rotations

  function RotL(v: uint64, n: nat): (r: uint64)
    requires 0 < n < 64
  {
    WordBounds(Shl(v, n), Shr(v, 64 - n));
    Or(Shl(v, n), Shr(v, 64 - n))
  }

  function InvRotL(v: uint64, n: nat): (r: uint64)
    requires 0 < n < 64
  {
    WordBounds(Shr(v, n), Shl(v, 64 - n));
    Or(Shr(v, n), Shl(v, 64 - n))
  }

  lemma BitRotL(v: uint64, n: nat, p: nat)
    requires 0 < n < 64 && p < 64
    ensures Bit(RotL(v, n), p) == Bit(v, if p >= n then p - n else p + 64 - n)
  {
    BitOr(Shl(v, n), Shr(v, 64 - n), p);
    BitShl(v, n, p);
    BitShr(v, 64 - n, p);
    if p >= n { WordHigh(v, 64 - n + p); }
  }

  lemma BitInvRotL(v: uint64, n: nat, p: nat)
    requires 0 < n < 64 && p < 64
    ensures Bit(InvRotL(v, n), p) == Bit(v, if p + n < 64 then p + n else p + n - 64)
  {
    BitOr(Shr(v, n), Shl(v, 64 - n), p);
    BitShr(v, n, p);
    BitShl(v, 64 - n, p);
    if p + n >= 64 { WordHigh(v, n + p); }
  }

  /** The two rotations undo each other. */
  lemma RotationsCancel(v: uint64, n: nat)
    requires 0 < n < 64
    ensures InvRotL(RotL(v, n), n) == v && RotL(InvRotL(v, n), n) == v
  {
    hide RotL, InvRotL, Bit;
    forall p | 0 <= p < 64
      ensures Bit(InvRotL(RotL(v, n), n), p) == Bit(v, p) && Bit(RotL(InvRotL(v, n), n), p) == Bit(v, p) {
      BitInvRotL(RotL(v, n), n, p);
      BitRotL(v, n, if p + n < 64 then p + n else p + n - 64);
      BitRotL(InvRotL(v, n), n, p);
      BitInvRotL(v, n, if p >= n then p - n else p + 64 - n);
    }
    SameWords(InvRotL(RotL(v, n), n), v);
    SameWords(RotL(InvRotL(v, n), n), v);
  }

  // ----- sums and products modulo 2^64

  function Add(x: uint64, y: uint64): (r: uint64) {
    if x + y < MODULUS then x + y else x + y - MODULUS
  }

  function Sub(x: uint64, y: uint64): (r: uint64) {
    if x >= y then x - y else x - y + MODULUS
  }

  function MulMod(x: nat, c: nat, m: nat): (r: nat)
    requires m > 0
    ensures r < m
  {
    (x * c) % m
  }

  function Mul(x: uint64, c: uint64): (r: uint64) {
    MulMod(x, c, MODULUS)
  }

  /** Multiplying by a constant and then by its inverse gives the word back. */
  lemma MulModCancels(x: nat, c: nat, d: nat, m: nat)
    requires x < m && m > 1 && (c * d) % m == 1
    ensures MulMod(MulMod(x, c, m), d, m) == x
  {
    var q, k := (x * c) / m, (c * d) / m;
    var y := MulMod(x, c, m);
    assert x * c == m * q + y;
    assert c * d == m * k + 1;
    MulRegroup(x, c, d, m, q, k, y);
    ModUnique(y * d, m, x * k - q * d, x);
  }

  lemma MulRegroup(x: nat, c: nat, d: nat, m: nat, q: nat, k: nat, y: nat)
    requires x * c == m * q + y && c * d == m * k + 1 && x < m
    ensures y * d == m * (x * k - q * d) + x && x * k - q * d >= 0
  {
    assert x * c * d == x * (c * d);
    assert x * c * d == (m * q + y) * d;
    assert x * (c * d) == x * (m * k + 1);
    assert x * (m * k + 1) == m * (x * k) + x;
    assert (m * q + y) * d == m * (q * d) + y * d;
    var t := x * k - q * d;
    assert m * t == m * (x * k) - m * (q * d);
    assert y * d >= 0;
    TimesSign(m, t);
  }

  lemma MulCancels(x: uint64, c: uint64, d: uint64)
    requires (c * d) % MODULUS == 1
    ensures Mul(Mul(x, c), d) == x
  {
    hide MulMod;
    MulModCancels(x, c, d, MODULUS);
  }

  // ----- x ^= x >> shift and its inverse

  function XorShift(x: uint64, shift: nat): (r: uint64) {
    WordBounds(x, Shr(x, shift));
    Xor(x, Shr(x, shift))
  }

  lemma {:induction false} XorShiftBits(x: uint64, y: uint64, shift: nat, p: nat)
    requires shift > 0 && XorShift(x, shift) == XorShift(y, shift)
    ensures Bit(x, p) == Bit(y, p)
    decreases if p >= 64 then 0 else 64 - p
  {
    hide Bit, Shr, Xor;
    if p >= 64 {
      WordHigh(x, p);
      WordHigh(y, p);
    } else {
      XorShiftBits(x, y, shift, p + shift);
      BitXor(x, Shr(x, shift), p);
      BitXor(y, Shr(y, shift), p);
      BitShr(x, shift, p);
      BitShr(y, shift, p);
    }
  }

  /** x ^ (x >> shift) determines x. */
  lemma XorShiftInjective(x: uint64, y: uint64, shift: nat)
    requires shift > 0 && XorShift(x, shift) == XorShift(y, shift)
    ensures x == y
  {
    forall p | 0 <= p < 64 ensures Bit(x, p) == Bit(y, p) { XorShiftBits(x, y, shift, p); }
    SameWords(x, y);
  }

  /** Bits 64 - n - shift up to 64 - n: one group of `shift` bits, `n` bits below the top. */
  function Group(shift: nat, n: nat): (c: uint64)
    requires 0 < shift < 64
  {
    Shr(Shl(ONES, 64 - shift), n)
  }

  lemma BitGroup(shift: nat, n: nat, p: nat)
    requires 0 < shift < 64
    ensures Bit(Group(shift, n), p) <==> 64 - shift <= n + p < 64
  {
    hide Bit, Shr, Shl;
    BitShr(Shl(ONES, 64 - shift), n, p);
    BitShl(ONES, 64 - shift, n + p);
    if 64 - shift <= n + p {
      Pow2Values();
      BitMask(64, n + p - (64 - shift));
    }
  }

  /** The loop's state when the top `n` bits are done: `value` has the known bits cancelled. */
  ghost predicate Undone(start: uint64, value: uint64, output: uint64, shift: nat, n: nat) {
    && (forall p | 0 <= p < 64 :: Bit(value, p) == (Bit(start, p) != Bit(output, p + shift)))
    && (forall p | 0 <= p < 64 - n :: !Bit(output, p))
    && (forall p | 64 - n <= p < 64 && 0 <= p :: Bit(output, p) == Bit(value, p))
  }

  lemma StepBits(value: uint64, output: uint64, shift: nat, n: nat, p: nat)
    requires 0 < shift < 64
    ensures var part := And(value, Group(shift, n));
      && Bit(part, p) == (Bit(value, p) && 64 - shift <= n + p < 64)
      && Bit(Or(output, part), p) == (Bit(output, p) || Bit(part, p))
      && Bit(Xor(value, Shr(part, shift)), p) == (Bit(value, p) != Bit(part, shift + p))
  {
    hide *;
    var part := And(value, Group(shift, n));
    BitAnd(value, Group(shift, n), p);
    BitGroup(shift, n, p);
    BitOr(output, part, p);
    BitXor(value, Shr(part, shift), p);
    BitShr(part, shift, p);
  }

  lemma UndoneStep(start: uint64, value: uint64, output: uint64, shift: nat, n: nat)
    requires 0 < shift < 64 && n < 64 && Undone(start, value, output, shift, n)
    ensures var part := And(value, Group(shift, n));
      && part < MODULUS && Xor(value, Shr(part, shift)) < MODULUS && Or(output, part) < MODULUS
      && Undone(start, Xor(value, Shr(part, shift)), Or(output, part), shift, n + shift)
  {
    hide Bit, Shr, Group, And, Or, Xor;
    WordBounds(value, Group(shift, n));
    var part := And(value, Group(shift, n));
    WordBounds(value, Shr(part, shift));
    WordBounds(output, part);
    var value', output' := Xor(value, Shr(part, shift)), Or(output, part);
    forall p | 0 <= p < 64
      ensures Bit(value', p) == (Bit(start, p) != Bit(output', p + shift))
      ensures p < 64 - (n + shift) ==> !Bit(output', p)
      ensures 64 - (n + shift) <= p ==> Bit(output', p) == Bit(value', p)
    {
      StepBits(value, output, shift, n, p);
      StepBits(value, output, shift, n, p + shift);
      if p + shift >= 64 { WordHigh(output, p + shift); }
    }
  }

  lemma UndoneEnd(start: uint64, value: uint64, output: uint64, shift: nat, n: nat)
    requires Undone(start, value, output, shift, n) && n >= 64
    ensures XorShift(output, shift) == start
  {
    hide Bit, Shr, Xor;
    forall p | 0 <= p < 64 ensures Bit(XorShift(output, shift), p) == Bit(start, p) {
      BitXor(output, Shr(output, shift), p);
      BitShr(output, shift, p);
    }
    SameWords(XorShift(output, shift), start);
  }

  lemma UndoneBegin(start: uint64, shift: nat)
    ensures Undone(start, start, 0, shift, 0)
  {
    hide Bit;
    forall p: nat ensures !Bit(0, p) { BitZero(p); }
  }

  /** For every shift from 1 to 63 the loop ends with the word that was shifted and xored. */
  method InvRshiftXor(start: uint64, shift: nat) returns (output: uint64)
    requires 0 < shift < 64
    ensures XorShift(output, shift) == start
    ensures forall x: uint64 | XorShift(x, shift) == start :: x == output
  {
    hide Undone, Shr, Shl, XorShift, And, Or, Xor;
    var value: uint64 := start;
    output := 0;
    var i, n := 0, 0;
    UndoneBegin(start, shift);
    while i * shift < 64
      invariant n == i * shift && Undone(start, value, output, shift, n)
      decreases 64 - n
    {
      UndoneStep(start, value, output, shift, n);
      var c := Shr(Shl(ONES, 64 - shift), shift * i);
      var part := And(value, c);
      value := Xor(value, Shr(part, shift));
      output := Or(output, part);
      assert (i + 1) * shift == n + shift;
      i, n := i + 1, n + shift;
    }
    UndoneEnd(start, value, output, shift, n);
    forall x: uint64 | XorShift(x, shift) == start ensures x == output {
      XorShiftInjective(x, output, shift);
    }
  }
}
