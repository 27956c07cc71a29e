/** Bytes inside 64-bit words: placing them with shifts and xors, and reversing their order. */
module ByteWords {
  import opened Bytes
  import opened Words

  // ----- bytes of a word

  lemma {:induction false} BitSplit(a: nat, b: nat, n: nat, p: nat)
    requires a < Pow2(n)
    ensures Bit(a + Pow2(n) * b, p) == if p < n then Bit(a, p) else Bit(b, p - n)
    decreases n
  {
    if n > 0 {
      var t := Pow2(n - 1) * b;
      assert Pow2(n) * b == 2 * t;
      assert (a + 2 * t) / 2 == a / 2 + t;
      if p > 0 { BitSplit(a / 2, b, n - 1, p - 1); }
    }
  }

  /** Bit p of a little-endian word is bit p % 8 of byte p / 8. */
  lemma {:induction false} BitOfBytes(b: seq<byte>, p: nat)
    requires p < 8 * |b|
    ensures Bit(FromLittleEndian(b), p) == Bit(b[p / 8], p % 8)
  {
    hide Bit, Pow2;
    Pow2Values();
    assert FromLittleEndian(b) == b[0] + Pow2(8) * FromLittleEndian(b[1..]);
    BitSplit(b[0], FromLittleEndian(b[1..]), 8, p);
    if p >= 8 { BitOfBytes(b[1..], p - 8); }
  }

  // ----- the fall-through switches

  lemma {:induction false} XorAssociates(x: nat, y: nat, z: nat)
    ensures Xor(Xor(x, y), z) == Xor(x, Xor(y, z))
    decreases x + y + z
  {
    if x + y + z > 0 {
      XorAssociates(x / 2, y / 2, z / 2);
      Halves(x, y);
      Halves(y, z);
      Halves(Xor(x, y), z);
      Halves(x, Xor(y, z));
      hide Xor;
    }
  }

  /** Xoring below the lowest set bit is adding. */
  lemma {:induction false} XorBelow(x: nat, y: nat, n: nat)
    requires y < Pow2(n)
    ensures Xor(Pow2(n) * x, y) == Pow2(n) * x + y
    decreases n
  {
    if n == 0 {
      XorZero(x);
      XorCommutes(0, x);
    } else {
      var t := Pow2(n - 1) * x;
      assert Pow2(n) * x == 2 * t;
      Halves(2 * t, y);
      XorBelow(x, y / 2, n - 1);
    }
  }

  lemma {:induction false} Pow2Of8(i: nat)
    ensures Pow2(8 * i) == Pow256(i)
  {
    if i > 0 {
      Pow2Of8(i - 1);
      Pow2Step8(8 * i - 8);
    }
  }

  lemma Pow2Step8(n: nat)
    ensures Pow2(n + 8) == 256 * Pow2(n)
  {
    assert Pow2(n + 2) == 4 * Pow2(n);
    assert Pow2(n + 4) == 4 * Pow2(n + 2);
    assert Pow2(n + 6) == 4 * Pow2(n + 4);
    assert Pow2(n + 8) == 4 * Pow2(n + 6);
  }

  lemma PowTimes(p: nat, x: nat)
    requires p > 0
    ensures 2 * p * x == p * (2 * x) && p * (2 * x) >= 2 * x
  {
    TimesAtLeast(2 * x, p);
  }

  lemma ShlStep(x: nat, n: nat, p: nat)
    requires n > 0 && p > 0 && 2 * p * x < MODULUS
    ensures 2 * x < MODULUS && Shl(x, n) == Shl(2 * x, n - 1)
  {
    PowTimes(p, x);
  }

  lemma {:induction false} ShlIsTimes(x: nat, n: nat)
    requires Pow2(n) * x < MODULUS
    ensures x < MODULUS && Shl(x, n) == Pow2(n) * x
    decreases n
  {
    if n > 0 {
      var p := Pow2(n - 1);
      ShlStep(x, n, p);
      PowTimes(p, x);
      hide Shl, Pow2;
      ShlIsTimes(2 * x, n - 1);
    }
  }

  lemma ByteFits(b: byte, i: nat)
    requires i < 8
    ensures Pow256(i) * b < Pow256(i + 1) <= MODULUS
  {
    Pow256Values();
    Pow256Below8(i + 1);
    assert Pow256(i) * b <= Pow256(i) * 255;
  }

  lemma {:induction false} Pow256Below8(i: nat)
    requires i <= 8
    ensures Pow256(i) <= MODULUS
    decreases 8 - i
  {
    Pow256Values();
    if i < 8 { Pow256Below8(i + 1); }
  }

  /** Xoring in byte i above which bytes i + 1 and up are already in place. */
  lemma PlaceByte(b: seq<byte>, i: nat)
    requires i < |b| <= 8
    ensures Xor(Pow256(i + 1) * FromLittleEndian(b[i + 1..]), Shl(b[i], 8 * i)) == Pow256(i) * FromLittleEndian(b[i..])
  {
    assert b[i..][1..] == b[i + 1..];
    var hi := FromLittleEndian(b[i + 1..]);
    assert FromLittleEndian(b[i..]) == b[i] + 256 * hi;
    assert Pow256(i + 1) == 256 * Pow256(i);
    hide *;
    ByteFits(b[i], i);
    Pow2Of8(i);
    Pow2Of8(i + 1);
    ShlIsTimes(b[i], 8 * i);
    XorBelow(hi, Pow256(i) * b[i], 8 * (i + 1));
    PlaceDigits(Pow256(i), b[i], hi);
  }

  lemma PlaceDigits(p: nat, b: nat, hi: nat)
    ensures (256 * p) * hi + p * b == p * (b + 256 * hi)
  {
  }

  /** The tail switches: byte i is xored in at bit 8 * i, the highest byte first. */
  method XorBytes(h: uint64, b: seq<byte>) returns (r: uint64)
    requires |b| <= 8
    ensures r == Xor(h, FromLittleEndian(b))
  {
    hide Xor, Shl, FromLittleEndian;
    r := h;
    assert FromLittleEndian(b[|b|..]) == 0 by { FromNothing(b); }
    XorZero(h);
    XorCommutes(0, h);
    for i := |b| downto 0
      invariant r == Xor(h, Pow256(i) * FromLittleEndian(b[i..]))
    {
      PlaceByte(b, i);
      XorAssociates(h, Pow256(i + 1) * FromLittleEndian(b[i + 1..]), Shl(b[i], 8 * i));
      WordBounds(r, Shl(b[i], 8 * i));
      r := Xor(r, Shl(b[i], 8 * i));
    }
    assert b[0..] == b;
  }

  lemma FromNothing(b: seq<byte>)
    ensures FromLittleEndian(b[|b|..]) == 0
  {
  }

  // ----- reverse_bytes

  /** Whether bit p lies in the upper half of its group of 2 * w bits. */
  predicate OddLane(w: nat, p: nat)
    requires w > 0
    decreases p
  {
    if p < w then false else if p < 2 * w then true else OddLane(w, p - 2 * w)
  }

  /** k groups whose lower (or upper) w bits are set. */
  function Lanes(w: nat, k: nat, odd: bool): (m: nat)
    decreases k
  {
    if k == 0 then 0
    else (if odd then Pow2(w) * (Pow2(w) - 1) else Pow2(w) - 1) + Pow2(2 * w) * Lanes(w, k - 1, odd)
  }

  lemma LaneBelow(w: nat)
    ensures Pow2(w) - 1 < Pow2(2 * w) && Pow2(w) * (Pow2(w) - 1) < Pow2(2 * w)
  {
    hide Pow2;
    Pow2Square(w, w);
    BelowSquare(Pow2(w));
  }

  lemma BelowSquare(p: nat)
    requires p > 0
    ensures p - 1 < p * p && p * (p - 1) < p * p
  {
  }

  lemma {:induction false} Pow2Square(a: nat, b: nat)
    ensures Pow2(a + b) == Pow2(a) * Pow2(b)
    decreases a
  {
    if a > 0 {
      Pow2Square(a - 1, b);
      TwiceTimes(Pow2(a - 1), Pow2(b));
    }
  }

  lemma TwiceTimes(x: nat, y: nat)
    ensures 2 * (x * y) == (2 * x) * y
  {
  }

  lemma {:induction false} BitLanes(w: nat, k: nat, odd: bool, p: nat)
    requires w > 0 && p < k * (2 * w)
    ensures Bit(Lanes(w, k, odd), p) == (OddLane(w, p) == odd)
    decreases k
  {
    hide Bit;
    LaneBelow(w);
    var lane := if odd then Pow2(w) * (Pow2(w) - 1) else Pow2(w) - 1;
    assert k > 0;
    BitSplit(lane, Lanes(w, k - 1, odd), 2 * w, p);
    if p < 2 * w {
      if odd {
        BitSplit(0, Pow2(w) - 1, w, p);
        BitZero(p);
        if p >= w { BitMask(w, p - w); }
      } else {
        BitMask(w, p);
      }
    } else {
      assert (k - 1) * (2 * w) == k * (2 * w) - 2 * w;
      BitLanes(w, k - 1, odd, p - 2 * w);
    }
  }

  /** (x & lo) << w | (x & hi) >> w. */
  function Swap(x: uint64, lo: uint64, hi: uint64, w: nat): (r: uint64) {
    WordBounds(x, lo);
    WordBounds(x, hi);
    WordBounds(Shl(And(x, lo), w), Shr(And(x, hi), w));
    Or(Shl(And(x, lo), w), Shr(And(x, hi), w))
  }

  function ReverseBytes(x: uint64): (r: uint64) {
    var x1 := Swap(x, 0x0000_0000_ffff_ffff, 0xffff_ffff_0000_0000, 32);
    var x2 := Swap(x1, 0x0000_ffff_0000_ffff, 0xffff_0000_ffff_0000, 16);
    Swap(x2, 0x00ff_00ff_00ff_00ff, 0xff00_ff00_ff00_ff00, 8)
  }

  function Across(w: nat, p: nat): (q: nat)
    requires w > 0
  {
    if OddLane(w, p) then p - w else p + w
  }

  lemma {:induction false} OddLaneFacts(w: nat, p: nat)
    requires w > 0
    ensures OddLane(w, p) ==> p >= w && !OddLane(w, p - w)
    ensures !OddLane(w, p) ==> OddLane(w, p + w)
    decreases p
  {
    if p >= 2 * w { OddLaneFacts(w, p - 2 * w); }
  }

  lemma {:induction false} LaneStays(w: nat, k: nat, p: nat)
    requires w > 0 && p < k * (2 * w) && !OddLane(w, p)
    ensures p + w < k * (2 * w)
    decreases p
  {
    assert k > 0;
    if p >= 2 * w {
      assert (k - 1) * (2 * w) == k * (2 * w) - 2 * w;
      LaneStays(w, k - 1, p - 2 * w);
    } else {
      assert k * (2 * w) >= 2 * w;
    }
  }

  lemma BitSwap(x: uint64, w: nat, k: nat, p: nat)
    requires w > 0 && k * (2 * w) == 64 && p < 64
    requires Lanes(w, k, false) < MODULUS && Lanes(w, k, true) < MODULUS
    ensures Across(w, p) < 64
    ensures Bit(Swap(x, Lanes(w, k, false), Lanes(w, k, true), w), p) == Bit(x, Across(w, p))
  {
    hide Bit, Lanes, OddLane, And, Or, Shl, Shr;
    var lo, hi := Lanes(w, k, false), Lanes(w, k, true);
    OddLaneFacts(w, p);
    if !OddLane(w, p) { LaneStays(w, k, p); }
    WordBounds(x, lo);
    WordBounds(x, hi);
    BitOr(Shl(And(x, lo), w), Shr(And(x, hi), w), p);
    BitShl(And(x, lo), w, p);
    BitShr(And(x, hi), w, p);
    BitAnd(x, hi, w + p);
    if w + p < 64 {
      BitLanes(w, k, true, w + p);
      if OddLane(w, p) && OddLane(w, w + p) { OddLaneFacts(w, w + p); }
    } else {
      WordHigh(x, w + p);
    }
    if w <= p {
      BitAnd(x, lo, p - w);
      BitLanes(w, k, false, p - w);
      if !OddLane(w, p) && !OddLane(w, p - w) { OddLaneFacts(w, p - w); }
    }
  }

  lemma Masks()
    ensures Lanes(32, 1, false) == 0x0000_0000_ffff_ffff && Lanes(32, 1, true) == 0xffff_ffff_0000_0000
    ensures Lanes(16, 2, false) == 0x0000_ffff_0000_ffff && Lanes(16, 2, true) == 0xffff_0000_ffff_0000
    ensures Lanes(8, 4, false) == 0x00ff_00ff_00ff_00ff && Lanes(8, 4, true) == 0xff00_ff00_ff00_ff00
  {
    Pow2Values();
    assert Pow2(16) == 0x1_0000 by { Pow2Step8(8); }
    assert Lanes(32, 0, false) == 0 && Lanes(32, 0, true) == 0;
    assert Lanes(16, 1, false) == 0xffff && Lanes(16, 1, true) == 0xffff_0000;
    assert Lanes(8, 1, false) == 0xff && Lanes(8, 1, true) == 0xff00;
    assert Lanes(8, 2, false) == 0x00ff_00ff && Lanes(8, 2, true) == 0xff00_ff00;
    assert Lanes(8, 3, false) == 0x00ff_00ff_00ff && Lanes(8, 3, true) == 0xff00_ff00_ff00;
  }

  lemma {:induction false} LaneOf8(p: nat)
    ensures OddLane(8, p) <==> (p / 8) % 2 == 1
    decreases p
  {
    if p >= 16 { LaneOf8(p - 16); }
  }

  lemma {:induction false} LaneOf16(p: nat)
    ensures OddLane(16, p) <==> (p / 16) % 2 == 1
    decreases p
  {
    if p >= 32 { LaneOf16(p - 32); }
  }

  lemma LaneOf32(p: nat)
    requires p < 64
    ensures OddLane(32, p) <==> p >= 32
  {
  }

  function Mirror(p: nat): (q: nat)
    requires p < 64
    ensures q < 64
  {
    8 * (7 - p / 8) + p % 8
  }

  /** The three swaps together move byte i to byte 7 - i. */
  lemma BitReverse(x: uint64, p: nat)
    requires p < 64
    ensures Bit(ReverseBytes(x), p) == Bit(x, Mirror(p))
  {
    hide Bit, Swap, Lanes, OddLane;
    Masks();
    var x1 := Swap(x, Lanes(32, 1, false), Lanes(32, 1, true), 32);
    var x2 := Swap(x1, Lanes(16, 2, false), Lanes(16, 2, true), 16);
    BitSwap(x2, 8, 4, p);
    var q := Across(8, p);
    BitSwap(x1, 16, 2, q);
    var r := Across(16, q);
    BitSwap(x, 32, 1, r);
    LaneOf8(p);
    LaneOf16(q);
    LaneOf32(r);
  }

  lemma ReverseTwice(x: uint64)
    ensures ReverseBytes(ReverseBytes(x)) == x
  {
    hide Bit, ReverseBytes;
    forall p | 0 <= p < 64 ensures Bit(ReverseBytes(ReverseBytes(x)), p) == Bit(x, p) {
      var q := Mirror(p);
      BitReverse(ReverseBytes(x), p);
      BitReverse(x, q);
      assert Mirror(q) == p;
    }
    SameWords(ReverseBytes(ReverseBytes(x)), x);
  }

  function Reversed(b: seq<byte>): (r: seq<byte>)
    ensures |r| == |b|
  {
    seq(|b|, i requires 0 <= i < |b| => b[|b| - 1 - i])
  }

  /** The big-endian reading of eight bytes. */
  function BigEndian(b: seq<byte>): (w: uint64)
    requires |b| == 8
  {
    Pow256Values();
    FromLittleEndian(Reversed(b))
  }

  /** reverse_bytes turns the little-endian reading of eight bytes into the big-endian one. */
  lemma ReverseIsBigEndian(b: seq<byte>)
    requires |b| == 8
    ensures FromLittleEndian(b) < MODULUS && ReverseBytes(FromLittleEndian(b)) == BigEndian(b)
  {
    hide Bit, ReverseBytes, FromLittleEndian, BigEndian, Mirror;
    Pow256Values();
    var x := FromLittleEndian(b);
    forall p | 0 <= p < 64 ensures Bit(ReverseBytes(x), p) == Bit(BigEndian(b), p) {
      BitReverse(x, p);
      BitMirrored(b, p);
    }
    SameWords(ReverseBytes(x), BigEndian(b));
  }

  lemma BitMirrored(b: seq<byte>, p: nat)
    requires |b| == 8 && p < 64
    ensures Bit(FromLittleEndian(b), Mirror(p)) == Bit(BigEndian(b), p)
  {
    hide Bit, FromLittleEndian;
    BitOfBytes(b, Mirror(p));
    BitOfBytes(Reversed(b), p);
  }
}
