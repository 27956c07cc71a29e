/** lib/dht/murmur_hash.cc: the 128-bit MurmurHash3 and its inverse on 16-byte keys. */
module Murmur3 {
  import opened Bytes
  import opened Words

  const C1: uint64 := 0x87c3_7b91_1142_53d5
  const C2: uint64 := 0x4cf5_ad43_2745_937f
  const C1_INVERSE: uint64 := 0xa984_09e8_82ce_4d7d
  const C2_INVERSE: uint64 := 0xa81e_14ed_d9de_2c7f
  const FIVE_INVERSE: uint64 := 0xcccc_cccc_cccc_cccd
  const B1: uint64 := 0x52dc_e729
  const B2: uint64 := 0x3849_5ab5
  const F1: uint64 := 0xff51_afd7_ed55_8ccd
  const F2: uint64 := 0xc4ce_b9fe_1a85_ec53
  const F1_INVERSE: uint64 := 0x4f74_430c_22a5_4005
  const F2_INVERSE: uint64 := 0x9cb4_b2f8_1293_37db

  datatype State = State(h1: uint64, h2: uint64)

  function XorW(x: uint64, y: uint64): (r: uint64) {
    WordBounds(x, y);
    Xor(x, y)
  }

  // ----- the hash

  function Mix1(k: uint64): (r: uint64) {
    Mul(RotL(Mul(k, C1), 31), C2)
  }

  function Mix2(k: uint64): (r: uint64) {
    Mul(RotL(Mul(k, C2), 33), C1)
  }

  function Block(s: State, k1: uint64, k2: uint64): (s': State) {
    var h1 := Add(Mul(Add(RotL(XorW(s.h1, Mix1(k1)), 27), s.h2), 5), B1);
    var h2 := Add(Mul(Add(RotL(XorW(s.h2, Mix2(k2)), 31), h1), 5), B2);
    State(h1, h2)
  }

  /** get_block: the little-endian word of eight key bytes. */
  function Word(key: seq<byte>, o: nat): (w: uint64)
    requires o + 8 <= |key|
  {
    Pow256Values();
    FromLittleEndian(key[o..o + 8])
  }

  /** The state after the first `i` blocks of 16 bytes. */
  function Body(key: seq<byte>, seed: uint64, i: nat): (s: State)
    requires 16 * i <= |key|
    decreases i
  {
    if i == 0 then State(seed, seed)
    else Block(Body(key, seed, i - 1), Word(key, 16 * i - 16), Word(key, 16 * i - 8))
  }

  /** The bytes that make the first tail word. */
  function Tail1(t: seq<byte>): (b: seq<byte>) {
    if |t| <= 8 then t else t[..8]
  }

  /** The bytes that make the second: from position 10 on the code reads byte 1 instead. */
  function Tail2(t: seq<byte>): (b: seq<byte>)
    requires |t| < 16
    ensures |b| == if |t| <= 8 then 0 else |t| - 8
  {
    if |t| <= 8 then [] else seq(|t| - 8, i requires 0 <= i < |t| - 8 => if i < 2 then t[8 + i] else t[1])
  }

  function TailWord(b: seq<byte>): (w: uint64)
    requires |b| <= 8
  {
    ShortWord(b);
    FromLittleEndian(b)
  }

  lemma ShortWord(b: seq<byte>)
    requires |b| <= 8
    ensures FromLittleEndian(b) < MODULUS
  {
    Pow256Monotone(|b|, 8);
    Pow256Values();
  }

  function Tail(s: State, t: seq<byte>): (s': State)
    requires |t| < 16
  {
    State(if |t| > 0 then XorW(s.h1, Mix1(TailWord(Tail1(t)))) else s.h1,
          if |t| > 8 then XorW(s.h2, Mix2(TailWord(Tail2(t)))) else s.h2)
  }

  function Fmix(k: uint64): (r: uint64) {
    XorShift(Mul(XorShift(Mul(XorShift(k, 33), F1), 33), F2), 33)
  }

  /** h1 += h2; h2 += h1. */
  function Fold(s: State): (s': State) {
    var h1 := Add(s.h1, s.h2);
    State(h1, Add(s.h2, h1))
  }

  function Finalize(s: State, length: uint64): (s': State) {
    var t := Fold(State(XorW(s.h1, length), XorW(s.h2, length)));
    Fold(State(Fmix(t.h1), Fmix(t.h2)))
  }

  function Hash3(key: seq<byte>, seed: uint64): (s: State)
    requires |key| < 0x1_0000_0000
  {
    var n := |key| / 16;
    Finalize(Tail(Body(key, seed, n), key[16 * n..]), |key|)
  }

  // ----- every step can be undone

  function Unmix1(m: uint64): (k: uint64) {
    Mul(InvRotL(Mul(m, C2_INVERSE), 31), C1_INVERSE)
  }

  function Unmix2(m: uint64): (k: uint64) {
    Mul(InvRotL(Mul(m, C1_INVERSE), 33), C2_INVERSE)
  }

  lemma Inverses()
    ensures (C1 * C1_INVERSE) % MODULUS == 1 && (C2 * C2_INVERSE) % MODULUS == 1
    ensures (5 * FIVE_INVERSE) % MODULUS == 1
    ensures (F1 * F1_INVERSE) % MODULUS == 1 && (F2 * F2_INVERSE) % MODULUS == 1
  {
  }

  lemma MixesCancel(x: uint64)
    ensures Unmix1(Mix1(x)) == x && Mix1(Unmix1(x)) == x
    ensures Unmix2(Mix2(x)) == x && Mix2(Unmix2(x)) == x
  {
    hide Mul, RotL, InvRotL;
    Inverses();
    var a, b := RotL(Mul(x, C1), 31), RotL(Mul(x, C2), 33);
    MulCancels(a, C2, C2_INVERSE);
    RotationsCancel(Mul(x, C1), 31);
    MulCancels(x, C1, C1_INVERSE);
    MulCancels(b, C1, C1_INVERSE);
    RotationsCancel(Mul(x, C2), 33);
    MulCancels(x, C2, C2_INVERSE);
    var c, d := InvRotL(Mul(x, C2_INVERSE), 31), InvRotL(Mul(x, C1_INVERSE), 33);
    MulCancels(c, C1_INVERSE, C1);
    RotationsCancel(Mul(x, C2_INVERSE), 31);
    MulCancels(x, C2_INVERSE, C2);
    MulCancels(d, C2_INVERSE, C2);
    RotationsCancel(Mul(x, C1_INVERSE), 33);
    MulCancels(x, C1_INVERSE, C1);
  }

  /** What was rotated, read off the new state: undoes `h * 5 + b`, the addition and the rotation. */
  function Unrotate(h: uint64, b: uint64, other: uint64, n: nat): (x: uint64)
    requires 0 < n < 64
  {
    InvRotL(Sub(Mul(Sub(h, b), FIVE_INVERSE), other), n)
  }

  lemma UnrotateCancels(x: uint64, b: uint64, other: uint64, n: nat)
    requires 0 < n < 64
    ensures Unrotate(Add(Mul(Add(RotL(x, n), other), 5), b), b, other, n) == x
    ensures Add(Mul(Add(RotL(Unrotate(x, b, other, n), n), other), 5), b) == x
  {
    hide Mul, RotL, InvRotL;
    Inverses();
    RotationsCancel(x, n);
    MulCancels(Add(RotL(x, n), other), 5, FIVE_INVERSE);
    MulCancels(Sub(x, b), FIVE_INVERSE, 5);
    RotationsCancel(Sub(Mul(Sub(x, b), FIVE_INVERSE), other), n);
  }

  /** A block step fixes the two xored words, given the old h2. */
  lemma BlockUndone(s: State, k1: uint64, k2: uint64)
    ensures var t := Block(s, k1, k2);
      && Unrotate(t.h1, B1, s.h2, 27) == XorW(s.h1, Mix1(k1))
      && Unrotate(t.h2, B2, t.h1, 31) == XorW(s.h2, Mix2(k2))
  {
    hide Mul, RotL, Unrotate, Mix1, Mix2, XorW;
    var t := Block(s, k1, k2);
    UnrotateCancels(XorW(s.h1, Mix1(k1)), B1, s.h2, 27);
    UnrotateCancels(XorW(s.h2, Mix2(k2)), B2, t.h1, 31);
  }

  /** A block step is a bijection of the state for a fixed block ... */
  lemma BlockInjectiveInState(s: State, s': State, k1: uint64, k2: uint64)
    requires Block(s, k1, k2) == Block(s', k1, k2)
    ensures s == s'
  {
    hide Block, Mix1, Mix2, Unrotate, Xor;
    BlockUndone(s, k1, k2);
    BlockUndone(s', k1, k2);
    XorInjective(s.h2, s'.h2, Mix2(k2));
    XorInjective(s.h1, s'.h1, Mix1(k1));
  }

  /** ... and of the block for a fixed state. */
  lemma BlockInjectiveInKey(s: State, k1: uint64, k2: uint64, j1: uint64, j2: uint64)
    requires Block(s, k1, k2) == Block(s, j1, j2)
    ensures k1 == j1 && k2 == j2
  {
    hide Block, Mix1, Mix2, Unrotate, Unmix1, Unmix2, Xor;
    BlockUndone(s, k1, k2);
    BlockUndone(s, j1, j2);
    XorInjectiveRight(s.h1, Mix1(k1), Mix1(j1));
    XorInjectiveRight(s.h2, Mix2(k2), Mix2(j2));
    MixesCancel(k1);
    MixesCancel(j1);
    MixesCancel(k2);
    MixesCancel(j2);
  }

  lemma FmixInjective(x: uint64, y: uint64)
    requires Fmix(x) == Fmix(y)
    ensures x == y
  {
    hide XorShift, Mul;
    Inverses();
    var x1, y1 := XorShift(x, 33), XorShift(y, 33);
    var x2, y2 := XorShift(Mul(x1, F1), 33), XorShift(Mul(y1, F1), 33);
    XorShiftInjective(Mul(x2, F2), Mul(y2, F2), 33);
    MulCancels(x2, F2, F2_INVERSE);
    MulCancels(y2, F2, F2_INVERSE);
    XorShiftInjective(Mul(x1, F1), Mul(y1, F1), 33);
    MulCancels(x1, F1, F1_INVERSE);
    MulCancels(y1, F1, F1_INVERSE);
    XorShiftInjective(x, y, 33);
  }

  lemma FinalizeInjective(s: State, s': State, length: uint64)
    requires Finalize(s, length) == Finalize(s', length)
    ensures s == s'
  {
    hide Fmix, Xor;
    var t := Fold(State(XorW(s.h1, length), XorW(s.h2, length)));
    var t' := Fold(State(XorW(s'.h1, length), XorW(s'.h2, length)));
    FmixInjective(t.h1, t'.h1);
    FmixInjective(t.h2, t'.h2);
    XorInjective(s.h1, s'.h1, length);
    XorInjective(s.h2, s'.h2, length);
  }

  // ----- keys that differ in one block

  /** Two keys of the same length that agree everywhere outside block `j`. */
  ghost predicate DifferOnlyInBlock(a: seq<byte>, b: seq<byte>, j: nat) {
    && |a| == |b| && 16 * j + 16 <= |a|
    && a[..16 * j] == b[..16 * j] && a[16 * j + 16..] == b[16 * j + 16..]
    && a != b
  }

  lemma BlockDiffers(a: seq<byte>, b: seq<byte>, j: nat)
    requires DifferOnlyInBlock(a, b, j)
    ensures Word(a, 16 * j) != Word(b, 16 * j) || Word(a, 16 * j + 8) != Word(b, 16 * j + 8)
  {
    hide FromLittleEndian;
    var o := 16 * j;
    assert a == a[..o] + a[o..o + 8] + a[o + 8..o + 16] + a[o + 16..];
    assert b == b[..o] + b[o..o + 8] + b[o + 8..o + 16] + b[o + 16..];
    if Word(a, o) == Word(b, o) && Word(a, o + 8) == Word(b, o + 8) {
      FromLittleEndianInjective(a[o..o + 8], b[o..o + 8]);
      FromLittleEndianInjective(a[o + 8..o + 16], b[o + 8..o + 16]);
    }
  }

  lemma SameWord(a: seq<byte>, b: seq<byte>, j: nat, o: nat)
    requires DifferOnlyInBlock(a, b, j) && o + 8 <= |a| && (o + 8 <= 16 * j || 16 * j + 16 <= o)
    ensures Word(a, o) == Word(b, o)
  {
    if o + 8 <= 16 * j {
      assert a[o..o + 8] == a[..16 * j][o..o + 8] && b[o..o + 8] == b[..16 * j][o..o + 8];
    } else {
      var p := 16 * j + 16;
      assert a[o..o + 8] == a[p..][o - p..o - p + 8] && b[o..o + 8] == b[p..][o - p..o - p + 8];
    }
  }

  lemma {:induction false} BodyDiffers(a: seq<byte>, b: seq<byte>, seed: uint64, j: nat, i: nat)
    requires DifferOnlyInBlock(a, b, j) && 16 * i <= |a|
    ensures Body(a, seed, i) == Body(b, seed, i) <==> i <= j
    decreases i
  {
    hide DifferOnlyInBlock, Word, Block;
    if i > 0 {
      BodyDiffers(a, b, seed, j, i - 1);
      var o := 16 * i - 16;
      assert |a| == |b| by { SameLength(a, b, j); }
      if i - 1 == j {
        BlockDiffers(a, b, j);
        if Body(a, seed, i) == Body(b, seed, i) {
          BlockInjectiveInKey(Body(a, seed, j), Word(a, o), Word(a, o + 8), Word(b, o), Word(b, o + 8));
        }
      } else {
        SameWord(a, b, j, o);
        SameWord(a, b, j, o + 8);
        if i > j && Body(a, seed, i) == Body(b, seed, i) {
          BlockInjectiveInState(Body(a, seed, i - 1), Body(b, seed, i - 1), Word(a, o), Word(a, o + 8));
        }
      }
    }
  }

  lemma SameLength(a: seq<byte>, b: seq<byte>, j: nat)
    requires DifferOnlyInBlock(a, b, j)
    ensures |a| == |b| && 16 * j + 16 <= |a|
  {
  }

  lemma TailInjective(s: State, s': State, t: seq<byte>)
    requires |t| < 16 && Tail(s, t) == Tail(s', t)
    ensures s == s'
  {
    hide Mix1, Mix2, TailWord, Xor;
    if |t| > 0 { XorInjective(s.h1, s'.h1, Mix1(TailWord(Tail1(t)))); }
    if |t| > 8 { XorInjective(s.h2, s'.h2, Mix2(TailWord(Tail2(t)))); }
  }

  /** Equal-length keys that differ only inside one aligned 16-byte block hash differently, for
      every length and seed. */
  lemma BlockSensitive(a: seq<byte>, b: seq<byte>, seed: uint64, j: nat)
    requires |a| < 0x1_0000_0000 && DifferOnlyInBlock(a, b, j)
    ensures |b| < 0x1_0000_0000 && Hash3(a, seed) != Hash3(b, seed)
  {
    hide Finalize, Tail, Body;
    var n := |a| / 16;
    BodyDiffers(a, b, seed, j, n);
    assert a[16 * n..] == b[16 * n..] by {
      assert a[16 * n..] == a[16 * j + 16..][16 * n - 16 * j - 16..];
      assert b[16 * n..] == b[16 * j + 16..][16 * n - 16 * j - 16..];
    }
    if Hash3(a, seed) == Hash3(b, seed) {
      FinalizeInjective(Tail(Body(a, seed, n), a[16 * n..]), Tail(Body(b, seed, n), b[16 * n..]), |a|);
      TailInjective(Body(a, seed, n), Body(b, seed, n), a[16 * n..]);
    }
  }

  // ----- keys that differ in the tail

  lemma TailsCollide(s: State, t: seq<byte>, u: seq<byte>)
    requires |t| == |u| < 16
    ensures Tail(s, t) == Tail(s, u) <==> Tail1(t) == Tail1(u) && Tail2(t) == Tail2(u)
  {
    hide Mix1, Mix2, FromLittleEndian, Xor, Unmix1, Unmix2;
    if Tail(s, t) == Tail(s, u) {
      if |t| > 0 {
        var x, y := TailWord(Tail1(t)), TailWord(Tail1(u));
        XorInjectiveRight(s.h1, Mix1(x), Mix1(y));
        MixesCancel(x);
        MixesCancel(y);
        FromLittleEndianInjective(Tail1(t), Tail1(u));
      }
      if |t| > 8 {
        var x, y := TailWord(Tail2(t)), TailWord(Tail2(u));
        XorInjectiveRight(s.h2, Mix2(x), Mix2(y));
        MixesCancel(x);
        MixesCancel(y);
        FromLittleEndianInjective(Tail2(t), Tail2(u));
      }
    }
  }

  lemma TailBytesRead(t: seq<byte>, u: seq<byte>)
    requires |t| == |u| < 16
    ensures var n := if |t| < 10 then |t| else 10;
      Tail1(t) == Tail1(u) && Tail2(t) == Tail2(u) <==> t[..n] == u[..n]
  {
    var n := if |t| < 10 then |t| else 10;
    if Tail1(t) == Tail1(u) && Tail2(t) == Tail2(u) {
      forall i | 0 <= i < n ensures t[i] == u[i] {
        if i < 8 { assert Tail1(t)[i] == Tail1(u)[i]; } else { assert Tail2(t)[i - 8] == Tail2(u)[i - 8]; }
      }
    }
    if t[..n] == u[..n] {
      forall i | 0 <= i < n ensures t[i] == u[i] { assert t[..n][i] == u[..n][i]; }
      assert Tail1(t) == Tail1(u);
      assert Tail2(t) == Tail2(u);
    }
  }

  /** Keys with the same body collide exactly when the first ten bytes of their tails agree: with
      11 to 15 tail bytes the rest is never read, with at most 10 nothing is lost. */
  lemma TailExact(a: seq<byte>, b: seq<byte>, seed: uint64)
    requires |a| == |b| < 0x1_0000_0000 && a[..16 * (|a| / 16)] == b[..16 * (|a| / 16)]
    ensures var t, u := a[16 * (|a| / 16)..], b[16 * (|a| / 16)..];
      var n := if |t| < 10 then |t| else 10;
      Hash3(a, seed) == Hash3(b, seed) <==> t[..n] == u[..n]
  {
    hide Finalize, Tail, Body, Tail1, Tail2;
    var n := |a| / 16;
    SameBody(a, b, seed, n);
    var s, t, u := Body(a, seed, n), a[16 * n..], b[16 * n..];
    if Hash3(a, seed) == Hash3(b, seed) { FinalizeInjective(Tail(s, t), Tail(s, u), |a|); }
    TailsCollide(s, t, u);
    TailBytesRead(t, u);
  }

  lemma {:induction false} SameBody(a: seq<byte>, b: seq<byte>, seed: uint64, i: nat)
    requires 16 * i <= |a| && 16 * i <= |b| && a[..16 * i] == b[..16 * i]
    ensures Body(a, seed, i) == Body(b, seed, i)
    decreases i
  {
    hide Block, FromLittleEndian;
    if i > 0 {
      var o := 16 * i - 16;
      assert a[..o] == a[..16 * i][..o] && b[..o] == b[..16 * i][..o];
      SameBody(a, b, seed, i - 1);
      assert a[o..o + 8] == a[..16 * i][o..o + 8] && b[o..o + 8] == b[..16 * i][o..o + 8];
      assert a[o + 8..o + 16] == a[..16 * i][o + 8..o + 16] && b[o + 8..o + 16] == b[..16 * i][o + 8..o + 16];
    }
  }

  // ----- the block step and the seed

  lemma {:induction false} XorSelf(x: nat)
    ensures Xor(x, x) == 0
  {
    if x > 0 { XorSelf(x / 2); }
  }

  lemma {:induction false} ShiftedZero(n: nat)
    ensures Shl(0, n) == 0 && Shr(0, n) == 0
  {
    if n > 0 { ShiftedZero(n - 1); }
  }

  lemma RotatedZero(n: nat)
    requires 0 < n < 64
    ensures RotL(0, n) == 0
  {
    hide Shl, Shr;
    ShiftedZero(n);
    ShiftedZero(64 - n);
    assert Or(0, 0) == 0;
  }

  /** What a block step adds: where both key words cancel the state, five times the other half and the
      constant of each half remain. */
  lemma BlockConstants(s: State, k1: uint64, k2: uint64)
    requires Mix1(k1) == s.h1 && Mix2(k2) == s.h2
    ensures var t := Block(s, k1, k2);
      && t.h1 == (5 * s.h2 + 0x52dc_e729) % 0x1_0000_0000_0000_0000
      && t.h2 == (5 * t.h1 + 0x3849_5ab5) % 0x1_0000_0000_0000_0000
  {
    hide Mix1, Mix2, RotL, Xor, Mul;
    XorSelf(s.h1);
    XorSelf(s.h2);
    RotatedZero(27);
    RotatedZero(31);
    TimesFive(s.h2, B1);
    TimesFive(Block(s, k1, k2).h1, B2);
  }

  lemma TimesFive(x: uint64, b: uint64)
    requires b < 0x1_0000_0000
    ensures Add(Mul(x, 5), b) == (5 * x + b) % 0x1_0000_0000_0000_0000
  {
    var p := (x * 5) % MODULUS;
    assert (p + b) % MODULUS == (5 * x + b) % MODULUS;
  }

  lemma {:induction false} BodyOfSeed(key: seq<byte>, s: uint64, s': uint64, i: nat)
    requires 16 * i <= |key| && Body(key, s, i) == Body(key, s', i)
    ensures s == s'
    decreases i
  {
    hide Block, Word;
    if i > 0 {
      BlockInjectiveInState(Body(key, s, i - 1), Body(key, s', i - 1), Word(key, 16 * i - 16), Word(key, 16 * i - 8));
      BodyOfSeed(key, s, s', i - 1);
    }
  }

  /** All 64 bits of the seed count, for every key. */
  lemma SeedExact(key: seq<byte>, s: uint64, s': uint64)
    requires |key| < 0x1_0000_0000
    ensures Hash3(key, s) == Hash3(key, s') <==> s == s'
  {
    hide Tail, Finalize, Body;
    if Hash3(key, s) == Hash3(key, s') {
      var n := |key| / 16;
      FinalizeInjective(Tail(Body(key, s, n), key[16 * n..]), Tail(Body(key, s', n), key[16 * n..]), |key|);
      TailInjective(Body(key, s, n), Body(key, s', n), key[16 * n..]);
      BodyOfSeed(key, s, s', n);
    }
  }
}
