/** lib/dht/murmur_hash.cc: the 64-bit and 32-bit MurmurHash2, and what they never confuse. */
module Murmur2 {
  import opened Bytes
  import opened Words
  import opened ByteWords

  const M64: uint64 := 0xc6a4_a793_5bd1_e995
  const M64_INVERSE: uint64 := 0x5f7a_0ea7_e59b_19bd
  const M32: uint32 := 0x5bd1_e995
  const M32_INVERSE: uint32 := 0xe59b_19bd
  const MODULUS32: nat := 0x1_0000_0000

  /** The two widths: modulus, multiplier, block size and shifts. */
  datatype Width = W64 | W32

  function Modulus(w: Width): (m: nat)
    ensures m == MODULUS || m == MODULUS32
  {
    if w.W64? then MODULUS else MODULUS32
  }

  function Multiplier(w: Width): (m: nat) {
    if w.W64? then M64 else M32
  }

  function Inverse(w: Width): (m: nat) {
    if w.W64? then M64_INVERSE else M32_INVERSE
  }

  function Size(w: Width): (n: nat) {
    if w.W64? then 8 else 4
  }

  /** Where block i starts, and how many whole blocks n bytes hold. */
  function At(w: Width, i: nat): (o: nat) {
    if w.W64? then 8 * i else 4 * i
  }

  function Count(w: Width, n: nat): (i: nat) {
    if w.W64? then n / 8 else n / 4
  }

  function Times(w: Width, x: nat): (r: nat)
    ensures r < Modulus(w)
  {
    MulMod(x, Multiplier(w), Modulus(w))
  }

  /** x ^= x >> shift within the width. */
  function Smear(w: Width, x: nat, shift: nat): (r: nat)
    requires x < Modulus(w)
    ensures r < Modulus(w)
  {
    SmearBound(w, x, shift);
    XorShift(x, shift)
  }

  lemma SmearBound(w: Width, x: nat, shift: nat)
    requires x < Modulus(w)
    ensures XorShift(x, shift) < Modulus(w)
  {
    XorBound(w, x, Shr(x, shift));
  }

  lemma XorBound(w: Width, x: nat, y: nat)
    requires x < Modulus(w) && y < Modulus(w)
    ensures Xor(x, y) < Modulus(w)
  {
    Pow2Values();
    Bounded(x, y, if w.W64? then 64 else 32);
  }

  // ----- the hashes

  /** The mixing of one key word. */
  function MixWord(w: Width, k: nat): (r: nat)
    requires k < Modulus(w)
    ensures r < Modulus(w)
  {
    Times(w, Smear(w, Times(w, k), if w.W64? then 47 else 24))
  }

  /** hash2_x64 xors the word in and multiplies; hash2_x32 multiplies and xors the word in. */
  function Step(w: Width, h: nat, k: nat): (r: nat)
    requires h < Modulus(w) && k < Modulus(w)
    ensures r < Modulus(w)
  {
    var m := MixWord(w, k);
    if w.W64? then Times(w, Xor(h, m)) else XorBound(w, Times(w, h), m); Xor(Times(w, h), m)
  }

  lemma WordBound(w: Width, b: seq<byte>)
    requires |b| <= Size(w)
    ensures FromLittleEndian(b) < Modulus(w)
  {
    Pow256Values();
    Pow256Monotone(|b|, Size(w));
  }

  function KeyWord(w: Width, key: seq<byte>, i: nat): (k: nat)
    requires At(w, i) + Size(w) <= |key|
    ensures k < Modulus(w)
  {
    var b := key[At(w, i)..At(w, i) + Size(w)];
    WordBound(w, b);
    FromLittleEndian(b)
  }

  function Body(w: Width, key: seq<byte>, h: nat, i: nat): (r: nat)
    requires h < Modulus(w) && At(w, i) <= |key|
    ensures r < Modulus(w)
    decreases i
  {
    if i == 0 then h else Step(w, Body(w, key, h, i - 1), KeyWord(w, key, i - 1))
  }

  /** The tail bytes as xored in: lowest first in hash2_x64, last first in hash2_x32. */
  function TailBytes(w: Width, t: seq<byte>): (b: seq<byte>)
    ensures |b| == |t|
  {
    if w.W64? then t else Reversed(t)
  }

  function Tail(w: Width, h: nat, t: seq<byte>): (r: nat)
    requires h < Modulus(w) && |t| < Size(w)
    ensures r < Modulus(w)
  {
    if t == [] then h
    else
      WordBound(w, TailBytes(w, t));
      XorBound(w, h, FromLittleEndian(TailBytes(w, t)));
      Times(w, Xor(h, FromLittleEndian(TailBytes(w, t))))
  }

  function Finish(w: Width, h: nat): (r: nat)
    requires h < Modulus(w)
    ensures r < Modulus(w)
  {
    Smear(w, Times(w, Smear(w, h, if w.W64? then 47 else 13)), if w.W64? then 47 else 15)
  }

  /** hash2_x64 keeps the low 32 bits of its seed and folds the length in times m. */
  function Start(w: Width, length: uint32, seed: uint64): (h: nat)
    ensures h < Modulus(w)
  {
    var x, y := seed % MODULUS32, if w.W64? then Times(w, length) else length;
    XorBound(w, x, y);
    Xor(x, y)
  }

  function Hash2(w: Width, key: seq<byte>, seed: uint64): (h: nat)
    requires |key| < MODULUS32
    ensures h < Modulus(w)
  {
    var n := Count(w, |key|);
    Finish(w, Tail(w, Body(w, key, Start(w, |key|, seed), n), key[At(w, n)..]))
  }

  // ----- every step can be undone

  lemma InverseOf(w: Width)
    ensures (Multiplier(w) * Inverse(w)) % Modulus(w) == 1
  {
    assert (M64 * M64_INVERSE) % MODULUS == 1;
    assert (M32 * M32_INVERSE) % MODULUS32 == 1;
  }

  lemma TimesInjective(w: Width, x: nat, y: nat)
    requires x < Modulus(w) && y < Modulus(w) && Times(w, x) == Times(w, y)
    ensures x == y
  {
    InverseOf(w);
    hide MulMod, Multiplier, Inverse, Modulus;
    MulModCancels(x, Multiplier(w), Inverse(w), Modulus(w));
    MulModCancels(y, Multiplier(w), Inverse(w), Modulus(w));
  }

  lemma SmearInjective(w: Width, x: nat, y: nat, shift: nat)
    requires x < Modulus(w) && y < Modulus(w) && shift > 0 && Smear(w, x, shift) == Smear(w, y, shift)
    ensures x == y
  {
    XorShiftInjective(x, y, shift);
  }

  lemma MixWordInjective(w: Width, x: nat, y: nat)
    requires x < Modulus(w) && y < Modulus(w) && MixWord(w, x) == MixWord(w, y)
    ensures x == y
  {
    hide Times, Smear;
    var shift := if w.W64? then 47 else 24;
    TimesInjective(w, Smear(w, Times(w, x), shift), Smear(w, Times(w, y), shift));
    SmearInjective(w, Times(w, x), Times(w, y), shift);
    TimesInjective(w, x, y);
  }

  /** A step is injective in the state for a fixed word and in the word for a fixed state. */
  lemma StepInjective(w: Width, h: nat, h': nat, k: nat, k': nat)
    requires h < Modulus(w) && h' < Modulus(w) && k < Modulus(w) && k' < Modulus(w)
    requires Step(w, h, k) == Step(w, h', k') && (h == h' || k == k')
    ensures h == h' && k == k'
  {
    hide Times, MixWord, Xor;
    var m, m' := MixWord(w, k), MixWord(w, k');
    if w.W64? {
      XorBound(w, h, m);
      XorBound(w, h', m');
      TimesInjective(w, Xor(h, m), Xor(h', m'));
      if h == h' {
        XorInjectiveRight(h, m, m');
        MixWordInjective(w, k, k');
      } else {
        XorInjective(h, h', m);
      }
    } else if h == h' {
      XorInjectiveRight(Times(w, h), m, m');
      MixWordInjective(w, k, k');
    } else {
      XorInjective(Times(w, h), Times(w, h'), m);
      TimesInjective(w, h, h');
    }
  }

  lemma FinishInjective(w: Width, x: nat, y: nat)
    requires x < Modulus(w) && y < Modulus(w) && Finish(w, x) == Finish(w, y)
    ensures x == y
  {
    hide Times, Smear;
    var a, b := if w.W64? then 47 else 13, if w.W64? then 47 else 15;
    SmearInjective(w, Times(w, Smear(w, x, a)), Times(w, Smear(w, y, a)), b);
    TimesInjective(w, Smear(w, x, a), Smear(w, y, a));
    SmearInjective(w, x, y, a);
  }

  lemma TailBytesInjective(w: Width, t: seq<byte>, u: seq<byte>)
    requires |t| == |u| && TailBytes(w, t) == TailBytes(w, u)
    ensures t == u
  {
    if w.W32? {
      forall i | 0 <= i < |t| ensures t[i] == u[i] {
        assert Reversed(t)[|t| - 1 - i] == Reversed(u)[|t| - 1 - i];
      }
    }
  }

  lemma TailInjective(w: Width, h: nat, h': nat, t: seq<byte>, u: seq<byte>)
    requires h < Modulus(w) && h' < Modulus(w) && |t| == |u| < Size(w)
    requires Tail(w, h, t) == Tail(w, h', u) && (h == h' || t == u)
    ensures h == h' && t == u
  {
    hide Times, Xor, FromLittleEndian, TailBytes;
    if t != [] {
      var x, y := FromLittleEndian(TailBytes(w, t)), FromLittleEndian(TailBytes(w, u));
      WordBound(w, TailBytes(w, t));
      WordBound(w, TailBytes(w, u));
      XorBound(w, h, x);
      XorBound(w, h', y);
      TimesInjective(w, Xor(h, x), Xor(h', y));
      if h == h' {
        XorInjectiveRight(h, x, y);
        FromLittleEndianInjective(TailBytes(w, t), TailBytes(w, u));
        TailBytesInjective(w, t, u);
      } else {
        XorInjective(h, h', x);
      }
    }
  }

  // ----- keys that differ in one place

  /** Equal-length keys that agree outside the bytes lo .. hi. */
  ghost predicate DifferWithin(a: seq<byte>, b: seq<byte>, lo: nat, hi: nat) {
    && |a| == |b| && lo <= hi <= |a|
    && a[..lo] == b[..lo] && a[hi..] == b[hi..]
    && a != b
  }

  lemma OutsideSame(a: seq<byte>, b: seq<byte>, lo: nat, hi: nat, p: nat, q: nat)
    requires DifferWithin(a, b, lo, hi) && p <= q <= |a| && (q <= lo || hi <= p)
    ensures a[p..q] == b[p..q]
  {
    forall i | p <= i < q ensures a[i] == b[i] {
      if q <= lo {
        assert a[..lo][i] == b[..lo][i];
      } else {
        assert a[hi..][i - hi] == b[hi..][i - hi];
      }
    }
  }

  lemma InsideDiffers(a: seq<byte>, b: seq<byte>, lo: nat, hi: nat)
    requires DifferWithin(a, b, lo, hi)
    ensures a[lo..hi] != b[lo..hi]
  {
    assert a == a[..lo] + a[lo..hi] + a[hi..] && b == b[..lo] + b[lo..hi] + b[hi..];
  }

  lemma {:induction false} BodyDiffers(w: Width, a: seq<byte>, b: seq<byte>, h: nat, j: nat, i: nat)
    requires DifferWithin(a, b, At(w, j), At(w, j) + Size(w)) && h < Modulus(w) && At(w, i) <= |a|
    ensures Body(w, a, h, i) == Body(w, b, h, i) <==> i <= j
    decreases i
  {
    hide DifferWithin, Step, FromLittleEndian, KeyWord;
    assert |a| == |b| by { SameLength(a, b, At(w, j), At(w, j) + Size(w)); }
    if i > 0 {
      BodyDiffers(w, a, b, h, j, i - 1);
      KeyWordsDiffer(w, a, b, j, i - 1);
      var s, t, k, l := Body(w, a, h, i - 1), Body(w, b, h, i - 1), KeyWord(w, a, i - 1), KeyWord(w, b, i - 1);
      if Step(w, s, k) == Step(w, t, l) { StepInjective(w, s, t, k, l); }
    }
  }

  lemma KeyWordsDiffer(w: Width, a: seq<byte>, b: seq<byte>, j: nat, i: nat)
    requires DifferWithin(a, b, At(w, j), At(w, j) + Size(w)) && At(w, i + 1) <= |a|
    ensures |a| == |b| && (KeyWord(w, a, i) == KeyWord(w, b, i) <==> i != j)
  {
    hide DifferWithin, FromLittleEndian;
    var lo, hi := At(w, j), At(w, j) + Size(w);
    var p, q := At(w, i), At(w, i) + Size(w);
    SameLength(a, b, lo, hi);
    if i == j {
      InsideDiffers(a, b, lo, hi);
      if KeyWord(w, a, i) == KeyWord(w, b, i) { FromLittleEndianInjective(a[p..q], b[p..q]); }
    } else {
      OutsideSame(a, b, lo, hi, p, q);
    }
  }

  lemma SameLength(a: seq<byte>, b: seq<byte>, lo: nat, hi: nat)
    requires DifferWithin(a, b, lo, hi)
    ensures |a| == |b|
  {
  }

  /** Equal-length keys that differ only inside one aligned word hash differently. */
  lemma WordSensitive(w: Width, a: seq<byte>, b: seq<byte>, seed: uint64, j: nat)
    requires |a| < MODULUS32 && DifferWithin(a, b, At(w, j), At(w, j) + Size(w))
    ensures |b| < MODULUS32 && Hash2(w, a, seed) != Hash2(w, b, seed)
  {
    hide Body, Tail, Finish;
    var n, h := Count(w, |a|), Start(w, |a|, seed);
    BodyDiffers(w, a, b, h, j, n);
    OutsideSame(a, b, At(w, j), At(w, j) + Size(w), At(w, n), |a|);
    var t, u := a[At(w, n)..], b[At(w, n)..];
    assert t == u;
    var x, y := Body(w, a, h, n), Body(w, b, h, n);
    if Hash2(w, a, seed) == Hash2(w, b, seed) {
      FinishInjective(w, Tail(w, x, t), Tail(w, y, u));
      TailInjective(w, x, y, t, u);
    }
  }

  lemma {:induction false} SameBody(w: Width, a: seq<byte>, b: seq<byte>, h: nat, i: nat)
    requires h < Modulus(w) && At(w, i) <= |a| == |b| && a[..At(w, i)] == b[..At(w, i)]
    ensures Body(w, a, h, i) == Body(w, b, h, i)
    decreases i
  {
    hide Step, FromLittleEndian;
    if i > 0 {
      var p, q := At(w, i - 1), At(w, i - 1) + Size(w);
      assert q == At(w, i);
      assert a[..p] == a[..q][..p] && b[..p] == b[..q][..p];
      SameBody(w, a, b, h, i - 1);
      assert a[p..q] == a[..q][p..q] && b[p..q] == b[..q][p..q];
    }
  }

  /** Equal-length keys that differ only in the tail hash differently. */
  lemma TailSensitive(w: Width, a: seq<byte>, b: seq<byte>, seed: uint64)
    requires |a| < MODULUS32 && DifferWithin(a, b, At(w, Count(w, |a|)), |a|)
    ensures |b| < MODULUS32 && Hash2(w, a, seed) != Hash2(w, b, seed)
  {
    hide Body, Tail, Finish;
    var n, h := Count(w, |a|), Start(w, |a|, seed);
    SameBody(w, a, b, h, n);
    InsideDiffers(a, b, At(w, n), |a|);
    var t, u, s := a[At(w, n)..], b[At(w, n)..], Body(w, a, h, n);
    if Hash2(w, a, seed) == Hash2(w, b, seed) {
      FinishInjective(w, Tail(w, s, t), Tail(w, s, u));
      TailInjective(w, s, s, t, u);
    }
  }

  /** On keys of one length up to the word size the hash is injective. */
  lemma ShortKeysInjective(w: Width, a: seq<byte>, b: seq<byte>, seed: uint64)
    requires |a| == |b| <= Size(w) && Hash2(w, a, seed) == Hash2(w, b, seed)
    ensures a == b
  {
    hide Hash2;
    if a != b {
      assert a[..0] == b[..0] && a[|a|..] == b[|a|..];
      if |a| == Size(w) { WordSensitive(w, a, b, seed, 0); } else { TailSensitive(w, a, b, seed); }
    }
  }

  // ----- the loops

  lemma SliceWord(w: Width, key: seq<byte>, o: nat, n: nat, i: nat)
    requires o + n <= |key| && At(w, i) + Size(w) <= n
    ensures KeyWord(w, key[o..o + n], i) == FromLittleEndian(key[o + At(w, i)..o + At(w, i) + Size(w)])
  {
    hide FromLittleEndian;
    var a, b := At(w, i), At(w, i) + Size(w);
    var x, y := key[o..o + n][a..b], key[o + a..o + b];
    assert |x| == |y|;
    forall j | 0 <= j < b - a ensures x[j] == y[j] {
      assert key[o..o + n][a + j] == key[o + (a + j)];
    }
    assert x == y;
  }

  /** hash2_x64 and hash2_x32 over `length` bytes from `offset`. */
  method HashKey(w: Width, key: seq<byte>, offset: nat, length: nat, seed: uint64) returns (h: nat)
    requires offset + length <= |key| < MODULUS32
    ensures h == Hash2(w, key[offset..offset + length], seed)
  {
    hide Step, Finish, Start, FromLittleEndian, Tail;
    ghost var k := key[offset..offset + length];
    var n := Count(w, length);
    h := Start(w, length, seed);
    for i := 0 to n
      invariant h == Body(w, k, Start(w, length, seed), i)
    {
      SliceWord(w, key, offset, length, i);
      var o := offset + At(w, i);
      h := Step(w, h, FromLittleEndian(key[o..o + Size(w)]));
    }
    var tail := key[offset + At(w, n)..offset + length];
    assert tail == k[At(w, n)..];
    h := HashTail(w, h, tail);
    h := Finish(w, h);
  }

  method HashTail(w: Width, h: nat, t: seq<byte>) returns (r: nat)
    requires h < Modulus(w) && |t| < Size(w)
    ensures r == Tail(w, h, t)
  {
    hide Xor, FromLittleEndian;
    if t == [] {
      return h;
    }
    r := XorBytes(h, TailBytes(w, t));
    r := Times(w, r);
  }

  // ----- the seed and the tail bytes

  lemma {:induction false} BodyOfStart(w: Width, key: seq<byte>, h: nat, h': nat, i: nat)
    requires h < Modulus(w) && h' < Modulus(w) && At(w, i) <= |key| && Body(w, key, h, i) == Body(w, key, h', i)
    ensures h == h'
    decreases i
  {
    hide Step, KeyWord;
    if i > 0 {
      var k := KeyWord(w, key, i - 1);
      StepInjective(w, Body(w, key, h, i - 1), Body(w, key, h', i - 1), k, k);
      BodyOfStart(w, key, h, h', i - 1);
    }
  }

  lemma StartOfSeed(w: Width, length: uint32, s: uint64, s': uint64)
    ensures Start(w, length, s) == Start(w, length, s') <==> s % 0x1_0000_0000 == s' % 0x1_0000_0000
  {
    hide Xor, Times;
    if Start(w, length, s) == Start(w, length, s') {
      XorInjective(s % MODULUS32, s' % MODULUS32, if w.W64? then Times(w, length) else length);
    }
  }

  /** Exactly the low 32 bits of the seed count, for every key. */
  lemma SeedExact(w: Width, key: seq<byte>, s: uint64, s': uint64)
    requires |key| < MODULUS32
    ensures Hash2(w, key, s) == Hash2(w, key, s') <==> s % 0x1_0000_0000 == s' % 0x1_0000_0000
  {
    hide Start, Body, Tail, Finish;
    var n, h, h' := Count(w, |key|), Start(w, |key|, s), Start(w, |key|, s');
    StartOfSeed(w, |key|, s, s');
    if Hash2(w, key, s) == Hash2(w, key, s') {
      var t := key[At(w, n)..];
      FinishInjective(w, Tail(w, Body(w, key, h, n), t), Tail(w, Body(w, key, h', n), t));
      TailInjective(w, Body(w, key, h, n), Body(w, key, h', n), t, t);
      BodyOfStart(w, key, h, h', n);
    }
  }

  /** The tail of hash2_x64 is a number with its first byte lowest, that of hash2_x32 with its first byte
      highest; both are multiplied in. */
  lemma TailMeaning(a: byte, b: byte, c: byte)
    ensures Tail(W64, 0, [a, b, c]) == ((a + 256 * b + 65536 * c) * 0xc6a4_a793_5bd1_e995) % 0x1_0000_0000_0000_0000
    ensures Tail(W32, 0, [a, b, c]) == ((65536 * a + 256 * b + c) * 0x5bd1_e995) % 0x1_0000_0000
    ensures Tail(W32, 0, [a, b]) == ((256 * a + b) * 0x5bd1_e995) % 0x1_0000_0000
    ensures Tail(W32, 0, [a]) == (a * 0x5bd1_e995) % 0x1_0000_0000
  {
    TailBytesMeaning(a, b, c);
    LowNumbers(a, b, c);
    LowNumbers(c, b, a);
    LowNumbers(b, a, 0);
    hide FromLittleEndian, TailBytes, Tail;
    TailIsProduct(W64, [a, b, c]);
    TailIsProduct(W32, [a, b, c]);
    TailIsProduct(W32, [a, b]);
    TailIsProduct(W32, [a]);
  }

  lemma TailIsProduct(w: Width, t: seq<byte>)
    requires 0 < |t| < Size(w)
    ensures Tail(w, 0, t) == (FromLittleEndian(TailBytes(w, t)) * Multiplier(w)) % Modulus(w)
  {
    hide Xor, FromLittleEndian, TailBytes;
    XorZero(FromLittleEndian(TailBytes(w, t)));
  }

  lemma TailBytesMeaning(a: byte, b: byte, c: byte)
    ensures TailBytes(W64, [a, b, c]) == [a, b, c] && TailBytes(W32, [a, b, c]) == [c, b, a]
    ensures TailBytes(W32, [a, b]) == [b, a] && TailBytes(W32, [a]) == [a]
  {
  }

  lemma LowNumbers(a: byte, b: byte, c: byte)
    ensures FromLittleEndian([a]) == a && FromLittleEndian([a, b]) == a + 256 * b
    ensures FromLittleEndian([a, b, c]) == a + 256 * b + 65536 * c
  {
    assert [a][1..] == [] && [a, b][1..] == [b] && [b][1..] == [];
    assert [a, b, c][1..] == [b, c] && [b, c][1..] == [c] && [c][1..] == [];
    assert FromLittleEndian([c]) == c && FromLittleEndian([b, c]) == b + 256 * c;
  }
}
