/** The loops of hash3_x64_128, and inv_hash3_x64_128 as its inverse on 16-byte keys. */
module Murmur3Inverse {
  import opened Bytes
  import opened Words
  import opened ByteWords
  import opened Murmur3

  // ----- the hash as the code runs it

  lemma SliceOfSlice(key: seq<byte>, o: nat, n: nat, a: nat, b: nat)
    requires o + n <= |key| && a <= b <= n
    ensures key[o..o + n][a..b] == key[o + a..o + b]
  {
    var x, y := key[o..o + n][a..b], key[o + a..o + b];
    assert |x| == |y| && forall i | 0 <= i < b - a :: x[i] == key[o + a + i] && y[i] == key[o + a + i];
  }

  lemma BodyOfSlice(key: seq<byte>, o: nat, n: nat, i: nat)
    requires o + n <= |key| && 16 * i + 16 <= n
    ensures Word(key[o..o + n], 16 * i) == Word(key, o + 16 * i)
    ensures Word(key[o..o + n], 16 * i + 8) == Word(key, o + 16 * i + 8)
  {
    hide FromLittleEndian;
    SliceOfSlice(key, o, n, 16 * i, 16 * i + 8);
    SliceOfSlice(key, o, n, 16 * i + 8, 16 * i + 16);
  }

  /** hash3_x64_128: blocks, tail and finalization over `length` bytes from `offset`. */
  method HashKey(key: seq<byte>, offset: nat, length: nat, seed: uint64) returns (s: State)
    requires offset + length <= |key| < 0x1_0000_0000
    ensures s == Hash3(key[offset..offset + length], seed)
  {
    hide Block, Word, Finalize, Tail;
    ghost var k := key[offset..offset + length];
    var nblocks := length / 16;
    s := State(seed, seed);
    for i := 0 to nblocks
      invariant s == Body(k, seed, i)
    {
      BodyOfSlice(key, offset, length, i);
      var k1 := Word(key, offset + 16 * i);
      var k2 := Word(key, offset + 16 * i + 8);
      s := Block(s, k1, k2);
    }
    var tail := key[offset + 16 * nblocks..offset + length];
    assert tail == k[16 * nblocks..];
    s := HashTail(s, tail);
    s := Finalize(s, length);
  }

  method HashTail(s: State, t: seq<byte>) returns (r: State)
    requires |t| < 16
    ensures r == Tail(s, t)
  {
    hide Mix1, Mix2, Xor, FromLittleEndian;
    r := s;
    if |t| > 8 {
      var k2 := XorBytes(0, Tail2(t));
      XorZero(FromLittleEndian(Tail2(t)));
      r := r.(h2 := XorW(r.h2, Mix2(k2)));
    }
    if |t| > 0 {
      var k1 := XorBytes(0, Tail1(t));
      XorZero(FromLittleEndian(Tail1(t)));
      r := r.(h1 := XorW(r.h1, Mix1(k1)));
    }
  }

  // ----- the inverse

  method InvFmix(k: uint64) returns (r: uint64)
    ensures Fmix(r) == k
  {
    hide XorShift, Mul;
    Inverses();
    var a := InvRshiftXor(k, 33);
    MulCancels(a, F2_INVERSE, F2);
    var b := InvRshiftXor(Mul(a, F2_INVERSE), 33);
    MulCancels(b, F1_INVERSE, F1);
    r := InvRshiftXor(Mul(b, F1_INVERSE), 33);
  }

  /** The hash of a 16-byte key given by its two words. */
  function Hash16(w1: uint64, w2: uint64): (s: State) {
    Finalize(Block(State(0, 0), w1, w2), 16)
  }

  lemma Hash16IsHash3(key: seq<byte>)
    requires |key| == 16
    ensures Hash3(key, 0) == Hash16(Word(key, 0), Word(key, 8))
  {
    hide Block, Finalize, Word;
    assert key[16..] == [];
    assert Body(key, 0, 0) == State(0, 0);
    assert Body(key, 0, 1) == Block(State(0, 0), Word(key, 0), Word(key, 8));
    assert Tail(Body(key, 0, 1), key[16..]) == Body(key, 0, 1);
  }

  lemma Hash16Injective(w1: uint64, w2: uint64, v1: uint64, v2: uint64)
    requires Hash16(w1, w2) == Hash16(v1, v2)
    ensures w1 == v1 && w2 == v2
  {
    hide Block, Finalize;
    FinalizeInjective(Block(State(0, 0), w1, w2), Block(State(0, 0), v1, v2), 16);
    BlockInjectiveInKey(State(0, 0), w1, w2, v1, v2);
  }

  /** The 16 bytes whose words, in big-endian order, are k1 and k2. */
  function KeyOf(k1: uint64, k2: uint64): (key: seq<byte>)
    ensures |key| == 16
  {
    LittleEndian(ReverseBytes(k1), 8) + LittleEndian(ReverseBytes(k2), 8)
  }

  lemma KeyOfWords(k1: uint64, k2: uint64)
    ensures Word(KeyOf(k1, k2), 0) == ReverseBytes(k1) && Word(KeyOf(k1, k2), 8) == ReverseBytes(k2)
  {
    hide LittleEndian, FromLittleEndian, ReverseBytes;
    Pow256Values();
    LittleEndianRoundTrip(ReverseBytes(k1), 8);
    LittleEndianRoundTrip(ReverseBytes(k2), 8);
    var key := KeyOf(k1, k2);
    assert key[0..8] == LittleEndian(ReverseBytes(k1), 8);
    assert key[8..16] == LittleEndian(ReverseBytes(k2), 8);
  }

  /** A block step from the zero state, rebuilt from what the code reads off its result. */
  lemma Rebuilt(t: State, k1: uint64, k2: uint64)
    requires k1 == Unmix1(Unrotate(t.h1, B1, 0, 27)) && k2 == Unmix2(Unrotate(t.h2, B2, t.h1, 31))
    ensures Block(State(0, 0), k1, k2) == t
  {
    hide Mul, RotL, Unrotate, Mix1, Mix2, Unmix1, Unmix2, Xor;
    var x, y := Unrotate(t.h1, B1, 0, 27), Unrotate(t.h2, B2, t.h1, 31);
    MixesCancel(x);
    MixesCancel(y);
    XorZero(x);
    XorZero(y);
    UnrotateCancels(t.h1, B1, 0, 27);
    UnrotateCancels(t.h2, B2, t.h1, 31);
  }

  /** h2 -= h1; h1 -= h2. */
  function Unfold(s: State): (s': State) {
    var h2 := Sub(s.h2, s.h1);
    State(Sub(s.h1, h2), h2)
  }

  lemma FoldUnfold(s: State)
    ensures Fold(Unfold(s)) == s && Unfold(Fold(s)) == s
  {
  }

  lemma UnfinalizedIs(r: State, s: State, t: State, f: State, length: uint64)
    requires f == Unfold(r) && Fmix(t.h1) == f.h1 && Fmix(t.h2) == f.h2
    requires s == State(XorW(Unfold(t).h1, length), XorW(Unfold(t).h2, length))
    ensures Finalize(s, length) == r
  {
    hide Fmix, Xor, Fold, Unfold;
    FoldUnfold(r);
    FoldUnfold(t);
    XorCancels(Unfold(t).h1, length);
    XorCancels(Unfold(t).h2, length);
  }

  /** Undoing the finalization for a message of 16 bytes. */
  method Unfinalize(r: State) returns (s: State)
    ensures Finalize(s, 16) == r
  {
    hide Fmix, Xor, Finalize;
    var f := Unfold(r);
    var h1 := InvFmix(f.h1);
    var h2 := InvFmix(f.h2);
    var t := Unfold(State(h1, h2));
    s := State(XorW(t.h1, 16), XorW(t.h2, 16));
    UnfinalizedIs(r, s, State(h1, h2), f, 16);
  }

  /** inv_hash3_x64_128: for every 128-bit result there is a 16-byte key with that hash (seed 0), the
      code finds it, and the two words it returns are that key's in big-endian order. */
  method InvHash(r: State) returns (k1: uint64, k2: uint64)
    ensures Hash3(KeyOf(k1, k2), 0) == r
    ensures forall key: seq<byte> | |key| == 16 && Hash3(key, 0) == r ::
      k1 == BigEndian(key[..8]) && k2 == BigEndian(key[8..])
  {
    hide Finalize, Block, Unrotate, Unmix1, Unmix2, ReverseBytes, Word, Hash3, KeyOf;
    var s := Unfinalize(r);
    var w2 := Unmix2(Unrotate(s.h2, 0x3849_5ab5, s.h1, 31));
    var w1 := Unmix1(Unrotate(s.h1, 0x52dc_e729, 0, 27));
    Rebuilt(s, w1, w2);
    k1, k2 := ReverseBytes(w1), ReverseBytes(w2);
    ReverseTwice(w1);
    ReverseTwice(w2);
    KeyOfWords(k1, k2);
    Hash16IsHash3(KeyOf(k1, k2));
    forall key: seq<byte> | |key| == 16 && Hash3(key, 0) == r
      ensures k1 == BigEndian(key[..8]) && k2 == BigEndian(key[8..])
    {
      KeyOfHash(key, w1, w2);
    }
  }

  lemma KeyOfHash(key: seq<byte>, w1: uint64, w2: uint64)
    requires |key| == 16 && Hash3(key, 0) == Hash16(w1, w2)
    ensures ReverseBytes(w1) == BigEndian(key[..8]) && ReverseBytes(w2) == BigEndian(key[8..])
  {
    hide Finalize, Block, ReverseBytes, Hash3, FromLittleEndian, BigEndian;
    Hash16IsHash3(key);
    Hash16Injective(Word(key, 0), Word(key, 8), w1, w2);
    assert key[0..8] == key[..8] && key[8..16] == key[8..];
    ReverseIsBigEndian(key[..8]);
    ReverseIsBigEndian(key[8..]);
  }

  /** On 16-byte keys with seed 0 the hash takes different keys to different results. */
  lemma HashInjectiveOn16(a: seq<byte>, b: seq<byte>)
    requires |a| == |b| == 16 && Hash3(a, 0) == Hash3(b, 0)
    ensures a == b
  {
    hide Hash3, Hash16, FromLittleEndian;
    Hash16IsHash3(a);
    Hash16IsHash3(b);
    Hash16Injective(Word(a, 0), Word(a, 8), Word(b, 0), Word(b, 8));
    FromLittleEndianInjective(a[0..8], b[0..8]);
    FromLittleEndianInjective(a[8..16], b[8..16]);
    assert a == a[0..8] + a[8..16] && b == b[0..8] + b[8..16];
  }
}
