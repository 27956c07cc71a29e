/** The word operations of lib/dht/murmur_hash.cc as ordinary arithmetic. */
module WordArithmetic {
  import opened Bytes
  import opened Words
  import opened ByteWords

  // ----- shifts and rotations

  lemma {:induction false} ShrIsQuotient(x: nat, n: nat)
    ensures Shr(x, n) == x / Pow2(n)
    decreases n
  {
    if n > 0 {
      ShrIsQuotient(x / 2, n - 1);
      DivideTwice(x, 2, Pow2(n - 1));
    }
  }

  lemma ProductParts(a: nat, p: nat, m: nat, q: nat, r: nat, s: nat, t: nat)
    requires a == m * q + r && r * p == m * s + t
    ensures a * p == m * (q * p + s) + t
  {
    Commute(a, p);
    Commute(r, p);
    Distribute(p, m * q, r);
    Commute(p, m * q);
    Associate(m, q, p);
    Distribute(m, q * p, s);
  }

  lemma ModTimes(a: nat, p: nat, m: nat)
    requires m > 0
    ensures ((a % m) * p) % m == (a * p) % m
  {
    var q, r := a / m, a % m;
    var s, t := (r * p) / m, (r * p) % m;
    Quotient(a, m);
    Quotient(r * p, m);
    ProductParts(a, p, m, q, r, s, t);
    ModUnique(a * p, m, q * p + s, t);
  }

  lemma TwiceProduct(x: nat, p: nat)
    ensures (2 * x) * p == x * (2 * p)
  {
  }

  lemma {:induction false} ShlIsProduct(x: uint64, n: nat)
    ensures Shl(x, n) == (x * Pow2(n)) % MODULUS
    decreases n
  {
    if n > 0 {
      var p := Pow2(n - 1);
      assert Pow2(n) == 2 * p && Shl(x, n) == Shl((2 * x) % MODULUS, n - 1);
      hide Pow2, Shl;
      ShlIsProduct((2 * x) % MODULUS, n - 1);
      ModTimes(2 * x, p, MODULUS);
      TwiceProduct(x, p);
    }
  }

  lemma {:induction false} OrZero(x: nat)
    ensures Or(x, 0) == x
  {
    if x > 0 { OrZero(x / 2); }
  }

  lemma {:induction false} OrBelow(x: nat, y: nat, n: nat)
    requires y < Pow2(n)
    ensures Or(Pow2(n) * x, y) == Pow2(n) * x + y
    decreases n
  {
    if n == 0 {
      OrZero(x);
    } else {
      var t := Pow2(n - 1) * x;
      Associate(2, Pow2(n - 1), x);
      assert Pow2(n) * x == 2 * t;
      Halves(2 * t, y);
      OrBelow(x, y / 2, n - 1);
    }
  }

  lemma RotatedParts(v: nat, p: nat, q: nat, a: nat, b: nat)
    requires p > 0 && v == q * a + b && b < q && v < p * q
    ensures v * p == (p * q) * a + p * b && p * b < p * q && a < p
  {
    Commute(v, p);
    Distribute(p, q * a, b);
    Associate(p, q, a);
    ProductLeq(p, b + 1, q);
    Distribute(p, b, 1);
    Commute(p, q);
    if a >= p { ProductLeq(q, p, a); }
  }

  lemma Rotated(v: nat, p: nat, q: nat)
    requires p > 0 && q > 0 && v < p * q
    ensures (v * p) % (p * q) == p * (v % q) && v / q < p
  {
    var a, b := v / q, v % q;
    Quotient(v, q);
    RotatedParts(v, p, q, a, b);
    ModUnique(v * p, p * q, a, p * b);
  }

  /** A left rotation moves the top n bits to the bottom. */
  lemma RotLIs(v: uint64, n: nat)
    requires 0 < n < 64
    ensures RotL(v, n) == Pow2(n) * (v % Pow2(64 - n)) + v / Pow2(64 - n)
  {
    hide Or, Shl, Shr, Pow2;
    var p, q := Pow2(n), Pow2(64 - n);
    Pow2Square(n, 64 - n);
    Pow2Values();
    ShlIsProduct(v, n);
    ShrIsQuotient(v, 64 - n);
    Rotated(v, p, q);
    OrBelow(v % q, v / q, n);
  }

  // ----- exclusive or, digit by digit

  /** A number with one more bit at the bottom. */
  function Append(x: nat, b: bool): (r: nat) {
    2 * x + (if b then 1 else 0)
  }

  lemma AppendHalves(x: nat, b: bool)
    ensures Append(x, b) / 2 == x && (Append(x, b) % 2 == 1 <==> b)
  {
  }

  lemma FromHalves(z: nat, h: nat, odd: bool)
    requires z / 2 == h && (odd <==> z % 2 == 1)
    ensures z == Append(h, odd)
  {
  }

  lemma XorAppend(x: nat, p: bool, y: nat, q: bool)
    ensures Xor(Append(x, p), Append(y, q)) == Append(Xor(x, y), p != q)
  {
    hide Xor, And, Or, Append;
    AppendHalves(x, p);
    AppendHalves(y, q);
    Halves(Append(x, p), Append(y, q));
    FromHalves(Xor(Append(x, p), Append(y, q)), Xor(x, y), p != q);
  }

  /** A hexadecimal digit. */
  datatype Hex = Hex(b3: bool, b2: bool, b1: bool, b0: bool)

  const H0 := Hex(false, false, false, false)
  const H1 := Hex(false, false, false, true)
  const H2 := Hex(false, false, true, false)
  const H3 := Hex(false, false, true, true)
  const H4 := Hex(false, true, false, false)
  const H5 := Hex(false, true, false, true)
  const H6 := Hex(false, true, true, false)
  const H7 := Hex(false, true, true, true)
  const H8 := Hex(true, false, false, false)
  const H9 := Hex(true, false, false, true)
  const HA := Hex(true, false, true, false)
  const HB := Hex(true, false, true, true)
  const HC := Hex(true, true, false, false)
  const HD := Hex(true, true, false, true)
  const HE := Hex(true, true, true, false)
  const HF := Hex(true, true, true, true)

  function HexXor(a: Hex, b: Hex): (c: Hex) {
    Hex(a.b3 != b.b3, a.b2 != b.b2, a.b1 != b.b1, a.b0 != b.b0)
  }

  function Cons(x: nat, a: Hex): (r: nat) {
    Append(Append(Append(Append(x, a.b3), a.b2), a.b1), a.b0)
  }

  lemma XorOfCons(x: nat, a: Hex, y: nat, b: Hex)
    ensures Xor(Cons(x, a), Cons(y, b)) == Cons(Xor(x, y), HexXor(a, b))
  {
    hide Xor, Append;
    var x1, y1 := Append(x, a.b3), Append(y, b.b3);
    var x2, y2 := Append(x1, a.b2), Append(y1, b.b2);
    var x3, y3 := Append(x2, a.b1), Append(y2, b.b1);
    XorAppend(x, a.b3, y, b.b3);
    XorAppend(x1, a.b2, y1, b.b2);
    XorAppend(x2, a.b1, y2, b.b1);
    XorAppend(x3, a.b0, y3, b.b0);
  }

  /** Four digits below a number. */
  function Quad(x: nat, a3: Hex, a2: Hex, a1: Hex, a0: Hex): (r: nat) {
    Cons(Cons(Cons(Cons(x, a3), a2), a1), a0)
  }

  lemma XorOfQuad(x: nat, a3: Hex, a2: Hex, a1: Hex, a0: Hex, y: nat, b3: Hex, b2: Hex, b1: Hex, b0: Hex)
    ensures Xor(Quad(x, a3, a2, a1, a0), Quad(y, b3, b2, b1, b0))
         == Quad(Xor(x, y), HexXor(a3, b3), HexXor(a2, b2), HexXor(a1, b1), HexXor(a0, b0))
  {
    hide Xor, Cons;
    var x3, y3 := Cons(x, a3), Cons(y, b3);
    var x2, y2 := Cons(x3, a2), Cons(y3, b2);
    var x1, y1 := Cons(x2, a1), Cons(y2, b1);
    XorOfCons(x, a3, y, b3);
    XorOfCons(x3, a2, y3, b2);
    XorOfCons(x2, a1, y2, b1);
    XorOfCons(x1, a0, y1, b0);
  }

  lemma Pow2Literals()
    ensures Pow2(13) == 0x2000 && Pow2(15) == 0x8000 && Pow2(24) == 0x100_0000 && Pow2(27) == 0x800_0000
    ensures Pow2(31) == 0x8000_0000 && Pow2(33) == 0x2_0000_0000 && Pow2(37) == 0x20_0000_0000
    ensures Pow2(47) == 0x8000_0000_0000
  {
    assert Pow2(4) == 0x10;
    assert Pow2(8) == 0x100;
    assert Pow2(12) == 0x1000;
    assert Pow2(15) == 0x8000;
    assert Pow2(18) == 0x4_0000;
    assert Pow2(21) == 0x20_0000;
    assert Pow2(24) == 0x100_0000;
    assert Pow2(27) == 0x800_0000;
    assert Pow2(31) == 0x8000_0000;
    assert Pow2(34) == 0x4_0000_0000;
    assert Pow2(37) == 0x20_0000_0000;
    assert Pow2(41) == 0x200_0000_0000;
    assert Pow2(44) == 0x1000_0000_0000;
  }

  // ----- literals

  lemma FromCons(b: byte, rest: seq<byte>)
    ensures FromLittleEndian([b] + rest) == b + 256 * FromLittleEndian(rest)
    ensures FromLittleEndian([]) == 0
  {
    assert ([b] + rest)[1..] == rest;
  }

  lemma Little1(b0: byte)
    ensures FromLittleEndian([b0]) == b0
  {
    hide FromLittleEndian;
    FromCons(b0, []);
    assert [b0] + [] == [b0];
  }

  lemma Little2(b0: byte, b1: byte)
    ensures FromLittleEndian([b0, b1]) == b0 + 256 * b1
  {
    hide FromLittleEndian;
    FromCons(b0, [b1]);
    assert [b0] + [b1] == [b0, b1];
    Little1(b1);
  }

  lemma Little3(b0: byte, b1: byte, b2: byte)
    ensures FromLittleEndian([b0, b1, b2]) == b0 + 256 * (b1 + 256 * b2)
  {
    hide FromLittleEndian;
    FromCons(b0, [b1, b2]);
    assert [b0] + [b1, b2] == [b0, b1, b2];
    Little2(b1, b2);
  }

  lemma Little4(b0: byte, b1: byte, b2: byte, b3: byte)
    ensures FromLittleEndian([b0, b1, b2, b3]) == b0 + 256 * (b1 + 256 * (b2 + 256 * b3))
  {
    hide FromLittleEndian;
    FromCons(b0, [b1, b2, b3]);
    assert [b0] + [b1, b2, b3] == [b0, b1, b2, b3];
    Little3(b1, b2, b3);
  }

  lemma Little5(b0: byte, b1: byte, b2: byte, b3: byte, b4: byte)
    ensures FromLittleEndian([b0, b1, b2, b3, b4]) == b0 + 256 * (b1 + 256 * (b2 + 256 * (b3 + 256 * b4)))
  {
    hide FromLittleEndian;
    FromCons(b0, [b1, b2, b3, b4]);
    assert [b0] + [b1, b2, b3, b4] == [b0, b1, b2, b3, b4];
    Little4(b1, b2, b3, b4);
  }

  lemma Little6(b0: byte, b1: byte, b2: byte, b3: byte, b4: byte, b5: byte)
    ensures FromLittleEndian([b0, b1, b2, b3, b4, b5])
      == b0 + 256 * (b1 + 256 * (b2 + 256 * (b3 + 256 * (b4 + 256 * b5))))
  {
    hide FromLittleEndian;
    FromCons(b0, [b1, b2, b3, b4, b5]);
    assert [b0] + [b1, b2, b3, b4, b5] == [b0, b1, b2, b3, b4, b5];
    Little5(b1, b2, b3, b4, b5);
  }

  lemma Little7(b0: byte, b1: byte, b2: byte, b3: byte, b4: byte, b5: byte, b6: byte)
    ensures FromLittleEndian([b0, b1, b2, b3, b4, b5, b6])
      == b0 + 256 * (b1 + 256 * (b2 + 256 * (b3 + 256 * (b4 + 256 * (b5 + 256 * b6)))))
  {
    hide FromLittleEndian;
    FromCons(b0, [b1, b2, b3, b4, b5, b6]);
    assert [b0] + [b1, b2, b3, b4, b5, b6] == [b0, b1, b2, b3, b4, b5, b6];
    Little6(b1, b2, b3, b4, b5, b6);
  }

  lemma Little8(b0: byte, b1: byte, b2: byte, b3: byte, b4: byte, b5: byte, b6: byte, b7: byte)
    ensures FromLittleEndian([b0, b1, b2, b3, b4, b5, b6, b7])
      == b0 + 256 * (b1 + 256 * (b2 + 256 * (b3 + 256 * (b4 + 256 * (b5 + 256 * (b6 + 256 * b7))))))
  {
    hide FromLittleEndian;
    FromCons(b0, [b1, b2, b3, b4, b5, b6, b7]);
    assert [b0] + [b1, b2, b3, b4, b5, b6, b7] == [b0, b1, b2, b3, b4, b5, b6, b7];
    Little7(b1, b2, b3, b4, b5, b6, b7);
  }

  lemma XorZeroes()
    ensures Xor(0, 0) == 0
  {
  }
}
