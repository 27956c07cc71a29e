/** Byte strings, machine integers and the little-endian layout that the host's memcpy produces. */
module Bytes {

  type byte = x: int | 0 <= x < 256
  type uint32 = x: int | 0 <= x < 0x1_0000_0000
  type uint64 = x: int | 0 <= x < 0x1_0000_0000_0000_0000
  type int8 = x: int | -0x80 <= x < 0x80
  type int16 = x: int | -0x8000 <= x < 0x8000
  type int32 = x: int | -0x8000_0000 <= x < 0x8000_0000
  type int64 = x: int | -0x8000_0000_0000_0000 <= x < 0x8000_0000_0000_0000

  /** A std::string or blob whose length fits the `int` that the buffer's methods take. */
  type ByteString = s: seq<byte> | |s| < 0x8000_0000 witness []

  /** Sizes from here on no longer fit the int that counts them. */
  const INT_LIMIT: nat := 0x8000_0000

  datatype Option<+T> = None | Some(value: T)

  /** What a reader yields: a value and the unread bytes, or the exception the source throws. */
  datatype Parsed<+T> = Ok(value: T, rest: seq<byte>) | Fail {
    predicate IsFailure() { Fail? }

    function PropagateFailure<U>(): Parsed<U>
      requires Fail?
    {
      Fail
    }

    function Extract(): (T, seq<byte>)
      requires Ok?
    {
      (value, rest)
    }
  }

  /** The bytes of a text literal. */
  function Text(s: string): (b: seq<byte>)
    requires forall i | 0 <= i < |s| :: s[i] as int < 256
    ensures |b| == |s| && forall i | 0 <= i < |s| :: b[i] == s[i] as int
  {
    seq(|s|, i requires 0 <= i < |s| => s[i] as int)
  }

  function Pow256(w: nat): (p: nat)
    ensures p > 0
  {
    if w == 0 then 1 else 256 * Pow256(w - 1)
  }

  lemma Pow256Values()
    ensures Pow256(1) == 0x100 && Pow256(2) == 0x1_0000
    ensures Pow256(4) == 0x1_0000_0000 && Pow256(8) == 0x1_0000_0000_0000_0000
  {
    assert Pow256(3) == 0x100_0000;
    assert Pow256(6) == 0x1_0000_0000_0000;
  }

  /** The low `w` bytes of `n`, least significant first. */
  function LittleEndian(n: nat, w: nat): (s: seq<byte>)
    ensures |s| == w
  {
    if w == 0 then [] else [n % 256] + LittleEndian(n / 256, w - 1)
  }

  function FromLittleEndian(s: seq<byte>): (n: nat)
    ensures n < Pow256(|s|)
  {
    if s == [] then 0 else s[0] + 256 * FromLittleEndian(s[1..])
  }

  lemma {:induction false} LittleEndianRoundTrip(n: nat, w: nat)
    requires n < Pow256(w)
    ensures FromLittleEndian(LittleEndian(n, w)) == n
  {
    if w > 0 {
      LittleEndianRoundTrip(n / 256, w - 1);
      assert LittleEndian(n, w)[1..] == LittleEndian(n / 256, w - 1);
    }
  }

  lemma {:induction false} FromLittleEndianRoundTrip(s: seq<byte>)
    ensures LittleEndian(FromLittleEndian(s), |s|) == s
  {
    if s != [] {
      FromLittleEndianRoundTrip(s[1..]);
      LowByte(s[0], FromLittleEndian(s[1..]));
      assert s == [s[0]] + s[1..];
      var n := FromLittleEndian(s);
      assert LittleEndian(n, |s|) == [n % 256] + LittleEndian(n / 256, |s| - 1);
    }
  }

  lemma LowByte(b: byte, n: nat)
    ensures (b + 256 * n) % 256 == b && (b + 256 * n) / 256 == n
  {
  }

  /** Byte i of the encoding is digit i of the number in base 256. */
  lemma {:induction false} LittleEndianDigit(n: nat, w: nat, i: nat)
    requires i < w
    ensures LittleEndian(n, w)[i] == n / Pow256(i) % 256
    decreases w
  {
    if i > 0 {
      LittleEndianDigit(n / 256, w - 1, i - 1);
      DivideTwice(n, 256, Pow256(i - 1));
    }
  }

  lemma Distribute(c: nat, a: nat, b: nat)
    ensures c * (a + b) == c * a + c * b
  {
  }

  lemma Associate(a: nat, b: nat, c: nat)
    ensures a * (b * c) == (a * b) * c
  {
  }

  lemma Commute(a: nat, b: nat)
    ensures a * b == b * a
  {
  }

  lemma ProductLeq(c: nat, a: nat, b: nat)
    requires a <= b
    ensures c * a <= c * b
  {
    Distribute(c, a, b - a);
  }

  lemma Quotient(n: nat, m: nat)
    requires m > 0
    ensures n == m * (n / m) + n % m
  {
  }

  lemma TwoQuotients(n: nat, c: nat, p: nat, m: nat, r: nat, q: nat, t: nat)
    requires n == c * m + r && m == p * q + t && r < c && t < p
    ensures n == (c * p) * q + (c * t + r) && c * t + r < c * p
  {
    Distribute(c, p * q, t);
    Associate(c, p, q);
    ProductLeq(c, t + 1, p);
    Distribute(c, t, 1);
  }

  lemma DivideTwice(n: nat, c: nat, p: nat)
    requires c > 0 && p > 0
    ensures c * p > 0 && n / c / p == n / (c * p)
  {
    var m, r := n / c, n % c;
    var q, t := m / p, m % p;
    Quotient(n, c);
    Quotient(m, p);
    TwoQuotients(n, c, p, m, r, q, t);
    ModUnique(n, c * p, q, c * t + r);
  }

  lemma ModUnique(n: nat, m: nat, q: nat, r: nat)
    requires r < m && n == m * q + r
    ensures n % m == r && n / m == q
  {
    var k := n / m;
    Quotient(n, m);
    if k > q {
      Distribute(m, q, k - q);
      TimesAtLeast(m, k - q);
    } else if k < q {
      Distribute(m, k, q - k);
      TimesAtLeast(m, q - k);
    }
  }

  lemma TimesAtLeast(m: nat, d: nat)
    requires d > 0
    ensures m * d >= m
  {
  }

  lemma TimesSign(m: nat, d: int)
    ensures d > 0 ==> m * d >= m
    ensures d < 0 ==> m * d <= 0 - m
  {
    if d > 0 {
      TimesAtLeast(m, d);
    } else if d < 0 {
      TimesAtLeast(m, -d);
      assert m * -d == -(m * d);
    }
  }

  lemma FourBytes(n: uint32)
    ensures LittleEndian(n, 4) == [n % 256, n / 256 % 256, n / 65536 % 256, n / 16777216]
  {
    assert LittleEndian(n / 16777216, 1) == [n / 16777216];
    assert LittleEndian(n / 65536, 2) == [n / 65536 % 256] + LittleEndian(n / 16777216, 1);
    assert LittleEndian(n / 256, 3) == [n / 256 % 256] + LittleEndian(n / 65536, 2);
  }

  lemma EightBytes(n: uint32)
    ensures LittleEndian(n, 8) == [n % 256, n / 256 % 256, n / 65536 % 256, n / 16777216, 0, 0, 0, 0]
  {
    assert LittleEndian(0, 1) == [0];
    assert LittleEndian(0, 2) == [0] + LittleEndian(0, 1);
    assert LittleEndian(0, 3) == [0] + LittleEndian(0, 2);
    assert LittleEndian(0, 4) == [0] + LittleEndian(0, 3) == [0, 0, 0, 0];
    assert LittleEndian(n / 16777216, 5) == [n / 16777216] + LittleEndian(0, 4);
    assert LittleEndian(n / 65536, 6) == [n / 65536 % 256] + LittleEndian(n / 16777216, 5);
    assert LittleEndian(n / 256, 7) == [n / 256 % 256] + LittleEndian(n / 65536, 6);
  }

  lemma FromLittleEndianInjective(a: seq<byte>, b: seq<byte>)
    requires |a| == |b| && FromLittleEndian(a) == FromLittleEndian(b)
    ensures a == b
  {
    FromLittleEndianRoundTrip(a);
    FromLittleEndianRoundTrip(b);
  }

  lemma {:induction false} Pow256Monotone(a: nat, b: nat)
    requires a <= b
    ensures Pow256(a) <= Pow256(b)
    decreases b - a
  {
    if a < b { Pow256Monotone(a + 1, b); }
  }

  /** Two's complement: the unsigned image of a signed value of `w` bytes, and back. */
  function ToTwos(x: int, w: nat): (n: int) {
    if x < 0 then x + Pow256(w) else x
  }

  function FromTwos(n: nat, w: nat): (x: int) {
    if 2 * n < Pow256(w) then n else n - Pow256(w)
  }

  lemma {:induction false} Pow256Splits(a: nat, b: nat)
    ensures Pow256(a + b) == Pow256(a) * Pow256(b)
    decreases a
  {
    if a > 0 {
      Pow256Splits(a - 1, b);
      Associate(256, Pow256(a - 1), Pow256(b));
    }
  }

  lemma AddMultiple(x: int, m: nat, k: nat)
    requires m > 0
    ensures (x + m * k) / m == x / m + k
  {
    var q, r := (x + m * k) / m - k - x / m, x % m - (x + m * k) % m;
    assert m * q == r by {
      assert x == m * (x / m) + x % m;
      assert x + m * k == m * ((x + m * k) / m) + (x + m * k) % m;
    }
    TimesSign(m, q);
  }

  lemma DigitOfSum(x: int, p: nat, k: nat)
    requires p > 0
    ensures (x + p * (256 * k)) / p % 256 == x / p % 256
  {
    AddMultiple(x, p, 256 * k);
    var y := x / p;
    assert (y + 256 * k) % 256 == y % 256;
  }

  /** Byte i of a signed value is its digit i in base 256, rounding down: the sign extends upwards. */
  lemma TwosDigit(x: int, w: nat, i: nat)
    requires i < w && ToTwos(x, w) >= 0
    ensures LittleEndian(ToTwos(x, w), w)[i] == x / Pow256(i) % 256
  {
    var n := ToTwos(x, w);
    LittleEndianDigit(n, w, i);
    if x < 0 {
      var p, k := Pow256(i), Pow256(w - i - 1);
      assert n == x + p * (256 * k) by {
        Pow256Splits(i, w - i);
        assert Pow256(w - i) == 256 * k;
        hide LittleEndian;
      }
      hide *;
      DigitOfSum(x, p, k);
    }
  }

  function Zeros(n: nat): (s: seq<byte>)
    ensures |s| == n && forall i | 0 <= i < n :: s[i] == 0
  {
    seq(n, _ => 0)
  }

  // ----- reading the primitive values back

  function ParseBytes(s: seq<byte>, n: nat): (r: Parsed<seq<byte>>)
    ensures r.Ok? ==> r.value + r.rest == s && |r.value| == n
  {
    if n <= |s| then Ok(s[..n], s[n..]) else Fail
  }

  function ParseUint(s: seq<byte>, w: nat): (r: Parsed<nat>)
    ensures r.Ok? ==> r.value < Pow256(w) && |r.rest| + w == |s|
  {
    var (b, rest) :- ParseBytes(s, w);
    Ok(FromLittleEndian(b), rest)
  }

  function ParseInt(s: seq<byte>, w: nat): (r: Parsed<int>)
    requires w > 0
    ensures r.Ok? ==> 0 <= 2 * r.value + Pow256(w) < 2 * Pow256(w) && |r.rest| + w == |s|
  {
    var (n, rest) :- ParseUint(s, w);
    Ok(FromTwos(n, w), rest)
  }

  lemma ParseBytesOfConcat(b: seq<byte>, rest: seq<byte>)
    ensures ParseBytes(b + rest, |b|) == Ok(b, rest)
  {
    assert (b + rest)[..|b|] == b;
    assert (b + rest)[|b|..] == rest;
  }

  lemma ParseUintOfConcat(n: nat, w: nat, rest: seq<byte>)
    requires n < Pow256(w)
    ensures ParseUint(LittleEndian(n, w) + rest, w) == Ok(n, rest)
  {
    ParseBytesOfConcat(LittleEndian(n, w), rest);
    LittleEndianRoundTrip(n, w);
  }

  lemma TwosRoundTrip(x: int, w: nat)
    requires 0 <= 2 * x + Pow256(w) < 2 * Pow256(w)
    ensures 0 <= ToTwos(x, w) < Pow256(w)
    ensures FromTwos(ToTwos(x, w), w) == x
  {
  }

  /** A one-byte counter. */
  lemma CountByte(n: byte, rest: seq<byte>)
    ensures ParseUint([n] + rest, 1) == Ok(n, rest)
  {
    Pow256Values();
    assert LittleEndian(n, 1) == [n];
    ParseUintOfConcat(n, 1, rest);
  }

  lemma FromTwosInjective(n: nat, w: nat)
    requires n < Pow256(w) && w > 0
    ensures ToTwos(FromTwos(n, w), w) == n
  {
  }

  lemma ParseIntOfConcat(x: int, w: nat, rest: seq<byte>)
    requires w > 0 && 0 <= 2 * x + Pow256(w) < 2 * Pow256(w)
    ensures 0 <= ToTwos(x, w) < Pow256(w)
    ensures ParseInt(LittleEndian(ToTwos(x, w), w) + rest, w) == Ok(x, rest)
  {
    TwosRoundTrip(x, w);
    ParseUintOfConcat(ToTwos(x, w), w, rest);
  }
}
