/** std::to_string and atoi/stoi on the decimal numbers the system prints and reads. */
module Decimal {
  import opened Bytes

  predicate IsDigit(b: byte) {
    48 <= b <= 57
  }

  /** isspace in the C locale. */
  predicate IsSpace(b: byte) {
    b == 32 || 9 <= b <= 13
  }

  function Digits(n: nat): (s: seq<byte>)
    ensures s != [] && forall i | 0 <= i < |s| :: IsDigit(s[i])
  {
    if n < 10 then [48 + n] else Digits(n / 10) + [48 + n % 10]
  }

  function ToString(x: int): (s: seq<byte>)
    ensures s != [] && (IsDigit(s[0]) || s[0] == 45)
    ensures forall i | 0 <= i < |s| :: IsDigit(s[i]) || s[i] == 45
  {
    if x < 0 then [45] + Digits(-x) else Digits(x)
  }

  function ReadDigits(s: seq<byte>, n: nat): (r: nat) {
    if s == [] || !IsDigit(s[0]) then n else ReadDigits(s[1..], 10 * n + (s[0] - 48))
  }

  /** Leading white space, an optional sign, then digits up to the first other character. */
  function Atoi(s: seq<byte>): (x: int) {
    if s == [] then 0
    else if IsSpace(s[0]) then Atoi(s[1..])
    else if s[0] == 45 then 0 - ReadDigits(s[1..], 0)
    else if s[0] == 43 then ReadDigits(s[1..], 0)
    else ReadDigits(s, 0)
  }

  lemma {:induction false} ReadDigitsOf(n: nat, rest: seq<byte>)
    ensures ReadDigits(Digits(n) + rest, 0) == ReadDigits(rest, n)
  {
    if n < 10 {
      assert (Digits(n) + rest)[1..] == rest;
    } else {
      var d: seq<byte> := [48 + n % 10];
      assert Digits(n) + rest == Digits(n / 10) + (d + rest);
      ReadDigitsOf(n / 10, d + rest);
      assert (d + rest)[1..] == rest;
    }
  }

  /** What is printed is read back, for every integer. */
  lemma AtoiOfToString(x: int)
    ensures Atoi(ToString(x)) == x
  {
    var n := if x < 0 then -x else x;
    ReadDigitsOf(n, []);
    assert Digits(n) + [] == Digits(n);
    if x < 0 { assert ToString(x)[1..] == Digits(n); }
  }

  /** No number but 0 is printed with a leading zero; so the text is the usual one. */
  lemma {:induction false} DigitsCanonical(n: nat)
    ensures Digits(n)[0] == 48 <==> n == 0
    ensures n == 0 ==> |Digits(n)| == 1
  {
    if n >= 10 { DigitsCanonical(n / 10); }
  }

  ghost predicate White(ws: seq<byte>) {
    forall i | 0 <= i < |ws| :: ws[i] in {9, 10, 11, 12, 13, 32}
  }

  lemma AtoiSigned(sign: seq<byte>, n: nat, rest: seq<byte>)
    requires sign == [] || sign == [43] || sign == [45]
    requires rest == [] || rest[0] < 48 || rest[0] > 57
    ensures Atoi(sign + (Digits(n) + rest)) == if sign == [45] then 0 - n else n
  {
    ReadDigitsOf(n, rest);
    hide Digits;
    var d := Digits(n) + rest;
    assert IsDigit(d[0]);
    if sign == [] { assert sign + d == d; } else { assert (sign + d)[1..] == d; }
  }

  /** What atoi reads: past white space, with an optional sign, up to the first byte that is no digit. */
  lemma {:induction false} AtoiReads(ws: seq<byte>, sign: seq<byte>, n: nat, rest: seq<byte>)
    requires White(ws) && (sign == [] || sign == [43] || sign == [45])
    requires rest == [] || rest[0] < 48 || rest[0] > 57
    ensures Atoi(ws + (sign + (Digits(n) + rest))) == if sign == [45] then 0 - n else n
    decreases |ws|
  {
    hide Digits;
    var d := sign + (Digits(n) + rest);
    if ws == [] {
      assert ws + d == d;
      AtoiSigned(sign, n, rest);
    } else {
      assert (ws + d)[1..] == ws[1..] + d;
      AtoiReads(ws[1..], sign, n, rest);
    }
  }

  /** A text that does not start with white space, a sign or a digit is read as 0. */
  lemma AtoiOfNoNumber(s: seq<byte>)
    requires s == [] || (s[0] !in {9, 10, 11, 12, 13, 32, 43, 45} && (s[0] < 48 || s[0] > 57))
    ensures Atoi(s) == 0
  {
  }

  /** White space: tab, line feed, vertical tab, form feed, carriage return and blank. */
  lemma SpaceExact(b: byte)
    ensures IsSpace(b) <==> b in {9, 10, 11, 12, 13, 32}
  {
  }
}
