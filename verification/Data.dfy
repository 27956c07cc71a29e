/** include/catalog/data.hh and lib/catalog/data.cc: column types, values, their bytes and their order. */
module Data {
  import opened Bytes
  import opened Buffer

  datatype Id = ASCII | BIGINT | BOOLEAN | DOUBLE | FLOAT | INT | SMALLINT | TINYINT | BLOB

  datatype Type = Type(id: Id, length: uint32)

  /** Floating-point values are carried as their bit patterns. */
  datatype Data =
    | Ascii(text: ByteString)
    | BigInt(i64: int64)
    | Boolean(bit: bool)
    | Double(bits64: uint64)
    | Float(bits32: uint32)
    | Int(i32: int32)
    | SmallInt(i16: int16)
    | TinyInt(i8: int8)
    | Blob(blob: ByteString)

  function TypeOf(d: Data): (t: Type) {
    match d
    case Ascii(s) => Type(ASCII, |s|)
    case BigInt(_) => Type(BIGINT, 8)
    case Boolean(_) => Type(BOOLEAN, 1)
    case Double(_) => Type(DOUBLE, 8)
    case Float(_) => Type(FLOAT, 4)
    case Int(_) => Type(INT, 4)
    case SmallInt(_) => Type(SMALLINT, 2)
    case TinyInt(_) => Type(TINYINT, 1)
    case Blob(s) => Type(BLOB, |s|)
  }

  // ----- bytes

  function IdByte(id: Id): (b: byte) {
    match id
    case ASCII => 0
    case BIGINT => 1
    case BOOLEAN => 2
    case DOUBLE => 3
    case FLOAT => 4
    case INT => 5
    case SMALLINT => 6
    case TINYINT => 7
    case BLOB => 8
  }

  function IdOf(b: nat): (id: Option<Id>)
    ensures id.Some? <==> b < 9
    ensures id.Some? ==> IdByte(id.value) == b
  {
    match b
    case 0 => Some(ASCII)
    case 1 => Some(BIGINT)
    case 2 => Some(BOOLEAN)
    case 3 => Some(DOUBLE)
    case 4 => Some(FLOAT)
    case 5 => Some(INT)
    case 6 => Some(SMALLINT)
    case 7 => Some(TINYINT)
    case 8 => Some(BLOB)
    case _ => None
  }

  const TYPE_SIZE: nat := 5

  function EncodeType(t: Type): (s: seq<byte>)
    ensures |s| == TYPE_SIZE
  {
    [IdByte(t.id)] + LittleEndian(t.length, 4)
  }

  function ParseType(s: seq<byte>): (r: Parsed<Type>)
    ensures r.Ok? ==> |r.rest| + TYPE_SIZE == |s|
  {
    var (b, s1) :- ParseUint(s, 1);
    var (n, s2) :- ParseUint(s1, 4);
    Pow256Values();
    match IdOf(b)
    case None => Fail
    case Some(id) => Ok(Type(id, n), s2)
  }

  function Encode(d: Data): (s: seq<byte>)
    ensures |s| == TypeOf(d).length
  {
    Pow256Values();
    match d
    case Ascii(s) => s
    case BigInt(x) => LittleEndian(ToTwos(x, 8), 8)
    case Boolean(b) => [if b then 1 else 0]
    case Double(n) => LittleEndian(n, 8)
    case Float(n) => LittleEndian(n, 4)
    case Int(x) => LittleEndian(ToTwos(x, 4), 4)
    case SmallInt(x) => LittleEndian(ToTwos(x, 2), 2)
    case TinyInt(x) => LittleEndian(ToTwos(x, 1), 1)
    case Blob(s) => s
  }

  function ParseText(s: seq<byte>, n: nat): (r: Parsed<ByteString>)
    ensures r.Ok? ==> |r.value| == n && |r.rest| + n == |s|
  {
    if n >= 0x8000_0000 then Fail else
    var (b, rest) :- ParseBytes(s, n);
    Ok(b, rest)
  }

  /** Only ASCII and BLOB look at the type's length; the other kinds have their own width. */
  function ParseData(s: seq<byte>, t: Type): (r: Parsed<Data>)
    ensures r.Ok? ==> TypeOf(r.value).id == t.id
  {
    Pow256Values();
    match t.id
    case ASCII => var (v, rest) :- ParseText(s, t.length); Ok(Ascii(v), rest)
    case BIGINT => var (v, rest) :- ParseInt(s, 8); Ok(BigInt(v), rest)
    case BOOLEAN => var (v, rest) :- ParseUint(s, 1); Ok(Boolean(v != 0), rest)
    case DOUBLE => var (v, rest) :- ParseUint(s, 8); Ok(Double(v), rest)
    case FLOAT => var (v, rest) :- ParseUint(s, 4); Ok(Float(v), rest)
    case INT => var (v, rest) :- ParseInt(s, 4); Ok(Int(v), rest)
    case SMALLINT => var (v, rest) :- ParseInt(s, 2); Ok(SmallInt(v), rest)
    case TINYINT => var (v, rest) :- ParseInt(s, 1); Ok(TinyInt(v), rest)
    case BLOB => var (v, rest) :- ParseText(s, t.length); Ok(Blob(v), rest)
  }

  /** The five bytes of each type: its number in the enumeration, then the length, low byte first. */
  lemma TypeBytes(n: uint32)
    ensures var length: seq<byte> := [n % 256, n / 256 % 256, n / 65536 % 256, n / 16777216];
      && EncodeType(Type(ASCII, n)) == [0] + length && EncodeType(Type(BIGINT, n)) == [1] + length
      && EncodeType(Type(BOOLEAN, n)) == [2] + length && EncodeType(Type(DOUBLE, n)) == [3] + length
      && EncodeType(Type(FLOAT, n)) == [4] + length && EncodeType(Type(INT, n)) == [5] + length
      && EncodeType(Type(SMALLINT, n)) == [6] + length && EncodeType(Type(TINYINT, n)) == [7] + length
      && EncodeType(Type(BLOB, n)) == [8] + length
  {
    FourBytes(n);
    hide LittleEndian;
  }

  /** Byte i of each kind of number, as arithmetic on the number itself; a BOOLEAN is 1 or 0. */
  lemma ValueBytes(d: Data, i: nat)
    requires i < |Encode(d)|
    ensures d.BigInt? ==> |Encode(d)| == 8 && Encode(d)[i] == d.i64 / Pow256(i) % 256
    ensures d.Int? ==> |Encode(d)| == 4 && Encode(d)[i] == d.i32 / Pow256(i) % 256
    ensures d.SmallInt? ==> |Encode(d)| == 2 && Encode(d)[i] == d.i16 / Pow256(i) % 256
    ensures d.TinyInt? ==> Encode(d) == [d.i8 % 256]
    ensures d.Double? ==> |Encode(d)| == 8 && Encode(d)[i] == d.bits64 / Pow256(i) % 256
    ensures d.Float? ==> |Encode(d)| == 4 && Encode(d)[i] == d.bits32 / Pow256(i) % 256
    ensures d.Boolean? ==> Encode(d) == [if d.bit then 1 else 0]
  {
    Pow256Values();
    match d
    case BigInt(x) => TwosDigit(x, 8, i);
    case Int(x) => TwosDigit(x, 4, i);
    case SmallInt(x) => TwosDigit(x, 2, i);
    case TinyInt(x) => TwosDigit(x, 1, i);
    case Double(n) => LittleEndianDigit(n, 8, i);
    case Float(n) => LittleEndianDigit(n, 4, i);
    case _ =>
  }

  lemma IntTypeBytes()
    ensures EncodeType(Type(INT, 4)) == [5, 4, 0, 0, 0]
  {
    FourBytes(4);
    hide LittleEndian;
  }

  lemma SmallKeyBytes()
    ensures Encode(Int(5)) == [5, 0, 0, 0] && Encode(Int(3)) == [3, 0, 0, 0]
  {
    Pow256Values();
    FourBytes(5);
    FourBytes(3);
    hide LittleEndian;
  }

  lemma TypeRoundTrip(t: Type, rest: seq<byte>)
    ensures ParseType(EncodeType(t) + rest) == Ok(t, rest)
  {
    Pow256Values();
    var tail := LittleEndian(t.length, 4) + rest;
    assert LittleEndian(IdByte(t.id), 1) == [IdByte(t.id)];
    assert EncodeType(t) + rest == LittleEndian(IdByte(t.id), 1) + tail;
    ParseUintOfConcat(IdByte(t.id), 1, tail);
    ParseUintOfConcat(t.length, 4, rest);
  }

  lemma DataRoundTrip(d: Data, rest: seq<byte>)
    ensures ParseData(Encode(d) + rest, TypeOf(d)) == Ok(d, rest)
  {
    Pow256Values();
    match d
    case Ascii(s) => ParseBytesOfConcat(s, rest);
    case BigInt(x) => ParseIntOfConcat(x, 8, rest);
    case Boolean(b) =>
      var n := if b then 1 else 0;
      assert LittleEndian(n, 1) == [n];
      ParseUintOfConcat(n, 1, rest);
    case Double(n) => ParseUintOfConcat(n, 8, rest);
    case Float(n) => ParseUintOfConcat(n, 4, rest);
    case Int(x) => ParseIntOfConcat(x, 4, rest);
    case SmallInt(x) => ParseIntOfConcat(x, 2, rest);
    case TinyInt(x) => ParseIntOfConcat(x, 1, rest);
    case Blob(s) => ParseBytesOfConcat(s, rest);
  }

  // ----- the same through the buffer

  /** What a value was read from: its own bytes, except that any nonzero byte is a true BOOLEAN. */
  lemma DataParsed(s: seq<byte>, t: Type)
    requires ParseData(s, t).Ok? && TypeOf(ParseData(s, t).value) == t
    ensures var d := ParseData(s, t).value;
      && t.length <= |s| && ParseData(s, t).rest == s[t.length..]
      && (if d.Boolean? then t.length == 1 && (s[0] != 0 <==> d.bit) else s[..t.length] == Encode(d))
  {
    hide LittleEndian, FromLittleEndian, ToTwos, FromTwos;
    Pow256Values();
    var w := t.length;
    if w <= |s| {
      FromLittleEndianRoundTrip(s[..w]);
      if w > 0 { FromTwosInjective(FromLittleEndian(s[..w]), w); }
      if w == 1 { OneByte(s); }
    }
  }

  lemma OneByte(s: seq<byte>)
    requires |s| >= 1
    ensures FromLittleEndian(s[..1]) == s[0]
  {
    assert s[..1][1..] == [];
  }

  method PutType(buf: MemoryBuffer, t: Type) returns (ok: bool)
    requires buf.Valid()
    modifies buf, buf.data
    ensures buf.Put(EncodeType(t), ok)
  {
    ok := buf.PutBytes([IdByte(t.id)]);
    if ok {
      ok := buf.PutUint(t.length, 4);
    }
  }

  method GetType(buf: MemoryBuffer) returns (r: Option<Type>)
    requires buf.Valid()
    modifies buf
    ensures buf.Got(ParseType(old(buf.After())), r)
  {
    var b := buf.GetUint(1);
    if b.None? { return None; }
    var n := buf.GetUint(4);
    if n.None? { return None; }
    Pow256Values();
    var id := IdOf(b.value);
    if id.None? { return None; }
    return Some(Type(id.value, n.value));
  }

  method PutData(buf: MemoryBuffer, d: Data) returns (ok: bool)
    requires buf.Valid()
    modifies buf, buf.data
    ensures buf.Put(Encode(d), ok)
  {
    Pow256Values();
    match d
    case Ascii(s) => ok := buf.PutBytes(s);
    case BigInt(x) => ok := buf.PutUint(ToTwos(x, 8), 8);
    case Boolean(b) => ok := buf.PutBytes([if b then 1 else 0]);
    case Double(n) => ok := buf.PutUint(n, 8);
    case Float(n) => ok := buf.PutUint(n, 4);
    case Int(x) => ok := buf.PutUint(ToTwos(x, 4), 4);
    case SmallInt(x) => ok := buf.PutUint(ToTwos(x, 2), 2);
    case TinyInt(x) => ok := buf.PutUint(ToTwos(x, 1), 1);
    case Blob(s) => ok := buf.PutBytes(s);
  }

  method GetText(buf: MemoryBuffer, n: nat) returns (r: Option<ByteString>)
    requires buf.Valid()
    modifies buf
    ensures buf.Got(ParseText(old(buf.After()), n), r)
  {
    if n >= 0x8000_0000 { return None; }
    r := buf.GetBytes(n);
  }

  method GetData(buf: MemoryBuffer, t: Type) returns (r: Option<Data>)
    requires buf.Valid()
    modifies buf
    ensures buf.Got(ParseData(old(buf.After()), t), r)
  {
    Pow256Values();
    match t.id
    case ASCII =>
      var v := GetText(buf, t.length);
      r := if v.Some? then Some(Ascii(v.value)) else None;
    case BLOB =>
      var v := GetText(buf, t.length);
      r := if v.Some? then Some(Blob(v.value)) else None;
    case BOOLEAN =>
      var v := buf.GetUint(1);
      r := if v.Some? then Some(Boolean(v.value != 0)) else None;
    case DOUBLE =>
      var v := buf.GetUint(8);
      r := if v.Some? then Some(Double(v.value)) else None;
    case FLOAT =>
      var v := buf.GetUint(4);
      r := if v.Some? then Some(Float(v.value)) else None;
    case BIGINT =>
      var v := buf.GetInt(8);
      r := if v.Some? then Some(BigInt(v.value)) else None;
    case INT =>
      var v := buf.GetInt(4);
      r := if v.Some? then Some(Int(v.value)) else None;
    case SMALLINT =>
      var v := buf.GetInt(2);
      r := if v.Some? then Some(SmallInt(v.value)) else None;
    case TINYINT =>
      var v := buf.GetInt(1);
      r := if v.Some? then Some(TinyInt(v.value)) else None;
  }

  // ----- order

  /** std::string's <=: byte-wise lexicographic, a proper prefix coming first. */
  predicate TextLeq(a: seq<byte>, b: seq<byte>) {
    a == [] || (b != [] && (a[0] < b[0] || (a[0] == b[0] && TextLeq(a[1..], b[1..]))))
  }

  datatype Comparison = Greater | NotGreater | IncompatibleTypes | UncomparableType

  predicate IsKey(id: Id) {
    id in {ASCII, BIGINT, INT, SMALLINT, TINYINT}
  }

  /** Data::compare: true exactly for "strictly greater"; a different right-hand class throws.
      The IEEE comparison of float and double values is outside this model. */
  function Compare(a: Data, b: Data): (c: Comparison)
    requires !a.Double? && !a.Float?
  {
    if a.Boolean? || a.Blob? then UncomparableType
    else if TypeOf(a).id != TypeOf(b).id then IncompatibleTypes
    else
      var leq := match a
        case Ascii(s) => TextLeq(s, b.text)
        case BigInt(x) => x <= b.i64
        case Int(x) => x <= b.i32
        case SmallInt(x) => x <= b.i16
        case TinyInt(x) => x <= b.i8;
      if leq then NotGreater else Greater
  }

  /** DataCmp on key values, where it does not throw. */
  predicate Gt(a: Data, b: Data) {
    IsKey(TypeOf(a).id) && Compare(a, b) == Greater
  }

  lemma {:induction false} TextLeqTotal(a: seq<byte>, b: seq<byte>)
    ensures TextLeq(a, b) || TextLeq(b, a)
  {
    if a != [] && b != [] { TextLeqTotal(a[1..], b[1..]); }
  }

  lemma {:induction false} TextLeqAntisymmetric(a: seq<byte>, b: seq<byte>)
    requires TextLeq(a, b) && TextLeq(b, a)
    ensures a == b
  {
    if a != [] {
      TextLeqAntisymmetric(a[1..], b[1..]);
      assert a == [a[0]] + a[1..] && b == [b[0]] + b[1..];
    }
  }

  lemma {:induction false} TextLeqTransitive(a: seq<byte>, b: seq<byte>, c: seq<byte>)
    requires TextLeq(a, b) && TextLeq(b, c)
    ensures TextLeq(a, c)
  {
    if a != [] && a[0] == b[0] == c[0] { TextLeqTransitive(a[1..], b[1..], c[1..]); }
  }

  /** DataCmp is a strict total order on the key values of one kind. */
  lemma GtTrichotomy(a: Data, b: Data)
    requires TypeOf(a).id == TypeOf(b).id && IsKey(TypeOf(a).id)
    ensures Gt(a, b) || Gt(b, a) || a == b
    ensures !(Gt(a, b) && Gt(b, a))
    ensures !Gt(a, a)
  {
    if a.Ascii? {
      TextLeqTotal(a.text, b.text);
      TextLeqTotal(a.text, a.text);
      if TextLeq(a.text, b.text) && TextLeq(b.text, a.text) { TextLeqAntisymmetric(a.text, b.text); }
    }
  }

  lemma GtTransitive(a: Data, b: Data, c: Data)
    requires Gt(a, b) && Gt(b, c)
    ensures Gt(a, c)
  {
    if a.Ascii? {
      TextLeqTotal(b.text, a.text);
      TextLeqTotal(c.text, b.text);
      TextLeqTransitive(c.text, b.text, a.text);
      if TextLeq(a.text, c.text) { TextLeqTransitive(a.text, c.text, b.text); }
    }
  }

  /** On numbers DataCmp is "greater than". */
  lemma GtOfNumbers(a: int64, b: int64, c: int32, d: int32, e: int16, f: int16, g: int8, h: int8)
    ensures Gt(BigInt(a), BigInt(b)) <==> a > b
    ensures Gt(Int(c), Int(d)) <==> c > d
    ensures Gt(SmallInt(e), SmallInt(f)) <==> e > f
    ensures Gt(TinyInt(g), TinyInt(h)) <==> g > h
  {
  }

  /** On texts it is too: where they first differ the left one has the larger byte, or the right one ends. */
  lemma {:induction false} GtOfTexts(a: ByteString, b: ByteString)
    ensures Gt(Ascii(a), Ascii(b)) <==>
      exists i | 0 <= i < |a| && i <= |b| :: a[..i] == b[..i] && (i == |b| || a[i] > b[i])
  {
    hide TextLeq;
    if TextLeq(a, b) { TextLeqDiffers(a, b); } else { TextGtDiffers(a, b); }
  }

  lemma {:induction false} TextGtDiffers(a: seq<byte>, b: seq<byte>)
    requires !TextLeq(a, b)
    ensures exists i | 0 <= i < |a| && i <= |b| :: a[..i] == b[..i] && (i == |b| || a[i] > b[i])
  {
    if b == [] || a[0] > b[0] {
      assert a[..0] == b[..0];
    } else {
      TextGtDiffers(a[1..], b[1..]);
      var i :| 0 <= i < |a[1..]| && i <= |b[1..]| && a[1..][..i] == b[1..][..i]
        && (i == |b[1..]| || a[1..][i] > b[1..][i]);
      assert a[..i + 1] == [a[0]] + a[1..][..i] && b[..i + 1] == [b[0]] + b[1..][..i];
      assert a[i + 1] == a[1..][i];
    }
  }

  lemma {:induction false} TextLeqDiffers(a: seq<byte>, b: seq<byte>)
    requires TextLeq(a, b)
    ensures forall i | 0 <= i < |a| && i <= |b| && a[..i] == b[..i] :: i < |b| && a[i] <= b[i]
  {
    forall i | 0 <= i < |a| && i <= |b| && a[..i] == b[..i] ensures i < |b| && a[i] <= b[i] {
      if i > 0 {
        assert a[0] == a[..i][0] == b[..i][0] == b[0];
        TextLeqDiffers(a[1..], b[1..]);
        assert a[1..][..i - 1] == a[..i][1..] && b[1..][..i - 1] == b[..i][1..];
      }
    }
  }

  /** A comparison that throws: always for BOOLEAN and BLOB on the left, otherwise between kinds. */
  lemma CompareThrows(a: Data, b: Data)
    requires !a.Double? && !a.Float?
    ensures Compare(a, b) == UncomparableType <==> a.Boolean? || a.Blob?
    ensures Compare(a, b) == IncompatibleTypes <==>
      (a.Ascii? && !b.Ascii?) || (a.BigInt? && !b.BigInt?) || (a.Int? && !b.Int?)
      || (a.SmallInt? && !b.SmallInt?) || (a.TinyInt? && !b.TinyInt?)
  {
    hide TextLeq;
  }
}
