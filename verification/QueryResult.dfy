/** include/dht/result_serializer.hh and lib/api/cql3/query_result.cc: a record as text between nodes,
    and as the rows of a CQL result. */
module QueryResults {
  import opened Bytes
  import opened Data
  import opened Catalog
  import opened Decimal
  import opened Clusters

  const COMMA: byte := 44
  const BAR: byte := 124

  // ----- split

  /** std::string::find: the first position of the token. */
  function FindToken(s: seq<byte>, t: seq<byte>): (r: Option<nat>)
    ensures r.Some? ==> r.value + |t| <= |s| && s[r.value..r.value + |t|] == t
  {
    if |s| < |t| then None
    else if s[..|t|] == t then Some(0)
    else if s == [] then None
    else match FindToken(s[1..], t) { case None => None case Some(i) => Some(i + 1) }
  }

  function Split(s: seq<byte>, t: seq<byte>): (parts: seq<seq<byte>>)
    requires t != []
    decreases |s|
  {
    if s == [] then []
    else match FindToken(s, t)
      case None => [s]
      case Some(i) =>
        var rest := s[i + |t|..];
        if rest == [] then [s[..i], []] else [s[..i]] + Split(rest, t)
  }

  function Join(parts: seq<seq<byte>>, t: seq<byte>): (s: seq<byte>) {
    if parts == [] then [] else if |parts| == 1 then parts[0] else parts[0] + t + Join(parts[1..], t)
  }

  method SplitString(str: seq<byte>, token: seq<byte>) returns (result: seq<seq<byte>>)
    requires token != []
    ensures result == Split(str, token)
  {
    hide FindToken, Split, Splitting;
    result := [];
    var s := str;
    SplittingBegins(str, token);
    while s != []
      invariant Splitting(Split(str, token), result, s, token)
      decreases |s|
    {
      SplittingStep(Split(str, token), result, s, token);
      var index := FindToken(s, token);
      if index.Some? {
        var head := s[..index.value];
        result := result + [head];
        s := s[index.value + |token|..];
        if s == [] {
          result := result + [s];
        }
      } else {
        result := result + [s];
        s := [];
      }
    }
    SplittingEnds(Split(str, token), result, token);
  }

  /** The parts so far and the split of what is left make up all parts. */
  ghost predicate Splitting(all: seq<seq<byte>>, parts: seq<seq<byte>>, s: seq<byte>, t: seq<byte>)
    requires t != []
  {
    all == parts + Split(s, t)
  }

  lemma SplittingBegins(s: seq<byte>, t: seq<byte>)
    requires t != []
    ensures Splitting(Split(s, t), [], s, t)
  {
  }

  lemma SplittingStep(all: seq<seq<byte>>, parts: seq<seq<byte>>, s: seq<byte>, t: seq<byte>)
    requires t != [] && s != [] && Splitting(all, parts, s, t)
    ensures match FindToken(s, t)
      case None => Splitting(all, parts + [s], [], t)
      case Some(i) =>
        var rest := s[i + |t|..];
        Splitting(all, if rest == [] then parts + [s[..i]] + [rest] else parts + [s[..i]], rest, t)
  {
    hide FindToken;
  }

  lemma SplittingEnds(all: seq<seq<byte>>, parts: seq<seq<byte>>, t: seq<byte>)
    requires t != [] && Splitting(all, parts, [], t)
    ensures all == parts
  {
  }

  /** Joining the parts gives the string back, for every string and nonempty token. */
  lemma {:induction false} JoinOfSplit(s: seq<byte>, t: seq<byte>)
    requires t != []
    ensures Join(Split(s, t), t) == s
    decreases |s|
  {
    hide FindToken;
    if s != [] {
      match FindToken(s, t)
      case None =>
      case Some(i) =>
        var rest := s[i + |t|..];
        assert s == s[..i] + s[i..i + |t|] + rest;
        if rest == [] {
          assert Split(s, t)[1..] == [[]];
          assert Join([[]], t) == [];
        } else {
          JoinOfSplit(rest, t);
          var parts := Split(s, t);
          assert parts[1..] == Split(rest, t);
          SplitNonempty(rest, t);
        }
    }
  }

  lemma SplitNonempty(s: seq<byte>, t: seq<byte>)
    requires t != [] && s != []
    ensures Split(s, t) != []
  {
  }

  lemma {:induction false} FindFirst(a: seq<byte>, t: seq<byte>, rest: seq<byte>)
    requires t != [] && t[0] !in a
    ensures FindToken(a + t + rest, t) == Some(|a|)
    decreases |a|
  {
    var s := a + t + rest;
    if a == [] {
      assert s[..|t|] == t;
    } else {
      assert s[0] == a[0];
      assert s[..|t|] != t;
      assert s[1..] == a[1..] + t + rest;
      FindFirst(a[1..], t, rest);
    }
  }

  lemma {:induction false} FindNone(s: seq<byte>, c: byte)
    requires c !in s
    ensures FindToken(s, [c]) == None
  {
    if s != [] {
      assert s[..1] == [s[0]];
      FindNone(s[1..], c);
    }
  }

  /** The first occurrence has no earlier one. */
  lemma {:induction false} BeforeFound(s: seq<byte>, c: byte)
    ensures match FindToken(s, [c]) case None => c !in s case Some(i) => i < |s| && c !in s[..i]
  {
    if s != [] {
      assert s[..1] == [s[0]];
      BeforeFound(s[1..], c);
      assert s == [s[0]] + s[1..];
      var r := FindToken(s[1..], [c]);
      if s[0] != c && r.Some? { assert s[..r.value + 1] == [s[0]] + s[1..][..r.value]; }
    }
  }

  ghost predicate Free(parts: seq<seq<byte>>, c: byte) {
    forall i | 0 <= i < |parts| :: c !in parts[i]
  }

  /** For a one-byte token, splitting recovers every list of token-free parts but the lone empty one. */
  lemma {:induction false} SplitOfJoin(parts: seq<seq<byte>>, c: byte)
    requires parts != [] && parts != [[]] && Free(parts, c)
    ensures Split(Join(parts, [c]), [c]) == parts
    decreases |parts|
  {
    hide FindToken;
    if |parts| == 1 {
      FindNone(parts[0], c);
    } else {
      var rest := Join(parts[1..], [c]);
      var s := Join(parts, [c]);
      assert s == parts[0] + [c] + rest;
      FindFirst(parts[0], [c], rest);
      assert s[..|parts[0]|] == parts[0] && s[|parts[0]| + 1..] == rest;
      if parts[1..] == [[]] {
        assert rest == [] && parts == [parts[0]] + parts[1..];
        assert Split(s, [c]) == [parts[0], []];
      } else {
        SplitOfJoin(parts[1..], c);
        assert rest != [] by { JoinNonempty(parts[1..], [c]); }
        assert parts == [parts[0]] + parts[1..];
      }
    }
  }

  lemma JoinNonempty(parts: seq<seq<byte>>, t: seq<byte>)
    requires parts != [] && parts != [[]] && t != []
    ensures Join(parts, t) != []
  {
    if |parts| == 1 { assert parts == [parts[0]]; }
  }

  /** No part of a split holds the one-byte token it was split at. */
  lemma {:induction false} SplitFree(s: seq<byte>, c: byte)
    ensures Free(Split(s, [c]), c)
    decreases |s|
  {
    hide FindToken;
    BeforeFound(s, c);
    var i := FindToken(s, [c]);
    if s != [] && i.Some? { SplitFree(s[i.value + 1..], c); }
  }

  // ----- the record as text

  function Item(v: Data): (s: seq<byte>)
    requires Printable(v)
  {
    Print(v) + [COMMA] + ToString(IdByte(TypeOf(v).id)) + [COMMA] + ToString(TypeOf(v).length)
  }

  predicate AllPrintable(r: Record) {
    forall i | 0 <= i < |r| :: Printable(r[i])
  }

  function Serialize(r: Record): (s: seq<byte>)
    requires AllPrintable(r)
  {
    if r == [] then [] else Item(r[0]) + [BAR] + Serialize(r[1..])
  }

  method SerializeRecord(r: Record) returns (result: seq<byte>)
    requires AllPrintable(r)
    ensures result == Serialize(r)
  {
    hide Item;
    result := [];
    assert r[0..] == r;
    for i := 0 to |r|
      invariant result + Serialize(r[i..]) == Serialize(r)
    {
      assert r[i..][1..] == r[i + 1..];
      assert result + (Item(r[i]) + [BAR] + Serialize(r[i + 1..]))
        == (result + (Item(r[i]) + [BAR])) + Serialize(r[i + 1..]);
      result := result + (Item(r[i]) + [BAR]);
    }
    assert result + [] == result;
  }

  /** What select_result reads off one value: its text, type id and length. */
  datatype Attributes = Attributes(text: seq<byte>, id: int, length: int)

  function ReadItem(val: seq<byte>): (a: Option<Attributes>) {
    var parts := Split(val, [COMMA]);
    if |parts| < 3 then None else Some(Attributes(parts[0], Atoi(parts[1]), Atoi(parts[2])))
  }

  function AttributesOf(v: Data): (a: Attributes)
    requires Printable(v)
  {
    Attributes(Print(v), IdByte(TypeOf(v).id), TypeOf(v).length)
  }

  /** Neither separator occurs in the printed value. */
  predicate Clean(v: Data) {
    Printable(v) && COMMA !in Print(v) && BAR !in Print(v)
  }

  lemma NumberIsClean(x: int)
    ensures COMMA !in ToString(x) && BAR !in ToString(x)
  {
    forall i | 0 <= i < |ToString(x)| ensures ToString(x)[i] != COMMA && ToString(x)[i] != BAR {
      assert IsDigit(ToString(x)[i]) || ToString(x)[i] == 45;
    }
  }

  lemma ItemReads(v: Data)
    requires Clean(v)
    ensures ReadItem(Item(v)) == Some(AttributesOf(v))
    ensures BAR !in Item(v) && Item(v) != []
  {
    hide Print, ToString, Split, Atoi;
    var id, n := IdByte(TypeOf(v).id), TypeOf(v).length;
    NumberIsClean(id);
    NumberIsClean(n);
    var parts := [Print(v), ToString(id), ToString(n)];
    assert parts[1..] == [ToString(id), ToString(n)] && parts[1..][1..] == [ToString(n)];
    assert Join(parts[1..], [COMMA]) == ToString(id) + [COMMA] + ToString(n);
    assert Join(parts, [COMMA]) == Print(v) + [COMMA] + (ToString(id) + [COMMA] + ToString(n));
    assert Item(v) == Join(parts, [COMMA]);
    SplitOfJoin(parts, COMMA);
    AtoiOfToString(id);
    AtoiOfToString(n);
  }

  function Items(r: Record): (s: seq<seq<byte>>)
    requires AllPrintable(r)
    ensures |s| == |r| && forall i | 0 <= i < |r| :: s[i] == Item(r[i])
  {
    seq(|r|, i requires 0 <= i < |r| => Item(r[i]))
  }

  lemma {:induction false} SerializeIsJoin(r: Record)
    requires AllPrintable(r)
    ensures Serialize(r) == Join(Items(r) + [[]], [BAR])
  {
    hide Item;
    var parts := Items(r) + [[]];
    if r == [] {
      assert parts == [[]];
    } else {
      SerializeIsJoin(r[1..]);
      assert parts[1..] == Items(r[1..]) + [[]];
    }
  }

  /** A serialized record splits into its values and one empty string, and each value into what it
      was printed from: nothing is lost on the way between nodes. */
  lemma Transport(r: Record)
    requires r != [] && forall i | 0 <= i < |r| :: Clean(r[i])
    ensures AllPrintable(r)
    ensures Split(Serialize(r), [BAR]) == Items(r) + [[]]
    ensures forall i | 0 <= i < |r| :: ReadItem(Items(r)[i]) == Some(AttributesOf(r[i]))
  {
    hide Item, Split, ReadItem, AttributesOf, Print;
    var parts := Items(r) + [[]];
    SerializeIsJoin(r);
    forall i | 0 <= i < |r| ensures BAR !in Items(r)[i] && ReadItem(Items(r)[i]) == Some(AttributesOf(r[i])) {
      ItemReads(r[i]);
    }
    SplitOfJoin(parts, BAR);
  }

  /** What the receiving side makes of a serialized record; the empty part after the last bar is skipped. */
  function ReadParts(parts: seq<seq<byte>>): (a: seq<Option<Attributes>>) {
    if parts == [] then []
    else (if parts[0] == [] then [] else [ReadItem(parts[0])]) + ReadParts(parts[1..])
  }

  function Receive(s: seq<byte>): (a: seq<Option<Attributes>>) {
    ReadParts(Split(s, [BAR]))
  }

  function Sent(r: Record): (a: seq<Option<Attributes>>)
    requires AllPrintable(r)
    ensures |a| == |r| && forall i | 0 <= i < |r| :: a[i] == Some(AttributesOf(r[i]))
  {
    seq(|r|, i requires 0 <= i < |r| => Some(AttributesOf(r[i])))
  }

  lemma {:induction false} ReadPartsOfItems(parts: seq<seq<byte>>, a: seq<Option<Attributes>>)
    requires |parts| == |a| + 1 && parts[|a|] == []
    requires forall i | 0 <= i < |a| :: parts[i] != [] && ReadItem(parts[i]) == a[i]
    ensures ReadParts(parts) == a
    decreases |a|
  {
    hide ReadItem;
    if a == [] {
      assert parts[1..] == [] && ReadParts(parts[1..]) == [];
    } else {
      ReadPartsOfItems(parts[1..], a[1..]);
      assert a == [a[0]] + a[1..];
    }
  }

  /** A received text is free of both separators, whatever was sent. */
  lemma {:induction false} ReceivedClean(parts: seq<seq<byte>>, i: nat)
    requires Free(parts, BAR) && i < |ReadParts(parts)| && ReadParts(parts)[i].Some?
    ensures COMMA !in ReadParts(parts)[i].value.text && BAR !in ReadParts(parts)[i].value.text
  {
    hide Split, Atoi;
    if parts[0] != [] && i == 0 {
      var fields := Split(parts[0], [COMMA]);
      SplitFree(parts[0], COMMA);
      JoinOfSplit(parts[0], [COMMA]);
      assert fields[0] == parts[0] || fields[0] + [COMMA] <= parts[0];
      assert BAR !in parts[0];
      assert forall j | 0 <= j < |fields[0]| :: fields[0][j] == parts[0][j];
    } else {
      ReceivedClean(parts[1..], if parts[0] == [] then i else i - 1);
    }
  }

  /** A record arrives as it was sent, field by field, exactly when no printed value holds a
      separator; and then its text splits into exactly its items. */
  lemma TransportIff(r: Record)
    requires AllPrintable(r)
    ensures Receive(Serialize(r)) == Sent(r) <==> forall i | 0 <= i < |r| :: Clean(r[i])
    ensures r != [] ==>
      ((Split(Serialize(r), [BAR]) == Items(r) + [[]]
        && forall i | 0 <= i < |r| :: ReadItem(Items(r)[i]) == Some(AttributesOf(r[i])))
       <==> forall i | 0 <= i < |r| :: Clean(r[i]))
  {
    hide Item, Split, ReadItem, Print, Serialize;
    if forall i | 0 <= i < |r| :: Clean(r[i]) {
      CleanArrives(r);
    }
    if Receive(Serialize(r)) == Sent(r) {
      ArrivedClean(r);
    }
    if r != [] && Split(Serialize(r), [BAR]) == Items(r) + [[]]
       && forall i | 0 <= i < |r| :: ReadItem(Items(r)[i]) == Some(AttributesOf(r[i])) {
      forall i | 0 <= i < |r| ensures Items(r)[i] != [] { ItemNonempty(r[i]); }
      ReadPartsOfItems(Items(r) + [[]], Sent(r));
      ArrivedClean(r);
    }
  }

  lemma ItemNonempty(v: Data)
    requires Printable(v)
    ensures Item(v) != []
  {
  }

  lemma CleanArrives(r: Record)
    requires forall i | 0 <= i < |r| :: Clean(r[i])
    ensures AllPrintable(r) && Receive(Serialize(r)) == Sent(r)
    ensures r != [] ==> Split(Serialize(r), [BAR]) == Items(r) + [[]]
    ensures forall i | 0 <= i < |r| :: ReadItem(Items(r)[i]) == Some(AttributesOf(r[i]))
  {
    hide Item, ReadItem, Print;
    if r == [] {
      assert Serialize(r) == [] && Split([], [BAR]) == [];
      assert Sent(r) == [];
    } else {
      hide Split, Serialize;
      Transport(r);
      forall i | 0 <= i < |r| ensures Items(r)[i] != [] { ItemNonempty(r[i]); }
      ReadPartsOfItems(Items(r) + [[]], Sent(r));
    }
  }

  lemma ArrivedClean(r: Record)
    requires AllPrintable(r) && Receive(Serialize(r)) == Sent(r)
    ensures forall i | 0 <= i < |r| :: Clean(r[i])
  {
    hide Item, ReadItem, Print, Serialize, Split;
    SplitFree(Serialize(r), BAR);
    forall i | 0 <= i < |r| ensures Clean(r[i]) {
      ReceivedClean(Split(Serialize(r), [BAR]), i);
      assert Sent(r)[i] == Some(AttributesOf(r[i]));
    }
  }

  /** The text "a,b" does not arrive. */
  lemma CommaLost()
    ensures var r: Record := [Ascii([97, COMMA, 98])]; Receive(Serialize(r)) != Sent(r)
  {
    var r: Record := [Ascii([97, COMMA, 98])];
    assert Print(r[0])[1] == COMMA;
    hide Receive, Serialize, Sent;
    assert !Clean(r[0]);
    TransportIff(r);
  }

  // ----- count: the length field of a CQL value

  /** The [short] and [int] of section 3 of the CQL binary protocol v3: w bytes, big-endian. */
  function BigEndianBytes(n: nat, w: nat): (s: seq<byte>)
    ensures |s| == w
    decreases w
  {
    if w == 0 then [] else BigEndianBytes(n / 256, w - 1) + [n % 256]
  }

  predicate Countable(size: int) {
    0 <= size < 0x100_0000 && size != 256 && size != 65536
  }

  /** What count leaves in the `breadth` bytes that held `old`. */
  function CountImage(old': seq<byte>, size: int): (s: seq<byte>)
    ensures |s| == |old'|
  {
    if Countable(size) then BigEndianBytes(size, |old'|)
    else if size < 0 && old' != [] then Zeros(|old'| - 1) + [size % 256]
    else old'
  }

  /** A char read back as a signed number. */
  function Signed(b: byte): (x: int) {
    if b < 128 then b else b - 256
  }

  /** `s` written over `w` from position o on. */
  ghost function Splice(w: seq<byte>, o: nat, s: seq<byte>): (r: seq<byte>)
    requires o + |s| <= |w|
    ensures |r| == |w|
  {
    w[..o] + s + w[o + |s|..]
  }

  lemma SpliceIs(now: seq<byte>, was: seq<byte>, o: nat, s: seq<byte>)
    requires |now| == |was| && o + |s| <= |was|
    requires forall j | 0 <= j < o || o + |s| <= j < |was| :: now[j] == was[j]
    requires forall j | o <= j < o + |s| :: now[j] == s[j - o]
    ensures now == Splice(was, o, s)
  {
  }

  lemma SpliceTwice(w: seq<byte>, o: nat, s: seq<byte>, t: seq<byte>)
    requires o + |s| + |t| <= |w|
    ensures Splice(Splice(w, o, s), o + |s|, t) == Splice(w, o, s + t)
  {
  }

  lemma SpliceBehind(w: seq<byte>, o: nat, s: seq<byte>, a: nat, b: nat)
    requires o + |s| <= a <= b <= |w|
    ensures Splice(w, o, s)[a..b] == w[a..b]
  {
  }

  lemma BigEndianDigits(n: nat, w: nat, i: nat)
    requires i < w && w <= 4 && n < 0x100_0000
    ensures BigEndianBytes(n, w)[i]
         == if w - i == 1 then n % 256 else if w - i == 2 then n / 256 % 256 else if w - i == 3 then n / 65536 else 0
    decreases w
  {
    if i < w - 1 {
      BigEndianDigits(n / 256, w - 1, i);
    }
  }

  /** The value a loop turn of count stores at position k of `breadth` bytes. */
  function CountDigit(body: seq<byte>, size: int, breadth: nat, k: nat, i: nat): (b: byte)
    requires k < breadth && i < |body| && k <= i
  {
    if 65536 < size < 0x100_0000 then
      if k + 3 == breadth then size / 65536 % 256
      else if k + 2 == breadth then (if i >= 1 then (size - Signed(body[i - 1]) * 65536) / 256 % 256 else 0)
      else if k + 1 == breadth then
        (if i >= 2 then (size - Signed(body[i - 1]) * 256 - Signed(body[i - 2]) * 65536) % 256 else 0)
      else 0
    else if 256 < size < 65536 then
      if k + 2 == breadth then size / 256 % 256
      else if k + 1 == breadth then (if i >= 1 then (size - Signed(body[i - 1]) * 256) % 256 else 0)
      else 0
    else if k + 1 == breadth then size % 256 else 0
  }

  /** Reading a stored digit back as a signed char shifts the difference by a multiple of 2^24. */
  lemma MiddleDigit(size: int, high: byte)
    ensures 0 <= size < 0x100_0000 && high == size / 65536 ==>
      (size - Signed(high) * 65536) / 256 % 256 == size / 256 % 256
  {
    if 0 <= size < 0x100_0000 && high == size / 65536 {
      var low := size - high * 65536;
      assert 0 <= low < 65536;
      assert size / 256 == high * 256 + low / 256;
      if high >= 128 { assert (low + 256 * 65536) / 256 == low / 256 + 65536; }
    }
  }

  lemma LowDigit(size: int, b1: byte, b2: byte)
    ensures (size - Signed(b1) * 256 - Signed(b2) * 65536) % 256 == size % 256
    ensures (size - Signed(b1) * 256) % 256 == size % 256
  {
    var x, y := Signed(b1), Signed(b2);
    assert size - x * 256 - y * 65536 == size + 256 * (-x - 256 * y);
    assert size - x * 256 == size + 256 * (-x);
  }

  lemma DigitIsRight(body: seq<byte>, size: int, breadth: nat, k: nat, i: nat)
    requires k < breadth && i < |body| && k <= i && (breadth == 4 || (breadth == 2 && size < 65536))
    requires Countable(size)
    requires forall j | 0 <= j < k :: body[i - k + j] == BigEndianBytes(size, breadth)[j]
    ensures CountDigit(body, size, breadth, k, i) == BigEndianBytes(size, breadth)[k]
  {
    hide BigEndianBytes, Signed;
    BigEndianDigits(size, breadth, k);
    if k >= 1 {
      BigEndianDigits(size, breadth, k - 1);
      assert body[i - 1] == BigEndianBytes(size, breadth)[k - 1];
      MiddleDigit(size, body[i - 1]);
      LowDigit(size, body[i - 1], 0);
    }
    if k >= 2 { LowDigit(size, body[i - 1], body[i - 2]); }
  }

  /** count writes big-endian for every countable size, nothing for 256, 65536 and sizes from 2^24,
      and only the low byte of a negative number. */
  method Count(body: array<byte>, start: nat, breadth: nat, size: int32) returns (end: nat)
    requires start + breadth <= body.Length && (breadth == 4 || (breadth == 2 && size < 65536))
    modifies body
    ensures end == start + breadth
    ensures body[..] == Splice(old(body[..]), start, CountImage(old(body[..])[start..start + breadth], size))
  {
    hide BigEndianBytes, CountDigit;
    end := start + breadth;
    ghost var was := body[..];
    if size == 256 || size == 65536 || size >= 0x100_0000 {
      assert body[..] == Splice(was, start, was[start..end]);
      return;
    }
    for i := start to end
      invariant forall j | 0 <= j < start || end <= j < body.Length :: body[j] == old(body[j])
      invariant forall j | start <= j < i && Countable(size) :: body[j] == BigEndianBytes(size, breadth)[j - start]
      invariant forall j | start <= j < i && size < 0 :: body[j] == if j + 1 == end then size % 256 else 0
    {
      var digit := CountDigit(body[..], size, breadth, i - start, i);
      if Countable(size) {
        DigitIsRight(body[..], size, breadth, i - start, i);
      } else {
        NegativeDigit(body[..], size, breadth, i - start, i);
      }
      body[i] := digit;
    }
    ghost var image := CountImage(was[start..end], size);
    SpliceIs(body[..], was, start, image);
  }

  lemma NegativeDigit(body: seq<byte>, size: int, breadth: nat, k: nat, i: nat)
    requires k < breadth && i < |body| && k <= i && size < 0
    ensures CountDigit(body, size, breadth, k, i) == if k + 1 == breadth then size % 256 else 0
  {
  }

  /** count produces the protocol's four-byte [int] of n, whatever the buffer held, exactly when
      0 <= n < 2^24 and n is neither 256 nor 65536. */
  lemma CountIff(n: int32)
    ensures 0 <= ToTwos(n, 4)
    ensures (forall old': seq<byte> | |old'| == 4 :: CountImage(old', n) == BigEndianBytes(ToTwos(n, 4), 4))
      <==> Countable(n)
  {
    hide BigEndianBytes;
    Pow256Values();
    if !Countable(n) {
      var right := BigEndianBytes(ToTwos(n, 4), 4);
      if n < 0 {
        FirstOfNegative(n);
        assert CountImage(Zeros(4), n)[0] == 0;
      } else {
        var wrong := right[0 := if right[0] == 0 then 1 else 0];
        assert wrong[0] != right[0];
        assert CountImage(wrong, n) == wrong;
      }
      assert exists old': seq<byte> :: |old'| == 4 && CountImage(old', n) != right;
    }
  }

  lemma FirstOfNegative(n: int32)
    requires n < 0
    ensures 0 <= ToTwos(n, 4) && BigEndianBytes(ToTwos(n, 4), 4)[0] >= 128
  {
    Pow256Values();
    var m := ToTwos(n, 4);
    assert BigEndianBytes(m, 4)[0] == BigEndianBytes(m / 256, 3)[0];
    assert BigEndianBytes(m / 256, 3)[0] == BigEndianBytes(m / 256 / 256, 2)[0];
    assert BigEndianBytes(m / 256 / 256, 2)[0] == BigEndianBytes(m / 256 / 256 / 256, 1)[0];
    assert BigEndianBytes(m / 256 / 256 / 256, 1) == [m / 256 / 256 / 256 % 256];
  }

  // ----- the record loop of select_result

  function ValueSize(v: Data): (n: nat) {
    4 + TypeOf(v).length
  }

  function RowSize(r: Record): (n: nat) {
    if r == [] then 0 else ValueSize(r[0]) + RowSize(r[1..])
  }

  /** A value in the bytes that held `old'`: its length as count writes it, then its content. */
  function ValueOver(old': seq<byte>, v: Data): (s: seq<byte>)
    requires Printable(v) && |old'| == ValueSize(v)
    ensures |s| == |old'|
  {
    CountImage(old'[..4], TypeOf(v).length) + (if v.Ascii? then v.text else CountImage(old'[4..], v.i32))
  }

  function RowOver(old': seq<byte>, r: Record): (s: seq<byte>)
    requires AllPrintable(r) && |old'| == RowSize(r)
    ensures |s| == |old'|
  {
    if r == [] then []
    else ValueOver(old'[..ValueSize(r[0])], r[0]) + RowOver(old'[ValueSize(r[0])..], r[1..])
  }

  /** A value as the protocol asks for it: an [int] length and its bytes. */
  function ProtocolValue(v: Data): (s: seq<byte>)
    requires Printable(v)
    ensures |s| == ValueSize(v)
  {
    Pow256Values();
    BigEndianBytes(TypeOf(v).length, 4) + (if v.Ascii? then v.text else BigEndianBytes(ToTwos(v.i32, 4), 4))
  }

  function ProtocolRow(r: Record): (s: seq<byte>)
    requires AllPrintable(r)
  {
    if r == [] then [] else ProtocolValue(r[0]) + ProtocolRow(r[1..])
  }

  predicate CountableValue(v: Data) {
    Countable(TypeOf(v).length) && (v.Int? ==> Countable(v.i32))
  }

  lemma ValueIsProtocolValue(old': seq<byte>, v: Data)
    requires Printable(v) && |old'| == ValueSize(v) && CountableValue(v)
    ensures ValueOver(old', v) == ProtocolValue(v)
  {
    hide BigEndianBytes;
    Pow256Values();
  }

  /** When every length and number is countable, the row is the protocol's, whatever was there before. */
  lemma {:induction false} RowIsProtocolRow(old': seq<byte>, r: Record)
    requires AllPrintable(r) && |old'| == RowSize(r) && forall i | 0 <= i < |r| :: CountableValue(r[i])
    ensures RowOver(old', r) == ProtocolRow(r)
  {
    hide ValueOver, ProtocolValue, ValueSize, Printable, CountableValue;
    if r != [] {
      ValueIsProtocolValue(old'[..ValueSize(r[0])], r[0]);
      RowIsProtocolRow(old'[ValueSize(r[0])..], r[1..]);
    }
  }

  lemma WrongCount(n: int32) returns (old': seq<byte>)
    requires !Countable(n)
    ensures 0 <= ToTwos(n, 4) && |old'| == 4 && CountImage(old', n) != BigEndianBytes(ToTwos(n, 4), 4)
  {
    hide BigEndianBytes, CountImage, ToTwos;
    CountIff(n);
    old' :| |old'| == 4 && CountImage(old', n) != BigEndianBytes(ToTwos(n, 4), 4);
  }

  /** Bytes over which an uncountable value is written wrongly. */
  lemma WrongValue(v: Data) returns (old': seq<byte>)
    requires Printable(v) && !CountableValue(v)
    ensures |old'| == ValueSize(v) && ValueOver(old', v) != ProtocolValue(v)
  {
    hide BigEndianBytes, CountImage;
    var n := TypeOf(v).length;
    if !Countable(n) {
      var head := WrongCount(n);
      old' := head + Zeros(n);
      assert old'[..4] == head && ToTwos(n, 4) == n;
      assert ValueOver(old', v)[..4] == CountImage(head, n) && ProtocolValue(v)[..4] == BigEndianBytes(n, 4);
    } else {
      var tail := WrongCount(v.i32);
      old' := Zeros(4) + tail;
      assert old'[4..] == tail;
      assert ValueOver(old', v)[4..] == CountImage(tail, v.i32);
      assert ProtocolValue(v)[4..] == BigEndianBytes(ToTwos(v.i32, 4), 4);
    }
  }

  lemma RowCons(a: seq<byte>, b: seq<byte>, r: Record)
    requires AllPrintable(r) && r != [] && |a| == ValueSize(r[0]) && |b| == RowSize(r[1..])
    ensures |a + b| == RowSize(r) && RowOver(a + b, r) == ValueOver(a, r[0]) + RowOver(b, r[1..])
  {
    hide ValueOver, ValueSize, Printable;
    assert (a + b)[..|a|] == a && (a + b)[|a|..] == b;
  }

  lemma {:induction false} WrongRow(r: Record, i: nat) returns (old': seq<byte>)
    requires AllPrintable(r) && i < |r| && !CountableValue(r[i])
    ensures |old'| == RowSize(r) && RowOver(old', r) != ProtocolRow(r)
    decreases i
  {
    hide ValueOver, ProtocolValue, ValueSize, Printable, CountableValue, RowOver, RowSize;
    var a, b := Zeros(ValueSize(r[0])), Zeros(RowSize(r[1..]));
    if i == 0 {
      a := WrongValue(r[0]);
    } else {
      b := WrongRow(r[1..], i - 1);
    }
    old' := a + b;
    RowCons(a, b, r);
    Differ(ValueOver(a, r[0]), RowOver(b, r[1..]), ProtocolValue(r[0]), ProtocolRow(r[1..]));
  }

  lemma Differ(a: seq<byte>, b: seq<byte>, c: seq<byte>, d: seq<byte>)
    requires |a| == |c| && (a != c || b != d)
    ensures a + b != c + d
  {
    assert a == (a + b)[..|a|] && c == (c + d)[..|a|] && b == (a + b)[|a|..] && d == (c + d)[|a|..];
  }

  /** The loop writes the protocol's row, whatever the buffer held, exactly when every length and
      number in it is countable. */
  lemma RowIsProtocolRowIff(r: Record)
    requires AllPrintable(r)
    ensures (forall old': seq<byte> | |old'| == RowSize(r) :: RowOver(old', r) == ProtocolRow(r))
       <==> forall i | 0 <= i < |r| :: CountableValue(r[i])
  {
    hide RowOver, ProtocolRow, RowSize, CountableValue, Printable;
    if forall i | 0 <= i < |r| :: CountableValue(r[i]) {
      forall old': seq<byte> | |old'| == RowSize(r)
        ensures RowOver(old', r) == ProtocolRow(r)
      {
        RowIsProtocolRow(old', r);
      }
    } else {
      var i :| 0 <= i < |r| && !CountableValue(r[i]);
      var old' := WrongRow(r, i);
    }
  }

  /** What append_record leaves in the bytes that held `old'`. */
  function RecordImage(old': seq<byte>, text: seq<byte>, id: int): (s: seq<byte>)
    requires id == IdByte(ASCII) ==> |text| == |old'|
    ensures |s| == |old'|
  {
    if id == IdByte(ASCII) then text else if id == IdByte(INT) then CountImage(old', Atoi(text)) else old'
  }

  /** append_record for the two printable kinds. */
  method AppendRecord(body: array<byte>, start: nat, size: nat, text: seq<byte>, id: int) returns (end: nat)
    requires start + size <= body.Length
    requires id == IdByte(ASCII) ==> |text| == size
    requires id == IdByte(INT) ==> size == 4 && -0x8000_0000 <= Atoi(text) < 0x8000_0000
    modifies body
    ensures end == start + size
    ensures body[..] == Splice(old(body[..]), start, RecordImage(old(body[..])[start..start + size], text, id))
  {
    hide CountImage;
    end := start + size;
    ghost var was := body[..];
    if id == IdByte(ASCII) {
      for i := 0 to size
        invariant forall j | 0 <= j < start || end <= j < body.Length :: body[j] == was[j]
        invariant forall j | 0 <= j < i :: body[start + j] == text[j]
      {
        body[start + i] := text[i];
      }
      assert body[..] == Splice(was, start, text);
    } else if id == IdByte(INT) {
      var _ := Count(body, start, 4, Atoi(text));
    } else {
      assert body[..] == Splice(was, start, was[start..end]);
    }
  }

  /** One value of the loop: count its length, then append its content. */
  method AppendValue(body: array<byte>, start: nat, val: seq<byte>, ghost v: Data) returns (end: nat)
    requires Clean(v) && val == Item(v) && start + ValueSize(v) <= body.Length && TypeOf(v).length < 0x8000_0000
    modifies body
    ensures end == start + ValueSize(v)
    ensures body[..] == Splice(old(body[..]), start, ValueOver(old(body[..])[start..start + ValueSize(v)], v))
  {
    hide CountImage, Atoi, Split, Item, ToString, Splice;
    ghost var w, n := body[..], start + ValueSize(v);
    ItemReads(v);
    if v.Int? { AtoiOfToString(v.i32); }
    var a := ReadItem(val).value;
    ghost var head := CountImage(w[start..start + 4], a.length);
    var mid := Count(body, start, 4, a.length);
    SpliceBehind(w, start, head, mid, n);
    end := AppendRecord(body, mid, a.length, a.text, a.id);
    ghost var tail := RecordImage(w[mid..n], a.text, a.id);
    SpliceTwice(w, start, head, tail);
    assert w[start..n][..4] == w[start..mid] && w[start..n][4..] == w[mid..n];
  }

  ghost predicate Sendable(r: Record) {
    forall i | 0 <= i < |r| :: Clean(r[i]) && TypeOf(r[i]).length < 0x8000_0000
  }

  /** The loop over the values of one serialized record; the empty string after the last bar is skipped. */
  method AppendRow(body: array<byte>, start: nat, recordStr: seq<byte>, ghost r: Record) returns (end: nat)
    requires Sendable(r) && r != []
    requires AllPrintable(r) && recordStr == Serialize(r) && start + RowSize(r) <= body.Length
    modifies body
    ensures end == start + RowSize(r)
    ensures body[..] == Splice(old(body[..]), start, RowOver(old(body[..])[start..start + RowSize(r)], r))
  {
    hide Split, Serialize, Clean, Printable, ValueOver, ValueSize, Item, Print, Splice, RowOver, RowSize, TypeOf;
    Transport(r);
    var values := SplitString(recordStr, [BAR]);
    end := start;
    ghost var w, n, done := body[..], start + RowSize(r), [];
    assert r[0..] == r;
    SpliceNothing(w, start);
    for i := 0 to |values| - 1
      invariant start <= end && |done| == end - start && end + RowSize(r[i..]) == n
      invariant body[..] == Splice(w, start, done)
      invariant done + RowOver(w[end..n], r[i..]) == RowOver(w[start..n], r)
    {
      ghost var v := r[i];
      assert values[i] == Item(v) && Clean(r[i]);
      CleanItem(v);
      RowStep(w, r, i, end, n);
      if |values[i]| > 0 {
        ghost var m := end + ValueSize(v);
        ghost var image := ValueOver(w[end..m], v);
        SpliceBehind(w, start, done, end, m);
        SpliceTwice(w, start, done, image);
        end := AppendValue(body, end, values[i], v);
        Regroup(done, image, RowOver(w[m..n], r[i + 1..]));
        done := done + image;
      }
    }
    RowEnds(w, r, done, start, end, n);
  }

  lemma Regroup<T>(a: seq<T>, b: seq<T>, c: seq<T>)
    ensures a + (b + c) == (a + b) + c
  {
  }

  lemma SpliceNothing(w: seq<byte>, o: nat)
    requires o <= |w|
    ensures Splice(w, o, []) == w
  {
  }

  lemma RowEnds(w: seq<byte>, r: Record, done: seq<byte>, start: nat, end: nat, n: nat)
    requires AllPrintable(r) && end + RowSize(r[|r|..]) == n <= |w| && start <= end && RowSize(r) == n - start
    requires done + RowOver(w[end..n], r[|r|..]) == RowOver(w[start..n], r)
    ensures end == n && done == RowOver(w[start..n], r)
  {
    assert r[|r|..] == [];
    assert done + [] == done;
  }

  lemma CleanItem(v: Data)
    requires Clean(v)
    ensures Printable(v) && Item(v) != []
  {
  }

  lemma RowStep(was: seq<byte>, r: Record, i: nat, e: nat, n: nat)
    requires AllPrintable(r) && i < |r| && e <= n <= |was| && e + RowSize(r[i..]) == n
    ensures ValueSize(r[i]) <= n - e && RowSize(r[i + 1..]) == n - e - ValueSize(r[i])
    ensures RowOver(was[e..n], r[i..])
         == ValueOver(was[e..e + ValueSize(r[i])], r[i]) + RowOver(was[e + ValueSize(r[i])..n], r[i + 1..])
  {
    hide ValueOver, ValueSize, Printable;
    var m := ValueSize(r[i]);
    assert r[i..][1..] == r[i + 1..];
    assert was[e..n][..m] == was[e..e + m] && was[e..n][m..] == was[e + m..n];
  }

  // ----- one record, written out

  lemma PrintedNumbers()
    ensures ToString(-7) == Text("-7") && ToString(0) == Text("0") && ToString(2) == Text("2")
    ensures ToString(4) == Text("4") && ToString(5) == Text("5")
  {
  }

  /** The text of a record with the number -7 and the text "ab". */
  lemma SerializedBytes()
    ensures COMMA == ',' as int && BAR == '|' as int
    ensures Serialize([Int(-7), Ascii(Text("ab"))]) == Text("-7,5,4") + Text("|") + (Text("ab,0,2") + Text("|"))
  {
    var r: Record := [Int(-7), Ascii(Text("ab"))];
    SerializedItems();
    assert Text("|") == [BAR];
    hide Item, Text;
    assert r[1..] == [r[1]] && r[1..][1..] == [];
    assert Serialize(r[1..]) == Item(r[1]) + [BAR] + Serialize([]);
  }

  lemma SerializedItems()
    ensures Item(Int(-7)) == Text("-7,5,4") && Item(Ascii(Text("ab"))) == Text("ab,0,2")
  {
    PrintedNumbers();
    hide ToString;
  }

  /** Its row in the protocol: two's complement and lengths, high byte first. */
  lemma RowBytes()
    ensures ProtocolRow([Int(-7), Ascii(Text("ab"))]) == [0, 0, 0, 4, 255, 255, 255, 249, 0, 0, 0, 2, 97, 98]
  {
    var r: Record := [Int(-7), Ascii(Text("ab"))];
    Pow256Values();
    FourBig(4);
    FourBig(2);
    FourBig(0xffff_fff9);
    hide BigEndianBytes;
    assert r[1..] == [r[1]] && r[1..][1..] == [];
    assert ProtocolRow(r[1..]) == ProtocolValue(r[1]) + ProtocolRow([]);
    assert ProtocolValue(r[0]) == [0, 0, 0, 4, 255, 255, 255, 249];
    assert ProtocolValue(r[1]) == [0, 0, 0, 2, 97, 98];
  }

  lemma FourBig(n: uint32)
    ensures BigEndianBytes(n, 4) == [n / 16777216, n / 65536 % 256, n / 256 % 256, n % 256]
  {
    assert BigEndianBytes(n / 16777216, 1) == [n / 16777216];
    assert BigEndianBytes(n / 65536, 2) == BigEndianBytes(n / 16777216, 1) + [n / 65536 % 256];
    assert BigEndianBytes(n / 256, 3) == BigEndianBytes(n / 65536, 2) + [n / 256 % 256];
  }
}
