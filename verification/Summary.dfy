/** lib/mem/summary.cc: the first key of every index page, kept in memory and in one 4096-byte file. */
module Summaries {
  import opened Bytes
  import opened Buffer
  import opened Data
  import opened CatalogIo
  import IndexPages

  datatype SummaryKeys = SummaryKeys(ty: Type, keys: seq<Data>)

  /** find_page_number returns a uint8_t or throws. */
  datatype PageNumber = Number(n: byte) | Throws

  function SizeOf(n: nat, length: nat): (size: nat) {
    1 + TYPE_SIZE + n * length
  }

  function SummarySize(s: SummaryKeys): (n: nat) {
    SizeOf(|s.keys|, s.ty.length)
  }

  predicate HasRoom(s: SummaryKeys) {
    SummarySize(s) + s.ty.length <= IndexPages.PAGE_SIZE
  }

  function Push(s: SummaryKeys, k: Data): (r: SummaryKeys) {
    if HasRoom(s) then s.(keys := s.keys + [k]) else s
  }

  function EncodeKeys(ks: seq<Data>): (s: seq<byte>) {
    if ks == [] then [] else Encode(ks[0]) + EncodeKeys(ks[1..])
  }

  function EncodeSummary(x: SummaryKeys): (s: seq<byte>) {
    [|x.keys| % 256] + EncodeType(x.ty) + EncodeKeys(x.keys)
  }

  function ParseKeys(s: seq<byte>, ty: Type, n: nat): (r: Parsed<seq<Data>>)
    ensures r.Ok? ==> |r.value| == n
  {
    if n == 0 then Ok([], s) else
    var (k, s1) :- ParseData(s, ty);
    var (ks, s2) :- ParseKeys(s1, ty, n - 1);
    Ok([k] + ks, s2)
  }

  function ParseSummary(s: seq<byte>): (r: Parsed<SummaryKeys>)
    ensures r.Ok? ==> |r.value.keys| < 256
  {
    Pow256Values();
    var (n, s1) :- ParseUint(s, 1);
    var (ty, s2) :- ParseType(s1);
    var (keys, s3) :- ParseKeys(s2, ty, n);
    Ok(SummaryKeys(ty, keys), s3)
  }

  ghost predicate WellTyped(s: SummaryKeys) {
    forall i | 0 <= i < |s.keys| :: TypeOf(s.keys[i]) == s.ty
  }

  lemma {:induction false} KeysLength(ks: seq<Data>, ty: Type)
    requires forall i | 0 <= i < |ks| :: TypeOf(ks[i]) == ty
    ensures |EncodeKeys(ks)| == |ks| * ty.length
  {
    if ks != [] {
      KeysLength(ks[1..], ty);
      assert (|ks| - 1) * ty.length + ty.length == |ks| * ty.length;
    }
  }

  lemma SummaryLength(s: SummaryKeys)
    requires WellTyped(s)
    ensures |EncodeSummary(s)| == SummarySize(s)
  {
    KeysLength(s.keys, s.ty);
  }

  lemma {:induction false} KeysRoundTrip(ks: seq<Data>, ty: Type, rest: seq<byte>)
    requires forall i | 0 <= i < |ks| :: TypeOf(ks[i]) == ty
    ensures ParseKeys(EncodeKeys(ks) + rest, ty, |ks|) == Ok(ks, rest)
  {
    hide ParseData, Encode;
    if ks == [] {
      assert EncodeKeys(ks) + rest == rest;
    } else {
      KeysRoundTrip(ks[1..], ty, rest);
      assert EncodeKeys(ks) + rest == Encode(ks[0]) + (EncodeKeys(ks[1..]) + rest);
      DataRoundTrip(ks[0], EncodeKeys(ks[1..]) + rest);
      assert ks == [ks[0]] + ks[1..];
    }
  }

  lemma SummaryRoundTrip(x: SummaryKeys, rest: seq<byte>)
    requires WellTyped(x) && |x.keys| < 256
    ensures ParseSummary(EncodeSummary(x) + rest) == Ok(x, rest)
  {
    hide EncodeKeys, ParseKeys, EncodeType, ParseType, TypeOf;
    var s2 := EncodeKeys(x.keys) + rest;
    assert EncodeSummary(x) + rest == [|x.keys|] + (EncodeType(x.ty) + s2);
    CountByte(|x.keys|, EncodeType(x.ty) + s2);
    TypeRoundTrip(x.ty, s2);
    KeysRoundTrip(x.keys, x.ty, rest);
  }

  lemma {:induction false} KeysSplit(ks: seq<Data>, n: nat)
    requires n <= |ks|
    ensures EncodeKeys(ks) == EncodeKeys(ks[..n]) + EncodeKeys(ks[n..])
  {
    hide Encode;
    if n > 0 {
      KeysSplit(ks[1..], n - 1);
      assert ks[..n][1..] == ks[1..][..n - 1] && ks[n..] == ks[1..][n - 1..];
    }
  }

  /** What is loaded from a summary with any number of keys: as many as the one-byte counter says. */
  lemma SummaryLoads(x: SummaryKeys, rest: seq<byte>)
    requires WellTyped(x)
    ensures var n := |x.keys| % 256;
      ParseSummary(EncodeSummary(x) + rest) == Ok(SummaryKeys(x.ty, x.keys[..n]), EncodeKeys(x.keys[n..]) + rest)
  {
    hide EncodeKeys, ParseSummary, EncodeType, TypeOf;
    var n := |x.keys| % 256;
    KeysSplit(x.keys, n);
    var y, tail := SummaryKeys(x.ty, x.keys[..n]), EncodeKeys(x.keys[n..]) + rest;
    assert EncodeSummary(x) + rest == EncodeSummary(y) + tail;
    SummaryRoundTrip(y, tail);
  }

  /** A summary survives encoding exactly when its key count fits the one-byte counter. */
  lemma SummaryRoundTripIff(x: SummaryKeys, rest: seq<byte>)
    requires WellTyped(x)
    ensures ParseSummary(EncodeSummary(x) + rest) == Ok(x, rest) <==> |x.keys| <= 255
  {
    hide EncodeKeys, ParseSummary, EncodeSummary, WellTyped;
    SummaryLoads(x, rest);
    if |x.keys| < 256 { SummaryRoundTrip(x, rest); }
  }

  /** A key is refused exactly when count, type and keys would exceed 4096 bytes. */
  lemma RoomExact(s: SummaryKeys)
    ensures HasRoom(s) <==> 6 + (|s.keys| + 1) * s.ty.length <= 4096
  {
    assert (|s.keys| + 1) * s.ty.length == |s.keys| * s.ty.length + s.ty.length;
  }

  /** The file's limit alone keeps the counter from wrapping exactly for keys of at least 16 bytes. */
  lemma SummaryCountBound(length: uint32)
    ensures (forall n: nat :: SizeOf(n, length) <= IndexPages.PAGE_SIZE ==> n <= 255) <==> length >= 16
  {
    if length < 16 {
      assert SizeOf(256, length) <= SizeOf(256, 15) <= IndexPages.PAGE_SIZE;
    } else {
      forall n: nat ensures SizeOf(n, length) <= IndexPages.PAGE_SIZE ==> n <= 255 {
        assert n > 255 ==> n * length >= 256 * 16;
      }
    }
  }

  // ----- page lookup

  /** The position of the first key above `k`, or the number of keys. */
  function FirstGreater(keys: seq<Data>, k: Data): (i: nat)
    ensures i <= |keys|
    ensures forall j | 0 <= j < i :: !Gt(keys[j], k)
    ensures i < |keys| ==> Gt(keys[i], k)
  {
    if keys == [] || Gt(keys[0], k) then 0 else 1 + FirstGreater(keys[1..], k)
  }

  /** The page before the first greater key, cut to one byte: before page 0 comes 255. */
  function FindPage(s: SummaryKeys, k: Data): (r: PageNumber) {
    if |s.keys| == 0 then Throws
    else if |s.keys| == 1 then Number(0)
    else if TypeOf(k).id != s.ty.id || !IsKey(s.ty.id) then Throws
    else Number((FirstGreater(s.keys, k) - 1) % 256)
  }

  lemma GreaterStep(keys: seq<Data>, k: Data, i: nat)
    requires i < |keys|
    ensures FirstGreater(keys[i..], k) == if Gt(keys[i], k) then 0 else 1 + FirstGreater(keys[i + 1..], k)
  {
    hide Gt;
    assert keys[i..][1..] == keys[i + 1..];
  }

  method FindPageNumber(s: SummaryKeys, k: Data) returns (r: PageNumber)
    ensures r == FindPage(s, k)
  {
    hide Gt, FirstGreater, TypeOf;
    if |s.keys| == 0 { return Throws; }
    if |s.keys| == 1 { return Number(0); }
    if TypeOf(k).id != s.ty.id || !IsKey(s.ty.id) { return Throws; }
    assert s.keys[0..] == s.keys;
    for i := 0 to |s.keys|
      invariant FirstGreater(s.keys, k) == i + FirstGreater(s.keys[i..], k)
    {
      GreaterStep(s.keys, k, i);
      if Gt(s.keys[i], k) {
        return Number((i - 1) % 256);
      }
    }
    return Number((|s.keys| - 1) % 256);
  }

  ghost predicate Ascending(ks: seq<Data>) {
    forall i, j | 0 <= i < j < |ks| :: Gt(ks[j], ks[i])
  }

  ghost predicate Descends(ks: seq<Data>) {
    forall i, j | 0 <= i < j < |ks| :: Gt(ks[i], ks[j])
  }

  ghost predicate KeysOf(s: SummaryKeys) {
    IsKey(s.ty.id) && forall i | 0 <= i < |s.keys| :: TypeOf(s.keys[i]).id == s.ty.id
  }

  /** The page of an ascending sequence of first keys whose range holds `k`. */
  ghost predicate HoldsAscending(ks: seq<Data>, k: Data, p: nat) {
    p < |ks| && !Gt(ks[p], k) && (p + 1 < |ks| ==> Gt(ks[p + 1], k))
  }

  /** Likewise when the first key of a page is its largest. */
  ghost predicate HoldsDescending(ks: seq<Data>, k: Data, p: nat) {
    p < |ks| && !Gt(k, ks[p]) && (p + 1 < |ks| ==> Gt(k, ks[p + 1]))
  }

  lemma AscendingPosition(ks: seq<Data>, k: Data, p: nat)
    requires Ascending(ks) && ks != [] && !Gt(ks[0], k)
    ensures FirstGreater(ks, k) > 0 && (HoldsAscending(ks, k, p) <==> p + 1 == FirstGreater(ks, k))
  {
    hide Gt, FirstGreater;
    var i := FirstGreater(ks, k);
    assert i > 0;
    if HoldsAscending(ks, k, p) && p > i {
      GtTransitive(ks[p], ks[i], k);
    }
  }

  /** Over ascending first keys the lookup finds the one page whose range holds the key. */
  lemma AscendingLookup(s: SummaryKeys, k: Data, p: nat)
    requires KeysOf(s) && Ascending(s.keys) && 0 < |s.keys| <= 256
    requires TypeOf(k).id == s.ty.id && !Gt(s.keys[0], k)
    ensures HoldsAscending(s.keys, k, p) <==> FindPage(s, k) == Number(p % 256) && p < 256
  {
    hide Gt, FirstGreater, TypeOf, HoldsAscending, Ascending;
    AscendingPosition(s.keys, k, p);
  }

  /** Over the descending first keys that the builder stores, with two pages or more, the answer is
      255 for a key below the first one and the last page otherwise. */
  lemma DescendingLookup(s: SummaryKeys, k: Data)
    requires KeysOf(s) && Descends(s.keys) && 2 <= |s.keys|
    requires TypeOf(k).id == s.ty.id
    ensures FindPage(s, k) == Number(if Gt(s.keys[0], k) then 255 else (|s.keys| - 1) % 256)
  {
    var i := FirstGreater(s.keys, k);
    if 0 < i < |s.keys| {
      GtTransitive(s.keys[0], s.keys[i], k);
      assert false;
    }
  }

  /** So with 2 to 255 pages the page holding a stored key is never the one that is read. */
  lemma DescendingLookupMisses(s: SummaryKeys, k: Data, p: nat)
    requires KeysOf(s) && Descends(s.keys) && 2 <= |s.keys| <= 255
    requires TypeOf(k).id == s.ty.id && HoldsDescending(s.keys, k, p)
    ensures FindPage(s, k) != Number(p % 256)
  {
    DescendingLookup(s, k);
    if p > 0 {
      GtTrichotomy(k, s.keys[p]);
      if k != s.keys[p] { GtTransitive(s.keys[0], s.keys[p], k); }
    } else {
      GtTrichotomy(k, s.keys[0]);
    }
  }

  lemma EncodeKeysFirst(ks: seq<Data>, i: nat)
    requires i < |ks|
    ensures EncodeKeys(ks[i..]) == Encode(ks[i]) + EncodeKeys(ks[i + 1..])
  {
    hide Encode;
    assert ks[i..][1..] == ks[i + 1..];
  }

  lemma EncodeKeysNone()
    ensures EncodeKeys([]) == []
  {
  }

  // ----- the summary under construction

  class Summary {
    const ty: Type
    var keys: seq<Data>

    function Value(): (s: SummaryKeys)
      reads this
    {
      SummaryKeys(ty, keys)
    }

    constructor (ty: Type)
      ensures Value() == SummaryKeys(ty, [])
    {
      this.ty := ty;
      keys := [];
    }

    method PushBack(k: Data) returns (ok: bool)
      modifies this
      ensures ok == old(HasRoom(Value()))
      ensures Value() == Push(old(Value()), k)
    {
      if 1 + TYPE_SIZE + |keys| * ty.length + ty.length > IndexPages.PAGE_SIZE {
        return false;
      }
      keys := keys + [k];
      return true;
    }

    method PutKeys(buf: MemoryBuffer) returns (ok: bool)
      requires buf.Valid()
      modifies buf, buf.data
      ensures buf.Put(EncodeKeys(keys), ok)
    {
      hide Encode, EncodeKeys, Wrote, Writing;
      ghost var before, room, done, all := buf.Before(), buf.After(), [], EncodeKeys(keys);
      assert keys[0..] == keys && keys[|keys|..] == [];
      WritingBegins(before, room, all);
      for i := 0 to |keys|
        invariant buf.Valid() && Writing(before, room, buf.Before(), buf.After(), done, EncodeKeys(keys[i..]), all)
      {
        ghost var b, a, x := buf.Before(), buf.After(), Encode(keys[i]);
        EncodeKeysFirst(keys, i);
        ok := PutData(buf, keys[i]);
        WritingStep(before, room, b, a, buf.Before(), buf.After(), done, x, EncodeKeys(keys[i + 1..]), all);
        if !ok { return; }
        done := done + x;
      }
      EncodeKeysNone();
      WritingEnds(before, room, buf.Before(), buf.After(), done, all);
      return true;
    }

    method PutSummary(buf: MemoryBuffer) returns (ok: bool)
      requires buf.Valid()
      modifies buf, buf.data
      ensures buf.Put(EncodeSummary(Value()), ok)
    {
      ok := buf.PutBytes([|keys| % 256]);
      if !ok { return; }
      ghost var b1, a1 := buf.Before(), buf.After();
      ok := PutType(buf, ty);
      if !ok { return; }
      ghost var b2, a2 := buf.Before(), buf.After();
      WroteBoth(old(buf.Before()), old(buf.After()), b1, a1, b2, a2, [|keys| % 256], EncodeType(ty));
      ok := PutKeys(buf);
      if !ok { return; }
      WroteBoth(old(buf.Before()), old(buf.After()), b2, a2, buf.Before(), buf.After(),
                [|keys| % 256] + EncodeType(ty), EncodeKeys(keys));
    }
  }

  method GetKeys(buf: MemoryBuffer, ty: Type, n: nat) returns (r: Option<seq<Data>>)
    requires buf.Valid()
    modifies buf
    ensures buf.Got(ParseKeys(old(buf.After()), ty, n), r)
  {
    hide ParseData;
    var keys: seq<Data> := [];
    AfterNothing(ParseKeys(buf.After(), ty, n));
    for i := 0 to n
      invariant buf.Valid() && buf.data[..] == old(buf.data[..])
      invariant ParseKeys(old(buf.After()), ty, n) == After(keys, ParseKeys(buf.After(), ty, n - i))
    {
      var k := GetData(buf, ty);
      if k.None? { return None; }
      AfterStep(keys, k.value, ParseKeys(buf.After(), ty, n - i - 1));
      keys := keys + [k.value];
    }
    assert keys + [] == keys;
    return Some(keys);
  }

  method GetSummary(buf: MemoryBuffer) returns (r: Option<SummaryKeys>)
    requires buf.Valid()
    modifies buf
    ensures buf.Got(ParseSummary(old(buf.After())), r)
  {
    Pow256Values();
    var n := buf.GetUint(1);
    if n.None? { return None; }
    var ty := GetType(buf);
    if ty.None? { return None; }
    var keys := GetKeys(buf, ty.value, n.value);
    if keys.None? { return None; }
    return Some(SummaryKeys(ty.value, keys.value));
  }

  /** The summary of two pages that start with the keys 5 and 3. */
  lemma SummaryBytes()
    ensures EncodeSummary(SummaryKeys(Type(INT, 4), [Int(5), Int(3)])) ==
      [2] + [5, 4, 0, 0, 0] + ([5, 0, 0, 0] + [3, 0, 0, 0])
  {
    IntTypeBytes();
    SmallKeyBytes();
    TwoKeys(Int(5), Int(3));
    hide EncodeType, Encode, EncodeKeys;
  }

  lemma TwoKeys(a: Data, b: Data)
    ensures EncodeKeys([a, b]) == Encode(a) + Encode(b)
  {
    hide Encode;
    assert [a, b][1..] == [b] && [b][1..] == [];
    assert EncodeKeys([b]) == Encode(b) + EncodeKeys([]);
  }
}
