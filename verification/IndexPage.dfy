/** lib/db/index_page.cc: one 4096-byte page of (sort key, data file offset) pairs. */
module IndexPages {
  import opened Bytes
  import opened Buffer
  import opened Data
  import opened OrderedMap

  const PAGE_SIZE: nat := 4096

  datatype Page = Page(ty: Type, keys: Entries<nat>)

  /** What find_offset yields: an offset, -1, or the exception of a comparison between kinds. */
  datatype Lookup = At(offset: nat) | Absent | Throws

  /** The size of `n` keys of the given length with their offsets, after the count and the type. */
  function SizeOf(n: nat, length: nat): (size: nat) {
    1 + TYPE_SIZE + n * (length + 8)
  }

  function PageSize(p: Page): (n: nat) {
    SizeOf(|p.keys|, p.ty.length)
  }

  predicate HasRoom(p: Page) {
    PageSize(p) + p.ty.length + 8 <= PAGE_SIZE
  }

  function EncodePair(e: (Data, nat)): (s: seq<byte>) {
    Encode(e.0) + LittleEndian(e.1, 8)
  }

  function EncodeKeys(ks: Entries<nat>): (s: seq<byte>) {
    if ks == [] then [] else EncodePair(ks[0]) + EncodeKeys(ks[1..])
  }

  function EncodePage(p: Page): (s: seq<byte>) {
    [|p.keys| % 256] + EncodeType(p.ty) + EncodeKeys(p.keys)
  }

  /** The source fills a std::map, so keys are put in order as they are read. */
  function ParseKeys(s: seq<byte>, ty: Type, n: nat, done: Entries<nat>): (r: Parsed<Entries<nat>>)
    ensures r.Ok? ==> |r.value| <= |done| + n
  {
    if n == 0 then Ok(done, s) else
    var (k, s1) :- ParseData(s, ty);
    var (o, s2) :- ParseUint(s1, 8);
    AssignLength(done, k, o);
    ParseKeys(s2, ty, n - 1, Assign(done, k, o))
  }

  /** Putting a second key next to one of an uncomparable type throws. */
  function ParsePage(s: seq<byte>): (r: Parsed<Page>)
    ensures r.Ok? ==> |r.value.keys| < 256
  {
    Pow256Values();
    var (n, s1) :- ParseUint(s, 1);
    var (ty, s2) :- ParseType(s1);
    if !IsKey(ty.id) && n > 1 then Fail else
    var (keys, s3) :- ParseKeys(s2, ty, n, []);
    Ok(Page(ty, keys), s3)
  }

  /** An offset with its top bit set is a negative off_t; -1 is the source's "not found". */
  function FindOffset(p: Page, k: Data): (r: Lookup) {
    if p.keys == [] then Absent
    else if TypeOf(k).id != p.ty.id || !IsKey(p.ty.id) then Throws
    else match Find(p.keys, k)
      case None => Absent
      case Some(o) => if o == 0xffff_ffff_ffff_ffff then Absent else At(o)
  }

  /** The pages the builder makes: keys of the page's type, largest first, offsets in the range of off_t. */
  ghost predicate WellFormed(p: Page) {
    && IsKey(p.ty.id)
    && Descending(p.keys)
    && (forall i | 0 <= i < |p.keys| :: TypeOf(p.keys[i].0) == p.ty)
    && (forall i | 0 <= i < |p.keys| :: p.keys[i].1 < 0x8000_0000_0000_0000)
  }

  lemma {:induction false} AssignLength<V>(m: Entries<V>, k: Data, v: V)
    ensures |Assign(m, k, v)| <= |m| + 1
  {
    if m != [] { AssignLength(m[1..], k, v); }
  }

  lemma {:induction false} KeysLength(ks: Entries<nat>, ty: Type)
    requires forall i | 0 <= i < |ks| :: TypeOf(ks[i].0) == ty
    ensures |EncodeKeys(ks)| == |ks| * (ty.length + 8)
  {
    if ks != [] {
      KeysLength(ks[1..], ty);
      assert (|ks| - 1) * (ty.length + 8) + (ty.length + 8) == |ks| * (ty.length + 8);
    }
  }

  lemma PageLength(p: Page)
    requires WellFormed(p)
    ensures |EncodePage(p)| == PageSize(p)
  {
    KeysLength(p.keys, p.ty);
  }

  lemma ParseKeysStep(k: Data, o: nat, n: nat, done: Entries<nat>, rest: seq<byte>)
    requires o < 0x8000_0000_0000_0000
    ensures ParseKeys(EncodePair((k, o)) + rest, TypeOf(k), n + 1, done)
         == ParseKeys(rest, TypeOf(k), n, Assign(done, k, o))
  {
    Pow256Values();
    assert EncodePair((k, o)) + rest == Encode(k) + (LittleEndian(o, 8) + rest);
    DataRoundTrip(k, LittleEndian(o, 8) + rest);
    ParseUintOfConcat(o, 8, rest);
  }

  ghost predicate Precedes(done: Entries<nat>, ks: Entries<nat>) {
    forall i, j | 0 <= i < |done| && 0 <= j < |ks| :: Gt(done[i].0, ks[j].0)
  }

  lemma NextKey(done: Entries<nat>, ks: Entries<nat>, ty: Type)
    requires WellFormed(Page(ty, ks)) && Precedes(done, ks) && ks != []
    ensures Assign(done, ks[0].0, ks[0].1) == done + [ks[0]]
    ensures WellFormed(Page(ty, ks[1..])) && Precedes(done + [ks[0]], ks[1..])
    ensures TypeOf(ks[0].0) == ty && ks[0].1 < 0x8000_0000_0000_0000
  {
    hide Gt, TypeOf;
    AssignAtEnd(done, ks[0].0, ks[0].1);
  }

  lemma {:induction false} KeysRoundTrip(done: Entries<nat>, ks: Entries<nat>, ty: Type, rest: seq<byte>)
    requires WellFormed(Page(ty, ks)) && Precedes(done, ks)
    ensures ParseKeys(EncodeKeys(ks) + rest, ty, |ks|, done) == Ok(done + ks, rest)
    decreases |ks|
  {
    hide WellFormed, Precedes, EncodePair, ParseData, TypeOf, Assign;
    if ks == [] {
      assert EncodeKeys(ks) + rest == rest && done + ks == done;
    } else {
      NextKey(done, ks, ty);
      KeysRoundTrip(done + [ks[0]], ks[1..], ty, rest);
      ParseKeysStep(ks[0].0, ks[0].1, |ks| - 1, done, EncodeKeys(ks[1..]) + rest);
      assert EncodeKeys(ks) + rest == EncodePair(ks[0]) + (EncodeKeys(ks[1..]) + rest);
      assert done + [ks[0]] + ks[1..] == done + ks;
    }
  }

  lemma PageRoundTrip(p: Page, rest: seq<byte>)
    requires WellFormed(p) && |p.keys| < 256
    ensures ParsePage(EncodePage(p) + rest) == Ok(p, rest)
  {
    hide EncodeKeys, ParseKeys, EncodeType, ParseType, Descending, TypeOf;
    var s2 := EncodeKeys(p.keys) + rest;
    assert EncodePage(p) + rest == [|p.keys|] + (EncodeType(p.ty) + s2);
    CountByte(|p.keys|, EncodeType(p.ty) + s2);
    TypeRoundTrip(p.ty, s2);
    assert [] + p.keys == p.keys;
    KeysRoundTrip([], p.keys, p.ty, rest);
  }

  lemma {:induction false} KeysSplit(ks: Entries<nat>, n: nat)
    requires n <= |ks|
    ensures EncodeKeys(ks) == EncodeKeys(ks[..n]) + EncodeKeys(ks[n..])
  {
    hide EncodePair;
    if n > 0 {
      KeysSplit(ks[1..], n - 1);
      assert ks[..n][1..] == ks[1..][..n - 1] && ks[n..] == ks[1..][n - 1..];
    }
  }

  /** What is loaded from a page with any number of keys: the first ones, as many as the one-byte
      counter says; the rest stays unread. */
  lemma PageLoads(p: Page, rest: seq<byte>)
    requires WellFormed(p)
    ensures var n := |p.keys| % 256;
      ParsePage(EncodePage(p) + rest) == Ok(Page(p.ty, p.keys[..n]), EncodeKeys(p.keys[n..]) + rest)
  {
    hide EncodeKeys, ParsePage, EncodeType, Gt, TypeOf;
    var n := |p.keys| % 256;
    KeysSplit(p.keys, n);
    var q, tail := Page(p.ty, p.keys[..n]), EncodeKeys(p.keys[n..]) + rest;
    assert EncodePage(p) + rest == EncodePage(q) + tail;
    PageRoundTrip(q, tail);
  }

  /** A page survives encoding exactly when its key count fits the one-byte counter. */
  lemma PageRoundTripIff(p: Page, rest: seq<byte>)
    requires WellFormed(p)
    ensures ParsePage(EncodePage(p) + rest) == Ok(p, rest) <==> |p.keys| <= 255
  {
    hide EncodeKeys, ParsePage, EncodePage, WellFormed;
    PageLoads(p, rest);
    if |p.keys| < 256 { PageRoundTrip(p, rest); }
  }

  /** A pair is refused exactly when count, type and pairs would exceed 4096 bytes. */
  lemma RoomExact(p: Page)
    ensures HasRoom(p) <==> 6 + (|p.keys| + 1) * (p.ty.length + 8) <= 4096
  {
    assert (|p.keys| + 1) * (p.ty.length + 8) == |p.keys| * (p.ty.length + 8) + p.ty.length + 8;
  }

  /** find_offset on a page of ordered keys: the key's offset, unless that is -1 as an off_t. */
  lemma FindOffsetExact(p: Page, k: Data, o: nat)
    requires IsKey(p.ty.id) && OfKind(p.keys, p.ty.id) && Descending(p.keys) && TypeOf(k).id == p.ty.id
    ensures FindOffset(p, k) == At(o) <==> k in ToMap(p.keys) && ToMap(p.keys)[k] == o && o != 0xffff_ffff_ffff_ffff
    ensures FindOffset(p, k) == Absent <==> k in ToMap(p.keys) ==> ToMap(p.keys)[k] == 0xffff_ffff_ffff_ffff
  {
    hide Find, ToMap, Gt, TypeOf;
    FindIsLookup(p.keys, k);
    if p.keys == [] { NoKeys(p.keys); }
  }

  lemma NoKeys<V>(m: Entries<V>)
    requires m == []
    ensures ToMap(m) == map[]
  {
  }

  /** The page limit alone keeps the counter from wrapping exactly for keys of at least 8 bytes. */
  lemma PageCountBound(length: uint32)
    ensures (forall n: nat :: SizeOf(n, length) <= PAGE_SIZE ==> n <= 255) <==> length >= 8
  {
    if length < 8 {
      assert SizeOf(256, length) <= SizeOf(256, 7) <= PAGE_SIZE;
    } else {
      forall n: nat ensures SizeOf(n, length) <= PAGE_SIZE ==> n <= 255 {
        assert n > 255 ==> n * (length + 8) >= 256 * 16;
      }
    }
  }

  lemma EncodeKeysFirst(ks: Entries<nat>, i: nat)
    requires i < |ks|
    ensures EncodeKeys(ks[i..]) == EncodePair(ks[i]) + EncodeKeys(ks[i + 1..])
  {
    hide EncodePair;
    assert ks[i..][1..] == ks[i + 1..];
  }

  lemma EncodeKeysNone()
    ensures EncodeKeys([]) == []
  {
  }

  class IndexPage {
    const ty: Type
    var keys: Entries<nat>

    function Value(): (p: Page)
      reads this
    {
      Page(ty, keys)
    }

    constructor (ty: Type)
      ensures Value() == Page(ty, [])
    {
      this.ty := ty;
      keys := [];
    }

    method PushBack(k: Data, offset: nat) returns (ok: bool)
      modifies this
      ensures ok == old(HasRoom(Value()))
      ensures keys == if ok then Assign(old(keys), k, offset) else old(keys)
    {
      if 1 + TYPE_SIZE + |keys| * (ty.length + 8) + ty.length + 8 > PAGE_SIZE {
        return false;
      }
      keys := Assign(keys, k, offset);
      return true;
    }

    method Clear()
      modifies this
      ensures keys == []
    {
      keys := [];
    }

    method PutKeys(buf: MemoryBuffer) returns (ok: bool)
      requires buf.Valid()
      modifies buf, buf.data
      ensures buf.Put(EncodeKeys(keys), ok)
    {
      hide EncodePair, EncodeKeys, Wrote, Writing;
      ghost var before, room, done, all := buf.Before(), buf.After(), [], EncodeKeys(keys);
      assert keys[0..] == keys && keys[|keys|..] == [];
      WritingBegins(before, room, all);
      for i := 0 to |keys|
        invariant buf.Valid() && Writing(before, room, buf.Before(), buf.After(), done, EncodeKeys(keys[i..]), all)
      {
        ghost var b, a, x := buf.Before(), buf.After(), EncodePair(keys[i]);
        EncodeKeysFirst(keys, i);
        ok := PutPair(buf, keys[i]);
        WritingStep(before, room, b, a, buf.Before(), buf.After(), done, x, EncodeKeys(keys[i + 1..]), all);
        if !ok { return; }
        done := done + x;
      }
      EncodeKeysNone();
      WritingEnds(before, room, buf.Before(), buf.After(), done, all);
      return true;
    }

    /** Fills the buffer: the key count in one byte, the key type, then the pairs in map order. */
    method PutPage(buf: MemoryBuffer) returns (ok: bool)
      requires buf.Valid()
      modifies buf, buf.data
      ensures buf.Put(EncodePage(Value()), ok)
    {
      ok := buf.PutBytes([|keys| % 256]);
      if !ok { return; }
      ghost var b1, a1 := buf.Before(), buf.After();
      ok := PutType(buf, ty);
      if !ok { return; }
      ghost var b2, a2 := buf.Before(), buf.After();
      WroteBoth(old(buf.Before()), old(buf.After()), b1, a1, b2, a2, [|keys| % 256], EncodeType(ty));
      ok := PutKeys(buf);
      if !ok { return; }
      WroteBoth(old(buf.Before()), old(buf.After()), b2, a2, buf.Before(), buf.After(),
                [|keys| % 256] + EncodeType(ty), EncodeKeys(keys));
    }
  }

  method PutPair(buf: MemoryBuffer, e: (Data, nat)) returns (ok: bool)
    requires buf.Valid()
    modifies buf, buf.data
    ensures buf.Put(EncodePair(e), ok)
  {
    ok := PutData(buf, e.0);
    if !ok { return; }
    ghost var b, a := buf.Before(), buf.After();
    ok := buf.PutUint(e.1, 8);
    if !ok { return; }
    WroteBoth(old(buf.Before()), old(buf.After()), b, a, buf.Before(), buf.After(), Encode(e.0), LittleEndian(e.1, 8));
  }

  method GetKeys(buf: MemoryBuffer, ty: Type, n: nat) returns (r: Option<Entries<nat>>)
    requires buf.Valid()
    modifies buf
    ensures buf.Got(ParseKeys(old(buf.After()), ty, n, []), r)
  {
    hide ParseData, ParseUint, Assign;
    var keys: Entries<nat> := [];
    for i := 0 to n
      invariant buf.Valid() && buf.data[..] == old(buf.data[..])
      invariant ParseKeys(old(buf.After()), ty, n, []) == ParseKeys(buf.After(), ty, n - i, keys)
    {
      var k := GetData(buf, ty);
      if k.None? { return None; }
      var o := buf.GetUint(8);
      if o.None? { return None; }
      keys := Assign(keys, k.value, o.value);
    }
    return Some(keys);
  }

  method GetPage(buf: MemoryBuffer) returns (r: Option<Page>)
    requires buf.Valid()
    modifies buf
    ensures buf.Got(ParsePage(old(buf.After())), r)
  {
    Pow256Values();
    var n := buf.GetUint(1);
    if n.None? { return None; }
    var ty := GetType(buf);
    if ty.None? { return None; }
    if !IsKey(ty.value.id) && n.value > 1 { return None; }
    var keys := GetKeys(buf, ty.value, n.value);
    if keys.None? { return None; }
    return Some(Page(ty.value, keys.value));
  }

  lemma PairBytes()
    ensures EncodePair((Int(5), 258)) == [5, 0, 0, 0] + [2, 1, 0, 0, 0, 0, 0, 0]
    ensures EncodePair((Int(3), 0)) == [3, 0, 0, 0] + [0, 0, 0, 0, 0, 0, 0, 0]
  {
    SmallKeyBytes();
    OffsetBytes();
    hide LittleEndian, Encode;
  }

  lemma OffsetBytes()
    ensures LittleEndian(258, 8) == [2, 1, 0, 0, 0, 0, 0, 0] && LittleEndian(0, 8) == [0, 0, 0, 0, 0, 0, 0, 0]
  {
    EightBytes(258);
    EightBytes(0);
  }

  /** The page with key 5 at offset 258 and key 3 at offset 0: larger key first. */
  lemma PageBytes()
    ensures EncodePage(Page(Type(INT, 4), [(Int(5), 258), (Int(3), 0)])) ==
      [2] + [5, 4, 0, 0, 0]
      + ([5, 0, 0, 0] + [2, 1, 0, 0, 0, 0, 0, 0] + ([3, 0, 0, 0] + [0, 0, 0, 0, 0, 0, 0, 0]))
  {
    IntTypeBytes();
    PairBytes();
    TwoPairs((Int(5), 258), (Int(3), 0));
    hide EncodePair, EncodeType, EncodeKeys;
  }

  lemma TwoPairs(a: (Data, nat), b: (Data, nat))
    ensures EncodeKeys([a, b]) == EncodePair(a) + EncodePair(b)
  {
    hide EncodePair;
    assert [a, b][1..] == [b] && [b][1..] == [];
    assert EncodeKeys([b]) == EncodePair(b) + EncodeKeys([]);
  }
}
