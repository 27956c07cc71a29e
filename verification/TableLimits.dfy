/** Where the layered read stops agreeing with the simple map: as soon as a flush needs two index pages. */
module TableLimits {
  import opened Bytes
  import opened Buffer
  import opened Data
  import opened OrderedMap
  import opened Catalog
  import opened IndexPages
  import opened Summaries
  import opened TableBuilders
  import opened DiskManagers
  import opened TableManagers
  import opened TableRefinement

  // ----- page lookup over what any flush builds

  /** The summary sends the reader of `k` to page `p`. */
  ghost predicate SentTo(s: SummaryKeys, k: Data, p: nat) {
    p < 256 && FindPage(s, k) == Number(p)
  }

  ghost function KeyAt(pages: seq<Entries<nat>>, p: nat, i: nat): (k: Data)
    requires p < |pages| && i < |pages[p]|
  {
    pages[p][i].0
  }

  /** Where a page's key stands among all keys: at the front only for the first key of the first page. */
  lemma {:induction false} FlattenIndex(pages: seq<Entries<nat>>, p: nat, i: nat) returns (j: nat)
    requires p < |pages| && i < |pages[p]| && forall q | 0 <= q < |pages| :: pages[q] != []
    ensures j < |Flatten(pages)| && Flatten(pages)[j] == pages[p][i]
    ensures j == 0 <==> p == 0 && i == 0
  {
    var q := |pages| - 1;
    var front := Flatten(pages[..q]);
    if p < q {
      j := FlattenIndex(pages[..q], p, i);
    } else {
      j := |front| + i;
      if q > 0 {
        var first := FlattenIndex(pages[..q], 0, 0);
      }
    }
  }

  lemma FirstKeyIsLargest(c: Schema, m: Memtable, p: nat, i: nat)
    requires MemOk(c, m) && 0 < |m| && KeyType(c).length <= MAX_KEY
    requires var pages := PagesOf(c, m); p < |pages| && i < |pages[p]|
    ensures PagesOf(c, m)[0] != []
    ensures var pages := PagesOf(c, m);
      if p == 0 && i == 0 then !Gt(KeyAt(pages, 0, 0), KeyAt(pages, p, i))
      else Gt(KeyAt(pages, 0, 0), KeyAt(pages, p, i))
  {
    hide Gt, Paginate, EntryOk, PageFull, Offset, Flatten;
    var ks := Located(RecordSize(c.fields), m, |m|);
    var pages := PagesOf(c, m);
    PaginatePartitions(ks, KeyType(c).length);
    forall q | 0 <= q < |pages| ensures pages[q] != [] { assert PageFits(pages[q], KeyType(c).length); }
    var first := FlattenIndex(pages, 0, 0);
    var j := FlattenIndex(pages, p, i);
    EntryFacts(c, m[0]);
    GtTrichotomy(m[0].0, m[0].0);
  }

  lemma SummaryNotEmpty(s: SummaryKeys, pages: seq<Entries<nat>>, ty: Type)
    requires SummaryOf(s, pages, ty) && |pages| >= 1 && ty.length <= MAX_KEY
    ensures |s.keys| >= 1 && s.keys[0] == FirstKeys(pages)[0]
  {
    assert |s.keys| == 0 ==> Summaries.HasRoom(s);
  }

  /** A key is sent to page 255 when the first summary key is greater, and to the last page of the
      summary when no summary key is. */
  lemma SentWhere(s: SummaryKeys, k: Data)
    requires KeysOf(s) && 2 <= |s.keys| && TypeOf(k).id == s.ty.id
    ensures Gt(s.keys[0], k) ==> FindPage(s, k) == Number(255)
    ensures (forall j | 0 <= j < |s.keys| :: !Gt(s.keys[j], k)) ==> FindPage(s, k) == Number((|s.keys| - 1) % 256)
  {
    hide Gt, TypeOf, FirstGreater;
    var i := FirstGreater(s.keys, k);
  }

  lemma SummaryKeysOk(c: Schema, m: Memtable, s: SummaryKeys)
    requires MemOk(c, m) && 0 < |m| && KeyType(c).length <= MAX_KEY && SummaryOf(s, PagesOf(c, m), KeyType(c))
    ensures KeysOf(s)
    ensures forall p, i | 0 <= p < |PagesOf(c, m)| && 0 <= i < |PagesOf(c, m)[p]| ::
      TypeOf(KeyAt(PagesOf(c, m), p, i)).id == KeyType(c).id
    ensures forall j | 0 <= j < |s.keys| ::
      j < |PagesOf(c, m)| && PagesOf(c, m)[j] != [] && s.keys[j] == KeyAt(PagesOf(c, m), j, 0)
  {
    hide EntryOk, TypeOf, PagesOf, Gt, Summaries.HasRoom, Located, Descending;
    var pages, ks := PagesOf(c, m), Located(RecordSize(c.fields), m, |m|);
    BuildIsUpto(c, m);
    PaginatePartitions(ks, KeyType(c).length);
    forall p, i | 0 <= p < |pages| && 0 <= i < |pages[p]| ensures TypeOf(KeyAt(pages, p, i)).id == KeyType(c).id {
      FlattenHolds(pages, p, i);
      var j :| 0 <= j < |ks| && ks[j] == pages[p][i];
      EntryFacts(c, m[j]);
    }
    forall j | 0 <= j < |s.keys| ensures j < |pages| && pages[j] != [] && s.keys[j] == KeyAt(pages, j, 0) {
      assert s.keys[j] == FirstKeys(pages)[j];
      assert PageFits(pages[j], KeyType(c).length);
    }
  }

  /** Which keys of a flushed memtable the summary sends to their own page, for any number of pages:
      with one summary key those of page 0; otherwise those of page 255, whatever is asked, and the very
      first key when the summary's size comes round to 1 modulo 256. */
  lemma LookupOfStored(c: Schema, m: Memtable, p: nat, i: nat)
    requires MemOk(c, m) && 0 < |m| && KeyType(c).length <= MAX_KEY && IntOf(RecordSize(c.fields)) >= 0
    requires p < |PagesOf(c, m)| && i < |PagesOf(c, m)[p]|
    ensures var s := Build(c, m).summary;
      && 1 <= |s.keys| <= |PagesOf(c, m)|
      && (SentTo(s, KeyAt(PagesOf(c, m), p, i), p) <==>
            if |s.keys| == 1 then p == 0 else p == 255 || (p == 0 && i == 0 && |s.keys| % 256 == 1))
  {
    hide Gt, Build, PagesOf, Flatten, Blocks, PageFits, Located, MemOk, LiesAt, PageAt, Offset, TypeOf,
      Summaries.HasRoom;
    assert HasKey(c) by { MemHasKey(c, m); }
    var pages, s := PagesOf(c, m), Build(c, m).summary;
    var k := KeyAt(pages, p, i);
    FlushLayout(c, m);
    SummaryNotEmpty(s, pages, KeyType(c));
    SummaryKeysOk(c, m, s);
    FirstKeyIsLargest(c, m, p, i);
    if |s.keys| > 1 {
      SentWhere(s, k);
      if p == 0 && i == 0 {
        forall j | 0 <= j < |s.keys| ensures !Gt(s.keys[j], k) {
          FirstKeyIsLargest(c, m, j, 0);
          if j > 0 { GtTrichotomy(s.keys[j], k); }
        }
      }
    }
  }

  lemma SummaryAtLeastTwo(s: SummaryKeys, pages: seq<Entries<nat>>, ty: Type)
    requires SummaryOf(s, pages, ty) && |pages| >= 2 && |s.keys| >= 1
    ensures ty.length <= 2045 ==> |s.keys| >= 2
    ensures ty.length > 2045 && SummarySize(s) <= PAGE_SIZE ==> |s.keys| == 1
  {
    assert |s.keys| == 1 ==> (Summaries.HasRoom(s) <==> ty.length <= 2045);
    if |s.keys| >= 2 { MulLeq(2, |s.keys|, ty.length); }
  }

  lemma BuiltSummaryFits(c: Schema, m: Memtable)
    requires MemOk(c, m) && 0 < |m| && IntOf(RecordSize(c.fields)) >= 0
    ensures SummarySize(Build(c, m).summary) <= PAGE_SIZE
  {
    hide MemOk, Upto, Build, SummarySize;
    assert HasKey(c) by { MemHasKey(c, m); }
    BuildIsUpto(c, m);
    BuilderInBounds(c, m, |m|);
  }

  /** With 2 to 255 pages every stored key is sent to a page that does not hold it, exactly when two
      keys fit the summary. */
  lemma EveryKeyMisdirectedIff(c: Schema, m: Memtable)
    requires MemOk(c, m) && 0 < |m| && KeyType(c).length <= MAX_KEY && IntOf(RecordSize(c.fields)) >= 0
    requires 2 <= |PagesOf(c, m)| <= 255
    ensures var pages := PagesOf(c, m); var s := Build(c, m).summary;
      (forall p, i | 0 <= p < |pages| && 0 <= i < |pages[p]| :: !SentTo(s, KeyAt(pages, p, i), p))
        <==> KeyType(c).length <= 2045
  {
    hide Gt, Build, PagesOf, Flatten, Blocks, Located, MemOk, LiesAt, PageAt, SentTo, SummaryOf, SummarySize, Offset;
    assert HasKey(c) by { MemHasKey(c, m); }
    var pages, s := PagesOf(c, m), Build(c, m).summary;
    FlushLayout(c, m);
    assert PageFits(pages[0], KeyType(c).length);
    LookupOfStored(c, m, 0, 0);
    SummaryAtLeastTwo(s, pages, KeyType(c));
    BuiltSummaryFits(c, m);
    forall p, i | 0 <= p < |pages| && 0 <= i < |pages[p]|
      ensures SentTo(s, KeyAt(pages, p, i), p) <==> |s.keys| == 1 && p == 0
    {
      LookupOfStored(c, m, p, i);
    }
    assert KeyType(c).length > 2045 ==> SentTo(s, KeyAt(pages, 0, 0), 0);
  }

  /** Every stored key is sent to the page that holds it exactly when the flush made one page. */
  lemma LookupExact(c: Schema, m: Memtable)
    requires MemOk(c, m) && 0 < |m| && KeyType(c).length <= MAX_KEY && IntOf(RecordSize(c.fields)) >= 0
    ensures var pages := PagesOf(c, m); var s := Build(c, m).summary;
      (forall p, i | 0 <= p < |pages| && 0 <= i < |pages[p]| :: SentTo(s, KeyAt(pages, p, i), p)) <==> |pages| == 1
  {
    hide Gt, Build, PagesOf, Flatten, Blocks, Located, MemOk, LiesAt, PageAt, SentTo, SummaryOf, Offset;
    assert HasKey(c) by { MemHasKey(c, m); }
    var pages, s := PagesOf(c, m), Build(c, m).summary;
    FlushLayout(c, m);
    PagesNonempty(c, m);
    forall p, i | 0 <= p < |pages| && 0 <= i < |pages[p]|
      ensures SentTo(s, KeyAt(pages, p, i), p) <==>
        if |s.keys| == 1 then p == 0 else p == 255 || (p == 0 && i == 0 && |s.keys| % 256 == 1)
      ensures 1 <= |s.keys| <= |pages|
    {
      LookupOfStored(c, m, p, i);
    }
    assert PageFits(pages[0], KeyType(c).length);
    LookupOfStored(c, m, 0, 0);
    if |pages| >= 2 {
      assert PageFits(pages[1], KeyType(c).length);
      assert !SentTo(s, KeyAt(pages, 1, 0), 1);
    }
  }

  lemma PagesNonempty(c: Schema, m: Memtable)
    requires HasKey(c)
    ensures |PagesOf(c, m)| >= 1
  {
  }

  // ----- a run that loses a record, for every key longer than 2037 bytes

  /** The two records of the run, the larger key first. */
  ghost predicate Pair(c: Schema, r0: Record, r1: Record) {
    && HasKey(c) && Verify(c.fields, r0) && Verify(c.fields, r1)
    && Gt(r0[c.sortKey], r1[c.sortKey])
  }

  ghost function TwoRecords(c: Schema, r0: Record, r1: Record): (m: Memtable)
    requires Pair(c, r0, r1)
  {
    [(r0[c.sortKey], r0), (r1[c.sortKey], r1)]
  }

  lemma TwoRecordsOk(c: Schema, r0: Record, r1: Record)
    requires Pair(c, r0, r1)
    ensures MemOk(c, TwoRecords(c, r0, r1))
    ensures TypeOf(r0[c.sortKey]) == KeyType(c) && TypeOf(r1[c.sortKey]) == KeyType(c)
  {
    hide Gt;
  }

  lemma TwoPages(c: Schema, r0: Record, r1: Record)
    requires Pair(c, r0, r1) && MAX_SAFE_KEY < KeyType(c).length <= MAX_KEY
    ensures var m, rs := TwoRecords(c, r0, r1), RecordSize(c.fields);
      PagesOf(c, m) == [[(m[0].0, 0)], [(m[1].0, rs)]]
  {
    hide Gt;
    var m, rs := TwoRecords(c, r0, r1), RecordSize(c.fields);
    var ks := Located(rs, m, 2);
    assert ks == [(m[0].0, 0), (m[1].0, rs)];
    assert ks[..1] == [ks[0]];
    assert Paginate(ks[..1], KeyType(c).length) == [[ks[0]]];
    assert PageFull([ks[0]], KeyType(c).length);
  }

  lemma PrefixOfTwo(s: SummaryKeys, k0: Data, k1: Data)
    requires MAX_SAFE_KEY < s.ty.length <= MAX_KEY && SummarySize(s) <= PAGE_SIZE
    requires s.keys <= [k0, k1] && (s.keys == [k0, k1] || !Summaries.HasRoom(s))
    ensures s.keys == if s.ty.length <= 2045 then [k0, k1] else [k0]
  {
    assert |s.keys| == 0 ==> Summaries.HasRoom(s);
    assert |s.keys| == 1 ==> (Summaries.HasRoom(s) <==> s.ty.length <= 2045);
    assert s.keys == [k0, k1][..|s.keys|];
  }

  lemma TwoSummaryKeys(s: SummaryKeys, c: Schema, r0: Record, r1: Record)
    requires Pair(c, r0, r1) && MAX_SAFE_KEY < KeyType(c).length <= MAX_KEY
    requires SummaryOf(s, PagesOf(c, TwoRecords(c, r0, r1)), KeyType(c)) && SummarySize(s) <= PAGE_SIZE
    ensures s.ty == KeyType(c)
    ensures s.keys == if KeyType(c).length <= 2045 then [r0[c.sortKey], r1[c.sortKey]] else [r0[c.sortKey]]
  {
    hide Gt, PagesOf, SummarySize, Summaries.HasRoom;
    TwoPages(c, r0, r1);
    var k0, k1 := r0[c.sortKey], r1[c.sortKey];
    assert FirstKeys(PagesOf(c, TwoRecords(c, r0, r1))) == [k0, k1];
    PrefixOfTwo(s, k0, k1);
  }

  /** The index file of the run: one page for each key. */
  lemma TwoBlocks(c: Schema, r0: Record, r1: Record)
    requires Pair(c, r0, r1) && MAX_SAFE_KEY < KeyType(c).length <= MAX_KEY && IntOf(RecordSize(c.fields)) >= 0
    ensures var m, rs := TwoRecords(c, r0, r1), RecordSize(c.fields);
      Build(c, m).index == Block(EncodePage(Page(KeyType(c), [(m[0].0, 0)])))
        + Block(EncodePage(Page(KeyType(c), [(m[1].0, rs)])))
    ensures var m := TwoRecords(c, r0, r1);
      SummarySize(Build(c, m).summary) <= PAGE_SIZE && SummaryOf(Build(c, m).summary, PagesOf(c, m), KeyType(c))
  {
    hide Gt, EncodePage, Build, PagesOf, Block;
    var m, rs, ty := TwoRecords(c, r0, r1), RecordSize(c.fields), KeyType(c);
    TwoRecordsOk(c, r0, r1);
    TwoPages(c, r0, r1);
    FlushLayout(c, m);
    var pages: seq<Entries<nat>> := [[(m[0].0, 0)], [(m[1].0, rs)]];
    assert pages[..1] == [pages[0]] && pages[..1][..0] == [];
    assert Blocks(ty, pages[..1]) == Blocks(ty, []) + Block(EncodePage(Page(ty, pages[0])));
    assert Blocks(ty, []) == [];
    BuildIsUpto(c, m);
    BuilderInBounds(c, m, 2);
  }

  lemma OneKeyPage(ty: Type, k: Data, o: nat)
    requires IsKey(ty.id) && TypeOf(k) == ty && ty.length <= MAX_KEY && o < 0x8000_0000_0000_0000
    ensures var p := Page(ty, [(k, o)]);
      |EncodePage(p)| <= PAGE_SIZE && ParsePage(Block(EncodePage(p))) == Ok(p, Zeros(PAGE_SIZE - |EncodePage(p)|))
  {
    hide EncodePage, ParsePage;
    var p := Page(ty, [(k, o)]);
    PageLength(p);
    PageRoundTrip(p, Zeros(PAGE_SIZE - |EncodePage(p)|));
    assert Block(EncodePage(p)) == EncodePage(p) + Zeros(PAGE_SIZE - |EncodePage(p)|);
  }

  /** The key that cannot be read back: the larger one up to 2045 bytes, the smaller one beyond. */
  ghost function LostKey(c: Schema, r0: Record, r1: Record): (k: Data)
    requires Pair(c, r0, r1)
  {
    if KeyType(c).length <= 2045 then r0[c.sortKey] else r1[c.sortKey]
  }

  lemma OtherPageMisses(c: Schema, r0: Record, r1: Record, o: nat)
    requires Pair(c, r0, r1) && MAX_SAFE_KEY < KeyType(c).length
    ensures var m, p := TwoRecords(c, r0, r1), if KeyType(c).length <= 2045 then 1 else 0;
      FindOffset(Page(KeyType(c), [(m[p].0, o)]), LostKey(c, r0, r1)) == Absent
  {
    TwoRecordsOk(c, r0, r1);
    var m, p := TwoRecords(c, r0, r1), if KeyType(c).length <= 2045 then 1 else 0;
    GtTrichotomy(r0[c.sortKey], r1[c.sortKey]);
    hide Gt;
    var ks: Entries<nat> := [(m[p].0, o)];
    assert ks[1..] == [] && Find(ks[1..], LostKey(c, r0, r1)) == None;
    assert Find(ks, LostKey(c, r0, r1)) == None;
  }

  lemma LostWithPages(d: Files, name: ByteString, c: Schema, r0: Record, r1: Record, junk: Junk)
    requires Pair(c, r0, r1) && MAX_SAFE_KEY < KeyType(c).length <= MAX_KEY
    requires IntOf(RecordSize(c.fields)) >= 0 && RecordSize(c.fields) < 0x4000_0000_0000_0000
    ensures var (d', m') := Flush(d, Manager(name, c, TwoRecords(c, r0, r1), []));
      ReadSstable(d', m', 0, LostKey(c, r0, r1), junk) == NotFound
  {
    hide EncodePage, Build, Save, ParsePage, FindOffset, PagesOf, SummaryOf;
    TwoRecordsOk(c, r0, r1);
    var m, rs, ty := TwoRecords(c, r0, r1), RecordSize(c.fields), KeyType(c);
    var (d', m') := Flush(d, Manager(name, c, m, []));
    var t := Build(c, m);
    TwoBlocks(c, r0, r1);
    TwoSummaryKeys(t.summary, c, r0, r1);
    SaveStores(d, name, 0, t);
    var p := if ty.length <= 2045 then 1 else 0;
    LostGoesTo(t.summary, c, r0, r1);
    var o := if p == 0 then 0 else rs;
    OneKeyPage(ty, m[0].0, 0);
    OneKeyPage(ty, m[1].0, rs);
    ReadWithin(Contents(d', IndexFile(name, 0)), t.index, p * PAGE_SIZE, PAGE_SIZE, junk);
    assert t.index[p * PAGE_SIZE..p * PAGE_SIZE + PAGE_SIZE] == Block(EncodePage(Page(ty, [(m[p].0, o)])));
    OtherPageMisses(c, r0, r1, o);
  }

  lemma LostGoesTo(s: SummaryKeys, c: Schema, r0: Record, r1: Record)
    requires Pair(c, r0, r1) && MAX_SAFE_KEY < KeyType(c).length && s.ty == KeyType(c)
    requires s.keys == if KeyType(c).length <= 2045 then [r0[c.sortKey], r1[c.sortKey]] else [r0[c.sortKey]]
    ensures FindPage(s, LostKey(c, r0, r1)) == Number(if KeyType(c).length <= 2045 then 1 else 0)
  {
    TwoRecordsOk(c, r0, r1);
    GtTrichotomy(r0[c.sortKey], r0[c.sortKey]);
    GtTrichotomy(r0[c.sortKey], r1[c.sortKey]);
    hide Gt;
    if KeyType(c).length <= 2045 {
      var k0, k1 := r0[c.sortKey], r1[c.sortKey];
      assert [k0, k1][1..] == [k1] && [k1][1..] == [];
      assert FirstGreater([k1], k0) == 1;
      assert FirstGreater([k0, k1], k0) == 2;
    }
  }

  // ----- keys longer than 4082 bytes: no pair fits any page

  lemma {:induction false} NoPairFits(c: Schema, m: Memtable, i: nat)
    requires MemOk(c, m) && 0 < |m| && i <= |m| && KeyType(c).length > MAX_KEY
    ensures var b := Upto(RecordSize(c.fields), m, i); var empty := Page(KeyType(c), []);
      && b.page == empty && |b.summary.keys| <= 1
      && (i > 0 ==> Block(EncodePage(empty)) <= b.index)
  {
    hide Descending, EntryOk, EncodePage, EncodeRecord, Block, TypeOf, Copied;
    if i == 0 {
      EntryFacts(c, m[0]);
    } else {
      NoPairFits(c, m, i - 1);
      BuilderInBounds(c, m, i);
      LongSummary(Upto(RecordSize(c.fields), m, i).summary, KeyType(c));
    }
  }

  lemma LongSummary(s: SummaryKeys, ty: Type)
    requires s.ty == ty && SummarySize(s) <= PAGE_SIZE && ty.length > MAX_KEY
    ensures |s.keys| <= 1
  {
    if |s.keys| >= 2 { MulLeq(2, |s.keys|, ty.length); }
  }

  lemma EmptyPageParses(ty: Type)
    requires IsKey(ty.id)
    ensures |EncodePage(Page(ty, []))| <= PAGE_SIZE
    ensures var p := ParsePage(Block(EncodePage(Page(ty, [])))); p.Ok? && p.value == Page(ty, [])
  {
    hide EncodePage, ParsePage;
    var p := Page(ty, []);
    PageLength(p);
    PageRoundTrip(p, Zeros(PAGE_SIZE - |EncodePage(p)|));
    assert Block(EncodePage(p)) == EncodePage(p) + Zeros(PAGE_SIZE - |EncodePage(p)|);
  }

  lemma LostWithoutPages(d: Files, name: ByteString, c: Schema, r0: Record, r1: Record, junk: Junk)
    requires Pair(c, r0, r1) && MAX_KEY < KeyType(c).length && IntOf(RecordSize(c.fields)) >= 0
    ensures var (d', m') := Flush(d, Manager(name, c, TwoRecords(c, r0, r1), []));
      !ReadSstable(d', m', 0, LostKey(c, r0, r1), junk).Found?
  {
    hide EncodePage, Save, ParsePage, EncodeSummary, Block, Build, Gt, TypeOf, LostKey, MemOk;
    TwoRecordsOk(c, r0, r1);
    var m, rs, ty := TwoRecords(c, r0, r1), RecordSize(c.fields), KeyType(c);
    var (d', m') := Flush(d, Manager(name, c, m, []));
    var t := Build(c, m);
    BuildIsUpto(c, m);
    hide Upto;
    NoPairFits(c, m, 2);
    SaveStores(d, name, 0, t);
    EmptyPageParses(ty);
    var image := Block(EncodePage(Page(ty, [])));
    ReadWithin(Contents(d', IndexFile(name, 0)), image, 0, PAGE_SIZE, junk);
    assert image[0..PAGE_SIZE] == image;
  }

  // ----- records whose size is negative as an int: the flush stops at the first of them

  lemma ZeroPage(s: seq<byte>)
    requires |s| == PAGE_SIZE && forall i | 0 <= i < |s| :: s[i] == 0
    ensures ParsePage(s).Ok? && ParsePage(s).value == Page(Type(ASCII, 0), [])
  {
    var z: seq<byte> := [0, 0, 0, 0];
    assert s[1..][1..][..4] == z;
    assert z[1..] == [0, 0, 0] && z[1..][1..] == [0, 0] && z[1..][1..][1..] == [0] && z[1..][1..][1..][1..] == [];
    assert FromLittleEndian(z) == 0;
    assert s[..1] == [0] && s[1..][..1] == [0];
    assert [0][1..] == [];
  }

  lemma LostTooLong(d: Files, name: ByteString, c: Schema, r0: Record, r1: Record, k: Data, junk: Junk)
    requires Pair(c, r0, r1) && IntOf(RecordSize(c.fields)) < 0 && Contents(d, IndexFile(name, 0)) == []
    requires forall i: nat :: junk(i) == 0
    ensures var (d', m') := Flush(d, Manager(name, c, TwoRecords(c, r0, r1), []));
      !ReadSstable(d', m', 0, k, junk).Found?
  {
    hide EncodeRecord, ParsePage, Copied, RecordSize;
    var (d', m') := Flush(d, Manager(name, c, TwoRecords(c, r0, r1), []));
    var file := Contents(d', IndexFile(name, 0));
    assert file == [];
    forall p: byte
      ensures LoadPage(d', name, 0, p, junk).Ok? && LoadPage(d', name, 0, p, junk).value == Page(Type(ASCII, 0), [])
    {
      ZeroPage(ReadAt(file, p * PAGE_SIZE, PAGE_SIZE, junk));
    }
  }

  // ----- longer records whose size is no negative int: they lose what bytes() did not copy

  lemma CutRecord(d: Files, name: ByteString, c: Schema, r0: Record, r1: Record, junk: Junk)
    requires Pair(c, r0, r1) && KeyType(c).length <= MAX_SAFE_KEY
    requires IntOf(RecordSize(c.fields)) >= 0 && RecordSize(c.fields) < 0x4000_0000_0000_0000
    requires Copied(EncodeRecord(r0)) != EncodeRecord(r0)
    ensures var (d', m') := Flush(d, Manager(name, c, TwoRecords(c, r0, r1), []));
      ReadSstable(d', m', 0, r0[c.sortKey], junk) != Found(r0)
  {
    hide Build, Save, EncodeRecord, ParseRecord, Copied, LoadPage, LoadRecord, RecordSize, Located;
    TwoRecordsOk(c, r0, r1);
    var m, rs, k := TwoRecords(c, r0, r1), RecordSize(c.fields), r0[c.sortKey];
    var (d', m') := Flush(d, Manager(name, c, m, []));
    SaveStores(d, name, 0, Build(c, m));
    OnePagePair(c, m);
    SinglePage(c, m);
    LoadsPage(c, m, d', name, 0, junk);
    FirstOffset(c, m);
    LoadsCopy(c, m, d', name, 0, 0, junk);
    CutRecordReads(c, r0);
  }

  lemma OnePagePair(c: Schema, m: Memtable)
    requires HasKey(c) && |m| == 2 && KeyType(c).length <= MAX_SAFE_KEY
    requires IntOf(RecordSize(c.fields)) >= 0 && RecordSize(c.fields) < 0x4000_0000_0000_0000
    ensures OnePage(c, m)
  {
    assert Offset(RecordSize(c.fields), 2) == 2 * RecordSize(c.fields);
  }

  lemma FirstOffset(c: Schema, m: Memtable)
    requires MemOk(c, m) && m != []
    ensures var ks := Located(RecordSize(c.fields), m, |m|); FindOffset(Page(KeyType(c), ks), m[0].0) == At(0)
    ensures Offset(RecordSize(c.fields), 0) == 0
  {
    EntryFacts(c, m[0]);
    GtTrichotomy(m[0].0, m[0].0);
    hide Gt;
  }

  lemma CutRecordReads(c: Schema, r: Record)
    requires Verify(c.fields, r) && Copied(EncodeRecord(r)) != EncodeRecord(r)
    ensures var p := ParseRecord(Copied(EncodeRecord(r)), c.fields); p.Ok? ==> p.value != r
  {
    hide EncodeRecord, ParseRecord;
    var s := Copied(EncodeRecord(r));
    var p := ParseRecord(s, c.fields);
    if p.Ok? && p.value == r { ZeroedRecord(c.fields, r, s); }
  }

  // ----- all together

  ghost function LosingRun(c: Schema, r0: Record, r1: Record, junk: Junk): (ops: seq<Op>)
    requires Pair(c, r0, r1)
  {
    [Put(r0), Put(r1), Query(LostKey(c, r0, r1), junk)]
  }

  lemma LosingRunFlushes(d: Files, name: ByteString, c: Schema, r0: Record, r1: Record, junk: Junk)
    requires Pair(c, r0, r1)
    ensures var (d', m') := Flush(d, Manager(name, c, TwoRecords(c, r0, r1), []));
      Run(d, Empty(name, c), LosingRun(c, r0, r1, junk))
        == [Ack(Written), Ack(Written), Answered(ReadSstable(d', m', 0, LostKey(c, r0, r1), junk))]
  {
    hide Flush, ReadSstable;
    TwoRecordsOk(c, r0, r1);
    var k0, k1 := r0[c.sortKey], r1[c.sortKey];
    GtTrichotomy(k0, k1);
    hide Gt;
    var ops := LosingRun(c, r0, r1, junk);
    var m0 := Empty(name, c);
    var m1 := m0.(mem := [(k0, r0)]);
    assert Insert([], k0, r0) == [(k0, r0)];
    assert Write(d, m0, r0) == (d, m1, Written);
    assert [(k0, r0)][1..] == [];
    assert Find([(k0, r0)], k1) == None;
    assert Assign([(k0, r0)], k1, r1) == [(k0, r0)] + Assign([], k1, r1);
    assert Insert([(k0, r0)], k1, r1) == TwoRecords(c, r0, r1);
    var (d', m') := Flush(d, Manager(name, c, TwoRecords(c, r0, r1), []));
    assert Write(d, m1, r1) == (d', m', Written);
    FlushedState(d, name, c, TwoRecords(c, r0, r1));
    var last := ops[1..][1..];
    assert last == [Query(LostKey(c, r0, r1), junk)];
    LastQuery(d', m', LostKey(c, r0, r1), junk);
    assert Run(d, m1, ops[1..]) == [Ack(Written)] + Run(d', m', last);
  }

  lemma FlushedState(d: Files, name: ByteString, c: Schema, m: Memtable)
    requires m != []
    ensures var (_, m') := Flush(d, Manager(name, c, m, [])); m'.mem == [] && |m'.summaries| == 1 && m'.schema == c
  {
  }

  lemma LastQuery(d: Files, m: Manager, k: Data, junk: Junk)
    requires HasKey(m.schema) && m.mem == [] && |m.summaries| == 1
    ensures Run(d, m, [Query(k, junk)]) == [Answered(ReadSstable(d, m, 0, k, junk))]
  {
    hide ReadSstable;
    assert [Query(k, junk)][1..] == [];
    assert ReadSstables(d, m, 0, k, junk) == NotFound;
  }

  lemma LosingRunRef(c: Schema, r0: Record, r1: Record, junk: Junk)
    requires Pair(c, r0, r1)
    ensures |RefRun(c, Ref(map[], None), LosingRun(c, r0, r1, junk))| == 3
    ensures var a := RefRun(c, Ref(map[], None), LosingRun(c, r0, r1, junk))[2];
      a == Answered(Found(if KeyType(c).length <= 2045 then r0 else r1))
  {
    TwoRecordsOk(c, r0, r1);
    var k0, k1 := r0[c.sortKey], r1[c.sortKey];
    GtTrichotomy(k0, k1);
    hide Gt;
    var ops := LosingRun(c, r0, r1, junk);
    var ref1 := Ref(map[], Some((k0, r0)));
    var ref2 := Ref(map[k0 := r0, k1 := r1], None);
    assert RefWrite(c, Ref(map[], None), r0) == (ref1, Written);
    assert View(ref1)[k1 := r1] == map[k0 := r0, k1 := r1];
    assert RefWrite(c, ref1, r1) == (ref2, Written);
    var last := ops[1..][1..];
    assert last == [Query(LostKey(c, r0, r1), junk)] && last[1..] == [];
    assert RefRun(c, ref2, last) == [Answered(RefRead(c, ref2, LostKey(c, r0, r1)))] + RefRun(c, ref2, []);
    assert RefRun(c, ref1, ops[1..]) == [Ack(Written)] + RefRun(c, ref2, last);
  }

  ghost predicate AgreesOn(d: Files, name: ByteString, c: Schema, ops: seq<Op>)
    requires HasKey(c)
  {
    Run(d, Empty(name, c), ops) == RefRun(c, Ref(map[], None), ops)
  }

  /** The engine answers every run like the simple map exactly when its sort keys have at most 2037
      bytes and its records fewer than 2^31. The two records witness that the table can hold two
      different keys and, for longer records, that the first one has something to lose: either the flush
      stops and no index file of a former table of that name is left to be read, or the bytes that its
      copy cuts off are not all zero. */
  lemma EngineCorrectIff(d: Files, name: ByteString, c: Schema, r0: Record, r1: Record)
    requires Pair(c, r0, r1)
    requires RecordSize(c.fields) < INT_LIMIT
      || (IntOf(RecordSize(c.fields)) < 0 && Contents(d, IndexFile(name, 0)) == [])
      || (IntOf(RecordSize(c.fields)) >= 0 && RecordSize(c.fields) < 0x4000_0000_0000_0000
          && Copied(EncodeRecord(r0)) != EncodeRecord(r0))
    ensures (forall ops: seq<Op> :: AgreesOn(d, name, c, ops))
       <==> KeyType(c).length <= MAX_SAFE_KEY && RecordSize(c.fields) < INT_LIMIT
  {
    hide Run, RefRun, LosingRun, ReadSstable, Flush, RecordSize, Copied, EncodeRecord;
    if KeyType(c).length <= MAX_SAFE_KEY && RecordSize(c.fields) < INT_LIMIT {
      forall ops: seq<Op> ensures AgreesOn(d, name, c, ops) { RunAgrees(d, name, c, ops); }
    } else {
      var zero: Junk := _ => 0;
      var ops := LosingRun(c, r0, r1, zero);
      LosingRunFlushes(d, name, c, r0, r1, zero);
      LosingRunRef(c, r0, r1, zero);
      if IntOf(RecordSize(c.fields)) < 0 {
        LostTooLong(d, name, c, r0, r1, LostKey(c, r0, r1), zero);
      } else if KeyType(c).length > MAX_KEY {
        LostWithoutPages(d, name, c, r0, r1, zero);
      } else if KeyType(c).length > MAX_SAFE_KEY {
        LostWithPages(d, name, c, r0, r1, zero);
      } else {
        CutRecord(d, name, c, r0, r1, zero);
      }
      assert !AgreesOn(d, name, c, ops);
    }
  }
}
