/** lib/io/table_builder.cc: flushing a memtable into a data, an index and a summary file. */
module TableBuilders {
  import opened Bytes
  import opened Buffer
  import opened Data
  import opened OrderedMap
  import opened Catalog
  import opened CatalogIo
  import opened IndexPages
  import opened Summaries

  type Memtable = Entries<Record>

  predicate HasKey(c: Schema) {
    c.sortKey < |c.fields| && IsKey(c.fields[c.sortKey].ty.id)
  }

  function KeyType(c: Schema): (t: Type)
    requires HasKey(c)
  {
    c.fields[c.sortKey].ty
  }

  /** A memtable of verified records, each under its own sort key, largest key first. */
  ghost predicate MemOk(c: Schema, m: Memtable) {
    && HasKey(c)
    && Descending(m)
    && forall i | 0 <= i < |m| :: EntryOk(c, m[i])
  }

  predicate EntryOk(c: Schema, e: (Data, Record))
    requires HasKey(c)
  {
    Verify(c.fields, e.1) && e.0 == e.1[c.sortKey]
  }

  /** The builder's fields: two files so far, the open page, the summary and the next offset. */
  datatype Builder = Builder(data: seq<byte>, index: seq<byte>, page: Page, summary: SummaryKeys, offset: nat)

  /** A 4096-byte buffer holding `s` at its start. */
  function Block(s: seq<byte>): (b: seq<byte>)
    ensures |s| <= PAGE_SIZE ==> |b| == PAGE_SIZE
  {
    s + Zeros(if |s| < PAGE_SIZE then PAGE_SIZE - |s| else 0)
  }

  function Begin(k: Data): (b: Builder) {
    Builder([], [], Page(TypeOf(k), []), Push(SummaryKeys(TypeOf(k), []), k), 0)
  }

  /** IndexPage::push_back as the new page; a full page stays as it is. */
  function PushKey(p: Page, k: Data, offset: nat): (p': Page) {
    if IndexPages.HasRoom(p) then p.(keys := Assign(p.keys, k, offset)) else p
  }

  function Step(b: Builder, recordSize: nat, e: (Data, Record)): (b': Builder) {
    var b1 := b.(data := b.data + Copied(EncodeRecord(e.1)), offset := b.offset + recordSize);
    if IndexPages.HasRoom(b.page) then
      b1.(page := PushKey(b.page, e.0, b.offset))
    else
      b1.(summary := Push(b.summary, e.0),
          index := b.index + Block(EncodePage(b.page)),
          page := PushKey(Page(b.page.ty, []), e.0, b.offset))
  }

  /** The builder after the first `i` entries. */
  function Upto(recordSize: nat, m: Memtable, i: nat): (b: Builder)
    requires 0 < |m| && i <= |m|
  {
    if i == 0 then Begin(m[0].0) else Step(Upto(recordSize, m, i - 1), recordSize, m[i - 1])
  }

  /** The three files of an sstable and the summary that stays in memory. */
  datatype Sstable = Sstable(data: seq<byte>, index: seq<byte>, summaryFile: seq<byte>, summary: SummaryKeys)

  /** A record whose size is negative as an int makes its write look failed, and the flush stops there. */
  function Build(c: Schema, m: Memtable): (t: Sstable)
    requires 0 < |m|
  {
    if IntOf(RecordSize(c.fields)) < 0 then
      Sstable(Copied(EncodeRecord(m[0].1)), [], [], Begin(m[0].0).summary)
    else
    var b := Upto(RecordSize(c.fields), m, |m|);
    Sstable(b.data, b.index + Block(EncodePage(b.page)), Block(EncodeSummary(b.summary)), b.summary)
  }

  // ----- what the flush puts where

  function Offset(recordSize: nat, j: nat): (o: nat) {
    j * recordSize
  }

  lemma NextOffset(recordSize: nat, j: nat)
    ensures Offset(recordSize, j + 1) == Offset(recordSize, j) + recordSize
  {
    assert (j + 1) * recordSize == j * recordSize + recordSize;
  }

  /** The (key, offset) pairs of the first `i` entries: record j lies at j * recordSize. */
  function Located(recordSize: nat, m: Memtable, i: nat): (ks: Entries<nat>)
    requires i <= |m|
    ensures |ks| == i
    ensures forall j | 0 <= j < i :: ks[j] == (m[j].0, Offset(recordSize, j))
  {
    seq(i, j requires 0 <= j < i => (m[j].0, Offset(recordSize, j)))
  }

  /** Greedy pagination: a page is opened only when the next key does not fit on the last one. */
  function AddKey(pages: seq<Entries<nat>>, e: (Data, nat), length: nat): (r: seq<Entries<nat>>)
    requires pages != []
    ensures r != []
  {
    var q := |pages| - 1;
    if PageFull(pages[q], length) then pages + [[e]] else pages[..q] + [pages[q] + [e]]
  }

  function Paginate(ks: Entries<nat>, length: nat): (pages: seq<Entries<nat>>)
    ensures pages != []
  {
    if |ks| <= 1 then [ks] else AddKey(Paginate(ks[..|ks| - 1], length), ks[|ks| - 1], length)
  }

  predicate PageFull(p: Entries<nat>, length: nat) {
    IndexPages.SizeOf(|p| + 1, length) > PAGE_SIZE
  }

  ghost predicate PageFits(p: Entries<nat>, length: nat) {
    p != [] && IndexPages.SizeOf(|p|, length) <= PAGE_SIZE
  }

  ghost function Flatten(pages: seq<Entries<nat>>): (ks: Entries<nat>) {
    if pages == [] then [] else Flatten(pages[..|pages| - 1]) + pages[|pages| - 1]
  }

  ghost function Blocks(ty: Type, pages: seq<Entries<nat>>): (s: seq<byte>) {
    if pages == [] then []
    else Blocks(ty, pages[..|pages| - 1]) + Block(EncodePage(Page(ty, pages[|pages| - 1])))
  }

  /** The first key of every page. */
  ghost function FirstKeys(pages: seq<Entries<nat>>): (ks: seq<Data>) {
    seq(|pages|, p requires 0 <= p < |pages| => if pages[p] == [] then Int(0) else pages[p][0].0)
  }

  /** A key no longer than this leaves room for at least one pair on a page. */
  const MAX_KEY: nat := 4082

  lemma AddKeyFlattens(pages: seq<Entries<nat>>, e: (Data, nat), length: nat)
    requires pages != []
    ensures Flatten(AddKey(pages, e, length)) == Flatten(pages) + [e]
  {
    hide PageFull;
    var r := AddKey(pages, e, length);
    var q := |pages| - 1;
    if PageFull(pages[q], length) {
      assert r[..q + 1] == pages;
    } else {
      assert r[..q] == pages[..q];
      assert Flatten(pages[..q]) + (pages[q] + [e]) == Flatten(pages[..q]) + pages[q] + [e];
    }
  }

  /** The pages, in order, are the keys: none lost, none twice, none empty, none too big, and a page
      is left only when the next key would not have fitted. */
  lemma {:induction false} PaginatePartitions(ks: Entries<nat>, length: nat)
    requires ks != [] && length <= MAX_KEY
    ensures var pages := Paginate(ks, length);
      && Flatten(pages) == ks
      && (forall p | 0 <= p < |pages| :: PageFits(pages[p], length))
      && (forall p | 0 <= p < |pages| - 1 :: PageFull(pages[p], length))
    decreases |ks|
  {
    hide Flatten, AddKey;
    var n := |ks| - 1;
    if n == 0 {
      FlattenOne(ks);
    } else {
      PaginatePartitions(ks[..n], length);
      AddKeyFlattens(Paginate(ks[..n], length), ks[n], length);
      AddKeyFits(Paginate(ks[..n], length), ks[n], length);
      assert ks == ks[..n] + [ks[n]];
    }
  }

  lemma AddKeyFits(pages: seq<Entries<nat>>, e: (Data, nat), length: nat)
    requires pages != [] && length <= MAX_KEY
    requires forall p | 0 <= p < |pages| :: PageFits(pages[p], length)
    requires forall p | 0 <= p < |pages| - 1 :: PageFull(pages[p], length)
    ensures var r := AddKey(pages, e, length);
      && (forall p | 0 <= p < |r| :: PageFits(r[p], length))
      && (forall p | 0 <= p < |r| - 1 :: PageFull(r[p], length))
  {
  }

  lemma FlattenOne(ks: Entries<nat>)
    ensures Flatten([ks]) == ks
  {
    assert [ks][..0] == [];
    assert Flatten([ks]) == Flatten([]) + ks;
  }

  lemma LastPageIsSuffix(ks: Entries<nat>, length: nat)
    requires ks != [] && length <= MAX_KEY
    ensures var pages := Paginate(ks, length); var last := pages[|pages| - 1];
      last != [] && |last| <= |ks| && last == ks[|ks| - |last|..]
  {
    hide Paginate;
    PaginatePartitions(ks, length);
  }

  // ----- the data file

  lemma EntryFacts(c: Schema, e: (Data, Record))
    requires HasKey(c) && EntryOk(c, e)
    ensures TypeOf(e.0) == KeyType(c) && |EncodeRecord(e.1)| == RecordSize(c.fields)
    ensures ParseRecord(EncodeRecord(e.1), c.fields) == Ok(e.1, [])
  {
    RecordRoundTrip(c.fields, e.1, []);
    assert EncodeRecord(e.1) + [] == EncodeRecord(e.1);
  }

  lemma {:induction false} DataLayout(c: Schema, m: Memtable, i: nat)
    requires MemOk(c, m) && 0 < |m| && i <= |m|
    ensures var b := Upto(RecordSize(c.fields), m, i);
      b.offset == Offset(RecordSize(c.fields), i) == |b.data|
  {
    hide EncodeRecord, PushKey, Push, EncodePage, Descending, EntryOk, Copied;
    if i > 0 {
      hide Offset;
      DataLayout(c, m, i - 1);
      EntryFacts(c, m[i - 1]);
      NextOffset(RecordSize(c.fields), i - 1);
    }
  }

  /** The bytes of `r`, as a buffer hands them out, are those of `data` from `o` on. */
  ghost predicate LiesAt(data: seq<byte>, o: nat, r: Record) {
    o + |EncodeRecord(r)| <= |data| && data[o..o + |EncodeRecord(r)|] == Copied(EncodeRecord(r))
  }

  lemma LiesStill(data: seq<byte>, more: seq<byte>, o: nat, r: Record)
    requires LiesAt(data, o, r)
    ensures LiesAt(data + more, o, r)
  {
    hide EncodeRecord, Copied;
    var n := o + |EncodeRecord(r)|;
    assert (data + more)[o..n] == data[o..n];
  }

  /** Later entries never disturb the bytes already written: record j stays at its offset. */
  lemma {:induction false} RecordAt(c: Schema, m: Memtable, j: nat, i: nat)
    requires MemOk(c, m) && j < i <= |m|
    ensures var rs := RecordSize(c.fields); LiesAt(Upto(rs, m, i).data, Offset(rs, j), m[j].1)
  {
    hide EncodeRecord, PushKey, Push, EncodePage, MemOk, Offset, Copied, LiesAt;
    var rs := RecordSize(c.fields);
    var data := Upto(rs, m, i - 1).data;
    if j < i - 1 {
      RecordAt(c, m, j, i - 1);
      LiesStill(data, Copied(EncodeRecord(m[i - 1].1)), Offset(rs, j), m[j].1);
    } else {
      DataLayout(c, m, j);
      LiesAtEnd(data, m[j].1);
    }
  }

  lemma LiesAtEnd(data: seq<byte>, r: Record)
    ensures LiesAt(data + Copied(EncodeRecord(r)), |data|, r)
  {
    hide EncodeRecord, Copied;
  }

  // ----- the index file and the summary

  /** `b` has closed all of `pages` but the last, and its summary starts with their first keys. */
  ghost predicate Laid(b: Builder, pages: seq<Entries<nat>>, ty: Type) {
    var q := |pages| - 1;
    && q >= 0
    && b.page == Page(ty, pages[q])
    && b.index == Blocks(ty, pages[..q])
    && SummaryOf(b.summary, pages, ty)
  }

  /** The summary lists the first keys in order, and leaves some out only when it is full. */
  ghost predicate SummaryOf(s: SummaryKeys, pages: seq<Entries<nat>>, ty: Type) {
    && s.ty == ty
    && s.keys <= FirstKeys(pages)
    && (s.keys == FirstKeys(pages) || !Summaries.HasRoom(s))
  }

  lemma PushFirstKey(s: SummaryKeys, pages: seq<Entries<nat>>, ty: Type, e: (Data, nat))
    requires SummaryOf(s, pages, ty)
    ensures SummaryOf(Push(s, e.0), pages + [[e]], ty)
  {
    hide Summaries.HasRoom;
    assert FirstKeys(pages + [[e]]) == FirstKeys(pages) + [e.0];
  }

  lemma StepLays(b: Builder, pages: seq<Entries<nat>>, ty: Type, rs: nat, e: (Data, Record))
    requires Laid(b, pages, ty) && ty.length <= MAX_KEY
    requires var last := pages[|pages| - 1]; last != [] && forall i | 0 <= i < |last| :: Gt(last[i].0, e.0)
    ensures Laid(Step(b, rs, e), AddKey(pages, (e.0, b.offset), ty.length), ty)
  {
    hide Gt, EncodePage, EncodeRecord, Push, Summaries.HasRoom, Copied;
    var q := |pages| - 1;
    var last, pair := pages[q], (e.0, b.offset);
    var r := AddKey(pages, pair, ty.length);
    assert IndexPages.HasRoom(b.page) <==> !PageFull(last, ty.length) by {
      assert |last| * (ty.length + 8) + (ty.length + 8) == (|last| + 1) * (ty.length + 8);
    }
    if IndexPages.HasRoom(b.page) {
      AssignAtEnd(last, e.0, b.offset);
      assert r[..q] == pages[..q];
      assert FirstKeys(r) == FirstKeys(pages);
    } else {
      assert r[..q + 1] == pages;
      assert Assign([], e.0, b.offset) == [pair];
      PushFirstKey(b.summary, pages, ty, pair);
    }
  }

  lemma FirstStepLays(c: Schema, m: Memtable)
    requires MemOk(c, m) && 0 < |m| && KeyType(c).length <= MAX_KEY
    ensures Laid(Upto(RecordSize(c.fields), m, 1), [[(m[0].0, 0)]], KeyType(c))
  {
    hide Descending, EncodePage, EncodeRecord, Copied, TypeOf, Block, Push, Step;
    EntryFacts(c, m[0]);
    var k, rs, ty := m[0].0, RecordSize(c.fields), KeyType(c);
    assert Upto(rs, m, 0) == Begin(k);
    assert Upto(rs, m, 1) == Step(Begin(k), rs, m[0]);
    FirstPage(k, rs, m[0], ty);
    assert [[(k, 0)]][..0] == [];
    assert Blocks(ty, []) == [];
  }

  lemma FirstPage(k: Data, rs: nat, e: (Data, Record), ty: Type)
    requires e.0 == k && TypeOf(k) == ty && ty.length <= MAX_KEY
    ensures var b := Step(Begin(k), rs, e);
      b.page == Page(ty, [(k, 0)]) && b.index == [] && SummaryOf(b.summary, [[(k, 0)]], ty)
  {
    hide EncodePage, EncodeRecord, Copied, TypeOf, Block;
    assert FirstKeys([[(k, 0)]]) == [k];
  }

  /** The flush of a memtable whose keys are at most 4082 bytes long: its index pages are the greedy
      pagination of the (key, offset) pairs, and its summary their first keys. */
  lemma {:induction false} IndexLayout(c: Schema, m: Memtable, i: nat)
    requires MemOk(c, m) && 0 < i <= |m| && KeyType(c).length <= MAX_KEY
    ensures var rs := RecordSize(c.fields);
      Laid(Upto(rs, m, i), Paginate(Located(rs, m, i), KeyType(c).length), KeyType(c))
  {
    hide EncodeRecord, EncodePage, EntryOk, Gt, Laid, AddKey, Offset, Step, Descending;
    var rs, ty := RecordSize(c.fields), KeyType(c);
    var ks := Located(rs, m, i);
    var n := i - 1;
    if n == 0 {
      FirstStepLays(c, m);
      DataLayout(c, m, 0);
      assert ks == [(m[0].0, 0)];
    } else {
      IndexLayout(c, m, n);
      assert ks[..n] == Located(rs, m, n);
      LastPageAbove(c, m, n);
      DataLayout(c, m, n);
      StepLays(Upto(rs, m, n), Paginate(ks[..n], ty.length), ty, rs, m[n]);
    }
  }

  lemma LastPageAbove(c: Schema, m: Memtable, n: nat)
    requires MemOk(c, m) && 0 < n < |m| && KeyType(c).length <= MAX_KEY
    ensures var pages := Paginate(Located(RecordSize(c.fields), m, n), KeyType(c).length);
      var last := pages[|pages| - 1];
      last != [] && forall i | 0 <= i < |last| :: Gt(last[i].0, m[n].0)
  {
    hide EntryOk, Gt, Paginate, Offset;
    LastPageIsSuffix(Located(RecordSize(c.fields), m, n), KeyType(c).length);
  }

  /** Page `p` of an index file, from byte p * 4096 on. */
  ghost predicate PageAt(index: seq<byte>, p: nat, page: Page) {
    p * PAGE_SIZE + PAGE_SIZE <= |index| && index[p * PAGE_SIZE..p * PAGE_SIZE + PAGE_SIZE] == Block(EncodePage(page))
  }

  lemma {:induction false} BlocksAt(ty: Type, pages: seq<Entries<nat>>, p: nat)
    requires forall q | 0 <= q < |pages| :: |EncodePage(Page(ty, pages[q]))| <= PAGE_SIZE
    ensures |Blocks(ty, pages)| == |pages| * PAGE_SIZE
    ensures p < |pages| ==> PageAt(Blocks(ty, pages), p, Page(ty, pages[p]))
  {
    hide EncodePage, Block;
    var n := |pages| - 1;
    if n >= 0 {
      BlocksAt(ty, pages[..n], p);
      var a, b := Blocks(ty, pages[..n]), Block(EncodePage(Page(ty, pages[n])));
      assert Blocks(ty, pages) == a + b;
      if p < n {
        assert (a + b)[p * PAGE_SIZE..p * PAGE_SIZE + PAGE_SIZE] == a[p * PAGE_SIZE..p * PAGE_SIZE + PAGE_SIZE];
      }
    }
  }

  /** A page of the located keys encodes to at most 4096 bytes. */
  lemma PagesEncode(c: Schema, m: Memtable, p: nat)
    requires MemOk(c, m) && 0 < |m| && KeyType(c).length <= MAX_KEY && p < |PagesOf(c, m)|
    ensures |EncodePage(Page(KeyType(c), PagesOf(c, m)[p]))| <= PAGE_SIZE
  {
    hide EncodePage, PagesOf, EntryOk, Descending;
    var ks, pages := Located(RecordSize(c.fields), m, |m|), PagesOf(c, m);
    assert PagesOf(c, m) == Paginate(ks, KeyType(c).length) by { BuildIsUpto(c, m); }
    PaginatePartitions(ks, KeyType(c).length);
    assert PageFits(pages[p], KeyType(c).length);
    forall i | 0 <= i < |pages[p]| ensures TypeOf(pages[p][i].0) == KeyType(c) {
      FlattenHolds(pages, p, i);
      var j :| 0 <= j < |ks| && ks[j] == pages[p][i];
      EntryFacts(c, m[j]);
    }
    PageEncodes(Page(KeyType(c), pages[p]));
  }

  lemma {:induction false} FlattenHolds(pages: seq<Entries<nat>>, p: nat, i: nat)
    requires p < |pages| && i < |pages[p]|
    ensures pages[p][i] in Flatten(pages)
  {
    var q := |pages| - 1;
    if p < q { FlattenHolds(pages[..q], p, i); }
  }

  /** The pages an sstable's index file consists of. */
  ghost function PagesOf(c: Schema, m: Memtable): (pages: seq<Entries<nat>>)
    requires HasKey(c)
  {
    Paginate(Located(RecordSize(c.fields), m, |m|), KeyType(c).length)
  }

  /** The whole flush, for any nonempty memtable with keys of at most 4082 bytes whose record size is
      not negative as an int; a record is whole on disk when its size is below 2^31 (CopiedWhole). */
  lemma FlushLayout(c: Schema, m: Memtable)
    requires MemOk(c, m) && 0 < |m| && KeyType(c).length <= MAX_KEY && IntOf(RecordSize(c.fields)) >= 0
    ensures var t := Build(c, m); var rs := RecordSize(c.fields); var pages := PagesOf(c, m);
      && |t.data| == Offset(rs, |m|)
      && (forall j | 0 <= j < |m| :: LiesAt(t.data, Offset(rs, j), m[j].1))
      && Flatten(pages) == Located(rs, m, |m|)
      && (forall p | 0 <= p < |pages| :: PageFits(pages[p], KeyType(c).length))
      && t.index == Blocks(KeyType(c), pages)
      && |t.index| == |pages| * PAGE_SIZE
      && (forall p | 0 <= p < |pages| :: PageAt(t.index, p, Page(KeyType(c), pages[p])))
      && SummaryOf(t.summary, pages, KeyType(c))
  {
    assert HasKey(c);
    hide *;
    var rs, pages := RecordSize(c.fields), PagesOf(c, m);
    BuildIsUpto(c, m);
    DataLayout(c, m, |m|);
    forall j | 0 <= j < |m| ensures LiesAt(Build(c, m).data, Offset(rs, j), m[j].1) {
      RecordAt(c, m, j, |m|);
    }
    PaginatePartitions(Located(rs, m, |m|), KeyType(c).length);
    IndexLayout(c, m, |m|);
    LaidIndex(Upto(rs, m, |m|), pages, KeyType(c));
    forall p | 0 <= p < |pages| ensures |EncodePage(Page(KeyType(c), pages[p]))| <= PAGE_SIZE { PagesEncode(c, m, p); }
    BlocksAt(KeyType(c), pages, 0);
    forall p | 0 <= p < |pages| ensures PageAt(Build(c, m).index, p, Page(KeyType(c), pages[p])) {
      BlocksAt(KeyType(c), pages, p);
    }
  }

  lemma BuildIsUpto(c: Schema, m: Memtable)
    requires HasKey(c) && 0 < |m|
    ensures IntOf(RecordSize(c.fields)) >= 0 ==> var b := Upto(RecordSize(c.fields), m, |m|);
      Build(c, m) == Sstable(b.data, b.index + Block(EncodePage(b.page)), Block(EncodeSummary(b.summary)), b.summary)
    ensures PagesOf(c, m) == Paginate(Located(RecordSize(c.fields), m, |m|), KeyType(c).length)
  {
  }

  lemma LaidIndex(b: Builder, pages: seq<Entries<nat>>, ty: Type)
    requires Laid(b, pages, ty)
    ensures b.index + Block(EncodePage(b.page)) == Blocks(ty, pages)
    ensures SummaryOf(b.summary, pages, ty)
  {
  }

  // ----- no put overflows its buffer, whatever the key length

  ghost predicate Typed(ks: Entries<nat>, ty: Type) {
    forall i | 0 <= i < |ks| :: TypeOf(ks[i].0) == ty
  }

  lemma {:induction false} AssignTyped(ks: Entries<nat>, k: Data, o: nat)
    requires Typed(ks, TypeOf(k))
    ensures Typed(Assign(ks, k, o), TypeOf(k)) && |Assign(ks, k, o)| <= |ks| + 1
  {
    if ks != [] { AssignTyped(ks[1..], k, o); }
  }

  ghost predicate InBounds(b: Builder, ty: Type) {
    && b.page.ty == ty && Typed(b.page.keys, ty) && PageSize(b.page) <= PAGE_SIZE
    && b.summary.ty == ty && WellTyped(b.summary) && SummarySize(b.summary) <= PAGE_SIZE
  }

  lemma MulLeq(a: nat, b: nat, w: nat)
    requires a <= b
    ensures a * w <= b * w
  {
  }

  lemma PushKeyInBounds(p: Page, k: Data, o: nat)
    requires p.ty == TypeOf(k) && Typed(p.keys, p.ty) && PageSize(p) <= PAGE_SIZE
    ensures var r := PushKey(p, k, o); r.ty == p.ty && Typed(r.keys, p.ty) && PageSize(r) <= PAGE_SIZE
  {
    hide Assign, TypeOf;
    AssignTyped(p.keys, k, o);
    var w := p.ty.length + 8;
    MulLeq(|Assign(p.keys, k, o)|, |p.keys| + 1, w);
    assert (|p.keys| + 1) * w == |p.keys| * w + w;
  }

  lemma PushInBounds(s: SummaryKeys, k: Data)
    requires s.ty == TypeOf(k) && WellTyped(s) && SummarySize(s) <= PAGE_SIZE
    ensures var r := Push(s, k); r.ty == s.ty && WellTyped(r) && SummarySize(r) <= PAGE_SIZE
  {
    assert (|s.keys| + 1) * s.ty.length == |s.keys| * s.ty.length + s.ty.length;
  }

  lemma {:induction false} BuilderInBounds(c: Schema, m: Memtable, i: nat)
    requires MemOk(c, m) && 0 < |m| && i <= |m|
    ensures InBounds(Upto(RecordSize(c.fields), m, i), KeyType(c))
  {
    hide Descending, EntryOk, EncodePage, EncodeRecord, Push, PushKey, PageSize, SummarySize, TypeOf, Copied;
    var ty := KeyType(c);
    if i == 0 {
      EntryFacts(c, m[0]);
      EmptyInBounds(ty);
      PushInBounds(SummaryKeys(ty, []), m[0].0);
    } else {
      BuilderInBounds(c, m, i - 1);
      var b := Upto(RecordSize(c.fields), m, i - 1);
      var (k, r) := m[i - 1];
      EntryFacts(c, m[i - 1]);
      EmptyInBounds(ty);
      PushKeyInBounds(b.page, k, b.offset);
      PushKeyInBounds(Page(ty, []), k, b.offset);
      PushInBounds(b.summary, k);
    }
  }

  lemma EmptyInBounds(ty: Type)
    ensures PageSize(Page(ty, [])) <= PAGE_SIZE && SummarySize(SummaryKeys(ty, [])) <= PAGE_SIZE
  {
  }

  lemma PageEncodes(p: Page)
    requires Typed(p.keys, p.ty)
    ensures |EncodePage(p)| == PageSize(p)
  {
    IndexPages.KeysLength(p.keys, p.ty);
  }

  // ----- the loop itself

  class TableBuilder {
    const schema: Schema
    const records: Memtable
    const page: IndexPage
    const summary: Summary
    var data: seq<byte>
    var index: seq<byte>
    var summaryFile: seq<byte>

    ghost function Value(offset: nat): (b: Builder)
      reads this, page, summary
    {
      Builder(data, index, page.Value(), summary.Value(), offset)
    }

    constructor (c: Schema, m: Memtable)
      requires MemOk(c, m) && 0 < |m|
      ensures schema == c && records == m
      ensures fresh(page) && fresh(summary)
      ensures page.Value() == Page(TypeOf(m[0].0), []) && summary.Value() == SummaryKeys(TypeOf(m[0].0), [])
      ensures data == [] && index == [] && summaryFile == []
    {
      schema := c;
      records := m;
      page := new IndexPage(TypeOf(m[0].0));
      summary := new Summary(TypeOf(m[0].0));
      data, index, summaryFile := [], [], [];
    }

    method WriteIndexFile()
      requires |EncodePage(page.Value())| <= PAGE_SIZE
      modifies this`index
      ensures index == old(index) + Block(EncodePage(page.Value()))
    {
      hide EncodePage;
      var buf := new MemoryBuffer(PAGE_SIZE);
      var ok := page.PutPage(buf);
      BlockOf(buf, EncodePage(page.Value()));
      var bytes := buf.Bytes();
      CopiedWhole(buf.data[..]);
      index := index + bytes[..];
    }

    method WriteSummaryFile()
      requires |EncodeSummary(summary.Value())| <= PAGE_SIZE
      modifies this`summaryFile
      ensures summaryFile == Block(EncodeSummary(summary.Value()))
    {
      hide EncodeSummary;
      var buf := new MemoryBuffer(PAGE_SIZE);
      var ok := summary.PutSummary(buf);
      BlockOf(buf, EncodeSummary(summary.Value()));
      var bytes := buf.Bytes();
      CopiedWhole(buf.data[..]);
      summaryFile := bytes[..];
    }

    /** False when the number of bytes written, kept in an int, is negative. */
    method WriteRecord(r: Record) returns (ok: bool)
      requires Verify(schema.fields, r)
      modifies this`data
      ensures data == old(data) + Copied(EncodeRecord(r))
      ensures ok == (IntOf(RecordSize(schema.fields)) >= 0)
    {
      hide EncodeRecord, Verify, ParseRecord, RecordSize, Copied;
      var size := SumRecordSize(schema.fields);
      var buf := new MemoryBuffer(size);
      RecordRoundTrip(schema.fields, r, []);
      var _ := PutRecord(buf, r);
      FilledBy(buf, EncodeRecord(r));
      var bytes := buf.Bytes();
      data := data + bytes[..];
      return IntOf(size) >= 0;
    }

    /** One turn of the loop: the record's bytes, then its key on this page or on a new one. */
    method AddEntry(e: (Data, Record), keyOffset: nat) returns (ok: bool)
      requires HasKey(schema) && EntryOk(schema, e) && InBounds(Value(keyOffset), KeyType(schema))
      modifies this`data, this`index, page, summary
      ensures ok == (IntOf(RecordSize(schema.fields)) >= 0)
      ensures ok ==>
        Value(keyOffset + RecordSize(schema.fields)) == Step(old(Value(keyOffset)), RecordSize(schema.fields), e)
      ensures !ok ==> Value(keyOffset) == old(Value(keyOffset)).(data := old(data) + Copied(EncodeRecord(e.1)))
    {
      hide EncodeRecord, EncodePage, Assign, Copied;
      ok := WriteRecord(e.1);
      if !ok { return; }
      var pushed := page.PushBack(e.0, keyOffset);
      if !pushed {
        var _ := summary.PushBack(e.0);
        PageEncodes(page.Value());
        WriteIndexFile();
        page.Clear();
        var _ := page.PushBack(e.0, keyOffset);
      }
    }

    method ConstructSstableFiles()
      requires MemOk(schema, records) && 0 < |records|
      requires page.Value() == Page(TypeOf(records[0].0), [])
      requires summary.Value() == SummaryKeys(TypeOf(records[0].0), [])
      requires data == [] && index == [] && summaryFile == []
      modifies this, page, summary
      ensures Sstable(data, index, summaryFile, summary.Value()) == Build(schema, records)
    {
      hide EncodePage, EncodeSummary, Step, InBounds, EntryOk, Push, Copied, EncodeRecord;
      var rs := SumRecordSize(schema.fields);
      var keyOffset := 0;
      var _ := summary.PushBack(records[0].0);
      for i := 0 to |records|
        invariant Value(keyOffset) == Upto(rs, records, i) && summaryFile == []
        invariant i > 0 ==> IntOf(rs) >= 0
      {
        BuilderInBounds(schema, records, i);
        var ok := AddEntry(records[i], keyOffset);
        if !ok {
          return;
        }
        keyOffset := keyOffset + rs;
      }
      BuilderInBounds(schema, records, |records|);
      InBoundsFits(Value(keyOffset), KeyType(schema));
      WriteIndexFile();
      WriteSummaryFile();
    }
  }

  lemma InBoundsFits(b: Builder, ty: Type)
    requires InBounds(b, ty)
    ensures |EncodePage(b.page)| <= PAGE_SIZE && |EncodeSummary(b.summary)| <= PAGE_SIZE
  {
    PageEncodes(b.page);
    SummaryLength(b.summary);
  }

  lemma FilledBy(buf: MemoryBuffer, s: seq<byte>)
    requires buf.Valid() && buf.data.Length == |s|
    requires Wrote([], Zeros(|s|), buf.Before(), buf.After(), s)
    ensures buf.data[..] == s
  {
    assert buf.data[..] == buf.Before() + buf.After();
  }

  lemma BlockOf(buf: MemoryBuffer, s: seq<byte>)
    requires buf.Valid() && buf.data.Length == PAGE_SIZE && |s| <= PAGE_SIZE
    requires Wrote([], Zeros(PAGE_SIZE), buf.Before(), buf.After(), s)
    ensures buf.data[..] == Block(s)
  {
    assert buf.data[..] == buf.Before() + buf.After();
    assert Zeros(PAGE_SIZE)[|s|..] == Zeros(PAGE_SIZE - |s|);
  }
}
