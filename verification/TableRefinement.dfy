/** A table's memtable, sstable files and byte-level reads answer like one simple map. */
module TableRefinement {
  import opened Bytes
  import opened Buffer
  import opened Data
  import opened OrderedMap
  import opened Catalog
  import opened IndexPages
  import opened Summaries
  import opened TableBuilders
  import opened DiskManagers
  import opened TableManagers

  // ----- the simple map

  /** What is on disk, and the one record that may still be waiting in memory. */
  datatype Ref = Ref(base: map<Data, Record>, pending: Option<(Data, Record)>)

  ghost function View(ref: Ref): (m: map<Data, Record>) {
    match ref.pending
    case None => ref.base
    case Some(e) => ref.base[e.0 := e.1]
  }

  /** A write is ignored while its key is pending; the second pending key sends both to disk. */
  ghost function RefWrite(c: Schema, ref: Ref, r: Record): (w: (Ref, WriteOutcome))
    requires HasKey(c)
  {
    if !Verify(c.fields, r) then (ref, SchemaMismatch)
    else
      var k := r[c.sortKey];
      match ref.pending
      case None => (ref.(pending := Some((k, r))), Written)
      case Some(e) => if e.0 == k then (ref, Written) else (Ref(View(ref)[k := r], None), Written)
  }

  ghost function RefRead(c: Schema, ref: Ref, k: Data): (r: Outcome)
    requires HasKey(c)
  {
    if TypeOf(k).id != KeyType(c).id then (if View(ref) == map[] then NotFound else Error)
    else if k in View(ref) then Found(View(ref)[k]) else NotFound
  }

  // ----- one sstable whose index is a single page

  function FindAt<V>(m: Entries<V>, k: Data): (r: Option<nat>)
    ensures r.Some? ==> r.value < |m|
    ensures Find(m, k) == if r.Some? then Some(m[r.value].1) else None
  {
    if m == [] then None
    else if Gt(m[0].0, k) then match FindAt(m[1..], k) { case None => None case Some(j) => Some(j + 1) }
    else if Gt(k, m[0].0) then None
    else Some(0)
  }

  lemma {:induction false} FindAtSame<V, W>(a: Entries<V>, b: Entries<W>, k: Data)
    requires |a| == |b| && forall i | 0 <= i < |a| :: a[i].0 == b[i].0
    ensures FindAt(a, k) == FindAt(b, k)
  {
    hide Gt;
    if a != [] { FindAtSame(a[1..], b[1..], k); }
  }

  ghost predicate OnePage(c: Schema, m: Memtable)
    requires HasKey(c)
  {
    && 0 < |m| <= 255
    && IndexPages.SizeOf(|m|, KeyType(c).length) <= PAGE_SIZE
    && IntOf(RecordSize(c.fields)) >= 0 && Offset(RecordSize(c.fields), |m|) < 0x8000_0000_0000_0000
  }

  lemma {:induction false} PaginateOne(ks: Entries<nat>, length: nat)
    requires IndexPages.SizeOf(|ks|, length) <= PAGE_SIZE
    ensures Paginate(ks, length) == [ks]
    decreases |ks|
  {
    if |ks| > 1 {
      var n := |ks| - 1;
      MulLeq(n, |ks|, length + 8);
      PaginateOne(ks[..n], length);
      assert ks == ks[..n] + [ks[n]];
      assert [ks[..n]][..0] + [ks[..n] + [ks[n]]] == [ks];
    }
  }

  lemma KeyFits(c: Schema, m: Memtable)
    requires HasKey(c) && OnePage(c, m)
    ensures KeyType(c).length <= MAX_KEY
  {
    MulLeq(1, |m|, KeyType(c).length + 8);
  }

  lemma SinglePage(c: Schema, m: Memtable)
    requires MemOk(c, m) && OnePage(c, m)
    ensures var t := Build(c, m);
      && t.index == Block(EncodePage(Page(KeyType(c), Located(RecordSize(c.fields), m, |m|))))
      && t.summary == SummaryKeys(KeyType(c), [m[0].0])
  {
    hide EncodePage, EncodeSummary, Laid, Upto, Paginate, IndexPages.SizeOf;
    var ks := Located(RecordSize(c.fields), m, |m|);
    KeyFits(c, m);
    PaginateOne(ks, KeyType(c).length);
    IndexLayout(c, m, |m|);
    SingleSummary(Upto(RecordSize(c.fields), m, |m|), ks, KeyType(c));
  }

  lemma SingleSummary(b: Builder, ks: Entries<nat>, ty: Type)
    requires ks != [] && Laid(b, [ks], ty) && ty.length <= MAX_KEY
    ensures b.index == [] && b.page == Page(ty, ks)
    ensures b.summary == SummaryKeys(ty, [ks[0].0])
  {
    hide EncodePage;
    assert FirstKeys([ks]) == [ks[0].0];
    assert |b.summary.keys| <= 1;
    assert |b.summary.keys| == 0 ==> Summaries.HasRoom(b.summary);
  }

  ghost predicate Stored(d: Files, name: ByteString, id: nat, t: Sstable) {
    && t.data <= Contents(d, DataFile(name, id))
    && t.index <= Contents(d, IndexFile(name, id))
    && t.summaryFile <= Contents(d, SummaryFile(name, id))
  }

  lemma PageWellFormed(c: Schema, m: Memtable)
    requires MemOk(c, m) && OnePage(c, m)
    ensures var p := Page(KeyType(c), Located(RecordSize(c.fields), m, |m|));
      WellFormed(p) && |EncodePage(p)| <= PAGE_SIZE
  {
    hide Gt, TypeOf, EncodePage, EntryOk;
    var rs := RecordSize(c.fields);
    var p := Page(KeyType(c), Located(rs, m, |m|));
    forall i | 0 <= i < |m| ensures TypeOf(m[i].0) == KeyType(c) && Offset(rs, i) < 0x8000_0000_0000_0000 {
      EntryFacts(c, m[i]);
      MulLeq(i, |m|, rs);
    }
    PageLength(p);
  }

  lemma LoadsPage(c: Schema, m: Memtable, d: Files, name: ByteString, id: nat, junk: Junk)
    requires MemOk(c, m) && OnePage(c, m) && Stored(d, name, id, Build(c, m))
    ensures var p := LoadPage(d, name, id, 0, junk);
      p.Ok? && p.value == Page(KeyType(c), Located(RecordSize(c.fields), m, |m|))
  {
    hide Build, EncodePage, ParsePage, MemOk, OnePage;
    assert HasKey(c) by { MemHasKey(c, m); }
    var p := Page(KeyType(c), Located(RecordSize(c.fields), m, |m|));
    SinglePage(c, m);
    PageWellFormed(c, m);
    var image := Block(EncodePage(p));
    ReadWithin(Contents(d, IndexFile(name, id)), image, 0, PAGE_SIZE, junk);
    assert image[0..PAGE_SIZE] == image;
    OnePageCount(c, m);
    PageRoundTrip(p, Zeros(PAGE_SIZE - |EncodePage(p)|));
    assert |EncodePage(p)| == PAGE_SIZE ==> EncodePage(p) + Zeros(0) == EncodePage(p);
  }

  lemma OnePageCount(c: Schema, m: Memtable)
    requires HasKey(c) && OnePage(c, m)
    ensures 0 < |m| <= 255 && IntOf(RecordSize(c.fields)) >= 0
  {
  }

  /** The data file holds each record as a buffer hands it out. */
  lemma RecordCopied(c: Schema, m: Memtable, j: nat)
    requires MemOk(c, m) && IntOf(RecordSize(c.fields)) >= 0 && j < |m|
    ensures var rs, data := RecordSize(c.fields), Build(c, m).data; var o := Offset(rs, j);
      o + rs <= |data| && data[o..o + rs] == Copied(EncodeRecord(m[j].1))
  {
    hide Upto, EncodeRecord, EntryOk, Copied, Build, Offset, Descending;
    BuildIsUpto(c, m);
    RecordAt(c, m, j, |m|);
    EntryFacts(c, m[j]);
  }

  /** Below 2^31 bytes that is the record itself. */
  lemma RecordStored(c: Schema, m: Memtable, j: nat)
    requires MemOk(c, m) && RecordSize(c.fields) < INT_LIMIT && j < |m|
    ensures var rs, data := RecordSize(c.fields), Build(c, m).data; var o := Offset(rs, j);
      o + rs <= |data| && data[o..o + rs] == EncodeRecord(m[j].1)
  {
    hide EncodeRecord, EntryOk, Copied, Build, Offset, Descending;
    RecordCopied(c, m, j);
    EntryFacts(c, m[j]);
    CopiedWhole(EncodeRecord(m[j].1));
  }

  lemma LoadsCopy(c: Schema, m: Memtable, d: Files, name: ByteString, id: nat, j: nat, junk: Junk)
    requires MemOk(c, m) && OnePage(c, m) && Stored(d, name, id, Build(c, m)) && j < |m|
    ensures Offset(RecordSize(c.fields), j) < 0x8000_0000_0000_0000
    ensures LoadRecord(d, name, id, c.fields, Offset(RecordSize(c.fields), j), junk)
         == ParseRecord(Copied(EncodeRecord(m[j].1)), c.fields)
  {
    hide Build, EncodeRecord, ParseRecord, EntryOk, Descending, ReadAt, Contents, Copied;
    var rs := RecordSize(c.fields);
    MulLeq(j, |m|, rs);
    hide Offset;
    RecordCopied(c, m, j);
    ReadWithin(Contents(d, DataFile(name, id)), Build(c, m).data, Offset(rs, j), rs, junk);
  }

  lemma LoadsRecord(c: Schema, m: Memtable, d: Files, name: ByteString, id: nat, j: nat, junk: Junk)
    requires MemOk(c, m) && OnePage(c, m) && Stored(d, name, id, Build(c, m)) && j < |m|
    requires RecordSize(c.fields) < INT_LIMIT
    ensures Offset(RecordSize(c.fields), j) < 0x8000_0000_0000_0000
    ensures var p := LoadRecord(d, name, id, c.fields, Offset(RecordSize(c.fields), j), junk);
      p.Ok? && p.value == m[j].1
  {
    hide Build, EncodeRecord, ParseRecord, EntryOk, Offset, Descending, LoadRecord, Copied, Stored, OnePage;
    LoadsCopy(c, m, d, name, id, j, junk);
    EntryFacts(c, m[j]);
    CopiedWhole(EncodeRecord(m[j].1));
  }

  function AsOutcome(r: Option<Record>): (o: Outcome) {
    match r case None => NotFound case Some(v) => Found(v)
  }

  /** Summary, index page, offset and data record together are a lookup in the flushed memtable. */
  lemma SstableAnswers(d: Files, m: Manager, id: nat, layer: Memtable, k: Data, junk: Junk)
    requires id < |m.summaries| && MemOk(m.schema, layer) && OnePage(m.schema, layer)
    requires RecordSize(m.schema.fields) < INT_LIMIT
    requires Stored(d, m.name, id, Build(m.schema, layer)) && m.summaries[id] == Build(m.schema, layer).summary
    ensures ReadSstable(d, m, id, k, junk)
         == if TypeOf(k).id != KeyType(m.schema).id then Error else AsOutcome(Find(layer, k))
  {
    hide Build, MemOk, OnePage, Stored, LoadPage, LoadRecord, TypeOf, Find, Offset;
    assert HasKey(m.schema) by { MemHasKey(m.schema, layer); }
    var c, rs := m.schema, RecordSize(m.schema.fields);
    var ks := Located(rs, layer, |layer|);
    OnePageCount(c, layer);
    SinglePage(c, layer);
    LoadsPage(c, layer, d, m.name, id, junk);
    FindAtSame(ks, layer, k);
    var j := FindAt(layer, k);
    if j.Some? {
      LoadsRecord(c, layer, d, m.name, id, j.value, junk);
    }
  }

  // ----- the stack of sstables

  ghost function Base(layers: seq<Memtable>): (m: map<Data, Record>) {
    if layers == [] then map[]
    else Base(layers[..|layers| - 1]) + ToMap(layers[|layers| - 1])
  }

  ghost predicate LayerOk(d: Files, m: Manager, id: nat, layer: Memtable)
    requires id < |m.summaries|
  {
    && MemOk(m.schema, layer) && OnePage(m.schema, layer) && RecordSize(m.schema.fields) < INT_LIMIT
    && Stored(d, m.name, id, Build(m.schema, layer))
    && m.summaries[id] == Build(m.schema, layer).summary
  }

  lemma {:induction false} LayersAnswer(d: Files, m: Manager, layers: seq<Memtable>, n: nat, k: Data, junk: Junk)
    requires n <= |layers| == |m.summaries| && HasKey(m.schema)
    requires forall i | 0 <= i < |layers| :: LayerOk(d, m, i, layers[i])
    ensures ReadSstables(d, m, n, k, junk)
         == if TypeOf(k).id != KeyType(m.schema).id then (if n == 0 then NotFound else Error)
            else AsOutcome(Get(Base(layers[..n]), k))
  {
    hide ReadSstable, TypeOf, Find, MemOk, OnePage, Stored, Build;
    if n > 0 {
      var layer := layers[n - 1];
      LayersAnswer(d, m, layers, n - 1, k, junk);
      assert LayerOk(d, m, n - 1, layer);
      SstableAnswers(d, m, n - 1, layer, k, junk);
      assert layers[..n][..n - 1] == layers[..n - 1];
      if TypeOf(k).id == KeyType(m.schema).id {
        MemKind(m.schema, layer);
        FindIsLookup(layer, k);
      }
    }
  }

  lemma {:induction false} BaseNonempty(layers: seq<Memtable>)
    requires layers != [] && forall i | 0 <= i < |layers| :: layers[i] != []
    ensures Base(layers) != map[]
  {
    var last := layers[|layers| - 1];
    assert last[0].0 in ToMap(last);
    assert last[0].0 in Base(layers);
  }

  // ----- the table as a whole

  /** Tables for which the code keeps its promise: two (key, offset) pairs share one page, and a
      record's size is an int. */
  const MAX_SAFE_KEY: nat := 2037

  predicate SchemaOk(c: Schema) {
    HasKey(c) && KeyType(c).length <= MAX_SAFE_KEY && RecordSize(c.fields) < INT_LIMIT
  }

  ghost predicate Represents(d: Files, m: Manager, layers: seq<Memtable>, ref: Ref) {
    && SchemaOk(m.schema)
    && MemOk(m.schema, m.mem) && |m.mem| <= 1
    && |layers| == |m.summaries|
    && (forall i | 0 <= i < |layers| :: LayerOk(d, m, i, layers[i]))
    && ref == Ref(Base(layers), if m.mem == [] then None else Some(m.mem[0]))
  }

  lemma StartRepresents(d: Files, name: ByteString, c: Schema)
    requires SchemaOk(c)
    ensures Represents(d, Manager(name, c, [], []), [], Ref(map[], None))
  {
  }

  lemma {:induction false} LayersNonempty(d: Files, m: Manager, layers: seq<Memtable>, ref: Ref)
    requires Represents(d, m, layers, ref)
    ensures View(ref) == map[] <==> m.mem == [] && layers == []
  {
    hide MemOk, Stored, Build;
    forall i | 0 <= i < |layers| ensures layers[i] != [] { assert LayerOk(d, m, i, layers[i]); }
    if layers != [] { BaseNonempty(layers); }
    if m.mem != [] { assert m.mem[0].0 in View(ref); }
  }

  /** read_record answers from the simple map, whatever the allocator left in its buffers. */
  lemma ReadAgrees(d: Files, m: Manager, layers: seq<Memtable>, ref: Ref, k: Data, junk: Junk)
    requires Represents(d, m, layers, ref)
    ensures Read(d, m, k, junk) == RefRead(m.schema, ref, k)
  {
    hide LayerOk, ReadSstables, TypeOf, Find, MemOk, Base;
    LayersNonempty(d, m, layers, ref);
    LayersAnswer(d, m, layers, |layers|, k, junk);
    assert layers[..|layers|] == layers;
    MemAnswers(m.schema, m.mem, k);
  }

  lemma MemAnswers(c: Schema, mem: Memtable, k: Data)
    requires MemOk(c, mem) && |mem| <= 1
    ensures mem != [] ==> TypeOf(mem[0].0).id == KeyType(c).id
    ensures mem == [] || TypeOf(k).id == KeyType(c).id ==>
      Find(mem, k) == if mem != [] && mem[0].0 == k then Some(mem[0].1) else None
  {
    hide TypeOf, Gt;
    MemKind(c, mem);
    if mem != [] && TypeOf(k).id == KeyType(c).id {
      FindIsLookup(mem, k);
      OneEntryMap(mem);
    }
  }

  lemma OneEntryMap(m: Memtable)
    requires |m| == 1
    ensures ToMap(m) == map[m[0].0 := m[0].1]
  {
    assert m[1..] == [];
    assert ToMap(m[1..]) == map[];
  }

  lemma SaveStores(d: Files, name: ByteString, id: nat, t: Sstable)
    ensures Stored(Save(d, name, id, t), name, id, t)
  {
  }

  /** A flush touches only the three files of the new sstable. */
  lemma SaveKeeps(d: Files, name: ByteString, id: nat, t: Sstable, f: FileName)
    requires f !in {DataFile(name, id), IndexFile(name, id), SummaryFile(name, id)}
    ensures Contents(Save(d, name, id, t), f) == Contents(d, f)
  {
  }

  lemma FlushRepresents(d: Files, m: Manager, layers: seq<Memtable>)
    requires SchemaOk(m.schema) && MemOk(m.schema, m.mem) && |m.mem| == 2 && |layers| == |m.summaries|
    requires forall i | 0 <= i < |layers| :: LayerOk(d, m, i, layers[i])
    ensures var (d', m') := Flush(d, m);
      Represents(d', m', layers + [m.mem], Ref(Base(layers) + ToMap(m.mem), None))
  {
    hide Build, Save, MemOk, Base, ToMap;
    var (d', m') := Flush(d, m);
    var n, layers' := |layers|, layers + [m.mem];
    var t := Build(m.schema, m.mem);
    assert Offset(RecordSize(m.schema.fields), 2) == 2 * RecordSize(m.schema.fields);
    assert OnePage(m.schema, m.mem);
    SaveStores(d, m.name, n, t);
    forall i | 0 <= i < n + 1 ensures LayerOk(d', m', i, layers'[i]) {
      if i < n {
        assert LayerOk(d, m, i, layers[i]);
        SaveKeeps(d, m.name, n, t, DataFile(m.name, i));
        SaveKeeps(d, m.name, n, t, IndexFile(m.name, i));
        SaveKeeps(d, m.name, n, t, SummaryFile(m.name, i));
      }
    }
    BaseAppend(layers, m.mem);
    EmptyMemOk(m.schema);
  }

  lemma BaseAppend(layers: seq<Memtable>, layer: Memtable)
    ensures Base(layers + [layer]) == Base(layers) + ToMap(layer)
  {
    assert (layers + [layer])[..|layers|] == layers;
  }

  /** The layers after a write: a second distinct key turns the memtable into the newest layer. */
  ghost function NextLayers(m: Manager, layers: seq<Memtable>, r: Record): (l: seq<Memtable>)
    requires HasKey(m.schema)
  {
    if !Verify(m.schema.fields, r) then layers
    else
      var mem := Insert(m.mem, r[m.schema.sortKey], r);
      if |mem| >= MEMTABLE_LIMIT then layers + [mem] else layers
  }

  /** What a represented table's memtable is, and how one more entry represents the next state. */
  lemma RepresentsPending(d: Files, m: Manager, layers: seq<Memtable>, ref: Ref, mem: Memtable)
    requires Represents(d, m, layers, ref) && MemOk(m.schema, mem) && |mem| <= 1
    ensures Represents(d, m.(mem := mem), layers, Ref(ref.base, if mem == [] then None else Some(mem[0])))
  {
    hide LayerOk, MemOk, SchemaOk, Base;
    SameLayers(d, m, m.(mem := mem), layers);
  }

  lemma WriteFirst(d: Files, m: Manager, layers: seq<Memtable>, ref: Ref, r: Record)
    requires Represents(d, m, layers, ref) && m.mem == [] && Verify(m.schema.fields, r) && HasKey(m.schema)
    ensures var (d', m', w) := Write(d, m, r); var (ref', w') := RefWrite(m.schema, ref, r);
      w == w' && Represents(d', m', NextLayers(m, layers, r), ref')
  {
    var k := r[m.schema.sortKey];
    InsertKeepsMemOk(m.schema, m.mem, r);
    assert Insert(m.mem, k, r) == [(k, r)];
    assert ref.pending == None;
    hide Flush, MemOk, SchemaOk, Represents, Insert, Verify, HasKey;
    RepresentsPending(d, m, layers, ref, [(k, r)]);
  }

  lemma InsertSecond(c: Schema, mem: Memtable, r: Record)
    requires MemOk(c, mem) && |mem| == 1 && Verify(c.fields, r)
    ensures var k := r[c.sortKey]; var mem' := Insert(mem, k, r);
      && MemOk(c, mem')
      && (mem[0].0 == k ==> mem' == mem)
      && (mem[0].0 != k ==> |mem'| == 2 && ToMap(mem') == map[mem[0].0 := mem[0].1, k := r])
  {
    hide Gt, Assign, Descending;
    var k := r[c.sortKey];
    InsertKeepsMemOk(c, mem, r);
    MemKind(c, mem);
    EntryFacts(c, (k, r));
    FindIsLookup(mem, k);
    InsertKeeps(mem, k, r);
    OneEntryMap(mem);
  }

  lemma RepresentsParts(d: Files, m: Manager, layers: seq<Memtable>, ref: Ref)
    requires Represents(d, m, layers, ref) && |m.mem| == 1
    ensures SchemaOk(m.schema) && MemOk(m.schema, m.mem) && |layers| == |m.summaries|
    ensures forall i | 0 <= i < |layers| :: LayerOk(d, m, i, layers[i])
    ensures ref == Ref(Base(layers), Some(m.mem[0]))
  {
    hide LayerOk, MemOk, SchemaOk, Base;
  }

  lemma AddTwo(base: map<Data, Record>, e: (Data, Record), k: Data, r: Record)
    ensures base + map[e.0 := e.1, k := r] == base[e.0 := e.1][k := r]
  {
  }

  lemma WriteSecond(d: Files, m: Manager, layers: seq<Memtable>, ref: Ref, r: Record)
    requires Represents(d, m, layers, ref) && |m.mem| == 1 && Verify(m.schema.fields, r) && HasKey(m.schema)
    ensures var (d', m', w) := Write(d, m, r); var (ref', w') := RefWrite(m.schema, ref, r);
      w == w' && Represents(d', m', NextLayers(m, layers, r), ref')
  {
    var k := r[m.schema.sortKey];
    hide Flush, LayerOk, Insert, Base, MemOk, Verify, HasKey, Represents, SchemaOk, ToMap;
    RepresentsParts(d, m, layers, ref);
    InsertSecond(m.schema, m.mem, r);
    var m1 := m.(mem := Insert(m.mem, k, r));
    if m.mem[0].0 != k {
      SameLayers(d, m, m1, layers);
      FlushRepresents(d, m1, layers);
      AddTwo(Base(layers), m.mem[0], k, r);
    }
  }

  /** write_record keeps the correspondence and changes the simple map as RefWrite says. */
  lemma WriteAgrees(d: Files, m: Manager, layers: seq<Memtable>, ref: Ref, r: Record)
    requires Represents(d, m, layers, ref)
    ensures var (d', m', w) := Write(d, m, r); var (ref', w') := RefWrite(m.schema, ref, r);
      w == w' && Represents(d', m', NextLayers(m, layers, r), ref')
  {
    assert HasKey(m.schema) && |m.mem| <= 1;
    hide Represents, Verify, Flush, Insert, View, HasKey;
    if Verify(m.schema.fields, r) {
      if m.mem == [] { WriteFirst(d, m, layers, ref, r); } else { WriteSecond(d, m, layers, ref, r); }
    }
  }

  lemma SameLayers(d: Files, m: Manager, m1: Manager, layers: seq<Memtable>)
    requires |layers| == |m.summaries| && m1 == m.(mem := m1.mem)
    requires forall i | 0 <= i < |layers| :: LayerOk(d, m, i, layers[i])
    ensures forall i | 0 <= i < |layers| :: LayerOk(d, m1, i, layers[i])
  {
    hide MemOk, OnePage, Stored, Build;
    forall i | 0 <= i < |layers| ensures LayerOk(d, m1, i, layers[i]) { assert LayerOk(d, m, i, layers[i]); }
  }

  // ----- every run

  datatype Op = Put(record: Record) | Query(key: Data, junk: Junk)
  datatype Answer = Ack(w: WriteOutcome) | Answered(r: Outcome)

  ghost function Run(d: Files, m: Manager, ops: seq<Op>): (a: seq<Answer>)
    requires HasKey(m.schema)
    decreases |ops|
  {
    if ops == [] then []
    else match ops[0]
      case Put(r) => var (d', m', w) := Write(d, m, r); [Ack(w)] + Run(d', m', ops[1..])
      case Query(k, junk) => [Answered(Read(d, m, k, junk))] + Run(d, m, ops[1..])
  }

  ghost function RefRun(c: Schema, ref: Ref, ops: seq<Op>): (a: seq<Answer>)
    requires HasKey(c)
    decreases |ops|
  {
    if ops == [] then []
    else match ops[0]
      case Put(r) => var (ref', w) := RefWrite(c, ref, r); [Ack(w)] + RefRun(c, ref', ops[1..])
      case Query(k, _) => [Answered(RefRead(c, ref, k))] + RefRun(c, ref, ops[1..])
  }

  lemma {:induction false} RunAgreesFrom(d: Files, m: Manager, layers: seq<Memtable>, ref: Ref, ops: seq<Op>)
    requires Represents(d, m, layers, ref)
    ensures Run(d, m, ops) == RefRun(m.schema, ref, ops)
    decreases |ops|
  {
    hide Represents, Read, Write, RefRead, RefWrite;
    assert HasKey(m.schema) by { RepresentsKey(d, m, layers, ref); }
    if ops != [] {
      match ops[0]
      case Put(r) =>
        var (d', m', _) := Write(d, m, r);
        var (ref', _) := RefWrite(m.schema, ref, r);
        WriteAgrees(d, m, layers, ref, r);
        WriteKeepsSchema(d, m, r);
        RunAgreesFrom(d', m', NextLayers(m, layers, r), ref', ops[1..]);
      case Query(k, junk) =>
        ReadAgrees(d, m, layers, ref, k, junk);
        RunAgreesFrom(d, m, layers, ref, ops[1..]);
    }
  }

  lemma RepresentsKey(d: Files, m: Manager, layers: seq<Memtable>, ref: Ref)
    requires Represents(d, m, layers, ref)
    ensures HasKey(m.schema)
  {
  }

  lemma WriteKeepsSchema(d: Files, m: Manager, r: Record)
    requires HasKey(m.schema)
    ensures Write(d, m, r).1.schema == m.schema && Write(d, m, r).1.name == m.name
  {
  }

  function Empty(name: ByteString, c: Schema): (m: Manager) {
    Manager(name, c, [], [])
  }

  /** For every run on a table with sort keys of at most 2037 bytes and records below 2^31, on
      whatever disk it starts. */
  lemma RunAgrees(d: Files, name: ByteString, c: Schema, ops: seq<Op>)
    requires SchemaOk(c)
    ensures Run(d, Empty(name, c), ops) == RefRun(c, Ref(map[], None), ops)
  {
    StartRepresents(d, name, c);
    RunAgreesFrom(d, Empty(name, c), [], Ref(map[], None), ops);
  }
}
