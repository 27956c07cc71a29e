/** Whole runs of a database, with restarts: one simple map per table, pending records lost on restart. */
module DatabaseRefinement {
  import opened Bytes
  import opened Buffer
  import opened Data
  import opened OrderedMap
  import opened Catalog
  import opened IndexPages
  import opened Summaries
  import opened TableBuilders
  import opened DiskManagers
  import opened TableManagers
  import TR = TableRefinement
  import opened Databases

  // ----- the reference

  datatype RefTable = RefTable(schema: Schema, ref: TR.Ref)
  type RefDb = map<ByteString, RefTable>

  ghost predicate RefKeyed(db: RefDb) {
    forall n | n in db :: HasKey(db[n].schema)
  }

  ghost function RefCreate(db: RefDb, name: ByteString, c: Schema): (r: RefDb) {
    if name in db then db else db[name := RefTable(c, TR.Ref(map[], None))]
  }

  ghost function RefPut(db: RefDb, name: ByteString, r: Record): (w: (RefDb, WriteOutcome))
    requires RefKeyed(db)
  {
    if name !in db then (db, Written)
    else
      var (ref', o) := TR.RefWrite(db[name].schema, db[name].ref, r);
      (db[name := db[name].(ref := ref')], o)
  }

  ghost function RefGet(db: RefDb, name: ByteString, k: Data): (r: ReadReply)
    requires RefKeyed(db)
  {
    if name !in db then NoTable else Reply(TR.RefRead(db[name].schema, db[name].ref, k))
  }

  /** A restart forgets the pending record of every table and nothing else. */
  ghost function RefRestart(db: RefDb): (r: RefDb) {
    map n | n in db :: db[n].(ref := db[n].ref.(pending := None))
  }

  // ----- the correspondence

  ghost function RefOf(m: Manager, layers: seq<Memtable>): (ref: TR.Ref) {
    TR.Ref(TR.Base(layers), if m.mem == [] then None else Some(m.mem[0]))
  }

  ghost predicate TableRepresented(d: Files, m: Manager, layers: seq<Memtable>, db: RefDb) {
    && TR.Represents(d, m, layers, RefOf(m, layers))
    && |m.name| < 256 && SchemaFits(m.schema)
    && m.name in db && db[m.name] == RefTable(m.schema, RefOf(m, layers))
  }

  /** The metadata file is never longer than the catalog the next flush will write. */
  ghost predicate MetadataShort(d: Files, ms: Managers) {
    |Contents(d, MetadataFile)| <= CatalogSize(ms)
  }

  function CatalogSize(ms: Managers): (n: nat) {
    if ms == [] then 0 else TableSize(Table(ms[0].name, ms[0].schema, 0)) + CatalogSize(ms[1..])
  }

  ghost predicate DbRepresents(d: Files, ms: Managers, layers: seq<seq<Memtable>>, db: RefDb) {
    && |layers| == |ms| && Sorted(ms) && MetadataShort(d, ms)
    && (forall i | 0 <= i < |ms| :: TableRepresented(d, ms[i], layers[i], db))
    && (forall n | n in db :: IndexOf(ms, n).Some?)
  }

  lemma RepresentedKeyed(d: Files, ms: Managers, layers: seq<seq<Memtable>>, db: RefDb)
    requires DbRepresents(d, ms, layers, db)
    ensures AllKeyed(ms) && RefKeyed(db)
  {
    hide Sorted, MetadataShort;
    forall i | 0 <= i < |ms| ensures HasKey(ms[i].schema) {
      assert TableRepresented(d, ms[i], layers[i], db);
      TR.RepresentsKey(d, ms[i], layers[i], RefOf(ms[i], layers[i]));
    }
    forall n | n in db ensures HasKey(db[n].schema) {
      var i := IndexOf(ms, n).value;
      assert TableRepresented(d, ms[i], layers[i], db);
    }
  }

  // ----- reading

  lemma GetAgrees(d: Files, ms: Managers, layers: seq<seq<Memtable>>, db: RefDb, name: ByteString, k: Data, junk: Junk)
    requires DbRepresents(d, ms, layers, db)
    ensures RefKeyed(db) && ReadRecord(d, ms, name, k, junk) == RefGet(db, name, k)
  {
    hide Read, TR.RefRead, TR.Represents, Sorted, MetadataShort;
    RepresentedKeyed(d, ms, layers, db);
    match IndexOf(ms, name)
    case None => assert name !in db;
    case Some(i) =>
      assert TableRepresented(d, ms[i], layers[i], db);
      TR.ReadAgrees(d, ms[i], layers[i], RefOf(ms[i], layers[i]), k, junk);
  }

  // ----- frames

  ghost predicate SameFiles(d: Files, d': Files, name: ByteString) {
    forall id: nat ::
      && Contents(d, DataFile(name, id)) == Contents(d', DataFile(name, id))
      && Contents(d, IndexFile(name, id)) == Contents(d', IndexFile(name, id))
      && Contents(d, SummaryFile(name, id)) == Contents(d', SummaryFile(name, id))
  }

  lemma RepresentsFrame(d: Files, d': Files, m: Manager, layers: seq<Memtable>, ref: TR.Ref)
    requires TR.Represents(d, m, layers, ref) && SameFiles(d, d', m.name)
    ensures TR.Represents(d', m, layers, ref)
  {
    hide MemOk, TR.OnePage, Build, TR.Base, TR.SchemaOk;
    forall i | 0 <= i < |layers| ensures TR.LayerOk(d', m, i, layers[i]) {
      assert TR.LayerOk(d, m, i, layers[i]);
    }
  }

  lemma WriteFrame(d: Files, m: Manager, r: Record, f: FileName)
    requires HasKey(m.schema) && (f.MetadataFile? || f.table != m.name)
    ensures Contents(Write(d, m, r).0, f) == Contents(d, f)
  {
    hide Build, Insert, Verify;
  }

  lemma WriteSameFiles(d: Files, m: Manager, r: Record, name: ByteString)
    requires HasKey(m.schema) && name != m.name
    ensures SameFiles(d, Write(d, m, r).0, name)
  {
    hide Write, Contents;
    var d' := Write(d, m, r).0;
    forall id: nat
      ensures Contents(d, DataFile(name, id)) == Contents(d', DataFile(name, id))
      ensures Contents(d, IndexFile(name, id)) == Contents(d', IndexFile(name, id))
      ensures Contents(d, SummaryFile(name, id)) == Contents(d', SummaryFile(name, id))
    {
      WriteFrame(d, m, r, DataFile(name, id));
      WriteFrame(d, m, r, IndexFile(name, id));
      WriteFrame(d, m, r, SummaryFile(name, id));
    }
  }

  lemma {:induction false} CatalogSizeUpdate(ms: Managers, i: nat, m: Manager)
    requires i < |ms| && m.name == ms[i].name && m.schema == ms[i].schema
    ensures CatalogSize(ms[i := m]) == CatalogSize(ms)
  {
    hide SchemaSize;
    if i > 0 {
      CatalogSizeUpdate(ms[1..], i - 1, m);
      assert ms[i := m][1..] == ms[1..][i - 1 := m];
    } else {
      assert ms[i := m][1..] == ms[1..];
    }
  }

  lemma {:induction false} IndexOfUpdate(ms: Managers, i: nat, m: Manager, name: ByteString)
    requires i < |ms| && m.name == ms[i].name
    ensures IndexOf(ms[i := m], name) == IndexOf(ms, name)
  {
    if i > 0 {
      IndexOfUpdate(ms[1..], i - 1, m, name);
      assert ms[i := m][1..] == ms[1..][i - 1 := m];
    } else {
      assert ms[i := m][1..] == ms[1..];
    }
  }

  // ----- writing

  ghost function NextDbLayers(ms: Managers, layers: seq<seq<Memtable>>, name: ByteString,
                              r: Record): (l: seq<seq<Memtable>>)
    requires |layers| == |ms| && AllKeyed(ms)
  {
    match IndexOf(ms, name)
    case None => layers
    case Some(i) => layers[i := TR.NextLayers(ms[i], layers[i], r)]
  }

  lemma PutHere(d: Files, m: Manager, ls: seq<Memtable>, db: RefDb, r: Record)
    requires TableRepresented(d, m, ls, db) && RefKeyed(db) && HasKey(m.schema)
    ensures var (d', m', o) := Write(d, m, r); var (db', o') := RefPut(db, m.name, r);
      o == o' && TableRepresented(d', m', TR.NextLayers(m, ls, r), db')
  {
    hide Write, TR.RefWrite, TR.Represents, TR.NextLayers, SchemaFits, HasKey;
    TR.WriteAgrees(d, m, ls, RefOf(m, ls), r);
    TR.WriteKeepsSchema(d, m, r);
    var (d', m', o) := Write(d, m, r);
    RefOfRepresents(d', m', TR.NextLayers(m, ls, r), TR.RefWrite(m.schema, RefOf(m, ls), r).0);
  }

  lemma PutElsewhere(d: Files, m: Manager, r: Record, x: Manager, ls: seq<Memtable>, db: RefDb)
    requires HasKey(m.schema) && RefKeyed(db) && x.name != m.name && TableRepresented(d, x, ls, db)
    ensures TableRepresented(Write(d, m, r).0, x, ls, RefPut(db, m.name, r).0)
  {
    hide Write, TR.RefWrite, TR.Represents, SchemaFits, HasKey;
    WriteSameFiles(d, m, r, x.name);
    RepresentsFrame(d, Write(d, m, r).0, x, ls, RefOf(x, ls));
  }

  lemma PutAgrees(d: Files, ms: Managers, layers: seq<seq<Memtable>>, db: RefDb, name: ByteString, r: Record)
    requires DbRepresents(d, ms, layers, db)
    ensures AllKeyed(ms) && RefKeyed(db)
    ensures var (d', ms', o) := WriteRecord(d, ms, name, r); var (db', o') := RefPut(db, name, r);
      o == o' && DbRepresents(d', ms', NextDbLayers(ms, layers, name, r), db')
  {
    hide Write, TR.RefWrite, TableRepresented, TR.NextLayers, CatalogSize, TextLeq, Contents, HasKey, IndexOf;
    RepresentedKeyed(d, ms, layers, db);
    match IndexOf(ms, name)
    case None => assert name !in db;
    case Some(i) =>
      var m := ms[i];
      PutHere(d, m, layers[i], db, r);
      var (d', m', o) := Write(d, m, r);
      TR.WriteKeepsSchema(d, m, r);
      CatalogSizeUpdate(ms, i, m');
      WriteFrame(d, m, r, MetadataFile);
      forall j | 0 <= j < |ms| && j != i ensures TableRepresented(d', ms[j], layers[j], RefPut(db, name, r).0) {
        PutElsewhere(d, m, r, ms[j], layers[j], db);
      }
      forall n | n in db ensures IndexOf(ms[i := m'], n).Some? { IndexOfUpdate(ms, i, m', n); }
      InDb(d, ms, layers, db, i);
  }

  lemma InDb(d: Files, ms: Managers, layers: seq<seq<Memtable>>, db: RefDb, i: nat)
    requires DbRepresents(d, ms, layers, db) && i < |ms|
    ensures ms[i].name in db
  {
    assert TableRepresented(d, ms[i], layers[i], db);
  }

  lemma RefOfRepresents(d: Files, m: Manager, layers: seq<Memtable>, ref: TR.Ref)
    requires TR.Represents(d, m, layers, ref)
    ensures RefOf(m, layers) == ref
  {
  }

  // ----- creating

  function InsertPos(ms: Managers, name: ByteString): (p: nat)
    ensures p <= |ms|
  {
    if ms == [] || !TextLeq(ms[0].name, name) then 0 else 1 + InsertPos(ms[1..], name)
  }

  lemma {:induction false} InsertPosSplits(ms: Managers, name: ByteString)
    requires Sorted(ms)
    ensures var p := InsertPos(ms, name);
      && (forall i | 0 <= i < p :: TextLeq(ms[i].name, name))
      && (forall i | p <= i < |ms| :: !TextLeq(ms[i].name, name))
  {
    hide TextLeq;
    if ms != [] {
      if TextLeq(ms[0].name, name) {
        InsertPosSplits(ms[1..], name);
      } else {
        forall i | 0 < i < |ms| ensures !TextLeq(ms[i].name, name) {
          if TextLeq(ms[i].name, name) { TextLeqTransitive(ms[0].name, ms[i].name, name); }
        }
      }
    }
  }

  lemma {:induction false} InsertNew(ms: Managers, m: Manager)
    requires IndexOf(ms, m.name).None?
    ensures var p := InsertPos(ms, m.name); InsertManager(ms, m) == ms[..p] + [m] + ms[p..]
  {
    hide TextLeq;
    if ms != [] && TextLeq(ms[0].name, m.name) {
      InsertNew(ms[1..], m);
      var p := InsertPos(ms[1..], m.name);
      assert ms[..p + 1] == [ms[0]] + ms[1..][..p] && ms[p + 1..] == ms[1..][p..];
    }
  }

  lemma {:induction false} InsertOld(ms: Managers, m: Manager)
    requires Sorted(ms) && IndexOf(ms, m.name).Some?
    ensures InsertManager(ms, m) == ms
  {
    hide TextLeq;
    if ms[0].name != m.name {
      var i := IndexOf(ms, m.name).value;
      assert TextLeq(ms[0].name, ms[i].name);
      InsertOld(ms[1..], m);
    }
  }

  lemma SpliceSorted(ms: Managers, m: Manager)
    requires Sorted(ms) && IndexOf(ms, m.name).None?
    ensures var p := InsertPos(ms, m.name); Sorted(ms[..p] + [m] + ms[p..])
  {
    hide TextLeq, InsertPos;
    InsertPosSplits(ms, m.name);
    var p := InsertPos(ms, m.name);
    var r := ms[..p] + [m] + ms[p..];
    forall i, j | 0 <= i < j < |r| ensures TextLeq(r[i].name, r[j].name) && r[i].name != r[j].name {
      var i', j' := if i < p then i else i - 1, if j < p then j else j - 1;
      assert i != p ==> r[i] == ms[i'];
      assert j != p ==> r[j] == ms[j'];
      if i == p { TextLeqTotal(m.name, ms[j'].name); }
    }
  }

  lemma {:induction false} CatalogSizeSplice(ms: Managers, p: nat, m: Manager)
    requires p <= |ms|
    ensures CatalogSize(ms[..p] + [m] + ms[p..]) == CatalogSize(ms) + 1 + |m.name| + SchemaSize(m.schema) + 8
  {
    hide SchemaSize;
    var r := ms[..p] + [m] + ms[p..];
    if p == 0 {
      assert r[1..] == ms;
    } else {
      CatalogSizeSplice(ms[1..], p - 1, m);
      assert r[1..] == ms[1..][..p - 1] + [m] + ms[1..][p - 1..];
    }
  }

  ghost predicate TableOpOk(name: ByteString, c: Schema) {
    |name| < 256 && SchemaFits(c) && TR.SchemaOk(c)
  }

  ghost function CreateLayers(ms: Managers, layers: seq<seq<Memtable>>, name: ByteString): (l: seq<seq<Memtable>>)
    requires |layers| == |ms|
  {
    if IndexOf(ms, name).Some? then layers
    else var p := InsertPos(ms, name); layers[..p] + [[]] + layers[p..]
  }

  lemma NewTable(d: Files, name: ByteString, c: Schema, db: RefDb)
    requires TableOpOk(name, c) && name !in db
    ensures TableRepresented(d, Manager(name, c, [], []), [], RefCreate(db, name, c))
  {
    hide TR.Represents, SchemaFits, TR.SchemaOk;
    TR.StartRepresents(d, name, c);
    assert RefOf(Manager(name, c, [], []), []) == TR.Ref(map[], None);
  }

  lemma OldTable(d: Files, name: ByteString, c: Schema, m: Manager, ls: seq<Memtable>, db: RefDb)
    requires TableRepresented(d, m, ls, db)
    ensures TableRepresented(d, m, ls, RefCreate(db, name, c))
  {
    hide TR.Represents, SchemaFits;
  }

  lemma SpliceIndex(ms: Managers, p: nat, m: Manager, n: ByteString)
    requires p <= |ms| && (n == m.name || IndexOf(ms, n).Some?)
    ensures IndexOf(ms[..p] + [m] + ms[p..], n).Some?
  {
    hide IndexOf;
    var r := ms[..p] + [m] + ms[p..];
    if n == m.name {
      assert r[p].name == n;
    } else {
      var j := IndexOf(ms, n).value;
      assert r[if j < p then j else j + 1].name == n;
    }
  }

  lemma CreateAgrees(d: Files, ms: Managers, layers: seq<seq<Memtable>>, db: RefDb, name: ByteString, c: Schema)
    requires DbRepresents(d, ms, layers, db) && TableOpOk(name, c)
    ensures DbRepresents(d, CreateTable(ms, name, c), CreateLayers(ms, layers, name), RefCreate(db, name, c))
    ensures CatalogSize(CreateTable(ms, name, c)) <= CatalogSize(ms) + 1 + |name| + SchemaSize(c) + 8
  {
    hide TableRepresented, Sorted, InsertManager, InsertPos, SchemaSize, CatalogSize, IndexOf, TableOpOk;
    var m := Manager(name, c, [], []);
    match IndexOf(ms, name)
    case Some(i) =>
      InsertOld(ms, m);
      InDb(d, ms, layers, db, i);
    case None =>
      var p, ms', layers', db' := InsertPos(ms, name), CreateTable(ms, name, c), CreateLayers(ms, layers, name),
        RefCreate(db, name, c);
      InsertNew(ms, m);
      SpliceSorted(ms, m);
      CatalogSizeSplice(ms, p, m);
      NotInDb(d, ms, layers, db, name);
      NewTable(d, name, c, db);
      forall i | 0 <= i < |ms'| ensures TableRepresented(d, ms'[i], layers'[i], db') {
        if i != p {
          var j := if i < p then i else i - 1;
          assert ms'[i] == ms[j] && layers'[i] == layers[j];
          OldTable(d, name, c, ms[j], layers[j], db);
        }
      }
      forall n | n in db' ensures IndexOf(ms', n).Some? { SpliceIndex(ms, p, m, n); }
  }

  lemma NotInDb(d: Files, ms: Managers, layers: seq<seq<Memtable>>, db: RefDb, name: ByteString)
    requires DbRepresents(d, ms, layers, db) && IndexOf(ms, name).None?
    ensures name !in db
  {
    hide Sorted, MetadataShort, TableRepresented;
  }

  // ----- restarting

  /** The managers with empty memtables. */
  function Cleared(ms: Managers): (r: Managers)
    ensures |r| == |ms| && forall i | 0 <= i < |ms| :: r[i] == ms[i].(mem := [])
  {
    seq(|ms|, i requires 0 <= i < |ms| => ms[i].(mem := []))
  }

  lemma LayerSummary(d: Files, m: Manager, id: nat, layer: Memtable)
    requires id < |m.summaries| && TR.LayerOk(d, m, id, layer)
    ensures var s := m.summaries[id];
      && |s.keys| == 1 && TypeOf(s.keys[0]) == s.ty && s.ty.length <= MAX_KEY
      && Block(EncodeSummary(s)) <= Contents(d, SummaryFile(m.name, id))
  {
    hide Upto, EncodeSummary, EncodePage, Block, TR.OnePage, EntryOk, Contents, TypeOf;
    TR.OnePageCount(m.schema, layer);
    TR.SinglePage(m.schema, layer);
    TR.KeyFits(m.schema, layer);
    EntryFacts(m.schema, layer[0]);
  }

  lemma LoadsSummary(d: Files, m: Manager, id: nat, layer: Memtable, junk: Junk)
    requires id < |m.summaries| && TR.LayerOk(d, m, id, layer)
    ensures var p := LoadSummary(d, m.name, id, junk); p.Ok? && p.value == m.summaries[id]
  {
    hide EncodeSummary, ParseSummary, Block, TR.LayerOk, TypeOf, Contents, ReadAt;
    var s := m.summaries[id];
    LayerSummary(d, m, id, layer);
    SummaryBlock(s);
    ReadWithin(Contents(d, SummaryFile(m.name, id)), Block(EncodeSummary(s)), 0, PAGE_SIZE, junk);
    assert Block(EncodeSummary(s))[0..PAGE_SIZE] == Block(EncodeSummary(s));
  }

  lemma SummaryBlock(s: SummaryKeys)
    requires |s.keys| == 1 && TypeOf(s.keys[0]) == s.ty && s.ty.length <= MAX_KEY
    ensures |Block(EncodeSummary(s))| == PAGE_SIZE
    ensures var p := ParseSummary(Block(EncodeSummary(s))); p.Ok? && p.value == s
  {
    hide EncodeSummary, ParseSummary;
    SummaryLength(s);
    SummaryRoundTrip(s, Zeros(PAGE_SIZE - |EncodeSummary(s)|));
    assert Block(EncodeSummary(s)) == EncodeSummary(s) + Zeros(PAGE_SIZE - |EncodeSummary(s)|);
  }

  lemma {:induction false} LoadsSummaries(d: Files, m: Manager, layers: seq<Memtable>, n: nat, junk: Junk)
    requires n <= |layers| == |m.summaries|
    requires forall i | 0 <= i < |layers| :: TR.LayerOk(d, m, i, layers[i])
    ensures LoadSummaries(d, m.name, n, junk) == Some(m.summaries[..n])
  {
    hide LoadSummary, TR.LayerOk;
    if n > 0 {
      LoadsSummaries(d, m, layers, n - 1, junk);
      LoadsSummary(d, m, n - 1, layers[n - 1], junk);
      assert m.summaries[..n] == m.summaries[..n - 1] + [m.summaries[n - 1]];
    }
  }

  lemma {:induction false} InsertAtEnd(ms: Managers, m: Manager)
    requires forall i | 0 <= i < |ms| :: TextLeq(ms[i].name, m.name) && ms[i].name != m.name
    ensures InsertManager(ms, m) == ms + [m]
  {
    hide TextLeq;
    if ms != [] { InsertAtEnd(ms[1..], m); }
  }

  lemma OpensOne(d: Files, m: Manager, layers: seq<Memtable>, db: RefDb, junk: Junk)
    requires TableRepresented(d, m, layers, db)
    ensures LoadSummaries(d, m.name, |m.summaries|, junk) == Some(m.summaries)
  {
    hide LoadSummaries, TR.LayerOk, TR.SchemaOk, MemOk, SchemaFits;
    LoadsSummaries(d, m, layers, |m.summaries|, junk);
    assert m.summaries[..|m.summaries|] == m.summaries;
  }

  lemma InsertNext(ms: Managers, n: nat)
    requires Sorted(ms) && n < |ms|
    ensures InsertManager(Cleared(ms)[..n], ms[n].(mem := [])) == Cleared(ms)[..n + 1]
  {
    hide TextLeq, InsertManager;
    InsertAtEnd(Cleared(ms)[..n], ms[n].(mem := []));
  }

  lemma {:induction false} OpensTables(d: Files, ms: Managers, layers: seq<seq<Memtable>>, db: RefDb, n: nat,
                                       junk: Junk)
    requires DbRepresents(d, ms, layers, db) && IdsFit(ms) && n <= |ms|
    ensures OpenTables(d, TablesOf(ms)[..n], junk) == Some(Cleared(ms)[..n])
  {
    hide Sorted, LoadSummaries, MetadataShort, IndexOf, InsertManager, TableRepresented, IdsFit;
    if n > 0 {
      OpensTables(d, ms, layers, db, n - 1, junk);
      var m, ts := ms[n - 1], TablesOf(ms)[..n];
      assert ts[..n - 1] == TablesOf(ms)[..n - 1];
      OpensOne(d, m, layers[n - 1], db, junk);
      InsertNext(ms, n - 1);
    }
  }

  lemma {:induction false} TablesSizeIsCatalogSize(ms: Managers)
    requires IdsFit(ms)
    ensures TablesSize(TablesOf(ms)) == CatalogSize(ms)
  {
    hide SchemaSize;
    if ms != [] {
      TablesSizeIsCatalogSize(ms[1..]);
      assert TablesOf(ms)[1..] == TablesOf(ms[1..]);
    }
  }

  lemma FlushFrame(d: Files, ms: Managers, name: ByteString)
    requires IdsFit(ms)
    ensures SameFiles(d, FlushMetadata(d, ms), name)
  {
    hide MetadataImage, TablesSize, Copied;
  }

  lemma FlushedMetadata(d: Files, ms: Managers)
    requires IdsFit(ms) && MetadataShort(d, ms)
    ensures |Contents(FlushMetadata(d, ms), MetadataFile)| == CatalogSize(ms)
  {
    hide MetadataImage, TablesSize, CatalogSize, Copied;
    TablesSizeIsCatalogSize(ms);
    MetadataImageLength(TablesOf(ms));
  }

  /** The top half of the last table's sstable id, as flush_metadata should have written it. */
  ghost function LostHalf(ms: Managers): (s: seq<byte>)
    requires ms != [] && IdsFit(ms)
  {
    LittleEndian(|ms[|ms| - 1].summaries|, 8)[4..]
  }

  /** The whole catalog is written, copied and read back: it stays below 2^31 bytes with its length,
      and the four bytes left unwritten come back as the last sstable id's top half. */
  ghost predicate CompleteImage(d: Files, ms: Managers, junk: Junk)
    requires IdsFit(ms)
  {
    ms == [] || (CatalogSize(ms) + 4 < INT_LIMIT && MissingBytes(d, TablesOf(ms), junk) == LostHalf(ms))
  }

  lemma OpenOf(d: Files, ts: seq<Table>, ms: Managers, junk: Junk)
    requires MetadataLength(d) > 0 && ParseTables(MetadataBuffer(d, junk)) == Ok(ts, [])
    requires OpenTables(d, ts, junk) == Some(ms)
    ensures Open(d, junk) == Some(ms)
  {
  }

  lemma OpenNone(d: Files, ms: Managers, junk: Junk)
    requires ms == [] && IdsFit(ms) && MetadataShort(d, ms)
    ensures Open(FlushMetadata(d, ms), junk) == Some(Cleared(ms))
  {
    hide FlushMetadata;
    FlushedMetadata(d, ms);
    EmptyMetadata(FlushMetadata(d, ms));
    assert Cleared(ms) == [];
  }

  lemma WholeSlices(ms: Managers)
    requires IdsFit(ms)
    ensures TablesOf(ms)[..|ms|] == TablesOf(ms) && Cleared(ms)[..|ms|] == Cleared(ms)
  {
  }

  lemma ReopensAll(d: Files, ms: Managers, layers: seq<seq<Memtable>>, db: RefDb, junk: Junk)
    requires DbRepresents(d, ms, layers, db) && IdsFit(ms) && CompleteImage(d, ms, junk)
    ensures Open(FlushMetadata(d, ms), junk) == Some(Cleared(ms))
  {
    if ms == [] {
      OpenNone(d, ms, junk);
    } else {
      assert LostHalf(ms) == LittleEndian(TablesOf(ms)[|ms| - 1].lastSstable, 8)[4..];
      assert CatalogSize(ms) + 4 < INT_LIMIT && MissingBytes(d, TablesOf(ms), junk) == LostHalf(ms);
      hide *;
      TablesSizeIsCatalogSize(ms);
      CatalogNotEmpty(ms);
      RepresentedFits(d, ms, layers, db);
      ReloadExact(d, ms, junk);
      FlushedBuffer(d, ms, junk);
      FlushRepresented(d, ms, layers, db);
      OpensTables(FlushMetadata(d, ms), ms, layers, db, |ms|, junk);
      WholeSlices(ms);
      OpenOf(FlushMetadata(d, ms), TablesOf(ms), Cleared(ms), junk);
    }
  }

  // ----- and only then

  /** Opening the catalog with the last id patched never yields a last table with as many summaries. */
  lemma PatchedOpens(d: Files, ms: Managers, layers: seq<seq<Memtable>>, db: RefDb, top: seq<byte>, junk: Junk)
    requires DbRepresents(d, ms, layers, db) && IdsFit(ms) && ms != [] && |top| == 4 && top != LostHalf(ms)
    ensures OpenTables(d, PatchLast(TablesOf(ms), top), junk) != Some(Cleared(ms))
  {
    hide DbRepresents, LoadSummaries, InsertManager, LittleEndian, Patched, Sorted;
    var n, ts := |ms| - 1, TablesOf(ms);
    var ts' := PatchLast(ts, top);
    PatchedBytes(ts[n].lastSstable, top);
    assert ts'[..n] == ts[..n];
    OpensTables(d, ms, layers, db, n, junk);
    var ss := LoadSummaries(d, ts'[n].name, ts'[n].lastSstable, junk);
    if ss.Some? {
      DbSorted(d, ms, layers, db);
      InsertLast(ms, Manager(ts'[n].name, ts'[n].schema, [], ss.value));
    }
  }

  lemma DbSorted(d: Files, ms: Managers, layers: seq<seq<Memtable>>, db: RefDb)
    requires DbRepresents(d, ms, layers, db)
    ensures Sorted(ms)
  {
  }

  lemma InsertLast(ms: Managers, m: Manager)
    requires Sorted(ms) && ms != [] && m.name == ms[|ms| - 1].name
    ensures InsertManager(Cleared(ms)[..|ms| - 1], m) == Cleared(ms)[..|ms| - 1] + [m]
  {
    hide TextLeq, InsertManager;
    InsertAtEnd(Cleared(ms)[..|ms| - 1], m);
  }

  lemma TornReopens(d: Files, ms: Managers, layers: seq<seq<Memtable>>, db: RefDb, junk: Junk)
    requires DbRepresents(d, ms, layers, db) && IdsFit(ms) && ms != [] && CatalogSize(ms) + 4 < INT_LIMIT
    requires MissingBytes(d, TablesOf(ms), junk) != LostHalf(ms)
    ensures Open(FlushMetadata(d, ms), junk) != Some(Cleared(ms))
  {
    hide *;
    var d', top := FlushMetadata(d, ms), MissingBytes(d, TablesOf(ms), junk);
    TablesSizeIsCatalogSize(ms);
    CatalogNotEmpty(ms);
    RepresentedFits(d, ms, layers, db);
    ReloadExact(d, ms, junk);
    FlushedBuffer(d, ms, junk);
    FlushRepresented(d, ms, layers, db);
    PatchedOpens(d', ms, layers, db, top, junk);
    OpenIs(d', PatchLast(TablesOf(ms), top), junk);
  }

  lemma OpenIs(d: Files, ts: seq<Table>, junk: Junk)
    requires MetadataLength(d) > 0 && ParseTables(MetadataBuffer(d, junk)) == Ok(ts, [])
    ensures Open(d, junk) == OpenTables(d, ts, junk)
  {
  }

  lemma {:induction false} InsertSize(ms: Managers, m: Manager)
    ensures CatalogSize(InsertManager(ms, m)) <= CatalogSize(ms) + TableSize(Table(m.name, m.schema, 0))
  {
    hide TextLeq, SchemaSize;
    if ms != [] && ms[0].name != m.name {
      if TextLeq(ms[0].name, m.name) {
        InsertSize(ms[1..], m);
        assert ([ms[0]] + InsertManager(ms[1..], m))[1..] == InsertManager(ms[1..], m);
      } else {
        assert ([m] + ms)[1..] == ms;
      }
    } else if ms == [] {
      assert [m][1..] == [];
    }
  }

  lemma {:induction false} SizeOfLast(ts: seq<Table>)
    requires ts != []
    ensures var n := |ts| - 1; TablesSize(ts) == TablesSize(ts[..n]) + TableSize(ts[n])
  {
    hide TableSize;
    var n := |ts| - 1;
    if n > 0 {
      SizeOfLast(ts[1..]);
      assert ts[1..][..n - 1] == ts[..n][1..];
    }
  }

  lemma {:induction false} OpenedSize(d: Files, ts: seq<Table>, junk: Junk)
    ensures var r := OpenTables(d, ts, junk); r.Some? ==> CatalogSize(r.value) <= TablesSize(ts)
    decreases |ts|
  {
    hide LoadSummaries, InsertManager, CatalogSize, TablesSize, SchemaSize;
    if ts == [] {
      NothingSize();
    } else {
      var n := |ts| - 1;
      OpenedSize(d, ts[..n], junk);
      SizeOfLast(ts);
      var ms, ss := OpenTables(d, ts[..n], junk), LoadSummaries(d, ts[n].name, ts[n].lastSstable, junk);
      if ms.Some? && ss.Some? { InsertSize(ms.value, Manager(ts[n].name, ts[n].schema, [], ss.value)); }
    }
  }

  lemma NothingSize()
    ensures CatalogSize([]) == 0
  {
  }

  /** A catalog of 2^31 - 4 bytes or more never reopens as itself. */
  lemma LongReopens(d: Files, ms: Managers, junk: Junk)
    requires IdsFit(ms) && CatalogSize(ms) + 4 >= INT_LIMIT
    ensures Open(FlushMetadata(d, ms), junk) != Some(Cleared(ms))
  {
    hide TablesSize, CatalogSize, FlushMetadata, MetadataLength, OpenTables, ParseTables, Cleared, TablesOf;
    var d' := FlushMetadata(d, ms);
    TablesSizeIsCatalogSize(ms);
    LongCatalogShrinks(d, ms);
    ClearedSize(ms);
    NothingSize();
    var p := ParseTables(MetadataBuffer(d', junk));
    ParsedTablesSize(MetadataBuffer(d', junk));
    if p.Ok? { OpenedSize(d', p.value, junk); }
  }

  lemma EmptyMetadata(d: Files)
    requires |Contents(d, MetadataFile)| == CatalogSize([])
    ensures MetadataLength(d) == 0
  {
  }

  lemma CatalogNotEmpty(ms: Managers)
    requires ms != []
    ensures CatalogSize(ms) > 0
  {
  }

  lemma RepresentedFits(d: Files, ms: Managers, layers: seq<seq<Memtable>>, db: RefDb)
    requires DbRepresents(d, ms, layers, db) && IdsFit(ms)
    ensures AllFit(TablesOf(ms))
  {
    hide TR.Represents, Sorted, MetadataShort;
    forall i | 0 <= i < |ms| ensures Fits(TablesOf(ms)[i]) { assert TableRepresented(d, ms[i], layers[i], db); }
  }

  lemma FlushRepresented(d: Files, ms: Managers, layers: seq<seq<Memtable>>, db: RefDb)
    requires DbRepresents(d, ms, layers, db) && IdsFit(ms)
    ensures DbRepresents(FlushMetadata(d, ms), ms, layers, db)
  {
    hide TR.Represents, Sorted, SchemaFits, FlushMetadata, CatalogSize, IndexOf;
    var d' := FlushMetadata(d, ms);
    FlushedMetadata(d, ms);
    forall i | 0 <= i < |ms| ensures TableRepresented(d', ms[i], layers[i], db) {
      assert TableRepresented(d, ms[i], layers[i], db);
      FlushFrame(d, ms, ms[i].name);
      RepresentsFrame(d, d', ms[i], layers[i], RefOf(ms[i], layers[i]));
    }
  }

  lemma ClearedTable(d: Files, m: Manager, layers: seq<Memtable>, db: RefDb)
    requires TableRepresented(d, m, layers, db)
    ensures TableRepresented(d, m.(mem := []), layers, RefRestart(db))
  {
    hide TR.LayerOk, SchemaFits, TR.Base, TR.SchemaOk, MemOk;
    assert HasKey(m.schema) by { TR.RepresentsKey(d, m, layers, RefOf(m, layers)); }
    TR.SameLayers(d, m, m.(mem := []), layers);
    EmptyMemOk(m.schema);
  }

  lemma ClearedRepresented(d: Files, ms: Managers, layers: seq<seq<Memtable>>, db: RefDb)
    requires DbRepresents(d, ms, layers, db)
    ensures DbRepresents(d, Cleared(ms), layers, RefRestart(db))
  {
    hide TableRepresented, TextLeq, Contents, IndexOf, CatalogSize;
    var ms' := Cleared(ms);
    forall i | 0 <= i < |ms| ensures TableRepresented(d, ms'[i], layers[i], RefRestart(db)) {
      ClearedTable(d, ms[i], layers[i], db);
    }
    forall n | n in db ensures IndexOf(ms', n).Some? {
      assert ms'[IndexOf(ms, n).value].name == n;
    }
    ClearedSize(ms);
  }

  lemma {:induction false} ClearedSize(ms: Managers)
    ensures CatalogSize(Cleared(ms)) == CatalogSize(ms)
  {
    hide SchemaSize;
    if ms != [] {
      ClearedSize(ms[1..]);
      assert Cleared(ms)[1..] == Cleared(ms[1..]);
    }
  }

  /** Closing and reopening brings back every table with all its summaries exactly when the metadata
      image is complete. The reopened database then keeps every flushed record and has dropped each
      table's pending one. */
  lemma RestartAgrees(d: Files, ms: Managers, layers: seq<seq<Memtable>>, db: RefDb, junk: Junk)
    requires DbRepresents(d, ms, layers, db) && IdsFit(ms)
    ensures Open(FlushMetadata(d, ms), junk) == Some(Cleared(ms)) <==> CompleteImage(d, ms, junk)
    ensures DbRepresents(FlushMetadata(d, ms), Cleared(ms), layers, RefRestart(db))
  {
    hide Open, FlushMetadata, DbRepresents, MissingBytes, LostHalf, CatalogSize;
    FlushRepresented(d, ms, layers, db);
    ClearedRepresented(FlushMetadata(d, ms), ms, layers, db);
    if CompleteImage(d, ms, junk) {
      ReopensAll(d, ms, layers, db, junk);
    } else if CatalogSize(ms) + 4 >= INT_LIMIT {
      LongReopens(d, ms, junk);
    } else {
      TornReopens(d, ms, layers, db, junk);
    }
  }

  /** The first restart of a directory with one new table, into a buffer that happens to hold ones. */
  lemma BadRestart(name: ByteString, c: Schema)
    requires TableOpOk(name, c)
    ensures var ms := [Manager(name, c, [], [])]; Open(FlushMetadata(map[], ms), _ => 1) != Some(Cleared(ms))
  {
    hide Open, FlushMetadata, DbRepresents, TableOpOk, Cleared, LittleEndian, TablesSize;
    var ms: Managers, junk: Junk := [Manager(name, c, [], [])], _ => 1;
    EmptyRepresents();
    CreateAgrees(map[], [], [], map[], name, c);
    RestartAgrees(map[], ms, CreateLayers([], [], name), RefCreate(map[], name, c), junk);
    Pow256Values();
    HighBytesZero(0, 4, 4);
    SizeAtLeast(TablesOf(ms));
    assert MissingBytes(map[], TablesOf(ms), junk)[0] == 1;
    assert LostHalf(ms)[0] == 0;
  }

  lemma SizeAtLeast(ts: seq<Table>)
    requires ts != []
    ensures TablesSize(ts) >= 4
  {
  }

  lemma EmptyRepresents()
    ensures DbRepresents(map[], [], [], map[])
  {
  }
}
