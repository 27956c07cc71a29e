/** lib/db/table_manager.cc: one table as a memtable over a stack of sstables. */
module TableManagers {
  import opened Bytes
  import opened Data
  import opened OrderedMap
  import opened Catalog
  import opened CatalogIo
  import IndexPages
  import opened Summaries
  import opened TableBuilders
  import opened DiskManagers

  datatype Manager = Manager(name: ByteString, schema: Schema, mem: Memtable, summaries: seq<SummaryKeys>)

  /** read_record returns a record, throws non_existent_record_error, or lets another exception out. */
  datatype Outcome = Found(record: Record) | NotFound | Error

  datatype WriteOutcome = Written | SchemaMismatch

  // ----- what the code does

  function ReadSstable(d: Files, m: Manager, id: nat, k: Data, junk: Junk): (r: Outcome)
    requires id < |m.summaries|
  {
    match FindPage(m.summaries[id], k)
    case Throws => Error
    case Number(p) =>
      match LoadPage(d, m.name, id, p, junk)
      case Fail => Error
      case Ok(page, _) =>
        match IndexPages.FindOffset(page, k)
        case Throws => Error
        case Absent => NotFound
        case At(offset) =>
          match LoadRecord(d, m.name, id, m.schema.fields, offset, junk)
          case Fail => Error
          case Ok(r, _) => Found(r)
  }

  /** The sstables below `n`, newest first; the first one that knows the key answers. */
  function ReadSstables(d: Files, m: Manager, n: nat, k: Data, junk: Junk): (r: Outcome)
    requires n <= |m.summaries|
  {
    if n == 0 then NotFound
    else
      var r := ReadSstable(d, m, n - 1, k, junk);
      if r.NotFound? then ReadSstables(d, m, n - 1, k, junk) else r
  }

  function Read(d: Files, m: Manager, k: Data, junk: Junk): (r: Outcome) {
    if m.mem != [] && TypeOf(m.mem[0].0).id != TypeOf(k).id then Error
    else match Find(m.mem, k)
      case Some(r) => Found(r)
      case None => ReadSstables(d, m, |m.summaries|, k, junk)
  }

  function Flush(d: Files, m: Manager): (r: (Files, Manager))
    requires m.mem != []
  {
    var t := Build(m.schema, m.mem);
    (Save(d, m.name, |m.summaries|, t), m.(summaries := m.summaries + [t.summary], mem := []))
  }

  const MEMTABLE_LIMIT: nat := 2

  function Write(d: Files, m: Manager, r: Record): (w: (Files, Manager, WriteOutcome))
    requires HasKey(m.schema)
  {
    if !Verify(m.schema.fields, r) then (d, m, SchemaMismatch)
    else
      var m1 := m.(mem := Insert(m.mem, r[m.schema.sortKey], r));
      if |m1.mem| >= MEMTABLE_LIMIT
      then var (d2, m2) := Flush(d, m1); (d2, m2, Written)
      else (d, m1, Written)
  }

  // ----- the class

  class TableManager {
    const disk: Disk
    const name: ByteString
    const schema: Schema
    var mem: Memtable
    var summaries: seq<SummaryKeys>

    function Value(): (m: Manager)
      reads this
    {
      Manager(name, schema, mem, summaries)
    }

    constructor (disk: Disk, m: Manager)
      requires m.mem == []
      ensures this.disk == disk && Value() == m
    {
      this.disk, name, schema, mem, summaries := disk, m.name, m.schema, [], m.summaries;
    }

    method ReadRecord(k: Data, junk: Junk) returns (r: Outcome)
      ensures r == Read(disk.files, Value(), k, junk)
    {
      hide FindPage, LoadPage, LoadRecord, IndexPages.FindOffset;
      if mem != [] && TypeOf(mem[0].0).id != TypeOf(k).id {
        return Error;
      }
      var hit := Find(mem, k);
      if hit.Some? {
        return Found(hit.value);
      }
      var id := |summaries| - 1;
      while id >= 0
        invariant -1 <= id < |summaries|
        invariant Read(disk.files, Value(), k, junk) == ReadSstables(disk.files, Value(), id + 1, k, junk)
      {
        var p := FindPageNumber(summaries[id], k);
        if p.Throws? { return Error; }
        var page := disk.ReadIndexPage(name, id, p.n, junk);
        if page.None? { return Error; }
        var offset := IndexPages.FindOffset(page.value, k);
        match offset
        case Throws => return Error;
        case At(o) =>
          var rec := disk.ReadRecord(name, id, schema.fields, o, junk);
          return if rec.None? then Error else Found(rec.value);
        case Absent =>
        id := id - 1;
      }
      return NotFound;
    }

    method FlushMemtable()
      requires MemOk(schema, mem) && mem != []
      modifies this, disk
      ensures (disk.files, Value()) == old(Flush(disk.files, Value()))
    {
      hide Build, MemOk, Overwrite;
      assert HasKey(schema) by { MemHasKey(schema, mem); }
      var b := new TableBuilder(schema, mem);
      b.ConstructSstableFiles();
      disk.Write(DataFile(name, |summaries|), b.data);
      disk.Write(IndexFile(name, |summaries|), b.index);
      disk.Write(SummaryFile(name, |summaries|), b.summaryFile);
      summaries := summaries + [b.summary.Value()];
      mem := [];
    }

    method WriteRecord(r: Record) returns (w: WriteOutcome)
      requires MemOk(schema, mem)
      modifies this, disk
      ensures MemOk(schema, mem)
      ensures (disk.files, Value(), w) == old(Write(disk.files, Value(), r))
    {
      hide Build, Save, Insert, EntryOk;
      var ok := VerifyRecord(schema, r);
      if !ok {
        return SchemaMismatch;
      }
      InsertKeepsMemOk(schema, mem, r);
      mem := Insert(mem, r[schema.sortKey], r);
      if |mem| >= MEMTABLE_LIMIT {
        FlushMemtable();
      }
      return Written;
    }
  }

  lemma EmptyMemOk(c: Schema)
    requires HasKey(c)
    ensures MemOk(c, [])
  {
  }

  lemma MemHasKey(c: Schema, m: Memtable)
    requires MemOk(c, m)
    ensures HasKey(c)
  {
  }

  /** The memtable's own view: keys of one kind, so that the map lemmas apply. */
  lemma MemKind(c: Schema, m: Memtable)
    requires MemOk(c, m)
    ensures IsKey(KeyType(c).id) && OfKind(m, KeyType(c).id) && Descending(m)
  {
    forall i | 0 <= i < |m| ensures TypeOf(m[i].0).id == KeyType(c).id { EntryFacts(c, m[i]); }
  }

  lemma {:induction false} InsertEntries(c: Schema, m: Memtable, e: (Data, Record))
    requires HasKey(c) && EntryOk(c, e) && forall i | 0 <= i < |m| :: EntryOk(c, m[i])
    ensures forall i | 0 <= i < |Assign(m, e.0, e.1)| :: EntryOk(c, Assign(m, e.0, e.1)[i])
  {
    hide EntryOk;
    if m != [] {
      InsertEntries(c, m[1..], e);
      if !Gt(m[0].0, e.0) && !Gt(e.0, m[0].0) {
        EntryFacts(c, m[0]);
        EntryFacts(c, e);
        GtTrichotomy(m[0].0, e.0);
      }
    }
  }

  lemma InsertKeepsMemOk(c: Schema, m: Memtable, r: Record)
    requires MemOk(c, m) && Verify(c.fields, r)
    ensures MemOk(c, Insert(m, r[c.sortKey], r))
  {
    MemKind(c, m);
    var k := r[c.sortKey];
    InsertKeeps(m, k, r);
    InsertEntries(c, m, (k, r));
  }
}
