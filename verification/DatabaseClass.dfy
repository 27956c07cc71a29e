/** The Database object: its table managers, the reload loop and flush_metadata. */
module DatabaseObjects {
  import opened Bytes
  import opened Buffer
  import opened Data
  import opened Catalog
  import opened CatalogIo
  import opened Summaries
  import opened TableBuilders
  import opened DiskManagers
  import opened TableManagers
  import opened Databases

  ghost function Values(ms: seq<TableManager>): (vs: Managers)
    reads ms
    ensures |vs| == |ms|
  {
    if ms == [] then [] else [ms[0].Value()] + Values(ms[1..])
  }

  lemma SlotStep(vs: Managers, m: Manager, i: nat)
    requires i < |vs| && vs[i].name != m.name && TextLeq(vs[i].name, m.name)
    ensures vs[..i] + InsertManager(vs[i..], m) == vs[..i + 1] + InsertManager(vs[i + 1..], m)
  {
    hide TextLeq;
    assert vs[i..][1..] == vs[i + 1..];
    assert vs[..i] + ([vs[i]] + InsertManager(vs[i + 1..], m)) == vs[..i + 1] + InsertManager(vs[i + 1..], m);
  }

  lemma IndexStep(vs: Managers, name: ByteString, i: nat)
    requires i < |vs|
    ensures IndexOf(vs[i..], name) == if vs[i].name == name then Some(0)
      else match IndexOf(vs[i + 1..], name) { case None => None case Some(k) => Some(k + 1) }
  {
    assert vs[i..][1..] == vs[i + 1..];
  }

  lemma InsertFirst(vs: Managers, m: Manager)
    requires vs == [] || vs[0].name == m.name || !TextLeq(vs[0].name, m.name)
    ensures InsertManager(vs, m) == if vs != [] && vs[0].name == m.name then vs else [m] + vs
  {
    hide TextLeq;
  }

  lemma SlotEnd(vs: Managers, m: Manager, i: nat)
    requires i <= |vs| && InsertManager(vs, m) == vs[..i] + InsertManager(vs[i..], m)
    requires i == |vs| || vs[i].name == m.name || !TextLeq(vs[i].name, m.name)
    ensures InsertManager(vs, m) == if i < |vs| && vs[i].name == m.name then vs else vs[..i] + [m] + vs[i..]
  {
    hide TextLeq, InsertManager;
    InsertFirst(vs[i..], m);
    assert vs[..i] + vs[i..] == vs;
    assert vs[..i] + ([m] + vs[i..]) == vs[..i] + [m] + vs[i..];
  }

  lemma {:induction false} ValuesAt(ms: seq<TableManager>, i: nat)
    requires i < |ms|
    ensures Values(ms)[i] == ms[i].Value()
  {
    if i > 0 { ValuesAt(ms[1..], i - 1); }
  }

  lemma {:induction false} ValuesConcat(a: seq<TableManager>, b: seq<TableManager>)
    ensures Values(a + b) == Values(a) + Values(b)
    decreases |a|
  {
    if a == [] {
      assert a + b == b;
    } else {
      ValuesCons(a);
      ValuesCons(a + b);
      hide Values;
      ValuesConcat(a[1..], b);
      assert (a + b)[1..] == a[1..] + b && (a + b)[0] == a[0];
      ConsConcat(a[0].Value(), Values(a[1..]), Values(b));
    }
  }

  lemma ValuesCons(ms: seq<TableManager>)
    requires ms != []
    ensures Values(ms) == [ms[0].Value()] + Values(ms[1..])
  {
  }

  lemma ConsConcat<T>(x: T, a: seq<T>, b: seq<T>)
    ensures [x] + (a + b) == ([x] + a) + b
  {
  }

  lemma ValuesOne(t: TableManager)
    ensures Values([t]) == [t.Value()]
  {
  }

  lemma SpliceValues(ts: seq<TableManager>, t: TableManager, i: nat)
    requires i <= |ts|
    ensures Values(ts[..i] + [t] + ts[i..]) == Values(ts)[..i] + [t.Value()] + Values(ts)[i..]
  {
    hide Values;
    var a, b := ts[..i], ts[i..];
    ValuesOne(t);
    ValuesConcat(a, b);
    ValuesConcat(a, [t]);
    ValuesConcat(a + [t], b);
    SpliceCut(ts, a, b);
    SpliceCut(Values(ts), Values(a), Values(b));
  }

  lemma SpliceCut<T>(s: seq<T>, a: seq<T>, b: seq<T>)
    requires s == a + b || (|a| <= |s| && a == s[..|a|] && b == s[|a|..])
    ensures s == a + b && a == s[..|a|] && b == s[|a|..]
  {
  }

  lemma SpliceAt<T>(s: seq<T>, x: T, i: nat)
    requires i <= |s|
    ensures var r := s[..i] + [x] + s[i..];
      |r| == |s| + 1 && forall j | 0 <= j < |r| :: r[j] == if j == i then x else if j < i then s[j] else s[j - 1]
  {
  }

  /** Distinct managers of one disk, each with a well-formed memtable. */
  ghost predicate Manages(ms: seq<TableManager>, disk: Disk)
    reads ms
  {
    && (forall i, j | 0 <= i < j < |ms| :: ms[i] != ms[j])
    && (forall i | 0 <= i < |ms| :: ms[i].disk == disk)
    && (forall i | 0 <= i < |ms| :: ms[i].mem == [] || MemOk(ms[i].schema, ms[i].mem))
  }

  lemma SpliceManages(ms: seq<TableManager>, t: TableManager, i: nat, disk: Disk)
    requires Manages(ms, disk) && i <= |ms| && t !in ms && t.disk == disk && t.mem == []
    ensures Manages(ms[..i] + [t] + ms[i..], disk)
  {
    hide MemOk;
    SpliceAt(ms, t, i);
  }

  class Database {
    const disk: Disk
    var managers: seq<TableManager>

    ghost predicate Valid()
      reads this, managers
    {
      Manages(managers, disk)
    }

    ghost function Value(): (vs: Managers)
      reads this, managers
    {
      Values(managers)
    }

    constructor (disk: Disk)
      ensures this.disk == disk && managers == [] && Valid() && Value() == []
    {
      this.disk := disk;
      managers := [];
    }

    /** Where std::map puts a new name, or the entry that already has it. */
    method FindSlot(m: Manager) returns (i: nat, present: bool)
      ensures i <= |managers|
      ensures InsertManager(Value(), m) == if present then Value() else Value()[..i] + [m] + Value()[i..]
    {
      hide TextLeq, InsertManager, Values;
      ghost var vs := Value();
      i := 0;
      assert vs[..0] + InsertManager(vs[0..], m) == InsertManager(vs, m) by { assert vs[0..] == vs; }
      while i < |managers| && managers[i].name != m.name && TextLeq(managers[i].name, m.name)
        invariant 0 <= i <= |managers|
        invariant InsertManager(vs, m) == vs[..i] + InsertManager(vs[i..], m)
      {
        ValuesAt(managers, i);
        SlotStep(vs, m, i);
        i := i + 1;
      }
      if i < |managers| { ValuesAt(managers, i); }
      SlotEnd(vs, m, i);
      present := i < |managers| && managers[i].name == m.name;
    }

    /** m_table_managers.insert. */
    method Insert(m: Manager)
      requires Valid() && m.mem == []
      modifies this
      ensures Valid()
      ensures Value() == InsertManager(old(Value()), m)
    {
      hide MemOk, InsertManager, Values, Manages;
      var i, present := FindSlot(m);
      if present {
        return;
      }
      var t := new TableManager(disk, m);
      SpliceValues(managers, t, i);
      SpliceManages(managers, t, i, disk);
      managers := managers[..i] + [t] + managers[i..];
    }

    method CreateTable(name: ByteString, c: Schema)
      requires Valid()
      modifies this
      ensures Valid()
      ensures Value() == Databases.CreateTable(old(Value()), name, c)
    {
      Insert(Manager(name, c, [], []));
    }

    method Lookup(name: ByteString) returns (r: Option<nat>)
      ensures r == IndexOf(Value(), name)
    {
      hide IndexOf, Values;
      ghost var vs := Value();
      assert vs[0..] == vs;
      for i := 0 to |managers|
        invariant IndexOf(vs, name) == match IndexOf(vs[i..], name) { case None => None case Some(k) => Some(i + k) }
      {
        ValuesAt(managers, i);
        IndexStep(vs, name, i);
        if managers[i].name == name {
          return Some(i);
        }
      }
      return None;
    }

    method ReadRecord(name: ByteString, k: Data, junk: Junk) returns (r: ReadReply)
      requires Valid()
      ensures r == Databases.ReadRecord(disk.files, Value(), name, k, junk)
    {
      hide Read;
      var i := Lookup(name);
      if i.None? { return NoTable; }
      ValuesAt(managers, i.value);
      var o := managers[i.value].ReadRecord(k, junk);
      return Reply(o);
    }

    method WriteRecord(name: ByteString, r: Record) returns (w: WriteOutcome)
      requires Valid() && AllKeyed(Value())
      modifies managers, disk
      ensures Valid() && managers == old(managers)
      ensures (disk.files, Value(), w) == old(Databases.WriteRecord(disk.files, Value(), name, r))
    {
      hide Write, EntryOk, Values, IndexOf, HasKey, MemOk;
      ghost var vs := Value();
      var i := Lookup(name);
      if i.None? { return Written; }
      var t := managers[i.value];
      forall j | 0 <= j < |managers| ensures vs[j] == managers[j].Value() { ValuesAt(managers, j); }
      assert MemOk(t.schema, t.mem) by {
        assert HasKey(vs[i.value].schema);
        EmptyMemOk(t.schema);
      }
      w := t.WriteRecord(r);
      forall j | 0 <= j < |managers| ensures Value()[j] == vs[i.value := t.Value()][j] { ValuesAt(managers, j); }
      assert Value() == vs[i.value := t.Value()];
    }

    /** Sums the sizes, fills a buffer of length + 4 bytes, and writes the first `length` of them. */
    method FlushMetadata()
      requires Valid() && IdsFit(Value())
      modifies disk
      ensures disk.files == old(Databases.FlushMetadata(disk.files, Value()))
    {
      hide TablesSize, EncodeTable, Overwrite, Copied, MetadataImage, Values, Manages;
      ghost var vs := Value();
      var tables: seq<Table> := [];
      for i := 0 to |managers|
        invariant tables == TablesOf(vs)[..i] && Value() == vs && disk.files == old(disk.files)
      {
        var m := managers[i];
        ValuesAt(managers, i);
        tables := tables + [Table(m.name, m.schema, |m.summaries|)];
      }
      assert tables == TablesOf(vs);
      var length := SumSizes(tables);
      MetadataImageLength(tables);
      var image := FillMetadata(tables, length);
      disk.Write(MetadataFile, image[..length]);
    }
  }

  method SumSizes(tables: seq<Table>) returns (length: nat)
    ensures length == TablesSize(tables)
  {
    hide TableSize;
    length := 0;
    assert tables[0..] == tables;
    for i := 0 to |tables|
      invariant length + TablesSize(tables[i..]) == TablesSize(tables)
    {
      assert tables[i..][1..] == tables[i + 1..];
      length := length + TableSize(tables[i]);
    }
    assert tables[|tables|..] == [];
  }

  method FillMetadata(tables: seq<Table>, length: nat) returns (image: seq<byte>)
    requires length == TablesSize(tables)
    ensures image == Copied(MetadataImage(tables))
  {
    hide EncodeTable, LittleEndian, TablesSize, Copied;
    TablesLength(tables);
    var buf := new MemoryBuffer(length + 4);
    ghost var before, room := buf.Before(), buf.After();
    var ok := buf.PutUint(length, 4);
    ghost var done: seq<byte> := LittleEndian(length, 4);
    assert tables[0..] == tables;
    for i := 0 to |tables|
      invariant buf.Valid() && Wrote(before, room, buf.Before(), buf.After(), done)
      invariant done + EncodeTables(tables[i..]) == MetadataImage(tables)
    {
      ghost var b, a, x := buf.Before(), buf.After(), EncodeTable(tables[i]);
      assert tables[i..][1..] == tables[i + 1..];
      assert done + (x + EncodeTables(tables[i + 1..])) == (done + x) + EncodeTables(tables[i + 1..]);
      ok := PutTable(buf, tables[i]);
      WroteBoth(before, room, b, a, buf.Before(), buf.After(), done, x);
      done := done + x;
    }
    assert done + [] == done;
    assert buf.data[..] == buf.Before() + buf.After();
    assert buf.data[..] == MetadataImage(tables);
    var bytes := buf.Bytes();
    image := bytes[..];
  }

  // ----- reopening

  lemma {:induction false} OpenTablesFails(d: Files, ts: seq<Table>, k: nat, junk: Junk)
    requires k <= |ts| && OpenTables(d, ts[..k], junk).None?
    ensures OpenTables(d, ts, junk).None?
    decreases |ts|
  {
    hide LoadSummaries, InsertManager;
    if k == |ts| {
      assert ts[..k] == ts;
    } else {
      var n := |ts| - 1;
      assert ts[..n][..k] == ts[..k];
      OpenTablesFails(d, ts[..n], k, junk);
    }
  }

  method ReadSummaries(disk: Disk, name: ByteString, n: nat, junk: Junk) returns (r: Option<seq<SummaryKeys>>)
    ensures r == LoadSummaries(disk.files, name, n, junk)
  {
    hide LoadSummary;
    var ss: seq<SummaryKeys> := [];
    for i := 0 to n
      invariant LoadSummaries(disk.files, name, i, junk) == Some(ss)
    {
      var s := disk.ReadSummary(name, i, junk);
      if s.None? {
        LoadSummariesFails(disk.files, name, i + 1, n, junk);
        return None;
      }
      ss := ss + [s.value];
    }
    return Some(ss);
  }

  lemma {:induction false} LoadSummariesFails(d: Files, name: ByteString, k: nat, n: nat, junk: Junk)
    requires k <= n && LoadSummaries(d, name, k, junk).None?
    ensures LoadSummaries(d, name, n, junk).None?
    decreases n
  {
    hide LoadSummary;
    if k < n { LoadSummariesFails(d, name, k, n - 1, junk); }
  }

  /** The tables parsed so far followed by what is left; a failure later on fails the whole reload. */
  ghost predicate Reloading(all: Parsed<seq<Table>>, ts: seq<Table>, rest: seq<byte>) {
    all == After(ts, ParseTables(rest))
  }

  lemma ReloadStep(all: Parsed<seq<Table>>, ts: seq<Table>, rest: seq<byte>)
    requires Reloading(all, ts, rest) && rest != []
    ensures ParseTable(rest).Fail? ==> all.Fail?
    ensures ParseTable(rest).Ok? ==> Reloading(all, ts + [ParseTable(rest).value], ParseTable(rest).rest)
    ensures ParseTable(rest).Ok? && all.Ok? ==> ts + [ParseTable(rest).value] <= all.value
  {
    hide ParseTable;
    if ParseTable(rest).Ok? {
      AfterStep(ts, ParseTable(rest).value, ParseTables(ParseTable(rest).rest));
    }
  }

  method OpenTable(db: Database, t: Table, junk: Junk) returns (ok: bool)
    requires db.Valid()
    modifies db
    ensures db.Valid()
    ensures match LoadSummaries(db.disk.files, t.name, t.lastSstable, junk)
      case None => !ok
      case Some(ss) => ok && db.Value() == InsertManager(old(db.Value()), Manager(t.name, t.schema, [], ss))
  {
    hide InsertManager, LoadSummaries, MemOk;
    var ss := ReadSummaries(db.disk, t.name, t.lastSstable, junk);
    if ss.None? { return false; }
    db.Insert(Manager(t.name, t.schema, [], ss.value));
    return true;
  }

  lemma OpenTablesStep(d: Files, ts: seq<Table>, t: Table, ms: Managers, all: Parsed<seq<Table>>, junk: Junk)
    requires OpenTables(d, ts, junk) == Some(ms) && (all.Ok? ==> ts + [t] <= all.value)
    ensures match LoadSummaries(d, t.name, t.lastSstable, junk)
      case None => all.Ok? ==> OpenTables(d, all.value, junk).None?
      case Some(ss) => OpenTables(d, ts + [t], junk) == Some(InsertManager(ms, Manager(t.name, t.schema, [], ss)))
  {
    hide InsertManager, LoadSummaries;
    var ts' := ts + [t];
    assert ts'[..|ts|] == ts;
    if LoadSummaries(d, t.name, t.lastSstable, junk).None? && all.Ok? {
      assert all.value[..|ts'|] == ts';
      OpenTablesFails(d, all.value, |ts'|, junk);
    }
  }

  /** One turn of the reload loop. */
  method OpenNext(db: Database, buf: MemoryBuffer, junk: Junk) returns (t: Option<Table>, ok: bool)
    requires db.Valid() && buf.Valid()
    modifies db, buf
    ensures db.Valid() && buf.Valid()
    ensures match ParseTable(old(buf.After()))
      case Fail => t == None
      case Ok(v, rest) => t == Some(v) && buf.After() == rest
    ensures t.Some? ==>
      match LoadSummaries(db.disk.files, t.value.name, t.value.lastSstable, junk)
      case None => !ok
      case Some(ss) => ok && db.Value() == InsertManager(old(db.Value()), Manager(t.value.name, t.value.schema, [], ss))
  {
    hide ParseTable, InsertManager, LoadSummaries, MemOk, Values;
    t := GetTable(buf);
    if t.None? { return t, false; }
    ok := OpenTable(db, t.value, junk);
  }

  /** The reload loop: tables are read and opened one by one until the buffer is used up. */
  method OpenAll(db: Database, bytes: seq<byte>, junk: Junk) returns (ok: bool)
    requires db.Valid() && db.Value() == []
    modifies db
    ensures db.Valid()
    ensures match ParseTables(bytes)
      case Fail => !ok
      case Ok(ts, _) =>
        match OpenTables(db.disk.files, ts, junk)
        case None => !ok
        case Some(ms) => ok && db.Value() == ms
  {
    hide ParseTables, ParseTable, InsertManager, LoadSummaries, OpenTables, MemOk, Reloading, Values, Manages;
    var buf := new MemoryBuffer.Wrap(bytes);
    ghost var all := ParseTables(bytes);
    ghost var ts: seq<Table> := [];
    assert buf.After() == bytes;
    ReloadBegins(all, bytes, db.disk.files, junk);
    while buf.offset < |bytes|
      invariant buf.Valid() && fresh(buf) && fresh(buf.data) && buf.data.Length == |bytes| && db.Valid()
      invariant Reloading(all, ts, buf.After())
      invariant OpenTables(db.disk.files, ts, junk) == Some(db.Value())
      decreases |buf.After()|
    {
      ghost var rest, ms := buf.After(), db.Value();
      ReloadStep(all, ts, rest);
      var t;
      t, ok := OpenNext(db, buf, junk);
      if t.None? { return false; }
      OpenTablesStep(db.disk.files, ts, t.value, ms, all, junk);
      if !ok { return; }
      ts := ts + [t.value];
    }
    ReloadEnds(all, ts, buf.After());
    return true;
  }

  lemma ReloadBegins(all: Parsed<seq<Table>>, bytes: seq<byte>, d: Files, junk: Junk)
    requires all == ParseTables(bytes)
    ensures Reloading(all, [], bytes) && OpenTables(d, [], junk) == Some([])
  {
    AfterNothing(all);
  }

  /** The constructor on an existing directory; None stands for an exception. */
  method Reopen(disk: Disk, junk: Junk) returns (r: Option<Database>)
    ensures match Databases.Open(disk.files, junk)
      case None => r == None
      case Some(ms) => r.Some? && r.value.disk == disk && fresh(r.value) && r.value.Valid() && r.value.Value() == ms
  {
    hide ParseTables, OpenTables, ReadAt, MemOk, Values;
    var db := new Database(disk);
    var file := Contents(disk.files, MetadataFile);
    if |file| < 4 {
      return Some(db);
    }
    var length := FromLittleEndian(file[..4]);
    if length == 0 {
      return Some(db);
    }
    var ok := OpenAll(db, ReadAt(file, 4, length, junk), junk);
    r := if ok then Some(db) else None;
  }

  lemma ReloadEnds(all: Parsed<seq<Table>>, ts: seq<Table>, rest: seq<byte>)
    requires Reloading(all, ts, rest) && rest == []
    ensures all == Ok(ts, [])
  {
    assert ts + [] == ts;
  }
}
