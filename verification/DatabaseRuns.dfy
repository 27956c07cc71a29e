/** Every run of statements and restarts on one node answers like the reference database. */
module DatabaseRuns {
  import opened Bytes
  import opened Data
  import opened Catalog
  import opened TableBuilders
  import opened DiskManagers
  import opened TableManagers
  import TR = TableRefinement
  import opened Databases
  import opened DatabaseRefinement

  datatype Op =
    | Create(table: ByteString, schema: Schema)
    | Put(table: ByteString, record: Record)
    | Query(table: ByteString, key: Data, junk: Junk)
    | Restart(fill: Junk)

  datatype Answer = Created | Ack(w: WriteOutcome) | Answered(r: ReadReply) | Reopened | Crashed

  /** A table without a comparable sort key is outside the model and ends the run. */
  ghost function Run(d: Files, ms: Managers, ops: seq<Op>): (a: seq<Answer>)
    decreases |ops|
  {
    if ops == [] || !AllKeyed(ms) then []
    else match ops[0]
      case Create(name, c) => [Created] + Run(d, CreateTable(ms, name, c), ops[1..])
      case Put(name, r) => var (d', ms', w) := WriteRecord(d, ms, name, r); [Ack(w)] + Run(d', ms', ops[1..])
      case Query(name, k, junk) => [Answered(ReadRecord(d, ms, name, k, junk))] + Run(d, ms, ops[1..])
      case Restart(fill) =>
        if !IdsFit(ms) then [Crashed]
        else
          var d' := FlushMetadata(d, ms);
          match Open(d', fill)
          case None => [Crashed]
          case Some(ms') => [Reopened] + Run(d', ms', ops[1..])
  }

  ghost function RefRun(db: RefDb, ops: seq<Op>): (a: seq<Answer>)
    decreases |ops|
  {
    if ops == [] || !RefKeyed(db) then []
    else match ops[0]
      case Create(name, c) => [Created] + RefRun(RefCreate(db, name, c), ops[1..])
      case Put(name, r) => var (db', w) := RefPut(db, name, r); [Ack(w)] + RefRun(db', ops[1..])
      case Query(name, k, _) => [Answered(RefGet(db, name, k))] + RefRun(db, ops[1..])
      case Restart(_) => [Reopened] + RefRun(RefRestart(db), ops[1..])
  }

  ghost predicate TablesOk(ops: seq<Op>) {
    forall i | 0 <= i < |ops| :: ops[i].Create? ==> TableOpOk(ops[i].table, ops[i].schema)
  }

  /** Every restart of the run finds a complete metadata image. */
  ghost predicate Complete(d: Files, ms: Managers, ops: seq<Op>)
    decreases |ops|
  {
    if ops == [] || !AllKeyed(ms) then true
    else match ops[0]
      case Create(name, c) => Complete(d, CreateTable(ms, name, c), ops[1..])
      case Put(name, r) => var (d', ms', _) := WriteRecord(d, ms, name, r); Complete(d', ms', ops[1..])
      case Query(_, _, _) => Complete(d, ms, ops[1..])
      case Restart(fill) =>
        && IdsFit(ms) && CompleteImage(d, ms, fill)
        && match Open(FlushMetadata(d, ms), fill)
           case None => true
           case Some(ms') => Complete(FlushMetadata(d, ms), ms', ops[1..])
  }

  lemma {:induction false} RunAgreesFrom(d: Files, ms: Managers, layers: seq<seq<Memtable>>, db: RefDb, ops: seq<Op>)
    requires DbRepresents(d, ms, layers, db) && TablesOk(ops) && Complete(d, ms, ops)
    ensures Run(d, ms, ops) == RefRun(db, ops)
    decreases |ops|
  {
    hide DbRepresents, WriteRecord, ReadRecord, CreateTable, RefPut, RefGet, RefCreate, RefRestart, FlushMetadata,
      Open, TableOpOk, CompleteImage, Cleared, AllKeyed, RefKeyed;
    if ops != [] {
      RepresentedKeyed(d, ms, layers, db);
      RepresentedShape(d, ms, layers, db);
      var rest := ops[1..];
      match ops[0]
      case Create(name, c) =>
        CreateAgrees(d, ms, layers, db, name, c);
        RunAgreesFrom(d, CreateTable(ms, name, c), CreateLayers(ms, layers, name), RefCreate(db, name, c), rest);
      case Put(name, r) =>
        var (d', ms', _) := WriteRecord(d, ms, name, r);
        PutAgrees(d, ms, layers, db, name, r);
        RunAgreesFrom(d', ms', NextDbLayers(ms, layers, name, r), RefPut(db, name, r).0, rest);
      case Query(name, k, junk) =>
        GetAgrees(d, ms, layers, db, name, k, junk);
        RunAgreesFrom(d, ms, layers, db, rest);
      case Restart(fill) =>
        RestartAgrees(d, ms, layers, db, fill);
        RunAgreesFrom(FlushMetadata(d, ms), Cleared(ms), layers, RefRestart(db), rest);
    }
  }

  lemma RepresentedShape(d: Files, ms: Managers, layers: seq<seq<Memtable>>, db: RefDb)
    requires DbRepresents(d, ms, layers, db)
    ensures |layers| == |ms| && Sorted(ms) && MetadataShort(d, ms)
  {
  }

  /** From an empty directory, for every run of statements and restarts, of any length, whose restarts
      find a complete metadata image: reads see the simple maps, and a restart costs each table at most
      its one pending record. */
  lemma RunAgrees(ops: seq<Op>)
    requires TablesOk(ops) && Complete(map[], [], ops)
    ensures Run(map[], [], ops) == RefRun(map[], ops)
  {
    hide Complete, TablesOk;
    EmptyRepresents();
    RunAgreesFrom(map[], [], [], map[], ops);
  }

  // ----- runs whose restart buffers read as zeros

  ghost predicate ZeroFilled(junk: Junk) {
    forall i: nat :: junk(i) == 0
  }

  ghost predicate ZeroRestarts(ops: seq<Op>) {
    forall i | 0 <= i < |ops| :: ops[i].Restart? ==> ZeroFilled(ops[i].fill)
  }

  ghost function OpSize(op: Op): (n: nat) {
    match op
    case Create(name, c) => 1 + |name| + SchemaSize(c) + 8
    case _ => 0
  }

  /** An upper bound on the catalog that these statements can build. */
  ghost function CreatedSize(ops: seq<Op>): (n: nat) {
    if ops == [] then 0 else OpSize(ops[0]) + CreatedSize(ops[1..])
  }

  /** The catalog stays below 2^31 bytes with its length, and every sstable id below 2^32. */
  ghost predicate Within(ms: Managers, ops: seq<Op>) {
    && CatalogSize(ms) + CreatedSize(ops) + 4 < INT_LIMIT && |ops| < 0x1_0000_0000
    && forall i | 0 <= i < |ms| :: |ms[i].summaries| + |ops| < 0x1_0000_0000
  }

  lemma ZeroRestart(d: Files, ms: Managers, fill: Junk)
    requires IdsFit(ms) && ms != [] && ZeroFilled(fill) && MetadataShort(d, ms)
    requires |ms[|ms| - 1].summaries| < 0x1_0000_0000
    ensures MissingBytes(d, TablesOf(ms), fill) == LostHalf(ms)
  {
    hide CatalogSize, TablesSize, LittleEndian;
    Pow256Values();
    TablesSizeIsCatalogSize(ms);
    HighBytesZero(|ms[|ms| - 1].summaries|, 4, 4);
    assert MissingBytes(d, TablesOf(ms), fill) == Zeros(4);
  }

  lemma WriteAddsOne(d: Files, ms: Managers, name: ByteString, r: Record)
    requires AllKeyed(ms)
    ensures var ms' := WriteRecord(d, ms, name, r).1;
      && |ms'| == |ms| && CatalogSize(ms') == CatalogSize(ms)
      && forall i | 0 <= i < |ms| :: |ms'[i].summaries| <= |ms[i].summaries| + 1
  {
    hide Build, CatalogSize, HasKey;
    match IndexOf(ms, name)
    case None =>
    case Some(i) =>
      TR.WriteKeepsSchema(d, ms[i], r);
      CatalogSizeUpdate(ms, i, Write(d, ms[i], r).1);
  }

  lemma CreateKeepsSummaries(ms: Managers, name: ByteString, c: Schema, bound: nat)
    requires forall i | 0 <= i < |ms| :: |ms[i].summaries| < bound
    requires Sorted(ms) && bound > 0
    ensures var ms' := CreateTable(ms, name, c); forall i | 0 <= i < |ms'| :: |ms'[i].summaries| < bound
  {
    hide InsertManager, InsertPos, Sorted, IndexOf;
    if IndexOf(ms, name).Some? {
      InsertOld(ms, Manager(name, c, [], []));
    } else {
      InsertNew(ms, Manager(name, c, [], []));
    }
  }

  lemma {:induction false} ZeroRunComplete(d: Files, ms: Managers, layers: seq<seq<Memtable>>, db: RefDb, ops: seq<Op>)
    requires DbRepresents(d, ms, layers, db) && Within(ms, ops) && TablesOk(ops) && ZeroRestarts(ops)
    ensures Complete(d, ms, ops)
    decreases |ops|
  {
    hide DbRepresents, WriteRecord, CreateTable, RefPut, RefCreate, RefRestart, FlushMetadata,
      Open, TableOpOk, ZeroFilled, CatalogSize, Cleared, AllKeyed, RefKeyed, SchemaSize, MissingBytes, LostHalf;
    if ops != [] {
      RepresentedKeyed(d, ms, layers, db);
      RepresentedShape(d, ms, layers, db);
      var rest := ops[1..];
      match ops[0]
      case Create(name, c) =>
        CreateAgrees(d, ms, layers, db, name, c);
        CreateKeepsSummaries(ms, name, c, 0x1_0000_0000 - |rest|);
        ZeroRunComplete(d, CreateTable(ms, name, c), CreateLayers(ms, layers, name), RefCreate(db, name, c), rest);
      case Put(name, r) =>
        var (d', ms', _) := WriteRecord(d, ms, name, r);
        PutAgrees(d, ms, layers, db, name, r);
        WriteAddsOne(d, ms, name, r);
        ZeroRunComplete(d', ms', NextDbLayers(ms, layers, name, r), RefPut(db, name, r).0, rest);
      case Query(_, _, _) =>
        ZeroRunComplete(d, ms, layers, db, rest);
      case Restart(fill) =>
        assert IdsFit(ms);
        if ms != [] { ZeroRestart(d, ms, fill); }
        RestartAgrees(d, ms, layers, db, fill);
        ClearedSize(ms);
        ZeroRunComplete(FlushMetadata(d, ms), Cleared(ms), layers, RefRestart(db), rest);
    }
  }

  /** Fewer than 2^32 statements creating a catalog below 2^31 bytes, restarted into zeroed buffers,
      always find a complete image. */
  lemma ZeroRunAgrees(ops: seq<Op>)
    requires TablesOk(ops) && ZeroRestarts(ops)
    requires CreatedSize(ops) + 4 < INT_LIMIT && |ops| < 0x1_0000_0000
    ensures Run(map[], [], ops) == RefRun(map[], ops)
  {
    hide Complete, TablesOk, ZeroRestarts, CreatedSize;
    EmptyRepresents();
    ZeroRunComplete(map[], [], [], map[], ops);
    RunAgrees(ops);
  }
}
