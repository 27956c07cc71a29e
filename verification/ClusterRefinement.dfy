/** A cluster reached through arbitrary coordinators answers like one logical database. */
module ClusterRefinement {
  import opened Bytes
  import opened Data
  import opened Catalog
  import opened TableBuilders
  import opened DiskManagers
  import opened TableManagers
  import TR = TableRefinement
  import opened Databases
  import opened DatabaseRefinement
  import opened Clusters

  // ----- the cluster's step

  function ExecuteAt(nodes: Nodes, a: Address, stmt: Statement, junk: Junk): (r: Nodes) {
    if a in nodes && (stmt.InsertStmt? ==> AllKeyed(nodes[a].tables))
    then nodes[a := Execute(nodes[a], stmt, junk).0]
    else nodes
  }

  function ExecuteAll(nodes: Nodes, at: seq<Address>, stmt: Statement, junk: Junk): (r: Nodes) {
    if at == [] then nodes else ExecuteAll(ExecuteAt(nodes, at[0], stmt, junk), at[1..], stmt, junk)
  }

  /** A node closes and opens its database again; None when the constructor throws. */
  function Restart(n: Node, fill: Junk): (r: Option<Node>)
    requires IdsFit(n.tables)
  {
    var files := FlushMetadata(n.files, n.tables);
    match Open(files, fill)
    case None => None
    case Some(ms) => Some(Node(files, ms))
  }

  /** QueryProcessor::process at the node `self`. */
  function Process(nodes: Nodes, ranges: seq<Range>, self: Address, stmt: Statement, junk: Junk): (r: (Nodes, Reply))
    requires Routable(stmt)
  {
    var at := Route(ranges, self, stmt);
    var multi := stmt.CreateStmt? || |at| != 1;
    var reply :=
      if !multi && at[0] in nodes && (stmt.InsertStmt? ==> AllKeyed(nodes[at[0]].tables))
      then Execute(nodes[at[0]], stmt, junk).1
      else Done;
    (ExecuteAll(nodes, at, stmt, junk), reply)
  }

  // ----- one logical database

  /** One map for all nodes; `pending` names, per owner, the key still in that owner's memtable, and
      `base` is the map without those. */
  datatype LogicalTable = LogicalTable(schema: Schema, view: map<Data, Record>, base: map<Data, Record>,
                                       pending: map<Address, Data>)
  type LogicalDb = map<ByteString, LogicalTable>

  function OwnerOf(ranges: seq<Range>, k: Data): (a: Option<Address>) {
    if Printable(k) then Owner(ranges, Print(k)) else None
  }

  ghost function LogicalWrite(ranges: seq<Range>, t: LogicalTable, r: Record): (w: (LogicalTable, WriteOutcome))
    requires HasKey(t.schema)
  {
    if !Verify(t.schema.fields, r) then (t, SchemaMismatch)
    else
      var k := r[t.schema.sortKey];
      match OwnerOf(ranges, k)
      case None => (t, Written)
      case Some(o) =>
        if o !in t.pending then (t.(view := t.view[k := r], pending := t.pending[o := k]), Written)
        else if t.pending[o] == k then (t, Written)
        else (t.(view := t.view[k := r], base := Flushed(t, t.pending[o])[k := r], pending := t.pending - {o}), Written)
  }

  ghost function Flushed(t: LogicalTable, k: Data): (base: map<Data, Record>) {
    if k in t.view then t.base[k := t.view[k]] else t.base
  }

  /** A node that restarts forgets the one record it had not flushed: its key falls back to the base. */
  ghost function Forget(t: LogicalTable, a: Address): (t': LogicalTable) {
    if a !in t.pending then t
    else
      var k := t.pending[a];
      t.(view := if k in t.base then t.view[k := t.base[k]] else t.view - {k}, pending := t.pending - {a})
  }

  ghost function LogicalRestart(l: LogicalDb, a: Address): (l': LogicalDb) {
    map n | n in l :: Forget(l[n], a)
  }

  /** Selecting by a value of another kind throws when it meets a stored key, that is, when its
      owner holds any. */
  ghost function LogicalRead(ranges: seq<Range>, t: LogicalTable, k: Data): (r: Outcome)
    requires HasKey(t.schema)
  {
    if TypeOf(k).id != KeyType(t.schema).id
    then (if exists x | x in t.view :: OwnerOf(ranges, x) == OwnerOf(ranges, k) then Error else NotFound)
    else if k in t.view then Found(t.view[k]) else NotFound
  }

  ghost predicate LogicalKeyed(l: LogicalDb) {
    forall n | n in l :: HasKey(l[n].schema)
  }

  ghost predicate LogicalOk(l: LogicalDb) {
    LogicalKeyed(l) && forall n | n in l :: ClusterTable(n, l[n].schema)
  }

  /** Tables the cluster can route: sort key in column 1, of a kind that prints. */
  ghost predicate ClusterTable(name: ByteString, c: Schema) {
    TableOpOk(name, c) && HasKey(c) && c.sortKey == 1 && KeyType(c).id in {ASCII, INT}
  }

  ghost function LogicalStep(ranges: seq<Range>, l: LogicalDb, stmt: Statement): (r: (LogicalDb, Reply))
    requires LogicalKeyed(l)
  {
    match stmt
    case CreateStmt(n, c) => (if n in l then l else l[n := LogicalTable(c, map[], map[], map[])], Done)
    case InsertStmt(n, r) =>
      if n !in l then (l, Ack(Written))
      else var (t, w) := LogicalWrite(ranges, l[n], r); (l[n := t], Ack(w))
    case SelectStmt(n, k) =>
      (l, Answered(if n !in l then NoTable else ReadReply.Reply(LogicalRead(ranges, l[n], k))))
  }

  // ----- the correspondence: each owner holds exactly its own keys

  ghost predicate TablePart(ranges: seq<Range>, a: Address, t: RefTable, l: LogicalTable) {
    var view := TR.View(t.ref);
    && t.schema == l.schema
    && (forall k | k in view :: k in l.view && l.view[k] == view[k] && OwnerOf(ranges, k) == Some(a))
    && (forall k | k in l.view && OwnerOf(ranges, k) == Some(a) :: k in view)
    && (forall k | k in t.ref.base :: k in l.base && l.base[k] == t.ref.base[k] && OwnerOf(ranges, k) == Some(a))
    && (forall k | k in l.base && OwnerOf(ranges, k) == Some(a) :: k in t.ref.base)
    && (t.ref.pending.Some? <==> a in l.pending)
    && (a in l.pending ==> l.pending[a] == t.ref.pending.value.0)
    && (forall o | o in l.pending :: OwnerOf(ranges, l.pending[o]) == Some(o))
  }

  ghost predicate Part(ranges: seq<Range>, a: Address, db: RefDb, l: LogicalDb) {
    db.Keys == l.Keys && forall n | n in l :: TablePart(ranges, a, db[n], l[n])
  }

  lemma RefWriteView(c: Schema, ref: TR.Ref, r: Record)
    requires HasKey(c) && Verify(c.fields, r)
    ensures var k := r[c.sortKey]; var ref' := TR.RefWrite(c, ref, r).0;
      && TR.View(ref') == (if ref.pending.Some? && ref.pending.value.0 == k then TR.View(ref) else TR.View(ref)[k := r])
      && ref'.pending == (if ref.pending.None? then Some((k, r))
                          else if ref.pending.value.0 == k then ref.pending else None)
      && ref'.base == (if ref.pending.None? || ref.pending.value.0 == k then ref.base
                       else ref.base[ref.pending.value.0 := ref.pending.value.1][k := r])
      && (ref.pending.Some? ==>
        ref.pending.value.0 in TR.View(ref) && TR.View(ref)[ref.pending.value.0] == ref.pending.value.1)
  {
    hide Verify;
  }

  lemma WriteAtOwner(ranges: seq<Range>, a: Address, t: RefTable, l: LogicalTable, r: Record)
    requires HasKey(l.schema) && TablePart(ranges, a, t, l)
    requires Verify(l.schema.fields, r) ==> OwnerOf(ranges, r[l.schema.sortKey]) == Some(a)
    ensures var (ref', w) := TR.RefWrite(t.schema, t.ref, r); var (l', w') := LogicalWrite(ranges, l, r);
      w == w' && TablePart(ranges, a, t.(ref := ref'), l')
  {
    if Verify(l.schema.fields, r) {
      var k := r[l.schema.sortKey];
      RefWriteView(t.schema, t.ref, r);
      var ref' := TR.RefWrite(t.schema, t.ref, r).0;
      hide TR.View, TR.RefWrite, Verify, OwnerOf, HasKey;
      if a !in l.pending {
        FirstPart(ranges, a, t, l, k, r, ref');
      } else if l.pending[a] != k {
        SecondPart(ranges, a, t, l, k, r, ref');
      }
    }
  }

  /** The owner's memtable takes its first record. */
  lemma FirstPart(ranges: seq<Range>, a: Address, t: RefTable, l: LogicalTable, k: Data, r: Record, ref': TR.Ref)
    requires TablePart(ranges, a, t, l) && OwnerOf(ranges, k) == Some(a) && a !in l.pending
    requires TR.View(ref') == TR.View(t.ref)[k := r] && ref'.base == t.ref.base && ref'.pending == Some((k, r))
    ensures TablePart(ranges, a, t.(ref := ref'), l.(view := l.view[k := r], pending := l.pending[a := k]))
  {
    hide TR.View, OwnerOf;
  }

  /** Its second record sends both to disk. */
  lemma SecondPart(ranges: seq<Range>, a: Address, t: RefTable, l: LogicalTable, k: Data, r: Record, ref': TR.Ref)
    requires TablePart(ranges, a, t, l) && OwnerOf(ranges, k) == Some(a) && a in l.pending
    requires var e := t.ref.pending.value;
      && TR.View(ref') == TR.View(t.ref)[k := r] && ref'.base == t.ref.base[e.0 := e.1][k := r] && ref'.pending == None
      && e.0 in TR.View(t.ref) && TR.View(t.ref)[e.0] == e.1
    ensures TablePart(ranges, a, t.(ref := ref'),
      l.(view := l.view[k := r], base := Flushed(l, l.pending[a])[k := r], pending := l.pending - {a}))
  {
    hide TR.View, OwnerOf;
  }

  lemma WriteElsewhere(ranges: seq<Range>, a: Address, t: RefTable, l: LogicalTable, r: Record)
    requires HasKey(l.schema) && TablePart(ranges, a, t, l)
    requires Verify(l.schema.fields, r) ==> OwnerOf(ranges, r[l.schema.sortKey]) != Some(a)
    ensures TablePart(ranges, a, t, LogicalWrite(ranges, l, r).0)
  {
    hide TR.View, Verify, Owner, Print;
  }

  lemma ReadAtOwner(ranges: seq<Range>, a: Address, t: RefTable, l: LogicalTable, k: Data)
    requires HasKey(l.schema) && TablePart(ranges, a, t, l) && OwnerOf(ranges, k) == Some(a)
    ensures TR.RefRead(t.schema, t.ref, k) == LogicalRead(ranges, l, k)
  {
    hide TR.View, TypeOf, Owner, Print;
    var view := TR.View(t.ref);
    if TypeOf(k).id != KeyType(l.schema).id && view != map[] {
      var x :| x in view;
      assert x in l.view && OwnerOf(ranges, x) == OwnerOf(ranges, k);
    }
  }

  /** Restarting the owner of a part, and another node. */
  lemma ForgetAtOwner(ranges: seq<Range>, a: Address, t: RefTable, l: LogicalTable)
    requires TablePart(ranges, a, t, l)
    ensures TablePart(ranges, a, t.(ref := t.ref.(pending := None)), Forget(l, a))
  {
    hide OwnerOf;
  }

  lemma ForgetElsewhere(ranges: seq<Range>, a: Address, b: Address, t: RefTable, l: LogicalTable)
    requires TablePart(ranges, b, t, l) && a != b
    ensures TablePart(ranges, b, t, Forget(l, a))
  {
    hide OwnerOf, TR.View;
  }

  // ----- the nodes

  datatype NodeGhost = NodeGhost(layers: seq<seq<Memtable>>, db: RefDb)

  ghost predicate NodeOk(ranges: seq<Range>, a: Address, n: Node, g: NodeGhost, l: LogicalDb) {
    DbRepresents(n.files, n.tables, g.layers, g.db) && Part(ranges, a, g.db, l)
  }

  ghost predicate ClusterOk(nodes: Nodes, gs: map<Address, NodeGhost>, ranges: seq<Range>, l: LogicalDb) {
    && LogicalOk(l)
    && forall a | Named(ranges, a) :: a in nodes && a in gs && NodeOk(ranges, a, nodes[a], gs[a], l)
  }

  /** Statements the theorem speaks of: printable keys and tables the cluster can route. */
  ghost predicate StatementOk(stmt: Statement) {
    Routable(stmt) && (stmt.CreateStmt? ==> ClusterTable(stmt.table, stmt.schema))
  }

  /** An empty key is forwarded to no single node: it is direct only from its owner. */
  predicate Direct(ranges: seq<Range>, self: Address, stmt: Statement)
    requires Routable(stmt)
  {
    stmt.CreateStmt? || PartitionKey(stmt) != [] || Owner(ranges, PartitionKey(stmt)) == Some(self)
  }

  /** Any other statement is broadcast, and answered as a broadcast. */
  lemma IndirectReply(nodes: Nodes, ranges: seq<Range>, self: Address, stmt: Statement, junk: Junk)
    requires Routable(stmt) && !Direct(ranges, self, stmt) && Covered(ranges)
    ensures Process(nodes, ranges, self, stmt, junk).1 == Done
  {
    hide Named, Token, Streamers, Others, Execute, ExecuteAll, AllKeyed, Print;
    CoveredOwner(ranges, PartitionKey(stmt));
    OthersInclude(ranges, Token(PartitionKey(stmt)), self);
  }

  lemma CoveredOwner(ranges: seq<Range>, key: seq<byte>)
    requires Covered(ranges)
    ensures Owner(ranges, key).Some? && Named(ranges, Owner(ranges, key).value)
  {
    hide Named;
    OwnerIsNamed(ranges, Token(key));
  }

  // one statement at one node

  lemma SelectAgrees(ranges: seq<Range>, a: Address, n: Node, g: NodeGhost, l: LogicalDb, stmt: Statement, junk: Junk)
    requires LogicalOk(l) && NodeOk(ranges, a, n, g, l) && stmt.SelectStmt? && OwnerOf(ranges, stmt.key) == Some(a)
    ensures Execute(n, stmt, junk).1 == LogicalStep(ranges, l, stmt).1
  {
    hide ReadRecord, TR.RefRead, LogicalRead, TablePart, DbRepresents, OwnerOf;
    GetAgrees(n.files, n.tables, g.layers, g.db, stmt.table, stmt.key, junk);
    if stmt.table in l {
      ReadAtOwner(ranges, a, g.db[stmt.table], l[stmt.table], stmt.key);
    }
  }

  lemma KeyRoutes(ranges: seq<Range>, c: Schema, n: ByteString, stmt: Statement)
    requires ClusterTable(n, c) && stmt.InsertStmt? && Routable(stmt) && Verify(c.fields, stmt.values)
    ensures stmt.values[c.sortKey] == stmt.values[1]
    ensures OwnerOf(ranges, stmt.values[1]) == Owner(ranges, PartitionKey(stmt))
  {
  }

  ghost function InsertGhost(g: NodeGhost, n: Node, stmt: Statement): (g': NodeGhost)
    requires stmt.InsertStmt? && |g.layers| == |n.tables| && AllKeyed(n.tables) && RefKeyed(g.db)
  {
    NodeGhost(NextDbLayers(n.tables, g.layers, stmt.table, stmt.values), RefPut(g.db, stmt.table, stmt.values).0)
  }

  lemma PartAfterInsert(ranges: seq<Range>, a: Address, db: RefDb, l: LogicalDb, stmt: Statement)
    requires LogicalOk(l) && Part(ranges, a, db, l) && RefKeyed(db) && stmt.InsertStmt? && Routable(stmt)
    requires Owner(ranges, PartitionKey(stmt)) == Some(a)
    ensures var (db', w) := RefPut(db, stmt.table, stmt.values); var (l', w') := LogicalStep(ranges, l, stmt);
      Ack(w) == w' && Part(ranges, a, db', l')
  {
    hide TR.RefWrite, LogicalWrite, TablePart, OwnerOf, Owner, ClusterTable, PartitionKey, Verify, HasKey;
    if stmt.table in l {
      var t := l[stmt.table];
      ClusterTableKey(stmt.table, t.schema);
      if Verify(t.schema.fields, stmt.values) { KeyRoutes(ranges, t.schema, stmt.table, stmt); }
      WriteAtOwner(ranges, a, db[stmt.table], t, stmt.values);
      PartSchema(ranges, a, db[stmt.table], t);
    }
  }

  lemma ExecutedInsert(n: Node, g: NodeGhost, stmt: Statement, junk: Junk)
    requires DbRepresents(n.files, n.tables, g.layers, g.db) && stmt.InsertStmt?
    ensures |g.layers| == |n.tables| && AllKeyed(n.tables) && RefKeyed(g.db)
    ensures var n', g' := Execute(n, stmt, junk).0, InsertGhost(g, n, stmt);
      DbRepresents(n'.files, n'.tables, g'.layers, g'.db)
    ensures Execute(n, stmt, junk).1 == Ack(RefPut(g.db, stmt.table, stmt.values).1)
  {
    assert |g.layers| == |n.tables|;
    hide WriteRecord, RefPut, DbRepresents, NextDbLayers;
    PutAgrees(n.files, n.tables, g.layers, g.db, stmt.table, stmt.values);
  }

  lemma InsertAgrees(ranges: seq<Range>, a: Address, n: Node, g: NodeGhost, l: LogicalDb, stmt: Statement, junk: Junk)
    requires LogicalOk(l) && NodeOk(ranges, a, n, g, l) && stmt.InsertStmt? && Routable(stmt)
    requires Owner(ranges, PartitionKey(stmt)) == Some(a)
    ensures |g.layers| == |n.tables| && AllKeyed(n.tables) && RefKeyed(g.db)
    ensures var (n', w) := Execute(n, stmt, junk); var (l', w') := LogicalStep(ranges, l, stmt);
      w == w' && NodeOk(ranges, a, n', InsertGhost(g, n, stmt), l')
  {
    hide DbRepresents, Part, Execute, LogicalStep, RefPut, NextDbLayers, Owner, PartitionKey, LogicalOk;
    ExecutedInsert(n, g, stmt, junk);
    PartAfterInsert(ranges, a, g.db, l, stmt);
  }

  lemma PartSchema(ranges: seq<Range>, a: Address, t: RefTable, l: LogicalTable)
    requires TablePart(ranges, a, t, l)
    ensures t.schema == l.schema
  {
  }

  lemma ClusterTableKey(n: ByteString, c: Schema)
    requires ClusterTable(n, c)
    ensures HasKey(c)
  {
  }

  lemma InsertElsewhere(ranges: seq<Range>, a: Address, n: Node, g: NodeGhost, l: LogicalDb, stmt: Statement)
    requires LogicalOk(l) && NodeOk(ranges, a, n, g, l) && stmt.InsertStmt? && Routable(stmt)
    requires Owner(ranges, PartitionKey(stmt)) != Some(a)
    ensures NodeOk(ranges, a, n, g, LogicalStep(ranges, l, stmt).0)
  {
    hide LogicalWrite, TablePart, OwnerOf, Owner, ClusterTable, PartitionKey, Verify, DbRepresents;
    if stmt.table in l {
      var t := l[stmt.table];
      ClusterTableKey(stmt.table, t.schema);
      if Verify(t.schema.fields, stmt.values) { KeyRoutes(ranges, t.schema, stmt.table, stmt); }
      WriteElsewhere(ranges, a, g.db[stmt.table], t, stmt.values);
    }
  }

  ghost function CreateGhost(g: NodeGhost, n: Node, stmt: Statement): (g': NodeGhost)
    requires stmt.CreateStmt? && |g.layers| == |n.tables|
  {
    NodeGhost(CreateLayers(n.tables, g.layers, stmt.table), RefCreate(g.db, stmt.table, stmt.schema))
  }

  lemma PartAfterCreate(ranges: seq<Range>, a: Address, db: RefDb, l: LogicalDb, stmt: Statement)
    requires LogicalOk(l) && Part(ranges, a, db, l) && stmt.CreateStmt?
    ensures Part(ranges, a, RefCreate(db, stmt.table, stmt.schema), LogicalStep(ranges, l, stmt).0)
  {
    hide OwnerOf, TablePart, ClusterTable, HasKey;
    NewPart(ranges, a, stmt.schema);
  }

  lemma NewPart(ranges: seq<Range>, a: Address, c: Schema)
    ensures TablePart(ranges, a, RefTable(c, TR.Ref(map[], None)), LogicalTable(c, map[], map[], map[]))
  {
    hide OwnerOf;
    assert TR.View(TR.Ref(map[], None)) == map[];
  }

  lemma ExecutedCreate(n: Node, g: NodeGhost, stmt: Statement, junk: Junk)
    requires DbRepresents(n.files, n.tables, g.layers, g.db) && stmt.CreateStmt? && TableOpOk(stmt.table, stmt.schema)
    ensures |g.layers| == |n.tables|
    ensures var n', g' := Execute(n, stmt, junk).0, CreateGhost(g, n, stmt);
      DbRepresents(n'.files, n'.tables, g'.layers, g'.db)
  {
    assert |g.layers| == |n.tables|;
    hide CreateTable, RefCreate, DbRepresents, CreateLayers, TableOpOk;
    CreateAgrees(n.files, n.tables, g.layers, g.db, stmt.table, stmt.schema);
  }

  lemma CreateHere(ranges: seq<Range>, a: Address, n: Node, g: NodeGhost, l: LogicalDb, stmt: Statement, junk: Junk)
    requires LogicalOk(l) && NodeOk(ranges, a, n, g, l) && stmt.CreateStmt? && ClusterTable(stmt.table, stmt.schema)
    ensures |g.layers| == |n.tables|
    ensures NodeOk(ranges, a, Execute(n, stmt, junk).0, CreateGhost(g, n, stmt), LogicalStep(ranges, l, stmt).0)
  {
    hide DbRepresents, Part, Execute, LogicalStep, RefCreate, CreateLayers, LogicalOk, TableOpOk;
    ExecutedCreate(n, g, stmt, junk);
    PartAfterCreate(ranges, a, g.db, l, stmt);
  }

  lemma StepKeepsLogicalOk(ranges: seq<Range>, l: LogicalDb, stmt: Statement)
    requires LogicalOk(l) && (stmt.CreateStmt? ==> ClusterTable(stmt.table, stmt.schema))
    ensures LogicalOk(LogicalStep(ranges, l, stmt).0)
  {
    if stmt.CreateStmt? { ClusterTableKey(stmt.table, stmt.schema); }
    StepKeepsKeyed(ranges, l, stmt);
    hide ClusterTable, OwnerOf, Verify, HasKey, LogicalKeyed;
  }

  // ----- the whole cluster

  lemma {:induction false} ExecuteAllAt(nodes: Nodes, at: seq<Address>, stmt: Statement, junk: Junk, a: Address)
    requires forall i, j | 0 <= i < j < |at| :: at[i] != at[j]
    requires a in nodes && !stmt.InsertStmt?
    ensures a in ExecuteAll(nodes, at, stmt, junk)
    ensures ExecuteAll(nodes, at, stmt, junk)[a] == if a in at then Execute(nodes[a], stmt, junk).0 else nodes[a]
  {
    hide Execute;
    if at != [] {
      ExecuteAllAt(ExecuteAt(nodes, at[0], stmt, junk), at[1..], stmt, junk, a);
      assert at == [at[0]] + at[1..];
      assert at[0] !in at[1..];
    }
  }

  lemma ExecuteOne(nodes: Nodes, a: Address, stmt: Statement, junk: Junk)
    ensures ExecuteAll(nodes, [a], stmt, junk) == ExecuteAt(nodes, a, stmt, junk)
  {
    hide ExecuteAt;
    assert [a][1..] == [];
    assert ExecuteAll(ExecuteAt(nodes, a, stmt, junk), [], stmt, junk) == ExecuteAt(nodes, a, stmt, junk);
  }

  ghost function NextGhosts(nodes: Nodes, gs: map<Address, NodeGhost>, ranges: seq<Range>,
                            stmt: Statement): (r: map<Address, NodeGhost>)
    requires Routable(stmt)
  {
    match stmt
    case CreateStmt(_, _) =>
      map a | a in gs ::
        if a in nodes && |gs[a].layers| == |nodes[a].tables| then CreateGhost(gs[a], nodes[a], stmt) else gs[a]
    case InsertStmt(_, _) =>
      var o := Owner(ranges, PartitionKey(stmt));
      if o.Some? && o.value in gs && o.value in nodes && |gs[o.value].layers| == |nodes[o.value].tables|
         && AllKeyed(nodes[o.value].tables) && RefKeyed(gs[o.value].db)
      then gs[o.value := InsertGhost(gs[o.value], nodes[o.value], stmt)]
      else gs
    case SelectStmt(_, _) => gs
  }

  /** What one statement does to the cluster and answers, from whichever node it was sent to. */
  ghost predicate StepAgrees(nodes: Nodes, gs: map<Address, NodeGhost>, ranges: seq<Range>, l: LogicalDb,
                             self: Address, stmt: Statement, junk: Junk)
    requires Routable(stmt) && LogicalOk(l)
  {
    var (nodes', reply) := Process(nodes, ranges, self, stmt, junk);
    var (l', reply') := LogicalStep(ranges, l, stmt);
    reply == reply' && ClusterOk(nodes', NextGhosts(nodes, gs, ranges, stmt), ranges, l')
  }

  lemma CreateStep(nodes: Nodes, gs: map<Address, NodeGhost>, ranges: seq<Range>, l: LogicalDb, self: Address,
                   stmt: Statement, junk: Junk)
    requires ClusterOk(nodes, gs, ranges, l) && StatementOk(stmt) && stmt.CreateStmt?
    ensures StepAgrees(nodes, gs, ranges, l, self, stmt, junk)
  {
    hide NodeOk, Named, Execute, Route, ClusterTable, ExecuteAll, CreateGhost;
    var at := Route(ranges, self, stmt);
    var l' := LogicalStep(ranges, l, stmt).0;
    BroadcastExact(ranges, self, stmt);
    StepKeepsLogicalOk(ranges, l, stmt);
    forall a | Named(ranges, a)
      ensures var nodes', gs' := ExecuteAll(nodes, at, stmt, junk), NextGhosts(nodes, gs, ranges, stmt);
        a in nodes' && a in gs' && NodeOk(ranges, a, nodes'[a], gs'[a], l')
    {
      assert a in at;
      ExecuteAllAt(nodes, at, stmt, junk, a);
      CreateHere(ranges, a, nodes[a], gs[a], l, stmt, junk);
    }
  }

  lemma RoutedDirect(ranges: seq<Range>, self: Address, stmt: Statement)
    requires Covered(ranges) && Routable(stmt) && !stmt.CreateStmt? && Direct(ranges, self, stmt)
    ensures var o := Owner(ranges, PartitionKey(stmt));
      o.Some? && Named(ranges, o.value) && Route(ranges, self, stmt) == [o.value]
  {
    hide Named, Owner, Route, PartitionKey;
    CoveredOwner(ranges, PartitionKey(stmt));
    RoutedToOwnerIff(ranges, self, stmt);
  }

  lemma SelectStep(nodes: Nodes, gs: map<Address, NodeGhost>, ranges: seq<Range>, l: LogicalDb,
                   self: Address, stmt: Statement, junk: Junk)
    requires ClusterOk(nodes, gs, ranges, l) && StatementOk(stmt) && stmt.SelectStmt? && Covered(ranges)
    requires Direct(ranges, self, stmt)
    ensures StepAgrees(nodes, gs, ranges, l, self, stmt, junk)
  {
    hide NodeOk, Named, Owner, ReadRecord, LogicalRead, Print, Route, Direct, Covered;
    RoutedDirect(ranges, self, stmt);
    var o := Owner(ranges, PartitionKey(stmt)).value;
    ExecuteOne(nodes, o, stmt, junk);
    SelectAgrees(ranges, o, nodes[o], gs[o], l, stmt, junk);
    assert ExecuteAt(nodes, o, stmt, junk) == nodes;
  }

  lemma InsertAtOwner(nodes: Nodes, gs: map<Address, NodeGhost>, ranges: seq<Range>, l: LogicalDb,
                      o: Address, stmt: Statement, junk: Junk)
    requires ClusterOk(nodes, gs, ranges, l) && stmt.InsertStmt? && Routable(stmt)
    requires Owner(ranges, PartitionKey(stmt)) == Some(o) && Named(ranges, o)
    ensures |gs[o].layers| == |nodes[o].tables| && AllKeyed(nodes[o].tables) && RefKeyed(gs[o].db)
    ensures var (n, w) := Execute(nodes[o], stmt, junk); var (l', w') := LogicalStep(ranges, l, stmt);
      w == w' && ClusterOk(nodes[o := n], gs[o := InsertGhost(gs[o], nodes[o], stmt)], ranges, l')
  {
    assert LogicalOk(l) && LogicalKeyed(l);
    hide NodeOk, Named, Owner, Execute, LogicalStep, PartitionKey, InsertGhost, AllKeyed, RefKeyed, LogicalOk,
      LogicalKeyed, Routable;
    InsertAgrees(ranges, o, nodes[o], gs[o], l, stmt, junk);
    StepKeepsLogicalOk(ranges, l, stmt);
    var l' := LogicalStep(ranges, l, stmt).0;
    forall a | Named(ranges, a) && a != o ensures a in nodes && a in gs && NodeOk(ranges, a, nodes[a], gs[a], l') {
      InsertElsewhere(ranges, a, nodes[a], gs[a], l, stmt);
    }
    ReplacedOk(nodes, gs, ranges, l', o, Execute(nodes[o], stmt, junk).0, InsertGhost(gs[o], nodes[o], stmt));
  }

  lemma ReplacedOk(nodes: Nodes, gs: map<Address, NodeGhost>, ranges: seq<Range>, l: LogicalDb,
                   o: Address, n: Node, g: NodeGhost)
    requires LogicalOk(l) && NodeOk(ranges, o, n, g, l)
    requires forall a | Named(ranges, a) && a != o :: a in nodes && a in gs && NodeOk(ranges, a, nodes[a], gs[a], l)
    ensures ClusterOk(nodes[o := n], gs[o := g], ranges, l)
  {
    hide NodeOk, Named, LogicalOk;
  }

  lemma InsertStep(nodes: Nodes, gs: map<Address, NodeGhost>, ranges: seq<Range>, l: LogicalDb,
                   self: Address, stmt: Statement, junk: Junk)
    requires ClusterOk(nodes, gs, ranges, l) && StatementOk(stmt) && stmt.InsertStmt? && Covered(ranges)
    requires Direct(ranges, self, stmt)
    ensures StepAgrees(nodes, gs, ranges, l, self, stmt, junk)
  {
    RoutedDirect(ranges, self, stmt);
    var o := Owner(ranges, PartitionKey(stmt)).value;
    assert o in nodes && o in gs;
    hide ClusterOk, Named, Owner, Execute, LogicalStep, PartitionKey, InsertGhost, Route, Direct, Covered, AllKeyed,
      RefKeyed, ClusterTable, ExecuteAll;
    InsertAtOwner(nodes, gs, ranges, l, o, stmt, junk);
    ExecuteOne(nodes, o, stmt, junk);
  }

  // ----- a node restarts

  lemma RestartHere(ranges: seq<Range>, a: Address, n: Node, g: NodeGhost, l: LogicalDb, fill: Junk)
    requires NodeOk(ranges, a, n, g, l) && IdsFit(n.tables) && CompleteImage(n.files, n.tables, fill)
    ensures Restart(n, fill) == Some(Node(FlushMetadata(n.files, n.tables), Cleared(n.tables)))
    ensures NodeOk(ranges, a, Restart(n, fill).value, NodeGhost(g.layers, RefRestart(g.db)), LogicalRestart(l, a))
  {
    hide DbRepresents, TablePart, Open, FlushMetadata, CompleteImage, Cleared, Forget;
    RestartAgrees(n.files, n.tables, g.layers, g.db, fill);
    forall m | m in l ensures TablePart(ranges, a, RefRestart(g.db)[m], Forget(l[m], a)) {
      ForgetAtOwner(ranges, a, g.db[m], l[m]);
    }
  }

  lemma RestartElsewhere(ranges: seq<Range>, a: Address, b: Address, n: Node, g: NodeGhost, l: LogicalDb)
    requires NodeOk(ranges, b, n, g, l) && a != b
    ensures NodeOk(ranges, b, n, g, LogicalRestart(l, a))
  {
    hide DbRepresents, TablePart, Forget;
    forall m | m in l ensures TablePart(ranges, b, g.db[m], Forget(l[m], a)) {
      ForgetElsewhere(ranges, a, b, g.db[m], l[m]);
    }
  }

  lemma RestartStep(nodes: Nodes, gs: map<Address, NodeGhost>, ranges: seq<Range>, l: LogicalDb, a: Address, fill: Junk)
    requires ClusterOk(nodes, gs, ranges, l) && Named(ranges, a)
    requires IdsFit(nodes[a].tables) && CompleteImage(nodes[a].files, nodes[a].tables, fill)
    ensures var n := Restart(nodes[a], fill);
      n.Some? && ClusterOk(nodes[a := n.value], gs[a := NodeGhost(gs[a].layers, RefRestart(gs[a].db))], ranges,
        LogicalRestart(l, a))
  {
    hide NodeOk, Named, Restart, CompleteImage, ClusterTable, IdsFit;
    RestartHere(ranges, a, nodes[a], gs[a], l, fill);
    forall b | Named(ranges, b) && b != a ensures NodeOk(ranges, b, nodes[b], gs[b], LogicalRestart(l, a)) {
      RestartElsewhere(ranges, a, b, nodes[b], gs[b], l);
    }
  }

  // ----- every run

  /** A statement sent to some coordinator, or a restart of one node. */
  datatype Event = Sent(self: Address, stmt: Statement, junk: Junk) | Restarted(node: Address, fill: Junk)

  ghost predicate ScriptOk(ranges: seq<Range>, script: seq<Event>) {
    Runnable(script) && forall i | 0 <= i < |script| ::
      match script[i]
      case Sent(_, stmt, _) => StatementOk(stmt)
      case Restarted(a, _) => Named(ranges, a)
  }

  /** What a run needs to be defined: statements with a key to route by, tables with a sort key. */
  ghost predicate Runnable(script: seq<Event>) {
    forall i | 0 <= i < |script| && script[i].Sent? ::
      Routable(script[i].stmt) && (script[i].stmt.CreateStmt? ==> HasKey(script[i].stmt.schema))
  }

  ghost predicate AllDirect(ranges: seq<Range>, script: seq<Event>)
    requires Runnable(script)
  {
    forall i | 0 <= i < |script| && script[i].Sent? :: Direct(ranges, script[i].self, script[i].stmt)
  }

  /** Every restart finds the complete metadata image of its node. */
  ghost predicate Complete(nodes: Nodes, ranges: seq<Range>, script: seq<Event>)
    requires Runnable(script)
    decreases |script|
  {
    if script == [] then true
    else match script[0]
      case Sent(self, stmt, junk) =>
        Complete(Process(nodes, ranges, self, stmt, junk).0, ranges, script[1..])
      case Restarted(a, fill) =>
        && a in nodes && IdsFit(nodes[a].tables) && CompleteImage(nodes[a].files, nodes[a].tables, fill)
        && match Restart(nodes[a], fill)
           case None => true
           case Some(n) => Complete(nodes[a := n], ranges, script[1..])
  }

  ghost function Run(nodes: Nodes, ranges: seq<Range>, script: seq<Event>): (r: seq<Reply>)
    requires Runnable(script)
    decreases |script|
  {
    if script == [] then []
    else match script[0]
      case Sent(self, stmt, junk) =>
        var (nodes', reply) := Process(nodes, ranges, self, stmt, junk);
        [reply] + Run(nodes', ranges, script[1..])
      case Restarted(a, fill) =>
        if a !in nodes || !IdsFit(nodes[a].tables) then []
        else match Restart(nodes[a], fill)
          case None => []
          case Some(n) => [Done] + Run(nodes[a := n], ranges, script[1..])
  }

  lemma StepKeepsKeyed(ranges: seq<Range>, l: LogicalDb, stmt: Statement)
    requires LogicalKeyed(l) && (stmt.CreateStmt? ==> HasKey(stmt.schema))
    ensures LogicalKeyed(LogicalStep(ranges, l, stmt).0)
  {
    hide OwnerOf, Verify, HasKey;
  }

  /** The logical run never looks at who received a statement. */
  ghost function LogicalRun(ranges: seq<Range>, l: LogicalDb, script: seq<Event>): (r: seq<Reply>)
    requires LogicalKeyed(l) && Runnable(script)
    decreases |script|
  {
    if script == [] then []
    else match script[0]
      case Sent(_, stmt, _) =>
        StepKeepsKeyed(ranges, l, stmt);
        var (l', reply) := LogicalStep(ranges, l, stmt);
        [reply] + LogicalRun(ranges, l', script[1..])
      case Restarted(a, _) => [Done] + LogicalRun(ranges, LogicalRestart(l, a), script[1..])
  }

  lemma SameTail<T>(x: T, a: seq<T>, b: seq<T>)
    ensures [x] + a == [x] + b <==> a == b
  {
    assert ([x] + a)[1..] == a && ([x] + b)[1..] == b;
  }

  lemma DirectFirst(ranges: seq<Range>, script: seq<Event>)
    requires Runnable(script) && script != []
    ensures Runnable(script[1..])
    ensures AllDirect(ranges, script)
       <==> (script[0].Sent? ==> Direct(ranges, script[0].self, script[0].stmt)) && AllDirect(ranges, script[1..])
  {
    hide Direct, Routable, HasKey;
    assert script == [script[0]] + script[1..];
    if AllDirect(ranges, script[1..]) {
      forall i | 1 <= i < |script| && script[i].Sent? ensures Direct(ranges, script[i].self, script[i].stmt) {
        assert script[i] == script[1..][i - 1];
      }
    }
  }

  lemma StatementStep(nodes: Nodes, gs: map<Address, NodeGhost>, ranges: seq<Range>, l: LogicalDb,
                      self: Address, stmt: Statement, junk: Junk)
    requires ClusterOk(nodes, gs, ranges, l) && StatementOk(stmt) && Covered(ranges) && Direct(ranges, self, stmt)
    ensures StepAgrees(nodes, gs, ranges, l, self, stmt, junk)
  {
    hide *;
    match stmt
    case CreateStmt(_, _) => CreateStep(nodes, gs, ranges, l, self, stmt, junk);
    case SelectStmt(_, _) => SelectStep(nodes, gs, ranges, l, self, stmt, junk);
    case InsertStmt(_, _) => InsertStep(nodes, gs, ranges, l, self, stmt, junk);
  }

  lemma {:induction false} RunAgreesFrom(nodes: Nodes, gs: map<Address, NodeGhost>, ranges: seq<Range>, l: LogicalDb,
                                         script: seq<Event>)
    requires ClusterOk(nodes, gs, ranges, l) && Covered(ranges) && ScriptOk(ranges, script)
    requires Complete(nodes, ranges, script)
    ensures Run(nodes, ranges, script) == LogicalRun(ranges, l, script) <==> AllDirect(ranges, script)
    decreases |script|
  {
    hide NodeOk, Named, Process, LogicalStep, NextGhosts, ClusterTable, Covered, PartitionKey, Restart, LogicalRestart,
      CompleteImage, IdsFit, Direct, AllDirect, Routable, HasKey;
    if script == [] {
      NoneDirect(ranges);
    } else {
      var rest := script[1..];
      DirectFirst(ranges, script);
      match script[0]
      case Sent(self, stmt, junk) =>
        assert StatementOk(stmt);
        if Direct(ranges, self, stmt) {
          StatementStep(nodes, gs, ranges, l, self, stmt, junk);
          var nodes', l' := Process(nodes, ranges, self, stmt, junk).0, LogicalStep(ranges, l, stmt).0;
          RunAgreesFrom(nodes', NextGhosts(nodes, gs, ranges, stmt), ranges, l', rest);
          SameTail(LogicalStep(ranges, l, stmt).1, Run(nodes', ranges, rest), LogicalRun(ranges, l', rest));
        } else {
          IndirectReply(nodes, ranges, self, stmt, junk);
          AnsweredReply(ranges, l, self, stmt);
          assert Run(nodes, ranges, script)[0] != LogicalRun(ranges, l, script)[0];
        }
      case Restarted(a, fill) =>
        RestartStep(nodes, gs, ranges, l, a, fill);
        var nodes', l' := nodes[a := Restart(nodes[a], fill).value], LogicalRestart(l, a);
        RunAgreesFrom(nodes', gs[a := NodeGhost(gs[a].layers, RefRestart(gs[a].db))], ranges, l', rest);
        SameTail(Done, Run(nodes', ranges, rest), LogicalRun(ranges, l', rest));
    }
  }

  lemma NoneDirect(ranges: seq<Range>)
    ensures AllDirect(ranges, [])
  {
  }

  lemma AnsweredReply(ranges: seq<Range>, l: LogicalDb, self: Address, stmt: Statement)
    requires LogicalKeyed(l) && Routable(stmt) && !Direct(ranges, self, stmt)
    ensures LogicalStep(ranges, l, stmt).1 != Done
  {
    hide LogicalWrite, LogicalRead, Owner;
  }

  ghost predicate AllFresh(nodes: Nodes, ranges: seq<Range>) {
    forall a | Named(ranges, a) :: a in nodes && nodes[a] == Node(map[], [])
  }

  /** Every sequence of statements sent to arbitrary coordinators that share the same ranges, and of
      restarts of any of the nodes that find a complete metadata image, is answered like one logical
      database exactly when each statement with an empty key was sent to the owner of that key. */
  lemma ClusterAgrees(nodes: Nodes, ranges: seq<Range>, script: seq<Event>)
    requires Covered(ranges) && AllFresh(nodes, ranges) && ScriptOk(ranges, script)
    requires Complete(nodes, ranges, script)
    ensures Run(nodes, ranges, script) == LogicalRun(ranges, map[], script) <==> AllDirect(ranges, script)
  {
    assert Runnable(script);
    hide Named, Covered, ScriptOk, Runnable, Complete, AllDirect;
    var gs := map a | a in nodes :: NodeGhost([], map[]);
    RunAgreesFrom(nodes, gs, ranges, map[], script);
  }
}
