/** The sort key must be column 1: a record stored by one column and looked up by another is lost. */
module ClusterLimits {
  import opened Bytes
  import opened Data
  import opened OrderedMap
  import opened Catalog
  import opened Decimal
  import opened TableBuilders
  import opened DiskManagers
  import opened TableManagers
  import opened Databases
  import opened DatabaseRefinement
  import opened Clusters
  import opened ClusterRefinement

  /** A table is created, a record inserted, and selected by its sort key. */
  ghost function RoundTrip(self: Address, t: ByteString, c: Schema, r: Record, junk: Junk): (script: seq<Event>)
    requires c.sortKey < |r|
  {
    [Sent(self, CreateStmt(t, c), junk), Sent(self, InsertStmt(t, r), junk),
     Sent(self, SelectStmt(t, r[c.sortKey]), junk)]
  }

  /** A record of the table that is routed by its second value and selected by its sort key. */
  ghost predicate Sendable(c: Schema, r: Record) {
    && HasKey(c) && Verify(c.fields, r) && |r| >= 2
    && Printable(r[1]) && Print(r[1]) != [] && Printable(r[c.sortKey]) && Print(r[c.sortKey]) != []
  }

  function Reread(r: Record, found: bool): (replies: seq<Reply>) {
    [Done, Ack(Written), Answered(ReadReply.Reply(if found then Found(r) else NotFound))]
  }

  // ----- what the cluster answers

  lemma Created(nodes: Nodes, ranges: seq<Range>, self: Address, t: ByteString, c: Schema, junk: Junk, a: Address)
    requires AllFresh(nodes, ranges) && Named(ranges, a)
    ensures var nodes' := Process(nodes, ranges, self, CreateStmt(t, c), junk).0;
      a in nodes' && nodes'[a] == Node(map[], [Manager(t, c, [], [])])
  {
    hide Named, Route;
    BroadcastExact(ranges, self, CreateStmt(t, c));
    ExecuteAllAt(nodes, Route(ranges, self, CreateStmt(t, c)), CreateStmt(t, c), junk, a);
  }

  lemma Inserted(t: ByteString, c: Schema, r: Record, junk: Junk)
    requires HasKey(c) && Verify(c.fields, r)
    ensures AllKeyed([Manager(t, c, [], [])])
    ensures Execute(Node(map[], [Manager(t, c, [], [])]), InsertStmt(t, r), junk)
         == (Node(map[], [Manager(t, c, [(r[c.sortKey], r)], [])]), Ack(Written))
  {
    hide Gt, TypeOf;
    var m := Manager(t, c, [], []);
    assert Insert(m.mem, r[c.sortKey], r) == [(r[c.sortKey], r)];
    assert [m][0 := m.(mem := [(r[c.sortKey], r)])] == [m.(mem := [(r[c.sortKey], r)])];
  }

  lemma Selected(t: ByteString, c: Schema, r: Record, junk: Junk)
    requires HasKey(c) && Verify(c.fields, r)
    ensures var stmt := SelectStmt(t, r[c.sortKey]);
      && Execute(Node(map[], [Manager(t, c, [(r[c.sortKey], r)], [])]), stmt, junk).1
           == Answered(ReadReply.Reply(Found(r)))
      && Execute(Node(map[], [Manager(t, c, [], [])]), stmt, junk).1 == Answered(ReadReply.Reply(NotFound))
  {
    var k := r[c.sortKey];
    GtTrichotomy(k, k);
    hide Gt, TypeOf;
    assert Find([(k, r)], k) == Some(r);
  }

  lemma SentToOwner(nodes: Nodes, ranges: seq<Range>, self: Address, stmt: Statement, junk: Junk)
    requires Covered(ranges) && Routable(stmt) && !stmt.CreateStmt? && PartitionKey(stmt) != []
    requires var o := Owner(ranges, PartitionKey(stmt));
      o.Some? && o.value in nodes && AllKeyed(nodes[o.value].tables)
    ensures var o := Owner(ranges, PartitionKey(stmt)).value;
      Process(nodes, ranges, self, stmt, junk)
        == (nodes[o := Execute(nodes[o], stmt, junk).0], Execute(nodes[o], stmt, junk).1)
  {
    hide Execute, Owner, PartitionKey, Route, AllKeyed;
    RoutedToOwnerIff(ranges, self, stmt);
    ExecuteOne(nodes, Owner(ranges, PartitionKey(stmt)).value, stmt, junk);
  }

  lemma ClusterRereads(nodes: Nodes, ranges: seq<Range>, self: Address, t: ByteString, c: Schema, r: Record, junk: Junk)
    requires Covered(ranges) && AllFresh(nodes, ranges) && Sendable(c, r)
    ensures Runnable(RoundTrip(self, t, c, r, junk))
    ensures Run(nodes, ranges, RoundTrip(self, t, c, r, junk))
         == Reread(r, Owner(ranges, Print(r[1])) == Owner(ranges, Print(r[c.sortKey])))
  {
    assert c.sortKey < |r|;
    hide Execute, Owner, Print, Process, Named, HasKey, Verify, AllFresh;
    var script, i, q := RoundTrip(self, t, c, r, junk), InsertStmt(t, r), SelectStmt(t, r[c.sortKey]);
    CoveredOwner(ranges, Print(r[1]));
    CoveredOwner(ranges, Print(r[c.sortKey]));
    var o, o' := Owner(ranges, Print(r[1])).value, Owner(ranges, Print(r[c.sortKey])).value;
    var nodes1 := Process(nodes, ranges, self, CreateStmt(t, c), junk).0;
    Created(nodes, ranges, self, t, c, junk, o);
    Created(nodes, ranges, self, t, c, junk, o');
    Inserted(t, c, r, junk);
    Selected(t, c, r, junk);
    SentToOwner(nodes1, ranges, self, i, junk);
    var nodes2 := Process(nodes1, ranges, self, i, junk).0;
    KeyedAfter(t, c, r);
    SentToOwner(nodes2, ranges, self, q, junk);
    CreateReply(nodes, ranges, self, t, c, junk);
    RunThree(nodes, ranges, self, t, c, r, junk);
  }

  lemma KeyedAfter(t: ByteString, c: Schema, r: Record)
    requires HasKey(c) && Verify(c.fields, r)
    ensures AllKeyed([Manager(t, c, [(r[c.sortKey], r)], [])])
  {
  }

  lemma CreateReply(nodes: Nodes, ranges: seq<Range>, self: Address, t: ByteString, c: Schema, junk: Junk)
    ensures Process(nodes, ranges, self, CreateStmt(t, c), junk).1 == Done
  {
    hide ExecuteAll, Route, Execute, AllKeyed;
  }

  lemma RunSent(nodes: Nodes, ranges: seq<Range>, script: seq<Event>)
    requires Runnable(script) && script != [] && script[0].Sent?
    ensures Runnable(script[1..])
    ensures var (nodes', a) := Process(nodes, ranges, script[0].self, script[0].stmt, script[0].junk);
      && Run(nodes, ranges, script) == [a] + Run(nodes', ranges, script[1..])
      && (Complete(nodes, ranges, script) <==> Complete(nodes', ranges, script[1..]))
  {
    hide Process, Routable, HasKey;
  }

  lemma RoundTripRunnable(ranges: seq<Range>, self: Address, t: ByteString, c: Schema, r: Record, junk: Junk)
    requires Sendable(c, r)
    ensures c.sortKey < |r| && Runnable(RoundTrip(self, t, c, r, junk))
    ensures AllDirect(ranges, RoundTrip(self, t, c, r, junk))
  {
    assert c.sortKey < |r|;
    hide Print, Owner, HasKey, Verify;
  }

  lemma RunThree(nodes: Nodes, ranges: seq<Range>, self: Address, t: ByteString, c: Schema, r: Record, junk: Junk)
    requires Sendable(c, r)
    ensures Runnable(RoundTrip(self, t, c, r, junk))
    ensures var (nodes1, a) := Process(nodes, ranges, self, CreateStmt(t, c), junk);
      var (nodes2, b) := Process(nodes1, ranges, self, InsertStmt(t, r), junk);
      Run(nodes, ranges, RoundTrip(self, t, c, r, junk))
        == [a, b, Process(nodes2, ranges, self, SelectStmt(t, r[c.sortKey]), junk).1]
    ensures Complete(nodes, ranges, RoundTrip(self, t, c, r, junk))
  {
    RoundTripRunnable(ranges, self, t, c, r, junk);
    hide Process, HasKey, Verify, Runnable, Run, Complete, Printable, Print;
    var script := RoundTrip(self, t, c, r, junk);
    var s1, s2 := script[1..], script[1..][1..];
    assert s1[0] == script[1] && s2[0] == script[2] && s2[1..] == [];
    var (nodes1, a) := Process(nodes, ranges, self, CreateStmt(t, c), junk);
    var (nodes2, b) := Process(nodes1, ranges, self, InsertStmt(t, r), junk);
    var (nodes3, e) := Process(nodes2, ranges, self, SelectStmt(t, r[c.sortKey]), junk);
    RunSent(nodes, ranges, script);
    RunSent(nodes1, ranges, s1);
    RunSent(nodes2, ranges, s2);
    RunNothing(nodes3, ranges);
  }

  lemma RunNothing(nodes: Nodes, ranges: seq<Range>)
    ensures Run(nodes, ranges, []) == [] && Complete(nodes, ranges, [])
  {
  }

  // ----- what one logical database answers

  lemma LogicalRereads(ranges: seq<Range>, self: Address, t: ByteString, c: Schema, r: Record, junk: Junk)
    requires Covered(ranges) && Sendable(c, r)
    ensures Runnable(RoundTrip(self, t, c, r, junk))
    ensures LogicalRun(ranges, map[], RoundTrip(self, t, c, r, junk)) == Reread(r, true)
  {
    hide Print, Owner, TypeOf;
    var script, k := RoundTrip(self, t, c, r, junk), r[c.sortKey];
    CoveredOwner(ranges, Print(k));
    var o := Owner(ranges, Print(k)).value;
    var l1: LogicalDb := map[t := LogicalTable(c, map[], map[], map[])];
    var l2: LogicalDb := map[t := LogicalTable(c, map[k := r], map[], map[o := k])];
    assert LogicalStep(ranges, map[], script[0].stmt) == (l1, Done);
    assert LogicalWrite(ranges, l1[t], r) == (l2[t], Written);
    assert l1[t := l2[t]] == l2;
    assert LogicalStep(ranges, l1, script[1].stmt) == (l2, Ack(Written));
    assert LogicalStep(ranges, l2, script[2].stmt) == (l2, Answered(ReadReply.Reply(Found(r))));
    var s1, s2 := script[1..], script[1..][1..];
    assert s1[0] == script[1] && s2[0] == script[2] && s2[1..] == [];
    assert LogicalRun(ranges, l2, s2) == [Answered(ReadReply.Reply(Found(r)))] + LogicalRun(ranges, l2, []);
    assert LogicalRun(ranges, l1, s1) == [Ack(Written)] + LogicalRun(ranges, l2, s2);
  }

  /** A record inserted through any coordinator is found by its sort key, as in one logical database,
      exactly when its second value and its sort key have the same owner. */
  lemma RereadIff(nodes: Nodes, ranges: seq<Range>, self: Address, t: ByteString, c: Schema, r: Record, junk: Junk)
    requires Covered(ranges) && AllFresh(nodes, ranges) && Sendable(c, r)
    ensures Runnable(RoundTrip(self, t, c, r, junk))
    ensures var script := RoundTrip(self, t, c, r, junk);
      Run(nodes, ranges, script) == LogicalRun(ranges, map[], script) <==>
        Owner(ranges, Print(r[1])) == Owner(ranges, Print(r[c.sortKey]))
  {
    hide Run, LogicalRun, RoundTrip, Owner, Runnable, Print, AllFresh, Sendable;
    assert c.sortKey < |r| by { SortKeyIn(c, r); }
    ClusterRereads(nodes, ranges, self, t, c, r, junk);
    LogicalRereads(ranges, self, t, c, r, junk);
    assert Reread(r, true)[2] != Reread(r, false)[2];
  }

  lemma SortKeyIn(c: Schema, r: Record)
    requires Sendable(c, r)
    ensures c.sortKey < |r|
  {
  }

  // ----- a table is routed faithfully exactly when its sort key is column 1

  /** A value of a printable type that starts with the digit, so that its token is the digit's parity. */
  function Digit(ty: Type, odd: bool): (d: Data)
    requires (ty.id == ASCII && 1 <= ty.length < 0x8000_0000) || ty == Type(INT, 4)
    ensures TypeOf(d) == ty && Printable(d)
  {
    if ty.id == INT then Int(if odd then 1 else 0)
    else Ascii([if odd then 49 else 48] + seq(ty.length - 1, _ => 65))
  }

  lemma DigitToken(ty: Type, odd: bool)
    requires (ty.id == ASCII && 1 <= ty.length < 0x8000_0000) || ty == Type(INT, 4)
    ensures Print(Digit(ty, odd)) != [] && Token(Print(Digit(ty, odd))) == if odd then 50 else 150
  {
    var d := Digit(ty, odd);
    if ty.id == INT {
      IntToken(d.i32);
    } else {
      var rest := d.text[1..];
      assert rest == [] || rest[0] == 65;
      assert ReadDigits(rest, if odd then 1 else 0) == if odd then 1 else 0;
    }
  }

  /** Scripts that only ever create this table. */
  ghost predicate ScriptOf(ranges: seq<Range>, t: ByteString, c: Schema, script: seq<Event>) {
    forall i | 0 <= i < |script| ::
      match script[i]
      case Sent(_, stmt, _) => Routable(stmt) && (stmt.CreateStmt? ==> stmt == CreateStmt(t, c))
      case Restarted(a, _) => Named(ranges, a)
  }

  lemma ScriptOfRunnable(ranges: seq<Range>, t: ByteString, c: Schema, script: seq<Event>)
    requires ScriptOf(ranges, t, c, script) && HasKey(c)
    ensures Runnable(script)
  {
    hide Routable, HasKey;
  }

  ghost predicate Faithful(nodes: Nodes, ranges: seq<Range>, t: ByteString, c: Schema, script: seq<Event>)
    requires HasKey(c)
  {
    ScriptOf(ranges, t, c, script) ==>
      (ScriptOfRunnable(ranges, t, c, script);
       Complete(nodes, ranges, script) && AllDirect(ranges, script) ==>
         Run(nodes, ranges, script) == LogicalRun(ranges, map[], script))
  }

  predicate Keyable(ty: Type) {
    ty.id in {ASCII, INT} && ty.length >= 1
  }

  /** With two different owners, all runs on a table answer like one logical table exactly when its sort
      key is the second column. The record only witnesses that the table can hold one at all. */
  lemma ClusterCorrectIff(nodes: Nodes, ranges: seq<Range>, t: ByteString, c: Schema, r: Record)
    requires Covered(ranges) && GetAddress(ranges, 50) != GetAddress(ranges, 150) && AllFresh(nodes, ranges)
    requires TableOpOk(t, c) && HasKey(c) && Verify(c.fields, r) && |r| >= 2
    requires Keyable(c.fields[1].ty) && Keyable(KeyType(c))
    ensures (forall script: seq<Event> :: Faithful(nodes, ranges, t, c, script)) <==> c.sortKey == 1
  {
    hide Faithful, RoundTrip, Verify, TableOpOk, Covered, AllFresh, GetAddress, Keyable, Token, Print;
    if c.sortKey == 1 {
      forall script: seq<Event> ensures Faithful(nodes, ranges, t, c, script) {
        FaithfulIfSecond(nodes, ranges, t, c, script);
      }
    } else {
      var junk: Junk := _ => 0;
      var r' := Split(c, r);
      SortKeyIn(c, r');
      Misrouted(nodes, ranges, t, c, r', junk);
      assert !Faithful(nodes, ranges, t, c, RoundTrip([], t, c, r', junk));
    }
  }

  /** The record with an odd second value and an even sort key. */
  lemma Split(c: Schema, r: Record) returns (r': Record)
    requires HasKey(c) && Verify(c.fields, r) && |r| >= 2 && c.sortKey != 1
    requires Keyable(c.fields[1].ty) && Keyable(KeyType(c))
    ensures Sendable(c, r') && Token(Print(r'[1])) == 50 && Token(Print(r'[c.sortKey])) == 150
  {
    hide Token, Print;
    var a, b := c.fields[1].ty, KeyType(c);
    assert TypeOf(r[1]) == a && TypeOf(r[c.sortKey]) == b;
    DigitToken(a, true);
    DigitToken(b, false);
    r' := r[1 := Digit(a, true)][c.sortKey := Digit(b, false)];
  }

  lemma FaithfulIfSecond(nodes: Nodes, ranges: seq<Range>, t: ByteString, c: Schema, script: seq<Event>)
    requires Covered(ranges) && AllFresh(nodes, ranges) && TableOpOk(t, c) && HasKey(c) && c.sortKey == 1
    requires Keyable(KeyType(c))
    ensures Faithful(nodes, ranges, t, c, script)
  {
    hide Run, LogicalRun, Complete, AllDirect, Covered, AllFresh, TableOpOk, Routable, Named;
    if ScriptOf(ranges, t, c, script) {
      ScriptOfRunnable(ranges, t, c, script);
      assert ScriptOk(ranges, script);
      if Complete(nodes, ranges, script) && AllDirect(ranges, script) { ClusterAgrees(nodes, ranges, script); }
    }
  }

  lemma Misrouted(nodes: Nodes, ranges: seq<Range>, t: ByteString, c: Schema, r: Record, junk: Junk)
    requires Covered(ranges) && GetAddress(ranges, 50) != GetAddress(ranges, 150) && AllFresh(nodes, ranges)
    requires Sendable(c, r) && Token(Print(r[1])) == 50 && Token(Print(r[c.sortKey])) == 150
    ensures !Faithful(nodes, ranges, t, c, RoundTrip([], t, c, r, junk))
  {
    hide Run, LogicalRun, Complete, AllDirect, Covered, AllFresh, Named, Print, Token, GetAddress, HasKey, Verify;
    RereadIff(nodes, ranges, [], t, c, r, junk);
    RunThree(nodes, ranges, [], t, c, r, junk);
    RoundTripRunnable(ranges, [], t, c, r, junk);
  }
}
