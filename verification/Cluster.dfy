/** include/dht: routing of statements from any coordinator to the node that owns their key. */
module Clusters {
  import opened Bytes
  import opened Data
  import opened Catalog
  import opened Decimal
  import opened DiskManagers
  import opened TableManagers
  import opened Databases

  type Address = ByteString

  datatype Range = Range(start: nat, end: nat, address: Address)

  datatype Node = Node(files: Files, tables: Managers)

  type Nodes = map<Address, Node>

  datatype Statement =
    | CreateStmt(table: ByteString, schema: Schema)
    | InsertStmt(table: ByteString, values: Record)
    | SelectStmt(table: ByteString, key: Data)

  datatype Reply = Done | Ack(w: WriteOutcome) | Answered(r: ReadReply)

  // ----- ownership

  predicate InRange(r: Range, token: nat) {
    r.start <= token < r.end
  }

  /** StateStore::get_address: the first range that contains the token. */
  function GetAddress(ranges: seq<Range>, token: nat): (a: Option<Address>) {
    if ranges == [] then None
    else if InRange(ranges[0], token) then Some(ranges[0].address)
    else GetAddress(ranges[1..], token)
  }

  method FindAddress(ranges: seq<Range>, token: nat) returns (a: Option<Address>)
    ensures a == GetAddress(ranges, token)
    ensures a.Some? <==> exists i | 0 <= i < |ranges| :: InRange(ranges[i], token)
  {
    for i := 0 to |ranges|
      invariant forall j | 0 <= j < i :: !InRange(ranges[j], token)
      invariant GetAddress(ranges, token) == GetAddress(ranges[i..], token)
    {
      assert ranges[i..][1..] == ranges[i + 1..];
      if InRange(ranges[i], token) {
        return Some(ranges[i].address);
      }
    }
    return None;
  }

  /** The position of the first range that holds the token, or the number of ranges. */
  lemma {:induction false} FirstRange(ranges: seq<Range>, token: nat) returns (i: nat)
    ensures i <= |ranges| && forall j | 0 <= j < i :: token < ranges[j].start || ranges[j].end <= token
    ensures i < |ranges| ==>
      ranges[i].start <= token < ranges[i].end && GetAddress(ranges, token) == Some(ranges[i].address)
    ensures i == |ranges| ==> GetAddress(ranges, token) == None
  {
    i := 0;
    if ranges != [] && !(ranges[0].start <= token < ranges[0].end) {
      var k := FirstRange(ranges[1..], token);
      i := k + 1;
    }
  }

  /** The owner of a token is the address of the first range with start <= token < end; there is none
      exactly when no range holds the token. */
  lemma GetAddressExact(ranges: seq<Range>, token: nat, a: Address)
    ensures GetAddress(ranges, token) == Some(a) <==>
      exists i | 0 <= i < |ranges| ::
        && ranges[i].start <= token < ranges[i].end && ranges[i].address == a
        && forall j | 0 <= j < i :: token < ranges[j].start || ranges[j].end <= token
    ensures GetAddress(ranges, token) == None <==>
      forall i | 0 <= i < |ranges| :: token < ranges[i].start || ranges[i].end <= token
  {
    hide GetAddress;
    var i := FirstRange(ranges, token);
  }

  /** The ranges the repository ships: odd keys belong to the first node, even ones to the second. */
  lemma ShippedRanges(a: Address, b: Address, x: int32)
    ensures Owner([Range(0, 100, a), Range(100, 200, b)], Print(Int(x))) == Some(if x % 2 == 1 then a else b)
  {
    hide Print, Token, GetAddress;
    IntToken(x);
    var ranges := [Range(0, 100, a), Range(100, 200, b)];
    assert ranges[0].end == 100 && ranges[1].end == 200;
    var i, j;
    i := FirstRange(ranges, 50);
    j := FirstRange(ranges, 150);
  }

  /** print() has a body only for ASCII and INT values. */
  predicate Printable(d: Data) {
    d.Ascii? || d.Int?
  }

  function Print(d: Data): (s: seq<byte>)
    requires Printable(d)
  {
    if d.Ascii? then d.text else ToString(d.i32)
  }

  /** Two tokens only: the parity of the number the key starts with. */
  function Token(key: seq<byte>): (t: nat) {
    if Atoi(key) % 2 == 1 then 50 else 150
  }

  function Owner(ranges: seq<Range>, key: seq<byte>): (a: Option<Address>) {
    GetAddress(ranges, Token(key))
  }

  ghost predicate Covered(ranges: seq<Range>) {
    GetAddress(ranges, 50).Some? && GetAddress(ranges, 150).Some?
  }

  /** For INT keys the parity is the key's own. */
  lemma IntToken(x: int32)
    ensures Token(Print(Int(x))) == if x % 2 == 1 then 50 else 150
  {
    AtoiOfToString(x);
  }

  // ----- streamers: one per address named in the ranges, in map order

  function InsertAddress(s: seq<Address>, a: Address): (r: seq<Address>) {
    if s == [] then [a]
    else if s[0] == a then s
    else if TextLeq(s[0], a) then [s[0]] + InsertAddress(s[1..], a)
    else [a] + s
  }

  function Streamers(ranges: seq<Range>): (s: seq<Address>) {
    if ranges == [] then []
    else InsertAddress(Streamers(ranges[..|ranges| - 1]), ranges[|ranges| - 1].address)
  }

  ghost predicate Increasing(s: seq<Address>) {
    forall i, j | 0 <= i < j < |s| :: TextLeq(s[i], s[j]) && s[i] != s[j]
  }

  ghost predicate Named(ranges: seq<Range>, a: Address) {
    exists i | 0 <= i < |ranges| :: ranges[i].address == a
  }

  lemma {:induction false} InsertAddressMembers(s: seq<Address>, a: Address)
    ensures forall x :: x in InsertAddress(s, a) <==> x in s || x == a
  {
    hide TextLeq;
    if s != [] {
      InsertAddressMembers(s[1..], a);
      assert s == [s[0]] + s[1..];
    }
  }

  lemma ConsIncreasing(a: Address, s: seq<Address>)
    requires Increasing(s) && forall x | x in s :: TextLeq(a, x) && a != x
    ensures Increasing([a] + s)
  {
    hide TextLeq;
  }

  lemma {:induction false} InsertAddressKeeps(s: seq<Address>, a: Address)
    requires Increasing(s)
    ensures Increasing(InsertAddress(s, a))
  {
    hide TextLeq;
    if s != [] && s[0] != a {
      var rest := s[1..];
      assert forall x | x in rest :: TextLeq(s[0], x) && s[0] != x;
      InsertAddressKeeps(rest, a);
      InsertAddressMembers(rest, a);
      if TextLeq(s[0], a) {
        ConsIncreasing(s[0], InsertAddress(rest, a));
      } else {
        TextLeqTotal(s[0], a);
        forall x | x in s ensures TextLeq(a, x) && a != x {
          if x != s[0] { TextLeqTransitive(a, s[0], x); }
        }
        ConsIncreasing(a, s);
      }
    }
  }

  /** Every address of the ranges has exactly one streamer, and no other address has one. */
  lemma {:induction false} StreamersExact(ranges: seq<Range>)
    ensures Increasing(Streamers(ranges))
    ensures forall a: Address :: a in Streamers(ranges) <==> Named(ranges, a)
  {
    hide InsertAddress, Increasing;
    if ranges == [] {
      assert Increasing(Streamers([])) by { EmptyIncreasing(); }
    } else {
      var n := |ranges| - 1;
      StreamersExact(ranges[..n]);
      InsertAddressKeeps(Streamers(ranges[..n]), ranges[n].address);
      InsertAddressMembers(Streamers(ranges[..n]), ranges[n].address);
      forall a: Address ensures Named(ranges, a) <==> Named(ranges[..n], a) || ranges[n].address == a {
        if Named(ranges[..n], a) {
          var i :| 0 <= i < n && ranges[..n][i].address == a;
          assert ranges[i].address == a;
        }
        if Named(ranges, a) && ranges[n].address != a {
          var i :| 0 <= i < |ranges| && ranges[i].address == a;
          assert ranges[..n][i].address == a;
        }
      }
    }
  }

  lemma EmptyIncreasing()
    ensures Increasing([])
  {
  }

  /** send_all skips the sender itself. */
  function Others(s: seq<Address>, self: Address): (r: seq<Address>) {
    if s == [] then [] else (if s[0] == self then [] else [s[0]]) + Others(s[1..], self)
  }

  lemma {:induction false} OthersExact(s: seq<Address>, self: Address)
    requires Increasing(s)
    ensures Increasing(Others(s, self))
    ensures forall x :: x in Others(s, self) <==> x in s && x != self
  {
    hide TextLeq;
    if s != [] {
      OthersExact(s[1..], self);
      assert s == [s[0]] + s[1..];
      var t := Others(s[1..], self);
      forall j | 0 <= j < |t| ensures TextLeq(s[0], t[j]) && s[0] != t[j] {
        assert t[j] in t;
        var k :| 0 <= k < |s[1..]| && s[1..][k] == t[j];
        assert s[k + 1] == t[j];
      }
    }
  }

  // ----- execution

  /** Statement::execute on one node's database. */
  function Execute(n: Node, stmt: Statement, junk: Junk): (r: (Node, Reply))
    requires stmt.InsertStmt? ==> AllKeyed(n.tables)
  {
    match stmt
    case CreateStmt(t, c) => (n.(tables := CreateTable(n.tables, t, c)), Done)
    case InsertStmt(t, r) => var (f, ms, w) := WriteRecord(n.files, n.tables, t, r); (Node(f, ms), Ack(w))
    case SelectStmt(t, k) => (n, Answered(ReadRecord(n.files, n.tables, t, k, junk)))
  }

  /** What a statement is routed by: the second inserted value, or the value selected for. */
  predicate Routable(stmt: Statement) {
    match stmt
    case CreateStmt(_, _) => true
    case InsertStmt(_, r) => |r| >= 2 && Printable(r[1])
    case SelectStmt(_, k) => Printable(k)
  }

  function PartitionKey(stmt: Statement): (s: seq<byte>)
    requires Routable(stmt) && !stmt.CreateStmt?
  {
    if stmt.InsertStmt? then Print(stmt.values[1]) else Print(stmt.key)
  }

  /** The nodes that execute the statement, in order. */
  function Route(ranges: seq<Range>, self: Address, stmt: Statement): (at: seq<Address>)
    requires Routable(stmt)
  {
    if stmt.CreateStmt? then [self] + Others(Streamers(ranges), self)
    else
      var key := PartitionKey(stmt);
      match Owner(ranges, key)
      case None => [self]
      case Some(a) =>
        if a == self then [self]
        else if key == [] then [self] + Others(Streamers(ranges), self)
        else [a]
  }

  /** An insert or select whose token is covered runs on its owner alone, from every coordinator,
      exactly when its key is not empty or the owner is the coordinator. */
  lemma RoutedToOwnerIff(ranges: seq<Range>, self: Address, stmt: Statement)
    requires Routable(stmt) && !stmt.CreateStmt? && Owner(ranges, PartitionKey(stmt)).Some?
    ensures var a := Owner(ranges, PartitionKey(stmt)).value;
      Route(ranges, self, stmt) == [a] <==> PartitionKey(stmt) != [] || a == self
  {
    hide Token, Print;
    var key := PartitionKey(stmt);
    var a := Owner(ranges, key).value;
    if key == [] && a != self {
      assert Route(ranges, self, stmt)[0] == self;
    }
  }

  /** A CREATE TABLE runs exactly once on the coordinator and once on every other node of the ranges. */
  lemma BroadcastExact(ranges: seq<Range>, self: Address, stmt: Statement)
    requires stmt.CreateStmt?
    ensures var at := Route(ranges, self, stmt);
      && (forall i, j | 0 <= i < j < |at| :: at[i] != at[j])
      && (forall a :: a in at <==> a == self || Named(ranges, a))
      && at[0] == self
  {
    hide TextLeq, Streamers, Others, Named;
    StreamersExact(ranges);
    OthersExact(Streamers(ranges), self);
    var rest := Others(Streamers(ranges), self);
    var at := Route(ranges, self, stmt);
    assert at == [self] + rest;
    forall i, j | 0 <= i < j < |at| ensures at[i] != at[j] {
      assert at[j] == rest[j - 1] && rest[j - 1] in rest;
      if i > 0 { assert at[i] == rest[i - 1]; }
    }
  }

  lemma {:induction false} OwnerIsNamed(ranges: seq<Range>, token: nat)
    ensures GetAddress(ranges, token).Some? ==> Named(ranges, GetAddress(ranges, token).value)
  {
    if ranges != [] {
      OwnerIsNamed(ranges[1..], token);
      if InRange(ranges[0], token) {
        assert ranges[0].address == ranges[0].address;
      } else if GetAddress(ranges, token).Some? {
        var i :| 0 <= i < |ranges[1..]| && ranges[1..][i].address == GetAddress(ranges, token).value;
        assert ranges[i + 1].address == GetAddress(ranges, token).value;
      }
    }
  }

  /** A remote owner makes the broadcast list longer than one. */
  lemma OthersInclude(ranges: seq<Range>, token: nat, self: Address)
    requires GetAddress(ranges, token).Some? && GetAddress(ranges, token).value != self
    ensures Others(Streamers(ranges), self) != []
  {
    hide Streamers, Others, Increasing;
    var a := GetAddress(ranges, token).value;
    OwnerIsNamed(ranges, token);
    StreamersExact(ranges);
    OthersExact(Streamers(ranges), self);
    assert a in Others(Streamers(ranges), self);
  }
}
