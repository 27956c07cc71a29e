/** The executors as the coordinator runs them: locally, forwarded, or locally and then broadcast. */
module ClusterObjects {
  import opened Bytes
  import opened Data
  import opened DiskManagers
  import opened Databases
  import opened Clusters
  import opened ClusterRefinement

  lemma {:induction false} ExecuteAllThen(nodes: Nodes, at: seq<Address>, more: seq<Address>, stmt: Statement,
                                          junk: Junk)
    ensures ExecuteAll(nodes, at + more, stmt, junk) == ExecuteAll(ExecuteAll(nodes, at, stmt, junk), more, stmt, junk)
    decreases |at|
  {
    hide ExecuteAt;
    if at == [] {
      assert at + more == more;
    } else {
      assert (at + more)[1..] == at[1..] + more;
      ExecuteAllThen(ExecuteAt(nodes, at[0], stmt, junk), at[1..], more, stmt, junk);
    }
  }

  class Cluster {
    const ranges: seq<Range>
    var nodes: Nodes

    constructor (ranges: seq<Range>, nodes: Nodes)
      ensures this.ranges == ranges && this.nodes == nodes
    {
      this.ranges, this.nodes := ranges, nodes;
    }

    /** Partitioner::send_all: every streamer except the sender's own. */
    method SendAll(self: Address, stmt: Statement, junk: Junk)
      modifies this
      ensures nodes == ExecuteAll(old(nodes), Others(Streamers(ranges), self), stmt, junk)
    {
      hide ExecuteAt, Streamers;
      var streamers := Streamers(ranges);
      assert streamers[0..] == streamers;
      for i := 0 to |streamers|
        invariant ExecuteAll(nodes, Others(streamers[i..], self), stmt, junk)
               == ExecuteAll(old(nodes), Others(streamers, self), stmt, junk)
      {
        var address := streamers[i];
        assert streamers[i..][1..] == streamers[i + 1..];
        ghost var rest := Others(streamers[i + 1..], self);
        if address == self {
          assert [] + rest == rest;
          continue;
        }
        assert Others(streamers[i..], self) == [address] + rest;
        assert ([address] + rest)[1..] == rest;
        nodes := ExecuteAt(nodes, address, stmt, junk);
      }
    }

    /** MultinodeQueryExecutor: here first, then everywhere else. */
    method ExecuteEverywhere(self: Address, stmt: Statement, junk: Junk)
      modifies this
      ensures nodes == ExecuteAll(old(nodes), [self] + Others(Streamers(ranges), self), stmt, junk)
    {
      hide ExecuteAt, Streamers, Others;
      ExecuteAllThen(nodes, [self], Others(Streamers(ranges), self), stmt, junk);
      ExecuteOne(nodes, self, stmt, junk);
      nodes := ExecuteAt(nodes, self, stmt, junk);
      SendAll(self, stmt, junk);
    }

    method ExecuteOn(a: Address, stmt: Statement, junk: Junk) returns (reply: Reply)
      modifies this
      ensures nodes == ExecuteAll(old(nodes), [a], stmt, junk)
      ensures reply == if a in old(nodes) && (stmt.InsertStmt? ==> AllKeyed(old(nodes)[a].tables))
                       then Execute(old(nodes)[a], stmt, junk).1 else Done
    {
      hide Execute;
      ExecuteOne(nodes, a, stmt, junk);
      reply := Done;
      if a in nodes && (stmt.InsertStmt? ==> AllKeyed(nodes[a].tables)) {
        var (n, r) := Execute(nodes[a], stmt, junk);
        nodes := nodes[a := n];
        reply := r;
      }
    }

    /** QueryProcessor::process on the node `self`. */
    method Process(self: Address, stmt: Statement, junk: Junk) returns (reply: Reply)
      requires Routable(stmt)
      modifies this
      ensures (nodes, reply) == ClusterRefinement.Process(old(nodes), ranges, self, stmt, junk)
    {
      hide Execute, ExecuteAll, Streamers, Token, Print;
      if stmt.CreateStmt? {
        ExecuteEverywhere(self, stmt, junk);
        return Done;
      }
      var key := PartitionKey(stmt);
      var address := FindAddress(ranges, Token(key));
      if address.None? || address.value == self {
        reply := ExecuteOn(self, stmt, junk);
      } else if key == [] {
        OthersInclude(ranges, Token(key), self);
        ExecuteEverywhere(self, stmt, junk);
        return Done;
      } else {
        reply := ExecuteOn(address.value, stmt, junk);
      }
    }
  }

  /** When the sort key is not column 1: an insert and a select for its sort key run on the same node,
      from every coordinator, exactly when both values have the same token. */
  lemma SameNodeIff(ranges: seq<Range>, table: ByteString, r: seq<Data>, s: nat)
    requires |r| >= 2 && s < |r| && Printable(r[1]) && Printable(r[s]) && Print(r[1]) != [] && Print(r[s]) != []
    requires Covered(ranges) && GetAddress(ranges, 50) != GetAddress(ranges, 150)
    ensures (forall self: Address ::
      Route(ranges, self, InsertStmt(table, r)) == Route(ranges, self, SelectStmt(table, r[s])))
       <==> Token(Print(r[1])) == Token(Print(r[s]))
  {
    hide Print, GetAddress;
    var i, q := InsertStmt(table, r), SelectStmt(table, r[s]);
    CoveredOwner(ranges, Print(r[1]));
    CoveredOwner(ranges, Print(r[s]));
    forall self: Address
      ensures Route(ranges, self, i) == [Owner(ranges, Print(r[1])).value]
      ensures Route(ranges, self, q) == [Owner(ranges, Print(r[s])).value]
    {
      RoutedToOwnerIff(ranges, self, i);
      RoutedToOwnerIff(ranges, self, q);
    }
    assert Route(ranges, [], i) == Route(ranges, [], q) <==> Owner(ranges, Print(r[1])) == Owner(ranges, Print(r[s]));
  }
}
