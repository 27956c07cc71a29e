/** include/lang/cql3_visitor.hh: the schema that a CREATE TABLE statement builds. */
module CreateTableVisitor {
  import opened Bytes
  import opened Data
  import opened Catalog
  import TableRefinement
  import ClusterRefinement

  datatype Column = Column(field: Field, primary: bool)

  datatype PrimaryKey =
    | Single(column: ByteString)
    | Compound(partition: ByteString, clustering: seq<ByteString>)
    | Composite(partitions: seq<ByteString>, clustering: seq<ByteString>)
    | Other

  /** The grammar gives every key list at least one column. */
  predicate WellFormed(k: PrimaryKey) {
    match k
    case Compound(_, cs) => cs != []
    case Composite(ps, cs) => ps != [] && cs != []
    case _ => true
  }

  /** visitPrimaryKeyDefinition: the partition and the clustering column; only the first of each list. */
  function KeyColumns(k: PrimaryKey): (r: (ByteString, ByteString))
    requires WellFormed(k)
  {
    match k
    case Single(c) => (c, c)
    case Compound(p, cs) => (p, cs[0])
    case Composite(ps, cs) => (ps[0], cs[0])
    case Other => ([], [])
  }

  /** include/catalog/schema.hh: both setters assign the sort key index. */
  class SchemaObject {
    var sortKey: nat
    var partitionKey: nat
    var fields: seq<Field>

    constructor (sortKey: nat, partitionKey: nat)
      ensures this.sortKey == sortKey && this.partitionKey == partitionKey && fields == []
    {
      this.sortKey, this.partitionKey, fields := sortKey, partitionKey, [];
    }

    method PushBack(f: Field)
      modifies this
      ensures fields == old(fields) + [f] && sortKey == old(sortKey) && partitionKey == old(partitionKey)
    {
      fields := fields + [f];
    }

    method SetSortKeyIndex(i: nat)
      modifies this
      ensures sortKey == i && partitionKey == old(partitionKey) && fields == old(fields)
    {
      sortKey := i;
    }

    method SetPartitionKeyIndex(i: nat)
      modifies this
      ensures sortKey == i && partitionKey == old(partitionKey) && fields == old(fields)
    {
      sortKey := i;
    }
  }

  // ----- what results

  predicate Flagged(cols: seq<Column>, i: nat)
    requires i < |cols|
  {
    cols[i].primary
  }

  predicate Named(cols: seq<Column>, k: Option<PrimaryKey>, i: nat)
    requires i < |cols| && (k.Some? ==> WellFormed(k.value))
  {
    k.Some? && (cols[i].field.name == KeyColumns(k.value).0 || cols[i].field.name == KeyColumns(k.value).1)
  }

  /** The column that ends up as sort key: the last one the PRIMARY KEY clause names in either role,
      else the last one marked PRIMARY KEY itself, else the first. */
  ghost predicate IsSortIndex(cols: seq<Column>, k: Option<PrimaryKey>, s: nat)
    requires k.Some? ==> WellFormed(k.value)
  {
    if exists i | 0 <= i < |cols| :: Named(cols, k, i) then
      s < |cols| && Named(cols, k, s) && forall i | s < i < |cols| :: !Named(cols, k, i)
    else if exists i | 0 <= i < |cols| :: Flagged(cols, i) then
      s < |cols| && Flagged(cols, s) && forall i | s < i < |cols| :: !Flagged(cols, i)
    else s == 0
  }

  method VisitColumnDefinitionList(cols: seq<Column>, k: Option<PrimaryKey>) returns (s: SchemaObject)
    requires k.Some? ==> WellFormed(k.value)
    ensures fresh(s)
    ensures |s.fields| == |cols| && forall i | 0 <= i < |cols| :: s.fields[i] == cols[i].field
    ensures s.partitionKey == 0
    ensures IsSortIndex(cols, k, s.sortKey)
  {
    s := new SchemaObject(0, 0);
    for i := 0 to |cols|
      invariant fresh(s) && s.partitionKey == 0
      invariant |s.fields| == i && forall j | 0 <= j < i :: s.fields[j] == cols[j].field
      invariant if exists j | 0 <= j < i :: Flagged(cols, j)
                then s.sortKey < i && Flagged(cols, s.sortKey) && forall j | s.sortKey < j < i :: !Flagged(cols, j)
                else s.sortKey == 0
    {
      s.PushBack(cols[i].field);
      if Flagged(cols, i) {
        s.SetPartitionKeyIndex(i);
        s.SetSortKeyIndex(i);
      }
    }
    if k.Some? {
      var (partition, cluster) := KeyColumns(k.value);
      ghost var before, fs := s.sortKey, s.fields;
      for i := 0 to |s.fields|
        invariant s.partitionKey == 0 && s.fields == fs
        invariant if exists j | 0 <= j < i :: Named(cols, k, j)
                  then s.sortKey < i && Named(cols, k, s.sortKey) && forall j | s.sortKey < j < i :: !Named(cols, k, j)
                  else s.sortKey == before
      {
        ghost var sort := s.sortKey;
        assert Named(cols, k, i) <==> s.fields[i].name == partition || s.fields[i].name == cluster;
        if s.fields[i].name == partition {
          s.SetPartitionKeyIndex(i);
        }
        if s.fields[i].name == cluster {
          s.SetSortKeyIndex(i);
        }
        assert s.sortKey == if Named(cols, k, i) then i else sort;
      }
    }
  }

  /** With distinct column names and both key columns present, the partition and sort indices are those
      of the named columns exactly when the partition column is the first one. */
  lemma IntendedIff(cols: seq<Column>, k: PrimaryKey, p: nat, c: nat, s: nat)
    requires WellFormed(k) && p < |cols| && c < |cols|
    requires DistinctNames(cols)
    requires KeyColumns(k) == (cols[p].field.name, cols[c].field.name)
    requires IsSortIndex(cols, Some(k), s)
    ensures s == (if p < c then c else p)
    ensures 0 == p && s == c <==> p == 0
  {
    assert Named(cols, Some(k), p) && Named(cols, Some(k), c);
  }

  ghost predicate DistinctNames(cols: seq<Column>) {
    forall i, j | 0 <= i < j < |cols| :: cols[i].field.name != cols[j].field.name
  }

  /** PRIMARY KEY (x): the sort key is column x. */
  lemma SingleKey(cols: seq<Column>, c: nat, s: nat)
    requires DistinctNames(cols) && c < |cols| && IsSortIndex(cols, Some(Single(cols[c].field.name)), s)
    ensures s == c
  {
    IntendedIff(cols, Single(cols[c].field.name), c, c, s);
  }

  /** PRIMARY KEY (x, y, ...): the later of the columns x and y, however many follow. */
  lemma CompoundKey(cols: seq<Column>, p: nat, c: nat, more: seq<ByteString>, s: nat)
    requires DistinctNames(cols) && p < |cols| && c < |cols|
    requires IsSortIndex(cols, Some(Compound(cols[p].field.name, [cols[c].field.name] + more)), s)
    ensures s == if p < c then c else p
  {
    IntendedIff(cols, Compound(cols[p].field.name, [cols[c].field.name] + more), p, c, s);
  }

  /** PRIMARY KEY ((x, ...), y, ...): likewise, from the first of each list. */
  lemma CompositeKey(cols: seq<Column>, p: nat, others: seq<ByteString>, c: nat, more: seq<ByteString>, s: nat)
    requires DistinctNames(cols) && p < |cols| && c < |cols|
    requires IsSortIndex(cols, Some(Composite([cols[p].field.name] + others, [cols[c].field.name] + more)), s)
    ensures s == if p < c then c else p
  {
    IntendedIff(cols, Composite([cols[p].field.name] + others, [cols[c].field.name] + more), p, c, s);
  }

  /** No clause, or one of no known form over named columns: the last column marked PRIMARY KEY, or the
      first column when none is. */
  lemma MarkedKey(cols: seq<Column>, k: Option<PrimaryKey>, s: nat)
    requires k == None || (k == Some(Other) && forall i | 0 <= i < |cols| :: cols[i].field.name != [])
    requires IsSortIndex(cols, k, s)
    ensures if exists i | 0 <= i < |cols| :: cols[i].primary
      then s < |cols| && cols[s].primary && forall i | s < i < |cols| :: !cols[i].primary
      else s == 0
  {
    if i :| 0 <= i < |cols| && cols[i].primary { assert Flagged(cols, i); }
    if s < |cols| { assert Flagged(cols, s) == cols[s].primary; }
    assert forall i | 0 <= i < |cols| :: Flagged(cols, i) == cols[i].primary;
  }

  /** PRIMARY KEY (b, a) over columns (a, b): the sort index is that of b, which was to be the partition
      key, and the partition index stays at a, which was to be the sort key. */
  lemma SwappedKey(ty: Type, ty': Type, s: nat)
    requires IsSortIndex([Column(Field([97], ty), false), Column(Field([98], ty'), false)],
                         Some(Compound([98], [[97]])), s)
    ensures s == 1
  {
    var cols := [Column(Field([97], ty), false), Column(Field([98], ty'), false)];
    IntendedIff(cols, Compound([98], [[97]]), 1, 0, s);
  }

  function Fields(cols: seq<Column>): (fs: seq<Field>)
    ensures |fs| == |cols| && forall i | 0 <= i < |cols| :: fs[i] == cols[i].field
  {
    seq(|cols|, i requires 0 <= i < |cols| => cols[i].field)
  }

  /** Sizes within which a table with these columns is stored, indexed and reopened faithfully. */
  predicate Storable(name: ByteString, cols: seq<Column>, sort: nat)
    requires sort < |cols|
  {
    && |name| < 256 && |cols| < 256 && (forall i | 0 <= i < |cols| :: |cols[i].field.name| < 256)
    && cols[sort].field.ty.length <= TableRefinement.MAX_SAFE_KEY && RecordSize(Fields(cols)) < INT_LIMIT
  }

  /** Which PRIMARY KEY clauses make a table that the cluster routes like one logical table: those whose
      later key column is the second column, of a printable kind. Together with the indices being the
      intended ones, that is exactly (first column, second column). */
  lemma ClusterTableIff(name: ByteString, cols: seq<Column>, k: PrimaryKey, p: nat, c: nat, s: uint64)
    requires WellFormed(k) && p < |cols| && c < |cols|
    requires DistinctNames(cols)
    requires KeyColumns(k) == (cols[p].field.name, cols[c].field.name)
    requires IsSortIndex(cols, Some(k), s)
    ensures s < |cols|
    ensures ClusterRefinement.ClusterTable(name, Schema(s, 0, Fields(cols)))
       <==> (if p < c then c else p) == 1 && cols[1].field.ty.id in {ASCII, INT} && Storable(name, cols, 1)
    ensures ClusterRefinement.ClusterTable(name, Schema(s, 0, Fields(cols))) && 0 == p && s == c
       <==> p == 0 && c == 1 && cols[1].field.ty.id in {ASCII, INT} && Storable(name, cols, 1)
  {
    hide RecordSize, IsSortIndex;
    IntendedIff(cols, k, p, c, s);
  }
}
