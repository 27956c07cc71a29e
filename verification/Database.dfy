/** lib/db/database.cc: the tables of one node and the metadata file they are reopened from. */
module Databases {
  import opened Bytes
  import opened Buffer
  import opened Data
  import opened Catalog
  import opened Summaries
  import opened TableBuilders
  import opened DiskManagers
  import opened TableManagers

  /** m_table_managers in the order of its keys. */
  type Managers = seq<Manager>

  datatype ReadReply = Reply(outcome: Outcome) | NoTable

  ghost predicate Sorted(ms: Managers) {
    forall i, j | 0 <= i < j < |ms| :: TextLeq(ms[i].name, ms[j].name) && ms[i].name != ms[j].name
  }

  function IndexOf(ms: Managers, name: ByteString): (r: Option<nat>)
    ensures r.Some? ==> r.value < |ms| && ms[r.value].name == name
    ensures r.None? ==> forall i | 0 <= i < |ms| :: ms[i].name != name
  {
    if ms == [] then None
    else if ms[0].name == name then Some(0)
    else match IndexOf(ms[1..], name) { case None => None case Some(i) => Some(i + 1) }
  }

  /** m_table_managers.insert: a table of the same name stays as it is. */
  function InsertManager(ms: Managers, m: Manager): (r: Managers) {
    if ms == [] then [m]
    else if ms[0].name == m.name then ms
    else if TextLeq(ms[0].name, m.name) then [ms[0]] + InsertManager(ms[1..], m)
    else [m] + ms
  }

  function CreateTable(ms: Managers, name: ByteString, c: Schema): (r: Managers) {
    InsertManager(ms, Manager(name, c, [], []))
  }

  function ReadRecord(d: Files, ms: Managers, name: ByteString, k: Data, junk: Junk): (r: ReadReply) {
    match IndexOf(ms, name)
    case None => NoTable
    case Some(i) => Reply(Read(d, ms[i], k, junk))
  }

  predicate AllKeyed(ms: Managers) {
    forall i | 0 <= i < |ms| :: HasKey(ms[i].schema)
  }

  /** A write to an unknown table is silently dropped; a schema mismatch is thrown. */
  function WriteRecord(d: Files, ms: Managers, name: ByteString, r: Record): (w: (Files, Managers, WriteOutcome))
    requires AllKeyed(ms)
  {
    match IndexOf(ms, name)
    case None => (d, ms, Written)
    case Some(i) => var (d', m', o) := Write(d, ms[i], r); (d', ms[i := m'], o)
  }

  // ----- the metadata file

  predicate IdsFit(ms: Managers) {
    forall i | 0 <= i < |ms| :: |ms[i].summaries| < 0x1_0000_0000_0000_0000
  }

  function TablesOf(ms: Managers): (ts: seq<Table>)
    requires IdsFit(ms)
    ensures |ts| == |ms|
    ensures forall i | 0 <= i < |ms| :: ts[i] == Table(ms[i].name, ms[i].schema, |ms[i].summaries|)
  {
    seq(|ms|, i requires 0 <= i < |ms| => Table(ms[i].name, ms[i].schema, |ms[i].summaries|))
  }

  /** The buffer that flush_metadata fills: the length, then the tables. */
  function MetadataImage(ts: seq<Table>): (s: seq<byte>) {
    LittleEndian(TablesSize(ts), 4) + EncodeTables(ts)
  }

  lemma MetadataImageLength(ts: seq<Table>)
    ensures |MetadataImage(ts)| == TablesSize(ts) + 4
  {
    TablesLength(ts);
  }

  /** It holds length + 4 bytes, of which the code writes only `length`. */
  function FlushMetadata(d: Files, ms: Managers): (d': Files)
    requires IdsFit(ms)
  {
    var ts := TablesOf(ms);
    MetadataImageLength(ts);
    Overwrite(d, MetadataFile, Copied(MetadataImage(ts))[..TablesSize(ts)])
  }

  function LoadSummaries(d: Files, name: ByteString, n: nat, junk: Junk): (r: Option<seq<SummaryKeys>>)
    ensures r.Some? ==> |r.value| == n
  {
    if n == 0 then Some([])
    else
      match LoadSummaries(d, name, n - 1, junk)
      case None => None
      case Some(ss) =>
        match LoadSummary(d, name, n - 1, junk)
        case Fail => None
        case Ok(s, _) => Some(ss + [s])
  }

  function OpenTables(d: Files, ts: seq<Table>, junk: Junk): (r: Option<Managers>) {
    if ts == [] then Some([])
    else
      var n := |ts| - 1;
      match OpenTables(d, ts[..n], junk)
      case None => None
      case Some(ms) =>
        match LoadSummaries(d, ts[n].name, ts[n].lastSstable, junk)
        case None => None
        case Some(ss) => Some(InsertManager(ms, Manager(ts[n].name, ts[n].schema, [], ss)))
  }

  /** The length at the head of the metadata file; 0 when there is none. */
  function MetadataLength(d: Files): (n: nat) {
    var file := Contents(d, MetadataFile);
    if |file| < 4 then 0 else FromLittleEndian(file[..4])
  }

  function MetadataBuffer(d: Files, junk: Junk): (s: seq<byte>) {
    ReadAt(Contents(d, MetadataFile), 4, MetadataLength(d), junk)
  }

  /** The constructor: no tables, the tables of the metadata file, or an exception. */
  function Open(d: Files, junk: Junk): (r: Option<Managers>) {
    if MetadataLength(d) == 0 then Some([])
    else match ParseTables(MetadataBuffer(d, junk))
      case Fail => None
      case Ok(ts, _) => OpenTables(d, ts, junk)
  }

  // ----- what a reload makes of the short write

  /** The id whose low four bytes are those of `id` and whose high four bytes are `top`. */
  function Patched(id: uint64, top: seq<byte>): (id': uint64)
    requires |top| == 4
  {
    Pow256Values();
    FromLittleEndian(LittleEndian(id, 8)[..4] + top)
  }

  lemma PatchedBytes(id: uint64, top: seq<byte>)
    requires |top| == 4
    ensures LittleEndian(Patched(id, top), 8) == LittleEndian(id, 8)[..4] + top
    ensures Patched(id, top) == id <==> top == LittleEndian(id, 8)[4..]
  {
    hide LittleEndian, FromLittleEndian;
    Pow256Values();
    FromLittleEndianRoundTrip(LittleEndian(id, 8)[..4] + top);
    LittleEndianRoundTrip(id, 8);
    assert LittleEndian(id, 8)[..4] + LittleEndian(id, 8)[4..] == LittleEndian(id, 8);
    assert (LittleEndian(id, 8)[..4] + top)[4..] == top;
  }

  lemma {:induction false} HighBytesZero(n: nat, w: nat, k: nat)
    requires n < Pow256(w)
    ensures LittleEndian(n, w + k)[w..] == Zeros(k)
    decreases w + k
  {
    if w > 0 {
      HighBytesZero(n / 256, w - 1, k);
    } else if k > 0 {
      HighBytesZero(0, 0, k - 1);
    }
  }

  /** The catalog with the last table's sstable id patched. */
  function PatchLast(ts: seq<Table>, top: seq<byte>): (r: seq<Table>)
    requires ts != [] && |top| == 4
  {
    var n := |ts| - 1;
    ts[n := ts[n].(lastSstable := Patched(ts[n].lastSstable, top))]
  }

  lemma {:induction false} EncodeLast(ts: seq<Table>)
    requires ts != []
    ensures var n := |ts| - 1; EncodeTables(ts) == EncodeTables(ts[..n]) + EncodeTable(ts[n])
  {
    hide EncodeTable;
    var n := |ts| - 1;
    if n == 0 {
      assert ts[1..] == [] && ts[..0] == [];
      assert EncodeTable(ts[0]) + [] == EncodeTable(ts[0]);
    } else {
      EncodeLast(ts[1..]);
      assert ts[1..][..n - 1] == ts[..n][1..];
    }
  }

  /** Everything before the sstable id of the last table. */
  function CatalogHead(ts: seq<Table>): (s: seq<byte>)
    requires ts != []
  {
    var t := ts[|ts| - 1];
    EncodeTables(ts[..|ts| - 1]) + ([|t.name| % 256] + t.name + EncodeSchema(t.schema))
  }

  lemma CatalogSplit(ts: seq<Table>)
    requires ts != []
    ensures EncodeTables(ts) == CatalogHead(ts) + LittleEndian(ts[|ts| - 1].lastSstable, 8)
  {
    hide EncodeTables, LittleEndian, EncodeSchema;
    EncodeLast(ts);
  }

  /** All but the last four bytes of the catalog, followed by `top`, is the patched catalog. */
  lemma TornCatalog(ts: seq<Table>, top: seq<byte>)
    requires ts != [] && |top| == 4
    ensures |EncodeTables(ts)| >= 8
    ensures EncodeTables(ts)[..|EncodeTables(ts)| - 4] + top == EncodeTables(PatchLast(ts, top))
  {
    hide *;
    var n := |ts| - 1;
    PatchKeepsHead(ts, top);
    CatalogSplit(ts);
    CatalogSplit(PatchLast(ts, top));
    PatchedBytes(ts[n].lastSstable, top);
    TornTail(EncodeTables(ts), CatalogHead(ts), LittleEndian(ts[n].lastSstable, 8), top);
  }

  lemma PatchKeepsHead(ts: seq<Table>, top: seq<byte>)
    requires ts != [] && |top| == 4
    ensures var ts', n := PatchLast(ts, top), |ts| - 1;
      && |ts'| == |ts| && CatalogHead(ts') == CatalogHead(ts)
      && ts'[n].lastSstable == Patched(ts[n].lastSstable, top)
  {
    hide EncodeTables, EncodeSchema, Patched;
    assert PatchLast(ts, top)[..|ts| - 1] == ts[..|ts| - 1];
  }

  lemma TornTail(s: seq<byte>, head: seq<byte>, id: seq<byte>, top: seq<byte>)
    requires s == head + id && |id| == 8
    ensures |s| >= 8 && s[..|s| - 4] + top == head + (id[..4] + top)
  {
  }

  /** The last four bytes of the reload buffer: left over from an older file, or junk. */
  function MissingBytes(d: Files, ts: seq<Table>, junk: Junk): (s: seq<byte>)
    ensures |s| == 4
  {
    var file, n := Contents(d, MetadataFile), TablesSize(ts);
    seq(4, i requires 0 <= i < 4 => if n + i < |file| then file[n + i] else if n >= 4 then junk(n - 4 + i) else 0)
  }

  lemma FlushedBuffer(d: Files, ms: Managers, junk: Junk)
    requires IdsFit(ms) && ms != [] && TablesSize(TablesOf(ms)) + 4 < INT_LIMIT
    ensures var d', ts := FlushMetadata(d, ms), TablesOf(ms);
      && MetadataLength(d') == TablesSize(ts)
      && MetadataBuffer(d', junk) == EncodeTables(PatchLast(ts, MissingBytes(d, ts, junk)))
  {
    hide EncodeTables, TablesSize, Patched, LittleEndian, FromLittleEndian, Copied;
    var d', ts := FlushMetadata(d, ms), TablesOf(ms);
    var top := MissingBytes(d, ts, junk);
    TablesLength(ts);
    CopiedWhole(MetadataImage(ts));
    TornCatalog(ts, top);
    var n, s, image := TablesSize(ts), EncodeTables(ts), MetadataImage(ts);
    var file := Contents(d', MetadataFile);
    assert image[..4] == LittleEndian(n, 4) && image[4..n] == s[..n - 4];
    assert file[..n] == image[..n];
    assert file[..4] == LittleEndian(n, 4) by { assert file[..4] == file[..n][..4]; }
    Pow256Values();
    LittleEndianRoundTrip(n, 4);
    var buf := MetadataBuffer(d', junk);
    assert buf[..n - 4] == s[..n - 4] by {
      forall i | 0 <= i < n - 4 ensures buf[i] == s[i] { assert file[..n][i + 4] == image[4..n][i]; }
    }
    assert buf[n - 4..] == top;
    assert buf == buf[..n - 4] + buf[n - 4..];
  }

  /** After flush_metadata a reload parses, and yields the catalog whose last sstable id has the
      missing bytes as its top half; so it yields the same catalog exactly when they are those bytes. */
  lemma ReloadExact(d: Files, ms: Managers, junk: Junk)
    requires IdsFit(ms) && ms != [] && TablesSize(TablesOf(ms)) + 4 < INT_LIMIT && AllFit(TablesOf(ms))
    ensures var d', ts := FlushMetadata(d, ms), TablesOf(ms); var top := MissingBytes(d, ts, junk);
      && ParseTables(MetadataBuffer(d', junk)) == Ok(PatchLast(ts, top), [])
      && (PatchLast(ts, top) == ts <==> top == LittleEndian(ts[|ts| - 1].lastSstable, 8)[4..])
  {
    hide EncodeTables, ParseTables, TablesSize, Patched, LittleEndian;
    var ts := TablesOf(ms);
    var top := MissingBytes(d, ts, junk);
    FlushedBuffer(d, ms, junk);
    TablesRoundTrip(PatchLast(ts, top));
    PatchedBytes(ts[|ts| - 1].lastSstable, top);
  }

  // ----- catalogs of 2^31 bytes and more

  lemma SmallWord(s: seq<byte>)
    requires |s| == 4 && s[3] == 0
    ensures FromLittleEndian(s) < 0x100_0000
  {
    assert s[1..][1..][1..] == [s[3]];
    assert FromLittleEndian([s[3]]) == 0 by { assert [s[3]][1..] == []; }
    assert FromLittleEndian(s[1..][1..]) == s[2] + 256 * FromLittleEndian([s[3]]);
    assert FromLittleEndian(s[1..]) == s[1] + 256 * FromLittleEndian(s[1..][1..]);
  }

  /** The buffer's copy is cut short, and the length read back is smaller than the catalog's. */
  lemma LongCatalogShrinks(d: Files, ms: Managers)
    requires IdsFit(ms) && TablesSize(TablesOf(ms)) + 4 >= INT_LIMIT
    ensures MetadataLength(FlushMetadata(d, ms)) < TablesSize(TablesOf(ms))
  {
    hide TablesSize, MetadataImage, FromLittleEndian;
    var ts := TablesOf(ms);
    var n, image := TablesSize(ts), MetadataImage(ts);
    var file := Contents(FlushMetadata(d, ms), MetadataFile);
    MetadataImageLength(ts);
    Pow256Values();
    assert file[..4] == Copied(image)[..n][..4];
    if n < 0x1_0000_0000 {
      assert IntOf(n + 4) <= 3;
      assert Copied(image)[3] == 0;
      SmallWord(file[..4]);
    }
  }
}
