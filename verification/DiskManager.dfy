/** lib/io/disk_manager.cc and the files it reads, as byte sequences. */
module DiskManagers {
  import opened Bytes
  import opened Buffer
  import opened Catalog
  import opened CatalogIo
  import opened IndexPages
  import opened Summaries
  import opened TableBuilders

  datatype FileName =
    | DataFile(table: ByteString, id: nat)
    | IndexFile(table: ByteString, id: nat)
    | SummaryFile(table: ByteString, id: nat)
    | MetadataFile

  type Files = map<FileName, seq<byte>>

  /** The bytes that a freshly allocated buffer happens to hold where a read fell short. */
  type Junk = nat -> byte

  /** A missing file reads like an empty one. */
  function Contents(d: Files, f: FileName): (s: seq<byte>) {
    if f in d then d[f] else []
  }

  /** Writing from position 0 without truncation: bytes of a longer old file remain after `s`. */
  function Overwrite(d: Files, f: FileName, s: seq<byte>): (d': Files) {
    d[f := s + (if |s| < |Contents(d, f)| then Contents(d, f)[|s|..] else [])]
  }

  function ReadAt(file: seq<byte>, pos: nat, n: nat, junk: Junk): (s: seq<byte>)
    ensures |s| == n
  {
    seq(n, i requires 0 <= i < n => if pos + i < |file| then file[pos + i] else junk(i))
  }

  lemma ReadWithin(file: seq<byte>, image: seq<byte>, pos: nat, n: nat, junk: Junk)
    requires image <= file && pos + n <= |image|
    ensures ReadAt(file, pos, n, junk) == image[pos..pos + n]
  {
  }

  function LoadSummary(d: Files, name: ByteString, id: nat, junk: Junk): (r: Parsed<SummaryKeys>) {
    ParseSummary(ReadAt(Contents(d, SummaryFile(name, id)), 0, PAGE_SIZE, junk))
  }

  function LoadPage(d: Files, name: ByteString, id: nat, page: byte, junk: Junk): (r: Parsed<Page>) {
    ParsePage(ReadAt(Contents(d, IndexFile(name, id)), page * PAGE_SIZE, PAGE_SIZE, junk))
  }

  /** lseek refuses a negative off_t and leaves the position at the start. */
  function LoadRecord(d: Files, name: ByteString, id: nat, fields: seq<Field>, offset: nat,
                      junk: Junk): (r: Parsed<Record>) {
    var pos := if offset < 0x8000_0000_0000_0000 then offset else 0;
    ParseRecord(ReadAt(Contents(d, DataFile(name, id)), pos, RecordSize(fields), junk), fields)
  }

  /** The three writes of one flush. */
  function Save(d: Files, name: ByteString, id: nat, t: Sstable): (d': Files) {
    Overwrite(Overwrite(Overwrite(d, DataFile(name, id), t.data), IndexFile(name, id), t.index),
              SummaryFile(name, id), t.summaryFile)
  }

  class Disk {
    var files: Files

    constructor ()
      ensures files == map[]
    {
      files := map[];
    }

    method Write(f: FileName, s: seq<byte>)
      modifies this
      ensures files == Overwrite(old(files), f, s)
    {
      files := Overwrite(files, f, s);
    }

    method ReadSummary(name: ByteString, id: nat, junk: Junk) returns (r: Option<SummaryKeys>)
      ensures match LoadSummary(files, name, id, junk) case Ok(v, _) => r == Some(v) case Fail => r == None
    {
      hide ParseSummary;
      var buf := new MemoryBuffer.Wrap(ReadAt(Contents(files, SummaryFile(name, id)), 0, PAGE_SIZE, junk));
      r := GetSummary(buf);
    }

    method ReadIndexPage(name: ByteString, id: nat, page: byte, junk: Junk) returns (r: Option<Page>)
      ensures match LoadPage(files, name, id, page, junk) case Ok(v, _) => r == Some(v) case Fail => r == None
    {
      hide ParsePage;
      var buf := new MemoryBuffer.Wrap(ReadAt(Contents(files, IndexFile(name, id)), page * PAGE_SIZE, PAGE_SIZE, junk));
      r := GetPage(buf);
    }

    method ReadRecord(name: ByteString, id: nat, fields: seq<Field>, offset: nat,
                      junk: Junk) returns (r: Option<Record>)
      ensures match LoadRecord(files, name, id, fields, offset, junk)
        case Ok(v, _) => r == Some(v)
        case Fail => r == None
    {
      hide ParseRecord;
      var pos := if offset < 0x8000_0000_0000_0000 then offset else 0;
      var size := SumRecordSize(fields);
      var buf := new MemoryBuffer.Wrap(ReadAt(Contents(files, DataFile(name, id)), pos, size, junk));
      r := GetRecord(buf, fields);
    }
  }
}
