# DibiBase: storage engine, catalog, hashing, routing and text codecs

DibiBase is a small distributed CQL database. A node keeps each table as a memtable over a stack of
sstables; an sstable is three files (records, index pages, summary) made of fixed-width bytes. Nodes share
a list of token ranges, and every statement may arrive at any node. This project models that code down to
the bytes of the files and proves what whole runs of it do.

The main results:

- **One table.** Whatever sequence of writes and reads a table receives, with sort keys of at most 2037
  bytes and records below 2^31 bytes, every answer is that of a plain map in which a write takes effect
  unless its key is still waiting in the memtable (`TableRefinement.RunAgrees`). Both limits are exact: with a
  longer key the flush of two records loses one of them, with a longer record it stops or cuts the record
  short, so the engine agrees on all runs if and only if both hold (`TableLimits.EngineCorrectIff`).
- **A node with restarts.** Every run of CREATE TABLE, INSERT, SELECT and restart whose restarts find a
  complete metadata image answers like one map per table that forgets, at each restart, at most the one
  record per table that had not been flushed (`DatabaseRuns.RunAgrees`). The metadata flush writes four bytes
  too few and cannot copy 2^31 bytes; `DatabaseRefinement.RestartAgrees` proves that a restart brings the
  tables back if and only if the image is complete.
- **A cluster.** Statements sent to arbitrary coordinators, with nodes restarting in between, answer like one
  logical database, on top of the engine's bytes, if and only if no statement with an empty key went to a
  node other than its owner (`ClusterRefinement.ClusterAgrees`). A table keeps that promise on all such runs
  if and only if its sort key is the second column (`ClusterLimits.ClusterCorrectIff`).
- **MurmurHash.** The 128-bit hash is a bijection on 16-byte keys and its inverter is right on all of them;
  changing one aligned block or word of a key of any length changes the hash, and so does another seed; the
  published vectors of all three hashes and of the inverter hold; the tail bytes that the code
  never reads are characterised exactly.
- **Text.** The result transport, the row encoding and the HTTP request printer each come with the exact
  condition under which nothing is lost (`QueryResults.TransportIff`, `QueryResults.RowIsProtocolRowIff`,
  `HttpMessages.RoundTripIff`).

A read that hits a short or missing file leaves part of its buffer uninitialised; those bytes are the
parameter `Junk`, and every theorem holds for all of them unless it says otherwise. C++ exceptions are
outcomes (`Error`, `NotFound`, `SchemaMismatch`, `None`, `Fail`, `false`). Classes mirror the objects that
the code updates in place; each method is proved equal to a function on values, and the theorems are about
those functions. `std::map`s are sequences in iteration order: descending for `DataCmp`, which means
"strictly greater", increasing for strings.

## Model

| member | source | states |
|---|---|---|
| `Bytes.LittleEndianRoundTrip` | lib/util/buffer.cc:16-37 | an unsigned integer that fits its width is recovered from its little-endian bytes, for any width |
| `Bytes.LittleEndianDigit` | lib/util/buffer.cc:28-37 | byte i of an encoded integer is its digit i in base 256: least significant byte first |
| `Bytes.FromLittleEndianRoundTrip` | lib/util/buffer.cc:16-37 | conversely every byte string is the encoding of the integer it reads as, so reading is injective |
| `Bytes.TwosRoundTrip` | lib/util/buffer.cc:108-198 | a signed integer is recovered from its two's complement form, for any width |
| `Bytes.TwosDigit` | lib/util/buffer.cc:108-198 | byte i of an encoded signed integer is its digit i in base 256, rounding down, so the sign extends upwards, for any width |
| `Bytes.ParseBytesOfConcat` | lib/util/buffer.cc:200-220 | a string written before anything else is read back, and the rest is left |
| `Bytes.ParseUintOfConcat` | lib/util/buffer.cc:16-106 | an unsigned integer written before anything else is read back, and the rest is left |
| `Bytes.ParseIntOfConcat` | lib/util/buffer.cc:108-198 | the same for signed integers |
| `Buffer.MemoryBuffer.PutBytes` | lib/util/buffer.cc:212-220 | succeeds exactly when the bytes fit; then they follow what was there, the offset advances by their number and all other bytes stay; otherwise nothing changes |
| `Buffer.MemoryBuffer.PutUint` | lib/util/buffer.cc:28-106 | the same for a fixed-width integer in little-endian order |
| `Buffer.MemoryBuffer.GetBytes` | lib/util/buffer.cc:200-210 | returns the next bytes and advances by their number, or fails with the offset in place; the contents never change |
| `Buffer.MemoryBuffer.GetUint` | lib/util/buffer.cc:16-95 | the same for unsigned integers |
| `Buffer.MemoryBuffer.GetInt` | lib/util/buffer.cc:108-187 | the same for two's complement integers |
| `Buffer.MemoryBuffer.Bytes` | lib/util/buffer.cc:311-320 | the loop counted by an int copies the first (int)size bytes into a zeroed array |
| `Buffer.CopiedIff` | lib/util/buffer.cc:311-320 | that is the whole buffer, for every content, if and only if the size is below 2^31 |
| `Data.TypeRoundTrip` | include/catalog/data.hh:41-54 | every column type is recovered from its five bytes |
| `Data.TypeBytes` | include/catalog/data.hh:27-54 | the five bytes of a type as numbers: the ids of the nine kinds are 0 to 8 in the declared order, then the length in four bytes |
| `Data.DataRoundTrip` | lib/catalog/data.cc:9-52 | every value of each of the nine kinds is recovered under its own type, leaving what follows it |
| `Data.ValueBytes` | lib/catalog/data.cc:129-234 | every byte of every number as arithmetic on the number: the widths 8, 4, 2 and 1 by kind, two's complement, low byte first; BOOLEAN is 1 or 0 |
| `Data.DataParsed` | lib/catalog/data.cc:9-52 | conversely a value was read from its own bytes, except that any nonzero byte is a true BOOLEAN |
| `Data.PutType` | include/catalog/data.hh:51-54 | writes exactly the type's bytes, or overflows |
| `Data.GetType` | include/catalog/data.hh:41-45 | reads exactly what the type parser reads, or fails |
| `Data.PutData` | lib/catalog/data.cc:129-263 | writes exactly the value's bytes, as many as its type's length, or overflows |
| `Data.GetData` | lib/catalog/data.cc:9-52 | reads exactly what the value parser reads, or fails |
| `Data.TextLeqTotal` | lib/catalog/data.cc:118-127 | the string order used by the comparison is total |
| `Data.TextLeqAntisymmetric` | lib/catalog/data.cc:118-127 | and antisymmetric |
| `Data.TextLeqTransitive` | lib/catalog/data.cc:118-127 | and transitive |
| `Data.GtTrichotomy` | lib/catalog/data.cc:118-232 | `DataCmp` on keys of one kind: exactly one of greater, smaller, equal |
| `Data.GtTransitive` | include/catalog/data.hh:243-253 | `DataCmp` is transitive, so the maps it orders iterate downwards |
| `Data.GtOfNumbers` | lib/catalog/data.cc:134-232 | `DataCmp` on BIGINT, INT, SMALLINT and TINYINT holds exactly when the left number is the larger one |
| `Data.GtOfTexts` | lib/catalog/data.cc:118-127 | `DataCmp` on texts holds exactly when, after a common prefix, the right one ends or has the smaller byte |
| `Data.CompareThrows` | lib/catalog/data.cc:118-241 | which exception a comparison raises and exactly when: BOOLEAN and BLOB have no order, other kinds only with their own kind |
| `OrderedMap.FindIsLookup` | lib/db/table_manager.cc:24-26 | searching the ordered entries is looking up the map they denote |
| `OrderedMap.AssignKeepsOrder` | lib/db/index_page.cc:41-41 | assigning a key keeps the entries strictly descending and of one kind |
| `OrderedMap.AssignUpdates` | lib/db/index_page.cc:41-41 | and updates the denoted map at that key only; the size grows only for a new key |
| `OrderedMap.InsertKeeps` | lib/db/table_manager.cc:62-62 | inserting leaves an existing key's value alone, adds a new key, and keeps the order |
| `Catalog.RecordRoundTrip` | lib/catalog/record.cc:10-23 | a record accepted by `verify` encodes to exactly `record_size()` bytes and is recovered from them, for any fields |
| `Catalog.RecordBytes` | lib/catalog/record.cc:20-23 | a record written out byte by byte: a negative INT and a text in field order |
| `Catalog.ZeroedRecord` | lib/catalog/record.cc:10-18 | bytes of a record with some set to zero that still read as the record are its own |
| `Catalog.FieldsLength` | lib/catalog/schema.cc:21-29 | the fields' sizes add up to the length of their encoding |
| `Catalog.TableLength` | lib/catalog/table.cc:18-27 | `size()` of a table and of its schema is the length of its encoding |
| `Catalog.TablesLength` | lib/db/database.cc:115-124 | the summed sizes are the length of the encoded catalog |
| `Catalog.FieldRoundTrip` | lib/catalog/schema.cc:12-29 | a field with a name of at most 255 bytes is recovered |
| `Catalog.FieldsRoundTrip` | lib/catalog/schema.cc:31-38 | any number of them in a row is recovered |
| `Catalog.SchemaRoundTrip` | lib/catalog/schema.cc:31-88 | a schema of at most 255 such fields is recovered |
| `Catalog.TableRoundTrip` | lib/catalog/table.cc:5-27 | a table entry is recovered, leaving what follows it |
| `Catalog.TableBytes` | lib/catalog/table.cc:22-27 | a table entry written out byte by byte: name, field count, fields, the two key indices in eight bytes each, sstable id |
| `Catalog.TablesRoundTrip` | lib/db/database.cc:48-68 | the reload loop over an encoded catalog ends, consumes all of it and returns the same tables |
| `Catalog.ParsedTablesFit` | lib/db/database.cc:48-68 | whatever bytes are reloaded, the tables have names and field counts of at most 255 and nothing is left over |
| `Catalog.ParsedTablesSize` | lib/db/database.cc:48-68 | and their sizes add up to exactly the bytes that were reloaded |
| `Catalog.TablesRoundTripIff` | lib/catalog/table.cc:5-27 | a catalog survives encoding and reloading if and only if its names and field counts are at most 255 |
| `CatalogIo.SumRecordSize` | lib/catalog/schema.cc:66-72 | the loop computes the record size used by the round trip |
| `CatalogIo.VerifyRecord` | lib/catalog/schema.cc:46-59 | the loop accepts exactly the records with one value of the declared type per field |
| `CatalogIo.PutRecord` | lib/catalog/record.cc:20-23 | writes the record's bytes in field order, or overflows |
| `CatalogIo.GetRecord` | lib/catalog/record.cc:10-18 | reads one value per field as the record parser does, or fails |
| `CatalogIo.PutField` | lib/catalog/schema.cc:25-29 | writes the field's bytes |
| `CatalogIo.GetField` | lib/catalog/schema.cc:12-19 | reads a field as the field parser does, or fails |
| `CatalogIo.PutSchema` | lib/catalog/schema.cc:82-88 | writes the schema's bytes |
| `CatalogIo.GetSchema` | lib/catalog/schema.cc:31-44 | reads a schema as the schema parser does, or fails |
| `CatalogIo.PutTable` | lib/catalog/table.cc:22-27 | writes the table's bytes |
| `CatalogIo.GetTable` | lib/catalog/table.cc:5-16 | reads a table as the table parser does, or fails |
| `IndexPages.PageLength` | lib/db/index_page.cc:45-61 | `size()` is the length of the page's encoding |
| `IndexPages.RoomExact` | lib/db/index_page.cc:37-43 | a page has room exactly while six bytes and one more pair of key and eight-byte offset stay within 4096 |
| `IndexPages.FindOffsetExact` | lib/db/index_page.cc:26-35 | the lookup gives the stored offset, and reports the key missing exactly when it is absent or stored with offset 2^64 - 1 |
| `IndexPages.PageBytes` | lib/db/index_page.cc:50-61 | a page written out byte by byte: count, type, and key before offset for each pair |
| `IndexPages.PageRoundTrip` | lib/db/index_page.cc:11-61 | a page of at most 255 same-typed keys is recovered with its offsets and order |
| `IndexPages.PageLoads` | lib/db/index_page.cc:11-61 | what is loaded from a page of any number of keys: the first ones, their number modulo 256, and the rest stays unread |
| `IndexPages.PageRoundTripIff` | lib/db/index_page.cc:11-61 | a well-formed page is recovered if and only if it has at most 255 keys: the one-byte count wraps beyond |
| `IndexPages.PageCountBound` | lib/db/index_page.cc:37-48 | the 4096-byte limit alone keeps the count within 255 if and only if the key length is at least 8 |
| `IndexPages.IndexPage.PushBack` | lib/db/index_page.cc:37-43 | refuses exactly when the pair would exceed 4096 bytes, and then changes nothing; otherwise assigns the key |
| `IndexPages.IndexPage.PutPage` | lib/db/index_page.cc:50-61 | writes the page's bytes, or overflows |
| `IndexPages.GetPage` | lib/db/index_page.cc:11-24 | reads a page as the page parser does, or fails |
| `Summaries.SummaryLength` | lib/mem/summary.cc:55-68 | `size()` is the length of the summary's encoding |
| `Summaries.RoomExact` | lib/mem/summary.cc:47-57 | a summary has room exactly while six bytes and one more key stay within 4096 |
| `Summaries.SummaryBytes` | lib/mem/summary.cc:59-68 | a summary written out byte by byte: count, type, keys |
| `Summaries.SummaryRoundTrip` | lib/mem/summary.cc:15-68 | a summary of at most 255 same-typed keys is recovered |
| `Summaries.SummaryLoads` | lib/mem/summary.cc:15-68 | the same for a summary of any number of keys |
| `Summaries.SummaryRoundTripIff` | lib/mem/summary.cc:15-68 | if and only if it has at most 255 keys |
| `Summaries.SummaryCountBound` | lib/mem/summary.cc:47-57 | the 4096-byte limit alone keeps the count within 255 if and only if the key length is at least 16 |
| `Summaries.FirstGreater` | lib/mem/summary.cc:38-42 | the first summary key that compares greater, or the end |
| `Summaries.FindPageNumber` | lib/mem/summary.cc:29-45 | the loop computes the page number that the following lemmas are about, including the wrap of -1 to 255 and the empty summary's exception |
| `Summaries.AscendingLookup` | lib/mem/summary.cc:29-45 | over an ascending summary of up to 256 pages and a key not below the first, the page number is p if and only if s[p] <= key < s[p+1] |
| `Summaries.DescendingLookup` | lib/mem/summary.cc:29-45 | over a descending summary of two or more pages every key is sent to the last page or, below the first key, to page 255 |
| `Summaries.DescendingLookupMisses` | lib/mem/summary.cc:29-45 | so over any descending summary of 2 to 255 pages a key in the range of a page is sent to another page (for the pages of a flush see `TableLimits.EveryKeyMisdirectedIff`) |
| `Summaries.Summary.PushBack` | lib/mem/summary.cc:47-53 | appends the key exactly when it fits in 4096 bytes |
| `Summaries.Summary.PutSummary` | lib/mem/summary.cc:59-68 | writes the summary's bytes, or overflows |
| `Summaries.GetSummary` | lib/mem/summary.cc:15-27 | reads a summary as the summary parser does, or fails |
| `TableBuilders.PaginatePartitions` | lib/io/table_builder.cc:70-99 | cutting keys into pages loses, repeats and reorders none; every page is nonempty and fits; every page but the last is full |
| `TableBuilders.DataLayout` | lib/io/table_builder.cc:70-99 | after i records the running key offset and the data file's length are both i times the record size |
| `TableBuilders.RecordAt` | lib/io/table_builder.cc:71-84 | record j stays at offset j times the record size through the rest of the loop |
| `TableBuilders.StepLays` | lib/io/table_builder.cc:70-99 | one loop step keeps: index file plus open page are the page partition so far, and the summary is its first keys |
| `TableBuilders.IndexLayout` | lib/io/table_builder.cc:70-99 | hence so does every prefix of the loop |
| `TableBuilders.FlushLayout` | lib/io/table_builder.cc:55-136 | for any nonempty memtable, keys of at most 4082 bytes and a record size that is not negative as an int: record i as `bytes()` copies it at offset i times the record size, pages in order are exactly the (key, offset) sequence, each within 4096 bytes and zero-padded at page times 4096 of the index file, each summary entry that fits is its page's first key |
| `TableBuilders.BuilderInBounds` | lib/io/table_builder.cc:106-136 | for keys of any length the open page and the summary always fit their 4096-byte buffers, so no put of a flush overflows |
| `TableBuilders.TableBuilder.WriteIndexFile` | lib/io/table_builder.cc:106-121 | appends the page as one zero-padded 4096-byte block |
| `TableBuilders.TableBuilder.WriteSummaryFile` | lib/io/table_builder.cc:123-136 | leaves the summary as one zero-padded 4096-byte block |
| `TableBuilders.TableBuilder.AddEntry` | lib/io/table_builder.cc:71-98 | one iteration of the loop: all of page, summary, files and offset move as the layout lemmas say; a write count that is negative as an int stops the flush after the data bytes |
| `TableBuilders.TableBuilder.ConstructSstableFiles` | lib/io/table_builder.cc:55-104 | the loop leaves exactly the three files and the summary that `FlushLayout` describes, or, when it stops early, one copied record, no index and no summary file |
| `DiskManagers.ReadWithin` | lib/io/disk_manager.cc:52-56 | a read that stays inside written bytes sees exactly them, whatever the buffer held |
| `DiskManagers.Disk.ReadSummary` | lib/io/disk_manager.cc:18-42 | decodes the first 4096 bytes of the summary file; missing bytes are the buffer's junk |
| `DiskManagers.Disk.ReadIndexPage` | lib/io/disk_manager.cc:44-71 | decodes the 4096 bytes at page times 4096 |
| `DiskManagers.Disk.ReadRecord` | lib/io/disk_manager.cc:73-100 | decodes one record's width of bytes at the offset |
| `TableManagers.TableManager.constructor` | lib/db/table_manager.cc:12-17 | starts with the given summaries and an empty memtable |
| `TableManagers.TableManager.ReadRecord` | lib/db/table_manager.cc:19-54 | memtable, then sstables counted down; the answer is the function that `ReadAgrees` relates to a map |
| `TableManagers.TableManager.WriteRecord` | lib/db/table_manager.cc:56-75 | verifies, inserts, flushes at two records; keeps the memtable well formed |
| `TableManagers.TableManager.FlushMemtable` | lib/db/table_manager.cc:77-86 | writes the sstable under the next id, appends its summary, empties the memtable |
| `TableManagers.InsertKeepsMemOk` | lib/db/table_manager.cc:56-62 | an accepted record keeps the memtable descending, of one key type and schema-valid |
| `TableRefinement.SinglePage` | lib/io/table_builder.cc:55-104 | a memtable whose keys fit one page becomes one index block and a one-key summary |
| `TableRefinement.RecordCopied` | lib/io/table_builder.cc:71-84 | the data file holds every record, as `bytes()` copies it, at its offset |
| `TableRefinement.RecordStored` | lib/io/table_builder.cc:71-84 | below 2^31 bytes the data file holds every record's own bytes at its offset |
| `TableRefinement.SstableAnswers` | lib/db/table_manager.cc:29-51 | reading such an sstable from its bytes answers like the memtable it was built from, for every key and any junk |
| `TableRefinement.LayersAnswer` | lib/db/table_manager.cc:31-53 | a stack of them answers like the maps merged, newer over older; a key of another kind throws |
| `TableRefinement.FlushRepresents` | lib/db/table_manager.cc:77-86 | a flush moves the memtable's map to the bottom of the stack without changing the answers |
| `TableRefinement.ReadAgrees` | lib/db/table_manager.cc:19-54 | in every represented state a read answers like the map |
| `TableRefinement.WriteAgrees` | lib/db/table_manager.cc:56-86 | in every represented state a write leads to a represented state of the written map |
| `TableRefinement.RunAgrees` | lib/db/table_manager.cc:19-86 | every run from the empty table, over any leftover files, with keys up to 2037 bytes and records below 2^31 bytes, gives the map's answers |
| `TableLimits.LookupOfStored` | lib/mem/summary.cc:29-45 | for every key stored by a flush of any number of pages: exactly when the summary sends it to its own page |
| `TableLimits.EveryKeyMisdirectedIff` | lib/db/table_manager.cc:33-44 | with 2 to 255 pages every stored key is sent to a page that does not hold it if and only if two keys fit the summary (key length at most 2045) |
| `TableLimits.LookupExact` | lib/db/table_manager.cc:33-44 | every key of a flushed memtable is sent to its own page if and only if there is just one page |
| `TableLimits.LostWithPages` | lib/io/table_builder.cc:86-95 | key length 2038 to 4082: of any two records flushed together a named one is then reported missing |
| `TableLimits.LostWithoutPages` | lib/io/table_builder.cc:86-95 | key length above 4082: a flushed key is not found, for no pair fits a page |
| `TableLimits.LostTooLong` | lib/io/table_builder.cc:78-84 | a record size that is negative as an int (2^31 to 2^32 - 1 and so on): the flush writes no index, and on a fresh table no key is found in a zeroed read buffer |
| `TableLimits.CutRecord` | lib/util/buffer.cc:311-320 | a longer record whose size is no negative int is read back changed unless the bytes that `bytes()` did not copy were zero |
| `TableLimits.EngineCorrectIff` | lib/db/table_manager.cc:19-86 | for a schema with at least two different keys, and for longer records one with something to lose: all runs agree with the map if and only if the key length is at most 2037 and the record size below 2^31 |
| `Databases.PatchedBytes` | lib/db/database.cc:126-127 | replacing the top half of an id keeps it exactly when the bytes are that half |
| `Databases.TornCatalog` | lib/db/database.cc:126-127 | a catalog with its last four bytes replaced is the encoding of the same tables with a patched last sstable id |
| `Databases.FlushedBuffer` | lib/db/database.cc:35-46 | what the next start reads after a metadata flush of fewer than 2^31 bytes, for every old file and any junk |
| `Databases.ReloadExact` | lib/db/database.cc:35-68 | such a reload always parses, to the tables with the last id patched; they are the flushed ones if and only if the four unwritten bytes read back as the id's top half |
| `Databases.LongCatalogShrinks` | lib/db/database.cc:115-127 | from 2^31 - 4 bytes on the length read back is smaller than the catalog, since the buffer's copy is cut short |
| `DatabaseRefinement.GetAgrees` | lib/db/database.cc:86-94 | a read through the database answers like the reference, unknown tables included |
| `DatabaseRefinement.PutAgrees` | lib/db/database.cc:96-101 | a write changes its own table's map and no other table's files |
| `DatabaseRefinement.CreateAgrees` | lib/db/database.cc:73-84 | creating a table adds an empty map, or nothing when the name exists |
| `DatabaseRefinement.ReopensAll` | lib/db/database.cc:26-71 | with a complete image, reopening yields every table with all its summaries and an empty memtable |
| `DatabaseRefinement.TornReopens` | lib/db/database.cc:26-71 | with any other four bytes it does not |
| `DatabaseRefinement.LongReopens` | lib/db/database.cc:26-71 | nor with a catalog of 2^31 - 4 bytes or more |
| `DatabaseRefinement.RestartAgrees` | lib/db/database.cc:26-134 | a restart brings back every table if and only if the image is complete (catalog and length below 2^31 bytes, the four unwritten bytes right); it is then the reference's restart: each table falls back to its last flush, ids still count the summaries |
| `DatabaseRefinement.BadRestart` | lib/db/database.cc:40-46 | a restart that goes wrong: one new table, the buffer holding ones |
| `DatabaseRuns.ZeroRestart` | lib/db/database.cc:40-42 | a zero-filled buffer supplies the missing bytes while the last table has fewer than 2^32 sstables |
| `DatabaseRuns.RunAgrees` | lib/db/database.cc:26-134 | every run, of any length, of creates, writes, reads and restarts from an empty disk whose restarts find a complete image gives the reference's answers and never fails to reopen |
| `DatabaseRuns.ZeroRunAgrees` | lib/db/database.cc:26-134 | in particular every run below 2^32 operations and 2^31 bytes of catalog whose restart buffers read as zeros |
| `DatabaseObjects.Database.CreateTable` | lib/db/database.cc:73-84 | inserts a new table manager in name order unless the name is taken |
| `DatabaseObjects.Database.ReadRecord` | lib/db/database.cc:86-94 | answers as the table of that name, or reports that there is none |
| `DatabaseObjects.Database.WriteRecord` | lib/db/database.cc:96-101 | changes only the named table and its files; other managers keep their state |
| `DatabaseObjects.Database.FlushMetadata` | lib/db/database.cc:103-134 | leaves the metadata file that `ReloadExact` is about |
| `DatabaseObjects.FillMetadata` | lib/db/database.cc:119-124 | the buffer of length + 4 bytes is filled exactly, by the length and the tables in order, and handed out through `bytes()` |
| `DatabaseObjects.OpenAll` | lib/db/database.cc:48-68 | the loop driven by the buffer offset opens exactly the tables of the catalog, or fails when a table or summary does not parse |
| `DatabaseObjects.Reopen` | lib/db/database.cc:26-71 | the constructor yields a valid database with the reopened tables |
| `Decimal.AtoiOfToString` | include/dht/partitioner.hh:15-15 | a printed integer is read back |
| `Decimal.AtoiReads` | include/dht/partitioner.hh:15-15 | what `atoi` makes of white space, an optional sign, digits and anything after them |
| `Decimal.AtoiOfNoNumber` | include/dht/partitioner.hh:15-15 | it is 0 for the empty text and for one that starts with none of these |
| `Decimal.DigitsCanonical` | include/dht/result_serializer.hh:20-20 | a printed number has a leading zero only when it is zero, and then one digit |
| `Decimal.SpaceExact` | lib/api/prom_endp/http_message.cc:200-205 | white space is exactly the six bytes of `isspace` |
| `Clusters.FindAddress` | include/dht/state_store.hh:27-34 | the loop finds the first range's address, and finds one exactly when some range contains the token |
| `Clusters.GetAddressExact` | include/dht/state_store.hh:27-34 | a token belongs to an address if and only if the first range with start <= token < end has that address, and to none if and only if there is no such range |
| `Clusters.ShippedRanges` | config/config.yaml:1-8 | with the ranges [0, 100) and [100, 200) every odd INT key goes to the first node and every even one to the second |
| `Clusters.IntToken` | include/dht/partitioner.hh:15-15 | an INT key's token is decided by its own parity, negative numbers included |
| `Clusters.StreamersExact` | include/dht/state_store.hh:66-70 | one streamer per address named in the ranges, each once, in order |
| `Clusters.OthersExact` | include/dht/partitioner.hh:35-42 | a broadcast skips the local address and no other |
| `Clusters.BroadcastExact` | include/dht/multinode_query_executor.hh:19-29 | a CREATE TABLE executes once on the coordinator, first, and once on every other node named in the ranges |
| `Clusters.OwnerIsNamed` | include/dht/state_store.hh:27-34 | an owner is always one of the named nodes |
| `ClusterRefinement.CreateStep` | include/dht/multinode_query_executor.hh:19-29 | a create through any coordinator creates the table on every node and in the logical database |
| `ClusterRefinement.InsertStep` | include/lang/statements/insert_statement.hh:34-47 | an insert through any coordinator changes the logical table as its owner's table changes |
| `ClusterRefinement.SelectStep` | include/lang/statements/select_statement.hh:32-40 | a select through any coordinator gets the logical answer and changes nothing |
| `ClusterRefinement.RestartStep` | lib/db/database.cc:26-71 | a node that restarts with a complete image costs the logical tables that node's unflushed records, which fall back to what was flushed, and nothing on other nodes |
| `ClusterRefinement.ClusterAgrees` | include/dht/query_processor.hh:23-39 | every run of statements over coordinators that share the ranges, and of restarts of any node with complete images, both tokens covered and the sort key at column 1, answers like one logical database if and only if each statement with an empty key was sent to its owner |
| `ClusterRefinement.IndirectReply` | include/dht/singlenode_query_executor.hh:24-28 | any other statement with an empty key is answered as a broadcast, not with its result |
| `ClusterLimits.RereadIff` | include/lang/statements/select_statement.hh:32-40 | on a table with any sort key: a record inserted and then selected by its sort key is found, as in one logical database, if and only if its second value and its sort key have the same owner; otherwise the answer is not-found |
| `ClusterLimits.ClusterCorrectIff` | include/lang/statements/insert_statement.hh:45-47 | with two owners, all runs on a table answer like one logical table if and only if its sort key is the second column |
| `ClusterObjects.Cluster.SendAll` | include/dht/partitioner.hh:35-42 | the loop executes the statement on every other named node |
| `ClusterObjects.Cluster.ExecuteEverywhere` | include/dht/multinode_query_executor.hh:19-29 | locally first, then everywhere else |
| `ClusterObjects.Cluster.Process` | include/dht/query_processor.hh:23-39 | the step that `ClusterAgrees` is about |
| `ClusterObjects.SameNodeIff` | include/lang/statements/insert_statement.hh:45-47 | with two owners, an insert and a select of the same record meet on one node from every coordinator if and only if column 1 and the sort key have the same token |
| `CreateTableVisitor.VisitColumnDefinitionList` | include/lang/cql3_visitor.hh:160-194 | the schema holds the columns in order, the partition index is 0 and the sort index is the last column named in either role, else the last one flagged, else 0 |
| `CreateTableVisitor.SingleKey` | include/lang/cql3_visitor.hh:245-248 | PRIMARY KEY (c) over distinct columns makes c the sort key |
| `CreateTableVisitor.CompoundKey` | include/lang/cql3_visitor.hh:250-264 | PRIMARY KEY (p, c, ...) makes the later of p and c the sort key, whatever further clustering columns follow |
| `CreateTableVisitor.CompositeKey` | include/lang/cql3_visitor.hh:266-281 | PRIMARY KEY ((p, ...), c, ...) likewise, from the first column of each list |
| `CreateTableVisitor.MarkedKey` | include/lang/cql3_visitor.hh:160-176 | without a usable clause the last column marked PRIMARY KEY is the sort key, or column 0 when none is |
| `CreateTableVisitor.IntendedIff` | include/lang/cql3_visitor.hh:178-191 | with distinct columns the indices are those of the named partition and clustering columns if and only if the partition column comes first |
| `CreateTableVisitor.SwappedKey` | include/catalog/schema.hh:60-62 | PRIMARY KEY (b, a) over columns (a, b) makes b the sort key and leaves a as the partition key |
| `CreateTableVisitor.ClusterTableIff` | include/lang/cql3_visitor.hh:160-194 | the schema is one that `ClusterAgrees` covers if and only if the later key column is the second one, of kind ASCII or INT, within the storage limits; with the intended indices as well, exactly for PRIMARY KEY (first column, second column) |
| `CreateTableVisitor.SchemaObject.SetPartitionKeyIndex` | include/catalog/schema.hh:60-62 | sets the sort index and leaves the partition index alone |
| `CreateTableVisitor.SchemaObject.SetSortKeyIndex` | include/catalog/schema.hh:57-59 | sets the sort index |
| `Words.RotationsCancel` | lib/dht/murmur_hash.cc:291-307 | left rotation and its inverse undo each other both ways, for every amount 1 to 63 |
| `WordArithmetic.RotLIs` | lib/dht/murmur_hash.cc:291-293 | a rotation moves the low bits up by n and the top n bits to the bottom, in numbers |
| `WordArithmetic.ShrIsQuotient` | lib/dht/murmur_hash.cc:295-303 | a right shift is the quotient by a power of two |
| `Words.MulCancels` | lib/dht/murmur_hash.cc:322-329 | multiplying by a constant and by its modular inverse gives the word back |
| `Words.XorShiftInjective` | lib/dht/murmur_hash.cc:309-320 | x xor (x >> shift) determines x, for every positive shift |
| `Words.InvRshiftXor` | lib/dht/murmur_hash.cc:309-320 | the loop ends and returns the one word whose xor with its own shift is the input, for every shift 1 to 63 |
| `ByteWords.XorBytes` | lib/dht/murmur_hash.cc:163-203 | xoring bytes in at their bit positions, highest first, is one xor with their little-endian word |
| `ByteWords.ReverseTwice` | lib/dht/murmur_hash.cc:331-336 | byte reversal is its own inverse |
| `ByteWords.ReverseIsBigEndian` | lib/dht/murmur_hash.cc:331-336 | it turns the little-endian reading of eight bytes into the big-endian one |
| `Murmur3.Inverses` | lib/dht/murmur_hash.cc:224-268 | the constants of the inverter are the modular inverses of the hash's constants |
| `Murmur3.MixesCancel` | lib/dht/murmur_hash.cc:135-146 | multiply, rotate, multiply is undone by the inverter's three steps, both ways |
| `Murmur3.UnrotateCancels` | lib/dht/murmur_hash.cc:140-151 | so is rotate, add, times five, add, both ways |
| `Murmur3.BlockInjectiveInState` | lib/dht/murmur_hash.cc:131-152 | for a fixed block the step is injective on the state |
| `Murmur3.BlockInjectiveInKey` | lib/dht/murmur_hash.cc:131-152 | for a fixed state the step is injective on the block |
| `Murmur3.FmixInjective` | lib/dht/murmur_hash.cc:295-303 | the final mix is injective |
| `Murmur3.FinalizeInjective` | lib/dht/murmur_hash.cc:208-218 | for a fixed length the whole finalization is injective |
| `Murmur3.BlockSensitive` | lib/dht/murmur_hash.cc:116-221 | keys of any length that differ only inside one aligned 16-byte block hash differently, for every seed |
| `Murmur3.BlockConstants` | lib/dht/murmur_hash.cc:131-152 | what a block step adds once the mixed block cancels the state: five times the other half plus 0x52dce729, then five times that plus 0x38495ab5 |
| `Murmur3.SeedExact` | lib/dht/murmur_hash.cc:117-215 | two seeds give a key the same hash if and only if they are equal |
| `Murmur3Vectors.Hash3Vector` | tests/dht/murmur_hash_test.cc:22-29 | the repository's expected hash of "Yes We are here" with seed 0xFAE |
| `Murmur3.TailExact` | lib/dht/murmur_hash.cc:157-203 | keys with the same body collide if and only if the first ten bytes of their tails agree: nothing is lost up to ten tail bytes, the rest is never read |
| `Murmur3Inverse.HashKey` | lib/dht/murmur_hash.cc:116-221 | the loop over blocks, tail and finalization computes the hash of the key's slice at the offset |
| `Murmur3Inverse.HashTail` | lib/dht/murmur_hash.cc:163-203 | the fall-through switch computes the tail step |
| `Murmur3Inverse.InvFmix` | lib/dht/murmur_hash.cc:322-329 | returns a preimage under the final mix for every word |
| `Murmur3Inverse.Unfinalize` | lib/dht/murmur_hash.cc:232-244 | undoes the finalization of a 16-byte key |
| `Murmur3Inverse.InvHash` | lib/dht/murmur_hash.cc:223-276 | every 128-bit result is the hash of some 16-byte key, and the returned words are the big-endian words of every 16-byte key with that hash |
| `Murmur3Inverse.HashInjectiveOn16` | lib/dht/murmur_hash.cc:116-221 | so the hash with seed 0 is injective on 16-byte keys |
| `Murmur3Vectors.InverseVector` | tests/dht/murmur_hash_test.cc:31-37 | the repository's expected inverse of (0, 0) |
| `Murmur2.WordSensitive` | lib/dht/murmur_hash.cc:8-114 | for both widths, keys of any length that differ only inside one aligned word hash differently, for every seed |
| `Murmur2.TailSensitive` | lib/dht/murmur_hash.cc:33-49 | so do keys that differ only in the tail |
| `Murmur2.ShortKeysInjective` | lib/dht/murmur_hash.cc:8-114 | each hash is injective on keys of one length up to its word size |
| `Murmur2.SeedExact` | lib/dht/murmur_hash.cc:8-115 | two seeds give a key the same hash if and only if they agree in their low 32 bits, at both widths |
| `Murmur2.TailMeaning` | lib/dht/murmur_hash.cc:33-49 | the tail bytes of the 32-bit hash count from the last, those of the 64-bit hash from the first |
| `Murmur2Vectors.HelloVector` | tests/dht/murmur_hash_test.cc:8-13 | the repository's expected 32-bit hash of "hello" |
| `Murmur2Vectors.HereVector` | tests/dht/murmur_hash_test.cc:15-20 | the repository's expected 64-bit hash of "We are here" |
| `Murmur2.HashKey` | lib/dht/murmur_hash.cc:8-114 | the loop computes the hash of the key's slice at the offset |
| `Murmur2.HashTail` | lib/dht/murmur_hash.cc:87-107 | the switch computes the tail step |
| `QueryResults.SplitString` | lib/api/cql3/query_result.cc:269-283 | the loop computes the split that the next two lemmas are about |
| `QueryResults.JoinOfSplit` | lib/api/cql3/query_result.cc:269-283 | joining the parts of a split with the token gives the string back, for every string and nonempty token |
| `QueryResults.SplitOfJoin` | lib/api/cql3/query_result.cc:269-283 | conversely parts free of a one-byte token are recovered from their join, empty parts included |
| `QueryResults.SplitFree` | lib/api/cql3/query_result.cc:269-283 | no part of a split holds the byte it was split at |
| `QueryResults.SerializeRecord` | include/dht/result_serializer.hh:16-24 | the loop computes the serialization that `Transport` is about |
| `QueryResults.SerializedBytes` | include/dht/result_serializer.hh:16-24 | a serialized record as text, with its commas and bars |
| `QueryResults.Transport` | lib/api/cql3/query_result.cc:98-111 | a record whose printed values hold neither comma nor bar splits into its items, and each item into text, type id and length |
| `QueryResults.TransportIff` | lib/api/cql3/query_result.cc:98-111 | what is received is what was sent, field by field, if and only if no printed value holds a comma or a bar |
| `QueryResults.CommaLost` | lib/api/cql3/query_result.cc:98-111 | the text "a,b" does not arrive |
| `QueryResults.Count` | lib/api/cql3/query_result.cc:133-160 | fills only its own bytes, with the big-endian number when the number is countable, leaving them untouched at 256, 65536 and from 2^24 |
| `QueryResults.CountIff` | lib/api/cql3/query_result.cc:133-160 | the four bytes are the protocol's big-endian [int], whatever was there before, if and only if 0 <= n < 2^24 and n is neither 256 nor 65536 |
| `QueryResults.AppendRecord` | lib/api/cql3/query_result.cc:221-267 | writes a text as its bytes and an integer through `count`, nothing for other kinds, and touches no other byte |
| `QueryResults.AppendRow` | lib/api/cql3/query_result.cc:98-111 | the loop over a serialized record writes every value's length and content in order and nothing else |
| `QueryResults.RowIsProtocolRow` | lib/api/cql3/query_result.cc:98-111 | that is the row of [bytes] of the protocol for every record whose lengths and integers are countable |
| `QueryResults.RowBytes` | lib/api/cql3/query_result.cc:98-111 | a protocol row written out byte by byte |
| `QueryResults.RowIsProtocolRowIff` | lib/api/cql3/query_result.cc:98-111 | over every former content of the buffer, if and only if they are |
| `HttpMessages.MethodRoundTrip` | lib/api/prom_endp/http_message.cc:78-104 | every method name is read back as its method |
| `HttpMessages.Texts` | lib/api/prom_endp/http_message.cc:5-43 | the texts of the nine methods and the version as string literals, with the separators |
| `HttpMessages.ParseMethodExact` | lib/api/prom_endp/http_message.cc:78-104 | a word is read as a method if and only if it spells that method's name, each letter in either case |
| `HttpMessages.CaseExact` | lib/api/prom_endp/http_message.cc:79-82 | the case conversions change exactly the letters of the other case, and undo each other there |
| `HttpMessages.SectionFound` | lib/api/prom_endp/http_message.cc:168-177 | the first blank line of a printed request ends the header section, whatever the content holds |
| `HttpMessages.ReadsSection` | lib/api/prom_endp/http_message.cc:190-207 | the header loop recovers all headers of a well-formed section in order |
| `HttpMessages.StartLineReads` | lib/api/prom_endp/http_message.cc:179-188 | the three words of a printed start line are method, path and version |
| `HttpMessages.ParseOutcome` | lib/api/prom_endp/http_message.cc:163-190 | a text with a three-word start line is accepted if and only if the first word spells a method and the third the version; path in lower case; without a blank line no headers and no content |
| `HttpMessages.NoLineEnd` | lib/api/prom_endp/http_message.cc:163-166 | a text without a carriage return is refused |
| `HttpMessages.ReadLineOf` | lib/api/prom_endp/http_message.cc:194-206 | a header value loses all its white space, inside as well as around |
| `HttpMessages.ReadLineBare` | lib/api/prom_endp/http_message.cc:194-206 | a line without a colon names a header that gets the previous value |
| `HttpMessages.ParseWhole` | lib/api/prom_endp/http_message.cc:154-212 | an accepted text with a blank line yields the method, path, headers before the blank line and the body after it |
| `HttpMessages.ParsedRequest` | lib/api/prom_endp/http_message.cc:154-212 | a request written out in bytes (lower-case method, mixed-case path, inner spaces, a line without a colon, a body) and what it is parsed to |
| `HttpMessages.ParsedWellFormed` | lib/api/prom_endp/http_message.cc:154-212 | every accepted text, however malformed its headers, yields a well-formed request |
| `HttpMessages.AlwaysLength` | include/api/prom_endp/http_message.hh:85-109 | and one whose Content-Length header is the length of its content |
| `HttpMessages.RoundTripIff` | lib/api/prom_endp/http_message.cc:125-212 | a request survives printing and parsing if and only if its path is nonempty, lower-case and free of white space, its headers are sorted with names free of white space and ':' and values free of white space, and Content-Length is its content's length |
| `HttpMessages.PrintRequest` | lib/api/prom_endp/http_message.cc:125-137 | the stream loop prints the text that the round trip is about |
| `HttpMessages.PrintedRequest` | lib/api/prom_endp/http_message.cc:125-137 | a request with two headers and a body, and the text it prints as |
| `HttpMessages.ReadHeaderLines` | lib/api/prom_endp/http_message.cc:190-207 | the getline loop computes the headers that `ReadsSection` is about, keeping the previous value on a line without a colon |
| `HttpMessages.StringToRequest` | lib/api/prom_endp/http_message.cc:154-212 | parses as the function that the round trip is about, the exceptions included |

Where the code and its comments or evident intent differ, the model follows the code:

- the memtable is flushed at two records, while the comment plans for 10000 (lib/db/table_manager.cc:64-69);
- `find_page_number` scans upwards although the summary it is given descends (lib/mem/summary.cc:37-42);
- `flush_metadata` writes `length` bytes of a buffer of `length + 4` (lib/db/database.cc:119-127);
- `set_partition_key_index` assigns the sort key index (include/catalog/schema.hh:60-62);
- the partitioner uses the parity of `atoi` of the key; the hash is commented out (include/dht/partitioner.hh:13-15);
- the partition key of an insert is always column 1 (include/lang/statements/insert_statement.hh:45-47).

## Left out

- `StatementExecutor::execute` returns from inside its loop (include/dht/statement_executor.hh:24-27); the model takes the evident intent, that the statement's result is always returned.
- Sockets, threads, gRPC stubs, server loops, YAML configuration, logging, metrics and TTL fields: input and output without a property of its own.
- Failed or partial file operations, missing directories and exhausted file descriptors; every read and write transfers what was asked, except that a read past the end leaves the buffer as it was.
- Different tables are different files: path clashes between table names are not modelled.
- `Junk`: all reads of one call see the same uninitialised bytes.
- TableLimits.EngineCorrectIff: for record sizes that are negative as an int the statement is about a table without a leftover index file; an ASCII field that ends beyond byte 2^31 of a longer record is undefined in the code (lib/util/buffer.cc:205) and read like any other here.
- Buffer.MemoryBuffer.GetBytes: does not model that `get_string` counts positions in an int, which matters only beyond byte 2^31 of a buffer.
- DatabaseRuns.RunAgrees: names and field counts of created tables are at most 255, the exact limit of `Catalog.TablesRoundTripIff`.
- ClusterRefinement.ClusterAgrees: keys are ASCII or INT, since `print()` has no body for other kinds.
- Summaries.DescendingLookupMisses: speaks of any descending summary; the keys a flush stores are the subject of `TableLimits.LookupOfStored`.
- Data.GetType: an id outside the enumeration is a failure; the code carries it on as an undefined type.
- Data.GetData: a text or blob length of 2^31 or more is a failure; the code converts it to a negative int.
- IndexPages.GetPage: pages of two or more FLOAT or DOUBLE keys fail to load; the code orders them by IEEE comparison.
- Concurrent statements: each statement is one atomic step, since the code has no locks.
- FLOAT and DOUBLE keys: NaN breaks their order; such values are carried in records as bit patterns. BOOLEAN and BLOB keys: `compare` throws.
- Values of 2^31 bytes or more and type ids outside the enumeration read as a failure, where the code's behaviour is undefined.
- The byte order is that of a little-endian host.
- `get_streamer` and `get_keyspace` insert on first use; streamers of all named addresses exist from the start and one keyspace is modelled.
- `visitColumnDefinitionList` only; the rest of the visitor, the grammar and the lexer are not part of this model.
- Decimal.AtoiOfToString: `atoi` and `stoi` are on unbounded integers and read 0 where there is no number; overflow and the exception of `stoi`, which only a text that is not a printed number can reach, are not modelled.
- QueryResults.SplitString: does not model that the found position is kept in an int, which matters only for parts of 2^31 bytes or more (lib/api/cql3/query_result.cc:272).
- QueryResults.JoinOfSplit: likewise only for parts below 2^31 bytes.
- QueryResults.TransportIff: likewise only for items below 2^31 bytes.
- QueryResults.Count: the two widths the code uses, four bytes and, below 65536, two; wider numbers in two bytes would read before the field.
- QueryResults.AppendRow: the record is the one that was serialized, with ASCII and INT values free of comma and bar; the column metadata that precedes the rows is not modelled.
- Murmur3Inverse.HashKey: the fall-through switches are one loop over the tail's bytes (`ByteWords.XorBytes`), and words are integers below 2^64 with explicit wrap-around.
- HTTP responses, status texts and the unused parts of the URI.
- `fake_meta.cc` and the response headers of the CQL protocol: fixed byte tables.
- Index pages and summaries loaded from disk are values; the objects that a flush fills are classes.
