/** The catalog's bytes() and from() loops over a MemoryBuffer, each equal to its byte-level function. */
module CatalogIo {
  import opened Bytes
  import opened Buffer
  import opened Data
  import opened Catalog

  /** A reader's result once `done` items have been taken in front of it. */
  ghost function After<T>(done: seq<T>, p: Parsed<seq<T>>): (r: Parsed<seq<T>>) {
    match p
    case Ok(v, rest) => Ok(done + v, rest)
    case Fail => Fail
  }

  lemma AfterNothing<T>(p: Parsed<seq<T>>)
    ensures After([], p) == p
  {
    if p.Ok? { assert [] + p.value == p.value; }
  }

  lemma AfterStep<T>(done: seq<T>, x: T, p: Parsed<seq<T>>)
    ensures After(done, After([x], p)) == After(done + [x], p)
  {
    if p.Ok? { assert done + ([x] + p.value) == (done + [x]) + p.value; }
  }

  method SumRecordSize(fields: seq<Field>) returns (size: nat)
    ensures size == RecordSize(fields)
  {
    size := 0;
    for i := 0 to |fields|
      invariant size + RecordSize(fields[i..]) == RecordSize(fields)
    {
      assert fields[i..][1..] == fields[i + 1..];
      size := size + fields[i].ty.length;
    }
  }

  method VerifyRecord(schema: Schema, r: Record) returns (ok: bool)
    ensures ok <==> Verify(schema.fields, r)
  {
    if |r| != |schema.fields| {
      return false;
    }
    for i := 0 to |r|
      invariant forall j | 0 <= j < i :: TypeOf(r[j]) == schema.fields[j].ty
    {
      if TypeOf(r[i]) != schema.fields[i].ty {
        return false;
      }
    }
    return true;
  }

  lemma EncodeRecordFirst(r: Record, i: nat)
    requires i < |r|
    ensures EncodeRecord(r[i..]) == Encode(r[i]) + EncodeRecord(r[i + 1..])
  {
    hide Encode;
    assert r[i..][1..] == r[i + 1..];
  }

  lemma EncodeRecordNone()
    ensures EncodeRecord([]) == []
  {
  }

  method PutRecord(buf: MemoryBuffer, r: Record) returns (ok: bool)
    requires buf.Valid()
    modifies buf, buf.data
    ensures buf.Put(EncodeRecord(r), ok)
  {
    hide Encode, EncodeRecord, Wrote, Writing;
    ghost var before, room, done, all := buf.Before(), buf.After(), [], EncodeRecord(r);
    assert r[0..] == r && r[|r|..] == [];
    WritingBegins(before, room, all);
    for i := 0 to |r|
      invariant buf.Valid() && Writing(before, room, buf.Before(), buf.After(), done, EncodeRecord(r[i..]), all)
    {
      ghost var b, a, x := buf.Before(), buf.After(), Encode(r[i]);
      EncodeRecordFirst(r, i);
      ok := PutData(buf, r[i]);
      WritingStep(before, room, b, a, buf.Before(), buf.After(), done, x, EncodeRecord(r[i + 1..]), all);
      if !ok { return; }
      done := done + x;
    }
    EncodeRecordNone();
    WritingEnds(before, room, buf.Before(), buf.After(), done, all);
    return true;
  }

  method GetRecord(buf: MemoryBuffer, fields: seq<Field>) returns (r: Option<Record>)
    requires buf.Valid()
    modifies buf
    ensures buf.Got(ParseRecord(old(buf.After()), fields), r)
  {
    hide ParseData;
    var values: Record := [];
    assert fields[0..] == fields;
    AfterNothing(ParseRecord(buf.After(), fields));
    for i := 0 to |fields|
      invariant buf.Valid() && buf.data[..] == old(buf.data[..])
      invariant ParseRecord(old(buf.After()), fields) == After(values, ParseRecord(buf.After(), fields[i..]))
    {
      assert fields[i..][1..] == fields[i + 1..];
      var d := GetData(buf, fields[i].ty);
      if d.None? {
        return None;
      }
      AfterStep(values, d.value, ParseRecord(buf.After(), fields[i + 1..]));
      values := values + [d.value];
    }
    assert values + [] == values;
    return Some(values);
  }

  method PutName(buf: MemoryBuffer, name: ByteString) returns (ok: bool)
    requires buf.Valid()
    modifies buf, buf.data
    ensures buf.Put([|name| % 256] + name, ok)
  {
    ok := buf.PutBytes([|name| % 256]);
    if !ok { return; }
    ghost var b, r := buf.Before(), buf.After();
    ok := buf.PutBytes(name);
    if !ok { return; }
    WroteBoth(old(buf.Before()), old(buf.After()), b, r, buf.Before(), buf.After(), [|name| % 256], name);
  }

  method PutField(buf: MemoryBuffer, f: Field) returns (ok: bool)
    requires buf.Valid()
    modifies buf, buf.data
    ensures buf.Put(EncodeField(f), ok)
  {
    ok := PutName(buf, f.name);
    if !ok { return; }
    ghost var b, r := buf.Before(), buf.After();
    ok := PutType(buf, f.ty);
    if !ok { return; }
    WroteBoth(old(buf.Before()), old(buf.After()), b, r, buf.Before(), buf.After(),
              [|f.name| % 256] + f.name, EncodeType(f.ty));
  }

  method GetName(buf: MemoryBuffer) returns (r: Option<ByteString>)
    requires buf.Valid()
    modifies buf
    ensures buf.Got(ParseName(old(buf.After())), r)
  {
    var n := buf.GetUint(1);
    if n.None? { return None; }
    r := GetText(buf, n.value);
  }

  method GetField(buf: MemoryBuffer) returns (r: Option<Field>)
    requires buf.Valid()
    modifies buf
    ensures buf.Got(ParseField(old(buf.After())), r)
  {
    var name := GetName(buf);
    if name.None? { return None; }
    var ty := GetType(buf);
    if ty.None? { return None; }
    return Some(Field(name.value, ty.value));
  }

  lemma EncodeFieldsFirst(fs: seq<Field>, i: nat)
    requires i < |fs|
    ensures EncodeFields(fs[i..]) == EncodeField(fs[i]) + EncodeFields(fs[i + 1..])
  {
    hide EncodeField;
    assert fs[i..][1..] == fs[i + 1..];
  }

  lemma EncodeFieldsNone()
    ensures EncodeFields([]) == []
  {
  }

  method PutFields(buf: MemoryBuffer, fs: seq<Field>) returns (ok: bool)
    requires buf.Valid()
    modifies buf, buf.data
    ensures buf.Put(EncodeFields(fs), ok)
  {
    hide EncodeField, EncodeFields, Wrote, Writing;
    ghost var before, room, done, all := buf.Before(), buf.After(), [], EncodeFields(fs);
    assert fs[0..] == fs && fs[|fs|..] == [];
    WritingBegins(before, room, all);
    for i := 0 to |fs|
      invariant buf.Valid() && Writing(before, room, buf.Before(), buf.After(), done, EncodeFields(fs[i..]), all)
    {
      ghost var b, a, x := buf.Before(), buf.After(), EncodeField(fs[i]);
      EncodeFieldsFirst(fs, i);
      ok := PutField(buf, fs[i]);
      WritingStep(before, room, b, a, buf.Before(), buf.After(), done, x, EncodeFields(fs[i + 1..]), all);
      if !ok { return; }
      done := done + x;
    }
    EncodeFieldsNone();
    WritingEnds(before, room, buf.Before(), buf.After(), done, all);
    return true;
  }

  method PutSchema(buf: MemoryBuffer, c: Schema) returns (ok: bool)
    requires buf.Valid()
    modifies buf, buf.data
    ensures buf.Put(EncodeSchema(c), ok)
  {
    ghost var before, after := buf.Before(), buf.After();
    ghost var s0, s1: seq<byte>, s2, s3 :=
      [|c.fields| % 256], EncodeFields(c.fields), LittleEndian(c.sortKey, 8), LittleEndian(c.partitionKey, 8);
    ok := buf.PutBytes([|c.fields| % 256]);
    if !ok { return; }
    ghost var b1, a1 := buf.Before(), buf.After();
    ok := PutFields(buf, c.fields);
    if !ok { return; }
    ghost var b2, a2 := buf.Before(), buf.After();
    WroteBoth(before, after, b1, a1, b2, a2, s0, s1);
    ok := buf.PutUint(c.sortKey, 8);
    if !ok { return; }
    ghost var b3, a3 := buf.Before(), buf.After();
    WroteBoth(before, after, b2, a2, b3, a3, s0 + s1, s2);
    ok := buf.PutUint(c.partitionKey, 8);
    if !ok { return; }
    WroteBoth(before, after, b3, a3, buf.Before(), buf.After(), s0 + s1 + s2, s3);
  }

  method GetFields(buf: MemoryBuffer, n: nat) returns (r: Option<seq<Field>>)
    requires buf.Valid()
    modifies buf
    ensures buf.Got(ParseFields(old(buf.After()), n), r)
  {
    hide ParseField;
    var fields: seq<Field> := [];
    AfterNothing(ParseFields(buf.After(), n));
    for i := 0 to n
      invariant buf.Valid() && buf.data[..] == old(buf.data[..])
      invariant ParseFields(old(buf.After()), n) == After(fields, ParseFields(buf.After(), n - i))
    {
      var f := GetField(buf);
      if f.None? { return None; }
      AfterStep(fields, f.value, ParseFields(buf.After(), n - i - 1));
      fields := fields + [f.value];
    }
    assert fields + [] == fields;
    return Some(fields);
  }

  method GetSchema(buf: MemoryBuffer) returns (r: Option<Schema>)
    requires buf.Valid()
    modifies buf
    ensures buf.Got(ParseSchema(old(buf.After())), r)
  {
    Pow256Values();
    var n := buf.GetUint(1);
    if n.None? { return None; }
    var fields := GetFields(buf, n.value);
    if fields.None? { return None; }
    var sort := buf.GetUint(8);
    if sort.None? { return None; }
    var part := buf.GetUint(8);
    if part.None? { return None; }
    return Some(Schema(sort.value, part.value, fields.value));
  }

  method PutTable(buf: MemoryBuffer, t: Table) returns (ok: bool)
    requires buf.Valid()
    modifies buf, buf.data
    ensures buf.Put(EncodeTable(t), ok)
  {
    ghost var before, after := buf.Before(), buf.After();
    ghost var s0 := [|t.name| % 256] + t.name;
    ok := PutName(buf, t.name);
    if !ok { return; }
    ghost var b1, a1 := buf.Before(), buf.After();
    ok := PutSchema(buf, t.schema);
    if !ok { return; }
    ghost var b2, a2 := buf.Before(), buf.After();
    WroteBoth(before, after, b1, a1, b2, a2, s0, EncodeSchema(t.schema));
    ok := buf.PutUint(t.lastSstable, 8);
    if !ok { return; }
    WroteBoth(before, after, b2, a2, buf.Before(), buf.After(),
              s0 + EncodeSchema(t.schema), LittleEndian(t.lastSstable, 8));
  }

  method GetTable(buf: MemoryBuffer) returns (r: Option<Table>)
    requires buf.Valid()
    modifies buf
    ensures buf.Got(ParseTable(old(buf.After())), r)
  {
    Pow256Values();
    var name := GetName(buf);
    if name.None? { return None; }
    var schema := GetSchema(buf);
    if schema.None? { return None; }
    var last := buf.GetUint(8);
    if last.None? { return None; }
    return Some(Table(name.value, schema.value, last.value));
  }
}
