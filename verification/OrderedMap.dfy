/** std::map ordered by DataCmp, as the sequence of its entries in iteration order (largest key first). */
module OrderedMap {
  import opened Bytes
  import opened Data

  type Entries<V> = seq<(Data, V)>

  ghost predicate OfKind<V>(m: Entries<V>, id: Id) {
    forall i | 0 <= i < |m| :: TypeOf(m[i].0).id == id
  }

  ghost predicate Descending<V>(m: Entries<V>) {
    forall i, j | 0 <= i < j < |m| :: Gt(m[i].0, m[j].0)
  }

  /** The finite map these entries stand for. */
  ghost function ToMap<V>(m: Entries<V>): (r: map<Data, V>) {
    if m == [] then map[] else ToMap(m[1..])[m[0].0 := m[0].1]
  }

  /** find: skip the greater keys, then stop at the first that is not smaller either. */
  function Find<V>(m: Entries<V>, k: Data): (r: Option<V>) {
    if m == [] then None
    else if Gt(m[0].0, k) then Find(m[1..], k)
    else if Gt(k, m[0].0) then None
    else Some(m[0].1)
  }

  /** operator[] followed by an assignment: replaces the value of an equivalent key. */
  function Assign<V>(m: Entries<V>, k: Data, v: V): (r: Entries<V>) {
    if m == [] then [(k, v)]
    else if Gt(m[0].0, k) then [m[0]] + Assign(m[1..], k, v)
    else if Gt(k, m[0].0) then [(k, v)] + m
    else [(m[0].0, v)] + m[1..]
  }

  /** insert: an equivalent key already present keeps its old value. */
  function Insert<V>(m: Entries<V>, k: Data, v: V): (r: Entries<V>) {
    if Find(m, k).Some? then m else Assign(m, k, v)
  }

  ghost function Get<V>(m: map<Data, V>, k: Data): (r: Option<V>) {
    if k in m then Some(m[k]) else None
  }

  lemma {:induction false} ToMapKeys<V>(m: Entries<V>, k: Data)
    ensures k in ToMap(m) <==> exists i | 0 <= i < |m| :: m[i].0 == k
  {
    if m != [] {
      ToMapKeys(m[1..], k);
      assert m == [m[0]] + m[1..];
    }
  }

  lemma {:induction false} FindIsLookup<V>(m: Entries<V>, k: Data)
    requires IsKey(TypeOf(k).id) && OfKind(m, TypeOf(k).id) && Descending(m)
    ensures Find(m, k) == Get(ToMap(m), k)
  {
    if m != [] {
      GtTrichotomy(m[0].0, k);
      FindIsLookup(m[1..], k);
      if Gt(k, m[0].0) {
        ToMapKeys(m, k);
        forall i | 0 <= i < |m| ensures m[i].0 != k {
          if i > 0 { GtTransitive(k, m[0].0, m[i].0); }
          GtTrichotomy(k, m[i].0);
        }
      }
    }
  }

  ghost predicate AllBelow<V>(m: Entries<V>, k: Data) {
    forall i | 0 <= i < |m| :: Gt(k, m[i].0)
  }

  lemma {:induction false} AssignBelow<V>(m: Entries<V>, k: Data, v: V, x: Data)
    requires Gt(x, k) && AllBelow(m, x)
    ensures AllBelow(Assign(m, k, v), x)
  {
    if m != [] { AssignBelow(m[1..], k, v, x); }
  }

  lemma DescendingCons<V>(e: (Data, V), m: Entries<V>)
    requires Descending(m) && AllBelow(m, e.0)
    ensures Descending([e] + m)
  {
    var r := [e] + m;
    forall i, j | 0 <= i < j < |r| ensures Gt(r[i].0, r[j].0) {
      assert r[j] == m[j - 1];
      if i > 0 { assert r[i] == m[i - 1]; }
    }
  }

  lemma {:induction false} AssignKeepsOrder<V>(m: Entries<V>, k: Data, v: V)
    requires IsKey(TypeOf(k).id) && OfKind(m, TypeOf(k).id) && Descending(m)
    ensures OfKind(Assign(m, k, v), TypeOf(k).id) && Descending(Assign(m, k, v))
  {
    if m != [] {
      GtTrichotomy(m[0].0, k);
      AssignKeepsOrder(m[1..], k, v);
      if Gt(m[0].0, k) {
        AssignBelow(m[1..], k, v, m[0].0);
        DescendingCons(m[0], Assign(m[1..], k, v));
      } else if Gt(k, m[0].0) {
        forall i | 0 < i < |m| ensures Gt(k, m[i].0) { GtTransitive(k, m[0].0, m[i].0); }
        DescendingCons((k, v), m);
      } else {
        DescendingCons((k, v), m[1..]);
      }
    }
  }

  lemma {:induction false} AssignUpdates<V>(m: Entries<V>, k: Data, v: V)
    requires IsKey(TypeOf(k).id) && OfKind(m, TypeOf(k).id)
    ensures ToMap(Assign(m, k, v)) == ToMap(m)[k := v]
    ensures |Assign(m, k, v)| == (if Find(m, k).Some? then |m| else |m| + 1)
  {
    if m == [] {
      assert ToMap([(k, v)]) == map[k := v];
    } else {
      GtTrichotomy(m[0].0, k);
      AssignUpdates(m[1..], k, v);
    }
  }

  lemma {:induction false} AssignAtEnd<V>(m: Entries<V>, k: Data, v: V)
    requires forall i | 0 <= i < |m| :: Gt(m[i].0, k)
    ensures Assign(m, k, v) == m + [(k, v)]
  {
    if m != [] {
      AssignAtEnd(m[1..], k, v);
      assert m == [m[0]] + m[1..];
    }
  }

  /** The memtable's insert: it takes effect exactly when the key is new. */
  lemma InsertKeeps<V>(m: Entries<V>, k: Data, v: V)
    requires IsKey(TypeOf(k).id) && OfKind(m, TypeOf(k).id) && Descending(m)
    ensures var r := Insert(m, k, v);
      && OfKind(r, TypeOf(k).id) && Descending(r)
      && ToMap(r) == (if k in ToMap(m) then ToMap(m) else ToMap(m)[k := v])
      && |r| == (if k in ToMap(m) then |m| else |m| + 1)
  {
    FindIsLookup(m, k);
    AssignKeepsOrder(m, k, v);
    AssignUpdates(m, k, v);
  }
}
