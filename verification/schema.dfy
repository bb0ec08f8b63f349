/** The records the parser produces and the insertion-ordered mapping from
    table names to them (a Python `dict`). */
module Schema {
  import opened Wrappers

  /** `{"name": col, "type": typ}` */
  datatype Column = Column(name: string, typ: string)

  /** `{"columns": ..., "ref_table": ..., "ref_columns": ...}` */
  datatype ForeignKey = ForeignKey(columns: seq<string>, refTable: string, refColumns: seq<string>)

  /** `{"columns": ..., "primary_key": ..., "foreign_keys": ...}` */
  datatype TableSchema = TableSchema(columns: seq<Column>, primaryKey: seq<string>, foreignKeys: seq<ForeignKey>)

  const EmptyTable := TableSchema([], [], [])

  /** A name paired with what it names: a table's record in the mapping, or
      the body text of one `CREATE TABLE` statement in the statement scan. */
  datatype Named<T> = Named(name: string, item: T)

  /** One item of the mapping. */
  type Entry = Named<TableSchema>

  /** A dict from table name to record, as its sequence of items in insertion order. */
  type Schema = seq<Entry>

  /** The names in order; for the mapping these are its keys in iteration
      order, Python's `list(schema)`. */
  function Names<T>(xs: seq<Named<T>>): (r: seq<string>)
    ensures |r| == |xs|
    ensures forall k :: 0 <= k < |xs| ==> r[k] == xs[k].name
  {
    seq(|xs|, k requires 0 <= k < |xs| => xs[k].name)
  }

  predicate DistinctKeys(m: Schema) {
    forall j, k :: 0 <= j < k < |m| ==> m[j].name != m[k].name
  }

  /** `schema.get(name)` */
  function Lookup(m: Schema, name: string): (r: Option<TableSchema>)
    ensures r.None? <==> name !in Names(m)
    ensures r.Some? ==> Named(name, r.value) in m
    decreases |m|
  {
    if |m| == 0 then None
    else if m[0].name == name then Some(m[0].item)
    else
      assert Names(m) == [m[0].name] + Names(m[1..]);
      Lookup(m[1..], name)
  }

  /** `schema[name] = table`: an existing key keeps its position and gets the
      new value; a new key goes to the end. */
  function Put(m: Schema, name: string, table: TableSchema): (r: Schema)
    ensures Names(r) == if name in Names(m) then Names(m) else Names(m) + [name]
    decreases |m|
  {
    if |m| == 0 then [Named(name, table)]
    else if m[0].name == name then [Named(name, table)] + m[1..]
    else
      assert Names(m) == [m[0].name] + Names(m[1..]);
      var rest := Put(m[1..], name, table);
      var r := [m[0]] + rest;
      assert Names(r) == [m[0].name] + Names(rest);
      r
  }

  /** After `schema[name] = table` the name maps to the new record. */
  lemma {:induction false} PutLookupSame(m: Schema, name: string, table: TableSchema)
    ensures Lookup(Put(m, name, table), name) == Some(table)
    decreases |m|
  {
    if |m| > 0 && m[0].name != name {
      var r := Put(m, name, table);
      assert r[1..] == Put(m[1..], name, table);
      PutLookupSame(m[1..], name, table);
    }
  }

  /** ... and every other name maps to what it mapped to before. */
  lemma {:induction false} PutLookupOther(m: Schema, name: string, table: TableSchema, other: string)
    requires other != name
    ensures Lookup(Put(m, name, table), other) == Lookup(m, other)
    decreases |m|
  {
    if |m| > 0 && m[0].name != name && m[0].name != other {
      var r := Put(m, name, table);
      assert r[1..] == Put(m[1..], name, table);
      PutLookupOther(m[1..], name, table, other);
    }
  }

  /** Assignment never duplicates a key. */
  lemma PutDistinct(m: Schema, name: string, table: TableSchema)
    requires DistinctKeys(m)
    ensures DistinctKeys(Put(m, name, table))
  {
    var r := Put(m, name, table);
    forall j, k | 0 <= j < k < |r|
      ensures r[j].name != r[k].name
    {
      assert Names(r)[j] == r[j].name && Names(r)[k] == r[k].name;
      if name in Names(m) {
        assert Names(m)[j] == m[j].name && Names(m)[k] == m[k].name;
      } else {
        assert (Names(m) + [name])[j] == r[j].name;
        assert (Names(m) + [name])[k] == r[k].name;
        if k < |m| {
          assert Names(m)[j] == m[j].name && Names(m)[k] == m[k].name;
        } else {
          assert Names(m)[j] == m[j].name;
        }
      }
    }
  }
}
