/** `SimpleKV`: a store handle over one data table (src/index.ts:12-132).
    The SQLite statements each accessor runs are modelled by their effect on
    `rows`, the table's contents as a map from key to serialized text. */
module Store {
  import opened Wrappers
  import opened TableName
  import opened Options
  import opened Serializer
  import opened Rows
  import opened Sqlite

  class SimpleKV<Value(!new)> {
    const name: string
    const path: string
    const codec: Codec<Value>
    const engine: Engine
    /** The data table: `key TEXT PRIMARY KEY, value TEXT`. */
    var rows: Table

    /** The name interpolated into every statement passed the name check and
        the engine took it in `CREATE TABLE`, so the table exists; the path has
        been resolved; the serializer pair round-trips. */
    ghost predicate Valid()
    {
      ValidTableName(name) && engine.acceptsBareTableName(name) && path != "" && RoundTrips(codec)
    }

    /** The part of the constructor that runs once the name has passed the
        check and the engine has taken `CREATE TABLE IF NOT EXISTS` with it:
        the table keeps the rows `stored` of a table of that name already in
        the database file, and otherwise starts empty. */
    constructor (config: Config, codec: Codec<Value>, engine: Engine, stored: Option<Table>)
      requires ValidTableName(config.name) && config.path != "" && RoundTrips(codec)
      requires engine.acceptsBareTableName(config.name)
      ensures Valid()
      ensures name == config.name && path == config.path
      ensures this.codec == codec && this.engine == engine
      ensures rows == if stored.Some? then stored.value else map[]
    {
      name := config.name;
      path := config.path;
      this.codec := codec;
      this.engine := engine;
      rows := if stored.Some? then stored.value else map[];
    }

    /** `get`: the deserialized value of `key`, or the absent value when no
        row has that key. */
    function Get(key: string): (r: Option<Value>)
      reads this
      ensures r.None? <==> key !in rows
      ensures r.Some? ==> r.value == codec.parse(rows[key])
    {
      if key in rows then Some(codec.parse(rows[key])) else None
    }

    /** `has`: a row with primary key `key` exists. */
    function Has(key: string): (b: bool)
      reads this
      ensures b <==> key in rows
      ensures b <==> Get(key).Some?
    {
      key in rows
    }

    /** `size`: the number of rows, which is 0 exactly when the table is empty. */
    function Size(): (n: nat)
      reads this
      ensures n == |rows.Keys|
      ensures n == 0 <==> rows == map[]
    {
      assert rows != map[] ==> exists k :: k in rows;
      |rows|
    }

    /** `set`: `INSERT OR REPLACE` of the serialized value. `get(key)` then
        returns `value`, every other key keeps its row, and an existing row for
        `key` is replaced rather than duplicated. */
    method Set(key: string, value: Value)
      requires Valid()
      modifies this
      ensures rows == old(rows)[key := codec.stringify(value)]
      ensures Get(key) == Some(value)
      ensures forall k :: k != key ==> Get(k) == old(Get(k))
      ensures Size() == if old(Has(key)) then old(Size()) else old(Size()) + 1
    {
      rows := rows[key := codec.stringify(value)];
    }

    /** `delete`: removes the row of `key` if there is one; an absent key is
        no error and leaves the table as it was. */
    method Delete(key: string)
      modifies this
      ensures rows == old(rows) - {key}
      ensures !Has(key)
      ensures forall k :: k != key ==> Get(k) == old(Get(k))
      ensures !old(Has(key)) ==> rows == old(rows)
      ensures Size() == if old(Has(key)) then old(Size()) - 1 else old(Size())
    {
      rows := rows - {key};
    }

    /** `clear`: `DELETE FROM` the whole table. */
    method Clear()
      modifies this
      ensures rows == map[]
      ensures Size() == 0
      ensures forall k :: !Has(k)
    {
      rows := map[];
    }

    /** `ensure`: a check-then-set. An absent key is stored with `value` and
        `value` is returned; a present key keeps its row and its value is
        returned. Either way the key is present afterwards. */
    method Ensure(key: string, value: Value) returns (r: Value)
      requires Valid()
      modifies this
      ensures !old(Has(key)) ==> rows == old(rows)[key := codec.stringify(value)] && r == value
      ensures old(Has(key)) ==> rows == old(rows) && old(Get(key)) == Some(r)
      ensures Has(key) && Get(key) == Some(r)
    {
      if !Has(key) {
        Set(key, value);
      }
      var row := Get(key);
      r := row.value;
    }

    /** `keys`: a full scan of the key column. Every key comes back exactly
        once, in an order the database chooses. */
    method Keys() returns (ks: seq<string>)
      ensures Lists(ks, rows)
      ensures |ks| == Size()
    {
      ks := [];
      var pending := rows.Keys;
      while pending != {}
        invariant pending <= rows.Keys
        invariant Distinct(ks)
        invariant forall i :: 0 <= i < |ks| ==> ks[i] in rows && ks[i] !in pending
        invariant forall k :: k in rows ==> k in pending || k in ks
        decreases pending
      {
        var k :| k in pending;
        ks := ks + [k];
        pending := pending - {k};
      }
      ListingLength(ks, rows);
    }

    /** `values`: the deserialized value column, one value per row, in an
        order the database chooses. */
    method Values() returns (vs: seq<Value>)
      ensures exists order :: Lists(order, rows) && vs == ValuesAlong(rows, codec.parse, order)
      ensures |vs| == Size()
    {
      var order := Keys();
      vs := ValuesAlong(rows, codec.parse, order);
    }

    /** `entries`: every row as a `(key, value)` pair with its value
        deserialized, in an order the database chooses; as a set they are
        exactly the decoded rows, and no key appears twice. */
    method Entries() returns (es: seq<(string, Value)>)
      ensures exists order :: Lists(order, rows) && es == EntriesAlong(rows, codec.parse, order)
      ensures |es| == Size()
      ensures forall i, j :: 0 <= i < j < |es| ==> es[i].0 != es[j].0
      ensures forall e :: e in es <==> e.0 in rows && e.1 == codec.parse(rows[e.0])
    {
      var order := Keys();
      es := EntriesAlong(rows, codec.parse, order);
      EntriesAreRows(rows, codec.parse, order);
    }
  }

  /** The constructor `new SimpleKV(options)`. It throws on a table name with
      a character outside `[A-Za-z0-9_]`; otherwise it keeps the name, picks
      the path and runs `CREATE TABLE IF NOT EXISTS` with the bare name, which
      throws when the engine refuses that name. `engine` is the database's
      verdict on the name; `stored` is what the database file already holds
      under that table name, if anything. */
  method Open<Value(!new)>(options: StoreOptions, codec: Codec<Value>, engine: Engine, stored: Option<Table>)
    returns (r: Result<SimpleKV<Value>, KVError>)
    requires RoundTrips(codec)
    ensures r.Failure? <==> !ValidTableName(options.name) || !engine.acceptsBareTableName(options.name)
    ensures !ValidTableName(options.name) ==> r == Failure(InvalidTableName(options.name))
    ensures ValidTableName(options.name) && !engine.acceptsBareTableName(options.name) ==>
      r == Failure(TableCreationFailed(options.name))
    ensures r.Success? ==> fresh(r.value) && r.value.Valid()
    ensures r.Success? ==> r.value.name == options.name && r.value.path == ResolvePath(options.path)
    ensures r.Success? ==> r.value.codec == codec && r.value.engine == engine
    ensures r.Success? ==> r.value.rows == if stored.Some? then stored.value else map[]
  {
    var config := Configure(options);
    if config.Failure? {
      return Failure(config.error);
    }
    if !engine.acceptsBareTableName(config.value.name) {
      return Failure(TableCreationFailed(options.name));
    }
    var kv := new SimpleKV(config.value, codec, engine, stored);
    r := Success(kv);
  }

  /** The name check does not make construction succeed: the empty name, the
      reserved words, and checked names starting with a digit or `sqlite_` pass
      the check, and the engine still refuses them, so construction fails with
      `TableCreationFailed`. */
  lemma CheckedNamesTheEngineRefuses(e: Engine, name: string)
    requires RefusesMalformed(e)
    requires name == "" || name in ReservedWords
      || ((StartsWithDigit(name) || HasReservedPrefix(name)) && ValidTableName(name))
    ensures ValidTableName(name) && !e.acceptsBareTableName(name)
  {
    if name in ReservedWords {
      ReservedWordsPassCheck(name);
    }
  }

  /** Each reserved word is made of letters only, so the name check lets it through. */
  lemma ReservedWordsPassCheck(w: string)
    requires w in ReservedWords
    ensures ValidTableName(w)
  {
    if w == "select" {
      assert ValidTableName("select");
    } else if w == "table" {
      assert ValidTableName("table");
    } else if w == "create" {
      assert ValidTableName("create");
    } else if w == "from" {
      assert ValidTableName("from");
    } else {
      assert ValidTableName("where");
    }
  }
}
