/** Clients of the store that use only the contracts of `Store`: the usage
    those contracts promise, written as assertions. */
module Session {
  import opened Wrappers
  import opened TableName
  import opened Options
  import opened Serializer
  import opened Rows
  import opened Sqlite
  import opened Store

  /** A name with `"; DROP"` in it is refused by the check; the empty name
      and `"1a"` pass the check but not the engine; a plain name the engine
      takes, with an empty path, yields a handle on the default path. */
  method OpenExamples<V(!new)>(codec: Codec<V>, engine: Engine)
    requires RoundTrips(codec) && RefusesMalformed(engine)
  {
    SqlMetacharRejected("users; DROP", 5);
    var bad := Open(StoreOptions("users; DROP", None), codec, engine, None);
    assert bad == Failure(InvalidTableName("users; DROP"));

    EmptyNameAccepted();
    var empty := Open(StoreOptions("", None), codec, engine, None);
    assert empty == Failure(TableCreationFailed(""));

    assert ValidTableName("1a");
    CheckedNamesTheEngineRefuses(engine, "1a");
    var digit := Open(StoreOptions("1a", None), codec, engine, None);
    assert digit == Failure(TableCreationFailed("1a"));

    assert ValidTableName("users");
    if engine.acceptsBareTableName("users") {
      var handle := Open(StoreOptions("users", Some("")), codec, engine, None);
      assert handle.Success? && handle.value.path == DefaultPath;
    }
  }

  /** `set("a", v)`, `get("a")`, `size`, `delete("a")`, `has("a")`. */
  method SetGetDelete<V(!new)>(kv: SimpleKV<V>, v: V)
    requires kv.Valid() && kv.rows == map[]
    modifies kv
  {
    assert !kv.Has("a");
    kv.Set("a", v);
    assert kv.Get("a") == Some(v);
    assert kv.Size() == 1;
    kv.Delete("a");
    assert !kv.Has("a");
  }

  /** `ensure` stores its default once and afterwards returns what is
      stored; `clear` then empties the table and `keys` comes back empty. */
  method EnsureThenClear<V(!new)>(kv: SimpleKV<V>, v: V, w: V)
    requires kv.Valid() && !kv.Has("b")
    modifies kv
  {
    var first := kv.Ensure("b", v);
    assert first == v;
    var second := kv.Ensure("b", w);
    assert second == v;

    kv.Clear();
    var ks := kv.Keys();
    ListingOfEmpty(ks, kv.rows);
    assert ks == [] && kv.Size() == 0;
  }

  /** A second handle opened on the rows already stored under the same table
      name sees the same data. */
  method Reopen<V(!new)>(kv: SimpleKV<V>, key: string)
    requires kv.Valid()
  {
    var again := Open(StoreOptions(kv.name, Some(kv.path)), kv.codec, kv.engine, Some(kv.rows));
    assert again.Success?;
    var other := again.value;
    assert other.path == kv.path;
    assert other.Get(key) == kv.Get(key);
  }
}
