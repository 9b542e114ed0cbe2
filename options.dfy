/** The options a store is constructed with and the validation and default
    path choice the constructor applies to them (src/index.ts:7-10, 17-23). */
module Options {
  import opened Wrappers
  import opened TableName

  /** `SimpleKVOptions`: a required table name and an optional file path. */
  datatype StoreOptions = StoreOptions(name: string, path: Option<string>)

  /** The name and path a constructed store keeps. */
  datatype Config = Config(name: string, path: string)

  /** The constructor's errors: the table name failed the check
      (src/index.ts:19), or the engine refused the `CREATE TABLE` statement the
      name was interpolated into (src/index.ts:35-37). */
  datatype KVError = InvalidTableName(name: string) | TableCreationFailed(name: string)

  /** The default location `data/kv.db`, relative to the working directory. */
  const DefaultPath: string := "data/kv.db"

  /** `options.path || default`: a missing or empty path is falsy and is
      replaced by the default; any other path is kept as given. */
  function ResolvePath(path: Option<string>): (p: string)
    ensures p != ""
    ensures path.Some? && path.value != "" ==> p == path.value
    ensures path.None? || path.value == "" ==> p == DefaultPath
  {
    if path.Some? && path.value != "" then path.value else DefaultPath
  }

  /** The validation half of the constructor: the name is checked first and
      the construction fails with the offending name; otherwise the name is
      kept and the path is resolved. */
  function Configure(options: StoreOptions): (r: Result<Config, KVError>)
    ensures r.Failure? <==> exists i :: 0 <= i < |options.name| && !IsNameChar(options.name[i])
    ensures r.Failure? ==> r.error == InvalidTableName(options.name)
    ensures r.Success? ==> r.value.name == options.name && ValidTableName(r.value.name)
    ensures r.Success? ==> r.value.path == ResolvePath(options.path)
  {
    if HasInvalidChar(options.name) then Failure(InvalidTableName(options.name))
    else Success(Config(options.name, ResolvePath(options.path)))
  }
}
