# simple-kv in Dafny

A model of `SimpleKV`, a typed key-value store over one table of an embedded
SQLite database. A store handle is constructed with a table name and an
optional file path. The name must consist only of `[A-Za-z0-9_]`. A missing or
empty path falls back to a default location. The handle then offers `get`,
`set`, `ensure`, `has`, `delete`, `clear`, `keys`, `values`, `entries` and
`size` over a `(key TEXT PRIMARY KEY, value TEXT)` table, storing each value
as the text a serializer makes of it.

The model has these modules:

- `TableName` (`table_name.dfy`): the name check `/[^a-zA-Z0-9_]/.test(name)`, as a left-to-right search for an offending character.
- `Options` (`options.dfy`): the constructor's options, the `path || default` choice, and `Configure`, the validating half of the constructor.
- `Sqlite` (`sqlite.dfy`): the database engine's verdict on the bare table name interpolated into `CREATE TABLE`. It is kept as a parameter. `RefusesMalformed` states the refusals its grammar always makes: the empty name, a leading digit, the `sqlite_` prefix and a few reserved words.
- `Serializer` (`serializer.dfy`): the `stringify`/`parse` pair, kept abstract. Its round trip `parse(stringify(v)) == v` is the hypothesis `RoundTrips`, not an axiom.
- `Rows` (`rows.dfy`): the data table as `map<string, string>`. It also defines what a full-table scan returns: every key once, in an order the database picks.
- `Store` (`store.dfy`): class `SimpleKV<Value>`.
  - The field `rows` stands for the table.
  - Read-only accessors (`Get`, `Has`, `Size`) are functions over that field.
  - Mutating accessors (`Set`, `Delete`, `Clear`, `Ensure`) are methods, each stating the new `rows` in terms of the old.
  - The scans (`Keys`, `Values`, `Entries`) are methods that return one of the orders the database may choose.
  - `Open` is the throwing constructor. It returns a `Result` that separates the name check's error from the engine's refusal of `CREATE TABLE`.
- `Session` (`session.dfy`): client methods that check, from the contracts alone, set/get/size/delete/has, `ensure` on an absent and then a present key, clear followed by keys, refusing `"users; DROP"`, the engine refusing `""` and `"1a"`, and a second handle opened on the same stored rows.

Two points about the code:

- The constructor throws a plain `Error("Invalid table name: …")` (src/index.ts:19), modelled as `KVError.InvalidTableName(name)`. An error the engine raises from `CREATE TABLE` (src/index.ts:35-37) is modelled as `KVError.TableCreationFailed(name)`.
- The default path is `resolve(process.cwd(), "data", "kv.db")`. The model keeps `data/kv.db` as `Options.DefaultPath`.

## Model

| member | source | states |
|---|---|---|
| `TableName.HasInvalidChar` | src/index.ts:18 | the regex test is true exactly when some character of the name lies outside `[a-zA-Z0-9_]` |
| `TableName.EmptyNameAccepted` | src/index.ts:18-20 | the empty name passes the check, since the regex finds nothing |
| `TableName.SqlMetacharRejected` | src/index.ts:18-20 | a name containing a space, `;`, a quote, `-`, `(`, `)` or `.` anywhere is refused |
| `Options.ResolvePath` | src/index.ts:23 | a non-empty given path is kept; an empty or missing one becomes the default; the result is never empty |
| `Options.Configure` | src/index.ts:17-23 | fails with the offending name exactly when the name contains a character outside the class; otherwise keeps the name (now known valid) and the resolved path |
| `Rows.ValuesAlong` | src/index.ts:99-104 | the value column along a listing has one element per key, the parse of that key's text |
| `Rows.EntriesAlong` | src/index.ts:106-113 | the entries along a listing pair each key with the parse of its text, one per key |
| `Rows.Pairs` | src/index.ts:106-113 | the decoded rows, as a set of `(key, value)` pairs, have exactly as many elements as the table has rows, since no two rows share a key |
| `Rows.PairsCard` | src/index.ts:36 | decoding keeps the key, so distinct rows decode to distinct pairs and the set of pairs has one element per row |
| `Rows.ListingLength` | src/index.ts:92-97 | a scan that lists each key once has exactly as many elements as the table has rows |
| `Rows.ListingOfEmpty` | src/index.ts:88-97 | the only scan of an empty table is empty |
| `Rows.EntriesAreRows` | src/index.ts:106-113 | the entries of a scan, as a set, are exactly the decoded rows |
| `Store.SimpleKV.constructor` | src/index.ts:31-37 | runs only for a name that passed the check and that the engine took in `CREATE TABLE`; keeps the rows already stored under that table name, or starts empty; name, path, serializer and engine are kept |
| `Store.SimpleKV.Get` | src/index.ts:53-64 | returns the absent value exactly when no row has the key, and otherwise the parse of that row's text |
| `Store.SimpleKV.Has` | src/index.ts:115-122 | true exactly when a row has the key, i.e. exactly when `get` returns a value |
| `Store.SimpleKV.Size` | src/index.ts:124-131 | the number of rows; zero exactly when the table is empty |
| `Store.SimpleKV.Set` | src/index.ts:66-72 | upsert: `get(key)` then returns the value, every other key reads as before, and the row count grows by one only for a new key |
| `Store.SimpleKV.Delete` | src/index.ts:82-86 | removes only that key; `has(key)` is false afterwards; an absent key leaves the table unchanged; the count drops by one only for a present key |
| `Store.SimpleKV.Clear` | src/index.ts:88-90 | the table is empty, `size` is 0 and no key is present |
| `Store.SimpleKV.Ensure` | src/index.ts:74-80 | an absent key is stored with the default and the default is returned; a present key leaves the table unchanged and its value is returned; afterwards the key is present and `get` returns the result |
| `Store.SimpleKV.Keys` | src/index.ts:92-97 | returns every key exactly once, in some order, as many as `size` |
| `Store.SimpleKV.Values` | src/index.ts:99-104 | returns the parsed value of every row, one per row, along some listing of the keys; as many as `size` |
| `Store.SimpleKV.Entries` | src/index.ts:106-113 | returns `(key, parse(text))` for every row, one per row, with distinct keys; a pair is returned exactly when it is a decoded row |
| `Store.Open` | src/index.ts:17-37 | construction fails exactly when the name check fails or the engine refuses the bare name in `CREATE TABLE`; with `InvalidTableName` in the first case, checked first, and `TableCreationFailed` in the second; otherwise it yields a fresh valid handle with that name, the resolved path, the serializer and the stored rows |
| `Store.CheckedNamesTheEngineRefuses` | src/index.ts:18-37 | the empty name, the reserved words, and checked names starting with a digit or `sqlite_` pass the name check, yet an engine with the grammar's refusals rejects them, so construction fails |

## Left out

- SQLite itself is not modelled. That covers the connection, prepared statements, SQL text, and the `synchronous` and `journal_mode` pragmas (src/index.ts:26-29). Each statement is modelled only by its effect on `rows`. Storage-engine errors (I/O, corruption) are not modelled, and every accessor succeeds.
- Store.Open: the engine's acceptance of a bare table name is a parameter, since SQLite's grammar is not modelled. Only the refusals in `Sqlite.RefusesMalformed` are stated about it. Failures to open the database file (src/index.ts:25-26) are not modelled.
- Store.SimpleKV.constructor: takes the engine's acceptance of the name as a precondition, because in the source a refusal throws from `CREATE TABLE` before any handle exists. `Store.Open` models that failing path.
- The `internal::autonum` table (src/index.ts:31-33) is not modelled: no operation reads or writes it.
- `ensurePath` (src/index.ts:44-51) is not modelled. Its `:memory:` check and directory creation are filesystem I/O.
- The database file is a parameter. What it already holds under the table name is the `stored` argument of `Open`.
- Store.Open: does not resolve the default path against `process.cwd()`, since that is process I/O. `DefaultPath` is the relative part `data/kv.db`.
- The process-exit hook that closes the connection (src/index.ts:39-41) is not modelled; it is process-lifecycle plumbing.
- The internals of `better-serialize` are not modelled. `parse` is total, so deserialization failures of text not written by this store are not modelled.
- Store.SimpleKV.Get: the source's `get` returns `undefined` both for a missing row and for a stored value that parses to `undefined`; the model's `Option` keeps the two apart.
- Concurrent writers and several handles on one file racing are not modelled. That includes the non-atomic check-then-set of `ensure`, which is left to the database engine. The `Session.Reopen` client covers only a second handle opened on a snapshot of the stored rows.
- The enumeration order of `keys`, `values` and `entries` is not modelled, because the database determines it. Each scan's contract holds for every order in which it could return the keys.
- The fixed width of the JavaScript `number` returned by `size` is not modelled. Sizes are unbounded naturals.
