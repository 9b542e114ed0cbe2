/** What the embedded database engine decides about the statement
    `CREATE TABLE IF NOT EXISTS <name> (key TEXT PRIMARY KEY, value TEXT)`,
    in which the table name is interpolated without quoting
    (src/index.ts:35-37). The engine is a foreign library: its verdict is a
    parameter, and only the refusals that follow from its grammar for any
    input are stated about it. */
module Sqlite {

  /** The engine's verdict on a bare table name in `CREATE TABLE`. */
  datatype Engine = Engine(acceptsBareTableName: string -> bool)

  /** A name whose first character is a digit is read as a number, or as an
      unrecognized token, not as an identifier. */
  predicate StartsWithDigit(name: string) {
    |name| > 0 && '0' <= name[0] <= '9'
  }

  /** A name of the form `sqlite_…`, reserved by the engine for its own tables. */
  predicate HasReservedPrefix(name: string) {
    |name| >= 7 && name[..7] == "sqlite_"
  }

  /** Words the engine's grammar never takes as a bare table name. */
  const ReservedWords: set<string> := {"select", "table", "create", "from", "where"}

  /** The refusals every version of the engine makes: with no name, the
      statement reads `CREATE TABLE IF NOT EXISTS  (…)`, a syntax error; a
      leading digit, a reserved word and the `sqlite_` prefix are refused too. */
  ghost predicate RefusesMalformed(e: Engine) {
    && !e.acceptsBareTableName("")
    && (forall name :: StartsWithDigit(name) ==> !e.acceptsBareTableName(name))
    && (forall name :: HasReservedPrefix(name) ==> !e.acceptsBareTableName(name))
    && (forall w :: w in ReservedWords ==> !e.acceptsBareTableName(w))
  }
}
