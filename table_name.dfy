/** The check a table name must pass before it is interpolated into SQL text:
    the name is refused as soon as it contains one character outside the class
    `[A-Za-z0-9_]` (src/index.ts:18-20). */
module TableName {

  /** A character of the class `[a-zA-Z0-9_]`. */
  predicate IsNameChar(c: char) {
    ('a' <= c <= 'z') || ('A' <= c <= 'Z') || ('0' <= c <= '9') || c == '_'
  }

  /** What the regular expression `/[^a-zA-Z0-9_]/` finds when it is tested
      against `s`: some character of `s` falls outside the class. The search
      walks the string from the left, as the regex engine does. */
  function HasInvalidChar(s: string): (found: bool)
    ensures found <==> exists i :: 0 <= i < |s| && !IsNameChar(s[i])
  {
    if s == [] then false
    else if !IsNameChar(s[0]) then true
    else
      var rest := HasInvalidChar(s[1..]);
      assert forall i :: 0 < i < |s| ==> s[i] == s[1..][i - 1];
      rest
  }

  /** A name is accepted exactly when the regex finds no offending character. */
  predicate ValidTableName(name: string)
  {
    !HasInvalidChar(name)
  }

  /** The empty string is accepted: the regex finds nothing to object to.
      (The engine still refuses it as a table name; see `Sqlite`.) */
  lemma EmptyNameAccepted()
    ensures ValidTableName("")
  {
  }

  /** A name holding a space, a semicolon, a quote, a dash or a parenthesis
      anywhere is refused, so `"users; DROP"` or `"my table"` cannot reach the
      SQL text. */
  lemma SqlMetacharRejected(name: string, i: nat)
    requires i < |name|
    requires name[i] in {' ', ';', '\'', '"', '-', '(', ')', '.'}
    ensures !ValidTableName(name)
  {
  }
}
