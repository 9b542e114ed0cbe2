/** The data table `(key TEXT PRIMARY KEY, value TEXT)` (src/index.ts:36) as a
    map from key to stored text, and what a full-table scan of it returns:
    every key exactly once, in an order the database chooses. */
module Rows {

  /** The rows of one data table: key is the primary key, so a key has at
      most one stored text. */
  type Table = map<string, string>

  /** No key appears twice in `s`. */
  predicate Distinct(s: seq<string>) {
    forall i, j :: 0 <= i < j < |s| ==> s[i] != s[j]
  }

  /** `order` is a possible result of `SELECT key FROM table`: each key of the
      table exactly once, in some order. */
  predicate Lists(order: seq<string>, t: Table) {
    && Distinct(order)
    && (forall i :: 0 <= i < |order| ==> order[i] in t)
    && (forall k :: k in t ==> k in order)
  }

  /** The texts along a listing decoded by `parse`: `SELECT value` mapped
      through the deserializer. */
  function ValuesAlong<V>(t: Table, parse: string -> V, order: seq<string>): (vs: seq<V>)
    requires forall i :: 0 <= i < |order| ==> order[i] in t
    ensures |vs| == |order|
    ensures forall i :: 0 <= i < |order| ==> vs[i] == parse(t[order[i]])
    decreases |order|
  {
    if order == [] then []
    else [parse(t[order[0]])] + ValuesAlong(t, parse, order[1..])
  }

  /** The `(key, parse(value))` pairs along a listing: `SELECT key, value`
      mapped through the deserializer. */
  function EntriesAlong<V>(t: Table, parse: string -> V, order: seq<string>): (es: seq<(string, V)>)
    requires forall i :: 0 <= i < |order| ==> order[i] in t
    ensures |es| == |order|
    ensures forall i :: 0 <= i < |order| ==> es[i] == (order[i], parse(t[order[i]]))
    decreases |order|
  {
    if order == [] then []
    else [(order[0], parse(t[order[0]]))] + EntriesAlong(t, parse, order[1..])
  }

  /** The decoded contents of the table as a set of pairs: one pair per row,
      since no two rows share a key. */
  function Pairs<V(==)>(t: Table, parse: string -> V): (ps: set<(string, V)>)
    ensures |ps| == |t|
  {
    PairsCard(t, parse);
    set k | k in t :: (k, parse(t[k]))
  }

  /** Decoding keeps the key, so distinct rows give distinct pairs. */
  lemma {:induction false} PairsCard<V>(t: Table, parse: string -> V)
    ensures |set k | k in t :: (k, parse(t[k]))| == |t|
    decreases |t|
  {
    if t != map[] {
      var k :| k in t;
      var rest := t - {k};
      PairsCard(rest, parse);
      var s := set j | j in t :: (j, parse(t[j]));
      var s' := set j | j in rest :: (j, parse(rest[j]));
      forall p | p in s ensures p in s' + {(k, parse(t[k]))} {
        var j :| j in t && p == (j, parse(t[j]));
        if j != k { assert j in rest; }
      }
      assert s == s' + {(k, parse(t[k]))};
      assert (k, parse(t[k])) !in s';
    }
  }

  /** A sequence without repetitions has as many elements as its set. */
  lemma {:induction false} DistinctCard(s: seq<string>)
    requires Distinct(s)
    ensures |set x | x in s| == |s|
  {
    if s != [] {
      var tail := s[1..];
      assert Distinct(tail) by {
        forall i, j | 0 <= i < j < |tail| ensures tail[i] != tail[j] {
          assert tail[i] == s[i + 1] && tail[j] == s[j + 1];
        }
      }
      DistinctCard(tail);
      assert s[0] !in tail by {
        forall i | 0 <= i < |tail| ensures tail[i] != s[0] {
          assert tail[i] == s[i + 1];
        }
      }
      assert (set x | x in s) == {s[0]} + (set x | x in tail) by {
        assert s == [s[0]] + tail;
      }
    }
  }

  /** A listing has exactly one element per row: `keys().length == size`. */
  lemma ListingLength(order: seq<string>, t: Table)
    requires Lists(order, t)
    ensures |order| == |t|
  {
    DistinctCard(order);
    assert (set x | x in order) == t.Keys;
  }

  /** The only listing of an empty table is the empty sequence. */
  lemma ListingOfEmpty(order: seq<string>, t: Table)
    requires t == map[]
    requires Lists(order, t)
    ensures order == []
  {
    ListingLength(order, t);
  }

  /** The pairs of a listing are exactly the decoded rows of the table. */
  lemma EntriesAreRows<V>(t: Table, parse: string -> V, order: seq<string>)
    requires Lists(order, t)
    ensures (set e | e in EntriesAlong(t, parse, order)) == Pairs(t, parse)
  {
  }
}
