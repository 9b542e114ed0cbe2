/** The serialization boundary: a value is stored as the text `stringify`
    makes of it and read back with `parse` (src/index.ts:3). The library's
    internals are not modelled; what the store relies on is the round trip. */
module Serializer {

  /** The `stringify`/`parse` pair for values of type `V`. */
  datatype Codec<!V> = Codec(stringify: V -> string, parse: string -> V)

  /** Every value comes back unchanged from its stored text. */
  ghost predicate RoundTrips<V(!new)>(c: Codec<V>) {
    forall v :: c.parse(c.stringify(v)) == v
  }
}
