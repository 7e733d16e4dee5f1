/** The engine's input: a count per heir id, keys in the record's iteration order. */
module Quantities {
  import opened Heirs

  /** `HeirQuantities`: the keys in order and the count stored under each. */
  datatype HeirQuantities = HeirQuantities(keys: seq<HeirId>, counts: map<HeirId, nat>)

  /** Keys are listed once each, and exactly the keys of the map are listed. */
  predicate WellFormed(q: HeirQuantities) {
    Distinct(q.keys) && forall h :: h in q.counts <==> h in q.keys
  }

  /** `inputs.h || 0`: the count stored for `h`, or 0 when there is no such key. */
  function Count(q: HeirQuantities, h: HeirId): (n: nat) {
    if h in q.counts then q.counts[h] else 0
  }
}
