/**
  A table of counts keyed by string, the JavaScript idiom
  `table[key] = (table[key] || 0) + 1` used both for the repetition
  tracker's position fingerprints and for the store's illegal-move counts.
  A key that is absent counts as 0.
 */
module Counter {
  type Counts = map<string, nat>

  function Count(t: Counts, key: string): nat {
    if key in t then t[key] else 0
  }

  /** `table[key] = (table[key] || 0) + 1`: one more for `key`, every other count as it was. */
  function Bump(t: Counts, key: string): (t': Counts)
    ensures Count(t', key) == Count(t, key) + 1
    ensures forall k :: k != key ==> Count(t', k) == Count(t, k)
    ensures t'.Keys == t.Keys + {key}
  {
    t[key := Count(t, key) + 1]
  }

  /** Bumping never lowers a count. */
  lemma BumpMonotone(t: Counts, key: string, k: string)
    ensures Count(t, k) <= Count(Bump(t, key), k)
  {
  }
}
