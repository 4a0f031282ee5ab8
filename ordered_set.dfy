/**
 * A JavaScript `Set` of connected push clients: distinct elements kept in insertion order, which
 * is the order `forEach` visits them in.
 */
module OrderedSets {
  import opened Seqs

  /** `set.add(x)`: appends a new element; adding an element already present changes nothing. */
  function Add<T(==)>(s: seq<T>, x: T): (r: seq<T>)
    ensures x in r
    ensures x in s ==> r == s
    ensures x !in s ==> r == s + [x]
    ensures Distinct(s) ==> Distinct(r)
  {
    if x in s then s else s + [x]
  }

  /** `set.delete(x)`: the element leaves, the others keep their order; deleting an absent element changes nothing. */
  function Delete<T(==,!new)>(s: seq<T>, x: T): (r: seq<T>)
    ensures x !in r
    ensures Distinct(s) ==> Distinct(r)
  {
    Remove(s, x)
  }

  /** Adding twice is adding once, and deleting twice is deleting once. */
  lemma AddDeleteIdempotent<T(!new)>(s: seq<T>, x: T)
    ensures Add(Add(s, x), x) == Add(s, x)
    ensures Delete(Delete(s, x), x) == Delete(s, x)
  {
  }
}
