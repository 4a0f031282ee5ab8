/** Sequence helpers shared by the insertion-ordered Map and Set models. */
module Seqs {

  /** No element occurs twice. */
  predicate Distinct<T(==)>(s: seq<T>) {
    forall i, j :: 0 <= i < j < |s| ==> s[i] != s[j]
  }

  /** `s` without any occurrence of `x`, the other elements in their original order. */
  function Remove<T(==,!new)>(s: seq<T>, x: T): (r: seq<T>)
    ensures forall y :: y in r <==> y in s && y != x
    ensures x !in s ==> r == s
    ensures x in s && Distinct(s) ==> |r| == |s| - 1
    ensures Distinct(s) ==> Distinct(r)
  {
    if s == [] then []
    else if s[0] == x then Remove(s[1..], x)
    else
      var rest := Remove(s[1..], x);
      assert Distinct(s) ==> s[0] !in s[1..];
      [s[0]] + rest
  }

  /** Removing from a sequence extended by one element removes from the prefix and keeps or drops that element. */
  lemma {:induction false} RemoveSnoc<T(!new)>(s: seq<T>, y: T, x: T)
    ensures Remove(s + [y], x) == Remove(s, x) + (if y == x then [] else [y])
  {
    if s != [] {
      RemoveSnoc(s[1..], y, x);
      assert (s + [y])[1..] == s[1..] + [y];
    }
  }

  /** Removing from `s` the element at index `k` of a distinct sequence is cutting it out. */
  lemma {:induction false} RemoveAt<T(!new)>(s: seq<T>, k: nat)
    requires Distinct(s) && k < |s|
    ensures Remove(s, s[k]) == s[..k] + s[k + 1..]
  {
    if k == 0 {
      assert s[0] !in s[1..];
      assert Remove(s[1..], s[0]) == s[1..];
      assert s[..0] + s[1..] == s[1..];
    } else {
      var t := s[1..];
      assert Distinct(t) by {
        forall i, j | 0 <= i < j < |t| ensures t[i] != t[j] {
          assert t[i] == s[i + 1] && t[j] == s[j + 1];
        }
      }
      assert t[k - 1] == s[k] && s[0] != s[k];
      assert Remove(s, s[k]) == [s[0]] + Remove(t, s[k]);
      RemoveAt(t, k - 1);
      assert t[..k - 1] == s[1..k];
      assert t[k..] == s[k + 1..];
      assert [s[0]] + s[1..k] == s[..k];
    }
  }

  /** Concatenation is associative. */
  lemma AppendAssoc<T>(a: seq<T>, b: seq<T>, c: seq<T>)
    ensures a + b + c == a + (b + c)
  {
  }

  /** A sequence without repetitions has as many elements as the set of its elements. */
  lemma {:induction false} DistinctCardinality<T>(s: seq<T>)
    requires Distinct(s)
    ensures |set x | x in s| == |s|
  {
    if s != [] {
      DistinctCardinality(s[1..]);
      assert (set x | x in s) == {s[0]} + (set x | x in s[1..]);
      assert s[0] !in (set x | x in s[1..]);
    }
  }
}
