/** Searching a sequence in order, as a `for … of` loop with `break` or a
    database `getOne` over rows in store order does. */
module Seqs {
  import opened Wrappers

  /** Index of the first element satisfying `p`, or None when there is none. */
  function FirstIndex<T>(s: seq<T>, p: T -> bool): (r: Option<nat>)
    ensures r.None? <==> forall i | 0 <= i < |s| :: !p(s[i])
    ensures r.Some? ==> r.value < |s| && p(s[r.value])
    ensures r.Some? ==> forall j | 0 <= j < r.value :: !p(s[j])
  {
    if |s| == 0 then None
    else if p(s[0]) then Some(0)
    else
      match FirstIndex(s[1..], p)
      case None => None
      case Some(i) => Some(i + 1)
  }

  /** No element occurs twice. */
  predicate Distinct<T(==)>(s: seq<T>) {
    |s| == 0 || (s[0] !in s[1..] && Distinct(s[1..]))
  }

  /** In a sequence without repeats, different positions hold different
      elements. */
  lemma {:induction false} DistinctIndices<T>(s: seq<T>)
    requires Distinct(s)
    ensures forall i, j | 0 <= i < j < |s| :: s[i] != s[j]
  {
    if |s| > 0 {
      DistinctIndices(s[1..]);
      forall i, j | 0 <= i < j < |s| ensures s[i] != s[j] {
        if i == 0 {
          assert s[j] == s[1..][j - 1];
        } else {
          assert s[i] == s[1..][i - 1] && s[j] == s[1..][j - 1];
        }
      }
    }
  }

  /** Appending a new element keeps a sequence free of repeats. */
  lemma {:induction false} DistinctAppend<T>(s: seq<T>, x: T)
    requires Distinct(s) && x !in s
    ensures Distinct(s + [x])
  {
    if |s| > 0 {
      assert (s + [x])[1..] == s[1..] + [x];
      DistinctAppend(s[1..], x);
    }
  }

  /** Two tests that agree on every element pick the same first index. */
  lemma {:induction false} FirstIndexAgrees<T>(s: seq<T>, p: T -> bool, q: T -> bool)
    requires forall i | 0 <= i < |s| :: p(s[i]) == q(s[i])
    ensures FirstIndex(s, p) == FirstIndex(s, q)
  {
    if |s| > 0 && !p(s[0]) {
      assert forall i | 0 <= i < |s[1..]| :: p(s[1..][i]) == q(s[1..][i]) by {
        forall i | 0 <= i < |s[1..]| ensures p(s[1..][i]) == q(s[1..][i]) {
          assert s[1..][i] == s[i + 1];
        }
      }
      FirstIndexAgrees(s[1..], p, q);
    }
  }
}
