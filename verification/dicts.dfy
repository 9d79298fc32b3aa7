/** Python's dictionary comprehension `{key(x): value(x) for x in xs}`
    (equivalently `dict((key(x), value(x)) for x in xs)`): entries are
    inserted in order, so a later element overwrites an earlier one with the
    same key. */
module Dicts {

  /** The dictionary built from `xs`, inserting one entry per element in order. */
  function DictBy<T, K, V>(xs: seq<T>, key: T -> K, value: T -> V): map<K, V>
  {
    if |xs| == 0 then map[]
    else
      var last := xs[|xs| - 1];
      DictBy(xs[..|xs| - 1], key, value)[key(last) := value(last)]
  }

  /** The keys are exactly the keys of the elements. */
  lemma {:induction false} DictByKeys<T, K, V>(xs: seq<T>, key: T -> K, value: T -> V)
    ensures DictBy(xs, key, value).Keys == set i | 0 <= i < |xs| :: key(xs[i])
  {
    if |xs| > 0 {
      var n := |xs| - 1;
      var front := xs[..n];
      DictByKeys(front, key, value);
      assert (set i | 0 <= i < |xs| :: key(xs[i]))
          == (set i | 0 <= i < n :: key(front[i])) + {key(xs[n])} by {
        assert forall i | 0 <= i < n :: front[i] == xs[i];
      }
    }
  }

  /** An element with no later element of the same key decides that key's
      value: the last insertion wins. */
  lemma {:induction false} DictByLastWins<T, K, V>(xs: seq<T>, key: T -> K, value: T -> V, i: int)
    requires 0 <= i < |xs|
    requires forall j | i < j < |xs| :: key(xs[j]) != key(xs[i])
    ensures key(xs[i]) in DictBy(xs, key, value)
         && DictBy(xs, key, value)[key(xs[i])] == value(xs[i])
  {
    var n := |xs| - 1;
    if i < n {
      var front := xs[..n];
      assert front[i] == xs[i];
      assert forall j | i < j < n :: front[j] == xs[j];
      DictByLastWins(front, key, value, i);
    }
  }
}
