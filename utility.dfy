/** `get_missing_items`: the items of a target list that a reference list lacks. */
module Utility {
  import opened Py

  /** The items of `target` that do not occur in `reference`, in target
      order, repetitions kept. */
  function Missing<T(==,!new)>(reference: seq<T>, target: seq<T>): (m: seq<T>)
    ensures |m| <= |target|
    ensures forall x :: x in m <==> x in target && x !in reference
  {
    if target == [] then []
    else
      assert forall x :: x in target <==> x == target[0] || x in target[1..];
      (if target[0] in reference then [] else [target[0]]) + Missing(reference, target[1..])
  }

  /** Each missing item is kept as often as the target lists it. */
  lemma {:induction false} MissingCounts<T(!new)>(reference: seq<T>, target: seq<T>, x: T)
    ensures multiset(Missing(reference, target))[x] == if x in reference then 0 else multiset(target)[x]
  {
    if target != [] {
      MissingCounts(reference, target[1..], x);
      assert target == [target[0]] + target[1..];
    }
  }

  /** Missing items of a longer target: those of the prefix, then the new item if missing. */
  lemma {:induction false} MissingSnoc<T(!new)>(reference: seq<T>, target: seq<T>, x: T)
    ensures Missing(reference, target + [x]) == Missing(reference, target) + (if x in reference then [] else [x])
  {
    if target == [] {
      assert target + [x] == [x];
    } else {
      assert (target + [x])[0] == target[0];
      assert (target + [x])[1..] == target[1..] + [x];
      MissingSnoc(reference, target[1..], x);
    }
  }

  /** `get_missing_items(reference, target)`: None when every target item
      occurs in the reference, otherwise the non-empty list of the target
      items the reference lacks, in target order, repetitions kept. */
  method GetMissingItems<T(==,!new)>(reference: seq<T>, target: seq<T>) returns (r: Option<seq<T>>)
    ensures r.None? <==> forall x :: x in target ==> x in reference
    ensures r.Some? ==> r.value == Missing(reference, target) && r.value != []
  {
    var missing: seq<T> := [];
    var i := 0;
    while i < |target|
      invariant 0 <= i <= |target|
      invariant missing == Missing(reference, target[..i])
    {
      MissingSnoc(reference, target[..i], target[i]);
      assert target[..i + 1] == target[..i] + [target[i]];
      if target[i] !in reference {
        missing := missing + [target[i]];
      }
      i := i + 1;
    }
    assert target[..i] == target;
    if |missing| == 0 {
      return None;
    }
    assert missing[0] in target && missing[0] !in reference;
    return Some(missing);
  }
}
