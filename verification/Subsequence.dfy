/** Partial deep equality of lists: the greedy subsequence test
    (crates/runtime/src/builtin/assert.js:1591-1618). */
module Subsequence {

  /** Increasing positions of `actual` whose values match `expected` one by one. */
  ghost predicate Embeds<A, B>(actual: seq<A>, expected: seq<B>, compare: (A, B) -> bool, at: seq<nat>) {
    && |at| == |expected|
    && (forall i :: 0 <= i < |at| ==> at[i] < |actual| && compare(actual[at[i]], expected[i]))
    && (forall i, j :: 0 <= i < j < |at| ==> at[i] < at[j])
  }

  ghost predicate IsEmbedded<A, B>(actual: seq<A>, expected: seq<B>, compare: (A, B) -> bool) {
    exists at: seq<nat> :: Embeds(actual, expected, compare, at)
  }

  lemma {:induction false} PositionsGrow(at: seq<nat>, i: nat)
    requires i < |at| && forall i, j :: 0 <= i < j < |at| ==> at[i] < at[j]
    ensures i <= at[i]
  {
    if i > 0 {
      PositionsGrow(at, i - 1);
    }
  }

  /** No embedding gets ahead of the greedy positions. */
  ghost predicate Earliest<A, B>(actual: seq<A>, expected: seq<B>, compare: (A, B) -> bool, found: seq<nat>) {
    forall at: seq<nat> :: Embeds(actual, expected, compare, at) ==>
      |found| <= |at| && forall k :: 0 <= k < |found| ==> found[k] <= at[k]
  }

  lemma EarliestGrows<A, B>(actual: seq<A>, expected: seq<B>, compare: (A, B) -> bool, found: seq<nat>,
      start: nat, j: nat)
    requires |found| < |expected| && Earliest(actual, expected, compare, found)
    requires start == if found == [] then 0 else found[|found| - 1] + 1
    requires forall k :: start <= k < j && k < |actual| ==> !compare(actual[k], expected[|found|])
    ensures Earliest(actual, expected, compare, found + [j])
  {
    forall at: seq<nat> | Embeds(actual, expected, compare, at)
      ensures forall k :: 0 <= k < |found| + 1 ==> (found + [j])[k] <= at[k]
    {
      var i := |found|;
      assert i > 0 ==> found[i - 1] <= at[i - 1] < at[i];
      assert compare(actual[at[i]], expected[i]);
    }
  }

  lemma NotAhead<A, B>(actual: seq<A>, expected: seq<B>, compare: (A, B) -> bool, found: seq<nat>, at: seq<nat>, k: nat)
    requires Earliest(actual, expected, compare, found) && Embeds(actual, expected, compare, at) && k < |found|
    ensures k < |at| && found[k] <= at[k]
  {
  }

  /** The greedy choice is right for every relation: true exactly when some embedding exists. */
  method Test<A, B>(actual: seq<A>, expected: seq<B>, compare: (A, B) -> bool) returns (result: bool)
    ensures result <==> IsEmbedded(actual, expected, compare)
  {
    if |actual| < |expected| {
      forall at: seq<nat> | Embeds(actual, expected, compare, at) ensures false {
        PositionsGrow(at, |expected| - 1);
      }
      return false;
    }
    var searchStart := 0;
    ghost var found: seq<nat> := [];
    for i := 0 to |expected|
      invariant Embeds(actual, expected[..i], compare, found) && Earliest(actual, expected, compare, found)
      invariant searchStart == if found == [] then 0 else found[|found| - 1] + 1
    {
      var j := Next(actual, expected[i], compare, searchStart);
      EarliestGrows(actual, expected, compare, found, searchStart, j);
      if j == |actual| {
        forall at: seq<nat> | Embeds(actual, expected, compare, at) ensures false {
          NotAhead(actual, expected, compare, found + [j], at, i);
        }
        return false;
      }
      found := found + [j];
      searchStart := j + 1;
    }
    assert expected[..|expected|] == expected;
    return true;
  }

  /** The inner loop: the first match at or after `start`. */
  method Next<A, B>(actual: seq<A>, wanted: B, compare: (A, B) -> bool, start: nat) returns (j: nat)
    requires start <= |actual|
    ensures start <= j <= |actual| && (j < |actual| ==> compare(actual[j], wanted))
    ensures forall k :: start <= k < j ==> !compare(actual[k], wanted)
  {
    j := start;
    while j < |actual| && !compare(actual[j], wanted)
      invariant start <= j <= |actual| && forall k :: start <= k < j ==> !compare(actual[k], wanted)
    {
      j := j + 1;
    }
  }
}
