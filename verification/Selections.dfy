/** Selecting elements of a list: which ones, how often and in which order. */
module Selections {

  /** `result` lists the elements of `from` at increasing positions. */
  ghost predicate Picks<T>(positions: seq<nat>, from: seq<T>, result: seq<T>) {
    && |positions| == |result|
    && (forall i, j | 0 <= i < j < |positions| :: positions[i] < positions[j])
    && (forall k | 0 <= k < |positions| :: positions[k] < |from| && result[k] == from[positions[k]])
  }

  ghost predicate PickedAll<T>(positions: seq<nat>, from: seq<T>, wanted: T -> bool) {
    forall i: nat | i < |from| :: i in positions <==> wanted(from[i])
  }

  /** `result` has exactly the wanted elements of `from`: one for each of their positions, in order. */
  ghost predicate PicksExactly<T>(result: seq<T>, from: seq<T>, wanted: T -> bool) {
    exists positions :: Picks(positions, from, result) && PickedAll(positions, from, wanted)
  }

  lemma PicksNothing<T>(wanted: T -> bool)
    ensures PicksExactly([], [], wanted)
  {
    var none: seq<nat> := [];
    var empty: seq<T> := [];
    assert Picks(none, empty, empty) && PickedAll(none, empty, wanted);
  }

  lemma PicksNext<T>(result: seq<T>, from: seq<T>, x: T, wanted: T -> bool)
    requires PicksExactly(result, from, wanted)
    ensures PicksExactly(result + if wanted(x) then [x] else [], from + [x], wanted)
  {
    var positions :| Picks(positions, from, result) && PickedAll(positions, from, wanted);
    var more: seq<nat> := if wanted(x) then [|from|] else [];
    assert Picks(positions + more, from + [x], result + if wanted(x) then [x] else []);
    forall i: nat | i < |from + [x]|
      ensures i in positions + more <==> wanted((from + [x])[i])
    {
      if i == |from| {
        assert i !in positions;
      } else {
        assert i !in more;
      }
    }
    assert PickedAll(positions + more, from + [x], wanted);
  }

  /** Another way to say what is wanted. */
  lemma SamePicks<T>(result: seq<T>, from: seq<T>, wanted: T -> bool, wanted': T -> bool)
    requires PicksExactly(result, from, wanted) && forall x | x in from :: wanted(x) <==> wanted'(x)
    ensures PicksExactly(result, from, wanted')
  {
    var positions :| Picks(positions, from, result) && PickedAll(positions, from, wanted);
    forall i: nat | i < |from|
      ensures i in positions <==> wanted'(from[i])
    {
      assert from[i] in from;
    }
    assert PickedAll(positions, from, wanted');
  }

  lemma LastPosition(positions: seq<nat>, n: nat)
    requires forall i, j | 0 <= i < j < |positions| :: positions[i] < positions[j]
    requires forall k | 0 <= k < |positions| :: positions[k] <= n
    ensures n in positions ==> |positions| > 0 && positions[|positions| - 1] == n
  {
    if n in positions {
      var k :| 0 <= k < |positions| && positions[k] == n;
    }
  }

  lemma PickedBefore<T>(positions: seq<nat>, from: seq<T>, wanted: T -> bool, m: nat)
    requires PickedAll(positions, from, wanted) && from != [] && m <= |positions|
    requires forall k | m <= k < |positions| :: positions[k] == |from| - 1
    ensures PickedAll(positions[..m], from[..|from| - 1], wanted)
  {
    forall i: nat | i < |from| - 1
      ensures i in positions[..m] <==> wanted(from[..|from| - 1][i])
    {
      assert i in positions <==> wanted(from[i]);
      assert positions == positions[..m] + positions[m..];
    }
  }

  lemma PicksBefore<T>(positions: seq<nat>, from: seq<T>, result: seq<T>, m: nat)
    requires Picks(positions, from, result) && from != [] && m <= |positions|
    requires forall k | 0 <= k < m :: positions[k] < |from| - 1
    ensures Picks(positions[..m], from[..|from| - 1], result[..m])
  {
  }

  lemma LastWanted<T>(positions: seq<nat>, from: seq<T>, wanted: T -> bool)
    requires PickedAll(positions, from, wanted) && from != []
    ensures |from| - 1 in positions <==> wanted(from[|from| - 1])
  {
  }

  lemma BelowLast(positions: seq<nat>, n: nat)
    requires n !in positions && forall k | 0 <= k < |positions| :: positions[k] <= n
    ensures forall k | 0 <= k < |positions| :: positions[k] < n
  {
    forall k | 0 <= k < |positions|
      ensures positions[k] < n
    {
      assert positions[k] in positions;
    }
  }

  lemma PicksLast<T>(positions: seq<nat>, result: seq<T>, from: seq<T>, wanted: T -> bool)
    requires Picks(positions, from, result) && PickedAll(positions, from, wanted) && from != []
    ensures wanted(from[|from| - 1]) ==>
              result != [] && result[|result| - 1] == from[|from| - 1]
              && PicksExactly(result[..|result| - 1], from[..|from| - 1], wanted)
    ensures !wanted(from[|from| - 1]) ==> PicksExactly(result, from[..|from| - 1], wanted)
  {
    LastPosition(positions, |from| - 1);
    LastWanted(positions, from, wanted);
    if wanted(from[|from| - 1]) {
      PickedBefore(positions, from, wanted, |positions| - 1);
      PicksBefore(positions, from, result, |positions| - 1);
    } else {
      BelowLast(positions, |from| - 1);
      PickedBefore(positions, from, wanted, |positions|);
      PicksBefore(positions, from, result, |positions|);
      assert result[..|result|] == result;
    }
  }

  lemma NothingToPick<T>(positions: seq<nat>, from: seq<T>, result: seq<T>)
    requires Picks(positions, from, result)
    ensures positions != [] ==> from != []
  {
    if positions != [] {
      assert positions[0] < |from|;
    }
  }

  lemma LastCount<T>(s: seq<T>, x: T)
    requires s != []
    ensures multiset(s)[x] == multiset(s[..|s| - 1])[x] + if s[|s| - 1] == x then 1 else 0
  {
    assert s == s[..|s| - 1] + [s[|s| - 1]];
  }

  /** Every wanted element occurs in the result as often as in `from`, and no other one occurs. */
  lemma {:induction false} PicksCounts<T>(result: seq<T>, from: seq<T>, wanted: T -> bool, x: T)
    requires PicksExactly(result, from, wanted)
    ensures multiset(result)[x] == if wanted(x) then multiset(from)[x] else 0
    decreases |from|
  {
    ghost var positions :| Picks(positions, from, result) && PickedAll(positions, from, wanted);
    if from == [] {
      NothingToPick(positions, from, result);
    } else {
      PicksLast(positions, result, from, wanted);
      LastCount(from, x);
      if wanted(from[|from| - 1]) {
        LastCount(result, x);
        PicksCounts(result[..|result| - 1], from[..|from| - 1], wanted, x);
      } else {
        PicksCounts(result, from[..|from| - 1], wanted, x);
      }
    }
  }
}
