/** The slice helpers of the backend. */
module Slices {

  predicate NoDup<T(==)>(s: seq<T>) {
    forall i, j | 0 <= i < j < |s| :: s[i] != s[j]
  }

  /** `s` without its first `x`. */
  function RemoveFirst<T(==)>(s: seq<T>, x: T): seq<T> {
    if s == [] then []
    else if s[0] == x then s[1..]
    else [s[0]] + RemoveFirst(s[1..], x)
  }

  method Contains<T(==)>(slice: seq<T>, val: T) returns (found: bool)
    ensures found <==> val in slice
  {
    var i := 0;
    while i < |slice|
      invariant 0 <= i <= |slice| && val !in slice[..i]
    {
      if slice[i] == val {
        return true;
      }
      i := i + 1;
    }
    found := false;
  }

  /** Deletes in place: the elements behind the first `target` of `a[..n]` move one position down.
      Position `n - 1` keeps a stale copy, as the backing array of a Go slice does. */
  method Remove<T(==)>(a: array<T>, n: nat, target: T) returns (m: nat)
    requires n <= a.Length
    modifies a
    ensures m <= n && a[..m] == RemoveFirst(old(a[..n]), target)
    ensures a[n..] == old(a[n..]) && (0 < n ==> a[n - 1] == old(a[n - 1]))
  {
    var i := 0;
    while i < n
      invariant 0 <= i <= n && target !in a[..i] && a[..] == old(a[..])
    {
      if a[i] == target {
        ghost var s := a[..n];
        FirstAt(s, i);
        var k := i;
        while k + 1 < n
          invariant i <= k < n
          invariant forall j | 0 <= j < a.Length :: a[j] == if i <= j < k then old(a[j + 1]) else old(a[j])
        {
          a[k] := a[k + 1];
          k := k + 1;
        }
        assert a[..n - 1] == s[..i] + s[i + 1..];
        return n - 1;
      }
      i := i + 1;
    }
    AbsentStays(a[..n], target);
    m := n;
  }

  /** `Remove` on a slice of its own: the value the caller assigns back. */
  method Removed<T(==)>(container: seq<T>, target: T) returns (r: seq<T>)
    ensures r == RemoveFirst(container, target)
  {
    var backing := new T[|container|](i requires 0 <= i < |container| => container[i]);
    assert backing[..] == container && backing[..backing.Length] == container;
    var m := Remove(backing, backing.Length, target);
    r := backing[..m];
  }

  lemma {:induction false} FirstAt<T>(s: seq<T>, i: nat)
    requires i < |s| && s[i] !in s[..i]
    ensures RemoveFirst(s, s[i]) == s[..i] + s[i + 1..]
  {
    if i > 0 {
      assert s[0] in s[..i];
      assert s[1..][..i - 1] == s[1..i];
      FirstAt(s[1..], i - 1);
      assert s[..i] == [s[0]] + s[1..i];
    }
  }

  lemma {:induction false} AbsentStays<T>(s: seq<T>, x: T)
    requires x !in s
    ensures RemoveFirst(s, x) == s
  {
    if s != [] {
      AbsentStays(s[1..], x);
    }
  }

  /** What is removed: the first occurrence, or nothing. */
  lemma RemovesFirst<T>(s: seq<T>, x: T)
    ensures x !in s ==> RemoveFirst(s, x) == s
    ensures x in s ==>
              exists i :: 0 <= i < |s| && s[i] == x && x !in s[..i] && RemoveFirst(s, x) == s[..i] + s[i + 1..]
  {
    if x in s {
      var i := FirstIndex(s, x);
      FirstAt(s, i);
    } else {
      AbsentStays(s, x);
    }
  }

  lemma {:induction false} FirstIndex<T>(s: seq<T>, x: T) returns (i: nat)
    requires x in s
    ensures i < |s| && s[i] == x && x !in s[..i]
  {
    if s[0] == x {
      i := 0;
    } else {
      assert s == [s[0]] + s[1..];
      var r := FirstIndex(s[1..], x);
      i := r + 1;
      assert s[..i] == [s[0]] + s[1..][..r];
    }
  }

  /** Exactly one occurrence goes, if there is one. */
  lemma {:induction false} RemoveFirstCounts<T>(s: seq<T>, x: T)
    ensures multiset(RemoveFirst(s, x)) == multiset(s) - multiset{x}
  {
    if s != [] {
      assert s == [s[0]] + s[1..];
      RemoveFirstCounts(s[1..], x);
    }
  }
}
