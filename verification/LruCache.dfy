/** Sequences of ids ordered by recency. */
module Recency {
  import opened Slices

  /** `s` without the occurrences of `x`. */
  function Without(s: seq<int>, x: int): (r: seq<int>)
    ensures forall y :: y in r <==> y in s && y != x
    ensures |r| <= |s|
  {
    if s == [] then []
    else if s[0] == x then Without(s[1..], x)
    else [s[0]] + Without(s[1..], x)
  }

  function ToFront(s: seq<int>, x: int): seq<int> {
    [x] + Without(s, x)
  }

  function Take(s: seq<int>, n: nat): seq<int> {
    if |s| <= n then s else s[..n]
  }

  /** All ids of a log of uses, the one used last first. */
  function MostRecentFirst(log: seq<int>): seq<int> {
    if log == [] then [] else ToFront(MostRecentFirst(log[..|log| - 1]), log[|log| - 1])
  }

  lemma {:induction false} WithoutAbsent(s: seq<int>, x: int)
    requires x !in s
    ensures Without(s, x) == s
  {
    if s != [] {
      WithoutAbsent(s[1..], x);
    }
  }

  lemma {:induction false} WithoutConcat(a: seq<int>, b: seq<int>, x: int)
    ensures Without(a + b, x) == Without(a, x) + Without(b, x)
  {
    if a == [] {
      assert a + b == b;
    } else {
      assert (a + b)[1..] == a[1..] + b;
      WithoutConcat(a[1..], b, x);
    }
  }

  lemma {:induction false} WithoutNoDup(s: seq<int>, x: int)
    requires NoDup(s)
    ensures NoDup(Without(s, x))
    ensures |Without(s, x)| == if x in s then |s| - 1 else |s|
  {
    if s != [] {
      assert s[0] !in s[1..];
      WithoutNoDup(s[1..], x);
      if s[0] == x {
        WithoutAbsent(s[1..], x);
      }
    }
  }

  lemma TakeWithout(m: seq<int>, k: nat, x: int)
    requires NoDup(m) && k <= |m|
    ensures Without(m, x) == Without(m[..k], x) + Without(m[k..], x)
    ensures NoDup(m[..k]) && NoDup(m[k..])
  {
    assert m == m[..k] + m[k..];
    WithoutConcat(m[..k], m[k..], x);
  }

  /** Moving an id to the front and taking a prefix that contains it commute. */
  lemma TakeToFrontInside(m: seq<int>, n: nat, x: int)
    requires NoDup(m) && x in Take(m, n)
    ensures ToFront(Take(m, n), x) == Take(ToFront(m, x), n)
  {
    if |m| <= n {
      WithoutNoDup(m, x);
    } else {
      TakeWithout(m, n, x);
      WithoutNoDup(m[..n], x);
    }
  }

  /** An id outside the prefix pushes the last element of the prefix out. */
  lemma TakeToFrontOutside(m: seq<int>, n: nat, x: int)
    requires NoDup(m) && n >= 1 && x !in Take(m, n)
    ensures [x] + Take(m, n - 1) == Take(ToFront(m, x), n)
  {
    if |m| <= n {
      WithoutAbsent(m, x);
    } else {
      assert m[..n] == m[..n - 1] + [m[n - 1]];
      TakeWithout(m, n - 1, x);
      WithoutAbsent(m[..n - 1], x);
    }
  }

  /** Position of the last use of `x`. */
  function LastUse(log: seq<int>, x: int): int
    ensures LastUse(log, x) < |log|
    ensures LastUse(log, x) >= 0 <==> x in log
    ensures x in log ==> log[LastUse(log, x)] == x && x !in log[LastUse(log, x) + 1..]
  {
    if log == [] then -1
    else if log[|log| - 1] == x then |log| - 1
    else
      assert x in log <==> x in log[..|log| - 1];
      LastUse(log[..|log| - 1], x)
  }

  /** What the order means: every used id once, and an earlier position is a later last use. */
  lemma {:induction false} MostRecentFirstOrder(log: seq<int>)
    ensures NoDup(MostRecentFirst(log))
    ensures forall x :: x in MostRecentFirst(log) <==> x in log
    ensures forall i, j | 0 <= i < j < |MostRecentFirst(log)| ::
              LastUse(log, MostRecentFirst(log)[i]) > LastUse(log, MostRecentFirst(log)[j])
  {
    if log != [] {
      var init, x := log[..|log| - 1], log[|log| - 1];
      MostRecentFirstOrder(init);
      var m := MostRecentFirst(init);
      WithoutNoDup(m, x);
      assert log == init + [x];
      WithoutKeepsOrder(m, x, init);
      forall y | y in Without(m, x)
        ensures LastUse(log, y) == LastUse(init, y)
      {
      }
    }
  }

  lemma {:induction false} WithoutKeepsOrder(m: seq<int>, x: int, log: seq<int>)
    requires forall i, j | 0 <= i < j < |m| :: LastUse(log, m[i]) > LastUse(log, m[j])
    ensures forall i, j | 0 <= i < j < |Without(m, x)| :: LastUse(log, Without(m, x)[i]) > LastUse(log, Without(m, x)[j])
  {
    if m != [] {
      WithoutKeepsOrder(m[1..], x, log);
      forall y | y in Without(m[1..], x)
        ensures LastUse(log, m[0]) > LastUse(log, y)
      {
        assert y in m[1..];
      }
    }
  }

  /** `a` is obtained from `b` by leaving out elements. */
  ghost predicate Sub(a: seq<int>, b: seq<int>)
    decreases |b|
  {
    a == [] || (b != [] && ((a[0] == b[0] && Sub(a[1..], b[1..])) || Sub(a, b[1..])))
  }

  lemma {:induction false} SubMembers(a: seq<int>, b: seq<int>)
    requires Sub(a, b)
    ensures forall x | x in a :: x in b
    ensures |a| <= |b|
    decreases |b|
  {
    if a != [] {
      assert a == [a[0]] + a[1..];
      if a[0] == b[0] && Sub(a[1..], b[1..]) {
        SubMembers(a[1..], b[1..]);
      } else {
        SubMembers(a, b[1..]);
      }
    }
  }

  lemma {:induction false} SubRefl(a: seq<int>)
    ensures Sub(a, a)
  {
    if a != [] {
      SubRefl(a[1..]);
    }
  }

  lemma SubFront(a: seq<int>, b: seq<int>, x: int)
    requires Sub(a, b)
    ensures Sub([x] + a, [x] + b)
  {
    assert ([x] + a)[1..] == a && ([x] + b)[1..] == b;
  }

  lemma SubSkip(a: seq<int>, b: seq<int>, x: int)
    requires Sub(a, b)
    ensures Sub(a, [x] + b)
  {
    assert ([x] + b)[1..] == b;
  }

  lemma {:induction false} SubWithout(a: seq<int>, b: seq<int>, x: int)
    requires Sub(a, b)
    ensures Sub(Without(a, x), Without(b, x))
    decreases |b|
  {
    if a != [] {
      if a[0] == b[0] && Sub(a[1..], b[1..]) {
        SubWithout(a[1..], b[1..], x);
        if a[0] != x {
          SubFront(Without(a[1..], x), Without(b[1..], x), a[0]);
        }
      } else {
        SubWithout(a, b[1..], x);
        if b[0] != x {
          SubSkip(Without(a, x), Without(b[1..], x), b[0]);
        }
      }
    }
  }

  /** The last element of a subsequence can be dropped, together with the last of the whole or alone. */
  lemma {:induction false} SubInit(a: seq<int>, b: seq<int>)
    requires Sub(a, b) && a != []
    ensures Sub(a[..|a| - 1], b[..|b| - 1])
    ensures Sub(a[..|a| - 1], b)
    decreases |b|
  {
    var a', b' := a[..|a| - 1], b[..|b| - 1];
    if a[0] == b[0] && Sub(a[1..], b[1..]) {
      if |a| > 1 {
        SubMembers(a[1..], b[1..]);
        SubInit(a[1..], b[1..]);
        assert a[1..][..|a| - 2] == a'[1..] && b[1..][..|b| - 2] == b'[1..];
      }
    } else {
      SubMembers(a, b[1..]);
      SubInit(a, b[1..]);
      assert b[1..][..|b| - 2] == b'[1..];
    }
  }
}

/** The job-data cache: a list of items, the most recently used first. */
module LruCache {
  import opened Wrappers
  import opened Jobs
  import opened Recency
  import opened Slices

  datatype Metadata = Metadata(job: Job, tags: set<int>)
  datatype JobData = JobData(metadata: Metadata, series: seq<real>)
  datatype Item = Item(id: int, data: JobData)

  /** One call, with the answer its backend gives in case it is asked. */
  datatype Call =
    | GetCall(id: int, data: Result<JobData>)
    | UpdateCall(id: int, metadata: Result<Metadata>)

  function Ids(l: seq<Item>): seq<int> {
    seq(|l|, i requires 0 <= i < |l| => l[i].id)
  }

  /** The items of `l` with another id, in order. */
  function Others(l: seq<Item>, id: int): seq<Item> {
    if l == [] then []
    else if l[0].id == id then Others(l[1..], id)
    else [l[0]] + Others(l[1..], id)
  }

  lemma {:induction false} OthersIds(l: seq<Item>, id: int)
    ensures Ids(Others(l, id)) == Without(Ids(l), id)
  {
    if l != [] {
      OthersIds(l[1..], id);
      assert Ids(l)[1..] == Ids(l[1..]);
    }
  }

  /** Removing the only item with its id is removing the item at its position. */
  lemma {:induction false} OthersAt(l: seq<Item>, i: nat)
    requires i < |l| && NoDup(Ids(l))
    ensures Others(l, l[i].id) == l[..i] + l[i + 1..]
  {
    assert Ids(l)[0] == l[0].id && Ids(l)[i] == l[i].id;
    assert Ids(l[1..]) == Ids(l)[1..];
    if i == 0 {
      assert l[0].id !in Ids(l[1..]);
      OthersAbsent(l[1..], l[0].id);
    } else {
      OthersAt(l[1..], i - 1);
      assert l[1..][..i - 1] == l[1..i] && l[1..][i..] == l[i + 1..];
      assert l[..i] == [l[0]] + l[1..i];
    }
  }

  lemma {:induction false} OthersAbsent(l: seq<Item>, id: int)
    requires id !in Ids(l)
    ensures Others(l, id) == l
  {
    if l != [] {
      assert Ids(l)[0] == l[0].id && Ids(l[1..]) == Ids(l)[1..];
      OthersAbsent(l[1..], id);
    }
  }

  /** The id list after a call. */
  function IdStep(ids: seq<int>, size: nat, c: Call): seq<int> {
    if c.id in ids then ToFront(ids, c.id)
    else if c.GetCall? && c.data.Ok? then [c.id] + Take(ids, if size > 0 then size - 1 else 0)
    else ids
  }

  function RunIds(size: nat, calls: seq<Call>): seq<int> {
    if calls == [] then [] else IdStep(RunIds(size, calls[..|calls| - 1]), size, calls[|calls| - 1])
  }

  lemma RunSnoc(size: nat, calls: seq<Call>, c: Call)
    ensures RunIds(size, calls + [c]) == IdStep(RunIds(size, calls), size, c)
  {
    assert (calls + [c])[..|calls|] == calls;
  }

  /** The uses a run makes: every successful lookup and every insertion. */
  function Uses(size: nat, calls: seq<Call>): seq<int> {
    if calls == [] then []
    else
      var before, c := calls[..|calls| - 1], calls[|calls| - 1];
      Uses(size, before) + if c.id in RunIds(size, before) || (c.GetCall? && c.data.Ok?) then [c.id] else []
  }

  /** `l` is a list the cache can have after `calls`. */
  ghost predicate ListOk(size: nat, calls: seq<Call>, l: seq<Item>) {
    size >= 1 && NoDup(Ids(l)) && |l| <= size && Ids(l) == RunIds(size, calls)
  }

  lemma AfterHit(size: nat, calls: seq<Call>, l: seq<Item>, item: Item, c: Call)
    requires ListOk(size, calls, l) && item.id == c.id && c.id in Ids(l)
    ensures ListOk(size, calls + [c], [item] + Others(l, c.id))
  {
    RunSnoc(size, calls, c);
    OthersIds(l, c.id);
    WithoutNoDup(Ids(l), c.id);
    assert Ids([item] + Others(l, c.id)) == [item.id] + Ids(Others(l, c.id));
    assert |Ids(Others(l, c.id))| == |Others(l, c.id)|;
  }

  lemma AfterInsert(size: nat, calls: seq<Call>, l: seq<Item>, item: Item, c: Call)
    requires ListOk(size, calls, l) && item.id == c.id && c.id !in Ids(l) && c.GetCall? && c.data.Ok?
    ensures ListOk(size, calls + [c], [item] + if |l| >= size then l[..|l| - 1] else l)
  {
    RunSnoc(size, calls, c);
    var rest := if |l| >= size then l[..|l| - 1] else l;
    assert Ids(rest) == Take(Ids(l), size - 1);
    assert Ids([item] + rest) == [item.id] + Ids(rest);
  }

  lemma AfterMiss(size: nat, calls: seq<Call>, l: seq<Item>, c: Call)
    requires ListOk(size, calls, l) && c.id !in Ids(l) && !(c.GetCall? && c.data.Ok?)
    ensures ListOk(size, calls + [c], l)
  {
    RunSnoc(size, calls, c);
  }

  class LRUCache {
    const size: nat
    var list: seq<Item>
    ghost var calls: seq<Call>   // every call so far

    ghost predicate Valid()
      reads this
    {
      ListOk(size, calls, list)
    }

    constructor (size: nat)
      requires size >= 1
      ensures Valid() && this.size == size && list == [] && calls == []
    {
      this.size := size;
      list, calls := [], [];
    }

    /** Looks `id` up from the front and moves its item to the front. */
    method Find(id: int) returns (r: Result<JobData>)
      requires NoDup(Ids(list))
      modifies this`list
      ensures r.Ok? <==> id in Ids(old(list))
      ensures r.Ok? ==> Item(id, r.value) in old(list) && list == [Item(id, r.value)] + Others(old(list), id)
      ensures r.Err? ==> list == old(list)
    {
      var i := 0;
      while i < |list|
        invariant 0 <= i <= |list| && list == old(list)
        invariant forall k | 0 <= k < i :: list[k].id != id
      {
        if list[i].id == id {
          OthersAt(list, i);
          assert Ids(list)[i] == id;
          var item := list[i];
          list := [item] + list[..i] + list[i + 1..];
          return Ok(item.data);
        }
        i := i + 1;
      }
      r := Err;
    }

    method Put(item: Item)
      requires size >= 1
      modifies this`list
      ensures list == [item] + if |old(list)| >= size then old(list)[..|old(list)| - 1] else old(list)
    {
      if |list| >= size {
        list := list[..|list| - 1];
      }
      list := [item] + list;
    }

    /** `answer` is what the database returns for the job in case it is asked. */
    method Get(id: int, answer: Result<JobData>) returns (r: Result<JobData>, asked: bool)
      requires Valid()
      modifies this
      ensures Valid() && calls == old(calls) + [GetCall(id, answer)]
      ensures asked <==> id !in Ids(old(list))
      ensures asked ==> r == answer && list == match answer
                                               case Err => old(list)
                                               case Ok(data) =>
                                                 [Item(id, data)]
                                                 + if |old(list)| >= size then old(list)[..size - 1] else old(list)
      ensures !asked ==> r.Ok? && Item(id, r.value) in old(list) && list == [Item(id, r.value)] + Others(old(list), id)
    {
      ghost var before := list;
      ghost var c := GetCall(id, answer);
      r := Find(id);
      calls := calls + [c];
      asked := r.Err?;
      if r.Ok? {
        AfterHit(size, old(calls), before, Item(id, r.value), c);
        return;
      }
      r := answer;
      if r.Ok? {
        Put(Item(id, r.value));
        AfterInsert(size, old(calls), before, Item(id, r.value), c);
      } else {
        AfterMiss(size, old(calls), before, c);
      }
    }

    /** `answer` is the metadata the store returns for the job in case it is asked. */
    method UpdateJob(id: int, answer: Result<Metadata>)
      requires Valid()
      modifies this
      ensures Valid() && calls == old(calls) + [UpdateCall(id, answer)]
      ensures id !in Ids(old(list)) ==> list == old(list)
      ensures id in Ids(old(list)) ==>
                exists data :: Item(id, data) in old(list) &&
                               list == [Item(id, if answer.Ok? then data.(metadata := answer.value) else data)]
                                       + Others(old(list), id)
    {
      ghost var before := list;
      ghost var c := UpdateCall(id, answer);
      var found := Find(id);
      calls := calls + [c];
      if found.Err? {
        AfterMiss(size, old(calls), before, c);
        return;
      }
      AfterHit(size, old(calls), before, Item(id, found.value), c);
      if answer.Err? {
        return;
      }
      list := list[1..];   // the item is at the front after the lookup
      var data := found.value.(metadata := answer.value);
      AfterHit(size, old(calls), before, Item(id, data), c);
      assert list == Others(before, id);
      Put(Item(id, data));
    }
  }

  // ------------------------------------------------------------- theorems

  /** The cache holds exactly the `size` most recently used ids, in order of their last use: whatever
      was evicted is less recent than everything that stayed. */
  lemma {:induction false} CacheIsMostRecent(size: nat, calls: seq<Call>)
    requires size >= 1
    ensures RunIds(size, calls) == Take(MostRecentFirst(Uses(size, calls)), size)
  {
    if calls != [] {
      var before, c := calls[..|calls| - 1], calls[|calls| - 1];
      CacheIsMostRecent(size, before);
      var log := Uses(size, before);
      var m := MostRecentFirst(log);
      MostRecentFirstOrder(log);
      if Uses(size, calls) != log {
        assert (log + [c.id])[..|log|] == log;
        assert MostRecentFirst(log + [c.id]) == ToFront(m, c.id);
        if c.id in Take(m, size) {
          TakeToFrontInside(m, size, c.id);
        } else {
          TakeToFrontOutside(m, size, c.id);
          assert Take(Take(m, size), size - 1) == Take(m, size - 1);
        }
      }
    }
  }

  /** Id lists of a smaller and a larger cache that went through the same calls. */
  ghost predicate Included(small: nat, large: nat, a: seq<int>, b: seq<int>) {
    Sub(a, b) && NoDup(a) && NoDup(b) && |a| <= small && |b| <= large && (|a| < small ==> a == b)
  }

  /** The call inserts `x` into the smaller cache; the larger one inserts it too or has it already. */
  lemma InsertKeepsSub(small: nat, large: nat, a: seq<int>, b: seq<int>, x: int)
    requires 1 <= small <= large && Included(small, large, a, b) && x !in a
    ensures x in b ==> Sub([x] + Take(a, small - 1), ToFront(b, x))
    ensures x !in b ==> Sub([x] + Take(a, small - 1), [x] + Take(b, large - 1))
  {
    var a' := Take(a, small - 1);
    if x in b {
      SubWithout(a, b, x);
      WithoutAbsent(a, x);
      SubInit(a, Without(b, x));
      SubFront(a', Without(b, x), x);
    } else {
      if |a| == small {
        SubInit(a, b);
      }
      SubFront(a', Take(b, large - 1), x);
    }
  }

  /** The larger cache alone finds `x`. */
  lemma TouchKeepsSub(a: seq<int>, b: seq<int>, x: int)
    requires Sub(a, b) && x !in a
    ensures Sub(a, ToFront(b, x))
  {
    SubWithout(a, b, x);
    WithoutAbsent(a, x);
    SubSkip(a, Without(b, x), x);
  }

  /** For the same calls and the same answers the ids of a smaller cache are, at every point, a
      subsequence of the ids of a larger one, and the two agree until the smaller one is full. */
  lemma {:induction false} LargerCacheIncludesSmaller(small: nat, large: nat, calls: seq<Call>)
    requires 1 <= small <= large
    ensures Included(small, large, RunIds(small, calls), RunIds(large, calls))
  {
    if calls != [] {
      var before, c := calls[..|calls| - 1], calls[|calls| - 1];
      LargerCacheIncludesSmaller(small, large, before);
      var a, b := RunIds(small, before), RunIds(large, before);
      RunIdsShape(small, calls);
      RunIdsShape(large, calls);
      SubMembers(a, b);
      if c.id in a {
        WithoutNoDup(a, c.id);
        SubWithout(a, b, c.id);
        SubFront(Without(a, c.id), Without(b, c.id), c.id);
      } else {
        InsertKeepsSub(small, large, a, b, c.id);
        TouchKeepsSub(a, b, c.id);
      }
    }
  }

  lemma {:induction false} RunIdsShape(size: nat, calls: seq<Call>)
    requires size >= 1
    ensures NoDup(RunIds(size, calls)) && |RunIds(size, calls)| <= size
  {
    CacheIsMostRecent(size, calls);
    MostRecentFirstOrder(Uses(size, calls));
  }

  /** Number of calls that found their job cached. */
  function Hits(size: nat, calls: seq<Call>): nat {
    if calls == [] then 0
    else
      var before, c := calls[..|calls| - 1], calls[|calls| - 1];
      Hits(size, before) + if c.id in RunIds(size, before) then 1 else 0
  }

  /** Raising the cache size never turns a hit into a miss, so it never lowers the number of hits. */
  lemma {:induction false} LargerCacheHitsMore(small: nat, large: nat, calls: seq<Call>)
    requires 1 <= small <= large
    ensures Hits(small, calls) <= Hits(large, calls)
    ensures forall id :: id in RunIds(small, calls) ==> id in RunIds(large, calls)
  {
    LargerCacheIncludesSmaller(small, large, calls);
    SubMembers(RunIds(small, calls), RunIds(large, calls));
    if calls != [] {
      LargerCacheHitsMore(small, large, calls[..|calls| - 1]);
    }
  }
}
