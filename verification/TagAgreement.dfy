/** The tags of one job in the store and in its cached metadata, under concurrent handlers.

    A tag handler writes the store and then runs `UpdateJob`, which takes the cache lock, reads the
    store and puts the answer into the cache, unless that read fails. A view handler reads the store
    first and, if the job is not cached and its metric data is available, inserts what it has read
    under the cache lock. Other traffic may evict the job. */
module TagAgreement {
  import opened Wrappers

  datatype Pc =
    | Starting                      // tag handler, before its store write
    | Written                       // tag handler, before UpdateJob holds the lock
    | Locked                        // UpdateJob holds the lock, store not read yet
    | Fetched(tags: set<int>)       // UpdateJob holds the lock and the store's answer
    | Viewing(tags: set<int>)       // view handler with the tags it has read
    | Finished

  datatype State = State(stored: set<int>, cached: Option<set<int>>, handlers: map<nat, Pc>)

  datatype Action =
    | StartChange(pid: nat)
    | WriteStore(pid: nat, add: set<int>, remove: set<int>)   // a failed write adds and removes nothing
    | Lock(pid: nat)
    | Fetch(pid: nat)
    | FetchFails(pid: nat)
    | Store(pid: nat)
    | StartView(pid: nat)
    | Insert(pid: nat)
    | ViewFails(pid: nat)   // no metric data, nothing is inserted
    | Evict

  predicate LockFree(s: State) {
    forall pid | pid in s.handlers :: !s.handlers[pid].Locked? && !s.handlers[pid].Fetched?
  }

  predicate Enabled(s: State, a: Action) {
    match a
    case StartChange(pid) => pid !in s.handlers
    case WriteStore(pid, _, _) => pid in s.handlers && s.handlers[pid].Starting?
    case Lock(pid) => pid in s.handlers && s.handlers[pid].Written? && LockFree(s)
    case Fetch(pid) => pid in s.handlers && s.handlers[pid].Locked?
    case FetchFails(pid) => pid in s.handlers && s.handlers[pid].Locked?
    case Store(pid) => pid in s.handlers && s.handlers[pid].Fetched?
    case StartView(pid) => pid !in s.handlers
    case Insert(pid) => pid in s.handlers && s.handlers[pid].Viewing? && LockFree(s)
    case ViewFails(pid) => pid in s.handlers && s.handlers[pid].Viewing? && LockFree(s)
    case Evict => LockFree(s)
  }

  function Step(s: State, a: Action): State
    requires Enabled(s, a)
  {
    match a
    case StartChange(pid) => s.(handlers := s.handlers[pid := Starting])
    case WriteStore(pid, add, remove) => s.(stored := s.stored + add - remove, handlers := s.handlers[pid := Written])
    case Lock(pid) =>
      // a job that is not cached ends UpdateJob
      s.(handlers := s.handlers[pid := if s.cached.Some? then Locked else Finished])
    case Fetch(pid) => s.(handlers := s.handlers[pid := Fetched(s.stored)])
    case FetchFails(pid) => s.(handlers := s.handlers[pid := Finished])
    case Store(pid) => s.(cached := Some(s.handlers[pid].tags), handlers := s.handlers[pid := Finished])
    case StartView(pid) => s.(handlers := s.handlers[pid := Viewing(s.stored)])
    case Insert(pid) =>
      // the lookup of a cached job ends the view handler
      s.(cached := if s.cached.Some? then s.cached else Some(s.handlers[pid].tags),
      handlers := s.handlers[pid := Finished])
    case ViewFails(pid) => s.(handlers := s.handlers[pid := Finished])
    case Evict => s.(cached := None)
  }

  /** A handler whose store write is not reflected in any read of `UpdateJob` yet. */
  ghost predicate Dirty(s: State) {
    exists pid :: pid in s.handlers && (s.handlers[pid].Written? || s.handlers[pid].Locked?)
  }

  /** The insertion a view handler is about to make carries outdated tags nobody is going to repair. */
  ghost predicate StaleInsert(s: State, a: Action)
    requires Enabled(s, a)
  {
    a.Insert? && s.cached.None? && s.handlers[a.pid].tags != s.stored && !Dirty(s)
  }

  /** The read that fails was the last chance to bring the latest store write into the cache. */
  ghost predicate StaleFailure(s: State, a: Action)
    requires Enabled(s, a)
  {
    a.FetchFails? && s.cached != Some(s.stored) && !Dirty(Step(s, a))
  }

  ghost predicate LosesUpdate(s: State, a: Action)
    requires Enabled(s, a)
  {
    StaleInsert(s, a) || StaleFailure(s, a)
  }

  ghost predicate Run(s: State, acts: seq<Action>, t: State)
    decreases |acts|
  {
    if acts == [] then s == t
    else Enabled(s, acts[0]) && Run(Step(s, acts[0]), acts[1..], t)
  }

  /** Actions that make up for an update the cache has lost: the next tag change, or an eviction. */
  predicate Repairs(a: Action) {
    a.WriteStore? || a.Evict?
  }

  /** Some action loses an update and no later one makes up for it. */
  ghost predicate LostForGood(s: State, acts: seq<Action>, t: State)
    requires Run(s, acts, t)
    decreases |acts|
  {
    acts != [] &&
    ((LosesUpdate(s, acts[0]) && forall a | a in acts[1..] :: !Repairs(a)) || LostForGood(Step(s, acts[0]), acts[1..], t))
  }

  predicate Quiescent(s: State) {
    forall pid | pid in s.handlers :: s.handlers[pid].Finished?
  }

  predicate Agrees(s: State) {
    s.cached.Some? ==> s.cached.value == s.stored
  }

  ghost predicate MutuallyExclusive(s: State) {
    forall p, q | p in s.handlers && q in s.handlers && (s.handlers[p].Locked? || s.handlers[p].Fetched?)
                  && (s.handlers[q].Locked? || s.handlers[q].Fetched?) :: p == q
  }

  ghost predicate LockHolderSeesCached(s: State) {
    forall p | p in s.handlers && (s.handlers[p].Locked? || s.handlers[p].Fetched?) :: s.cached.Some?
  }

  /** What the cache holds, or is about to get from the lock holder, is what the store holds. */
  ghost predicate Settled(s: State) {
    if LockFree(s) then Agrees(s)
    else forall p | p in s.handlers && s.handlers[p].Fetched? :: s.handlers[p].tags == s.stored
  }

  ghost predicate Inv(s: State) {
    MutuallyExclusive(s) && LockHolderSeesCached(s) && (Dirty(s) || Settled(s))
  }

  lemma OthersUnchanged(s: State, a: Action)
    requires Enabled(s, a) && !a.Evict?
    ensures forall p | p in s.handlers && p != a.pid :: Step(s, a).handlers[p] == s.handlers[p]
    ensures a.pid in Step(s, a).handlers
  {
  }

  /** The invariant survives an action exactly when the action does not lose an update. */
  lemma StepKeepsInvIff(s: State, a: Action)
    requires Inv(s) && Enabled(s, a)
    ensures Inv(Step(s, a)) <==> !LosesUpdate(s, a)
  {
    var t := Step(s, a);
    if !a.Evict? {
      OthersUnchanged(s, a);
    }
    match a {
      case WriteStore(pid, _, _) => assert t.handlers[pid].Written?;
      case Lock(pid) =>
        if s.cached.Some? {
          assert t.handlers[pid].Locked?;
        }
      case Fetch(pid) => assert t.handlers[pid] == Fetched(s.stored);
      case FetchFails(pid) =>
        assert s.handlers[pid].Locked? && t.handlers[pid].Finished?;
        assert LockFree(t);
      case Store(pid) =>
        assert s.handlers[pid].Fetched?;
        assert LockFree(t);
      case Insert(pid) => assert LockFree(t) && (Dirty(t) <==> Dirty(s));
      case ViewFails(pid) => assert LockFree(t) && (Dirty(t) <==> Dirty(s));
      case _ =>
    }
  }

  /** The cache differs from the store and no handler is going to change that. */
  ghost predicate Broken(s: State) {
    LockFree(s) && !Dirty(s) && !Agrees(s)
  }

  lemma LossBreaks(s: State, a: Action)
    requires Inv(s) && Enabled(s, a) && LosesUpdate(s, a)
    ensures Broken(Step(s, a))
  {
    OthersUnchanged(s, a);
    var t := Step(s, a);
    if a.FetchFails? {
      assert s.handlers[a.pid].Locked?;
    } else {
      assert Dirty(t) <==> Dirty(s);
    }
  }

  /** A broken state stays broken until an action repairs it, and then the invariant holds again. */
  lemma BrokenStep(s: State, a: Action)
    requires Broken(s) && Enabled(s, a)
    ensures !LosesUpdate(s, a)
    ensures if Repairs(a) then Inv(Step(s, a)) else Broken(Step(s, a))
  {
    var t := Step(s, a);
    if !a.Evict? {
      OthersUnchanged(s, a);
    }
    if a.WriteStore? {
      assert t.handlers[a.pid].Written?;
    }
  }

  lemma {:induction false} BrokenRun(s: State, acts: seq<Action>, t: State)
    requires Broken(s) && Run(s, acts, t)
    ensures if exists a :: a in acts && Repairs(a) then Inv(t) <==> !LostForGood(s, acts, t)
            else Broken(t) && !LostForGood(s, acts, t)
    decreases |acts|
  {
    if acts != [] {
      assert acts[0] in acts && forall a :: a in acts <==> a == acts[0] || a in acts[1..];
      BrokenStep(s, acts[0]);
      if Repairs(acts[0]) {
        RunKeepsInvIff(Step(s, acts[0]), acts[1..], t);
      } else {
        BrokenRun(Step(s, acts[0]), acts[1..], t);
      }
    }
  }

  lemma {:induction false} RunKeepsInvIff(s: State, acts: seq<Action>, t: State)
    requires Inv(s) && Run(s, acts, t)
    ensures Inv(t) <==> !LostForGood(s, acts, t)
    decreases |acts|
  {
    if acts != [] {
      StepKeepsInvIff(s, acts[0]);
      if LosesUpdate(s, acts[0]) {
        LossBreaks(s, acts[0]);
        BrokenRun(Step(s, acts[0]), acts[1..], t);
      } else {
        RunKeepsInvIff(Step(s, acts[0]), acts[1..], t);
      }
    }
  }

  /** For every run with any number of tag handlers, view handlers, failed reads and evictions: once all
      handlers have finished, the cached tags are the stored tags if and only if no update was lost
      without a later tag change or eviction. */
  lemma QuiescentTagsAgreeIff(s: State, acts: seq<Action>, t: State)
    requires Inv(s) && Run(s, acts, t) && Quiescent(t)
    ensures Agrees(t) <==> !LostForGood(s, acts, t)
  {
    RunKeepsInvIff(s, acts, t);
  }

  /** A job that stays cached never sees a stale insertion, so unless a read of `UpdateJob` fails its
      tags always agree in the end, whatever the handlers do. */
  lemma CachedThroughoutAgrees(s: State, acts: seq<Action>, t: State)
    requires Inv(s) && s.cached.Some? && Run(s, acts, t)
    requires forall a | a in acts :: !a.Evict? && !a.FetchFails?
    ensures t.cached.Some? && (Quiescent(t) ==> t.cached == Some(t.stored))
  {
    CachedThroughoutLosesNothing(s, acts, t);
    RunKeepsInvIff(s, acts, t);
  }

  lemma {:induction false} CachedThroughoutLosesNothing(s: State, acts: seq<Action>, t: State)
    requires s.cached.Some? && Run(s, acts, t)
    requires forall a | a in acts :: !a.Evict? && !a.FetchFails?
    ensures t.cached.Some? && !LostForGood(s, acts, t)
    decreases |acts|
  {
    if acts != [] {
      assert acts[0] in acts && forall a | a in acts[1..] :: a in acts;
      CachedThroughoutLosesNothing(Step(s, acts[0]), acts[1..], t);
    }
  }

  /** A failed read of the store leaves the tags of a cached job outdated for good. */
  lemma FailedReadStays(tag: int) returns (acts: seq<Action>, t: State)
    ensures Run(State({}, Some({}), map[]), acts, t) && Quiescent(t) && Evict !in acts
    ensures t.stored == {tag} && t.cached == Some({})
  {
    acts := [StartChange(0), WriteStore(0, {tag}, {}), Lock(0), FetchFails(0)];
    var s0 := State({}, Some({}), map[]);
    var s1 := Step(s0, acts[0]);
    var s2 := Step(s1, acts[1]);
    var s3 := Step(s2, acts[2]);
    t := Step(s3, acts[3]);
    assert Run(t, acts[4..], t);
    assert acts[3..][1..] == acts[4..] && Run(s3, acts[3..], t);
    assert acts[2..][1..] == acts[3..] && Run(s2, acts[2..], t);
    assert acts[1..][1..] == acts[2..] && Run(s1, acts[1..], t);
  }

  // ------------------------------------------------------ what is stored

  predicate Names(a: Action, tag: int) {
    a.WriteStore? && (tag in a.add || tag in a.remove)
  }

  /** Action `k` is the last store write of the run that adds or removes `tag`. */
  ghost predicate LastNaming(acts: seq<Action>, k: nat, tag: int) {
    k < |acts| && Names(acts[k], tag) && forall i | k < i < |acts| :: !Names(acts[i], tag)
  }

  /** In every run the last store write that names a tag decides whether the job has it in the end, and a
      tag no write names stays as it was. */
  lemma {:induction false} LastWriteDecides(s: State, acts: seq<Action>, t: State, tag: int)
    requires Run(s, acts, t)
    ensures forall k: nat | LastNaming(acts, k, tag) ::
              tag in t.stored <==> tag in acts[k].add && tag !in acts[k].remove
    ensures (forall k | 0 <= k < |acts| :: !Names(acts[k], tag)) ==> (tag in t.stored <==> tag in s.stored)
    decreases |acts|
  {
    if acts != [] {
      LastWriteDecides(Step(s, acts[0]), acts[1..], t, tag);
      forall k: nat | LastNaming(acts, k, tag)
        ensures tag in t.stored <==> tag in acts[k].add && tag !in acts[k].remove
      {
        if k > 0 {
          assert LastNaming(acts[1..], k - 1, tag);
        } else {
          assert forall i | 0 <= i < |acts[1..]| :: acts[1..][i] == acts[i + 1];
        }
      }
      if forall k | 0 <= k < |acts| :: !Names(acts[k], tag) {
        assert !Names(acts[0], tag);
        assert forall i | 0 <= i < |acts[1..]| :: acts[1..][i] == acts[i + 1];
      }
    }
  }

  /** So it does for the cached tags of a job that stays cached, once all handlers have finished and
      unless a read has failed. */
  lemma CachedTagsAreLastWritten(s: State, acts: seq<Action>, t: State, tag: int)
    requires Inv(s) && s.cached.Some? && Run(s, acts, t) && Quiescent(t)
    requires forall a | a in acts :: !a.Evict? && !a.FetchFails?
    ensures t.cached.Some?
    ensures forall k: nat | LastNaming(acts, k, tag) ::
              tag in t.cached.value <==> tag in acts[k].add && tag !in acts[k].remove
    ensures (forall k | 0 <= k < |acts| :: !Names(acts[k], tag)) ==> (tag in t.cached.value <==> tag in s.stored)
  {
    CachedThroughoutAgrees(s, acts, t);
    LastWriteDecides(s, acts, t, tag);
  }

  lemma {:induction false} ViewKeepsItsTags(s: State, acts: seq<Action>, t: State, pid: nat)
    requires Run(s, acts, t) && forall a | a in acts :: !a.WriteStore?
    requires pid in s.handlers && (s.handlers[pid] == Viewing(s.stored) || s.handlers[pid].Finished?)
    ensures pid in t.handlers && (t.handlers[pid] == Viewing(t.stored) || t.handlers[pid].Finished?)
    decreases |acts|
  {
    if acts != [] {
      assert acts[0] in acts && forall a | a in acts[1..] :: a in acts;
      ViewKeepsItsTags(Step(s, acts[0]), acts[1..], t, pid);
    }
  }

  /** A view handler inserts outdated tags only if the store was written after it had read it. */
  lemma ViewWithoutChangeIsNotStale(s: State, acts: seq<Action>, t: State, pid: nat)
    requires Run(s, acts, t) && acts != [] && acts[0] == StartView(pid) && forall a | a in acts :: !a.WriteStore?
    requires Enabled(t, Insert(pid))
    ensures t.handlers[pid].tags == t.stored && !StaleInsert(t, Insert(pid))
  {
    assert forall a | a in acts[1..] :: a in acts;
    ViewKeepsItsTags(Step(s, acts[0]), acts[1..], t, pid);
  }

  /** A view handler that read the store before a tag was added can leave the cache outdated for good. */
  lemma StaleInsertStays(tag: int) returns (acts: seq<Action>, t: State)
    ensures Run(State({}, None, map[]), acts, t) && Quiescent(t)
    ensures t.stored == {tag} && t.cached == Some({})
  {
    acts := [StartView(0), StartChange(1), WriteStore(1, {tag}, {}), Lock(1), Insert(0)];
    var s0 := State({}, None, map[]);
    var s1 := Step(s0, acts[0]);
    var s2 := Step(s1, acts[1]);
    var s3 := Step(s2, acts[2]);
    var s4 := Step(s3, acts[3]);
    t := Step(s4, acts[4]);
    assert Run(t, acts[5..], t);
    assert acts[4..][1..] == acts[5..] && Run(s4, acts[4..], t);
    assert acts[3..][1..] == acts[4..] && Run(s3, acts[3..], t);
    assert acts[2..][1..] == acts[3..] && Run(s2, acts[2..], t);
    assert acts[1..][1..] == acts[2..] && Run(s1, acts[1..], t);
  }
}
