/** Metric references in the configuration, across updates by the administrator. */
module ConfigUpdate {
  import opened Configuration
  import opened Selections
  import Slices

  datatype PartitionConfig = PartitionConfig(metrics: seq<Guid>, virtualMetrics: map<string, seq<Guid>>)

  datatype Config = Config(
    metrics: seq<MetricConfig>, partitions: map<string, PartitionConfig>, radar: seq<Guid>, categories: seq<string>)

  function Guids(ms: seq<MetricConfig>): seq<Guid> {
    seq(|ms|, i requires 0 <= i < |ms| => ms[i].guid)
  }

  /** Every reference of `list` names a configured metric. */
  predicate Configured(list: seq<Guid>, ms: seq<MetricConfig>) {
    forall g | g in list :: g in Guids(ms)
  }

  /** What `Init` checks before it accepts a configuration. */
  predicate References(c: Config) {
    (forall p | p in c.partitions :: Configured(c.partitions[p].metrics, c.metrics)) && Configured(c.radar, c.metrics)
  }

  /** Members of `s` that `t` lacks, in order. */
  function Missing(s: seq<Guid>, t: seq<Guid>): seq<Guid> {
    if s == [] then []
    else Missing(s[..|s| - 1], t) + if s[|s| - 1] in t then [] else [s[|s| - 1]]
  }

  function RemoveEach(list: seq<Guid>, gone: seq<Guid>): seq<Guid> {
    if gone == [] then list else Slices.RemoveFirst(RemoveEach(list, gone[..|gone| - 1]), gone[|gone| - 1])
  }

  /** GUIDs for the metrics that come without one. */
  function WithGuids(ms: seq<MetricConfig>, newGuids: seq<Guid>): seq<MetricConfig>
    requires |newGuids| == |ms|
  {
    seq(|ms|, i requires 0 <= i < |ms| => if ms[i].guid == "" then ms[i].(guid := newGuids[i]) else ms[i])
  }

  /** Order of display names by code units. */
  predicate Less(a: string, b: string) {
    b != "" && (a == "" || a[0] < b[0] || (a[0] == b[0] && Less(a[1..], b[1..])))
  }

  function InsertLast(sorted: seq<MetricConfig>, m: MetricConfig): seq<MetricConfig> {
    if sorted == [] then [m]
    else if Less(m.displayName, sorted[|sorted| - 1].displayName) then
      InsertLast(sorted[..|sorted| - 1], m) + [sorted[|sorted| - 1]]
    else sorted + [m]
  }

  /** `sort.SliceStable` by display name. */
  function ByDisplayName(ms: seq<MetricConfig>): seq<MetricConfig> {
    if ms == [] then [] else InsertLast(ByDisplayName(ms[..|ms| - 1]), ms[|ms| - 1])
  }

  lemma LastCounts(s: seq<MetricConfig>)
    requires s != []
    ensures multiset(s) == multiset(s[..|s| - 1]) + multiset{s[|s| - 1]}
  {
    assert s == s[..|s| - 1] + [s[|s| - 1]];
  }

  lemma {:induction false} InsertLastCounts(sorted: seq<MetricConfig>, m: MetricConfig)
    ensures multiset(InsertLast(sorted, m)) == multiset(sorted) + multiset{m}
  {
    if sorted != [] {
      InsertLastCounts(sorted[..|sorted| - 1], m);
      LastCounts(sorted);
    }
  }

  /** Sorting only reorders. */
  lemma {:induction false} SortedCounts(ms: seq<MetricConfig>)
    ensures multiset(ByDisplayName(ms)) == multiset(ms)
  {
    if ms != [] {
      SortedCounts(ms[..|ms| - 1]);
      InsertLastCounts(ByDisplayName(ms[..|ms| - 1]), ms[|ms| - 1]);
      LastCounts(ms);
    }
  }

  predicate Ordered(ms: seq<MetricConfig>) {
    forall i, j | 0 <= i < j < |ms| :: !Less(ms[j].displayName, ms[i].displayName)
  }

  /** The metrics of one display name, in order. */
  function Named(ms: seq<MetricConfig>, name: string): seq<MetricConfig> {
    if ms == [] then []
    else
      var last := ms[|ms| - 1];
      Named(ms[..|ms| - 1], name) + if last.displayName == name then [last] else []
  }

  lemma {:induction false} LessLaws(a: string, b: string, c: string)
    ensures Less(a, b) ==> !Less(b, a) && a != b
    ensures !Less(b, a) && !Less(c, b) ==> !Less(c, a)
  {
    if a != "" && b != "" {
      LessLaws(a[1..], b[1..], if c == "" then "" else c[1..]);
    }
  }

  lemma {:induction false} InsertLastOrdered(sorted: seq<MetricConfig>, m: MetricConfig)
    requires Ordered(sorted)
    ensures Ordered(InsertLast(sorted, m))
    ensures forall e :: e in InsertLast(sorted, m) <==> e in sorted || e == m
  {
    if sorted != [] {
      var init, last := sorted[..|sorted| - 1], sorted[|sorted| - 1];
      assert sorted == init + [last];
      InsertLastOrdered(init, m);
      forall e | e in sorted
        ensures !Less(last.displayName, e.displayName)
        ensures !Less(m.displayName, last.displayName) ==> !Less(m.displayName, e.displayName)
      {
        LessLaws(e.displayName, last.displayName, m.displayName);
        LessLaws(last.displayName, last.displayName, last.displayName);
      }
      LessLaws(m.displayName, last.displayName, m.displayName);
    }
  }

  lemma {:induction false} InsertLastNamed(sorted: seq<MetricConfig>, m: MetricConfig, name: string)
    ensures Named(InsertLast(sorted, m), name) == Named(sorted, name) + if m.displayName == name then [m] else []
  {
    if sorted != [] {
      var init, last := sorted[..|sorted| - 1], sorted[|sorted| - 1];
      if Less(m.displayName, last.displayName) {
        LessLaws(m.displayName, last.displayName, m.displayName);
        InsertLastNamed(init, m, name);
        assert (InsertLast(init, m) + [last])[..|InsertLast(init, m)|] == InsertLast(init, m);
      } else {
        assert (sorted + [m])[..|sorted|] == sorted;
      }
    }
  }

  /** The sort is one: the result is ordered, and metrics of the same name keep their order. */
  lemma {:induction false} SortIsStable(ms: seq<MetricConfig>, name: string)
    ensures Ordered(ByDisplayName(ms))
    ensures Named(ByDisplayName(ms), name) == Named(ms, name)
  {
    if ms != [] {
      SortIsStable(ms[..|ms| - 1], name);
      InsertLastOrdered(ByDisplayName(ms[..|ms| - 1]), ms[|ms| - 1]);
      InsertLastNamed(ByDisplayName(ms[..|ms| - 1]), ms[|ms| - 1], name);
    }
  }

  lemma SameGuids(a: seq<MetricConfig>, b: seq<MetricConfig>, g: Guid)
    requires multiset(a) == multiset(b) && g in Guids(a)
    ensures g in Guids(b)
  {
    var i :| 0 <= i < |a| && Guids(a)[i] == g;
    assert a[i] in multiset(b);
    var j :| 0 <= j < |b| && b[j] == a[i];
    assert Guids(b)[j] == g;
  }

  lemma SortedGuids(ms: seq<MetricConfig>)
    ensures forall g :: g in Guids(ByDisplayName(ms)) <==> g in Guids(ms)
  {
    SortedCounts(ms);
    forall g | g in Guids(ms) || g in Guids(ByDisplayName(ms))
      ensures g in Guids(ms) && g in Guids(ByDisplayName(ms))
    {
      if g in Guids(ms) {
        SameGuids(ms, ByDisplayName(ms), g);
      } else {
        SameGuids(ByDisplayName(ms), ms, g);
      }
    }
  }

  /** The configuration after an update; the posted radar list is not used. */
  function Updated(oldConfig: Config, posted: Config, newGuids: seq<Guid>): Config
    requires |newGuids| == |posted.metrics|
  {
    var metrics := ByDisplayName(WithGuids(posted.metrics, newGuids));
    var gone := Missing(Guids(oldConfig.metrics), Guids(metrics));
    Config(
      metrics,
      map p | p in posted.partitions :: posted.partitions[p].(metrics := RemoveEach(posted.partitions[p].metrics, gone)),
      RemoveEach(oldConfig.radar, gone),
      posted.categories)
  }

  /** The missing members are all of those that are not in `t`, in order. */
  lemma {:induction false} MissingPicked(s: seq<Guid>, t: seq<Guid>)
    ensures PicksExactly(Missing(s, t), s, g => g !in t)
  {
    if s == [] {
      PicksNothing((g: Guid) => g !in t);
    } else {
      var init, last := s[..|s| - 1], s[|s| - 1];
      MissingPicked(init, t);
      PicksNext(Missing(init, t), init, last, g => g !in t);
      assert s == init + [last];
    }
  }

  method GetDeletedMetrics(newMetrics: seq<MetricConfig>, oldMetrics: seq<MetricConfig>) returns (deletedGuids: seq<Guid>)
    ensures deletedGuids == Missing(Guids(oldMetrics), Guids(newMetrics))
    ensures PicksExactly(deletedGuids, Guids(oldMetrics), g => g !in Guids(newMetrics))
  {
    var availableGuids: seq<Guid> := [];
    var i := 0;
    while i < |newMetrics|
      invariant 0 <= i <= |newMetrics| && availableGuids == Guids(newMetrics[..i])
    {
      availableGuids := availableGuids + [newMetrics[i].guid];
      i := i + 1;
    }
    assert newMetrics[..i] == newMetrics;
    deletedGuids := [];
    i := 0;
    while i < |oldMetrics|
      invariant 0 <= i <= |oldMetrics| && deletedGuids == Missing(Guids(oldMetrics)[..i], availableGuids)
    {
      assert Guids(oldMetrics)[..i + 1][..i] == Guids(oldMetrics)[..i];
      var available := Slices.Contains(availableGuids, oldMetrics[i].guid);
      if !available {
        deletedGuids := deletedGuids + [oldMetrics[i].guid];
      }
      i := i + 1;
    }
    assert Guids(oldMetrics)[..i] == Guids(oldMetrics);
    MissingPicked(Guids(oldMetrics), Guids(newMetrics));
  }

  /** Deletes every GUID of `gone` from a list, one in-place delete after the other. */
  method RemoveAll(list: seq<Guid>, gone: seq<Guid>) returns (r: seq<Guid>)
    ensures r == RemoveEach(list, gone)
  {
    r := list;
    var i := 0;
    while i < |gone|
      invariant 0 <= i <= |gone| && r == RemoveEach(list, gone[..i])
    {
      assert gone[..i + 1][..i] == gone[..i];
      r := Slices.Removed(r, gone[i]);
      i := i + 1;
    }
    assert gone[..i] == gone;
  }

  // ------------------------------------------------- what an update does

  /** The metrics are the posted ones, each as often: those that come with a GUID unchanged, the others with
      the GUID drawn for them and nothing else changed. */
  ghost predicate MetricsAsPosted(posted: Config, newGuids: seq<Guid>, c: Config)
    requires |newGuids| == |posted.metrics|
  {
    && |c.metrics| == |posted.metrics|
    && multiset(c.metrics) == multiset(seq(|posted.metrics|, i requires 0 <= i < |posted.metrics| =>
         if posted.metrics[i].guid != "" then posted.metrics[i] else posted.metrics[i].(guid := newGuids[i])))
    && (forall i | 0 <= i < |posted.metrics| && posted.metrics[i].guid != "" :: posted.metrics[i] in c.metrics)
    && (forall i | 0 <= i < |posted.metrics| && posted.metrics[i].guid == "" ::
          posted.metrics[i].(guid := newGuids[i]) in c.metrics)
  }

  /** How often a list names `g` after an update when it named it `n` times before. */
  ghost function Kept(oldConfig: Config, c: Config, g: Guid, n: nat): nat {
    var times := multiset(Guids(oldConfig.metrics))[g];
    if exists m :: m in c.metrics && m.guid == g then n
    else if n > times then n - times else 0
  }

  /** Partitions are those posted and the radar list is the old one, but a GUID that is configured no more
      occurs less often: once for each old metric with this GUID. Everything else is as posted. */
  ghost predicate ListsCleaned(oldConfig: Config, posted: Config, c: Config) {
    && c.partitions.Keys == posted.partitions.Keys && c.categories == posted.categories
    && (forall p | p in posted.partitions :: c.partitions[p].virtualMetrics == posted.partitions[p].virtualMetrics)
    && (forall p, g | p in posted.partitions ::
          multiset(c.partitions[p].metrics)[g] == Kept(oldConfig, c, g, multiset(posted.partitions[p].metrics)[g]))
    && (forall g :: multiset(c.radar)[g] == Kept(oldConfig, c, g, multiset(oldConfig.radar)[g]))
  }

  /** Every old metric is posted again. */
  ghost predicate PostedAgain(oldConfig: Config, posted: Config) {
    forall m | m in oldConfig.metrics :: m.guid != "" && exists n :: n in posted.metrics && n.guid == m.guid
  }

  lemma FilledIn(posted: Config, newGuids: seq<Guid>, c: Config)
    requires |newGuids| == |posted.metrics| && multiset(c.metrics) == multiset(WithGuids(posted.metrics, newGuids))
    ensures MetricsAsPosted(posted, newGuids, c)
  {
    var filled := WithGuids(posted.metrics, newGuids);
    assert filled == seq(|posted.metrics|, i requires 0 <= i < |posted.metrics| =>
      if posted.metrics[i].guid != "" then posted.metrics[i] else posted.metrics[i].(guid := newGuids[i]));
    assert |c.metrics| == |multiset(c.metrics)| == |multiset(filled)| == |filled|;
    forall i | 0 <= i < |posted.metrics|
      ensures posted.metrics[i].guid != "" ==> posted.metrics[i] in c.metrics
      ensures posted.metrics[i].guid == "" ==> posted.metrics[i].(guid := newGuids[i]) in c.metrics
    {
      assert filled[i] in multiset(filled);
      assert filled[i] in multiset(c.metrics);
    }
  }

  lemma GuidIn(ms: seq<MetricConfig>, g: Guid)
    ensures g in Guids(ms) <==> exists m :: m in ms && m.guid == g
  {
    if g in Guids(ms) {
      var i :| 0 <= i < |ms| && Guids(ms)[i] == g;
      assert ms[i] in ms;
    }
    if m :| m in ms && m.guid == g {
      var i :| 0 <= i < |ms| && ms[i] == m;
      assert Guids(ms)[i] == g;
    }
  }

  lemma ListKept(oldConfig: Config, c: Config, list: seq<Guid>, g: Guid)
    ensures multiset(RemoveEach(list, Missing(Guids(oldConfig.metrics), Guids(c.metrics))))[g]
         == Kept(oldConfig, c, g, multiset(list)[g])
  {
    RemoveEachCounts(list, Missing(Guids(oldConfig.metrics), Guids(c.metrics)));
    MissingCounts(Guids(oldConfig.metrics), Guids(c.metrics));
    GuidIn(c.metrics, g);
  }

  lemma NothingMissing(oldConfig: Config, posted: Config, newGuids: seq<Guid>)
    requires |newGuids| == |posted.metrics| && PostedAgain(oldConfig, posted)
    ensures Missing(Guids(oldConfig.metrics), Guids(Updated(oldConfig, posted, newGuids).metrics)) == []
  {
    var ms := Updated(oldConfig, posted, newGuids).metrics;
    SortedGuids(WithGuids(posted.metrics, newGuids));
    forall i | 0 <= i < |oldConfig.metrics|
      ensures Guids(oldConfig.metrics)[i] in Guids(ms)
    {
      assert oldConfig.metrics[i] in oldConfig.metrics;
      var n :| n in posted.metrics && n.guid == oldConfig.metrics[i].guid;
      var j :| 0 <= j < |posted.metrics| && posted.metrics[j] == n;
      assert Guids(WithGuids(posted.metrics, newGuids))[j] == n.guid;
    }
    NoneMissing(Guids(oldConfig.metrics), Guids(ms));
  }

  lemma {:induction false} NoneMissing(s: seq<Guid>, t: seq<Guid>)
    requires forall i | 0 <= i < |s| :: s[i] in t
    ensures Missing(s, t) == []
  {
    if s != [] {
      NoneMissing(s[..|s| - 1], t);
    }
  }

  lemma UpdateMeaning(oldConfig: Config, posted: Config, newGuids: seq<Guid>)
    requires |newGuids| == |posted.metrics|
    ensures
      var c := Updated(oldConfig, posted, newGuids);
      && MetricsAsPosted(posted, newGuids, c) && Ordered(c.metrics) && ListsCleaned(oldConfig, posted, c)
      && (PostedAgain(oldConfig, posted) ==> c.partitions == posted.partitions && c.radar == oldConfig.radar)
  {
    var c := Updated(oldConfig, posted, newGuids);
    SortedCounts(WithGuids(posted.metrics, newGuids));
    SortIsStable(WithGuids(posted.metrics, newGuids), "");
    FilledIn(posted, newGuids, c);
    forall p, g | p in posted.partitions
      ensures multiset(c.partitions[p].metrics)[g] == Kept(oldConfig, c, g, multiset(posted.partitions[p].metrics)[g])
    {
      ListKept(oldConfig, c, posted.partitions[p].metrics, g);
    }
    forall g
      ensures multiset(c.radar)[g] == Kept(oldConfig, c, g, multiset(oldConfig.radar)[g])
    {
      ListKept(oldConfig, c, oldConfig.radar, g);
    }
    if PostedAgain(oldConfig, posted) {
      NothingMissing(oldConfig, posted, newGuids);
    }
  }

  /** The loop that gives a GUID to every metric without one. */
  method FillGuids(posted: seq<MetricConfig>, newGuids: seq<Guid>) returns (metrics: seq<MetricConfig>)
    requires |newGuids| == |posted|
    ensures metrics == WithGuids(posted, newGuids)
  {
    metrics := posted;
    var i := 0;
    while i < |metrics|
      invariant 0 <= i <= |metrics| == |posted|
      invariant forall k | 0 <= k < |metrics| ::
          metrics[k] == if k < i then WithGuids(posted, newGuids)[k] else posted[k]
    {
      if metrics[i].guid == "" {
        metrics := metrics[i := metrics[i].(guid := newGuids[i])];
      }
      i := i + 1;
    }
  }

  /** The loop over the partitions, in no particular order. */
  method CleanPartitions(posted: map<string, PartitionConfig>, gone: seq<Guid>)
    returns (partitions: map<string, PartitionConfig>)
    ensures partitions == map p | p in posted :: posted[p].(metrics := RemoveEach(posted[p].metrics, gone))
  {
    partitions := posted;
    var todo := partitions.Keys;
    while todo != {}
      invariant todo <= partitions.Keys == posted.Keys
      invariant forall p | p in partitions ::
          partitions[p] == if p in todo then posted[p] else posted[p].(metrics := RemoveEach(posted[p].metrics, gone))
      decreases todo
    {
      var p :| p in todo;
      todo := todo - {p};
      var kept := RemoveAll(partitions[p].metrics, gone);
      partitions := partitions[p := partitions[p].(metrics := kept)];
    }
  }

  class Router {
    var config: Config

    constructor (config: Config)
      ensures this.config == config
    {
      this.config := config;
    }

    method UpdateConfig(posted: Config, newGuids: seq<Guid>)
      requires |newGuids| == |posted.metrics|
      modifies this
      ensures config == Updated(old(config), posted, newGuids)
      ensures MetricsAsPosted(posted, newGuids, config) && Ordered(config.metrics)
      ensures ListsCleaned(old(config), posted, config)
      ensures PostedAgain(old(config), posted) ==>
                config.partitions == posted.partitions && config.radar == old(config).radar
    {
      var filled := FillGuids(posted.metrics, newGuids);
      var metrics := ByDisplayName(filled);
      var deletedGuids := GetDeletedMetrics(metrics, config.metrics);
      var partitions := posted.partitions;
      var radar := config.radar;
      if |deletedGuids| > 0 {
        partitions := CleanPartitions(partitions, deletedGuids);
        radar := RemoveAll(radar, deletedGuids);
      }
      config := Config(metrics, partitions, radar, posted.categories);
      assert partitions == Updated(old(config), posted, newGuids).partitions;
      UpdateMeaning(old(config), posted, newGuids);
    }
  }

  // ------------------------------------------------------------- integrity

  lemma MinusOneMore(a: multiset<Guid>, b: multiset<Guid>, g: Guid)
    ensures a - b - multiset{g} == a - (b + multiset{g})
  {
  }

  lemma RemoveOneMore(list: seq<Guid>, kept: seq<Guid>, init: seq<Guid>, g: Guid)
    requires multiset(kept) == multiset(list) - multiset(init)
    ensures multiset(Slices.RemoveFirst(kept, g)) == multiset(list) - multiset(init + [g])
  {
    Slices.RemoveFirstCounts(kept, g);
    MinusOneMore(multiset(list), multiset(init), g);
    assert multiset(init + [g]) == multiset(init) + multiset{g};
  }

  lemma {:induction false} RemoveEachCounts(list: seq<Guid>, gone: seq<Guid>)
    ensures multiset(RemoveEach(list, gone)) == multiset(list) - multiset(gone)
  {
    if gone != [] {
      var init, g := gone[..|gone| - 1], gone[|gone| - 1];
      RemoveEachCounts(list, init);
      RemoveOneMore(list, RemoveEach(list, init), init, g);
      assert gone == init + [g];
    }
  }

  lemma {:induction false} MissingCounts(s: seq<Guid>, t: seq<Guid>)
    ensures forall g :: multiset(Missing(s, t))[g] == if g in t then 0 else multiset(s)[g]
  {
    if s != [] {
      MissingCounts(s[..|s| - 1], t);
      assert s == s[..|s| - 1] + [s[|s| - 1]];
    }
  }

  /** A list that an update has cleaned names only configured metrics exactly when every reference that
      is not configured occurred at most as often as the old configuration listed that metric: each
      deleted metric removes one occurrence, and an unknown one removes none. */
  lemma CleanedListIff(list: seq<Guid>, oldMetrics: seq<MetricConfig>, newMetrics: seq<MetricConfig>)
    ensures
      var gone := Missing(Guids(oldMetrics), Guids(newMetrics));
      Configured(RemoveEach(list, gone), newMetrics)
      <==> forall g | g in list && g !in Guids(newMetrics) :: multiset(list)[g] <= multiset(Guids(oldMetrics))[g]
  {
    var gone := Missing(Guids(oldMetrics), Guids(newMetrics));
    RemoveEachCounts(list, gone);
    MissingCounts(Guids(oldMetrics), Guids(newMetrics));
    var kept := RemoveEach(list, gone);
    forall g
      ensures g in kept <==> multiset(list)[g] > multiset(gone)[g]
    {
      assert g in kept <==> g in multiset(kept);
    }
    forall g | g in list && g !in Guids(newMetrics)
      ensures g in kept <==> multiset(list)[g] > multiset(Guids(oldMetrics))[g]
    {
    }
    forall g | g in kept
      ensures g in list
    {
      assert g in multiset(list);
    }
  }

  /** An update that an administrator may post: partition lists without duplicates that name only
      metrics configured before or after it. */
  ghost predicate WellPosted(oldConfig: Config, posted: Config, newGuids: seq<Guid>)
    requires |newGuids| == |posted.metrics|
  {
    forall p | p in posted.partitions ::
      Slices.NoDup(posted.partitions[p].metrics) &&
      forall g | g in posted.partitions[p].metrics ::
        g in Guids(oldConfig.metrics) || g in Guids(WithGuids(posted.metrics, newGuids))
  }

  lemma {:induction false} NoDupCounts(s: seq<Guid>)
    ensures Slices.NoDup(s) <==> forall g :: multiset(s)[g] <= 1
  {
    if s != [] {
      var init, x := s[..|s| - 1], s[|s| - 1];
      NoDupCounts(init);
      assert s == init + [x];
      assert Slices.NoDup(s) <==> Slices.NoDup(init) && x !in init by {
        if x in init {
          var i :| 0 <= i < |init| && init[i] == x;
          assert s[i] == s[|s| - 1];
        }
      }
      assert x in init <==> multiset(init)[x] >= 1 by {
        assert x in init <==> x in multiset(init);
      }
      if forall g :: multiset(s)[g] <= 1 {
        forall g
          ensures multiset(init)[g] <= 1
        {
          assert multiset(s)[g] <= 1;
        }
        assert multiset(s)[x] <= 1;
      }
    }
  }

  lemma OldReferenceCounts(s: seq<Guid>, g: Guid, ms: seq<MetricConfig>)
    requires Slices.NoDup(s) && g in Guids(ms)
    ensures multiset(s)[g] <= multiset(Guids(ms))[g]
  {
    NoDupCounts(s);
    assert g in multiset(Guids(ms));
  }

  lemma UpdateKeepsReferences(oldConfig: Config, posted: Config, newGuids: seq<Guid>)
    requires |newGuids| == |posted.metrics| && WellPosted(oldConfig, posted, newGuids)
    requires References(oldConfig) && Slices.NoDup(oldConfig.radar)
    ensures References(Updated(oldConfig, posted, newGuids)) && Slices.NoDup(Updated(oldConfig, posted, newGuids).radar)
  {
    var updated := Updated(oldConfig, posted, newGuids);
    var gone := Missing(Guids(oldConfig.metrics), Guids(updated.metrics));
    SortedGuids(WithGuids(posted.metrics, newGuids));
    forall p | p in updated.partitions
      ensures Configured(updated.partitions[p].metrics, updated.metrics)
    {
      var list := posted.partitions[p].metrics;
      CleanedListIff(list, oldConfig.metrics, updated.metrics);
      forall g | g in list && g !in Guids(updated.metrics)
        ensures multiset(list)[g] <= multiset(Guids(oldConfig.metrics))[g]
      {
        OldReferenceCounts(list, g, oldConfig.metrics);
      }
    }
    CleanedListIff(oldConfig.radar, oldConfig.metrics, updated.metrics);
    forall g | g in oldConfig.radar && g !in Guids(updated.metrics)
      ensures multiset(oldConfig.radar)[g] <= multiset(Guids(oldConfig.metrics))[g]
    {
      OldReferenceCounts(oldConfig.radar, g, oldConfig.metrics);
    }
    RemoveEachCounts(oldConfig.radar, gone);
    NoDupCounts(oldConfig.radar);
    NoDupCounts(updated.radar);
  }

  datatype Update = Update(posted: Config, newGuids: seq<Guid>)

  /** `c` and the configurations after each update of a sequence all being acceptable for the next. */
  ghost predicate WellPostedAll(c: Config, us: seq<Update>)
    decreases |us|
  {
    us == [] || (
      |us[0].newGuids| == |us[0].posted.metrics| && WellPosted(c, us[0].posted, us[0].newGuids)
      && WellPostedAll(Updated(c, us[0].posted, us[0].newGuids), us[1..]))
  }

  ghost function After(c: Config, us: seq<Update>): Config
    requires WellPostedAll(c, us)
    decreases |us|
  {
    if us == [] then c else After(Updated(c, us[0].posted, us[0].newGuids), us[1..])
  }

  /** Starting from a configuration `Init` accepts, with a radar list without duplicates, every sequence
      of such updates leaves every parent partition and the radar naming only configured metrics. */
  lemma {:induction false} UpdatesKeepReferences(c: Config, us: seq<Update>)
    requires References(c) && Slices.NoDup(c.radar) && WellPostedAll(c, us)
    ensures References(After(c, us)) && Slices.NoDup(After(c, us).radar)
    decreases |us|
  {
    if us != [] {
      UpdateKeepsReferences(c, us[0].posted, us[0].newGuids);
      UpdatesKeepReferences(Updated(c, us[0].posted, us[0].newGuids), us[1..]);
    }
  }

  /** Virtual partitions are not cleaned: after an update a virtual partition is as posted, and it names
      only configured metrics if and only if the posted list names only posted metrics. */
  lemma VirtualReferencesIff(oldConfig: Config, posted: Config, newGuids: seq<Guid>, p: string, name: string)
    requires |newGuids| == |posted.metrics|
    requires p in posted.partitions && name in posted.partitions[p].virtualMetrics
    ensures
      var list := posted.partitions[p].virtualMetrics[name];
      var updated := Updated(oldConfig, posted, newGuids);
      && p in updated.partitions && name in updated.partitions[p].virtualMetrics
      && updated.partitions[p].virtualMetrics[name] == list
      && (Configured(updated.partitions[p].virtualMetrics[name], updated.metrics)
          <==> forall g | g in list :: g in Guids(WithGuids(posted.metrics, newGuids)))
  {
    SortedGuids(WithGuids(posted.metrics, newGuids));
  }

  /** So an update that drops a metric a virtual partition still lists
      leaves a reference to nothing, however well posted it is. */
  lemma VirtualPartitionsKeepDeleted(metric: MetricConfig, name: string, part: string)
    requires metric.guid != ""
    ensures
      var vp := PartitionConfig([], map[name := [metric.guid]]);
      var oldConfig := Config([metric], map[part := vp], [], []);
      var posted := Config([], map[part := vp], [], []);
      && References(oldConfig) && WellPosted(oldConfig, posted, [])
      && References(Updated(oldConfig, posted, []))
      && Updated(oldConfig, posted, []).partitions[part].virtualMetrics[name] == [metric.guid]
      && !Configured(Updated(oldConfig, posted, []).partitions[part].virtualMetrics[name], Updated(oldConfig, posted, []).metrics)
  {
    var vp := PartitionConfig([], map[name := [metric.guid]]);
    var oldConfig := Config([metric], map[part := vp], [], []);
    var posted := Config([], map[part := vp], [], []);
    UpdateKeepsReferences(oldConfig, posted, []);
    assert metric.guid in Updated(oldConfig, posted, []).partitions[part].virtualMetrics[name];
  }
}
