/** The search parameters of the frontend and their text in the URL. */
module SearchParams {
  import opened Wrappers
  import opened Decimal

  datatype Range = Range(from: Option<int>, to: Option<int>)

  datatype Params = Params(
    userId: Option<int>, userName: Option<string>,
    groupId: Option<int>, groupName: Option<string>,
    isRunning: Option<bool>, partition: Option<string>,
    numNodes: Option<Range>, numTasks: Option<Range>, numGpus: Option<Range>, time: Option<Range>,
    tags: Option<seq<int>>)

  datatype Key =
    | UserId | UserName | GroupId | GroupName | IsRunning | Partition
    | NumNodes | NumTasks | NumGpus | Time | Tags

  function PrintEnd(n: Option<int>): (s: string)
    ensures ',' !in s
  {
    if n.None? then "" else PrintInt(n.value)
  }

  function PrintRange(r: Range): string {
    PrintEnd(r.from) + "," + PrintEnd(r.to)
  }

  function PrintInts(ns: seq<int>): (parts: seq<string>)
    ensures |parts| == |ns| && forall i | 0 <= i < |ns| :: parts[i] == PrintInt(ns[i])
  {
    seq(|ns|, i requires 0 <= i < |ns| => PrintInt(ns[i]))
  }

  function TextOr<T>(v: Option<T>, printer: T -> string): string {
    if v.None? then "" else printer(v.value)
  }

  /** The value of property `k` as text; a property without value has none. */
  function Text(p: Params, k: Key): string {
    match k
    case UserId => TextOr(p.userId, PrintInt)
    case UserName => TextOr(p.userName, s => s)
    case GroupId => TextOr(p.groupId, PrintInt)
    case GroupName => TextOr(p.groupName, s => s)
    case IsRunning => TextOr(p.isRunning, (b: bool) => if b then "true" else "false")
    case Partition => TextOr(p.partition, s => s)
    case NumNodes => TextOr(p.numNodes, PrintRange)
    case NumTasks => TextOr(p.numTasks, PrintRange)
    case NumGpus => TextOr(p.numGpus, PrintRange)
    case Time => TextOr(p.time, PrintRange)
    case Tags => TextOr(p.tags, ids => Join(PrintInts(ids)))
  }

  type Query = seq<(Key, string)>

  /** `url.Values.Get`: the first value of the key, or the empty string. */
  function Get(q: Query, k: Key): string {
    if q == [] then "" else if q[0].0 == k then q[0].1 else Get(q[1..], k)
  }

  lemma {:induction false} GetAppended(q: Query, k: Key, v: string, key: Key)
    ensures Get(q + [(k, v)], key) ==
            if (exists i | 0 <= i < |q| :: q[i].0 == key) then Get(q, key) else if key == k then v else ""
  {
    if q == [] {
      assert Get(q + [(k, v)], key) == if k == key then v else Get([], key) by {
        assert ([] + [(k, v)])[1..] == [];
      }
    } else {
      GetAppended(q[1..], k, v, key);
      assert (q + [(k, v)])[1..] == q[1..] + [(k, v)];
      if q[0].0 != key {
        assert (exists i | 0 <= i < |q| :: q[i].0 == key) <==> (exists i | 0 <= i < |q[1..]| :: q[1..][i].0 == key) by {
          if i :| 0 <= i < |q| && q[i].0 == key {
            assert q[1..][i - 1].0 == key;
          }
        }
      }
    }
  }

  lemma {:induction false} GetAbsent(q: Query, key: Key)
    requires forall i | 0 <= i < |q| :: q[i].0 != key
    ensures Get(q, key) == ""
  {
    if q != [] {
      GetAbsent(q[1..], key);
    }
  }

  /** Builds the query; `keys` are the properties the parameter object has, in their order. */
  method Serialise(p: Params, keys: seq<Key>) returns (q: Query)
    requires forall i, j | 0 <= i < j < |keys| :: keys[i] != keys[j]
    requires forall k :: k !in keys ==> Text(p, k) == ""
    ensures forall k :: Get(q, k) == Text(p, k)
  {
    q := [];
    var i := 0;
    while i < |keys|
      invariant 0 <= i <= |keys|
      invariant forall j | 0 <= j < |q| :: q[j].0 in keys[..i]
      invariant forall k :: Get(q, k) == if k in keys[..i] then Text(p, k) else ""
    {
      var k := keys[i];
      var text := Text(p, k);
      assert k !in keys[..i] && keys[..i + 1] == keys[..i] + [k];
      if k == Tags || text != "" {
        forall key
          ensures Get(q + [(k, text)], key) == if key in keys[..i + 1] then Text(p, key) else ""
        {
          GetAppended(q, k, text, key);
          if forall j | 0 <= j < |q| :: q[j].0 != key {
            GetAbsent(q, key);
          }
        }
        q := q + [(k, text)];
      }
      i := i + 1;
    }
    assert keys[..i] == keys;
  }
}

/** The router's side: text of the URL to a filter. */
module FilterParser {
  import opened Wrappers
  import opened Decimal
  import opened SearchParams
  import opened Selections

  datatype JobFilter = JobFilter(
    userId: Option<int>, userName: Option<string>,
    groupId: Option<int>, groupName: Option<string>,
    isRunning: Option<bool>, partition: Option<string>,
    numNodes: Option<Range>, numTasks: Option<Range>, numGpus: Option<Range>, time: Option<Range>,
    tags: Option<seq<int>>)

  function ParseEnd(s: string): Option<int> {
    match Atoi(s)
    case Parsed(n) => Some(n)
    case _ => None
  }

  function ParseRange(s: string): Option<Range> {
    var parts := Split(s);
    if |parts| != 2 then None else Some(Range(ParseEnd(parts[0]), ParseEnd(parts[1])))
  }

  function NonEmpty(s: string): Option<string> {
    if s == "" then None else Some(s)
  }

  /** The two numeric ids are kept only when the conversion fails. */
  function ParseFailedId(s: string): Option<int> {
    if s == "" then None
    else match Atoi(s)
      case Parsed(_) => None
      case SyntaxError => Some(0)
      case RangeError(n) => Some(n)
  }

  function ParseFlag(s: string): Option<bool> {
    if s == "true" then Some(true) else if s == "false" then Some(false) else None
  }

  /** The list entries that are numbers. */
  function ParseIds(parts: seq<string>): seq<int> {
    if parts == [] then []
    else
      var init := ParseIds(parts[..|parts| - 1]);
      match Atoi(parts[|parts| - 1])
      case Parsed(n) => init + [n]
      case _ => init
  }

  function ParseTags(s: string): Option<seq<int>> {
    if s == "" then None else Some(ParseIds(Split(s)))
  }

  function ParseOptionalRange(s: string): Option<Range> {
    if s == "" then None else ParseRange(s)
  }

  /** The filter the text of all keys stands for. */
  function FilterOf(text: Key -> string): JobFilter {
    JobFilter(
      ParseFailedId(text(UserId)), NonEmpty(text(UserName)),
      ParseFailedId(text(GroupId)), NonEmpty(text(GroupName)),
      ParseFlag(text(IsRunning)), NonEmpty(text(Partition)),
      ParseOptionalRange(text(NumNodes)), ParseOptionalRange(text(NumTasks)),
      ParseOptionalRange(text(NumGpus)), ParseOptionalRange(text(Time)),
      ParseTags(text(Tags)))
  }

  /** The numbers among the entries are kept: each one, in order. */
  lemma {:induction false} ParseIdsPicked(parts: seq<string>)
    ensures PicksExactly(Numbers(ParseIds(parts)), Conversions(parts), (r: AtoiResult) => r.Parsed?)
  {
    var wanted := (r: AtoiResult) => r.Parsed?;
    if parts == [] {
      assert Numbers([]) == [] && Conversions([]) == [];
      PicksNothing(wanted);
    } else {
      var init, last := parts[..|parts| - 1], Atoi(parts[|parts| - 1]);
      ParseIdsPicked(init);
      PicksNext(Numbers(ParseIds(init)), Conversions(init), last, wanted);
      assert Conversions(parts) == Conversions(init) + [last];
      assert Numbers(ParseIds(parts)) == Numbers(ParseIds(init)) + if wanted(last) then [last] else [];
    }
  }

  function Numbers(ids: seq<int>): seq<AtoiResult> {
    seq(|ids|, i requires 0 <= i < |ids| => Parsed(ids[i]))
  }

  function Conversions(parts: seq<string>): seq<AtoiResult> {
    seq(|parts|, i requires 0 <= i < |parts| => Atoi(parts[i]))
  }

  method ParseTagIds(str: string) returns (tagIds: seq<int>)
    ensures tagIds == ParseIds(Split(str))
    ensures PicksExactly(Numbers(tagIds), Conversions(Split(str)), (r: AtoiResult) => r.Parsed?)
  {
    var tags := Split(str);
    ParseIdsPicked(tags);
    tagIds := [];
    var i := 0;
    while i < |tags|
      invariant 0 <= i <= |tags| && tagIds == ParseIds(tags[..i])
    {
      assert tags[..i + 1][..i] == tags[..i];
      var id := Atoi(tags[i]);
      if id.Parsed? {
        tagIds := tagIds + [id.n];
      }
      i := i + 1;
    }
    assert tags[..i] == tags;
  }

  method ParseId(str: string) returns (id: Option<int>)
    ensures id == ParseFailedId(str)
    ensures str == "" || Atoi(str).Parsed? ==> id == None
    ensures str != "" && Atoi(str).SyntaxError? ==> id == Some(0)
    ensures str != "" && Atoi(str).RangeError? ==> id == Some(Atoi(str).nearest)
  {
    id := None;
    if str != "" {
      var i := Atoi(str);
      if !i.Parsed? {
        id := Some(if i.RangeError? then i.nearest else 0);
      }
    }
  }

  method ParseText(str: string) returns (text: Option<string>)
    ensures text == NonEmpty(str)
    ensures text == None <==> str == ""
    ensures text.Some? ==> text.value == str
  {
    text := None;
    if str != "" {
      text := Some(str);
    }
  }

  method ParseRangeFilter(str: string) returns (rf: Option<Range>)
    ensures rf == ParseOptionalRange(str)
    ensures rf.Some? <==> |Split(str)| == 2
    ensures rf.Some? ==> rf.value.from == (if Atoi(Split(str)[0]).Parsed? then Some(Atoi(Split(str)[0]).n) else None)
    ensures rf.Some? ==> rf.value.to == (if Atoi(Split(str)[1]).Parsed? then Some(Atoi(Split(str)[1]).n) else None)
  {
    rf := None;
    if str != "" {
      var parts := Split(str);
      if |parts| == 2 {
        rf := Some(Range(None, None));
        var p0 := Atoi(parts[0]);
        if p0.Parsed? {
          rf := Some(rf.value.(from := Some(p0.n)));
        }
        var p1 := Atoi(parts[1]);
        if p1.Parsed? {
          rf := Some(rf.value.(to := Some(p1.n)));
        }
      }
    }
  }

  method ParseIsRunning(str: string) returns (flag: Option<bool>)
    ensures flag == ParseFlag(str)
    ensures flag == Some(true) <==> str == "true"
    ensures flag == Some(false) <==> str == "false"
  {
    flag := None;
    if str == "true" {
      flag := Some(true);
    }
    if str == "false" {
      flag := Some(false);
    }
  }

  method ParseGetJobParams(params: Query) returns (filter: JobFilter)
    ensures filter == FilterOf(k => Get(params, k))
  {
    var userId := ParseId(Get(params, UserId));
    var userName := ParseText(Get(params, UserName));
    var groupId := ParseId(Get(params, GroupId));
    var groupName := ParseText(Get(params, GroupName));
    var isRunning := ParseIsRunning(Get(params, IsRunning));
    var partition := ParseText(Get(params, Partition));
    var numNodes := ParseRangeFilter(Get(params, NumNodes));
    var numTasks := ParseRangeFilter(Get(params, NumTasks));
    var numGpus := ParseRangeFilter(Get(params, NumGpus));
    var time := ParseRangeFilter(Get(params, Time));
    var tags: Option<seq<int>> := None;
    if Get(params, Tags) != "" {
      var tagIds := ParseTagIds(Get(params, Tags));
      tags := Some(tagIds);
    }
    filter := JobFilter(userId, userName, groupId, groupName, isRunning, partition,
                        numNodes, numTasks, numGpus, time, tags);
  }

  // ------------------------------------------------------------ round trips

  predicate EndFits(n: Option<int>) {
    n.Some? ==> FitsInt64(n.value)
  }

  predicate RangeFits(r: Range) {
    EndFits(r.from) && EndFits(r.to)
  }

  lemma EndRoundTrip(n: Option<int>)
    ensures ParseEnd(PrintEnd(n)) == if EndFits(n) then n else None
  {
    if n.Some? {
      AtoiOfPrinted(n.value);
    }
  }

  /** Any range survives print and parse, an open end as open end, exactly when its ends fit into 64 bits. */
  lemma RangeRoundTripIff(r: Range)
    ensures ParseRange(PrintRange(r)) == Some(r) <==> RangeFits(r)
    ensures PrintRange(r) != ""
  {
    SplitFirst(PrintEnd(r.from), PrintEnd(r.to));
    SplitFirst(PrintEnd(r.to), "");
    EndRoundTrip(r.from);
    EndRoundTrip(r.to);
    assert PrintRange(r)[|PrintEnd(r.from)|] == ',';
  }

  lemma {:induction false} ParseIdsPrinted(ids: seq<int>)
    requires forall id | id in ids :: FitsInt64(id)
    ensures ParseIds(PrintInts(ids)) == ids
  {
    if ids != [] {
      var init, last := ids[..|ids| - 1], ids[|ids| - 1];
      ParseIdsPrinted(init);
      assert PrintInts(ids)[..|ids| - 1] == PrintInts(init);
      AtoiOfPrinted(last);
    }
  }

  lemma {:induction false} JoinNonEmpty(parts: seq<string>)
    requires parts != [] && forall p | p in parts :: p != ""
    ensures Join(parts) != ""
  {
    assert parts[0] in parts;
  }

  /** A list of tag ids survives too; the empty list becomes no filter at all. */
  lemma TagsRoundTrip(ids: seq<int>)
    requires forall id | id in ids :: FitsInt64(id)
    ensures ParseTags(Join(PrintInts(ids))) == if ids == [] then None else Some(ids)
  {
    if ids != [] {
      var parts := PrintInts(ids);
      SplitOfJoined(parts);
      JoinNonEmpty(parts);
      ParseIdsPrinted(ids);
    }
  }
}

/** The store's side: a filter composed into a query, and what the query selects. */
module FilterQuery {
  import opened Wrappers
  import opened Jobs
  import opened SearchParams
  import opened FilterParser
  import opened Selections
  import opened Slices

  /** The three tables a search reads. */
  datatype Tables = Tables(jobs: seq<Job>, jobToTags: set<(int, int)>, jobTags: set<int>)

  datatype Column =
    | UserIdColumn | UserNameColumn | GroupIdColumn | GroupNameColumn | IsRunningColumn | PartitionColumn
    | NumNodesColumn | NumTasksColumn | NumGpusProduct | StartTimeColumn

  datatype Value = Number(n: int) | Text(s: string) | Flag(b: bool)

  datatype Condition =
    | Equals(column: Column, value: Value)
    | AtLeast(column: Column, n: int)
    | AtMost(column: Column, n: int)

  /** `tagIds` stands for the grouped subquery that replaces the table of jobs. */
  datatype SelectQuery = SelectQuery(tagIds: Option<seq<int>>, conditions: seq<Condition>)

  function Cell(j: Job, c: Column): Value {
    match c
    case UserIdColumn => Number(j.info.userId)
    case UserNameColumn => Text(j.info.userName)
    case GroupIdColumn => Number(j.info.groupId)
    case GroupNameColumn => Text(j.info.groupName)
    case IsRunningColumn => Flag(j.isRunning)
    case PartitionColumn => Text(j.info.partition)
    case NumNodesColumn => Number(j.info.numNodes)
    case NumTasksColumn => Number(j.info.numTasks)
    case NumGpusProduct => Number(j.info.numNodes * j.info.gpusPerNode)
    case StartTimeColumn => Number(j.info.startTime)
  }

  predicate Holds(c: Condition, j: Job) {
    match c
    case Equals(col, v) => Cell(j, col) == v
    case AtLeast(col, n) => Cell(j, col).Number? && Cell(j, col).n >= n
    case AtMost(col, n) => Cell(j, col).Number? && Cell(j, col).n <= n
  }

  /** The distinct tag ids in the group of job `j`, after both joins and the `IN` condition. */
  function TagGroup(t: Tables, ids: seq<int>, j: Job): set<int> {
    set p | p in t.jobToTags && p.0 == j.id && p.1 in t.jobTags && p.1 in ids :: p.1
  }

  /** A group exists if it has a row; `HAVING` then compares the distinct count with the list length. */
  predicate InTagSubquery(t: Tables, ids: seq<int>, j: Job) {
    TagGroup(t, ids, j) != {} && |TagGroup(t, ids, j)| == |ids|
  }

  predicate Selected(t: Tables, q: SelectQuery, j: Job) {
    (q.tagIds.Some? ==> InTagSubquery(t, q.tagIds.value, j)) && forall c | c in q.conditions :: Holds(c, j)
  }

  function Rows(t: Tables, q: SelectQuery, jobs: seq<Job>): seq<Job> {
    if jobs == [] then []
    else
      var last := jobs[|jobs| - 1];
      Rows(t, q, jobs[..|jobs| - 1]) + if Selected(t, q, last) then [last] else []
  }

  function AppendTagFilter(q: SelectQuery, tags: Option<seq<int>>): SelectQuery {
    if tags.Some? then q.(tagIds := tags) else q
  }

  function Where(q: SelectQuery, c: Condition): SelectQuery {
    q.(conditions := q.conditions + [c])
  }

  function AppendValueFilter(q: SelectQuery, v: Option<Value>, col: Column): SelectQuery {
    if v.Some? then Where(q, Equals(col, v.value)) else q
  }

  function AppendRangeFilter(q: SelectQuery, r: Option<Range>, col: Column): SelectQuery {
    if r.None? then q
    else
      var q1 := if r.value.from.Some? then Where(q, AtLeast(col, r.value.from.value)) else q;
      if r.value.to.Some? then Where(q1, AtMost(col, r.value.to.value)) else q1
  }

  function Numbers(v: Option<int>): Option<Value> {
    if v.Some? then Some(Number(v.value)) else None
  }

  function Texts(v: Option<string>): Option<Value> {
    if v.Some? then Some(Text(v.value)) else None
  }

  function Flags(v: Option<bool>): Option<Value> {
    if v.Some? then Some(Flag(v.value)) else None
  }

  predicate InRange(r: Option<Range>, n: int) {
    r.Some? ==> (r.value.from.Some? ==> r.value.from.value <= n) && (r.value.to.Some? ==> n <= r.value.to.value)
  }

  /** What a filter asks of a job. */
  predicate Matches(f: JobFilter, t: Tables, j: Job) {
    && (f.tags.Some? ==> InTagSubquery(t, f.tags.value, j))
    && (f.userId.Some? ==> j.info.userId == f.userId.value)
    && (f.userName.Some? ==> j.info.userName == f.userName.value)
    && (f.groupId.Some? ==> j.info.groupId == f.groupId.value)
    && (f.groupName.Some? ==> j.info.groupName == f.groupName.value)
    && (f.isRunning.Some? ==> j.isRunning == f.isRunning.value)
    && (f.partition.Some? ==> j.info.partition == f.partition.value)
    && InRange(f.numNodes, j.info.numNodes)
    && InRange(f.numTasks, j.info.numTasks)
    && InRange(f.numGpus, j.info.numNodes * j.info.gpusPerNode)
    && InRange(f.time, j.info.startTime)
  }

  function MatchingJobs(f: JobFilter, t: Tables, jobs: seq<Job>): seq<Job> {
    if jobs == [] then []
    else
      var last := jobs[|jobs| - 1];
      MatchingJobs(f, t, jobs[..|jobs| - 1]) + if Matches(f, t, last) then [last] else []
  }

  lemma AppendedValue(t: Tables, q: SelectQuery, v: Option<Value>, col: Column, j: Job)
    ensures Selected(t, AppendValueFilter(q, v, col), j) <==> Selected(t, q, j) && (v.Some? ==> Cell(j, col) == v.value)
  {
    if v.Some? {
      AppendedWhere(t, q, Equals(col, v.value), j);
    }
  }

  lemma AppendedWhere(t: Tables, q: SelectQuery, c: Condition, j: Job)
    ensures Selected(t, Where(q, c), j) <==> Selected(t, q, j) && Holds(c, j)
  {
    var cs := Where(q, c).conditions;
    assert cs[|q.conditions|] == c;
    assert forall d :: d in cs <==> d in q.conditions || d == c;
  }

  lemma AppendedRange(t: Tables, q: SelectQuery, r: Option<Range>, col: Column, j: Job)
    requires Cell(j, col).Number?
    ensures Selected(t, AppendRangeFilter(q, r, col), j) <==> Selected(t, q, j) && InRange(r, Cell(j, col).n)
  {
    if r.Some? {
      var q1 := q;
      if r.value.from.Some? {
        q1 := Where(q, AtLeast(col, r.value.from.value));
        AppendedWhere(t, q, AtLeast(col, r.value.from.value), j);
      }
      if r.value.to.Some? {
        AppendedWhere(t, q1, AtMost(col, r.value.to.value), j);
      }
    }
  }

  lemma {:induction false} RowsMatch(f: JobFilter, t: Tables, q: SelectQuery, jobs: seq<Job>)
    requires forall j :: Selected(t, q, j) <==> Matches(f, t, j)
    ensures Rows(t, q, jobs) == MatchingJobs(f, t, jobs)
  {
    if jobs != [] {
      RowsMatch(f, t, q, jobs[..|jobs| - 1]);
    }
  }

  lemma {:induction false} MatchingJobsPicked(f: JobFilter, t: Tables, jobs: seq<Job>)
    ensures PicksExactly(MatchingJobs(f, t, jobs), jobs, j => Matches(f, t, j))
  {
    if jobs == [] {
      PicksNothing((j: Job) => Matches(f, t, j));
    } else {
      var init, last := jobs[..|jobs| - 1], jobs[|jobs| - 1];
      MatchingJobsPicked(f, t, init);
      PicksNext(MatchingJobs(f, t, init), init, last, j => Matches(f, t, j));
      assert jobs == init + [last];
    }
  }

  function AppendValues(q: SelectQuery, f: JobFilter): SelectQuery {
    var q1 := AppendValueFilter(q, Numbers(f.userId), UserIdColumn);
    var q2 := AppendValueFilter(q1, Texts(f.userName), UserNameColumn);
    var q3 := AppendValueFilter(q2, Numbers(f.groupId), GroupIdColumn);
    var q4 := AppendValueFilter(q3, Texts(f.groupName), GroupNameColumn);
    var q5 := AppendValueFilter(q4, Flags(f.isRunning), IsRunningColumn);
    AppendValueFilter(q5, Texts(f.partition), PartitionColumn)
  }

  function AppendRanges(q: SelectQuery, f: JobFilter): SelectQuery {
    var q1 := AppendRangeFilter(q, f.numNodes, NumNodesColumn);
    var q2 := AppendRangeFilter(q1, f.numTasks, NumTasksColumn);
    var q3 := AppendRangeFilter(q2, f.numGpus, NumGpusProduct);
    AppendRangeFilter(q3, f.time, StartTimeColumn)
  }

  lemma ValuesSelect(t: Tables, f: JobFilter, q: SelectQuery, j: Job)
    ensures Selected(t, AppendValues(q, f), j) <==>
            && Selected(t, q, j)
            && (f.userId.Some? ==> j.info.userId == f.userId.value)
            && (f.userName.Some? ==> j.info.userName == f.userName.value)
            && (f.groupId.Some? ==> j.info.groupId == f.groupId.value)
            && (f.groupName.Some? ==> j.info.groupName == f.groupName.value)
            && (f.isRunning.Some? ==> j.isRunning == f.isRunning.value)
            && (f.partition.Some? ==> j.info.partition == f.partition.value)
  {
    var q1 := AppendValueFilter(q, Numbers(f.userId), UserIdColumn);
    var q2 := AppendValueFilter(q1, Texts(f.userName), UserNameColumn);
    var q3 := AppendValueFilter(q2, Numbers(f.groupId), GroupIdColumn);
    var q4 := AppendValueFilter(q3, Texts(f.groupName), GroupNameColumn);
    var q5 := AppendValueFilter(q4, Flags(f.isRunning), IsRunningColumn);
    AppendedValue(t, q, Numbers(f.userId), UserIdColumn, j);
    AppendedValue(t, q1, Texts(f.userName), UserNameColumn, j);
    AppendedValue(t, q2, Numbers(f.groupId), GroupIdColumn, j);
    AppendedValue(t, q3, Texts(f.groupName), GroupNameColumn, j);
    AppendedValue(t, q4, Flags(f.isRunning), IsRunningColumn, j);
    AppendedValue(t, q5, Texts(f.partition), PartitionColumn, j);
  }

  lemma RangesSelect(t: Tables, f: JobFilter, q: SelectQuery, j: Job)
    ensures Selected(t, AppendRanges(q, f), j) <==>
            && Selected(t, q, j)
            && InRange(f.numNodes, j.info.numNodes)
            && InRange(f.numTasks, j.info.numTasks)
            && InRange(f.numGpus, j.info.numNodes * j.info.gpusPerNode)
            && InRange(f.time, j.info.startTime)
  {
    var q1 := AppendRangeFilter(q, f.numNodes, NumNodesColumn);
    var q2 := AppendRangeFilter(q1, f.numTasks, NumTasksColumn);
    var q3 := AppendRangeFilter(q2, f.numGpus, NumGpusProduct);
    AppendedRange(t, q, f.numNodes, NumNodesColumn, j);
    AppendedRange(t, q1, f.numTasks, NumTasksColumn, j);
    AppendedRange(t, q2, f.numGpus, NumGpusProduct, j);
    AppendedRange(t, q3, f.time, StartTimeColumn, j);
  }

  /** Composes the query step by step; the rows it selects are the jobs matching the filter, in table order. */
  method GetFilteredJobs(t: Tables, f: JobFilter) returns (jobs: seq<Job>)
    ensures jobs == MatchingJobs(f, t, t.jobs)
    ensures PicksExactly(jobs, t.jobs, j => Matches(f, t, j))
  {
    var query := SelectQuery(None, []);
    var q0 := AppendTagFilter(query, f.tags);
    var q1 := AppendValueFilter(q0, Numbers(f.userId), UserIdColumn);
    var q2 := AppendValueFilter(q1, Texts(f.userName), UserNameColumn);
    var q3 := AppendValueFilter(q2, Numbers(f.groupId), GroupIdColumn);
    var q4 := AppendValueFilter(q3, Texts(f.groupName), GroupNameColumn);
    var q5 := AppendValueFilter(q4, Flags(f.isRunning), IsRunningColumn);
    var q6 := AppendValueFilter(q5, Texts(f.partition), PartitionColumn);
    var q7 := AppendRangeFilter(q6, f.numNodes, NumNodesColumn);
    var q8 := AppendRangeFilter(q7, f.numTasks, NumTasksColumn);
    var q9 := AppendRangeFilter(q8, f.numGpus, NumGpusProduct);
    query := AppendRangeFilter(q9, f.time, StartTimeColumn);
    forall j
      ensures Selected(t, query, j) <==> Matches(f, t, j)
    {
      ValuesSelect(t, f, q0, j);
      RangesSelect(t, f, q6, j);
    }
    RowsMatch(f, t, query, t.jobs);
    MatchingJobsPicked(f, t, t.jobs);
    jobs := Rows(t, query, t.jobs);
  }

  // ------------------------------------------------------------- tag filter

  predicate HasTag(t: Tables, j: Job, tag: int) {
    (j.id, tag) in t.jobToTags && tag in t.jobTags
  }

  function Elements(ids: seq<int>): set<int> {
    set i | i in ids
  }

  lemma NoDupCons(ids: seq<int>)
    requires ids != []
    ensures NoDup(ids) <==> ids[0] !in ids[1..] && NoDup(ids[1..])
  {
    assert ids == [ids[0]] + ids[1..];
  }

  /** The distinct elements of a list are as many as its positions exactly when none is repeated. */
  lemma {:induction false} DistinctCount(ids: seq<int>)
    ensures |Elements(ids)| <= |ids|
    ensures |Elements(ids)| == |ids| <==> NoDup(ids)
  {
    if ids != [] {
      var rest := ids[1..];
      DistinctCount(rest);
      NoDupCons(ids);
      assert Elements(ids) == Elements(rest) + {ids[0]} by {
        assert ids == [ids[0]] + rest;
      }
      if ids[0] in rest {
        assert Elements(rest) + {ids[0]} == Elements(rest);
      }
    }
  }

  /** Comparing a distinct count with the list length means: the list is not empty, names no tag twice
      and the job has every tag of it. */
  lemma TagCountMeaning(t: Tables, ids: seq<int>, j: Job)
    ensures InTagSubquery(t, ids, j) <==> ids != [] && NoDup(ids) && forall tag | tag in ids :: HasTag(t, j, tag)
  {
    var g := TagGroup(t, ids, j);
    var e := Elements(ids);
    DistinctCount(ids);
    assert g <= e;
    Cardinality(g, e);
    if forall tag | tag in ids :: HasTag(t, j, tag) {
      forall tag | tag in e
        ensures tag in g
      {
        assert (j.id, tag) in t.jobToTags;
      }
      assert g == e;
      if ids != [] {
        assert ids[0] in e;
      }
    } else {
      var tag :| tag in ids && !HasTag(t, j, tag);
      assert tag in e && tag !in g;
    }
  }

  lemma Cardinality(a: set<int>, b: set<int>)
    requires a <= b
    ensures |a| <= |b| && (|a| == |b| <==> a == b)
  {
    assert b == a + (b - a);
    assert |b| == |a| + |b - a|;
    if |b - a| == 0 {
      assert b - a == {};
    }
  }
}

/** From the search mask to the rows: printer, parser and query together. */
module FilterPipeline {
  import opened Wrappers
  import opened Decimal
  import opened Jobs
  import opened SearchParams
  import opened FilterParser
  import opened FilterQuery
  import opened Selections
  import opened Slices

  /** What the user asked for, without the two numeric ids. */
  predicate MeetsAllButIds(p: Params, t: Tables, j: Job) {
    && (p.userName.Some? && p.userName.value != "" ==> j.info.userName == p.userName.value)
    && (p.groupName.Some? && p.groupName.value != "" ==> j.info.groupName == p.groupName.value)
    && (p.isRunning.Some? ==> j.isRunning == p.isRunning.value)
    && (p.partition.Some? && p.partition.value != "" ==> j.info.partition == p.partition.value)
    && (p.numNodes.Some? && p.numNodes.value.from.Some? ==> p.numNodes.value.from.value <= j.info.numNodes)
    && (p.numNodes.Some? && p.numNodes.value.to.Some? ==> j.info.numNodes <= p.numNodes.value.to.value)
    && (p.numTasks.Some? && p.numTasks.value.from.Some? ==> p.numTasks.value.from.value <= j.info.numTasks)
    && (p.numTasks.Some? && p.numTasks.value.to.Some? ==> j.info.numTasks <= p.numTasks.value.to.value)
    && (p.numGpus.Some? && p.numGpus.value.from.Some? ==> p.numGpus.value.from.value <= j.info.numNodes * j.info.gpusPerNode)
    && (p.numGpus.Some? && p.numGpus.value.to.Some? ==> j.info.numNodes * j.info.gpusPerNode <= p.numGpus.value.to.value)
    && (p.time.Some? && p.time.value.from.Some? ==> p.time.value.from.value <= j.info.startTime)
    && (p.time.Some? && p.time.value.to.Some? ==> j.info.startTime <= p.time.value.to.value)
    && (p.tags.Some? ==> forall tag | tag in p.tags.value :: (j.id, tag) in t.jobToTags && tag in t.jobTags)
  }

  predicate Meets(p: Params, t: Tables, j: Job) {
    && MeetsAllButIds(p, t, j)
    && (p.userId.Some? ==> j.info.userId == p.userId.value)
    && (p.groupId.Some? ==> j.info.groupId == p.groupId.value)
  }

  /** All numbers of the search fit into the backend's integers. */
  predicate Representable(p: Params) {
    && EndFits(p.userId) && EndFits(p.groupId)
    && (p.numNodes.Some? ==> RangeFits(p.numNodes.value)) && (p.numTasks.Some? ==> RangeFits(p.numTasks.value))
    && (p.numGpus.Some? ==> RangeFits(p.numGpus.value)) && (p.time.Some? ==> RangeFits(p.time.value))
    && (p.tags.Some? ==> forall tag | tag in p.tags.value :: FitsInt64(tag))
  }

  function ParsedFilter(p: Params): JobFilter {
    FilterOf(k => SearchParams.Text(p, k))
  }

  lemma RangeArrives(r: Option<Range>)
    requires r.Some? ==> RangeFits(r.value)
    ensures ParseOptionalRange(TextOr(r, PrintRange)) == r
  {
    if r.Some? {
      RangeRoundTripIff(r.value);
    }
  }

  lemma IdIsDropped(id: Option<int>)
    requires EndFits(id)
    ensures ParseFailedId(TextOr(id, PrintInt)) == None
  {
    if id.Some? {
      AtoiOfPrinted(id.value);
    }
  }

  lemma CountsArrive(p: Params)
    requires Representable(p)
    ensures ParsedFilter(p).numNodes == p.numNodes && ParsedFilter(p).numTasks == p.numTasks
  {
    RangeArrives(p.numNodes);
    RangeArrives(p.numTasks);
  }

  lemma GpusAndTimeArrive(p: Params)
    requires Representable(p)
    ensures ParsedFilter(p).numGpus == p.numGpus && ParsedFilter(p).time == p.time
  {
    RangeArrives(p.numGpus);
    RangeArrives(p.time);
  }

  /** An empty text stands for no constraint. */
  function Meant(s: Option<string>): Option<string> {
    if s == Some("") then None else s
  }

  lemma TextsArrive(p: Params)
    ensures
      var f := ParsedFilter(p);
      && f.isRunning == p.isRunning
      && f.userName == Meant(p.userName) && f.groupName == Meant(p.groupName) && f.partition == Meant(p.partition)
  {
    if p.isRunning.Some? {
      assert "true"[0] != "false"[0];
    }
  }

  /** Every part of the search reaches the filter as it was meant, except that the numeric ids vanish. */
  lemma FilterArrives(p: Params)
    requires Representable(p)
    ensures ParsedFilter(p) == JobFilter(
              None, Meant(p.userName), None, Meant(p.groupName), p.isRunning, Meant(p.partition),
              p.numNodes, p.numTasks, p.numGpus, p.time, if p.tags == Some([]) then None else p.tags)
  {
    var f := ParsedFilter(p);
    CountsArrive(p);
    GpusAndTimeArrive(p);
    TextsArrive(p);
    assert f.userId == None && f.groupId == None by {
      IdIsDropped(p.userId);
      IdIsDropped(p.groupId);
    }
    assert f.tags == if p.tags == Some([]) then None else p.tags by {
      if p.tags.Some? {
        TagsRoundTrip(p.tags.value);
      }
    }
  }

  /** The main theorem: whatever combination of parameters was chosen, a job passes the query built from
      the parsed text exactly when it meets every parameter but the numeric ids - and, if tags were
      given, no tag was given twice. */
  lemma SearchSelectsExactly(p: Params, t: Tables, j: Job)
    requires Representable(p)
    ensures Matches(ParsedFilter(p), t, j) <==>
            MeetsAllButIds(p, t, j) && (p.tags.Some? ==> NoDup(p.tags.value))
  {
    FilterArrives(p);
    if p.tags.Some? {
      TagCountMeaning(t, p.tags.value, j);
    }
  }

  /** A search by user or group id returns the same jobs as one without it: the constraint is lost. */
  lemma NumericIdsHaveNoEffect(p: Params, t: Tables, jobs: seq<Job>)
    requires Representable(p)
    ensures MatchingJobs(ParsedFilter(p), t, jobs)
         == MatchingJobs(ParsedFilter(p.(userId := None, groupId := None)), t, jobs)
  {
    FilterArrives(p);
    FilterArrives(p.(userId := None, groupId := None));
  }

  predicate NotEmpty(r: Option<Range>) {
    r.Some? && r.value.from.Some? && r.value.to.Some? ==> r.value.from.value <= r.value.to.value
  }

  /** No range of the search is empty, and some number of nodes goes with some number of GPUs per node. */
  ghost predicate Consistent(p: Params) {
    && NotEmpty(p.numTasks) && NotEmpty(p.time)
    && exists n, g :: InRange(p.numNodes, n) && InRange(p.numGpus, n * g)
  }

  function Within(r: Option<Range>): (n: int)
    ensures NotEmpty(r) ==> InRange(r, n)
  {
    if r.None? then 0
    else if r.value.from.Some? then r.value.from.value
    else if r.value.to.Some? then r.value.to.value
    else 0
  }

  function Wanted<T>(v: Option<T>, otherwise: T): T {
    if v.Some? then v.value else otherwise
  }

  /** A job made to measure, with `n` nodes of `g` GPUs, and the tables that give it the tags. */
  function Example(p: Params, n: int, g: int, userId: int, groupId: int): Job {
    Job(0, JobInfo(userId, Wanted(p.userName, ""), groupId, Wanted(p.groupName, ""), n, Within(p.numTasks), g,
                   "", Wanted(p.partition, ""), Within(p.time)),
        0, Wanted(p.isRunning, false), 0, NoMetrics)
  }

  function ExampleTables(p: Params): Tables {
    var tags := Elements(Wanted(p.tags, []));
    Tables([], set tag | tag in tags :: (0, tag), tags)
  }

  lemma ExampleMeets(p: Params, n: int, g: int, userId: int, groupId: int)
    requires NotEmpty(p.numTasks) && NotEmpty(p.time) && InRange(p.numNodes, n) && InRange(p.numGpus, n * g)
    ensures MeetsAllButIds(p, ExampleTables(p), Example(p, n, g, userId, groupId))
  {
  }

  ghost predicate Exact(p: Params) {
    forall t, j :: Matches(ParsedFilter(p), t, j) <==> Meets(p, t, j)
  }

  /** No job can meet a search that is not consistent. */
  lemma OnlyConsistentSearchesAreMet(p: Params, t: Tables, j: Job)
    requires MeetsAllButIds(p, t, j)
    ensures Consistent(p)
  {
    assert InRange(p.numNodes, j.info.numNodes) && InRange(p.numGpus, j.info.numNodes * j.info.gpusPerNode);
  }

  /** A search returns what the user asked for, whatever the tables hold, if and only if it gives no
      numeric id and no tag twice - or contradicts itself anyway. */
  lemma SearchIsExactIff(p: Params)
    requires Representable(p)
    ensures Exact(p) <==> !Consistent(p) || (p.userId == p.groupId == None && (p.tags.Some? ==> NoDup(p.tags.value)))
  {
    forall t, j
      ensures Matches(ParsedFilter(p), t, j) <==> MeetsAllButIds(p, t, j) && (p.tags.Some? ==> NoDup(p.tags.value))
      ensures MeetsAllButIds(p, t, j) ==> Consistent(p)
    {
      SearchSelectsExactly(p, t, j);
      if MeetsAllButIds(p, t, j) {
        OnlyConsistentSearchesAreMet(p, t, j);
      }
    }
    if Consistent(p) && !(p.userId == p.groupId == None && (p.tags.Some? ==> NoDup(p.tags.value))) {
      var n, g :| InRange(p.numNodes, n) && InRange(p.numGpus, n * g);
      var u, v := Wanted(p.userId, 0), Wanted(p.groupId, 0);
      ExampleMeets(p, n, g, u, v);
      ExampleMeets(p, n, g, u + 1, v + 1);
      NotExactAt(p, ExampleTables(p), Example(p, n, g, u, v), Example(p, n, g, u + 1, v + 1));
    }
  }

  lemma NotExactAt(p: Params, t: Tables, asked: Job, other: Job)
    requires Representable(p) && Meets(p, t, asked) && MeetsAllButIds(p, t, other)
    requires p.userId.Some? ==> other.info.userId != p.userId.value
    requires p.groupId.Some? ==> other.info.groupId != p.groupId.value
    requires p.userId.Some? || p.groupId.Some? || (p.tags.Some? && !NoDup(p.tags.value))
    ensures !Exact(p)
  {
    SearchSelectsExactly(p, t, asked);
    SearchSelectsExactly(p, t, other);
  }

  /** The handler of a search: users without the admin role are confined to their own jobs. */
  method GetJobs(t: Tables, params: Query, isAdmin: bool, user: string) returns (jobs: seq<Job>)
    ensures
      var f := FilterOf(k => Get(params, k));
      PicksExactly(jobs, t.jobs, j => Matches(if isAdmin then f else f.(userName := Some(user)), t, j))
    ensures !isAdmin ==> forall j | j in jobs :: j.info.userName == user
    ensures forall j | j in jobs :: j in t.jobs
  {
    var filter := ParseGetJobParams(params);
    if !isAdmin {
      filter := filter.(userName := Some(user));
    }
    jobs := GetFilteredJobs(t, filter);
    forall j | j in jobs
      ensures j in t.jobs && Matches(filter, t, j)
    {
      PicksCounts(jobs, t.jobs, j => Matches(filter, t, j), j);
      assert j in multiset(jobs) && j in multiset(t.jobs);
    }
  }

  /** The search a user is allowed to make: an admin's as it is, anybody else's for the own jobs. */
  predicate Asked(p: Params, t: Tables, isAdmin: bool, user: string, j: Job) {
    if isAdmin then MeetsAllButIds(p, t, j)
    else j.info.userName == user && MeetsAllButIds(p.(userName := None), t, j)
  }

  lemma NameApart(p: Params)
    requires Representable(p)
    ensures ParsedFilter(p.(userName := None)) == ParsedFilter(p).(userName := None)
  {
    FilterArrives(p);
    FilterArrives(p.(userName := None));
  }

  lemma ConfinedMatches(f: JobFilter, t: Tables, j: Job, user: string)
    ensures Matches(f.(userName := Some(user)), t, j) <==>
            j.info.userName == user && Matches(f.(userName := None), t, j)
  {
  }

  lemma OwnSearchSelectsExactly(p: Params, t: Tables, isAdmin: bool, user: string, j: Job)
    requires Representable(p)
    ensures
      var f := ParsedFilter(p);
      Matches(if isAdmin then f else f.(userName := Some(user)), t, j) <==>
      Asked(p, t, isAdmin, user, j) && (p.tags.Some? ==> NoDup(p.tags.value))
  {
    if isAdmin {
      SearchSelectsExactly(p, t, j);
    } else {
      SearchSelectsExactly(p.(userName := None), t, j);
      NameApart(p);
      ConfinedMatches(ParsedFilter(p), t, j, user);
    }
  }

  /** End to end: serialise, parse, compose, run. Exactly the rows asked for are returned, each as often as
      it is in the table and in the same order. */
  method Search(p: Params, keys: seq<Key>, t: Tables, isAdmin: bool, user: string) returns (jobs: seq<Job>)
    requires Representable(p)
    requires forall i, j | 0 <= i < j < |keys| :: keys[i] != keys[j]
    requires forall k :: k !in keys ==> SearchParams.Text(p, k) == ""
    ensures PicksExactly(jobs, t.jobs, j => Asked(p, t, isAdmin, user, j) && (p.tags.Some? ==> NoDup(p.tags.value)))
    ensures forall j :: multiset(jobs)[j] ==
              if Asked(p, t, isAdmin, user, j) && (p.tags.Some? ==> NoDup(p.tags.value)) then multiset(t.jobs)[j] else 0
    ensures isAdmin && p.userId == p.groupId == None && (p.tags.Some? ==> NoDup(p.tags.value)) ==>
              PicksExactly(jobs, t.jobs, j => Meets(p, t, j))
  {
    var query := Serialise(p, keys);
    jobs := GetJobs(t, query, isAdmin, user);
    ghost var f := ParsedFilter(p);
    assert FilterOf(k => Get(query, k)) == f;
    ghost var matches := j => Matches(if isAdmin then f else f.(userName := Some(user)), t, j);
    ghost var asked := j => Asked(p, t, isAdmin, user, j) && (p.tags.Some? ==> NoDup(p.tags.value));
    forall j | j in t.jobs
      ensures matches(j) <==> asked(j)
    {
      OwnSearchSelectsExactly(p, t, isAdmin, user, j);
    }
    SamePicks(jobs, t.jobs, matches, asked);
    forall j
      ensures multiset(jobs)[j] == if asked(j) then multiset(t.jobs)[j] else 0
    {
      PicksCounts(jobs, t.jobs, asked, j);
    }
    if isAdmin && p.userId == p.groupId == None && (p.tags.Some? ==> NoDup(p.tags.value)) {
      SamePicks(jobs, t.jobs, asked, j => Meets(p, t, j));
    }
  }
}
