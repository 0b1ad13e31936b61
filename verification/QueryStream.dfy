/** Splitting the flat row stream of a metric query into one table per separation key. */
module QueryStream {
  import opened Wrappers
  import opened Selections

  /** A record of the stream: does it announce a schema, and the columns it has. */
  datatype Record = Record(tableChanged: bool, key: Option<string>, table: Option<int>, payload: seq<real>)

  datatype Row = Row(key: string, table: int, payload: seq<real>)

  predicate Complete(r: Record) {
    r.key.Some? && r.table.Some?
  }

  function RowOf(r: Record): Row
    requires Complete(r)
  {
    Row(r.key.value, r.table.value, r.payload)
  }

  function RowsOf(rs: seq<Record>): seq<Row>
    requires forall i | 0 <= i < |rs| :: Complete(rs[i])
  {
    seq(|rs|, i requires 0 <= i < |rs| => RowOf(rs[i]))
  }

  function Init<T>(s: seq<T>): seq<T>
    requires s != []
  {
    s[..|s| - 1]
  }

  function Last<T>(s: seq<T>): T
    requires s != []
  {
    s[|s| - 1]
  }

  /** The last row belongs to the same contiguous run as the row before it. */
  predicate Continues(rows: seq<Row>)
    requires rows != []
  {
    Init(rows) != [] && Last(Init(rows)).key == Last(rows).key && Last(Init(rows)).table == Last(rows).table
  }

  predicate HasKey(rows: seq<Row>, k: string) {
    exists i | 0 <= i < |rows| :: rows[i].key == k
  }

  /** The longest suffix of equal key and table number. */
  function TrailingRun(rows: seq<Row>): seq<Row> {
    if rows == [] then []
    else if Continues(rows) then TrailingRun(Init(rows)) + [Last(rows)]
    else [Last(rows)]
  }

  /** The last run with key `k`. */
  function LastRun(rows: seq<Row>, k: string): seq<Row> {
    if rows == [] then []
    else if Last(rows).key == k then TrailingRun(rows)
    else LastRun(Init(rows), k)
  }

  /** All rows with key `k`, in order. */
  function RowsWithKey(rows: seq<Row>, k: string): seq<Row> {
    if rows == [] then []
    else if Last(rows).key == k then RowsWithKey(Init(rows), k) + [Last(rows)]
    else RowsWithKey(Init(rows), k)
  }

  /** The tables after a stream: a row continues the run before it or starts its key's table anew. */
  function Tables(rows: seq<Row>): map<string, seq<Row>> {
    if rows == [] then map[]
    else
      var k := Last(rows).key;
      var before := Tables(Init(rows));
      before[k := if Continues(rows) && k in before then before[k] + [Last(rows)] else [Last(rows)]]
  }

  /** What makes the parser give up at record `i`: a second schema or a first record without a column. */
  predicate Rejected(rs: seq<Record>, i: nat)
    requires i < |rs|
  {
    rs[i].tableChanged && (i > 0 || !Complete(rs[i]))
  }

  /** Records `i` to `j - 1` are the last ones in a row with key `k` and one table number: their neighbours
      differ in one or the other, and no later record has the key. `rows` are these records. */
  ghost predicate LastRunAt(rs: seq<Record>, k: string, i: nat, j: nat, rows: seq<Row>) {
    && i < j <= |rs| && |rows| == j - i
    && (forall n | i <= n < j :: rs[n].key == Some(k) && rs[n].table == rs[i].table)
    && (i > 0 ==> rs[i - 1].key != Some(k) || rs[i - 1].table != rs[i].table)
    && (j < |rs| ==> rs[j].key != Some(k) || rs[j].table != rs[i].table)
    && (forall n | j <= n < |rs| :: rs[n].key != Some(k))
    && (forall n | 0 <= n < |rows| ::
          Some(rows[n].key) == rs[i + n].key && Some(rows[n].table) == rs[i + n].table
          && rows[n].payload == rs[i + n].payload)
  }

  /** One table for every key of the records, each the key's last run. */
  ghost predicate HoldsLastRuns(rs: seq<Record>, tables: map<string, seq<Row>>) {
    && (forall k :: k in tables <==> exists i :: 0 <= i < |rs| && rs[i].key == Some(k))
    && (forall k | k in tables :: exists i, j :: LastRunAt(rs, k, i, j, tables[k]))
  }

  /** Reads the stream. The database client announces a schema with the first record, and the code
      takes the columns of records that announce none unchecked. An empty stream yields an empty table
      under the empty key. */
  method ParseQueryResult(rs: seq<Record>) returns (result: Result<map<string, seq<Row>>>)
    requires rs != [] ==> rs[0].tableChanged
    requires forall i | 0 <= i < |rs| && !rs[i].tableChanged :: Complete(rs[i])
    ensures result.Err? <==>
              exists i :: 0 <= i < |rs| && rs[i].tableChanged && (i > 0 || rs[i].key.None? || rs[i].table.None?)
    ensures result.Ok? ==> forall i | 0 <= i < |rs| :: Complete(rs[i])
    ensures result.Ok? ==> result.value == if rs == [] then map["" := []] else Tables(RowsOf(rs))
    ensures result.Ok? && rs != [] ==> HoldsLastRuns(rs, result.value)
  {
    var tables: map<string, seq<Row>> := map[];
    var tableRows: seq<Row> := [];
    var key := "";
    var tableIndex := 0;
    var numResultTableChanges := 0;
    var i := 0;
    while i < |rs|
      invariant 0 <= i <= |rs|
      invariant numResultTableChanges == if i == 0 then 0 else 1
      invariant forall j | 0 <= j < i :: Complete(rs[j]) && !Rejected(rs, j)
      invariant i == 0 ==> tableRows == [] && tables == map[] && key == ""
      invariant i > 0 ==> rs[i - 1].key == Some(key) && rs[i - 1].table == Some(tableIndex)
      invariant i > 0 ==> tables[key := tableRows] == Tables(RowsOf(rs[..i]))
    {
      var r := rs[i];
      if r.tableChanged {
        numResultTableChanges := numResultTableChanges + 1;
        if numResultTableChanges > 1 {
          assert Rejected(rs, i);
          return Err;
        }
        if r.key.None? {
          assert Rejected(rs, i);
          return Err;
        }
        key := r.key.value;
        if r.table.None? {
          assert Rejected(rs, i);
          return Err;
        }
        tableIndex := r.table.value;
      }
      var row := RowOf(r);
      RowsSnoc(rs[..i + 1]);
      assert Init(rs[..i + 1]) == rs[..i] && Last(rs[..i + 1]) == r;
      ghost var rows := RowsOf(rs[..i + 1]);
      if i > 0 {
        assert Last(Init(rows)) == RowOf(rs[i - 1]);
        TablesStep(tables, key, tableRows, rows);
      } else {
        TablesOfFirst(row);
        assert rows == [row];
      }
      if row.table != tableIndex || row.key != key {
        tables := tables[key := tableRows];
        tableRows := [];
        tableIndex := row.table;
        key := row.key;
      }
      tableRows := tableRows + [row];
      i := i + 1;
    }
    assert rs[..i] == rs;
    assert forall n | 0 <= n < |rs| && rs[n].tableChanged :: !Rejected(rs, n);
    tables := tables[key := tableRows];
    result := Ok(tables);
    if rs != [] {
      TablesHoldLastRuns(rs);
    }
  }

  lemma TablesStep(tables: map<string, seq<Row>>, key: string, tableRows: seq<Row>, rows: seq<Row>)
    requires rows != [] && Init(rows) != [] && Last(Init(rows)).key == key
    requires tables[key := tableRows] == Tables(Init(rows))
    ensures Continues(rows) ==> tables[key := tableRows + [Last(rows)]] == Tables(rows)
    ensures !Continues(rows) ==> tables[key := tableRows][Last(rows).key := [] + [Last(rows)]] == Tables(rows)
  {
    assert Tables(Init(rows))[key] == tableRows;
    assert [] + [Last(rows)] == [Last(rows)];
  }

  lemma TablesOfFirst(row: Row)
    ensures Tables([row]) == map[row.key := [] + [row]]
  {
    assert Init([row]) == [] && [] + [row] == [row];
  }

  lemma RowsSnoc(rs: seq<Record>)
    requires rs != [] && forall i | 0 <= i < |rs| :: Complete(rs[i])
    ensures RowsOf(rs) != [] && Init(RowsOf(rs)) == RowsOf(Init(rs)) && Last(RowsOf(rs)) == RowOf(Last(rs))
  {
  }

  lemma HasKeySnoc(rows: seq<Row>, k: string)
    requires rows != []
    ensures HasKey(rows, k) <==> Last(rows).key == k || HasKey(Init(rows), k)
  {
    if i :| 0 <= i < |Init(rows)| && Init(rows)[i].key == k {
      assert rows[i].key == k;
    }
    if i :| 0 <= i < |rows| && rows[i].key == k {
      assert i < |rows| - 1 ==> Init(rows)[i].key == k;
    }
  }

  /** The parser keeps, under exactly the keys of the stream, the rows of the last run of each. */
  lemma {:induction false} TablesAreLastRuns(rows: seq<Row>, k: string)
    ensures k in Tables(rows) <==> HasKey(rows, k)
    ensures k in Tables(rows) ==> Tables(rows)[k] == LastRun(rows, k) && LastRun(rows, k) != []
  {
    if rows != [] {
      TablesAreLastRuns(Init(rows), k);
      HasKeySnoc(rows, k);
    }
  }

  /** The rows from `i` to the end of the list have one key and table number, and the row before differs. */
  ghost predicate EndsWithRun(rows: seq<Row>, i: nat) {
    && i < |rows|
    && (forall n | i <= n < |rows| :: rows[n].key == rows[i].key && rows[n].table == rows[i].table)
    && (i > 0 ==> rows[i - 1].key != rows[i].key || rows[i - 1].table != rows[i].table)
  }

  lemma LongerRun(rows: seq<Row>, i: nat, r: Row)
    requires EndsWithRun(rows, i) && r.key == Last(rows).key && r.table == Last(rows).table
    ensures EndsWithRun(rows + [r], i) && (rows + [r])[i..] == rows[i..] + [r]
  {
  }

  lemma NewRun(rows: seq<Row>, r: Row)
    requires rows == [] || Last(rows).key != r.key || Last(rows).table != r.table
    ensures EndsWithRun(rows + [r], |rows|) && (rows + [r])[|rows|..] == [r]
  {
  }

  lemma {:induction false} TrailingRunStart(rows: seq<Row>) returns (i: nat)
    requires rows != []
    ensures EndsWithRun(rows, i) && TrailingRun(rows) == rows[i..]
  {
    var init, r := Init(rows), Last(rows);
    if Continues(rows) {
      i := TrailingRunStart(init);
      LongerRun(init, i, r);
    } else {
      i := |init|;
      NewRun(init, r);
    }
    assert rows == init + [r];
  }

  lemma {:induction false} LastRunBounds(rows: seq<Row>, k: string) returns (i: nat, j: nat)
    requires HasKey(rows, k)
    ensures i < j <= |rows| && LastRun(rows, k) == rows[i..j] && EndsWithRun(rows[..j], i) && rows[i].key == k
    ensures forall n | j <= n < |rows| :: rows[n].key != k
  {
    if Last(rows).key == k {
      i := TrailingRunStart(rows);
      j := |rows|;
      assert rows[..j] == rows;
    } else {
      HasKeySnoc(rows, k);
      i, j := LastRunBounds(Init(rows), k);
      assert Init(rows)[i..j] == rows[i..j] && Init(rows)[..j] == rows[..j];
    }
  }

  lemma HasKeyOfRecords(rs: seq<Record>, k: string)
    requires forall i | 0 <= i < |rs| :: Complete(rs[i])
    ensures HasKey(RowsOf(rs), k) <==> exists i :: 0 <= i < |rs| && rs[i].key == Some(k)
  {
    if i :| 0 <= i < |rs| && rs[i].key == Some(k) {
      assert RowsOf(rs)[i].key == k;
    }
    if HasKey(RowsOf(rs), k) {
      var i :| 0 <= i < |rs| && RowsOf(rs)[i].key == k;
      assert rs[i].key == Some(k);
    }
  }

  /** What the tables are, in terms of the records. */
  lemma TablesHoldLastRuns(rs: seq<Record>)
    requires forall i | 0 <= i < |rs| :: Complete(rs[i])
    ensures HoldsLastRuns(rs, Tables(RowsOf(rs)))
  {
    var rows := RowsOf(rs);
    forall k
      ensures k in Tables(rows) <==> exists i :: 0 <= i < |rs| && rs[i].key == Some(k)
    {
      TablesAreLastRuns(rows, k);
      HasKeyOfRecords(rs, k);
    }
    forall k | k in Tables(rows)
      ensures exists i, j :: LastRunAt(rs, k, i, j, Tables(rows)[k])
    {
      TablesAreLastRuns(rows, k);
      var i, j := LastRunBounds(rows, k);
      RunOfRecords(rs, k, i, j);
    }
  }

  lemma RunOfRecords(rs: seq<Record>, k: string, i: nat, j: nat)
    requires (forall n | 0 <= n < |rs| :: Complete(rs[n])) && i < j <= |rs|
    requires EndsWithRun(RowsOf(rs)[..j], i) && RowsOf(rs)[i].key == k
    requires forall n | j <= n < |rs| :: RowsOf(rs)[n].key != k
    ensures LastRunAt(rs, k, i, j, RowsOf(rs)[i..j])
  {
    var before := RowsOf(rs)[..j];
    assert forall n | 0 <= n < j :: before[n] == RowOf(rs[n]);
    assert forall n | j <= n < |rs| :: RowsOf(rs)[n] == RowOf(rs[n]);
    forall n | i <= n < j
      ensures rs[n].key == Some(k) && rs[n].table == rs[i].table
    {
      assert before[n].key == before[i].key && before[n].table == before[i].table;
    }
  }

  /** Key `k` comes back: it starts a run after an earlier one has ended. */
  predicate ComesBack(rows: seq<Row>, k: string) {
    rows != [] &&
    (ComesBack(Init(rows), k) || (Last(rows).key == k && !Continues(rows) && HasKey(Init(rows), k)))
  }

  /** The table of a key is its group in the stream exactly when the key does not come back; otherwise
      rows are missing. */
  lemma {:induction false} TableIsGroupIff(rows: seq<Row>, k: string)
    ensures LastRun(rows, k) == RowsWithKey(rows, k) <==> !ComesBack(rows, k)
    ensures |LastRun(rows, k)| <= |RowsWithKey(rows, k)|
    ensures ComesBack(rows, k) ==> |LastRun(rows, k)| < |RowsWithKey(rows, k)|
    ensures RowsWithKey(rows, k) != [] <==> HasKey(rows, k)
  {
    if rows != [] {
      TableIsGroupIff(Init(rows), k);
      HasKeySnoc(rows, k);
    }
  }

  /** What coming back means: the key starts a run at `n`, but had a row before. */
  ghost predicate ComesBackAt(rows: seq<Row>, k: string, n: nat) {
    && 0 < n < |rows| && rows[n].key == k
    && (rows[n - 1].key != k || rows[n - 1].table != rows[n].table)
    && exists m | 0 <= m < n :: rows[m].key == k
  }

  lemma {:induction false} ComesBackIff(rows: seq<Row>, k: string)
    ensures ComesBack(rows, k) <==> exists n :: ComesBackAt(rows, k, n)
  {
    if rows != [] {
      var init := Init(rows);
      ComesBackIff(init, k);
      forall n: nat | n < |init|
        ensures ComesBackAt(rows, k, n) <==> ComesBackAt(init, k, n)
      {
        SameBefore(init, Last(rows), k, n);
        assert rows == init + [Last(rows)];
      }
      LastComesBack(init, Last(rows), k);
      assert rows == init + [Last(rows)];
      if ComesBack(rows, k) {
        if ComesBack(init, k) {
          var n :| ComesBackAt(init, k, n);
          assert ComesBackAt(rows, k, n);
        } else {
          assert ComesBackAt(rows, k, |init|);
        }
      }
    }
  }

  lemma SameBefore(init: seq<Row>, r: Row, k: string, n: nat)
    requires n < |init|
    ensures ComesBackAt(init + [r], k, n) <==> ComesBackAt(init, k, n)
  {
    assert forall m | 0 <= m <= n :: (init + [r])[m] == init[m];
  }

  lemma LastComesBack(init: seq<Row>, r: Row, k: string)
    ensures ComesBackAt(init + [r], k, |init|) <==> r.key == k && !Continues(init + [r]) && HasKey(init, k)
  {
    var rows := init + [r];
    assert Init(rows) == init && Last(rows) == r;
    assert forall m | 0 <= m < |init| :: rows[m] == init[m];
  }

  /** The rows of a key are all of them, in order. */
  lemma {:induction false} RowsWithKeyPicked(rows: seq<Row>, k: string)
    ensures PicksExactly(RowsWithKey(rows, k), rows, (r: Row) => r.key == k)
  {
    if rows == [] {
      PicksNothing((r: Row) => r.key == k);
    } else {
      RowsWithKeyPicked(Init(rows), k);
      PicksNext(RowsWithKey(Init(rows), k), Init(rows), Last(rows), (r: Row) => r.key == k);
      assert rows == Init(rows) + [Last(rows)];
    }
  }

  /** Number of rows in all tables. */
  ghost function Size(m: map<string, seq<Row>>): nat
    decreases |m|
  {
    if m == map[] then 0
    else
      var k :| k in m;
      |m[k]| + Size(m - {k})
  }

  lemma {:induction false} SizeRemove(m: map<string, seq<Row>>, k: string)
    requires k in m
    ensures Size(m) == |m[k]| + Size(m - {k})
    decreases |m|
  {
    var p :| p in m && Size(m) == |m[p]| + Size(m - {p});
    if p != k {
      SizeRemove(m - {p}, k);
      SizeRemove(m - {k}, p);
      assert m - {p} - {k} == m - {k} - {p};
    }
  }

  lemma SizeUpdate(m: map<string, seq<Row>>, k: string, v: seq<Row>)
    ensures Size(m[k := v]) + (if k in m then |m[k]| else 0) == Size(m) + |v|
  {
    SizeRemove(m[k := v], k);
    if k in m {
      SizeRemove(m, k);
      assert m[k := v] - {k} == m - {k};
    } else {
      assert m[k := v] - {k} == m;
    }
  }

  /** Number of rows overwritten when their key came back. */
  function Lost(rows: seq<Row>): nat {
    if rows == [] then 0
    else
      var k := Last(rows).key;
      Lost(Init(rows)) + if !Continues(rows) && HasKey(Init(rows), k) then |LastRun(Init(rows), k)| else 0
  }

  /** Kept and overwritten rows add up to the stream, and nothing is overwritten exactly when no key
      comes back. */
  lemma {:induction false} RowsAddUp(rows: seq<Row>)
    ensures Size(Tables(rows)) + Lost(rows) == |rows|
    ensures Lost(rows) == 0 <==> forall k | HasKey(rows, k) :: !ComesBack(rows, k)
  {
    if rows != [] {
      var init, k := Init(rows), Last(rows).key;
      RowsAddUp(init);
      TablesAreLastRuns(init, k);
      SizeUpdate(Tables(init), k, Tables(rows)[k]);
      assert Continues(rows) ==> HasKey(init, k) by {
        if Continues(rows) {
          assert init[|init| - 1].key == k;
        }
      }
      forall x
        ensures HasKey(rows, x) <==> x == k || HasKey(init, x)
      {
        HasKeySnoc(rows, x);
      }
      if forall x | HasKey(rows, x) :: !ComesBack(rows, x) {
        assert forall x | HasKey(init, x) :: !ComesBack(init, x);
        assert !ComesBack(rows, k);
      } else {
        var x :| HasKey(rows, x) && ComesBack(rows, x);
        if ComesBack(init, x) {
          ComesBackHasKey(init, x);
        }
      }
    }
  }

  lemma {:induction false} ComesBackHasKey(rows: seq<Row>, k: string)
    requires ComesBack(rows, k)
    ensures HasKey(rows, k)
  {
    HasKeySnoc(rows, k);
    if ComesBack(Init(rows), k) {
      ComesBackHasKey(Init(rows), k);
    }
  }
}
