/** What each storage operation does to one table, as functions on the
    table's contents, and the properties the repository promises of them. */
module Tables {
  import opened Json
  import opened Wrappers
  import opened Schema
  import opened Sorting

  /** A table's contents: rows by primary key, and the next auto-increment
      value (it starts at 1 and is never handed out twice). */
  datatype Table = Table(rows: map<int, Row>, nextId: int)

  const EmptyTable := Table(map[], 1)

  /** The new contents of a table after an operation, and the operation's result. */
  datatype Step<R> = Step(table: Table, result: R)

  /** Every row conforms to its table and carries its own key as "id"; every
      key is below the auto-increment counter. */
  ghost predicate WellFormed(t: TableName, tb: Table) {
    tb.nextId >= 1
    && forall id :: id in tb.rows ==>
      1 <= id < tb.nextId && RowConforms(t, tb.rows[id])
      && "id" in tb.rows[id] && tb.rows[id]["id"] == JNum(id)
  }

  lemma EmptyWellFormed(t: TableName)
    ensures WellFormed(t, EmptyTable)
  {
  }

  // INSERT

  /** `db.insert(table).values(input)`, answered by `{ ...input, id: insertId }`:
      the result is the input plus the new id, NOT the stored row. */
  function Insert(t: TableName, tb: Table, input: Row, now: int): Step<Row> {
    var id := tb.nextId;
    Step(Table(tb.rows[id := StoredRow(t, input, id, now)], id + 1), input["id" := JNum(id)])
  }

  /** An insert adds one row under a fresh id, keeps every other row, and
      returns exactly the input's fields plus that id, each of which the
      stored row agrees with. */
  lemma {:induction false} InsertSpec(t: TableName, tb: Table, input: Row, now: int)
    requires WellFormed(t, tb)
    requires Validates(t, input, false) && input.Keys <= InsertKeys(t)
    ensures var s := Insert(t, tb, input, now); var id := tb.nextId;
      && id !in tb.rows
      && WellFormed(t, s.table)
      && s.table.rows.Keys == tb.rows.Keys + {id}
      && (forall k :: k in tb.rows ==> s.table.rows[k] == tb.rows[k])
      && s.result.Keys == input.Keys + {"id"}
      && s.result["id"] == JNum(id)
      && (forall f :: f in input ==> s.result[f] == input[f])
      && (forall f :: f in s.result ==> f in s.table.rows[id] && s.table.rows[id][f] == s.result[f])
  {
    var id := tb.nextId;
    StoredRowConforms(t, input, id, now);
    DeclarationSound(t);
    var s := Insert(t, tb, input, now);
    forall k | k in s.table.rows
      ensures 1 <= k < s.table.nextId && RowConforms(t, s.table.rows[k])
      ensures "id" in s.table.rows[k] && s.table.rows[k]["id"] == JNum(k)
    {
      if k != id {
        assert s.table.rows[k] == tb.rows[k];
      }
    }
  }

  /** Repeated inserts, in order. */
  function InsertAll(t: TableName, tb: Table, inputs: seq<Row>, now: int): Table
    decreases |inputs|
  {
    if inputs == [] then tb
    else Insert(t, InsertAll(t, tb, inputs[..|inputs| - 1], now), inputs[|inputs| - 1], now).table
  }

  /** Inserting one more input is one more insert. */
  lemma InsertAllSnoc(t: TableName, tb: Table, inputs: seq<Row>, i: nat, now: int)
    requires i < |inputs|
    ensures InsertAll(t, tb, inputs[..i + 1], now) == Insert(t, InsertAll(t, tb, inputs[..i], now), inputs[i], now).table
  {
    assert inputs[..i + 1][..i] == inputs[..i];
  }

  /** n inserts add n rows. */
  lemma {:induction false} InsertAllCount(t: TableName, tb: Table, inputs: seq<Row>, now: int)
    requires WellFormed(t, tb)
    requires forall i :: 0 <= i < |inputs| ==>
      Validates(t, inputs[i], false) && inputs[i].Keys <= InsertKeys(t)
    ensures WellFormed(t, InsertAll(t, tb, inputs, now))
    ensures |InsertAll(t, tb, inputs, now).rows| == |tb.rows| + |inputs|
    ensures tb.rows.Keys <= InsertAll(t, tb, inputs, now).rows.Keys
    decreases |inputs|
  {
    if inputs != [] {
      var init := inputs[..|inputs| - 1];
      InsertAllCount(t, tb, init, now);
      var before := InsertAll(t, tb, init, now);
      InsertSpec(t, before, inputs[|inputs| - 1], now);
    }
  }

  // UPDATE

  /** `db.update(table).set(patch).where(id)`, then the row read back; None
      (`undefined`) when no row has that id. */
  function Update(tb: Table, id: int, patch: Row): Step<Option<Row>> {
    if id in tb.rows then
      var row := tb.rows[id] + patch;
      Step(Table(tb.rows[id := row], tb.nextId), Some(row))
    else Step(tb, None)
  }

  /** An update of an absent id returns undefined and changes nothing. */
  lemma UpdateAbsent(tb: Table, id: int, patch: Row)
    requires id !in tb.rows
    ensures Update(tb, id, patch) == Step(tb, None)
  {
  }

  /** An update of a present id changes only the supplied fields of that one
      row and returns the row as stored afterwards. */
  lemma UpdatePresent(t: TableName, tb: Table, id: int, patch: Row)
    requires WellFormed(t, tb) && id in tb.rows
    requires Validates(t, patch, true) && patch.Keys <= InsertKeys(t)
    ensures var s := Update(tb, id, patch);
      && WellFormed(t, s.table)
      && s.table.rows.Keys == tb.rows.Keys && s.table.nextId == tb.nextId
      && s.result == Some(s.table.rows[id])
      && (forall f :: f in patch ==> s.table.rows[id][f] == patch[f])
      && (forall f :: f in tb.rows[id] && f !in patch ==> s.table.rows[id][f] == tb.rows[id][f])
      && (forall k :: k in tb.rows && k != id ==> s.table.rows[k] == tb.rows[k])
  {
    PatchConforms(t, tb.rows[id], patch);
  }

  // DELETE

  /** `db.delete(table).where(id)`; true iff a row was removed. */
  function Delete(tb: Table, id: int): Step<bool> {
    Step(Table(tb.rows - {id}, tb.nextId), id in tb.rows)
  }

  /** A delete reports true iff the row existed, and removes only it. */
  lemma DeleteSpec(t: TableName, tb: Table, id: int)
    requires WellFormed(t, tb)
    ensures var s := Delete(tb, id);
      && WellFormed(t, s.table)
      && (s.result <==> id in tb.rows)
      && id !in s.table.rows
      && s.table.rows.Keys == tb.rows.Keys - {id}
      && (forall k :: k in s.table.rows ==> s.table.rows[k] == tb.rows[k])
  {
  }

  /** Deleting the same id again reports false and changes nothing. */
  lemma DeleteTwice(tb: Table, id: int)
    ensures var once := Delete(tb, id).table;
      Delete(once, id) == Step(once, false)
  {
    var once := Delete(tb, id).table;
    assert once.rows - {id} == once.rows;
  }

  // MESSAGES: the read flag

  /** `db.update(messages).set({ read: true }).where(id)`; true iff the id exists. */
  function MarkRead(tb: Table, id: int): Step<bool> {
    if id in tb.rows then Step(Table(tb.rows[id := tb.rows[id]["read" := JBool(true)]], tb.nextId), true)
    else Step(tb, false)
  }

  /** Marking sets `read` on that message only, keeps the table conforming,
      and reports whether the message exists. */
  lemma MarkReadSpec(tb: Table, id: int)
    requires WellFormed(Messages, tb)
    ensures var s := MarkRead(tb, id);
      && WellFormed(Messages, s.table)
      && (s.result <==> id in tb.rows)
      && s.table.rows.Keys == tb.rows.Keys
      && (id in tb.rows ==> s.table.rows[id] == tb.rows[id]["read" := JBool(true)])
      && (forall k :: k in tb.rows && k != id ==> s.table.rows[k] == tb.rows[k])
  {
    if id in tb.rows {
      var row := tb.rows[id]["read" := JBool(true)];
      assert RowConforms(Messages, row) by {
        assert "read" in Declaration(Messages);
      }
    }
  }

  /** Marking twice is the same as marking once. */
  lemma MarkReadIdempotent(tb: Table, id: int)
    ensures MarkRead(MarkRead(tb, id).table, id) == MarkRead(tb, id)
  {
    if id in tb.rows {
      var row := tb.rows[id]["read" := JBool(true)];
      assert row["read" := JBool(true)] == row;
    }
  }

  /** The read flag only goes from false to true. */
  lemma ReadIsMonotone(tb: Table, id: int, other: int)
    requires other in tb.rows && "read" in tb.rows[other] && tb.rows[other]["read"] == JBool(true)
    ensures var after := MarkRead(tb, id).table;
      other in after.rows && after.rows[other]["read"] == JBool(true)
  {
  }

  // SELECT

  /** The lowest id in [k, stop) whose row satisfies p: the row a
      `select ... where p limit 1` yields, rows being scanned in key order. */
  function FirstWhere(rows: map<int, Row>, p: Row -> bool, k: int, stop: int): (r: Option<int>)
    ensures r.Some? ==> k <= r.value < stop && r.value in rows && p(rows[r.value])
                        && forall j :: k <= j < r.value && j in rows ==> !p(rows[j])
    ensures r.None? ==> forall j :: k <= j < stop && j in rows ==> !p(rows[j])
    decreases stop - k
  {
    if k >= stop then None
    else if k in rows && p(rows[k]) then Some(k)
    else FirstWhere(rows, p, k + 1, stop)
  }

  /** The key of the first row satisfying p. */
  function Where(tb: Table, p: Row -> bool): Option<int> {
    FirstWhere(tb.rows, p, 1, tb.nextId)
  }

  /** Where finds the smallest key whose row satisfies p, and nothing only
      when no row does. */
  lemma WhereIsMinimum(t: TableName, tb: Table, p: Row -> bool)
    requires WellFormed(t, tb)
    ensures Where(tb, p).None? <==> forall k :: k in tb.rows ==> !p(tb.rows[k])
    ensures Where(tb, p).Some? ==>
      var id := Where(tb, p).value;
      id in tb.rows && p(tb.rows[id]) && forall k :: k in tb.rows && p(tb.rows[k]) ==> id <= k
  {
    forall k | k in tb.rows && p(tb.rows[k])
      ensures Where(tb, p).Some?
    {
      assert 1 <= k < tb.nextId;
    }
  }

  function AnyRow(r: Row): bool { true }

  /** The key of the row `select ... limit 1` yields. */
  function First(tb: Table): Option<int> {
    Where(tb, AnyRow)
  }

  /** First finds the smallest key, and nothing only in an empty table. */
  lemma FirstIsMinimum(t: TableName, tb: Table)
    requires WellFormed(t, tb)
    ensures First(tb).None? <==> tb.rows == map[]
    ensures First(tb).Some? ==> First(tb).value in tb.rows
                                && forall k :: k in tb.rows ==> First(tb).value <= k
  {
    WhereIsMinimum(t, tb, AnyRow);
    if First(tb).None? {
      assert tb.rows.Keys == {};
    }
  }

  /** The rows with keys in [k, stop), in key order. */
  function RowsFrom(rows: map<int, Row>, k: int, stop: int): seq<Row>
    decreases stop - k
  {
    if k >= stop then []
    else (if k in rows then [rows[k]] else []) + RowsFrom(rows, k + 1, stop)
  }

  /** The table's rows in key order, as an unordered `select` delivers them. */
  function Scan(tb: Table): seq<Row> {
    RowsFrom(tb.rows, 1, tb.nextId)
  }

  lemma {:induction false} RowsFromSpec(t: TableName, tb: Table, k: int)
    requires WellFormed(t, tb) && 1 <= k
    ensures forall i :: 0 <= i < |RowsFrom(tb.rows, k, tb.nextId)| ==>
      RowsFrom(tb.rows, k, tb.nextId)[i] in tb.rows.Values
    ensures forall id :: id in tb.rows && k <= id ==> multiset(RowsFrom(tb.rows, k, tb.nextId))[tb.rows[id]] == 1
    ensures forall id :: id in tb.rows && id < k ==> multiset(RowsFrom(tb.rows, k, tb.nextId))[tb.rows[id]] == 0
    decreases tb.nextId - k
  {
    var s := RowsFrom(tb.rows, k, tb.nextId);
    if k < tb.nextId {
      RowsFromSpec(t, tb, k + 1);
      var head := if k in tb.rows then [tb.rows[k]] else [];
      var tail := RowsFrom(tb.rows, k + 1, tb.nextId);
      assert forall j :: 0 <= j < |tail| ==> tail[j] in tb.rows.Values;
      assert s == head + tail;
      forall i | 0 <= i < |s|
        ensures s[i] in tb.rows.Values
      {
        if i < |head| {
          assert s[i] == tb.rows[k];
          assert tb.rows[k] in tb.rows.Values;
        } else {
          assert s[i] == tail[i - |head|];
          assert tail[i - |head|] in tb.rows.Values;
        }
      }
      HeadCount(t, tb, k);
    }
  }

  /** The row at key k, if any, is counted once, and no other row at all:
      distinct keys carry distinct ids. */
  lemma HeadCount(t: TableName, tb: Table, k: int)
    requires WellFormed(t, tb)
    ensures forall id :: id in tb.rows ==>
      multiset(if k in tb.rows then [tb.rows[k]] else [])[tb.rows[id]] == if id == k then 1 else 0
  {
    forall id | id in tb.rows
      ensures multiset(if k in tb.rows then [tb.rows[k]] else [])[tb.rows[id]] == if id == k then 1 else 0
    {
      if k in tb.rows && id != k {
        assert tb.rows[id]["id"] != tb.rows[k]["id"];
      }
    }
  }

  /** The column each list read orders by: articles by id, messages by
      creation time, the rest by their display rank. */
  function OrderColumn(t: TableName): string {
    match t
    case Articles => "id"
    case Messages => "createdAt"
    case _ => "order"
  }

  /** A row's sort key on a column; NULL (or a missing column) sorts first. */
  function ColumnKey(col: string, r: Row): SortKey {
    if col in r && r[col].JNum? then Num(r[col].n) else Low
  }

  function SqlKey(t: TableName): Row -> SortKey {
    r => ColumnKey(OrderColumn(t), r)
  }

  /** rows lists the table: every stored row exactly once, and nothing else. */
  ghost predicate IsListing(tb: Table, rows: seq<Row>) {
    (forall i :: 0 <= i < |rows| ==> rows[i] in tb.rows.Values)
    && (forall id :: id in tb.rows ==> multiset(rows)[tb.rows[id]] == 1)
  }

  /** The scan lists every row exactly once. */
  lemma ScanIsListing(t: TableName, tb: Table)
    requires WellFormed(t, tb)
    ensures IsListing(tb, Scan(tb))
  {
    RowsFromSpec(t, tb, 1);
    assert Scan(tb) == RowsFrom(tb.rows, 1, tb.nextId);
  }

  /** A permutation of a listing is a listing. */
  lemma ListingPermutation(tb: Table, rows: seq<Row>, rows': seq<Row>)
    requires IsListing(tb, rows) && multiset(rows') == multiset(rows)
    ensures IsListing(tb, rows')
  {
    forall i | 0 <= i < |rows'|
      ensures rows'[i] in tb.rows.Values
    {
      assert rows'[i] in multiset(rows);
      var j :| 0 <= j < |rows| && rows[j] == rows'[i];
    }
  }

  // PROFILE

  /** `updateProfile`: update the first profile row with the data and answer
      `{ ...existing, ...profileData }`, or insert when there is none. */
  function Upsert(tb: Table, data: Row, now: int): Step<Row> {
    match First(tb)
    case Some(id) =>
      var merged := tb.rows[id] + data;
      Step(Update(tb, id, data).table, merged)
    case None => Insert(Profile, tb, data, now)
  }

  /** An upsert on an empty table inserts exactly one row and answers the
      data plus its new id; on a non-empty one it merges the data into the
      lowest-id row, leaves every other row alone, and answers the merged row
      `{ ...existing, ...data }` as stored. */
  lemma {:induction false} UpsertSpec(tb: Table, data: Row, now: int)
    requires WellFormed(Profile, tb)
    requires Validates(Profile, data, false) && data.Keys <= InsertKeys(Profile)
    ensures var s := Upsert(tb, data, now);
      && WellFormed(Profile, s.table)
      && (tb.rows == map[] ==> |s.table.rows| == 1)
      && (tb.rows == map[] ==> s.table == Insert(Profile, tb, data, now).table)
      && (tb.rows == map[] ==> s.result == data["id" := JNum(tb.nextId)])
      && (tb.rows != map[] ==> s.table.rows.Keys == tb.rows.Keys)
      && (tb.rows != map[] ==> s.result in s.table.rows.Values)
      && (tb.rows != map[] ==>
            && First(tb).Some?
            && (forall k :: k in tb.rows ==> First(tb).value <= k)
            && s.result == tb.rows[First(tb).value] + data
            && s.table == Table(tb.rows[First(tb).value := s.result], tb.nextId))
      && (forall f :: f in data ==> s.result[f] == data[f])
  {
    FirstIsMinimum(Profile, tb);
    match First(tb)
    case Some(id) =>
      FullImpliesPartial(Profile, data);
      UpdatePresent(Profile, tb, id, data);
    case None =>
      InsertSpec(Profile, tb, data, now);
      var s := Upsert(tb, data, now);
      assert s.table.rows.Keys == {tb.nextId};
  }

  /** Sequential upserts, in order. */
  function UpsertAll(tb: Table, datas: seq<Row>, now: int): Table
    decreases |datas|
  {
    if datas == [] then tb
    else Upsert(UpsertAll(tb, datas[..|datas| - 1], now), datas[|datas| - 1], now).table
  }

  /** However many sequential upserts run, a table with at most one row ends
      with exactly one once any upsert ran. */
  lemma {:induction false} UpsertAllSingleRow(tb: Table, datas: seq<Row>, now: int)
    requires WellFormed(Profile, tb) && |tb.rows| <= 1
    requires forall i :: 0 <= i < |datas| ==>
      Validates(Profile, datas[i], false) && datas[i].Keys <= InsertKeys(Profile)
    ensures WellFormed(Profile, UpsertAll(tb, datas, now))
    ensures |UpsertAll(tb, datas, now).rows| == if datas == [] then |tb.rows| else 1
    decreases |datas|
  {
    if datas != [] {
      var init := datas[..|datas| - 1];
      UpsertAllSingleRow(tb, init, now);
      var before := UpsertAll(tb, init, now);
      UpsertSpec(before, datas[|datas| - 1], now);
      if before.rows != map[] {
        var after := Upsert(before, datas[|datas| - 1], now).table;
        assert |after.rows.Keys| == |before.rows.Keys|;
      }
    }
  }
}
