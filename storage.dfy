/** The repository: one object holding every table, whose methods insert,
    update and delete rows, each proved against the table functions of
    module Tables; and the one-time seeding of an empty database. */
module Storage {
  import opened Json
  import opened Wrappers
  import opened Schema
  import opened Sorting
  import opened Tables

  /** Tables with update and delete operations in the repository. */
  predicate Editable(t: TableName) {
    t != Users && t != Profile && t != Messages
  }

  /** Some user row has this username. */
  ghost predicate UsernameTaken(tb: Table, name: Json) {
    exists id :: id in tb.rows && "username" in tb.rows[id] && tb.rows[id]["username"] == name
  }

  /** The `unique()` constraint on `users.username`. */
  ghost predicate UniqueUsernames(tb: Table) {
    forall a, b :: a in tb.rows && b in tb.rows && a != b
      && "username" in tb.rows[a] && "username" in tb.rows[b]
      ==> tb.rows[a]["username"] != tb.rows[b]["username"]
  }

  /** Inserting a user whose username is not taken keeps usernames unique. */
  lemma InsertKeepsUnique(tb: Table, input: Row, now: int)
    requires WellFormed(Users, tb) && UniqueUsernames(tb)
    requires UserInsertOk(input) && input.Keys <= InsertKeys(Users)
    requires !UsernameTaken(tb, input["username"])
    ensures UniqueUsernames(Insert(Users, tb, input, now).table)
  {
    UserInsertRule(input);
    var id := tb.nextId;
    StoredRowConforms(Users, input, id, now);
    var rows := Insert(Users, tb, input, now).table.rows;
    assert rows[id]["username"] == input["username"];
    forall a, b | a in rows && b in rows && a != b && "username" in rows[a] && "username" in rows[b]
      ensures rows[a]["username"] != rows[b]["username"]
    {
      if a != id && b != id {
        assert rows[a] == tb.rows[a] && rows[b] == tb.rows[b];
      } else if a == id {
        assert rows[b] == tb.rows[b];
      } else {
        assert rows[a] == tb.rows[a];
      }
    }
  }

  /** The repository invariant on the tables: every table is present and well
      formed, there is at most one profile row, and usernames are unique. */
  ghost predicate ValidTables(tables: map<TableName, Table>) {
    (forall t: TableName :: t in tables && WellFormed(t, tables[t]))
    && |tables[Profile].rows| <= 1
    && UniqueUsernames(tables[Users])
  }

  /** Replacing one table by a table that keeps that table's part of the
      invariant keeps the invariant. */
  lemma ReplaceKeepsValid(tables: map<TableName, Table>, t: TableName, tb: Table)
    requires ValidTables(tables) && WellFormed(t, tb)
    requires t == Profile ==> |tb.rows| <= 1
    requires t == Users ==> UniqueUsernames(tb)
    ensures ValidTables(tables[t := tb])
  {
    var ts := tables[t := tb];
    forall u: TableName
      ensures u in ts && WellFormed(u, ts[u])
    {
      if u != t {
        assert ts[u] == tables[u];
      }
    }
  }

  class DatabaseStorage {
    var tables: map<TableName, Table>

    /** Every table is present and well formed, there is at most one profile
        row, and usernames are unique. */
    ghost predicate Valid()
      reads this
    {
      ValidTables(tables)
    }

    /** An empty database. */
    constructor ()
      ensures Valid()
      ensures forall t: TableName :: t in tables && tables[t] == EmptyTable
    {
      tables := map[Users := EmptyTable, Articles := EmptyTable, Skills := EmptyTable,
                    Experiences := EmptyTable, Education := EmptyTable, Activities := EmptyTable,
                    Values := EmptyTable, Profile := EmptyTable, Messages := EmptyTable];
      new;
      forall t: TableName
        ensures t in tables && WellFormed(t, tables[t])
      {
        assert t.Users? || t.Articles? || t.Skills? || t.Experiences? || t.Education?
            || t.Activities? || t.Values? || t.Profile? || t.Messages?;
        EmptyWellFormed(t);
      }
    }

    /** `create<Entity>`: insert the row and answer the input plus its new id. */
    method Create(t: TableName, input: Row, now: int) returns (record: Row)
      requires Valid() && t != Users && t != Profile
      requires Validates(t, input, false) && input.Keys <= InsertKeys(t)
      modifies this
      ensures Valid()
      ensures tables == old(tables)[t := Insert(t, old(tables)[t], input, now).table]
      ensures record == Insert(t, old(tables)[t], input, now).result
    {
      InsertSpec(t, tables[t], input, now);
      var s := Insert(t, tables[t], input, now);
      ReplaceKeepsValid(tables, t, s.table);
      tables := tables[t := s.table];
      record := s.result;
    }

    /** `get<Entity>(id)`: the row with that id, or undefined. */
    method Get(t: TableName, id: int) returns (r: Option<Row>)
      ensures t in tables ==> (r.Some? <==> id in tables[t].rows)
      ensures r.Some? ==> t in tables && id in tables[t].rows && r.value == tables[t].rows[id]
    {
      if t in tables && id in tables[t].rows {
        r := Some(tables[t].rows[id]);
      } else {
        r := None;
      }
    }

    /** `get<Entities>()`: every row once, ordered by the table's ORDER BY column. */
    method GetAll(t: TableName) returns (rows: seq<Row>)
      requires Valid()
      ensures IsListing(tables[t], rows)
      ensures SortedBy(rows, SqlKey(t))
    {
      ScanIsListing(t, tables[t]);
      rows := SortBy(Scan(tables[t]), SqlKey(t));
      SortBySorted(Scan(tables[t]), SqlKey(t));
      SortByPerm(Scan(tables[t]), SqlKey(t));
      ListingPermutation(tables[t], Scan(tables[t]), rows);
    }

    /** `getProfile()`: the first profile row, or undefined when there is none. */
    method GetProfile() returns (r: Option<Row>)
      requires Valid()
      ensures r.None? <==> tables[Profile].rows == map[]
      ensures r.Some? ==> exists id :: id in tables[Profile].rows && r.value == tables[Profile].rows[id]
                                       && First(tables[Profile]) == Some(id)
                                       && forall k :: k in tables[Profile].rows ==> id <= k
    {
      var tb := tables[Profile];
      FirstIsMinimum(Profile, tb);
      var first := First(tb);
      if first.Some? {
        r := Some(tb.rows[first.value]);
      } else {
        r := None;
      }
    }

    /** `update<Entity>(id, patch)`: the row after the update, or undefined
        when no row has that id. */
    method Update(t: TableName, id: int, patch: Row) returns (r: Option<Row>)
      requires Valid() && Editable(t)
      requires Validates(t, patch, true) && patch.Keys <= InsertKeys(t)
      modifies this
      ensures Valid()
      ensures tables == old(tables)[t := Tables.Update(old(tables)[t], id, patch).table]
      ensures r == Tables.Update(old(tables)[t], id, patch).result
    {
      if id in tables[t].rows {
        UpdatePresent(t, tables[t], id, patch);
      }
      var s := Tables.Update(tables[t], id, patch);
      ReplaceKeepsValid(tables, t, s.table);
      tables := tables[t := s.table];
      r := s.result;
    }

    /** `delete<Entity>(id)`: whether a row was removed. */
    method Delete(t: TableName, id: int) returns (deleted: bool)
      requires Valid() && t != Users && t != Profile
      modifies this
      ensures Valid()
      ensures tables == old(tables)[t := Tables.Delete(old(tables)[t], id).table]
      ensures deleted == Tables.Delete(old(tables)[t], id).result
    {
      DeleteSpec(t, tables[t], id);
      var s := Tables.Delete(tables[t], id);
      ReplaceKeepsValid(tables, t, s.table);
      tables := tables[t := s.table];
      deleted := s.result;
    }

    /** `updateProfile(data)`: update the existing profile or create the first one. */
    method UpdateProfile(data: Row, now: int) returns (r: Row)
      requires Valid()
      requires Validates(Profile, data, false) && data.Keys <= InsertKeys(Profile)
      modifies this
      ensures Valid()
      ensures tables == old(tables)[Profile := Upsert(old(tables)[Profile], data, now).table]
      ensures r == Upsert(old(tables)[Profile], data, now).result
    {
      UpsertSpec(tables[Profile], data, now);
      var s := Upsert(tables[Profile], data, now);
      ReplaceKeepsValid(tables, Profile, s.table);
      tables := tables[Profile := s.table];
      r := s.result;
    }

    /** `markMessageAsRead(id)`: whether the message exists. */
    method MarkMessageAsRead(id: int) returns (found: bool)
      requires Valid()
      modifies this
      ensures Valid()
      ensures tables == old(tables)[Messages := MarkRead(old(tables)[Messages], id).table]
      ensures found == MarkRead(old(tables)[Messages], id).result
    {
      MarkReadSpec(tables[Messages], id);
      var s := MarkRead(tables[Messages], id);
      ReplaceKeepsValid(tables, Messages, s.table);
      tables := tables[Messages := s.table];
      found := s.result;
    }

    /** `getUserByUsername(name)`: the user row with that name, or undefined. */
    method GetUserByUsername(name: string) returns (r: Option<Row>)
      requires Valid()
      ensures r.Some? <==> UsernameTaken(tables[Users], JStr(name))
      ensures r.Some? ==> r.value in tables[Users].rows.Values
                          && "username" in r.value && r.value["username"] == JStr(name)
    {
      var named := (row: Row) => "username" in row && row["username"] == JStr(name);
      WhereIsMinimum(Users, tables[Users], named);
      var found := Where(tables[Users], named);
      if found.Some? {
        r := Some(tables[Users].rows[found.value]);
      } else {
        r := None;
      }
    }

    /** `getUser(id)`. */
    method GetUser(id: int) returns (r: Option<Row>)
      requires Valid()
      ensures r.Some? <==> id in tables[Users].rows
      ensures r.Some? ==> r.value == tables[Users].rows[id]
    {
      r := Get(Users, id);
    }

    /** `createUser(user)`: the insert succeeds unless the username is taken,
        in which case the database rejects it and nothing changes. */
    method CreateUser(input: Row, now: int) returns (r: Option<Row>)
      requires Valid() && UserInsertOk(input) && input.Keys <= InsertKeys(Users)
      modifies this
      ensures Valid()
      ensures UsernameTaken(old(tables[Users]), input["username"]) ==> r.None? && tables == old(tables)
      ensures !UsernameTaken(old(tables[Users]), input["username"]) ==>
        && tables == old(tables)[Users := Insert(Users, old(tables[Users]), input, now).table]
        && r == Some(Insert(Users, old(tables[Users]), input, now).result)
    {
      UserInsertRule(input);
      var existing := GetUserByUsername(input["username"].s);
      if existing.Some? {
        r := None;
      } else {
        InsertSpec(Users, tables[Users], input, now);
        InsertKeepsUnique(tables[Users], input, now);
        var s := Insert(Users, tables[Users], input, now);
        ReplaceKeepsValid(tables, Users, s.table);
        tables := tables[Users := s.table];
        r := Some(s.result);
      }
    }
  }
}
