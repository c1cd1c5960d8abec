/** The table declarations of the portfolio's database and the insert schemas
    derived from them: which fields a request body must carry, which it may
    carry, which are dropped, and what the database fills in by default. */
module Schema {
  import opened Json
  import opened Wrappers

  datatype TableName =
    Users | Articles | Skills | Experiences | Education | Activities | Values | Profile | Messages

  /** Column types as the validator sees them: varchar and text are both strings. */
  datatype Kind = Str | Int | Bool | Timestamp

  /** A column's DEFAULT: none, a constant, the insertion time (`defaultNow()`)
      or the auto-increment counter of the primary key. */
  datatype Default = NoDefault | Const(value: Json) | Now | AutoIncrement

  datatype Column = Column(kind: Kind, notNull: bool, defaultValue: Default)

  /** `int().primaryKey().autoincrement()` */
  const Serial := Column(Int, true, AutoIncrement)

  /** A column declared with `.notNull()` and no default. */
  function Required(k: Kind): Column { Column(k, true, NoDefault) }

  /** A column declared without `.notNull()` and without a default. */
  function Nullable(k: Kind): Column { Column(k, false, NoDefault) }

  /** A nullable column with `.default(v)`. */
  function Defaulted(k: Kind, v: Json): Column { Column(k, false, Const(v)) }

  /** The columns of each table, by the property name the code uses. */
  function Declaration(t: TableName): map<string, Column> {
    match t
    case Users =>
      map["id" := Serial, "username" := Required(Str), "password" := Required(Str)]
    case Articles =>
      map["id" := Serial, "title" := Required(Str), "content" := Required(Str),
          "excerpt" := Required(Str), "category" := Required(Str),
          "imageUrl" := Nullable(Str), "published" := Defaulted(Bool, JBool(false)),
          "createdAt" := Column(Timestamp, false, Now)]
    case Skills =>
      map["id" := Serial, "name" := Required(Str), "category" := Required(Str),
          "percentage" := Required(Int), "icon" := Nullable(Str),
          "order" := Defaulted(Int, JNum(0))]
    case Experiences =>
      map["id" := Serial, "title" := Required(Str), "company" := Required(Str),
          "description" := Required(Str), "startDate" := Required(Str),
          "endDate" := Nullable(Str), "current" := Defaulted(Bool, JBool(false)),
          "order" := Defaulted(Int, JNum(0))]
    case Education =>
      map["id" := Serial, "degree" := Required(Str), "institution" := Required(Str),
          "description" := Required(Str), "startDate" := Required(Str),
          "endDate" := Required(Str), "order" := Defaulted(Int, JNum(0))]
    case Activities =>
      map["id" := Serial, "title" := Required(Str), "description" := Required(Str),
          "icon" := Required(Str), "order" := Defaulted(Int, JNum(0))]
    case Values =>
      map["id" := Serial, "title" := Required(Str), "description" := Required(Str),
          "icon" := Required(Str), "order" := Defaulted(Int, JNum(0))]
    case Profile =>
      map["id" := Serial, "name" := Required(Str), "email" := Required(Str),
          "phone" := Nullable(Str), "location" := Nullable(Str), "age" := Nullable(Int),
          "position" := Nullable(Str), "tagline" := Nullable(Str), "bio" := Required(Str),
          "imageUrl" := Nullable(Str)]
    case Messages =>
      map["id" := Serial, "name" := Required(Str), "email" := Required(Str),
          "subject" := Required(Str), "message" := Required(Str),
          "createdAt" := Column(Timestamp, false, Now), "read" := Defaulted(Bool, JBool(false))]
  }

  /** The columns each insert schema keeps: `.pick` for users, `.omit` for the rest. */
  function InsertKeys(t: TableName): set<string> {
    match t
    case Users => Declaration(t).Keys * {"username", "password"}
    case Articles => Declaration(t).Keys - {"id", "createdAt"}
    case Messages => Declaration(t).Keys - {"id", "createdAt", "read"}
    case _ => Declaration(t).Keys - {"id"}
  }

  /** JSON values the validator accepts for a column type. A timestamp wants a
      Date object, which a JSON body cannot carry. */
  predicate Accepts(k: Kind, v: Json) {
    match k
    case Str => v.JStr?
    case Int => v.JNum?
    case Bool => v.JBool?
    case Timestamp => false
  }

  /** The check an insert schema makes of one column: a present value must
      have the column's type, or be null where the column is nullable; an
      absent value is allowed when the column is nullable, has a default, or
      the schema is `.partial()`. */
  predicate ColumnOk(c: Column, name: string, body: Row, partial: bool) {
    if name in body then
      (body[name].JNull? && !c.notNull) || Accepts(c.kind, body[name])
    else
      partial || !c.notNull || c.defaultValue != NoDefault
  }

  /** `insert<T>Schema.safeParse(body).success`, or with `.partial()`. */
  predicate Validates(t: TableName, body: Row, partial: bool) {
    forall name :: name in InsertKeys(t) && name in Declaration(t) ==>
      ColumnOk(Declaration(t)[name], name, body, partial)
  }

  /** The parsed data: the object schema drops every key it does not declare. */
  function Strip(t: TableName, body: Row): (r: Row)
    ensures r.Keys == body.Keys * InsertKeys(t)
    ensures forall k :: k in r ==> r[k] == body[k]
  {
    map k | k in body && k in InsertKeys(t) :: body[k]
  }

  /** `safeParse`: the parsed data on success, None on a validation error. */
  function SafeParse(t: TableName, body: Row, partial: bool): (r: Option<Row>)
    ensures r.Some? <==> Validates(t, body, partial)
    ensures r.Some? ==> r.value.Keys <= InsertKeys(t) && Validates(t, r.value, partial)
  {
    if Validates(t, body, partial) then Some(Strip(t, body)) else None
  }

  // Per-entity reading of the rules, in the terms a client of the API uses.

  predicate ReqStr(b: Row, k: string) { k in b && b[k].JStr? }
  predicate ReqInt(b: Row, k: string) { k in b && b[k].JNum? }
  predicate OptStr(b: Row, k: string) { k !in b || b[k].JNull? || b[k].JStr? }
  predicate OptInt(b: Row, k: string) { k !in b || b[k].JNull? || b[k].JNum? }
  predicate OptBool(b: Row, k: string) { k !in b || b[k].JNull? || b[k].JBool? }

  predicate UserInsertOk(b: Row) {
    ReqStr(b, "username") && ReqStr(b, "password")
  }

  predicate ArticleInsertOk(b: Row) {
    ReqStr(b, "title") && ReqStr(b, "content") && ReqStr(b, "excerpt") && ReqStr(b, "category")
    && OptStr(b, "imageUrl") && OptBool(b, "published")
  }

  predicate SkillInsertOk(b: Row) {
    ReqStr(b, "name") && ReqStr(b, "category") && ReqInt(b, "percentage")
    && OptStr(b, "icon") && OptInt(b, "order")
  }

  predicate ExperienceInsertOk(b: Row) {
    ReqStr(b, "title") && ReqStr(b, "company") && ReqStr(b, "description") && ReqStr(b, "startDate")
    && OptStr(b, "endDate") && OptBool(b, "current") && OptInt(b, "order")
  }

  predicate EducationInsertOk(b: Row) {
    ReqStr(b, "degree") && ReqStr(b, "institution") && ReqStr(b, "description")
    && ReqStr(b, "startDate") && ReqStr(b, "endDate") && OptInt(b, "order")
  }

  /** Activities and values share one shape. */
  predicate TitledInsertOk(b: Row) {
    ReqStr(b, "title") && ReqStr(b, "description") && ReqStr(b, "icon") && OptInt(b, "order")
  }

  predicate ProfileInsertOk(b: Row) {
    ReqStr(b, "name") && ReqStr(b, "email") && ReqStr(b, "bio")
    && OptStr(b, "phone") && OptStr(b, "location") && OptInt(b, "age")
    && OptStr(b, "position") && OptStr(b, "tagline") && OptStr(b, "imageUrl")
  }

  predicate MessageInsertOk(b: Row) {
    ReqStr(b, "name") && ReqStr(b, "email") && ReqStr(b, "subject") && ReqStr(b, "message")
  }

  lemma UserInsertRule(b: Row)
    ensures InsertKeys(Users) == {"username", "password"}
    ensures Validates(Users, b, false) <==> UserInsertOk(b)
  {
  }

  lemma ArticleInsertRule(b: Row)
    ensures InsertKeys(Articles) == {"title", "content", "excerpt", "category", "imageUrl", "published"}
    ensures Validates(Articles, b, false) <==> ArticleInsertOk(b)
  {
  }

  lemma SkillInsertRule(b: Row)
    ensures InsertKeys(Skills) == {"name", "category", "percentage", "icon", "order"}
    ensures Validates(Skills, b, false) <==> SkillInsertOk(b)
  {
  }

  lemma ExperienceInsertRule(b: Row)
    ensures InsertKeys(Experiences)
         == {"title", "company", "description", "startDate", "endDate", "current", "order"}
    ensures Validates(Experiences, b, false) <==> ExperienceInsertOk(b)
  {
  }

  lemma EducationInsertRule(b: Row)
    ensures InsertKeys(Education)
         == {"degree", "institution", "description", "startDate", "endDate", "order"}
    ensures Validates(Education, b, false) <==> EducationInsertOk(b)
  {
  }

  lemma TitledInsertRule(b: Row)
    ensures InsertKeys(Activities) == InsertKeys(Values) == {"title", "description", "icon", "order"}
    ensures Validates(Activities, b, false) <==> TitledInsertOk(b)
    ensures Validates(Values, b, false) <==> TitledInsertOk(b)
  {
  }

  lemma ProfileInsertRule(b: Row)
    ensures InsertKeys(Profile)
         == {"name", "email", "phone", "location", "age", "position", "tagline", "bio", "imageUrl"}
    ensures Validates(Profile, b, false) <==> ProfileInsertOk(b)
  {
  }

  lemma MessageInsertRule(b: Row)
    ensures InsertKeys(Messages) == {"name", "email", "subject", "message"}
    ensures Validates(Messages, b, false) <==> MessageInsertOk(b)
  {
  }

  /** A percentage is any integer: no range is enforced. */
  lemma PercentageUnbounded(p: int)
    ensures Validates(Skills, map["name" := JStr("Go"), "category" := JStr("Backend"),
                                  "percentage" := JNum(p)], false)
  {
    SkillInsertRule(map["name" := JStr("Go"), "category" := JStr("Backend"), "percentage" := JNum(p)]);
  }

  /** An education entry needs an end date; an experience may have a null one. */
  lemma EndDateNullability(b: Row)
    requires b == map["title" := JStr("t"), "company" := JStr("c"), "degree" := JStr("d"),
                      "institution" := JStr("i"), "description" := JStr("x"),
                      "startDate" := JStr("2019"), "endDate" := JNull]
    ensures Validates(Experiences, b, false)
    ensures !Validates(Education, b, false)
  {
    ExperienceInsertRule(b);
    EducationInsertRule(b);
  }

  /** A message body without an email fails validation. */
  lemma MessageNeedsEmail(b: Row)
    requires "email" !in b
    ensures SafeParse(Messages, b, false).None?
  {
    MessageInsertRule(b);
  }

  /** Every body that passes an insert schema passes its `.partial()` form. */
  lemma FullImpliesPartial(t: TableName, b: Row)
    requires Validates(t, b, false)
    ensures Validates(t, b, true)
  {
  }

  // What the database stores.

  /** The value a column gets when an INSERT leaves it out. */
  function DefaultOf(c: Column, id: int, now: int): Json {
    match c.defaultValue
    case NoDefault => JNull
    case Const(v) => v
    case Now => JNum(now)
    case AutoIncrement => JNum(id)
  }

  /** The row stored for an INSERT of `input` that got id `id` at time `now`
      (timestamps are kept as milliseconds). */
  function StoredRow(t: TableName, input: Row, id: int, now: int): (r: Row)
    ensures r.Keys == Declaration(t).Keys
  {
    map k | k in Declaration(t) :: if k in input then input[k] else DefaultOf(Declaration(t)[k], id, now)
  }

  /** The values the database holds for a column type. */
  predicate Holds(k: Kind, v: Json) {
    match k
    case Str => v.JStr?
    case Int => v.JNum?
    case Bool => v.JBool?
    case Timestamp => v.JNum?
  }

  predicate CellOk(c: Column, v: Json) {
    (v.JNull? && !c.notNull) || Holds(c.kind, v)
  }

  /** A stored row has every column of its table, each with a value the
      column admits (NOT NULL respected). */
  predicate RowConforms(t: TableName, row: Row) {
    row.Keys == Declaration(t).Keys
    && forall k :: k in row ==> CellOk(Declaration(t)[k], row[k])
  }

  /** The declarations are consistent: defaults have the column's type, and
      every column an insert schema drops has a default. */
  lemma DeclarationSound(t: TableName)
    ensures "id" in Declaration(t) && Declaration(t)["id"] == Serial && "id" !in InsertKeys(t)
    ensures InsertKeys(t) <= Declaration(t).Keys
    ensures forall k :: k in Declaration(t) ==>
      match Declaration(t)[k].defaultValue
      case NoDefault => k in InsertKeys(t)
      case Const(v) => CellOk(Declaration(t)[k], v)
      case Now => Declaration(t)[k].kind == Timestamp
      case AutoIncrement => Declaration(t)[k].kind == Int
  {
    match t
    case Users =>
    case Articles =>
    case Skills =>
    case Experiences =>
    case Education =>
    case Activities =>
    case Values =>
    case Profile =>
    case Messages =>
  }

  /** What an insert stores always conforms to the table. */
  lemma StoredRowConforms(t: TableName, input: Row, id: int, now: int)
    requires Validates(t, input, false) && input.Keys <= InsertKeys(t)
    ensures RowConforms(t, StoredRow(t, input, id, now))
    ensures StoredRow(t, input, id, now)["id"] == JNum(id)
    ensures forall k :: k in input ==> StoredRow(t, input, id, now)[k] == input[k]
  {
    DeclarationSound(t);
  }

  /** A partial update that passes `.partial()` keeps a row conforming. */
  lemma PatchConforms(t: TableName, row: Row, patch: Row)
    requires RowConforms(t, row)
    requires Validates(t, patch, true) && patch.Keys <= InsertKeys(t)
    ensures RowConforms(t, row + patch)
    ensures "id" in row ==> (row + patch)["id"] == row["id"]
  {
    DeclarationSound(t);
    var r := row + patch;
    forall k | k in r
      ensures CellOk(Declaration(t)[k], r[k])
    {
      if k in patch {
        assert ColumnOk(Declaration(t)[k], k, patch, true);
      } else {
        assert r[k] == row[k];
      }
    }
  }

  /** A new article is unpublished and stamped with the insertion time. */
  lemma ArticleDefaults(id: int, now: int)
    ensures "published" in StoredRow(Articles, map[], id, now) && "createdAt" in StoredRow(Articles, map[], id, now)
    ensures StoredRow(Articles, map[], id, now)["published"] == JBool(false)
    ensures StoredRow(Articles, map[], id, now)["createdAt"] == JNum(now)
  {
    assert Declaration(Articles)["published"] == Defaulted(Bool, JBool(false));
  }

  /** A new message is unread and stamped with the insertion time. */
  lemma MessageDefaults(id: int, now: int)
    ensures "read" in StoredRow(Messages, map[], id, now) && "createdAt" in StoredRow(Messages, map[], id, now)
    ensures StoredRow(Messages, map[], id, now)["read"] == JBool(false)
    ensures StoredRow(Messages, map[], id, now)["createdAt"] == JNum(now)
  {
    assert Declaration(Messages)["read"] == Defaulted(Bool, JBool(false));
  }

  /** Every ranked entry gets display rank 0 when none is given. */
  lemma RankDefaults(id: int, now: int)
    ensures forall t :: t in {Skills, Experiences, Education, Activities, Values} ==>
      "order" in StoredRow(t, map[], id, now) && StoredRow(t, map[], id, now)["order"] == JNum(0)
  {
    forall t | t in {Skills, Experiences, Education, Activities, Values}
      ensures "order" in StoredRow(t, map[], id, now) && StoredRow(t, map[], id, now)["order"] == JNum(0)
    {
      assert Declaration(t)["order"] == Defaulted(Int, JNum(0));
    }
  }
}
