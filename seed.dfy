/** `seedDatabase`: the first start fills an empty database with a sample
    profile and sample entries; any later start finds the profile and writes
    nothing. */
module Seed {
  import opened Json
  import opened Wrappers
  import opened Schema
  import opened Tables
  import opened Storage

  /** The fields of one sample row per table, as the seed arrays list them. */
  datatype ProfileSeed = ProfileSeed(name: string, email: string, phone: string, location: string, age: int,
                                     position: string, tagline: string, bio: string, imageUrl: string)
  datatype SkillSeed = SkillSeed(name: string, category: string, percentage: int, icon: string, order: int)
  datatype ExperienceSeed = ExperienceSeed(title: string, company: string, description: string,
                                           startDate: string, endDate: Option<string>, current: bool, order: int)
  datatype EducationSeed = EducationSeed(degree: string, institution: string, description: string,
                                         startDate: string, endDate: string, order: int)
  datatype TitledSeed = TitledSeed(title: string, description: string, icon: string, order: int)
  datatype ArticleSeed = ArticleSeed(title: string, content: string, excerpt: string, category: string,
                                     imageUrl: string, published: bool)

  /** Every input passes the table's insert schema. */
  ghost predicate AllInsertable(t: TableName, inputs: seq<Row>) {
    forall i :: 0 <= i < |inputs| ==> Validates(t, inputs[i], false) && inputs[i].Keys <= InsertKeys(t)
  }

  /** The object the seed passes to `updateProfile`; it passes the profile schema. */
  function ProfileRow(d: ProfileSeed): (r: Row)
    ensures Validates(Profile, r, false) && r.Keys <= InsertKeys(Profile)
  {
    var r := map["name" := JStr(d.name), "email" := JStr(d.email), "phone" := JStr(d.phone),
                 "location" := JStr(d.location), "age" := JNum(d.age), "position" := JStr(d.position),
                 "tagline" := JStr(d.tagline), "bio" := JStr(d.bio), "imageUrl" := JStr(d.imageUrl)];
    ProfileInsertRule(r);
    r
  }

  /** The object the seed passes to `createSkill`; it passes the skill schema. */
  function SkillRow(d: SkillSeed): (r: Row)
    ensures Validates(Skills, r, false) && r.Keys <= InsertKeys(Skills)
  {
    var r := map["name" := JStr(d.name), "category" := JStr(d.category), "percentage" := JNum(d.percentage),
                 "icon" := JStr(d.icon), "order" := JNum(d.order)];
    SkillInsertRule(r);
    r
  }

  /** A sample experience; a missing end date is passed as null. */
  function ExperienceRow(d: ExperienceSeed): (r: Row)
    ensures Validates(Experiences, r, false) && r.Keys <= InsertKeys(Experiences)
  {
    var r := map["title" := JStr(d.title), "company" := JStr(d.company), "description" := JStr(d.description),
                 "startDate" := JStr(d.startDate),
                 "endDate" := (match d.endDate case None => JNull case Some(e) => JStr(e)),
                 "current" := JBool(d.current), "order" := JNum(d.order)];
    ExperienceInsertRule(r);
    r
  }

  function EducationRow(d: EducationSeed): (r: Row)
    ensures Validates(Education, r, false) && r.Keys <= InsertKeys(Education)
  {
    var r := map["degree" := JStr(d.degree), "institution" := JStr(d.institution),
                 "description" := JStr(d.description), "startDate" := JStr(d.startDate),
                 "endDate" := JStr(d.endDate), "order" := JNum(d.order)];
    EducationInsertRule(r);
    r
  }

  /** A sample activity or value: both tables have the same columns. */
  function TitledRow(d: TitledSeed): (r: Row)
    ensures Validates(Activities, r, false) && r.Keys <= InsertKeys(Activities)
    ensures Validates(Values, r, false) && r.Keys <= InsertKeys(Values)
  {
    var r := map["title" := JStr(d.title), "description" := JStr(d.description), "icon" := JStr(d.icon),
                 "order" := JNum(d.order)];
    TitledInsertRule(r);
    r
  }

  function ArticleRow(d: ArticleSeed): (r: Row)
    ensures Validates(Articles, r, false) && r.Keys <= InsertKeys(Articles)
  {
    var r := map["title" := JStr(d.title), "content" := JStr(d.content), "excerpt" := JStr(d.excerpt),
                 "category" := JStr(d.category), "imageUrl" := JStr(d.imageUrl),
                 "published" := JBool(d.published)];
    ArticleInsertRule(r);
    r
  }

  /** The rows of a seed array, in order. */
  function MapRows<S>(d: seq<S>, f: S -> Row): (r: seq<Row>)
    ensures |r| == |d| && forall i :: 0 <= i < |d| ==> r[i] == f(d[i])
  {
    seq(|d|, i requires 0 <= i < |d| => f(d[i]))
  }

  const ProfileData := ProfileSeed(
    "John Doe", "john.doe@email.com", "+62 812-3456-7890", "Jakarta, Indonesia", 22,
    "Full Stack Developer", "Full Stack Developer & Tech Enthusiast",
    "Seorang Full Stack Developer dengan pengalaman 5+ tahun dalam mengembangkan aplikasi web dan mobile. Passionate dalam teknologi terbaru dan selalu siap untuk tantangan baru.",
    "https://images.unsplash.com/photo-1507003211169-0a1dd7228f2d?ixlib=rb-4.0.3&auto=format&fit=crop&w=400&h=400")

  const SkillData: seq<SkillSeed> := [
    SkillSeed("React.js", "Frontend", 90, "fab fa-react", 1),
    SkillSeed("Node.js", "Backend", 85, "fab fa-node-js", 2),
    SkillSeed("Python", "Backend", 80, "fab fa-python", 3),
    SkillSeed("MongoDB", "Database", 75, "fas fa-database", 4),
    SkillSeed("Docker", "DevOps", 70, "fab fa-docker", 5),
    SkillSeed("AWS", "Cloud", 75, "fab fa-aws", 6)]

  const ExperienceData: seq<ExperienceSeed> := [
    ExperienceSeed("Senior Full Stack Developer", "Tech Company Inc.",
      "Leading development of enterprise web applications using React, Node.js, and cloud technologies. Mentoring junior developers and architecting scalable solutions.",
      "2021", None, true, 1),
    ExperienceSeed("Frontend Developer", "Digital Agency",
      "Developed responsive web applications and collaborated with design teams to create engaging user experiences using modern frontend technologies.",
      "2019", Some("2021"), false, 2)]

  const EducationData: seq<EducationSeed> := [
    EducationSeed("Bachelor of Computer Science", "University of Technology",
      "Focused on software engineering and web development with honors degree. Active in programming competitions and tech communities.",
      "2014", "2018", 1)]

  const ActivityData: seq<TitledSeed> := [
    TitledSeed("Hackathon Winner", "First place in National Tech Hackathon 2022", "fas fa-trophy", 1),
    TitledSeed("Community Leader", "Leading local developer community with 500+ members", "fas fa-users", 2)]

  const ValueData: seq<TitledSeed> := [
    TitledSeed("Innovation", "Always seeking creative solutions and staying updated with latest technologies",
      "fas fa-lightbulb", 1),
    TitledSeed("Collaboration", "Building strong relationships and working effectively in teams",
      "fas fa-handshake", 2),
    TitledSeed("Quality", "Committed to delivering high-quality, maintainable code", "fas fa-star", 3)]

  const ArticleData: seq<ArticleSeed> := [
    ArticleSeed("Membangun Modern Web App dengan React",
      "Tutorial lengkap menggunakan React Hooks dan modern best practices untuk development aplikasi web yang performant...",
      "Tutorial lengkap menggunakan React Hooks dan modern best practices untuk development aplikasi web yang performant.",
      "React",
      "https://images.unsplash.com/photo-1498050108023-c5249f4df085?ixlib=rb-4.0.3&auto=format&fit=crop&w=800&h=400",
      true),
    ArticleSeed("Optimasi Performance Node.js Backend",
      "Tips dan trik untuk meningkatkan performance aplikasi backend Node.js dengan caching dan database optimization...",
      "Tips dan trik untuk meningkatkan performance aplikasi backend Node.js dengan caching dan database optimization.",
      "Node.js",
      "https://images.unsplash.com/photo-1558494949-ef010cbdcc31?ixlib=rb-4.0.3&auto=format&fit=crop&w=800&h=400",
      true)]

  /** What a seeding writes: the profile, then the rows for each table in order. */
  datatype SeedData = SeedData(profile: Row, skills: seq<Row>, experiences: seq<Row>, education: seq<Row>,
                               activities: seq<Row>, values: seq<Row>, articles: seq<Row>)

  /** The rows a seeding inserts into a table; none into users and messages,
      and the profile goes through `updateProfile` instead. */
  function Inputs(seed: SeedData, t: TableName): seq<Row> {
    match t
    case Skills => seed.skills
    case Experiences => seed.experiences
    case Education => seed.education
    case Activities => seed.activities
    case Values => seed.values
    case Articles => seed.articles
    case _ => []
  }

  /** Every row of the seed passes its table's insert schema. */
  ghost predicate SeedOk(seed: SeedData) {
    && Validates(Profile, seed.profile, false) && seed.profile.Keys <= InsertKeys(Profile)
    && AllInsertable(Skills, seed.skills) && AllInsertable(Experiences, seed.experiences)
    && AllInsertable(Education, seed.education) && AllInsertable(Activities, seed.activities)
    && AllInsertable(Values, seed.values) && AllInsertable(Articles, seed.articles)
  }

  /** Rows built by a function whose every row passes the schema pass it. */
  lemma RowsInsertable<S>(t: TableName, d: seq<S>, f: S -> Row)
    requires forall x :: Validates(t, f(x), false) && f(x).Keys <= InsertKeys(t)
    ensures AllInsertable(t, MapRows(d, f))
  {
  }

  /** The sample data of `seedDatabase`. */
  function Sample(): SeedData {
    SeedData(ProfileRow(ProfileData), MapRows(SkillData, SkillRow), MapRows(ExperienceData, ExperienceRow),
             MapRows(EducationData, EducationRow), MapRows(ActivityData, TitledRow),
             MapRows(ValueData, TitledRow), MapRows(ArticleData, ArticleRow))
  }

  /** The sample passes the insert schemas: 6 skills, 2 experiences, 1
      education entry, 2 activities, 3 values and 2 articles. */
  lemma SampleOk()
    ensures SeedOk(Sample())
    ensures |Sample().skills| == 6 && |Sample().experiences| == 2 && |Sample().education| == 1
    ensures |Sample().activities| == 2 && |Sample().values| == 3 && |Sample().articles| == 2
  {
    RowsInsertable(Skills, SkillData, SkillRow);
    RowsInsertable(Experiences, ExperienceData, ExperienceRow);
    RowsInsertable(Education, EducationData, EducationRow);
    RowsInsertable(Activities, ActivityData, TitledRow);
    RowsInsertable(Values, ValueData, TitledRow);
    RowsInsertable(Articles, ArticleData, ArticleRow);
  }

  /** Every table is present. */
  predicate Complete(ts: map<TableName, Table>) {
    forall t: TableName :: t in ts
  }

  /** Every table is present and well formed. */
  ghost predicate AllWellFormed(ts: map<TableName, Table>) {
    forall t: TableName :: t in ts && WellFormed(t, ts[t])
  }

  /** The database after inserting the inputs into table t, in order. */
  function InsertInto(ts: map<TableName, Table>, t: TableName, inputs: seq<Row>, now: int): map<TableName, Table>
    requires t in ts
  {
    ts[t := InsertAll(t, ts[t], inputs, now)]
  }

  /** What a seeding writes to one table. */
  function SeedTable(seed: SeedData, t: TableName, tb: Table, now: int): Table {
    if t == Profile then Upsert(tb, seed.profile, now).table
    else InsertAll(t, tb, Inputs(seed, t), now)
  }

  /** The order in which a seeding writes the tables. */
  const SeedOrder: seq<TableName> := [Profile] + [Skills] + [Experiences] + [Education] + [Activities] + [Values] + [Articles]

  /** The database after writing the tables of order, first to last. */
  function Apply(seed: SeedData, ts: map<TableName, Table>, order: seq<TableName>, now: int): (r: map<TableName, Table>)
    requires Complete(ts)
    ensures Complete(r)
    decreases |order|
  {
    if order == [] then ts
    else
      var before := Apply(seed, ts, order[..|order| - 1], now);
      var t := order[|order| - 1];
      before[t := SeedTable(seed, t, before[t], now)]
  }

  /** No table occurs twice. */
  predicate Distinct(order: seq<TableName>) {
    forall i, j :: 0 <= i < j < |order| ==> order[i] != order[j]
  }

  /** Writing a list of distinct tables gives each listed table its seed
      writes and leaves the others alone. */
  lemma {:induction false} ApplyAt(seed: SeedData, ts: map<TableName, Table>, order: seq<TableName>, now: int, t: TableName)
    requires Complete(ts) && Distinct(order)
    ensures t !in order ==> Apply(seed, ts, order, now)[t] == ts[t]
    ensures t in order ==> Apply(seed, ts, order, now)[t] == SeedTable(seed, t, ts[t], now)
    decreases |order|
  {
    if order != [] {
      var init := order[..|order| - 1];
      assert order == init + [order[|order| - 1]];
      assert Distinct(init);
      ApplyAt(seed, ts, init, now, t);
      if t == order[|order| - 1] {
        assert t !in init;
      }
    }
  }

  /** Writing one more table. */
  lemma ApplySnoc(seed: SeedData, ts: map<TableName, Table>, order: seq<TableName>, t: TableName, now: int)
    requires Complete(ts)
    ensures Apply(seed, ts, order + [t], now)
         == Apply(seed, ts, order, now)[t := SeedTable(seed, t, Apply(seed, ts, order, now)[t], now)]
  {
    assert (order + [t])[..|order + [t]| - 1] == order;
  }

  /** The database once the profile is written and the skills, experiences,
      education, activities, values and articles are inserted, in that order. */
  function SeedWrites(seed: SeedData, ts: map<TableName, Table>, now: int): map<TableName, Table>
    requires Complete(ts)
  {
    Apply(seed, ts, SeedOrder, now)
  }

  /** The database after `seedDatabase`: unchanged when a profile exists. */
  function Seeded(seed: SeedData, ts: map<TableName, Table>, now: int): map<TableName, Table>
    requires Complete(ts)
  {
    if ts[Profile].rows != map[] then ts else SeedWrites(seed, ts, now)
  }

  /** Each table's writes depend on that table alone. */
  lemma SeedWritesAt(seed: SeedData, ts: map<TableName, Table>, now: int, t: TableName)
    requires Complete(ts)
    ensures t in SeedWrites(seed, ts, now) && SeedWrites(seed, ts, now)[t] == SeedTable(seed, t, ts[t], now)
  {
    assert Distinct(SeedOrder);
    ApplyAt(seed, ts, SeedOrder, now, t);
    assert t in SeedOrder || t == Users || t == Messages;
  }

  /** Seeding leaves a table well formed: the profile table ends with exactly
      one row, and every other table gains exactly its seed rows. */
  lemma {:induction false} SeedTableSpec(seed: SeedData, t: TableName, tb: Table, now: int)
    requires SeedOk(seed) && WellFormed(t, tb) && (t == Profile ==> tb.rows == map[])
    ensures WellFormed(t, SeedTable(seed, t, tb, now))
    ensures t == Profile ==> |SeedTable(seed, t, tb, now).rows| == 1
    ensures t != Profile ==> |SeedTable(seed, t, tb, now).rows| == |tb.rows| + |Inputs(seed, t)|
  {
    if t == Profile {
      UpsertSpec(tb, seed.profile, now);
    } else {
      assert AllInsertable(t, Inputs(seed, t)) by {
        match t
        case Users =>
        case Messages =>
        case _ =>
      }
      InsertAllCount(t, tb, Inputs(seed, t), now);
    }
  }

  /** Seeding a database without a profile creates the one profile, adds
      each table's seed rows, and leaves users and messages alone. */
  lemma {:induction false} SeededContents(seed: SeedData, ts: map<TableName, Table>, now: int)
    requires SeedOk(seed) && AllWellFormed(ts) && ts[Profile].rows == map[]
    ensures Complete(ts) && AllWellFormed(Seeded(seed, ts, now))
    ensures |Seeded(seed, ts, now)[Profile].rows| == 1
    ensures forall t: TableName :: t != Profile ==>
      |Seeded(seed, ts, now)[t].rows| == |ts[t].rows| + |Inputs(seed, t)|
    ensures Seeded(seed, ts, now)[Users] == ts[Users] && Seeded(seed, ts, now)[Messages] == ts[Messages]
  {
    var s := Seeded(seed, ts, now);
    forall t: TableName
      ensures t in s && WellFormed(t, s[t])
      ensures t == Profile ==> |s[t].rows| == 1
      ensures t != Profile ==> |s[t].rows| == |ts[t].rows| + |Inputs(seed, t)|
    {
      SeededAt(seed, ts, now, t);
    }
    SeededAt(seed, ts, now, Users);
    SeededAt(seed, ts, now, Messages);
  }

  /** SeededContents for one table. */
  lemma SeededAt(seed: SeedData, ts: map<TableName, Table>, now: int, t: TableName)
    requires SeedOk(seed) && AllWellFormed(ts) && ts[Profile].rows == map[]
    ensures Complete(ts) && t in Seeded(seed, ts, now) && WellFormed(t, Seeded(seed, ts, now)[t])
    ensures t == Profile ==> |Seeded(seed, ts, now)[t].rows| == 1
    ensures t != Profile ==> |Seeded(seed, ts, now)[t].rows| == |ts[t].rows| + |Inputs(seed, t)|
    ensures t == Users || t == Messages ==> Seeded(seed, ts, now)[t] == ts[t]
  {
    assert Seeded(seed, ts, now) == SeedWrites(seed, ts, now);
    SeedWritesAt(seed, ts, now, t);
    SeedTableSpec(seed, t, ts[t], now);
    if t == Users || t == Messages {
      assert Inputs(seed, t) == [];
      assert SeedTable(seed, t, ts[t], now) == InsertAll(t, ts[t], [], now);
    }
  }

  /** Seeding a database that has a profile writes nothing. */
  lemma SeededNoop(seed: SeedData, ts: map<TableName, Table>, now: int)
    requires Complete(ts) && ts[Profile].rows != map[]
    ensures Seeded(seed, ts, now) == ts
  {
  }

  /** A second seeding, at any later time, writes nothing. */
  lemma SeedTwice(seed: SeedData, ts: map<TableName, Table>, now: int, later: int)
    requires SeedOk(seed) && AllWellFormed(ts)
    ensures Complete(ts) && Complete(Seeded(seed, ts, now))
    ensures Seeded(seed, Seeded(seed, ts, now), later) == Seeded(seed, ts, now)
  {
    if ts[Profile].rows == map[] {
      SeededContents(seed, ts, now);
      SeededNoop(seed, Seeded(seed, ts, now), later);
    } else {
      SeededNoop(seed, ts, now);
      SeededNoop(seed, ts, later);
    }
  }

  lemma InsertIntoSnoc(ts: map<TableName, Table>, t: TableName, inputs: seq<Row>, i: nat, now: int)
    requires t in ts && i < |inputs|
    ensures var before := InsertInto(ts, t, inputs[..i], now);
      InsertInto(ts, t, inputs[..i + 1], now) == before[t := Insert(t, before[t], inputs[i], now).table]
  {
    InsertAllSnoc(t, ts[t], inputs, i, now);
  }

  /** Inserting a table's seed rows after some tables are written is writing one more table. */
  lemma SeedStep(seed: SeedData, ts: map<TableName, Table>, order: seq<TableName>, t: TableName, now: int,
                 before: map<TableName, Table>, after: map<TableName, Table>)
    requires Complete(ts) && t != Profile
    requires before == Apply(seed, ts, order, now) && t in before
    requires after == InsertInto(before, t, Inputs(seed, t), now)
    ensures after == Apply(seed, ts, order + [t], now)
  {
    ApplySnoc(seed, ts, order, t, now);
  }

  /** The seed's `for (...) await storage.create<Entity>(...)` loop. */
  method CreateAll(store: DatabaseStorage, t: TableName, inputs: seq<Row>, now: int)
    requires store.Valid() && t != Users && t != Profile && AllInsertable(t, inputs)
    modifies store
    ensures store.Valid()
    ensures store.tables == InsertInto(old(store.tables), t, inputs, now)
  {
    ghost var start := store.tables;
    for i := 0 to |inputs|
      invariant store.Valid()
      invariant store.tables == InsertInto(start, t, inputs[..i], now)
    {
      InsertIntoSnoc(start, t, inputs, i, now);
      var created := store.Create(t, inputs[i], now);
    }
    assert inputs[..|inputs|] == inputs;
  }

  /** The seed's loop over the sample rows of table t, after the tables of
      `done` are written. */
  method SeedRows(store: DatabaseStorage, seed: SeedData, t: TableName, now: int,
                  ghost ts0: map<TableName, Table>, ghost done: seq<TableName>)
    requires store.Valid() && SeedOk(seed) && t != Users && t != Profile && Complete(ts0)
    requires store.tables == Apply(seed, ts0, done, now)
    modifies store
    ensures store.Valid()
    ensures store.tables == Apply(seed, ts0, done + [t], now)
  {
    assert AllInsertable(t, Inputs(seed, t)) by {
      match t
      case Messages =>
      case _ =>
    }
    ghost var before := store.tables;
    CreateAll(store, t, Inputs(seed, t), now);
    SeedStep(seed, ts0, done, t, now, before, store.tables);
  }

  /** `seedDatabase()` with the given data: whether it wrote anything. */
  method SeedDatabase(store: DatabaseStorage, seed: SeedData, now: int) returns (seeded: bool)
    requires store.Valid() && SeedOk(seed)
    modifies store
    ensures store.Valid() && Complete(old(store.tables))
    ensures seeded <==> old(store.tables)[Profile].rows == map[]
    ensures store.tables == Seeded(seed, old(store.tables), now)
  {
    var existing := store.GetProfile();
    if existing.Some? {
      return false;
    }
    ghost var ts0 := store.tables;
    var profile := store.UpdateProfile(seed.profile, now);
    ghost var done: seq<TableName> := [Profile];
    assert store.tables == Apply(seed, ts0, done, now) by {
      ApplySnoc(seed, ts0, [], Profile, now);
      assert [] + [Profile] == [Profile];
    }
    SeedRows(store, seed, Skills, now, ts0, done);
    done := done + [Skills];
    SeedRows(store, seed, Experiences, now, ts0, done);
    done := done + [Experiences];
    SeedRows(store, seed, Education, now, ts0, done);
    done := done + [Education];
    SeedRows(store, seed, Activities, now, ts0, done);
    done := done + [Activities];
    SeedRows(store, seed, Values, now, ts0, done);
    done := done + [Values];
    SeedRows(store, seed, Articles, now, ts0, done);
    done := done + [Articles];
    assert done == SeedOrder;
    seeded := true;
  }

  /** `seedDatabase()` as the server runs it, with the sample data. */
  method SeedSample(store: DatabaseStorage, now: int) returns (seeded: bool)
    requires store.Valid()
    modifies store
    ensures store.Valid() && Complete(old(store.tables))
    ensures seeded <==> old(store.tables)[Profile].rows == map[]
    ensures store.tables == Seeded(Sample(), old(store.tables), now)
  {
    SampleOk();
    seeded := SeedDatabase(store, Sample(), now);
  }
}
