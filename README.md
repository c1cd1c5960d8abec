# PORTFOLIO core in Dafny

This project models the logic of a small portfolio web site. The site has an Express API over a MySQL database and a React front end. The model covers:

- the API's admin session store and authorisation gate;
- the validate → store → status-code pattern of every CRUD and message route;
- the repository that the routes call, with each table an in-memory map keyed by an auto-increment id;
- the insert schemas derived from the table declarations;
- the first-start seeding of the database.

On the client side it models:

- the admin page's form handlers;
- the e-mail pattern;
- the in-place ordering of the values list;
- the articles page's "time ago" label;
- the navigation bar's active-link rule;
- the timeline's labels.

On the server side it also models the request-log line and the fallback of the final error handler.

Modules, one per source file plus shared helpers:

| file | module | models |
|---|---|---|
| json.dfy | Json | JSON values, JavaScript truthiness |
| text.dfy | Text | `startsWith`, `indexOf`, `replace` with a string pattern, decimal rendering |
| wrappers.dfy | Wrappers | Option |
| sorting.dfy | Sorting | the stable sort that `ORDER BY` and `Array.prototype.sort` stand for |
| schema.dfy | Schema | shared/schema.ts |
| tables.dfy | Tables | the table operations behind server/storage.ts, as functions |
| storage.dfy | Storage | class `DatabaseStorage` of server/storage.ts |
| seed.dfy | Seed | `seedDatabase` of server/storage.ts |
| routes.dfy | Routes | class `Server`: the state and handlers of server/routes.ts |
| admin.dfy | Admin | client/src/pages/admin.tsx |
| articles.dfy | ArticlesPage | client/src/pages/articles.tsx |
| navigation.dfy | Navigation | client/src/components/navigation.tsx |
| timeline.dfy | Timeline | client/src/components/timeline.tsx |
| server_log.dfy | ServerLog | server/index.ts |

The parts of the source that change state are written imperatively:

- **Repository:** a class whose field maps each table name to its rows and next id. Each method is proved against a function in `Tables`.
- **Server:** a class holding the session set and the repository.
- **Seeding:** a method whose `for` loops insert the seed rows one by one.
- **Profile normalisation:** a loop over the form's keys.
- **Values list:** sorted in place on an array.
- **Log line:** built by reassignment.

Everything else is written as functions and lemmas.

## Model

| member | source | states |
|---|---|---|
| Text.IndexOfFrom | server/routes.ts:24 | the result is the first index at or after `from` where the pattern occurs, or -1 when there is none |
| Text.ReplaceFirst | server/routes.ts:24 | a string without the pattern is returned unchanged |
| Text.ReplaceFirstAt | server/routes.ts:24 | the replacement happens exactly at the first occurrence of the pattern |
| Text.NatToString | client/src/pages/articles.tsx:53 | the rendering is a non-empty run of digits with no leading zero |
| Text.IntToString | server/index.ts:35 | the rendering is non-empty and starts with '-' exactly for negative numbers |
| Text.DigitsRoundTrip | client/src/pages/admin.tsx:560 | reading back the decimal rendering of n gives n |
| Sorting.InsertBy | server/storage.ts:109-111 | one insertion step grows the sequence by exactly one element |
| Sorting.SortBy | server/storage.ts:109-111 | sorting keeps the length |
| Sorting.InsertByPerm | server/storage.ts:109-111 | inserting adds exactly the inserted element (multiset) |
| Sorting.SortByPerm | server/storage.ts:109-111 | the sorted sequence is a permutation of the input |
| Sorting.InsertBySorted | server/storage.ts:109-111 | inserting into a sorted sequence keeps it sorted |
| Sorting.SortBySorted | server/storage.ts:109-111 | the output is sorted by the key |
| Sorting.WithKeyInsert | client/src/pages/admin.tsx:1683 | insertion appends x to its key class and leaves every other key class unchanged |
| Sorting.SortByStable | client/src/pages/admin.tsx:1683 | the sort is stable: the elements sharing a key keep their relative order |
| Sorting.SortByStep | client/src/pages/admin.tsx:1683 | sorting a prefix one element longer inserts that element into the sorted prefix |
| Sorting.InsertByAt | client/src/pages/admin.tsx:1683 | x lands right after the last element that sorts no later than it |
| Schema.Strip | shared/schema.ts:103-106 | the parsed data keeps exactly the declared keys of the body |
| Schema.SafeParse | server/routes.ts:106-109 | parsing succeeds iff the body validates, and then yields the stripped body |
| Schema.UserInsertRule | shared/schema.ts:98-101 | the user schema keeps only username and password, and both are required strings |
| Schema.ArticleInsertRule | shared/schema.ts:11-20 | title, content, excerpt and category are required; imageUrl and published are optional; id and createdAt are not accepted |
| Schema.SkillInsertRule | shared/schema.ts:22-29 | name, category and percentage are required; icon and order are optional |
| Schema.ExperienceInsertRule | shared/schema.ts:31-40 | title, company, description and startDate are required; endDate, current and order are optional |
| Schema.EducationInsertRule | shared/schema.ts:42-50 | degree, institution, description, startDate and endDate are required; order is optional |
| Schema.TitledInsertRule | shared/schema.ts:52-66 | activities and values take title, description and icon (required) and order (optional) |
| Schema.ProfileInsertRule | shared/schema.ts:68-79 | name, email and bio are required; phone, location, age, position, tagline and imageUrl are optional |
| Schema.MessageInsertRule | shared/schema.ts:132-136 | name, email, subject and message are required; id, createdAt and read are omitted |
| Schema.PercentageUnbounded | shared/schema.ts:26 | every integer percentage validates: no range is enforced |
| Schema.EndDateNullability | shared/schema.ts:37-48 | a null end date passes the experience schema and fails the education schema |
| Schema.MessageNeedsEmail | shared/schema.ts:84 | a message body without an email fails to parse |
| Schema.FullImpliesPartial | server/routes.ts:158 | every body that passes an insert schema passes its `.partial()` form |
| Schema.StoredRow | shared/schema.ts:11-89 | the stored row has exactly the table's columns, whatever the input holds |
| Schema.DeclarationSound | shared/schema.ts:11-89 | the id is the auto-increment key no schema accepts; every column a schema drops has a default of the column's type, and every column without one is accepted |
| Schema.StoredRowConforms | shared/schema.ts:11-89 | what an insert stores always conforms to the table's declaration |
| Schema.PatchConforms | server/storage.ts:97-101 | a patch that passes `.partial()` keeps a conforming row conforming |
| Schema.ArticleDefaults | shared/schema.ts:18-19 | a new article is unpublished and stamped with the insertion time |
| Schema.MessageDefaults | shared/schema.ts:87-88 | a new message is unread and stamped with the insertion time |
| Schema.RankDefaults | shared/schema.ts:28 | every ranked entry gets order 0 when none is given |
| Tables.EmptyWellFormed | server/storage.ts:65 | an empty table is well formed |
| Tables.InsertSpec | server/storage.ts:92-95 | an insert stores one conforming row under the next id, keeps every other row, and answers the input plus that id |
| Tables.InsertAllSnoc | server/storage.ts:283-285 | inserting one more input is one more insert |
| Tables.InsertAllCount | server/storage.ts:283-285 | n inserts add n rows and keep the table well formed |
| Tables.UpdateAbsent | server/storage.ts:97-101 | updating an absent id answers undefined and changes nothing |
| Tables.UpdatePresent | server/storage.ts:97-101 | updating a present id changes only the supplied fields of that row and answers the row read back |
| Tables.DeleteSpec | server/storage.ts:103-106 | a delete answers true iff the row existed, and removes only that row |
| Tables.DeleteTwice | server/storage.ts:245-248 | a second delete of the same id answers false and changes nothing |
| Tables.MarkReadSpec | server/storage.ts:240-243 | marking sets `read` on that message only and answers true iff the id exists |
| Tables.MarkReadIdempotent | server/storage.ts:240-243 | marking twice equals marking once |
| Tables.ReadIsMonotone | server/storage.ts:240-243 | the read flag never goes back from true to false |
| Tables.FirstWhere | server/storage.ts:87-90 | the result is the lowest key in range whose row satisfies the test, or none exists |
| Tables.WhereIsMinimum | server/storage.ts:72-75 | the lookup finds the smallest matching key, and nothing only when no row matches |
| Tables.FirstIsMinimum | server/storage.ts:214-217 | the first row is the smallest key, and there is none only in an empty table |
| Tables.RowsFromSpec | server/storage.ts:83-85 | the scan lists stored rows only, and each row with key at least k exactly once |
| Tables.ScanIsListing | server/storage.ts:83-85 | the scan lists every stored row exactly once and nothing else |
| Tables.ListingPermutation | server/storage.ts:109-111 | a permutation of a listing is a listing |
| Tables.UpsertSpec | server/storage.ts:219-228 | an upsert keeps the table well formed; in an empty table it inserts exactly one row and answers the data plus the new id; otherwise it replaces the lowest-id row by `{...existing, ...data}`, leaves every other row and the counter alone, and answers that merged row |
| Tables.UpsertAllSingleRow | server/storage.ts:219-228 | sequential upserts never leave more than one profile row |
| Storage.InsertKeepsUnique | shared/schema.ts:7 | inserting a user whose name is free keeps usernames unique |
| Storage.DatabaseStorage.constructor | server/storage.ts:65 | the repository starts with every table empty |
| Storage.DatabaseStorage.Create | server/storage.ts:92-95 | the table becomes the insert's table and the answer is the input plus its new id |
| Storage.DatabaseStorage.Get | server/storage.ts:87-90 | the answer is the row with that id, or undefined exactly when there is none |
| Storage.DatabaseStorage.GetAll | server/storage.ts:83-85 | every row exactly once, sorted by the table's ORDER BY column |
| Storage.DatabaseStorage.GetProfile | server/storage.ts:214-217 | undefined exactly when there is no profile, else the row with the lowest id |
| Storage.DatabaseStorage.Update | server/storage.ts:97-101 | the table and answer are those of the pure update, and the repository invariant (well-formed tables, one profile, unique usernames) holds |
| Storage.DatabaseStorage.Delete | server/storage.ts:103-106 | the table and answer are those of the pure delete |
| Storage.DatabaseStorage.UpdateProfile | server/storage.ts:219-228 | the profile table and answer are those of the upsert, and at most one profile row stays |
| Storage.DatabaseStorage.MarkMessageAsRead | server/storage.ts:240-243 | the messages table and answer are those of the pure mark |
| Storage.DatabaseStorage.GetUserByUsername | server/storage.ts:72-75 | a user is found iff some row has that username, and the answer is a stored row |
| Storage.DatabaseStorage.GetUser | server/storage.ts:67-70 | the row with that id, or undefined exactly when there is none |
| Storage.DatabaseStorage.CreateUser | server/storage.ts:77-81 | a taken username changes nothing; otherwise the user is inserted and usernames stay unique |
| Seed.ProfileRow | server/storage.ts:262-272 | the seed profile passes the profile insert schema |
| Seed.SkillRow | server/storage.ts:275-283 | each seed skill passes the skill insert schema |
| Seed.ExperienceRow | server/storage.ts:288-310 | each seed experience passes the experience insert schema |
| Seed.EducationRow | server/storage.ts:313-326 | each seed education entry passes the education insert schema |
| Seed.TitledRow | server/storage.ts:328-369 | each seed activity and value passes their shared insert schema |
| Seed.ArticleRow | server/storage.ts:372-393 | each seed article passes the article insert schema |
| Seed.MapRows | server/storage.ts:283-285 | one row per seed record, in order |
| Seed.RowsInsertable | server/storage.ts:283-285 | rows built by a schema-respecting function all pass the schema |
| Seed.SampleOk | server/storage.ts:262-393 | the sample data passes every insert schema: 6 skills, 2 experiences, 1 education entry, 2 activities, 3 values, 2 articles |
| Seed.Apply | server/storage.ts:257-396 | writing tables keeps every table present |
| Seed.ApplyAt | server/storage.ts:257-396 | writing distinct tables gives each listed table its seed writes and leaves the rest alone |
| Seed.ApplySnoc | server/storage.ts:257-396 | writing one more table is one more table write |
| Seed.SeedWritesAt | server/storage.ts:257-396 | each table's seed writes depend on that table alone |
| Seed.SeedTableSpec | server/storage.ts:257-396 | seeding keeps a table well formed: the profile table gets one row, every other table gains exactly its seed rows |
| Seed.SeededContents | server/storage.ts:257-396 | seeding a database without a profile creates one profile, adds each table's seed rows, and leaves users and messages alone |
| Seed.SeededNoop | server/storage.ts:257-258 | seeding a database that has a profile writes nothing |
| Seed.SeedTwice | server/storage.ts:257-258 | a second seeding, at any later time, writes nothing |
| Seed.InsertIntoSnoc | server/storage.ts:283-285 | inserting one more seed row is one more insert into that table |
| Seed.SeedStep | server/storage.ts:283-285 | a table's seed loop, after some tables are written, writes one more table |
| Seed.CreateAll | server/storage.ts:283-285 | the loop leaves the database as the inputs inserted in order |
| Seed.SeedRows | server/storage.ts:283-393 | after table t's seed loop the database is the seed writes up to and including t |
| Seed.SeedDatabase | server/storage.ts:254-401 | writes iff no profile exists, and the database becomes the seeded one |
| Seed.SeedSample | server/storage.ts:254-401 | the same for the sample data |
| Routes.RequireAuth | server/routes.ts:23-31 | the gate either lets the handler run or answers 401 "Unauthorized" |
| Routes.BearerToken | server/routes.ts:24 | a header "Bearer <token>" carries exactly the token |
| Routes.BearerAnywhere | server/routes.ts:24 | the first "Bearer " is removed wherever it occurs, not only as a prefix |
| Routes.NoBearer | server/routes.ts:24 | a header without "Bearer " is taken whole as the token |
| Routes.EmptyTokenRejected | server/routes.ts:26 | a missing header and a header of exactly "Bearer " never pass |
| Routes.AuthorizedBearer | server/routes.ts:23-31 | with a "Bearer" header the gate passes iff the token is non-empty and a live session |
| Routes.LoginSessions | server/routes.ts:48-62 | a login with the admin credentials adds its token and nothing else; any other login changes nothing |
| Routes.LoginThenAuthorized | server/routes.ts:48-62 | after a successful login the returned token opens the gate |
| Routes.LogoutRevokes | server/routes.ts:68-78 | after a logout the same header no longer opens the gate, every other session survives, and no session is added |
| Routes.LoginLogout | server/routes.ts:68-78 | logging out with the token of a fresh login restores the session set |
| Routes.RouteTablesEditable | server/routes.ts:95-521 | the route set only touches tables the repository may edit: no user routes, profile only by upsert |
| Routes.Server.constructor | server/routes.ts:15 | the server starts with no sessions |
| Routes.Server.Login | server/routes.ts:48-62 | 200 with the new token for the admin credentials, else 401 "Invalid credentials"; the session set changes as LoginSessions says |
| Routes.Server.Logout | server/routes.ts:68-78 | always 200 "Logout successful"; the set loses the supplied token only |
| Routes.Server.Status | server/routes.ts:80-92 | 200 iff the token is a live session, else 401, and the set is unchanged |
| Routes.Server.GetProfileRoute | server/routes.ts:95-102 | 200 with a stored profile row, or an empty body exactly when there is none |
| Routes.Server.PutProfile | server/routes.ts:104-117 | 401 without a session, 400 on an invalid body with no storage call, else 200 with the upsert's answer |
| Routes.Server.GetAllRoute | server/routes.ts:119-126 | 200 with every row exactly once, in the table's order |
| Routes.Server.GetArticleRoute | server/routes.ts:128-139 | 200 with the article, or 404 "Article not found" |
| Routes.Server.CreateRoute | server/routes.ts:141-153 | 401 without a session (messages excepted), 400 on an invalid body with no storage call, else 201 with the input plus its new id |
| Routes.Server.UpdateRoute | server/routes.ts:155-171 | 401, 400 for a body `.partial()` rejects, 404 for an absent id with nothing changed, else 200 with the updated row |
| Routes.Server.DeleteRoute | server/routes.ts:173-185 | 401, 404 when nothing was removed, else 200 with only that row gone |
| Routes.Server.GetMessagesRoute | server/routes.ts:431-442 | behind the gate: 401, else 200 with the inbox sorted by createdAt |
| Routes.Server.MarkReadRoute | server/routes.ts:473-484 | 401, 404 "Message not found" for an absent id, else 200 with only that message marked read |
| Routes.Server.SenderMessagesRoute | server/routes.ts:444-456 | public: 500 when the lookup throws, else 200 with its result |
| Routes.Server.SenderDeleteRoute | server/routes.ts:504-521 | public: 400 for a falsy email without a storage call, 500 on a throw, 404 on a falsy result, else 200 |
| Admin.EmailRegexIff | client/src/pages/admin.tsx:548 | the pattern accepts exactly the strings with no whitespace, one '@' that is not first, and a later '.' that is neither the domain's first nor the last character |
| Admin.RegexHasShape | client/src/pages/admin.tsx:548 | every string the pattern accepts has that shape |
| Admin.ShapeMatchesRegex | client/src/pages/admin.tsx:548 | every string of that shape is accepted |
| Admin.AgeValue | client/src/pages/admin.tsx:560 | NaN gives 0; any number gives itself |
| Admin.AgeOfDigits | client/src/pages/admin.tsx:560 | an age typed as digits, or given as a number, is read back as that number |
| Admin.AgeFallback | client/src/pages/admin.tsx:560 | a missing, null, empty or non-numeric age becomes 0 |
| Admin.NormalisedSpec | client/src/pages/admin.tsx:558-566 | the payload has no id, a numeric age, no undefined or null field, keeps every other value and blanks the rest to "" |
| Admin.ToJsonBody | client/src/pages/admin.tsx:567 | the body sent has no key the form lacks |
| Admin.NormalisedBody | client/src/pages/admin.tsx:558-567 | the normalised payload loses no field on the way to the server and sends age as a number |
| Admin.NormaliseProfile | client/src/pages/admin.tsx:558-566 | the rest-object, age assignment and `forEach` loop compute the normalised payload |
| Admin.OnSubmitProfile | client/src/pages/admin.tsx:537-568 | a missing name, email or bio gives the validation toast; an e-mail the pattern rejects gives the e-mail toast; otherwise the normalised payload is sent |
| Admin.DispatchSpec | client/src/pages/admin.tsx:529-535 | a submit updates exactly when an item is being edited, with that item's id, and passes the form data unchanged |
| Admin.OnSubmitSkill | client/src/pages/admin.tsx:586-597 | a mutation fires iff the guard passes, and it is an update iff a skill is being edited |
| Admin.ZeroPercentagePasses | client/src/pages/admin.tsx:588 | a percentage of 0 passes the guard; an absent or null one does not |
| Admin.SortValuesByOrder | client/src/pages/admin.tsx:1683 | the array ends as the stable sort of its old contents by `order ?? 0` |
| Admin.InsertAt | client/src/pages/admin.tsx:1683 | one pass inserts the element into the sorted prefix and leaves the rest of the array alone |
| ArticlesPage.CeilDiv | client/src/pages/articles.tsx:50 | the result is the least q with q·b ≥ a |
| ArticlesPage.DiffDays | client/src/pages/articles.tsx:47-50 | the distance is covered by the whole days, one day fewer does not cover it, and it is 0 exactly at the same instant |
| ArticlesPage.TimeAgoShape | client/src/pages/articles.tsx:52-55 | every label is a count, a unit and "lalu"; the count covers the distance in that unit, and the one-day case reads like the general one |
| ArticlesPage.WeeksRange | client/src/pages/articles.tsx:54 | a week count lies between 1 and 5 |
| ArticlesPage.MonthsRange | client/src/pages/articles.tsx:55 | a month count is at least 1, and is 1 exactly at thirty days |
| ArticlesPage.PastAndFutureAlike | client/src/pages/articles.tsx:49 | a date delta before now and one delta after it get the same label |
| ArticlesPage.SameDay | client/src/pages/articles.tsx:52-53 | the same instant reads "0 hari lalu"; anything up to a day away reads "1 hari lalu" |
| Navigation.RootActive | client/src/components/navigation.tsx:18 | the root link is active exactly at "/" |
| Navigation.PrefixActive | client/src/components/navigation.tsx:19 | a non-root link is active exactly at the locations that extend it |
| Navigation.PrefixExamples | client/src/components/navigation.tsx:19 | "/articles" is active at "/articles/5", "/admin" at "/administrator", "/articles" not at "/" |
| Navigation.AtMostOneActive | client/src/components/navigation.tsx:10-21 | at any location at most one of the bar's links is active |
| Timeline.DateRangeParts | client/src/components/timeline.tsx:53 | the range opens with the start date and closes with "Present" for a current entry, else with the end date or nothing |
| Timeline.BadgeMatchesRange | client/src/components/timeline.tsx:55-59 | the badge shows exactly for current entries, whose range then ends in "Present" |
| Timeline.OrganisationFallback | client/src/components/timeline.tsx:48 | a non-empty company wins; otherwise the institution, or nothing |
| Timeline.CalendarForExperience | client/src/components/timeline.tsx:36-40 | the calendar icon marks the experience timeline and only it |
| ServerLog.TruncateSpec | server/index.ts:40-42 | a line never exceeds 80 characters; a short line is untouched; a long one keeps its first 79 and ends in "…" |
| ServerLog.TruncateIdempotent | server/index.ts:40-42 | truncating twice equals truncating once |
| ServerLog.TruncateKeepsPrefix | server/index.ts:40-42 | any prefix shorter than the limit survives truncation |
| ServerLog.LogLine | server/index.ts:32-46 | a line is produced iff the path starts with "/api", and it is the truncated summary plus the body when one was captured |
| ServerLog.LoggedLine | server/index.ts:34-42 | a logged line fits the limit, is the bare summary without a captured body, and starts with the summary when that fits |
| ServerLog.HandleError | server/index.ts:74-78 | the reply body holds only `message` |
| ServerLog.ErrorStatusSpec | server/index.ts:75 | the status is the first truthy one of `status` and `statusCode`, else 500, and never falsy |
| ServerLog.ZeroStatusSkipped | server/index.ts:75 | a status of 0 falls through to statusCode, and to 500 without one |
| ServerLog.ErrorMessageSpec | server/index.ts:76 | the message is the error's own when truthy, else "Internal Server Error", never falsy |

## Left out

- SQL and the ORM: each table is a map from id to row with an auto-increment counter. Database errors, and the 500 answers they cause, are not modelled. This covers every `catch` branch of the routes, except the "sender" routes, where a throw is an input.
- The error the ORM raises for an update with an empty patch is not modelled. Such an update is modelled as a no-op on that row.
- `parseInt` of a non-numeric id, which gives NaN: route ids are integers in the model.
- Session-id generation (`Math.random`): the token is a parameter of `Login`.
- The health endpoint, which reads the clock. Every clock reading (`now`, the request duration) is a parameter.
- The cache headers set on the message routes, and the `errors` field of the 400 bodies.
- `getMessagesByEmail` and `deleteMessageByEmail`, which server/storage.ts does not define. Their outcome is a parameter of the two sender routes, so those routes have no storage effect in the model. In the code as written, calling either one throws, so with a truthy email only the 500 branch is reachable; the `Returned` outcome describes what would happen if the functions existed.
- Users have no route. `createUser` is modelled with the `unique()` constraint as a refusal that changes nothing.
- getProfile's `limit(1)` without ORDER BY is modelled as the row with the lowest id.
- The seed data is a parameter (`SeedData`). `Sample` holds the values listed in the source. The console output and the swallowed exceptions of `seedDatabase` are left out.
- Uploads, social links, rendering, animations and the category and icon lookup tables: presentation only.
- Concurrency: requests are handled one at a time.
- Strings are sequences of Unicode scalar values (Dafny's `char`). JavaScript's `length` and `slice` count UTF-16 code units instead, so the two agree only on text without characters outside the Basic Multilingual Plane.
- ServerLog.Truncate: counts and cuts scalar values, whereas `logLine.length > 80` and `slice(0, 79)` count UTF-16 code units. For a line with an astral character (such as an emoji) the source counts it as two, may split its surrogate pair and leave a lone high surrogate before "…"; the model counts it as one and keeps it whole.
- The `console.log` and `console.error` calls in the route handlers (the tracing and error reports of `POST /api/messages` and `DELETE /api/messages/:id`) are left out: they have no effect on responses or state.
- Storage.UniqueUsernames and Storage.DatabaseStorage.GetUserByUsername compare usernames exactly. MySQL's default collation compares them case-insensitively, both in the `unique()` constraint and in the `eq` lookup; that case folding is not modelled.
- Numbers are integers. Fractional numbers, arrays and nested objects are one opaque JSON value. `JSON.stringify` of the logged body is a parameter of `ServerLog.LogLine`.
- Admin.StringNumber: `Number(s)` accepts only an optional '-' followed by decimal digits, or the empty string. It does not model trimming of whitespace, '+', fractions, exponents or hex literals; such strings read as NaN and hence as age 0.
- Admin.TestedText: an array is rendered as "[object Object]" rather than as its joined elements.
- Admin.OrderKey: a non-numeric `order` counts as 0. The column is an integer, so JavaScript's coercion of numeric strings never comes into play.
- server/index.ts: the start-up sequence is not modelled (migration, seeding call, Vite, CORS, timeouts), and neither is the rethrow after the error reply.
- The login and logout mutations of the admin page and its other UI state are not modelled. Only the submit handlers and the values sort are.
