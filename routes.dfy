/** The HTTP API: the admin session store, the authorisation gate, and each
    route's chain of checks (authorisation, then schema validation, then the
    repository call) ending in a status code and a JSON body. */
module Routes {
  import opened Json
  import opened Wrappers
  import opened Text
  import opened Sorting
  import opened Schema
  import opened Tables
  import opened Storage

  const AdminUsername: string := "admin"
  const AdminPassword: string := "admin123"
  const BearerPrefix: string := "Bearer "

  /** A JSON response body. */
  datatype Body =
    | Msg(message: string)              // { message }
    | Invalid(message: string)          // { message, errors } after a failed safeParse
    | Record(row: Row)                  // one row
    | NoRecord                          // `res.json(undefined)`
    | Listing(rows: seq<Row>)           // an array of rows
    | Session(message: string, sessionId: string)
    | Auth(authenticated: bool)
    | Raw(value: Json)                  // a value passed on as it came

  datatype Response = Response(status: int, body: Body)

  /** The outcome of a call into code that is not part of this model. */
  datatype Outcome<T> = Threw | Returned(value: T)

  function Unauthorized(): Response {
    Response(401, Msg("Unauthorized"))
  }

  // The session store.

  /** `req.headers.authorization?.replace('Bearer ', '')`: undefined without
      the header; otherwise the header with its first "Bearer " removed. */
  function ExtractToken(header: Option<string>): Option<string> {
    match header
    case None => None
    case Some(h) => Some(ReplaceFirst(h, BearerPrefix, ""))
  }

  /** `sessionId && adminSessions.has(sessionId)`: an undefined or empty token
      is falsy and never passes. */
  predicate Authorized(sessions: set<string>, header: Option<string>) {
    var token := ExtractToken(header);
    token.Some? && token.value != "" && token.value in sessions
  }

  /** `requireAuth`: None lets the handler run; otherwise the 401 it answers. */
  function RequireAuth(sessions: set<string>, header: Option<string>): (r: Option<Response>)
    ensures r.None? || r == Some(Unauthorized())
  {
    if Authorized(sessions, header) then None else Some(Unauthorized())
  }

  /** The exact admin credentials in a login body (strict equality). */
  predicate Credentials(body: Row) {
    "username" in body && body["username"] == JStr(AdminUsername)
    && "password" in body && body["password"] == JStr(AdminPassword)
  }

  /** The session set after a login that generated `token`. */
  function AfterLogin(sessions: set<string>, body: Row, token: string): set<string> {
    if Credentials(body) then sessions + {token} else sessions
  }

  /** The session set after a logout: the supplied token, when truthy, is removed. */
  function AfterLogout(sessions: set<string>, header: Option<string>): set<string> {
    var token := ExtractToken(header);
    if token.Some? && token.value != "" then sessions - {token.value} else sessions
  }

  /** A header "Bearer <token>" carries exactly the token. */
  lemma BearerToken(token: string)
    ensures ExtractToken(Some(BearerPrefix + token)) == Some(token)
  {
    var h := BearerPrefix + token;
    assert h[0..|BearerPrefix|] == BearerPrefix;
    ReplaceFirstAt(h, BearerPrefix, "", 0);
    assert h[..0] + "" + h[|BearerPrefix|..] == token;
  }

  /** The first "Bearer " is removed wherever it is, not only as a prefix. */
  lemma {:induction false} BearerAnywhere(before: string, after: string)
    requires forall j :: 0 <= j < |before| ==> !OccursAt(before + BearerPrefix + after, BearerPrefix, j)
    ensures ExtractToken(Some(before + BearerPrefix + after)) == Some(before + after)
  {
    var h := before + BearerPrefix + after;
    assert h[|before|..|before| + |BearerPrefix|] == BearerPrefix;
    ReplaceFirstAt(h, BearerPrefix, "", |before|);
    assert h[..|before|] + "" + h[|before| + |BearerPrefix|..] == before + after;
  }

  /** A header without "Bearer " is taken whole as the token. */
  lemma NoBearer(h: string)
    requires forall i :: !OccursAt(h, BearerPrefix, i)
    ensures ExtractToken(Some(h)) == Some(h)
  {
  }

  /** A missing header, and a header of exactly "Bearer ", never pass. */
  lemma EmptyTokenRejected(sessions: set<string>)
    ensures !Authorized(sessions, None)
    ensures !Authorized(sessions, Some(BearerPrefix))
  {
    BearerToken("");
    assert BearerPrefix + "" == BearerPrefix;
  }

  /** With a "Bearer" header the gate passes iff the token is a non-empty live session. */
  lemma AuthorizedBearer(sessions: set<string>, token: string)
    ensures Authorized(sessions, Some(BearerPrefix + token)) <==> token != "" && token in sessions
  {
    BearerToken(token);
  }

  /** A successful login adds its token and nothing else; a failed one changes nothing. */
  lemma LoginSessions(sessions: set<string>, body: Row, token: string)
    ensures Credentials(body) ==> AfterLogin(sessions, body, token) == sessions + {token}
    ensures !Credentials(body) ==> AfterLogin(sessions, body, token) == sessions
    ensures sessions <= AfterLogin(sessions, body, token)
  {
  }

  /** After a successful login the returned token opens the gate. */
  lemma LoginThenAuthorized(sessions: set<string>, body: Row, token: string)
    requires Credentials(body) && token != ""
    ensures Authorized(AfterLogin(sessions, body, token), Some(BearerPrefix + token))
  {
    AuthorizedBearer(AfterLogin(sessions, body, token), token);
  }

  /** After a logout the same header no longer opens the gate, and every
      other token keeps its standing. */
  lemma LogoutRevokes(sessions: set<string>, header: Option<string>, other: string)
    ensures !Authorized(AfterLogout(sessions, header), header)
    ensures ExtractToken(header) != Some(other) ==> (other in AfterLogout(sessions, header) <==> other in sessions)
    ensures AfterLogout(sessions, header) <= sessions
  {
  }

  /** Logging out with the token of a fresh login restores the session set. */
  lemma LoginLogout(sessions: set<string>, body: Row, token: string)
    requires Credentials(body) && token != "" && token !in sessions
    ensures AfterLogout(AfterLogin(sessions, body, token), Some(BearerPrefix + token)) == sessions
  {
    BearerToken(token);
  }

  // Route tables and messages.

  /** The entity name in the 404 and delete messages. */
  function Noun(t: TableName): string {
    match t
    case Users => "User"
    case Articles => "Article"
    case Skills => "Skill"
    case Experiences => "Experience"
    case Education => "Education"
    case Activities => "Activity"
    case Values => "Value"
    case Profile => "Profile"
    case Messages => "Message"
  }

  /** The entity name in the 400 messages. */
  function LowerNoun(t: TableName): string {
    match t
    case Users => "user"
    case Articles => "article"
    case Skills => "skill"
    case Experiences => "experience"
    case Education => "education"
    case Activities => "activity"
    case Values => "value"
    case Profile => "profile"
    case Messages => "message"
  }

  function InvalidData(t: TableName): Response {
    Response(400, Invalid("Invalid " + LowerNoun(t) + " data"))
  }

  function NotFound(t: TableName): Response {
    Response(404, Msg(Noun(t) + " not found"))
  }

  /** Tables with a public `GET /api/<entities>`. */
  predicate PublicList(t: TableName) {
    t in {Articles, Skills, Experiences, Education, Activities, Values}
  }

  /** Tables with `POST /api/<entities>`; only messages may be posted without a session. */
  predicate HasCreate(t: TableName) {
    t in {Articles, Skills, Experiences, Education, Activities, Values, Messages}
  }

  /** Tables with `PUT /api/<entities>/:id` (experiences have none). */
  predicate HasUpdate(t: TableName) {
    t in {Articles, Skills, Education, Activities, Values}
  }

  /** Tables with `DELETE /api/<entities>/:id` (experiences have none). */
  predicate HasDelete(t: TableName) {
    t in {Articles, Skills, Education, Activities, Values, Messages}
  }

  /** Every write route but `POST /api/messages` sits behind the gate. */
  predicate CreateNeedsAuth(t: TableName) {
    t != Messages
  }

  /** The updatable and deletable tables are ones the repository may edit. */
  lemma RouteTablesEditable(t: TableName)
    ensures HasUpdate(t) ==> Editable(t)
    ensures HasDelete(t) ==> t != Users && t != Profile
    ensures HasCreate(t) ==> t != Users && t != Profile
  {
  }

  class Server {
    var adminSessions: set<string>
    const storage: DatabaseStorage

    ghost predicate Valid()
      reads this, storage
    {
      storage.Valid()
    }

    /** The server at start-up: no sessions. */
    constructor (store: DatabaseStorage)
      requires store.Valid()
      ensures Valid() && adminSessions == {} && storage == store
    {
      adminSessions := {};
      storage := store;
    }

    /** `POST /api/auth/login`, where `token` is the id the session generator produced. */
    method Login(body: Row, token: string) returns (res: Response)
      modifies this
      ensures adminSessions == AfterLogin(old(adminSessions), body, token)
      ensures Credentials(body) ==> res == Response(200, Session("Login successful", token))
      ensures !Credentials(body) ==> res == Response(401, Msg("Invalid credentials"))
    {
      if Credentials(body) {
        adminSessions := adminSessions + {token};
        res := Response(200, Session("Login successful", token));
      } else {
        res := Response(401, Msg("Invalid credentials"));
      }
    }

    /** `POST /api/auth/logout`: succeeds whatever the token. */
    method Logout(header: Option<string>) returns (res: Response)
      modifies this
      ensures adminSessions == AfterLogout(old(adminSessions), header)
      ensures res == Response(200, Msg("Logout successful"))
    {
      var token := ExtractToken(header);
      if token.Some? && token.value != "" {
        adminSessions := adminSessions - {token.value};
      }
      res := Response(200, Msg("Logout successful"));
    }

    /** `GET /api/auth/status`. */
    method Status(header: Option<string>) returns (res: Response)
      ensures res.status == 200 <==> Authorized(adminSessions, header)
      ensures res.body == Auth(Authorized(adminSessions, header))
      ensures res.status == 200 || res.status == 401
    {
      var token := ExtractToken(header);
      if token.Some? && token.value != "" && token.value in adminSessions {
        res := Response(200, Auth(true));
      } else {
        res := Response(401, Auth(false));
      }
    }

    /** `GET /api/profile`: the profile, or an empty body when there is none. */
    method GetProfileRoute() returns (res: Response)
      requires Valid()
      ensures res.status == 200
      ensures storage.tables[Profile].rows == map[] <==> res.body == NoRecord
      ensures res.body.Record? ==> res.body.row in storage.tables[Profile].rows.Values
    {
      var profile := storage.GetProfile();
      if profile.Some? {
        res := Response(200, Record(profile.value));
      } else {
        res := Response(200, NoRecord);
      }
    }

    /** `PUT /api/profile`. */
    method PutProfile(header: Option<string>, body: Row, now: int) returns (res: Response)
      requires Valid()
      modifies storage
      ensures Valid()
      ensures !Authorized(adminSessions, header) ==> res == Unauthorized() && storage.tables == old(storage.tables)
      ensures Authorized(adminSessions, header) && !Validates(Profile, body, false) ==>
        res == InvalidData(Profile) && storage.tables == old(storage.tables)
      ensures Authorized(adminSessions, header) && Validates(Profile, body, false) ==>
        && res == Response(200, Record(Upsert(old(storage.tables)[Profile], Strip(Profile, body), now).result))
        && storage.tables == old(storage.tables)[Profile := Upsert(old(storage.tables)[Profile], Strip(Profile, body), now).table]
    {
      var gate := RequireAuth(adminSessions, header);
      if gate.Some? {
        return gate.value;
      }
      var parsed := SafeParse(Profile, body, false);
      if parsed.None? {
        return InvalidData(Profile);
      }
      var profile := storage.UpdateProfile(parsed.value, now);
      res := Response(200, Record(profile));
    }

    /** `GET /api/<entities>`: every row once, in the table's order. */
    method GetAllRoute(t: TableName) returns (res: Response)
      requires Valid() && PublicList(t)
      ensures res.status == 200 && res.body.Listing?
      ensures IsListing(storage.tables[t], res.body.rows) && SortedBy(res.body.rows, SqlKey(t))
    {
      var rows := storage.GetAll(t);
      res := Response(200, Listing(rows));
    }

    /** `GET /api/articles/:id`. */
    method GetArticleRoute(id: int) returns (res: Response)
      requires Valid()
      ensures id in storage.tables[Articles].rows ==> res == Response(200, Record(storage.tables[Articles].rows[id]))
      ensures id !in storage.tables[Articles].rows ==> res == NotFound(Articles)
    {
      var article := storage.Get(Articles, id);
      if article.None? {
        return NotFound(Articles);
      }
      res := Response(200, Record(article.value));
    }

    /** `POST /api/<entities>`: 401 without a session (messages excepted), 400
        for a body the insert schema refuses, else 201 with the created record. */
    method CreateRoute(t: TableName, header: Option<string>, body: Row, now: int) returns (res: Response)
      requires Valid() && HasCreate(t)
      modifies storage
      ensures Valid()
      ensures CreateNeedsAuth(t) && !Authorized(adminSessions, header) ==>
        res == Unauthorized() && storage.tables == old(storage.tables)
      ensures (!CreateNeedsAuth(t) || Authorized(adminSessions, header)) && !Validates(t, body, false) ==>
        res == InvalidData(t) && storage.tables == old(storage.tables)
      ensures (!CreateNeedsAuth(t) || Authorized(adminSessions, header)) && Validates(t, body, false) ==>
        && res == Response(201, Record(Insert(t, old(storage.tables)[t], Strip(t, body), now).result))
        && storage.tables == old(storage.tables)[t := Insert(t, old(storage.tables)[t], Strip(t, body), now).table]
    {
      if CreateNeedsAuth(t) {
        var gate := RequireAuth(adminSessions, header);
        if gate.Some? {
          return gate.value;
        }
      }
      var parsed := SafeParse(t, body, false);
      if parsed.None? {
        return InvalidData(t);
      }
      var created := storage.Create(t, parsed.value, now);
      res := Response(201, Record(created));
    }

    /** `PUT /api/<entities>/:id`: 401, 400 for a body `.partial()` refuses,
        404 for an absent id, else 200 with the row as re-read. */
    method UpdateRoute(t: TableName, header: Option<string>, id: int, body: Row) returns (res: Response)
      requires Valid() && HasUpdate(t)
      modifies storage
      ensures Valid()
      ensures !Authorized(adminSessions, header) ==> res == Unauthorized() && storage.tables == old(storage.tables)
      ensures Authorized(adminSessions, header) && !Validates(t, body, true) ==>
        res == InvalidData(t) && storage.tables == old(storage.tables)
      ensures Authorized(adminSessions, header) && Validates(t, body, true) ==>
        && storage.tables == old(storage.tables)[t := Tables.Update(old(storage.tables)[t], id, Strip(t, body)).table]
        && (id !in old(storage.tables)[t].rows ==> res == NotFound(t) && storage.tables == old(storage.tables))
        && (id in old(storage.tables)[t].rows ==> res == Response(200, Record(storage.tables[t].rows[id])))
    {
      var gate := RequireAuth(adminSessions, header);
      if gate.Some? {
        return gate.value;
      }
      var parsed := SafeParse(t, body, true);
      if parsed.None? {
        return InvalidData(t);
      }
      RouteTablesEditable(t);
      var updated := storage.Update(t, id, parsed.value);
      if updated.None? {
        return NotFound(t);
      }
      res := Response(200, Record(updated.value));
    }

    /** `DELETE /api/<entities>/:id`: 401, 404 when nothing was removed, else 200. */
    method DeleteRoute(t: TableName, header: Option<string>, id: int) returns (res: Response)
      requires Valid() && HasDelete(t)
      modifies storage
      ensures Valid()
      ensures !Authorized(adminSessions, header) ==> res == Unauthorized() && storage.tables == old(storage.tables)
      ensures Authorized(adminSessions, header) ==>
        && storage.tables == old(storage.tables)[t := Tables.Delete(old(storage.tables)[t], id).table]
        && (id !in old(storage.tables)[t].rows ==> res == NotFound(t))
        && (id in old(storage.tables)[t].rows ==> res == Response(200, Msg(Noun(t) + " deleted successfully")))
    {
      var gate := RequireAuth(adminSessions, header);
      if gate.Some? {
        return gate.value;
      }
      RouteTablesEditable(t);
      var deleted := storage.Delete(t, id);
      if !deleted {
        return NotFound(t);
      }
      res := Response(200, Msg(Noun(t) + " deleted successfully"));
    }

    /** `GET /api/messages`: the inbox, behind the gate. */
    method GetMessagesRoute(header: Option<string>) returns (res: Response)
      requires Valid()
      ensures !Authorized(adminSessions, header) ==> res == Unauthorized()
      ensures Authorized(adminSessions, header) ==>
        && res.status == 200 && res.body.Listing?
        && IsListing(storage.tables[Messages], res.body.rows) && SortedBy(res.body.rows, SqlKey(Messages))
    {
      var gate := RequireAuth(adminSessions, header);
      if gate.Some? {
        return gate.value;
      }
      var rows := storage.GetAll(Messages);
      res := Response(200, Listing(rows));
    }

    /** `PUT /api/messages/:id/read`. */
    method MarkReadRoute(header: Option<string>, id: int) returns (res: Response)
      requires Valid()
      modifies storage
      ensures Valid()
      ensures !Authorized(adminSessions, header) ==> res == Unauthorized() && storage.tables == old(storage.tables)
      ensures Authorized(adminSessions, header) ==>
        && storage.tables == old(storage.tables)[Messages := MarkRead(old(storage.tables)[Messages], id).table]
        && (id !in old(storage.tables)[Messages].rows ==> res == NotFound(Messages))
        && (id in old(storage.tables)[Messages].rows ==> res == Response(200, Msg("Message marked as read")))
    {
      var gate := RequireAuth(adminSessions, header);
      if gate.Some? {
        return gate.value;
      }
      var marked := storage.MarkMessageAsRead(id);
      if !marked {
        return NotFound(Messages);
      }
      res := Response(200, Msg("Message marked as read"));
    }

    /** `GET /api/messages/sender/:email`: public; `lookup` is what the
        message-by-email lookup produced. */
    method SenderMessagesRoute(email: string, lookup: Outcome<Json>) returns (res: Response)
      ensures lookup.Threw? ==> res == Response(500, Msg("Failed to fetch messages"))
      ensures lookup.Returned? ==> res == Response(200, Raw(lookup.value))
    {
      if lookup.Threw? {
        return Response(500, Msg("Failed to fetch messages"));
      }
      res := Response(200, Raw(lookup.value));
    }

    /** `DELETE /api/messages/:id/sender`: public; a falsy `email` in the body
        is refused before any lookup, and `deletion` is what the
        delete-by-email call produced. */
    method SenderDeleteRoute(id: int, body: Row, deletion: Outcome<Json>) returns (res: Response)
      ensures !FieldTruthy(body, "email") ==> res == Response(400, Msg("Email is required"))
      ensures FieldTruthy(body, "email") && deletion.Threw? ==> res == Response(500, Msg("Failed to delete message"))
      ensures FieldTruthy(body, "email") && deletion.Returned? && !Truthy(deletion.value) ==>
        res == Response(404, Msg("Message not found or unauthorized"))
      ensures FieldTruthy(body, "email") && deletion.Returned? && Truthy(deletion.value) ==>
        res == Response(200, Msg("Message deleted successfully"))
    {
      if !FieldTruthy(body, "email") {
        return Response(400, Msg("Email is required"));
      }
      if deletion.Threw? {
        return Response(500, Msg("Failed to delete message"));
      }
      if !Truthy(deletion.value) {
        return Response(404, Msg("Message not found or unauthorized"));
      }
      res := Response(200, Msg("Message deleted successfully"));
    }
  }
}
