/** The server's request-log middleware and its final error handler: the log
    line written for every finished `/api` request, and the status and
    message an uncaught route error is answered with. */
module ServerLog {
  import opened Json
  import opened Wrappers
  import opened Text

  /** The longest log line written in full. */
  const LogLimit: nat := 80

  /** "…", one UTF-16 code unit. */
  const Ellipsis: char := '\U{2026}'

  /** `logLine.slice(0, 79) + "…"` for a line longer than the limit. */
  function Truncate(line: string): (r: string) {
    if |line| > LogLimit then line[..LogLimit - 1] + [Ellipsis] else line
  }

  /** A line fits the limit after truncation; a short line is untouched; a
      long one keeps its first 79 characters and ends in the ellipsis. */
  lemma TruncateSpec(line: string)
    ensures |Truncate(line)| <= LogLimit
    ensures |line| <= LogLimit ==> Truncate(line) == line
    ensures |line| > LogLimit ==>
      |Truncate(line)| == LogLimit && Truncate(line)[..LogLimit - 1] == line[..LogLimit - 1]
      && Truncate(line)[LogLimit - 1] == Ellipsis
  {
    if |line| > LogLimit {
      assert (line[..LogLimit - 1] + [Ellipsis])[..LogLimit - 1] == line[..LogLimit - 1];
    }
  }

  /** Truncating twice is truncating once. */
  lemma TruncateIdempotent(line: string)
    ensures Truncate(Truncate(line)) == Truncate(line)
  {
    TruncateSpec(line);
  }

  /** Every line, truncated or not, starts with what fits of the original. */
  lemma TruncateKeepsPrefix(line: string, prefix: string)
    requires StartsWith(line, prefix) && |prefix| < LogLimit
    ensures StartsWith(Truncate(line), prefix)
  {
    TruncateSpec(line);
    if |line| > LogLimit {
      assert Truncate(line)[..|prefix|] == Truncate(line)[..LogLimit - 1][..|prefix|];
      assert line[..|prefix|] == line[..LogLimit - 1][..|prefix|];
    }
  }

  /** `${req.method} ${path} ${res.statusCode} in ${duration}ms`. */
  function Summary(verb: string, path: string, status: int, duration: int): string {
    verb + " " + path + " " + IntToString(status) + " in " + IntToString(duration) + "ms"
  }

  /** `if (capturedJsonResponse)`: the route answered with `res.json` and a
      truthy body. */
  predicate Captured(body: Option<Json>) {
    body.Some? && Truthy(body.value)
  }

  /** The line before truncation: the summary, and the serialised body when
      one was captured. */
  function FullLine(verb: string, path: string, status: int, duration: int,
                    body: Option<Json>, bodyText: string): string
  {
    Summary(verb, path, status, duration) + (if Captured(body) then " :: " + bodyText else "")
  }

  /** The `finish` handler. The duration is the clock difference the
      middleware measured; bodyText is `JSON.stringify` of the captured body.
      None stands for "nothing is logged". */
  method LogLine(verb: string, path: string, status: int, duration: int,
                 body: Option<Json>, bodyText: string) returns (line: Option<string>)
    ensures line.Some? <==> StartsWith(path, "/api")
    ensures line.Some? ==> line.value == Truncate(FullLine(verb, path, status, duration, body, bodyText))
  {
    if !StartsWith(path, "/api") {
      return None;
    }
    ghost var full := FullLine(verb, path, status, duration, body, bodyText);
    var logLine := Summary(verb, path, status, duration);
    if body.Some? && Truthy(body.value) {
      logLine := logLine + " :: " + bodyText;
    } else {
      assert full == logLine + "";
    }
    assert logLine == full;
    if |logLine| > 80 {
      logLine := logLine[..79] + [Ellipsis];
    }
    line := Some(logLine);
  }

  /** A logged line never exceeds the limit and starts with what fits of the
      summary; without a captured body it is the summary alone. */
  lemma LoggedLine(verb: string, path: string, status: int, duration: int,
                   body: Option<Json>, bodyText: string)
    ensures |Truncate(FullLine(verb, path, status, duration, body, bodyText))| <= LogLimit
    ensures !Captured(body) ==>
      Truncate(FullLine(verb, path, status, duration, body, bodyText)) == Truncate(Summary(verb, path, status, duration))
    ensures |Summary(verb, path, status, duration)| < LogLimit ==>
      StartsWith(Truncate(FullLine(verb, path, status, duration, body, bodyText)), Summary(verb, path, status, duration))
  {
    var s := Summary(verb, path, status, duration);
    var full := FullLine(verb, path, status, duration, body, bodyText);
    TruncateSpec(full);
    if !Captured(body) {
      assert full == s + "";
    }
    assert full[..|s|] == s;
    if |s| < LogLimit {
      TruncateKeepsPrefix(full, s);
    }
  }

  // The error handler.

  /** `err.status || err.statusCode || 500`. */
  function ErrorStatus(err: Row): Json {
    if FieldTruthy(err, "status") then err["status"]
    else if FieldTruthy(err, "statusCode") then err["statusCode"]
    else JNum(500)
  }

  /** `err.message || "Internal Server Error"`. */
  function ErrorMessage(err: Row): Json {
    if FieldTruthy(err, "message") then err["message"] else JStr("Internal Server Error")
  }

  /** `res.status(status).json({ message })`. */
  datatype ErrorReply = ErrorReply(status: Json, body: Row)

  function HandleError(err: Row): (r: ErrorReply)
    ensures r.body.Keys == {"message"}
  {
    ErrorReply(ErrorStatus(err), map["message" := ErrorMessage(err)])
  }

  /** The status is the first truthy one of `status` and `statusCode`, else
      500, so it is never falsy; a status of 0 is skipped. */
  lemma ErrorStatusSpec(err: Row)
    ensures Truthy(ErrorStatus(err))
    ensures FieldTruthy(err, "status") ==> ErrorStatus(err) == err["status"]
    ensures !FieldTruthy(err, "status") && FieldTruthy(err, "statusCode") ==> ErrorStatus(err) == err["statusCode"]
    ensures !FieldTruthy(err, "status") && !FieldTruthy(err, "statusCode") ==> ErrorStatus(err) == JNum(500)
  {
  }

  /** An `err.status` of 0 before an `err.statusCode` of 404 answers 404;
      with neither, 500. */
  lemma ZeroStatusSkipped(err: Row)
    requires "status" in err && err["status"] == JNum(0)
    ensures "statusCode" in err && err["statusCode"] == JNum(404) ==> ErrorStatus(err) == JNum(404)
    ensures "statusCode" !in err ==> ErrorStatus(err) == JNum(500)
  {
  }

  /** The message is the error's own when it is a non-empty value, the
      fixed text otherwise; it is never empty. */
  lemma ErrorMessageSpec(err: Row)
    ensures Truthy(ErrorMessage(err))
    ensures FieldTruthy(err, "message") ==> ErrorMessage(err) == err["message"]
    ensures !FieldTruthy(err, "message") ==> ErrorMessage(err) == JStr("Internal Server Error")
    ensures HandleError(err).body["message"] == ErrorMessage(err) && HandleError(err).status == ErrorStatus(err)
  {
  }
}
