/** The decision logic of the `POST /webhook-didi` handler (Program.cs).

    The handler is a fixed chain of guards followed by one store. Everything
    it obtains from the outside world is a parameter here: the `apiKey`
    header (absent or a string), the configured `DidiWebhook:ApiKey` (unset
    or a string), the body as read, the outcome of the JSON decode, and the
    clock reading used for `ReceivedAt`. The result is the HTTP reply plus
    the entry, if any, that the handler hands to `WebhookLogService.Add`. */
module WebhookEndpoint {
  import opened Options
  import opened Models
  import opened LogService

  // ---------------------------------------------------------------------------
  // string.IsNullOrWhiteSpace
  // ---------------------------------------------------------------------------

  /** `char.IsWhiteSpace` of .NET: the Unicode space, line and paragraph
      separators plus the control characters U+0009..U+000D, U+0085 and the
      no-break space U+00A0. */
  predicate IsWhiteSpace(c: char)
  {
    || ('\U{0009}' <= c <= '\U{000D}')
    || c == '\U{0020}' || c == '\U{0085}' || c == '\U{00A0}' || c == '\U{1680}'
    || ('\U{2000}' <= c <= '\U{200A}')
    || c == '\U{2028}' || c == '\U{2029}' || c == '\U{202F}' || c == '\U{205F}'
    || c == '\U{3000}'
  }

  /** Scans `s` from the front, giving up at the first non-white-space
      character, as the library routine does. */
  function AllWhiteSpace(s: string): (r: bool)
    ensures r <==> forall i :: 0 <= i < |s| ==> IsWhiteSpace(s[i])
    decreases |s|
  {
    |s| == 0 || (IsWhiteSpace(s[0]) && AllWhiteSpace(s[1..]))
  }

  /** `string.IsNullOrWhiteSpace`: null, empty, or white space only. */
  predicate IsNullOrWhiteSpace(s: Option<string>)
  {
    s.None? || AllWhiteSpace(s.value)
  }

  // ---------------------------------------------------------------------------
  // Replies
  // ---------------------------------------------------------------------------

  /** The body of a 200 reply: a `{ status = ... }` object or the log list. */
  datatype Body = Status(status: string) | Logs(entries: seq<Entry>)

  /** The `Results.*` values the endpoints return. */
  datatype Reply =
    | Ok(body: Body)              // Results.Ok(...)
    | Unauthorized                // Results.Unauthorized()
    | Problem(detail: string)     // Results.Problem(..., statusCode: 500)
    | Forbidden                   // Results.StatusCode(403)
    | BadRequest(detail: string)  // Results.BadRequest(...)
  {
    function StatusCode(): int
    {
      match this
      case Ok(_) => 200
      case Unauthorized => 401
      case Problem(_) => 500
      case Forbidden => 403
      case BadRequest(_) => 400
    }
  }

  /** What one webhook delivery produces: the reply, and the entry to add. */
  datatype Outcome = Outcome(reply: Reply, stored: Option<Entry>)

  // ---------------------------------------------------------------------------
  // The handler
  // ---------------------------------------------------------------------------

  /** The caller proved it holds the secret: the header is present, a key is
      configured, and the two are equal code unit for code unit. */
  predicate Authenticated(apiKey: Option<string>, configuredKey: Option<string>)
  {
    apiKey.Some? && !IsNullOrWhiteSpace(configuredKey) && apiKey.value == configuredKey.value
  }

  /** The `/webhook-didi` handler. `parsed` is what the case-insensitive JSON
      decode of `body` produced, `None` when it threw or returned null; `now`
      is the reading of `DateTime.UtcNow`. */
  function HandleWebhook(apiKey: Option<string>, configuredKey: Option<string>,
                         body: string, parsed: Option<Notification>, now: int): (out: Outcome)
    // no header: 401, before the configuration is even read
    ensures apiKey.None? ==> out == Outcome(Unauthorized, None)
    // header present but no usable key configured: 500
    ensures apiKey.Some? && IsNullOrWhiteSpace(configuredKey)
            ==> out.reply.StatusCode() == 500 && out.stored.None?
    // key configured, header differs from it in any code unit: 403
    ensures apiKey.Some? && !IsNullOrWhiteSpace(configuredKey) && apiKey.value != configuredKey.value
            ==> out == Outcome(Forbidden, None)
    // authenticated but the body is empty or white space only: 400
    ensures Authenticated(apiKey, configuredKey) && (forall i :: 0 <= i < |body| ==> IsWhiteSpace(body[i]))
            ==> out.reply.StatusCode() == 400 && out.stored.None?
    // authenticated with a real body: 200 and the body kept verbatim,
    // together with whatever the decode produced, failure included
    ensures Authenticated(apiKey, configuredKey) && (exists i :: 0 <= i < |body| && !IsWhiteSpace(body[i]))
            ==> out == Outcome(Ok(Status("ok")), Some(Entry(now, body, parsed)))
    // an entry is stored exactly when the reply is a success
    ensures out.stored.Some? <==> out.reply.StatusCode() == 200
  {
    if apiKey.None? then
      Outcome(Unauthorized, None)
    else if IsNullOrWhiteSpace(configuredKey) then
      Outcome(Problem("Server misconfiguration"), None)
    else if apiKey.value != configuredKey.value then
      Outcome(Forbidden, None)
    else if AllWhiteSpace(body) then
      Outcome(BadRequest("Empty body"), None)
    else
      Outcome(Ok(Status("ok")), Some(Entry(now, body, parsed)))
  }

  /** The reply never depends on the decode outcome or on the clock, and the
      stored entries of two runs differ at most in those two fields. */
  lemma ReplyIgnoresParse(apiKey: Option<string>, configuredKey: Option<string>, body: string,
                          p1: Option<Notification>, p2: Option<Notification>, t1: int, t2: int)
    ensures HandleWebhook(apiKey, configuredKey, body, p1, t1).reply
         == HandleWebhook(apiKey, configuredKey, body, p2, t2).reply
    ensures HandleWebhook(apiKey, configuredKey, body, p1, t1).stored.Some?
         == HandleWebhook(apiKey, configuredKey, body, p2, t2).stored.Some?
  {
  }

  /** A delivery is retained exactly when it is authenticated and its body
      has a non-white-space character; the entry then carries the body
      verbatim, the decode outcome and the receipt time. */
  lemma StoredIffAccepted(apiKey: Option<string>, configuredKey: Option<string>,
                          body: string, parsed: Option<Notification>, now: int)
    ensures HandleWebhook(apiKey, configuredKey, body, parsed, now).stored.Some?
        <==> Authenticated(apiKey, configuredKey) && exists i :: 0 <= i < |body| && !IsWhiteSpace(body[i])
    ensures HandleWebhook(apiKey, configuredKey, body, parsed, now).stored.Some?
        ==> HandleWebhook(apiKey, configuredKey, body, parsed, now).stored.value == Entry(now, body, parsed)
  {
  }
}
