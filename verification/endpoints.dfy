/** The three endpoints that touch the log buffer (Program.cs), as one step
    function over the buffer: the buffer before a request, the request, and
    the configured key give the buffer after it and the reply.

    `WebhookLogService.Clear` is called by `DELETE /api/logs` but is not
    defined in WebhookLogService.cs; `Clear` below takes the call site's
    evident meaning, "the buffer becomes empty", as an assumption. */
module Endpoints {
  import opened Options
  import opened Models
  import opened LogService
  import opened WebhookEndpoint

  /** One HTTP request. A webhook delivery carries what the handler reads
      from outside: the `apiKey` header, the body, the decode outcome and
      the clock reading. */
  datatype Request =
    | PostWebhook(apiKey: Option<string>, body: string, parsed: Option<Notification>, now: int)
    | GetLogs
    | DeleteLogs

  /** `WebhookLogService.Clear`, assumed from its call site. */
  function Clear(buffer: seq<Entry>): seq<Entry>
  {
    []
  }

  /** Serve one request against the buffer. */
  function Serve(configuredKey: Option<string>, buffer: seq<Entry>, request: Request): (res: (seq<Entry>, Reply))
    // the buffer never grows past the cap
    ensures WithinCap(buffer) ==> WithinCap(res.0)
    // GET /api/logs: the snapshot, newest first, and the buffer untouched
    ensures request.GetLogs? ==> res.0 == buffer && res.1.Ok? && res.1.body.Logs?
    ensures request.GetLogs? ==> multiset(res.1.body.entries) == multiset(buffer)
                                 && NewestFirst(res.1.body.entries)
                                 && forall t :: StampedAt(res.1.body.entries, t) == StampedAt(buffer, t)
    // DELETE /api/logs: empty buffer, fixed acknowledgement
    ensures request.DeleteLogs? ==> res == ([], Ok(Status("logs cleared")))
    // a delivery is accepted exactly when it is authenticated and its body
    // has a non-white-space character; one without a header is refused 401
    ensures request.PostWebhook?
            ==> (res.1.StatusCode() == 200
                 <==> Authenticated(request.apiKey, configuredKey)
                      && exists i :: 0 <= i < |request.body| && !IsWhiteSpace(request.body[i]))
    ensures request.PostWebhook? && request.apiKey.None? ==> res == (buffer, Unauthorized)
    // a rejected delivery leaves the buffer exactly as it was
    ensures request.PostWebhook? && res.1.StatusCode() != 200 ==> res.0 == buffer
    // an accepted delivery is appended as the newest entry in insertion order,
    // and of the older entries only the earliest-inserted are evicted
    ensures request.PostWebhook? && res.1.StatusCode() == 200
            ==> |res.0| > 0 && res.0[|res.0| - 1] == Entry(request.now, request.body, request.parsed)
    ensures request.PostWebhook? && res.1.StatusCode() == 200
            ==> res.0 == Latest(buffer + [Entry(request.now, request.body, request.parsed)])
  {
    match request
    case GetLogs => (buffer, Ok(Logs(GetAll(buffer))))
    case DeleteLogs => (Clear(buffer), Ok(Status("logs cleared")))
    case PostWebhook(apiKey, body, parsed, now) =>
      var out := HandleWebhook(apiKey, configuredKey, body, parsed, now);
      match out.stored
      case Some(entry) => (Add(buffer, entry), out.reply)
      case None => (buffer, out.reply)
  }

  /** Serve a sequence of requests in order; the buffer after the last one. */
  function Run(configuredKey: Option<string>, buffer: seq<Entry>, requests: seq<Request>): seq<Entry>
    decreases |requests|
  {
    if |requests| == 0 then buffer
    else Run(configuredKey, Serve(configuredKey, buffer, requests[0]).0, requests[1..])
  }

  /** Whatever the requests, a buffer that starts within the cap stays there. */
  lemma {:induction false} RunKeepsCap(configuredKey: Option<string>, buffer: seq<Entry>, requests: seq<Request>)
    requires WithinCap(buffer)
    ensures WithinCap(Run(configuredKey, buffer, requests))
    decreases |requests|
  {
    if |requests| > 0 {
      RunKeepsCap(configuredKey, Serve(configuredKey, buffer, requests[0]).0, requests[1..]);
    }
  }

  /** Reading the logs any number of times changes nothing. */
  lemma {:induction false} ReadsDoNotMutate(configuredKey: Option<string>, buffer: seq<Entry>, requests: seq<Request>)
    requires forall k :: 0 <= k < |requests| ==> requests[k].GetLogs?
    ensures Run(configuredKey, buffer, requests) == buffer
    decreases |requests|
  {
    if |requests| > 0 {
      ReadsDoNotMutate(configuredKey, buffer, requests[1..]);
    }
  }

  /** Clearing twice is clearing once, and a read afterwards sees nothing. */
  lemma ClearIsIdempotent(configuredKey: Option<string>, buffer: seq<Entry>)
    ensures Run(configuredKey, buffer, [DeleteLogs, DeleteLogs]) == Run(configuredKey, buffer, [DeleteLogs])
    ensures Serve(configuredKey, Run(configuredKey, buffer, [DeleteLogs]), GetLogs).1 == Ok(Logs([]))
  {
    assert [DeleteLogs, DeleteLogs][1..] == [DeleteLogs];
  }

  /** A delivery with no `apiKey` header is refused with 401 and leaves no
      trace, however well-formed its body and whatever the configuration. */
  lemma MissingHeaderLeavesNoTrace(configuredKey: Option<string>, buffer: seq<Entry>,
                                   body: string, parsed: Option<Notification>, now: int)
    ensures Serve(configuredKey, buffer, PostWebhook(None, body, parsed, now)) == (buffer, Unauthorized)
  {
  }

  /** A body the decoder rejects is still acknowledged with 200, and the next
      read of the logs shows it verbatim with no parsed payload. */
  lemma UnparsableBodyIsKept(key: string, buffer: seq<Entry>, body: string, now: int)
    requires !IsNullOrWhiteSpace(Some(key))
    requires exists i :: 0 <= i < |body| && !IsWhiteSpace(body[i])
    ensures Serve(Some(key), buffer, PostWebhook(Some(key), body, None, now)).1 == Ok(Status("ok"))
    ensures Entry(now, body, None)
            in Serve(Some(key), Serve(Some(key), buffer, PostWebhook(Some(key), body, None, now)).0, GetLogs).1.body.entries
  {
    var after := Serve(Some(key), buffer, PostWebhook(Some(key), body, None, now)).0;
    var e := Entry(now, body, None);
    assert after[|after| - 1] == e;
    assert e in multiset(after);
    assert e in multiset(GetAll(after));
  }

  /** The body of the end-to-end scenario below: a well-formed notification,
      an opening brace followed by its fields. */
  const ScenarioBody: string :=
    "{" + "\"id\":1,\"movementType\":\"credit\",\"idTransaction\":\"tx-1\",\"amount\":12.50,\"currency\":\"USD\"}"

  /** The end-to-end scenario: key "s3cret", one well-formed notification for
      transaction "tx-1" of 12.50 USD, then a read. The read returns that one
      entry with the decoded payload. */
  lemma SingleDeliveryScenario(now: int)
    ensures var n := Notification(1, Some("credit"), Some("tx-1"), 12.50, Some("USD"), None, None);
            var body := ScenarioBody;
            var posted := Serve(Some("s3cret"), [], PostWebhook(Some("s3cret"), body, Some(n), now));
            && posted.1 == Ok(Status("ok"))
            && Serve(Some("s3cret"), posted.0, GetLogs).1 == Ok(Logs([Entry(now, body, Some(n))]))
            && Serve(Some("s3cret"), posted.0, GetLogs).1.body.entries[0].parsed.value.idTransaction == Some("tx-1")
            && Serve(Some("s3cret"), posted.0, GetLogs).1.body.entries[0].parsed.value.amount == 12.50
  {
    assert ScenarioBody[0] == '{';
    assert !IsWhiteSpace(ScenarioBody[0]);
    assert !AllWhiteSpace("s3cret") by { assert !IsWhiteSpace("s3cret"[0]); }
  }

  /** With the key unset or blank, every delivery that carries a header is
      answered 500 and nothing is stored. */
  lemma MisconfiguredServerStoresNothing(configuredKey: Option<string>, buffer: seq<Entry>, request: Request)
    requires IsNullOrWhiteSpace(configuredKey)
    requires request.PostWebhook? && request.apiKey.Some?
    ensures Serve(configuredKey, buffer, request) == (buffer, Problem("Server misconfiguration"))
  {
  }
}
