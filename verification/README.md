# Webhook receiver: retention buffer and webhook handler

A model of the ingestion core of a receiver for payment-movement webhooks
("DIDI" notifications). Two pieces of sequential logic are modelled and
proved:

- **The retention buffer** `WebhookLogService` (module `LogService`,
  `log_service.dfy`). It is a FIFO queue of `WebhookLogEntry` values capped at
  `MaxEntries = 100`. The queue is a `seq<Entry>`, front first. `Add` appends
  and then evicts from the front down to the cap. `GetAll` returns a snapshot
  sorted by `ReceivedAt`, newest first. Ties keep queue order, because
  `OrderByDescending` is stable.
- **The `POST /webhook-didi` handler** (module `WebhookEndpoint`,
  `webhook.dfy`). It is a pure function from the `apiKey` header, the
  configured `DidiWebhook:ApiKey`, the body, the outcome of the JSON decode
  and the clock reading. It returns the reply together with the entry (if
  any) handed to `Add`. The guard chain is 401 → 500 → 403 → 400 → 200.
- **The endpoints over the buffer** (module `Endpoints`, `endpoints.dfy`).
  `GET /api/logs`, `DELETE /api/logs` and the webhook POST are written as one
  step function `Serve` over the buffer, and `Run` folds it over a request
  sequence.

Supporting modules: `Options` (the nullable values) and `Models` (the
`WebhookNotification` data-transfer object).

Points of the code that shape the model:

- The configured key and the body are rejected when null, empty or *white
  space only*. Both checks use `string.IsNullOrWhiteSpace` (Program.cs:55,
  74). `IsWhiteSpace` lists the exact .NET `char.IsWhiteSpace` set.
- `JsonSerializer.Deserialize` can throw, and it can also return null without
  throwing, for example for the body `null`. Both outcomes leave `Parsed`
  null, so the decode outcome is one `Option<Notification>` parameter, with
  `None` covering both.
- A payload that omits `movementType`, `idTransaction` or `currency` still
  decodes. Those properties are initialised to `default!`
  (Models/WebhookNotification.cs:6-9), so they stay null, and the model
  holds them as `Option<string>`.
- `Clear` is called at Program.cs:39, but the service file does not define
  it. `Endpoints.Clear` assumes it means "the buffer becomes empty". That
  assumption comes from the call site and is not backed by a definition.

## Model

| member | source | states |
|---|---|---|
| LogService.Evict | DidiWebhookReceiver/Services/WebhookLogService.cs:22-25 | Run sequentially, the dequeue loop stops at the cap. What remains is exactly the last min(n, 100) entries of the queue, in their order (the reference `Latest`). |
| LogService.Add | DidiWebhookReceiver/Services/WebhookLogService.cs:18-26 | After any add the buffer holds at most 100 entries, and the added entry is last. Below the cap, add only appends. From 100 or more entries, the earliest-inserted entries are dropped so exactly the newest 99 old ones survive; from exactly 100, only the front one is dropped. |
| LogService.AddAllKeepsLatest | DidiWebhookReceiver/Services/WebhookLogService.cs:15-26 | From any buffer within the cap, a run of adds leaves the latest 100 of everything inserted, in insertion order. Eviction follows insertion order, not timestamps. |
| LogService.AddAllFromEmpty | DidiWebhookReceiver/Services/WebhookLogService.cs:15-26 | From empty, N adds leave min(N, 100) entries. These are all N entries when N ≤ 100, and the last 100 inserted otherwise. |
| LogService.GetAll | DidiWebhookReceiver/Services/WebhookLogService.cs:28-33 | The snapshot is a permutation of the buffer (same multiset) and never increases in `ReceivedAt`. Entries sharing a timestamp keep their queue order (the stable sort). An empty buffer gives an empty snapshot. |
| LogService.NewestFirstUnique | DidiWebhookReceiver/Services/WebhookLogService.cs:31 | Two newest-first sequences that agree on the order of each timestamp's entries are equal. So the stable descending order leaves no freedom. |
| LogService.GetAllIsTheStableOrder | DidiWebhookReceiver/Services/WebhookLogService.cs:30-32 | Any newest-first arrangement of the buffer that keeps each timestamp's entries in queue order is exactly `GetAll`'s snapshot. |
| LogService.SnapshotAfterOverflow | DidiWebhookReceiver/Services/WebhookLogService.cs:16-32 | After more than 100 adds from empty, a snapshot has exactly 100 entries. They are the 100 inserted last, whatever their timestamps. |
| WebhookEndpoint.AllWhiteSpace | Program.cs:74 | The blank test used for the configured key and the body holds exactly when every character is .NET white space. An empty string counts as blank. |
| WebhookEndpoint.HandleWebhook | Program.cs:43-109 | Missing header gives 401 and no entry, whatever the configuration or body. With a header, a blank configured key gives 500. With a key, any ordinal mismatch gives 403. An authenticated blank body gives 400. Otherwise the reply is 200 `{status:"ok"}` and the one entry stored keeps the body verbatim, the decode outcome (absent on failure) and the receipt time. An entry is stored iff the reply is 200. |
| WebhookEndpoint.ReplyIgnoresParse | Program.cs:80-108 | A decode failure never changes the reply or whether an entry is stored. Neither does the clock. |
| WebhookEndpoint.StoredIffAccepted | Program.cs:48-103 | An entry is stored exactly when the request is authenticated and the body has a non-white-space character. That entry is (now, body, decode outcome). |
| Endpoints.Serve | Program.cs:30-108 | Every request keeps the buffer within the cap. GET leaves the buffer unchanged. It returns a newest-first permutation of the buffer in which the entries of each timestamp keep their queue order; with `GetAllIsTheStableOrder` this is exactly `GetAll`'s snapshot. DELETE empties the buffer and replies "logs cleared". A POST is answered 200 exactly when it is authenticated and its body has a non-white-space character; one without an `apiKey` header gets 401 and leaves the buffer as it was. A rejected POST leaves the buffer unchanged. After an accepted POST the buffer is the latest 100 entries of the old buffer extended by the new entry, so the new entry is last and only the earliest-inserted entries are evicted. |
| Endpoints.RunKeepsCap | DidiWebhookReceiver/Services/WebhookLogService.cs:16-25 | Whatever sequence of requests is served, a buffer that starts within the cap never exceeds 100 entries. |
| Endpoints.ReadsDoNotMutate | Program.cs:30-34 | Any number of `GET /api/logs` requests leave the buffer exactly as it was. |
| Endpoints.ClearIsIdempotent | Program.cs:37-41 | Two `DELETE /api/logs` leave the same buffer as one, and a following read returns an empty list. |
| Endpoints.MissingHeaderLeavesNoTrace | Program.cs:48-52 | A POST without the `apiKey` header is answered 401 and leaves the buffer untouched, for any body, decode outcome or configuration. |
| Endpoints.UnparsableBodyIsKept | Program.cs:80-108 | With the right key and a non-blank body the decoder rejects, the reply is still 200 `{status:"ok"}`. The next read lists an entry whose raw body is the posted text and whose payload is absent. |
| Endpoints.SingleDeliveryScenario | Program.cs:84-108 | With key "s3cret" and a well-formed notification for "tx-1" of 12.50 USD posted to an empty buffer, the reply is 200. The next read returns exactly that one entry, with the decoded payload. |
| Endpoints.MisconfiguredServerStoresNothing | Program.cs:54-59 | With the configured key unset, empty or white space, every POST that carries a header gets 500 "Server misconfiguration" and stores nothing. |

## Left out

- Concurrency: the model is sequential. It leaves out the `ConcurrentQueue`, the racy count-then-dequeue loop, and interleavings of `Add`, `GetAll` and `Clear`. Under contention two effects are not modelled: two adders can both read `Count == 101` and both dequeue, leaving 99 entries, below the cap; and `GetAll` can see 101 entries between the `Enqueue` and the eviction loop (WebhookLogService.cs:20-22).
- JSON decoding (`JsonSerializer.Deserialize` with case-insensitive names): this is a foreign library. Its outcome is the `parsed` parameter, with `None` for a throw or a null result.
- `DateTime.UtcNow`: the receipt time is the `now` parameter. `DateTime` values are tick counts, and their `Kind` is ignored, as `DateTime` comparison ignores it.
- Reading the body stream (`StreamReader.ReadToEndAsync`): this is I/O. The body is a given string.
- Header lookup and `StringValues.ToString()`: a multi-valued `apiKey` header is joined by the framework. Here it is one optional string.
- Strings are sequences of Unicode scalar values, while .NET compares UTF-16 code units. The two comparisons agree on every string Dafny can represent. Lone surrogates are not modelled.
- `Notification.amount` is a C# `decimal` held as an exact `real`. The 28-digit limit of `decimal` is not modelled; the receiver never computes with the amount.
- Reply bodies are datatypes (`Status`, `Logs`, a problem detail string), not serialized JSON. `Results.Problem`'s full problem-details object is reduced to its detail text.
- Clear: not defined in the service file. It is modelled as "the buffer becomes empty", an assumption taken from its call site.
- Logging calls, web host bootstrap, dependency injection, Swagger, static files and the `/health` endpoint: these are framework plumbing with no effect on the buffer or the replies modelled here.
