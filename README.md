# smtp-proxy: a verified model of the /check pipeline

The service answers `GET /check?email=…` or `GET /check?domain=…` by
resolving the domain's preferred mail exchanger, looking up its address and
timing a TCP connect to port 25. This project models the decision logic of
that pipeline in Dafny and proves what it does:

- `Resolver` (resolver.dfy): `getMxAndIp`. It rejects a missing or empty MX
  answer. It picks one record with `reduce` and a strict `<` on priority, then
  looks up the chosen exchange. Both DNS calls are function parameters
  (`MxQuery`, `AddressLookup`).
- `Prober` (prober.dfy): `checkSmtpTcp`. A class `Probe` holds the promise's
  `settlement` (Pending / Resolved(duration) / Rejected(message)) and a
  `destroyed` flag. It has one method per socket event handler and
  `Resolve`/`Reject` methods that model the promise's once-only settlement.
  Beside the class is a functional model (`Step`, `Run` over an event trace),
  and the class methods are tied to it. `CheckSmtpTcp` creates a probe and
  delivers a trace of socket events to its handlers in order. That loop stands
  for the event loop, which calls the handlers one at a time.
- `JsString` (jsstring.dfy): `String.prototype.split` with a one-character
  separator, and its inverse `join`. The handler takes `email.split("@")[1]`.
- `CheckEndpoint` (endpoint.dfy): the `/check` handler. It derives the target
  domain, runs the resolver and then the probe, and shapes the response (200
  success record, 400 for missing parameters, 500 with the thrown error's
  message). The network is one parameter: the two DNS calls, the clock reading
  when the probe starts, and the events the socket to each address emits.
- `Results` (results.dfy): `Option` (for JavaScript `undefined`) and a
  `Result` that is either a value or a thrown error's message. `Result` works
  with `:-`, which propagates an error the way `await` does inside `try`.

Behaviour of the code that the model keeps, including where a reader might expect otherwise:

- Ties at the minimum priority go to the LAST tied record in answer order, not
  the first. The callback keeps `prev` only when it is strictly lower
  (`Resolver.LaterTieWins`, `Resolver.SelectionIsLastMinimum`).
- The `error` handler does not call `socket.destroy()`. Only `connect` and
  `timeout` do (`Prober.DestroyedIffConnectOrTimeout`).
- Error kinds are not kept apart. Every failure reaches the response as a
  plain message.
- An email with no `@` does not produce a 400. The target domain becomes
  `undefined` and is still handed to the MX query. What that query does with
  `undefined` is up to the `MxQuery` parameter.

## Model

| member | source | states |
|---|---|---|
| `Resolver.Prefer` | server.js:22-24 | the reduce callback returns one of its two arguments, with the lower priority of the two, and returns `current` on equal priorities |
| `Resolver.PrimaryMx` | server.js:21-24 | the `reduce` itself: the selected record is an element of the answer and no answer has a lower priority; which tied record it is, is stated by `SelectionIsLastMinimum` and `LaterTieWins` |
| `Resolver.SelectionIsLastMinimum` | server.js:21-24 | the reduced record is the one at the last position holding the list's minimum priority |
| `Resolver.LastMinimumIsUnique` | server.js:22-24 | the reference definition of the selection picks out a single position |
| `Resolver.LaterTieWins` | server.js:22-24 | a record appended after others whose priorities are all at least its own is the one selected, so a later tie displaces an earlier one |
| `Resolver.GetMxAndIp` | server.js:15-29 | `getMxAndIp` itself: on success the MX answer was a non-empty list, mxHost is the exchange the `reduce` selects, and ip is the lookup's answer for that host; a missing or empty answer fails with "No MX records found" (failures in full: `FailureComesFromOneStage`) |
| `Resolver.NoMxRecordsFails` | server.js:16-19 | a missing or empty MX answer fails with "No MX records found" whatever the lookup would answer, so no lookup takes place |
| `Resolver.ResolutionIsOfPreferredExchange` | server.js:15-29 | on success the MX answer was a non-empty list, mxHost is the exchange of its last minimum-priority record, and ip is the lookup's answer for that same host |
| `Resolver.FailureComesFromOneStage` | server.js:15-29 | a failure carries the MX query's error, the no-records message after an empty or missing answer, or the lookup's error for the selected exchange |
| `Prober.Step` | server.js:33-52 | delivering one event to its handler: a settled promise keeps its value, a pending one takes the event's verdict, and the socket is destroyed afterwards exactly when it was before or the event is connect or timeout |
| `Prober.Run` | server.js:33-55 | the state after a sequence of events: once the promise is settled no later event changes it, and a destroyed socket stays destroyed |
| `Prober.ProbeOutcome` | server.js:32-56 | what the promise of `checkSmtpTcp` settles with: it is pending exactly when no event has come (the full verdict is `FirstEventDecides`) |
| `Prober.Verdict` | server.js:39-52 | every handler settles the promise, and it resolves only on `connect` |
| `Prober.FirstEventDecides` | server.js:33-55 | the outcome is pending with no event, and otherwise whatever the first event's handler settles: `Resolved(now - startTime)` for connect, `Rejected("Connection timeout")` for timeout, `Rejected(message)` for error |
| `Prober.DestroyedIffConnectOrTimeout` | server.js:39-52 | the socket is destroyed exactly when some connect or timeout event has been delivered, and error events alone leave it undestroyed |
| `Prober.Probe.constructor` | server.js:33-37 | a new probe records its start time, is pending and is not destroyed |
| `Prober.Probe.Resolve` | server.js:42 | resolve changes a pending promise to Resolved(value) and leaves a settled one as it was |
| `Prober.Probe.Reject` | server.js:45-52 | reject changes a pending promise to Rejected(message) and leaves a settled one as it was |
| `Prober.Probe.OnConnect` | server.js:39-43 | the connect handler destroys the socket and settles a pending promise with `now - startTime`; its effect is `Step` on a connect event |
| `Prober.Probe.OnTimeout` | server.js:45-48 | the timeout handler destroys the socket and settles a pending promise as rejected with "Connection timeout"; its effect is `Step` on a timeout event |
| `Prober.Probe.OnError` | server.js:50-52 | the error handler settles a pending promise as rejected with the error's message and leaves `destroyed` unchanged; its effect is `Step` on an error event |
| `Prober.CheckSmtpTcp` | server.js:32-56 | delivering a trace of events to a fresh probe ends with the first event's verdict (pending if there is none) and a destroyed socket exactly when a connect or timeout came |
| `JsString.Split` | server.js:86 | split always yields at least one part |
| `JsString.OnePartIffNoSeparator` | server.js:86 | a string splits into a single part exactly when it contains no separator |
| `JsString.SplitJoinsBack` | server.js:86 | no part of a split contains the separator, and joining the parts with it restores the string |
| `JsString.JoinSplitsBack` | server.js:86 | splitting a join of separator-free parts gives back exactly those parts |
| `CheckEndpoint.EmailDomain` | server.js:86 | `email.split("@")[1]` is undefined exactly when the email has no `@` (which text it is: `EmailDomainIsSecondSegment`) |
| `CheckEndpoint.TargetDomain` | server.js:85-94 | the `if (email) … else if (domain) … else` chain: the 400 case arises exactly when neither parameter is truthy, and a truthy email always gives a target, undefined exactly when it lacks `@` and otherwise the text after its first `@` up to the next `@` or the end (precedence over `domain`: `TargetDomainChoice`) |
| `CheckEndpoint.RunPipeline` | server.js:96-99 | the awaited resolver and probe: a resolver error propagates as is, and so does the rejection message of a rejected probe; on success the record holds the resolver's answer and the probe's resolved duration; no outcome exactly when the resolver succeeds and the socket emits no event |
| `CheckEndpoint.Respond` | server.js:102-116 | the response shaping: status 200 and the success record exactly for a success, which reports the target, the resolution's mxHost and ip, port 25, status "open" and the duration as connectionTime; a failure gives status 500 with the error's message |
| `CheckEndpoint.Check` | server.js:80-117 | the `/check` handler: status 200 goes with the success record and only with it, and the status is always 200, 400 or 500 (fields in full: `SuccessResponse` and `FailureResponse`) |
| `CheckEndpoint.EmailDomainIsSecondSegment` | server.js:85-86 | `email.split("@")[1]` is undefined exactly when the email has no `@`, and otherwise is the text after the first `@` up to the next `@` or the end |
| `CheckEndpoint.TargetDomainChoice` | server.js:82-94 | the 400 case arises exactly when neither parameter is truthy; a truthy email fixes the target whatever `domain` is, and the target is undefined exactly when the email lacks `@` and otherwise the text after its first `@` up to the next `@` or the end; otherwise a truthy domain is used as given |
| `CheckEndpoint.SuccessResponse` | server.js:96-110 | a success response has status 200, port 25 and status "open", and carries the target domain and the resolver's mxHost and ip (ip being the lookup's answer for mxHost); the socket's first event was a connect, and connectionTime is its clock reading minus the start time |
| `CheckEndpoint.FailureResponse` | server.js:85-116 | a failure response is a 400 with the fixed message exactly in the missing-parameter case, and otherwise a 500 whose message is the resolver's error or the probe's rejection |
| `CheckEndpoint.NoResponseIffNoSocketEvent` | server.js:96-99 | the model gives no response exactly when the target is derived, the resolver succeeds and the event trace is empty; the real idle timer rules that trace out (see "Left out") |
| `CheckEndpoint.ReachableExchange` | server.js:80-117 | one MX record at priority 10, its address, and a connect 12 ms after the start give the full success record with connectionTime 12 |
| `CheckEndpoint.RefusedAtLaterTiedExchange` | server.js:80-117 | for `user@example.com` with two exchanges tied at priority 5, the second is looked up and probed (the first is never looked up); a refused connection yields a 500 with the refusal's message |
| `CheckEndpoint.TiedExchangesResolveToLater` | server.js:22-28 | with two exchanges tied at priority 5, the resolver returns the second exchange and the lookup's address for it |
| `CheckEndpoint.EmailDomainOfUserAtExample` | server.js:86 | the domain taken from `user@example.com` is `example.com` |
| `CheckEndpoint.NoExchange` | server.js:16-18 | a domain whose MX answer is empty yields a 500 with "No MX records found" |

## Left out

- The DNS calls `dns.resolveMx` and `dns.lookup` (server.js:11-12, 16, 27) are network I/O. They are the function parameters `MxQuery` and `AddressLookup`. `dns.lookup` without options already returns a single address, so `AddressLookup` gives one address.
- The real `net.Socket`, `Date.now` and the 5000 ms idle timer (server.js:34-37, 54) are OS networking and the wall clock. The socket becomes the sequence of events it emits, and a `connect` event carries the clock reading. When the timer fires is not modelled, so nothing relates the timeout event to the 5000 ms bound.
- The event trace is arbitrary, so it admits traces Node never produces. It may be empty, and it may carry events after the socket is destroyed (Node destroys the socket itself on an error and clears the timer). In the program the idle timer set at server.js:37 guarantees a first event, so once the resolver succeeds the handler always responds. `Check` returning `None` for an empty trace is an artefact of this abstraction, not program behaviour. The at-most-once lemmas hold for every trace, the impossible ones included.
- `Network.startTime` is a single clock reading shared by every address. Only one probe runs per request, so that one reading is the probe's start time.
- The error handler's argument is an Error object, and the response uses its `message`. The model carries only the message string.
- `checkSmtpNmap` (server.js:59-77) runs an external process and is never called, because its call at server.js:100 is commented out.
- Express routing, the `req`/`res` objects, JSON serialisation, `app.listen` and console logging (server.js:1-8, 80, 119-123) are HTTP plumbing. The response is a status code and a body record.
- Any non-string query value is left out. Express's default query parser turns a repeated parameter into an array and `email[x]=…` into an object. Then `email.split` throws a TypeError and the handler answers 500. In the model a parameter is either undefined or one string.
- Event-loop asynchrony and concurrency between requests are left out. Only the order of event delivery and the at-most-once settlement of the promise are modelled.
