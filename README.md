# rubber consumer: a verified model of the Elasticsearch request dispatcher

`rubber/consumer.go` holds the `consumer` of the rubber package. A
goroutine runs `loop` and waits in a `select` on two channels:

- `input` carries `esRequest` records. For each one the loop calls
  `Request` against `http://<server>` + `path.Join("/", index, path)`.
  A failed call that still has retries left goes back to the tail of
  `input` with `retries` one higher, and the loop sleeps for
  `errorTimeout`. Any other call ends with one `esResponse` (status,
  content, error) written to the request's own `answ` channel.
- `shutdown` carries `close`'s signal. The loop writes one
  acknowledgment back and returns. `close` receives the acknowledgment
  and closes the channel.

The project has five files:

- `gopath.dfy` (module `GoPath`) models Go's `path.Clean` and
  `path.Join` over '/'-separated elements. It proves that the request
  path built at line 56 is rooted and clean. It also proves that the
  second join at line 95 leaves that path unchanged, and that ".." in a
  request path can climb out of the index.
- `types.dfy` (modules `Wrappers` and `RubberRequest`) holds the records
  `esRequest` and `esResponse`, Go's `uint64`, the URL of line 95 and
  `consumer.Request`. The foreign calls inside `Request` are one
  `Attempt` value given from outside.
- `loop.dfy` (module `RubberLoop`) holds the dispatcher as a state
  machine. `Step` is one turn of the `select`, `Run` a schedule of
  turns, and `Consistent` the invariant every reachable state keeps.
- `properties.dfy` (module `RubberProperties`) holds the promises of
  the loop, each proved over all inputs or all schedules: retry or
  deliver, the retry bound, exactly-once delivery and the shutdown
  handshake.
- `consumer.dfy` (module `RubberConsumer`) holds the `consumer` as a
  class. Its `input` queue and `shutdown` handshake are fields that
  `Serve`, `Loop` and `Close` update in place. Each method's `ensures`
  ties the new state to `Step` or `Run` and keeps `Valid()`, which is
  `Consistent`.

The `select` picks a case nondeterministically. The model makes that
choice an explicit `Select` value. A case whose channel has nothing to
receive (an empty queue, or no pending signal) leaves the state alone.
`time.Sleep(c.errorTimeout)` is counted in `backoffs`.

Two behaviours of the code are easy to overlook, and the model keeps both:

- Line 57 retries every call whose `err` is not nil. That includes a
  failure of `http.NewRequest`. It also includes a response whose body
  `ioutil.ReadAll` could not read completely, because line 133 returns
  that error next to the status code. A complete HTTP response is never
  retried, whatever its status.
- Line 56 lets ".." climb out of the index, because `path.Join` resolves it. Under index "docs" the path "/../../etc"
  gives "/etc", not "/docs/etc". `GoPath.RequestPathEscapesIndex`
  proves this in general.

## Model

| member | source | states |
|---|---|---|
| GoPath.Clean | rubber/consumer.go:56 | path.Clean of a rooted path is a clean rooted path. A relative path gives a non-empty relative result. |
| GoPath.Join | rubber/consumer.go:56 | path.Join is empty exactly when every element is empty. |
| GoPath.CleanIdempotent | rubber/consumer.go:95 | Cleaning a cleaned rooted path changes nothing. |
| GoPath.CleanFixesCleanRooted | rubber/consumer.go:95 | Clean leaves a path that is already clean and rooted unchanged. |
| GoPath.SplitJoin | rubber/consumer.go:56 | Splitting the '/'-join of slash-free elements gives those elements back. |
| GoPath.JoinSplit | rubber/consumer.go:56 | Joining the split of a string with '/' gives the string back. |
| GoPath.SplitAppend | rubber/consumer.go:56 | Splitting a + "/" + b splits a and b independently. |
| GoPath.ResolveAppend | rubber/consumer.go:56 | Clean's element scan over a + b is the scan over a followed by the scan over b. |
| GoPath.ResolveKeepsElements | rubber/consumer.go:56 | The scan keeps no "", "." or slash, and in a rooted path no "..". |
| GoPath.ResolveWithoutDotDot | rubber/consumer.go:56 | Without "..", the scan never touches what it already kept. The result is those elements followed by the scan of the new ones. |
| GoPath.ResolveUnder | rubber/consumer.go:56 | Without "..", scanning on top of pre + kept is pre followed by the scan on top of kept. |
| GoPath.ResolveProper | rubber/consumer.go:56 | Proper elements (not empty, not "." or "..", no slash) are kept as they are. |
| GoPath.CleanLeadingSlash | rubber/consumer.go:95 | An extra leading slash on a rooted path does not change its cleaning. |
| GoPath.SplitRequestJoin | rubber/consumer.go:56 | The string joined at line 56 is "//" + index + "/" + path. It splits into two empty elements, then index's elements, then path's. |
| GoPath.RequestPath | rubber/consumer.go:56 | path.Join("/", index, path): for every index and path, the result starts with "/" and has no empty, "." or ".." element. |
| GoPath.RequestPathElements | rubber/consumer.go:56 | The request path is "/" + the elements of index, with path's elements scanned on top of them. |
| GoPath.RequestPathUnderIndex | rubber/consumer.go:56 | A path with no ".." stays under the index: the result is index's cleaned elements, then path's. |
| GoPath.RequestPathEscapesIndex | rubber/consumer.go:56 | For every element index and name, index + "/../../" + name resolves to "/" + name, outside the index. |
| GoPath.Reroot | rubber/consumer.go:95 | path.Join("/", urlPath): for every urlPath, the result is a clean rooted path. |
| GoPath.RerootFixesCleanRooted | rubber/consumer.go:95 | path.Join("/", p) is p for every clean rooted p. |
| GoPath.RerootRequestPath | rubber/consumer.go:55-56 | The second join at line 95 does not change the path built at line 56. |
| RubberRequest.Url | rubber/consumer.go:95 | The URL is "http://" + server followed by a clean rooted path. That path is urlPath itself when urlPath is already clean and rooted. |
| RubberRequest.Request | rubber/consumer.go:93-133 | consumer.Request returns an error exactly when building, sending or reading the body failed. Its content is nil exactly when no response came back. A response that came back, even one whose body read failed, passes its status, its content and the read error through unchanged (line 133). |
| RubberRequest.RequestFailureShape | rubber/consumer.go:97-121 | The status is 0 and the content nil exactly when the request could not be built or sent. The error is then the failing call's error. |
| RubberRequest.HttpStatusIsNotAnError | rubber/consumer.go:124-133 | A fully read response of any status is returned with that status, its content and no error. |
| RubberLoop.Step | rubber/consumer.go:43-84 | One select turn writes at most one response, only for the head of the queue. It keeps the other queued requests in order. Only the shutdown case stops the loop, and a stopped loop does nothing. The retry increment never overflows uint64. |
| RubberLoop.Run | rubber/consumer.go:44 | The `for` over a schedule of selects: a running loop stops only if the shutdown case is somewhere in the schedule. |
| RubberLoop.Submit | rubber/consumer.go:36 | A caller's `c.input <- request`: the request joins the tail of the queue and nothing else changes, so the dispatcher holds the caller's channel once more. |
| RubberLoop.SendShutdown | rubber/consumer.go:87 | close's signal: an idle handshake becomes Signalled. Nothing else changes, and the handshake stays in step with the loop's phase. |
| RubberLoop.ReceiveAck | rubber/consumer.go:88-89 | close's receive and channel close: an Acknowledged handshake becomes Closed. Nothing else changes, and the handshake stays in step with the loop's phase. |
| RubberLoop.StartConsistent | rubber/consumer.go:36 | A queue of fresh requests (distinct channels, retries 0) is a consistent start. |
| RubberLoop.ChannelsAppend | rubber/consumer.go:64 | The channels of a concatenated queue are the concatenation of its parts' channels. |
| RubberLoop.AnsweredAppend | rubber/consumer.go:68 | The channels answered by concatenated deliveries are the concatenation of its parts'. |
| RubberLoop.StepConservesOwners | rubber/consumer.go:57-72 | A turn moves a caller's channel from the queue to the answered ones, or back to the tail of the queue. It never drops or copies one. |
| RubberLoop.RequeueConservesOwners | rubber/consumer.go:63-64 | Moving the head of the queue to its tail with the same channel keeps the multiset of caller channels. |
| RubberLoop.DeliverConservesOwners | rubber/consumer.go:68-72 | Writing the head's response moves its channel from the queue to the answered ones, keeping the multiset. |
| RubberLoop.StepKeepsRetriesBounded | rubber/consumer.go:57-64 | No queued request ever has more than maxRetries retries. |
| RubberLoop.StepKeepsErrorsExhausted | rubber/consumer.go:57-72 | An error is delivered only once a request's retries equal maxRetries. |
| RubberLoop.StepKeepsUrlsWellFormed | rubber/consumer.go:55-56 | Every call goes to "http://" + server + a clean rooted path. |
| RubberLoop.StepConsistent | rubber/consumer.go:43-84 | One turn of the loop preserves the whole invariant. |
| RubberLoop.RunConsistent | rubber/consumer.go:43-84 | Every state the loop reaches, under any schedule, satisfies the invariant. |
| RubberLoop.SubmitConsistent | rubber/consumer.go:36 | A caller sending a fresh request keeps the invariant. |
| RubberLoop.HandshakeConsistent | rubber/consumer.go:86-90 | close's send and receive keep the invariant. |
| RubberProperties.ResponseErrorIffFails | rubber/consumer.go:55-57 | The loop sees an error exactly when the attempt failed to build, send or read. |
| RubberProperties.RetryOrDeliver | rubber/consumer.go:57-72 | With an error and retries left, the same request (same channel and body) goes to the tail with retries + 1. Nothing is written, it backs off once, and its next URL is unchanged. Otherwise exactly one response, the call's own status, content and error, goes to its channel and it leaves the queue. |
| RubberProperties.RetryIgnoresStatus | rubber/consumer.go:57 | Two attempts that agree on failing leave the same queue, backoffs and response count, whatever their status codes. |
| RubberProperties.StatusDeliveredAtOnce | rubber/consumer.go:68-72 | Any status returned without an error, 404 included, is delivered on the first attempt. |
| RubberProperties.RunAppend | rubber/consumer.go:44 | Running two schedules in turn is running their concatenation. |
| RubberProperties.RunSnoc | rubber/consumer.go:44 | One more select is one more Step. |
| RubberProperties.StoppedRunIsIdle | rubber/consumer.go:80-81 | After return, no select has any effect. |
| RubberProperties.RunStopsEarly | rubber/consumer.go:80-81 | Once the loop has stopped, the rest of a schedule changes nothing. |
| RubberProperties.RunPrefixStep | rubber/consumer.go:44 | Serving the next select of a schedule extends the run by one Step. |
| RubberProperties.RunPrefixFinal | rubber/consumer.go:80-81 | A loop that served the whole schedule, or stopped part-way, is in the state of the whole schedule. |
| RubberProperties.RunKeepsSent | rubber/consumer.go:68-72 | A response, once written, is never taken back. |
| RubberProperties.FailuresRequeue | rubber/consumer.go:57-66 | A lone request that keeps failing is re-queued once per failure while it has retries left, with one backoff each and no response. |
| RubberProperties.LastFailureAnswers | rubber/consumer.go:57-72 | A lone request at retries == maxRetries that fails again is answered at once with an error, and leaves the queue without a backoff. |
| RubberProperties.AnsweredAfterMaxRetries | rubber/consumer.go:57-72 | A request alone in the queue, starting at retries 0, whose every call fails is answered after exactly maxRetries re-queues. The queue is then empty and there is one response, with an error, from the request at retries == maxRetries. |
| RubberProperties.RunConservesOwners | rubber/consumer.go:43-84 | Under any schedule every caller's channel is queued or answered, never dropped or duplicated. |
| RubberProperties.AnsweredAtMostOnce | rubber/consumer.go:68-72 | No channel is answered twice, and no queued request was already answered. |
| RubberProperties.QueuedIsNeverLost | rubber/consumer.go:46-72 | A queued request is, after any schedule, queued or answered exactly once. |
| RubberProperties.PendingAppend | rubber/consumer.go:64 | The work left in a concatenated queue is the sum of its parts'. |
| RubberProperties.PendingCoversQueue | rubber/consumer.go:57 | While retries stay within maxRetries, every queued request holds at least one unit of work. |
| RubberProperties.StepDrains | rubber/consumer.go:57-72 | Serving the head of a non-empty queue, by retry or by answer, strictly lowers the work left (each request may be called maxRetries - retries + 1 more times). The loop keeps running and retries stay bounded. |
| RubberProperties.Drains | rubber/consumer.go:43-72 | A running loop that takes the input case at least as many times as the work left ends with an empty queue, whatever each call does. Re-queueing at line 64 cannot go on forever. |
| RubberProperties.EveryQueuedIsAnswered | rubber/consumer.go:43-72 | Every request queued in a consistent running state is answered exactly once by any such schedule, with other requests queued beside it. |
| RubberProperties.ShutdownAbandonsQueue | rubber/consumer.go:73-81 | The shutdown case writes one acknowledgment and stops. Queued requests then get no response under any schedule. |
| RubberProperties.NoStopWithoutSignal | rubber/consumer.go:73 | Without close's signal the loop never stops and never acknowledges. |
| RubberProperties.HandshakeOutcome | rubber/consumer.go:86-90 | After close's signal, either the signal is still pending and the loop runs, or exactly one acknowledgment was written and the loop stopped. close then receives it and closes the channel. |
| RubberProperties.CloseStopsLoop | rubber/consumer.go:86-90 | close against a waiting loop leaves it stopped with one acknowledgment and the channel closed. Queue, responses and calls are untouched. |
| RubberProperties.NotFoundScenario | rubber/consumer.go:55-72 | A GET of orders/1 answered 404 is delivered on the first attempt: one response with status 404, the body and no error. Nothing stays queued and there is no backoff. |
| RubberProperties.UnreachableScenario | rubber/consumer.go:57-72 | With maxRetries 2 and three send failures, the caller gets one response (0, nil, err) from the request at retries 2, after two backoffs. |
| RubberConsumer.Consumer.constructor | rubber/consumer.go:30-41 | A new consumer has an empty queue, is running and is Valid. |
| RubberConsumer.Consumer.Submit | rubber/consumer.go:36 | Sending a request appends it to `input` and keeps Valid. |
| RubberConsumer.Consumer.Serve | rubber/consumer.go:45-82 | One select, performed in place on the fields, is exactly Step and keeps Valid. |
| RubberConsumer.Consumer.ServeRequest | rubber/consumer.go:46-72 | The `input` case, performed in place: it is exactly Step on that case and keeps Valid. |
| RubberConsumer.Consumer.ServeShutdown | rubber/consumer.go:73-81 | The `shutdown` case, performed in place: it is exactly Step on that case and keeps Valid. |
| RubberConsumer.Consumer.Loop | rubber/consumer.go:43-84 | The loop over a schedule reaches exactly Run of it. It serves the whole schedule unless it returns, and it returns only right after taking the shutdown case. |
| RubberConsumer.Consumer.Close | rubber/consumer.go:86-91 | close against a waiting loop leaves it stopped with one acknowledgment and the channel closed. Queue, responses, calls and backoffs are unchanged. |

## Left out

- The foreign calls inside `Request` (`http.NewRequest`, `client.Do`, `ioutil.ReadAll`, `resp.Body.Close`) are not modelled. Their combined effect is an `Attempt` given from outside: not built, not sent, or a response with its content and an optional read error.
- The `zap` logging at lines 47-54, 58-62, 74-79, 99-105, 113-119 and 126-131 has no effect on the model. It is left out.
- `time.Sleep(c.errorTimeout)`: the duration and the clock are left out. Each sleep is counted in `backoffs`.
- Goroutine scheduling and channel blocking: a select is a `Select` value. A blocked case changes nothing, and the channels' buffer capacity is not modelled.
- RubberLoop.Step: line 64's `c.input <- request` is a send by the loop itself, the only reader of `input`. In Go it blocks forever when `input` is unbuffered or full. In the model the re-enqueue always succeeds.
- RubberLoop.ReceiveAck: it assumes `shutdown` is unbuffered, so `close` never receives its own signal at line 88. With a buffer, `close` could take back its own `true` while the loop is busy and close the channel. The loop's send at line 80 would then panic. That case is not modelled.
- RubberLoop.SendShutdown: a second `close` is a no-op in the model. In Go it blocks at line 87, or panics once line 89 has closed the channel.
- The `io.Reader` body is an opaque reference, so a retry resends the same reference. That a reader can be consumed only once is not modelled.
- The HTTP client, `server` connectivity and the status codes a server returns are parameters.
- RubberRequest.RequestFailureShape: its `status == 0 ==> not responded` direction rests on the model's own assumption `IsStatusCode`, that no response has a status below 100. net/http accepts "000"-"099", which give StatusCode 0-99; a server answering "000" would make a response look like a failed call.
- RubberConsumer.Consumer.Loop: the Go loop runs forever. The model serves a finite schedule and returns at its end or at the shutdown case.
- RubberConsumer.Consumer.Close: only a loop that takes the signal on its next select is modelled here. RubberProperties.HandshakeOutcome covers a loop that serves requests first. A `close` that blocks forever on a stopped loop is left out.
- RubberConsumer.Consumer.Submit: it requires a new `answ` channel and retries 0. The code that builds `esRequest` records is not part of this model, and a caller that reuses a channel is not modelled.
