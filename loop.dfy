/** The dispatcher of rubber/consumer.go as a state machine: `consumer.loop`
    (lines 43-84) one `select` at a time, and the shutdown handshake of
    `consumer.close` (lines 86-91).

    The `input` channel is the FIFO `queue`; each caller's `answ` channel is
    observed through `sent`, the log of every esResponse written, in order;
    `calls` logs every call of Request the loop makes; `backoffs` counts the
    time.Sleep of line 65.  Which case the `select` takes is an input, a
    `Select`; a case whose channel has nothing to receive blocks, so taking it
    changes nothing. */
module RubberLoop {
  import opened Wrappers
  import opened RubberRequest
  import GoPath

  /** The dispatcher's read-only configuration. */
  datatype Config = Config(server: string, index: string, maxRetries: uint64)

  datatype Phase = Running | Stopped

  /** The `shutdown` channel, seen from the handshake: nothing sent yet; close's
      signal sent and not yet taken; the loop's acknowledgment sent; close has
      received it and closed the channel. */
  datatype Handshake = Idle | Signalled | Acknowledged | Closed

  /** One call of Request: the method, the URL it formats and the body it hands over. */
  datatype Call = Call(verb: string, url: string, body: Body)

  /** One esResponse written to `request.answ`; `request` is the esRequest as it was then. */
  datatype Delivery = Delivery(request: EsRequest, response: EsResponse)

  datatype Machine = Machine(
    queue: seq<EsRequest>,
    phase: Phase,
    shutdown: Handshake,
    calls: seq<Call>,
    sent: seq<Delivery>,
    backoffs: nat,
    acks: nat)

  /** The case the loop's `select` takes. */
  datatype Select = TakeRequest(outcome: Attempt) | TakeShutdown

  /** A dispatcher just started, with requests already queued. */
  function Start(queue: seq<EsRequest>): Machine
  {
    Machine(queue, Running, Idle, [], [], 0, 0)
  }

  /** The retry test of line 57. */
  predicate ShouldRetry(err: Option<Error>, retries: uint64, maxRetries: uint64)
  {
    err.Some? && retries < maxRetries
  }

  /** The call the loop makes for a request (lines 55-56). */
  function CallFor(cfg: Config, req: EsRequest): Call
  {
    Call(req.verb, Url(cfg.server, GoPath.RequestPath(req.index, req.path)), req.body)
  }

  /** The response Request yields for a request and an attempt (lines 55-56). */
  function ResponseFor(cfg: Config, req: EsRequest, outcome: Attempt): EsResponse
  {
    Request(cfg.server, req.verb, GoPath.RequestPath(req.index, req.path), req.body, outcome)
  }

  /** One iteration of the loop's `for { select { ... } }`. */
  function Step(cfg: Config, m: Machine, ev: Select): (m': Machine)
    // a response, once written, stays written; at most one is written per step
    ensures |m.sent| <= |m'.sent| <= |m.sent| + 1 && m'.sent[..|m.sent|] == m.sent
    // a stopped loop does nothing
    ensures m.phase == Stopped ==> m' == m
    // the other queued requests keep their order
    ensures ev.TakeRequest? && m.phase == Running && m.queue != [] ==>
      |m'.queue| >= |m.queue| - 1 && m'.queue[..|m.queue| - 1] == m.queue[1..]
    // only the shutdown case stops the loop
    ensures m.phase == Running && m'.phase == Stopped ==> ev == TakeShutdown
    // a response is written only for the request at the head of the queue
    ensures |m'.sent| == |m.sent| + 1 ==>
      ev.TakeRequest? && m.queue != [] && m'.sent[|m.sent|].request == m.queue[0]
  {
    if m.phase == Stopped then m
    else
      match ev
      case TakeRequest(outcome) =>
        if m.queue == [] then m
        else
          var req := m.queue[0];
          var resp := ResponseFor(cfg, req, outcome);
          var calls := m.calls + [CallFor(cfg, req)];
          if ShouldRetry(resp.err, req.retries, cfg.maxRetries) then
            m.(queue := m.queue[1..] + [req.(retries := req.retries + 1)],
               calls := calls, backoffs := m.backoffs + 1)
          else
            m.(queue := m.queue[1..], calls := calls, sent := m.sent + [Delivery(req, resp)])
      case TakeShutdown =>
        if m.shutdown != Signalled then m
        else m.(phase := Stopped, shutdown := Acknowledged, acks := m.acks + 1)
  }

  /** The loop over a schedule of selects. A running loop stops only by
      taking the shutdown case somewhere in the schedule. */
  function Run(cfg: Config, m: Machine, evs: seq<Select>): (m': Machine)
    ensures m.phase == Running && m'.phase == Stopped ==> TakeShutdown in evs
    decreases evs
  {
    if evs == [] then m else Run(cfg, Step(cfg, m, evs[0]), evs[1..])
  }

  /** A caller's `c.input <- request` (callers build each request with a new
      channel and retries 0). */
  function Submit(m: Machine, req: EsRequest): (m': Machine)
    // the dispatcher now holds the caller's channel once more
    ensures multiset(Owners(m')) == multiset(Owners(m)) + multiset{req.answ}
    // the request joins the tail of `input`; nothing else changes
    ensures m'.queue == m.queue + [req] && m' == m.(queue := m'.queue)
  {
    ChannelsAppend(m.queue, [req]);
    assert Channels([req]) == [req.answ];
    m.(queue := m.queue + [req])
  }

  /** Line 87: close sends its signal. Only the handshake moves, and it stays
      in step with the loop's phase. */
  function SendShutdown(m: Machine): (m': Machine)
    ensures m'.shutdown == (if m.shutdown == Idle then Signalled else m.shutdown)
    ensures m' == m.(shutdown := m'.shutdown)
    ensures HandshakeAgrees(m) ==> HandshakeAgrees(m')
  {
    if m.shutdown == Idle then m.(shutdown := Signalled) else m
  }

  /** Lines 88-89: close receives the acknowledgment and closes the channel;
      until the acknowledgment is there it waits. Only the handshake moves, and
      it stays in step with the loop's phase. */
  function ReceiveAck(m: Machine): (m': Machine)
    ensures m'.shutdown == (if m.shutdown == Acknowledged then Closed else m.shutdown)
    ensures m' == m.(shutdown := m'.shutdown)
    ensures HandshakeAgrees(m) ==> HandshakeAgrees(m')
  {
    if m.shutdown == Acknowledged then m.(shutdown := Closed) else m
  }

  // ---------------------------------------------------------------------------
  // The invariant

  /** The channels of the queued requests, in queue order. */
  function Channels(queue: seq<EsRequest>): seq<Chan>
  {
    seq(|queue|, i requires 0 <= i < |queue| => queue[i].answ)
  }

  /** The channels written to, in the order of writing. */
  function Answered(sent: seq<Delivery>): seq<Chan>
  {
    seq(|sent|, i requires 0 <= i < |sent| => sent[i].request.answ)
  }

  /** Every caller channel the dispatcher holds: queued ones, then answered ones. */
  function Owners(m: Machine): seq<Chan>
  {
    Channels(m.queue) + Answered(m.sent)
  }

  ghost predicate Distinct(s: seq<Chan>)
  {
    forall x :: multiset(s)[x] <= 1
  }

  /** No queued request has been retried more than maxRetries times. */
  predicate RetriesBounded(maxRetries: uint64, queue: seq<EsRequest>)
  {
    forall i :: 0 <= i < |queue| ==> queue[i].retries <= maxRetries
  }

  /** Every error delivered comes from a request that used up its retries. */
  predicate ErrorsExhausted(maxRetries: uint64, sent: seq<Delivery>)
  {
    forall i :: 0 <= i < |sent| ==>
      sent[i].response.err.Some? ==> sent[i].request.retries == maxRetries
  }

  /** Every URL called is "http://" + server + a clean rooted path. */
  predicate UrlsWellFormed(server: string, calls: seq<Call>)
  {
    forall i :: 0 <= i < |calls| ==> WellFormedUrl(server, calls[i].url)
  }

  predicate WellFormedUrl(server: string, url: string)
  {
    |url| > |Origin(server)| && url[..|Origin(server)|] == Origin(server) &&
    GoPath.IsCleanRooted(url[|Origin(server)|..])
  }

  /** The loop is stopped exactly when it has acknowledged close's signal, and
      it acknowledges at most once. */
  predicate HandshakeAgrees(m: Machine)
  {
    (m.phase == Stopped <==> m.shutdown in {Acknowledged, Closed}) &&
    m.acks == (if m.phase == Stopped then 1 else 0)
  }

  /** What holds in every state of a dispatcher; Distinct(Owners(m)) says every
      caller channel is queued once or answered once, never both, never twice. */
  ghost predicate Consistent(cfg: Config, m: Machine)
  {
    RetriesBounded(cfg.maxRetries, m.queue) &&
    Distinct(Owners(m)) &&
    ErrorsExhausted(cfg.maxRetries, m.sent) &&
    HandshakeAgrees(m) &&
    UrlsWellFormed(cfg.server, m.calls)
  }

  /** Start is consistent when its requests are fresh: distinct channels, no retries yet. */
  lemma StartConsistent(cfg: Config, queue: seq<EsRequest>)
    requires Distinct(Channels(queue))
    requires forall i :: 0 <= i < |queue| ==> queue[i].retries == 0
    ensures Consistent(cfg, Start(queue))
  {
    assert Owners(Start(queue)) == Channels(queue);
  }

  lemma {:induction false} ChannelsAppend(a: seq<EsRequest>, b: seq<EsRequest>)
    ensures Channels(a + b) == Channels(a) + Channels(b)
  {
    assert forall i :: 0 <= i < |a + b| ==> Channels(a + b)[i] == (Channels(a) + Channels(b))[i];
  }

  lemma {:induction false} AnsweredAppend(a: seq<Delivery>, b: seq<Delivery>)
    ensures Answered(a + b) == Answered(a) + Answered(b)
  {
    assert forall i :: 0 <= i < |a + b| ==> Answered(a + b)[i] == (Answered(a) + Answered(b))[i];
  }

  /** A select step moves a channel between the queue and the answered ones but
      never adds, drops or copies one. */
  lemma StepConservesOwners(cfg: Config, m: Machine, ev: Select)
    ensures multiset(Owners(Step(cfg, m, ev))) == multiset(Owners(m))
  {
    if m.phase == Running && ev.TakeRequest? && m.queue != [] {
      var req := m.queue[0];
      var m' := Step(cfg, m, ev);
      if |m'.sent| == |m.sent| {
        assert m'.queue == m.queue[1..] + [req.(retries := req.retries + 1)] && m'.sent == m.sent;
        RequeueConservesOwners(m.queue, req.(retries := req.retries + 1), m.sent);
      } else {
        assert m'.queue == m.queue[1..] && m'.sent == m.sent + [Delivery(req, m'.sent[|m.sent|].response)];
        DeliverConservesOwners(m.queue, m'.sent[|m.sent|].response, m.sent);
      }
    }
  }

  /** Line 64: moving the head of the queue to its tail, with the same channel. */
  lemma RequeueConservesOwners(queue: seq<EsRequest>, again: EsRequest, sent: seq<Delivery>)
    requires queue != [] && again.answ == queue[0].answ
    ensures multiset(Channels(queue[1..] + [again]) + Answered(sent))
      == multiset(Channels(queue) + Answered(sent))
  {
    assert queue == [queue[0]] + queue[1..];
    ChannelsAppend([queue[0]], queue[1..]);
    ChannelsAppend(queue[1..], [again]);
    assert Channels([queue[0]]) == Channels([again]) == [again.answ];
  }

  /** Line 68: writing to the head's channel moves it from the queue to the answered ones. */
  lemma DeliverConservesOwners(queue: seq<EsRequest>, resp: EsResponse, sent: seq<Delivery>)
    requires queue != []
    ensures multiset(Channels(queue[1..]) + Answered(sent + [Delivery(queue[0], resp)]))
      == multiset(Channels(queue) + Answered(sent))
  {
    assert queue == [queue[0]] + queue[1..];
    ChannelsAppend([queue[0]], queue[1..]);
    AnsweredAppend(sent, [Delivery(queue[0], resp)]);
    assert Channels([queue[0]]) == Answered([Delivery(queue[0], resp)]) == [queue[0].answ];
  }

  lemma StepKeepsRetriesBounded(cfg: Config, m: Machine, ev: Select)
    requires RetriesBounded(cfg.maxRetries, m.queue)
    ensures RetriesBounded(cfg.maxRetries, Step(cfg, m, ev).queue)
  {
    var m' := Step(cfg, m, ev);
    if m.phase == Running && ev.TakeRequest? && m.queue != [] && |m'.queue| == |m.queue| {
      var req := m.queue[0];
      assert m'.queue == m.queue[1..] + [req.(retries := req.retries + 1)];
    }
  }

  lemma StepKeepsErrorsExhausted(cfg: Config, m: Machine, ev: Select)
    requires RetriesBounded(cfg.maxRetries, m.queue) && ErrorsExhausted(cfg.maxRetries, m.sent)
    ensures ErrorsExhausted(cfg.maxRetries, Step(cfg, m, ev).sent)
  {
    var m' := Step(cfg, m, ev);
    if |m'.sent| != |m.sent| {
      var req := m.queue[0];
      assert req.retries <= cfg.maxRetries;
      assert m'.sent == m.sent + [m'.sent[|m.sent|]];
    }
  }

  lemma StepKeepsUrlsWellFormed(cfg: Config, m: Machine, ev: Select)
    requires UrlsWellFormed(cfg.server, m.calls)
    ensures UrlsWellFormed(cfg.server, Step(cfg, m, ev).calls)
  {
    if m.phase == Running && ev.TakeRequest? && m.queue != [] {
      var call := CallFor(cfg, m.queue[0]);
      assert WellFormedUrl(cfg.server, call.url);
      assert Step(cfg, m, ev).calls == m.calls + [call];
    }
  }

  lemma StepConsistent(cfg: Config, m: Machine, ev: Select)
    requires Consistent(cfg, m)
    ensures Consistent(cfg, Step(cfg, m, ev))
  {
    StepConservesOwners(cfg, m, ev);
    StepKeepsRetriesBounded(cfg, m, ev);
    StepKeepsErrorsExhausted(cfg, m, ev);
    StepKeepsUrlsWellFormed(cfg, m, ev);
  }

  /** Every state a schedule reaches is consistent. */
  lemma {:induction false} RunConsistent(cfg: Config, m: Machine, evs: seq<Select>)
    requires Consistent(cfg, m)
    ensures Consistent(cfg, Run(cfg, m, evs))
    decreases evs
  {
    if evs != [] {
      StepConsistent(cfg, m, evs[0]);
      RunConsistent(cfg, Step(cfg, m, evs[0]), evs[1..]);
    }
  }

  lemma SubmitConsistent(cfg: Config, m: Machine, req: EsRequest)
    requires Consistent(cfg, m)
    requires req.answ !in Owners(m) && req.retries == 0
    ensures Consistent(cfg, Submit(m, req))
  {
    assert multiset(Owners(m))[req.answ] == 0;
  }

  lemma HandshakeConsistent(cfg: Config, m: Machine)
    requires Consistent(cfg, m)
    ensures Consistent(cfg, SendShutdown(m)) && Consistent(cfg, ReceiveAck(m))
  {
  }
}
