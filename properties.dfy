/** What the dispatcher of rubber/consumer.go promises, proved about the
    state machine of RubberLoop. */
module RubberProperties {
  import opened Wrappers
  import opened RubberRequest
  import opened RubberLoop
  import GoPath

  /** An attempt Request turns into an error: not built, not sent, or its body not read. */
  predicate Fails(outcome: Attempt)
  {
    !outcome.Responded? || outcome.readErr.Some?
  }

  lemma ResponseErrorIffFails(cfg: Config, req: EsRequest, outcome: Attempt)
    ensures ResponseFor(cfg, req, outcome).err.Some? <==> Fails(outcome)
  {
  }

  // ---------------------------------------------------------------------------
  // One request step (lines 46-72)

  /** Lines 57-66: an error with retries left re-queues the same request (same
      channel, same body reference) at the tail with retries one higher, writes
      nothing and backs off once; the URL of its next call is the same.
      Otherwise (lines 68-72) exactly one response, the call's own status,
      content and error, is written to its channel and it leaves the queue. */
  lemma {:induction false} RetryOrDeliver(cfg: Config, m: Machine, outcome: Attempt)
    requires m.phase == Running && m.queue != []
    ensures var req := m.queue[0];
      var resp := ResponseFor(cfg, req, outcome);
      var m' := Step(cfg, m, TakeRequest(outcome));
      m'.calls == m.calls + [CallFor(cfg, req)] &&
      (Fails(outcome) && req.retries < cfg.maxRetries ==>
        var again := EsRequest(req.index, req.verb, req.path, req.body, req.answ, req.retries + 1);
        m'.queue == m.queue[1..] + [again] && m'.sent == m.sent &&
        m'.backoffs == m.backoffs + 1 && CallFor(cfg, again) == CallFor(cfg, req)) &&
      (!(Fails(outcome) && req.retries < cfg.maxRetries) ==>
        m'.queue == m.queue[1..] && m'.sent == m.sent + [Delivery(req, resp)] &&
        m'.backoffs == m.backoffs)
  {
    ResponseErrorIffFails(cfg, m.queue[0], outcome);
  }

  /** The retry decision looks at the error only: two attempts that agree on
      failing leave the same queue, the same backoffs and the same number of
      responses, whatever their status codes. */
  lemma {:induction false} RetryIgnoresStatus(cfg: Config, m: Machine, a1: Attempt, a2: Attempt)
    requires Fails(a1) == Fails(a2)
    ensures var m1 := Step(cfg, m, TakeRequest(a1));
      var m2 := Step(cfg, m, TakeRequest(a2));
      m1.queue == m2.queue && m1.backoffs == m2.backoffs && |m1.sent| == |m2.sent|
  {
    if m.phase == Running && m.queue != [] {
      ResponseErrorIffFails(cfg, m.queue[0], a1);
      ResponseErrorIffFails(cfg, m.queue[0], a2);
    }
  }

  /** Any HTTP status returned without a transport error, 404 included, is
      delivered on the first attempt with no retry. */
  lemma {:induction false} StatusDeliveredAtOnce(cfg: Config, m: Machine, code: int, content: Bytes)
    requires m.phase == Running && m.queue != []
    ensures var m' := Step(cfg, m, TakeRequest(Responded(code, content, None)));
      m'.queue == m.queue[1..] && m'.backoffs == m.backoffs &&
      m'.sent == m.sent + [Delivery(m.queue[0], EsResponse(code, Some(content), None))]
  {
    var req := m.queue[0];
    HttpStatusIsNotAnError(cfg.server, req.verb, GoPath.RequestPath(req.index, req.path), req.body, code, content);
  }

  // ---------------------------------------------------------------------------
  // Runs

  lemma {:induction false} RunAppend(cfg: Config, m: Machine, a: seq<Select>, b: seq<Select>)
    ensures Run(cfg, m, a + b) == Run(cfg, Run(cfg, m, a), b)
    decreases a
  {
    if a == [] {
      assert a + b == b;
    } else {
      assert (a + b)[1..] == a[1..] + b;
      RunAppend(cfg, Step(cfg, m, a[0]), a[1..], b);
    }
  }

  lemma RunSnoc(cfg: Config, m: Machine, evs: seq<Select>, ev: Select)
    ensures Run(cfg, m, evs + [ev]) == Step(cfg, Run(cfg, m, evs), ev)
  {
    RunAppend(cfg, m, evs, [ev]);
    assert Run(cfg, Step(cfg, Run(cfg, m, evs), ev), []) == Step(cfg, Run(cfg, m, evs), ev);
  }

  /** After shutdown no select has any effect: no request is served, no response written. */
  lemma {:induction false} StoppedRunIsIdle(cfg: Config, m: Machine, evs: seq<Select>)
    requires m.phase == Stopped
    ensures Run(cfg, m, evs) == m
    decreases evs
  {
    if evs != [] {
      StoppedRunIsIdle(cfg, Step(cfg, m, evs[0]), evs[1..]);
    }
  }

  /** Once the loop has stopped, the rest of a schedule changes nothing. */
  lemma RunStopsEarly(cfg: Config, m: Machine, evs: seq<Select>, k: nat)
    requires k <= |evs| && Run(cfg, m, evs[..k]).phase == Stopped
    ensures Run(cfg, m, evs) == Run(cfg, m, evs[..k])
  {
    RunAppend(cfg, m, evs[..k], evs[k..]);
    StoppedRunIsIdle(cfg, Run(cfg, m, evs[..k]), evs[k..]);
    assert evs == evs[..k] + evs[k..];
  }

  /** Serving one more select of a schedule is one more Step. */
  lemma RunPrefixStep(cfg: Config, m: Machine, evs: seq<Select>, k: nat)
    requires k < |evs|
    ensures Run(cfg, m, evs[..k + 1]) == Step(cfg, Run(cfg, m, evs[..k]), evs[k])
  {
    RunSnoc(cfg, m, evs[..k], evs[k]);
    assert evs[..k + 1] == evs[..k] + [evs[k]];
  }

  /** A loop that has served the whole schedule, or stopped part-way, has
      reached the state of the whole schedule. */
  lemma RunPrefixFinal(cfg: Config, m: Machine, evs: seq<Select>, k: nat)
    requires k <= |evs|
    requires k == |evs| || Run(cfg, m, evs[..k]).phase == Stopped
    ensures Run(cfg, m, evs) == Run(cfg, m, evs[..k])
  {
    if k < |evs| {
      RunStopsEarly(cfg, m, evs, k);
    } else {
      assert evs[..k] == evs;
    }
  }

  /** Responses already written are never taken back, across any schedule. */
  lemma {:induction false} RunKeepsSent(cfg: Config, m: Machine, evs: seq<Select>)
    ensures var m' := Run(cfg, m, evs);
      |m.sent| <= |m'.sent| && m'.sent[..|m.sent|] == m.sent
    decreases evs
  {
    if evs != [] {
      var m1 := Step(cfg, m, evs[0]);
      RunKeepsSent(cfg, m1, evs[1..]);
      var m' := Run(cfg, m, evs);
      assert m'.sent[..|m.sent|] == m'.sent[..|m1.sent|][..|m.sent|];
    }
  }

  /** A request whose calls keep failing, alone in the queue, is re-queued once
      per failure while it has retries left. */
  lemma {:induction false} FailuresRequeue(cfg: Config, m: Machine, evs: seq<Select>)
    requires m.phase == Running && |m.queue| == 1
    requires m.queue[0].retries as int + |evs| <= cfg.maxRetries as int
    requires forall i :: 0 <= i < |evs| ==> evs[i].TakeRequest? && Fails(evs[i].outcome)
    ensures var req := m.queue[0];
      var m' := Run(cfg, m, evs);
      m'.phase == Running && m'.sent == m.sent && m'.backoffs == m.backoffs + |evs| &&
      m'.queue == [req.(retries := req.retries + |evs| as uint64)]
    decreases evs
  {
    var req := m.queue[0];
    if evs == [] {
      assert req.(retries := req.retries + 0) == req;
    } else {
      RetryOrDeliver(cfg, m, evs[0].outcome);
      var m1 := Step(cfg, m, evs[0]);
      assert m.queue[1..] == [];
      FailuresRequeue(cfg, m1, evs[1..]);
    }
  }

  /** A request that has used up its retries is answered on its next failure:
      one error response, and it leaves the queue. */
  lemma LastFailureAnswers(cfg: Config, m: Machine, ev: Select)
    requires m.phase == Running && |m.queue| == 1 && m.queue[0].retries == cfg.maxRetries
    requires ev.TakeRequest? && Fails(ev.outcome)
    ensures var m' := Step(cfg, m, ev);
      m'.queue == [] && m'.backoffs == m.backoffs &&
      m'.sent == m.sent + [Delivery(m.queue[0], ResponseFor(cfg, m.queue[0], ev.outcome))] &&
      ResponseFor(cfg, m.queue[0], ev.outcome).err.Some?
  {
    RetryOrDeliver(cfg, m, ev.outcome);
    ResponseErrorIffFails(cfg, m.queue[0], ev.outcome);
  }

  /** A request whose every call fails is answered after exactly maxRetries
      re-queues: one response, an error, from the request with retries ==
      maxRetries, and nothing is left queued. */
  lemma AnsweredAfterMaxRetries(cfg: Config, m: Machine, evs: seq<Select>)
    requires m.phase == Running && |m.queue| == 1 && m.queue[0].retries == 0
    requires |evs| == cfg.maxRetries as int + 1
    requires forall i :: 0 <= i < |evs| ==> evs[i].TakeRequest? && Fails(evs[i].outcome)
    ensures var req := m.queue[0];
      var m' := Run(cfg, m, evs);
      m'.queue == [] && m'.backoffs == m.backoffs + cfg.maxRetries as int &&
      |m'.sent| == |m.sent| + 1 && m'.sent[..|m.sent|] == m.sent &&
      m'.sent[|m.sent|].request == req.(retries := cfg.maxRetries) &&
      m'.sent[|m.sent|].response == ResponseFor(cfg, req, evs[|evs| - 1].outcome) &&
      m'.sent[|m.sent|].response.err.Some?
  {
    var req := m.queue[0];
    var k := |evs| - 1;
    var last := evs[k];
    assert evs == evs[..k] + [last];
    FailuresRequeue(cfg, m, evs[..k]);
    var mk := Run(cfg, m, evs[..k]);
    var again := req.(retries := cfg.maxRetries);
    assert mk.queue == [again];
    LastFailureAnswers(cfg, mk, last);
    assert ResponseFor(cfg, again, last.outcome) == ResponseFor(cfg, req, last.outcome);
    RunSnoc(cfg, m, evs[..k], last);
  }

  // ---------------------------------------------------------------------------
  // Exactly-once delivery

  /** Across any schedule, every caller channel stays exactly where the
      multiset says: queued or answered, never dropped and never duplicated. */
  lemma {:induction false} RunConservesOwners(cfg: Config, m: Machine, evs: seq<Select>)
    ensures multiset(Owners(Run(cfg, m, evs))) == multiset(Owners(m))
    decreases evs
  {
    if evs != [] {
      StepConservesOwners(cfg, m, evs[0]);
      RunConservesOwners(cfg, Step(cfg, m, evs[0]), evs[1..]);
    }
  }

  lemma {:induction false} TwiceCountsTwice(s: seq<Chan>, i: nat, j: nat)
    requires i < j < |s| && s[i] == s[j]
    ensures multiset(s)[s[i]] >= 2
  {
    assert s == s[..j] + [s[j]] + s[j + 1..];
    assert s[i] in s[..j];
    assert multiset(s) == multiset(s[..j]) + multiset{s[j]} + multiset(s[j + 1..]);
  }

  /** No caller channel is ever written twice, and no queued request has
      already been answered. */
  lemma AnsweredAtMostOnce(cfg: Config, m: Machine)
    requires Consistent(cfg, m)
    ensures forall i, j :: 0 <= i < j < |m.sent| ==> m.sent[i].request.answ != m.sent[j].request.answ
    ensures forall i, j :: 0 <= i < |m.queue| && 0 <= j < |m.sent| ==> m.queue[i].answ != m.sent[j].request.answ
  {
    var q := Channels(m.queue);
    var a := Answered(m.sent);
    forall i, j | 0 <= i < j < |m.sent|
      ensures m.sent[i].request.answ != m.sent[j].request.answ
    {
      if m.sent[i].request.answ == m.sent[j].request.answ {
        assert Owners(m)[|q| + i] == Owners(m)[|q| + j];
        TwiceCountsTwice(Owners(m), |q| + i, |q| + j);
      }
    }
    forall i, j | 0 <= i < |m.queue| && 0 <= j < |m.sent|
      ensures m.queue[i].answ != m.sent[j].request.answ
    {
      if m.queue[i].answ == m.sent[j].request.answ {
        assert Owners(m)[i] == Owners(m)[|q| + j];
        TwiceCountsTwice(Owners(m), i, |q| + j);
      }
    }
  }

  /** A request queued in a consistent state is, after any schedule, either
      still queued or answered, exactly once either way. */
  lemma QueuedIsNeverLost(cfg: Config, m: Machine, evs: seq<Select>, k: nat)
    requires Consistent(cfg, m) && k < |m.queue|
    ensures var m' := Run(cfg, m, evs);
      multiset(Owners(m'))[m.queue[k].answ] == 1
  {
    RunConservesOwners(cfg, m, evs);
    assert Owners(m)[k] == m.queue[k].answ;
    assert m.queue[k].answ in multiset(Owners(m));
  }

  // ---------------------------------------------------------------------------
  // Draining the queue

  /** The work left in a queue: every request may still be called once more
      than it has retries left. */
  function Pending(maxRetries: uint64, queue: seq<EsRequest>): int
  {
    if queue == [] then 0
    else (maxRetries as int - queue[0].retries as int + 1) + Pending(maxRetries, queue[1..])
  }

  lemma {:induction false} PendingAppend(maxRetries: uint64, a: seq<EsRequest>, b: seq<EsRequest>)
    ensures Pending(maxRetries, a + b) == Pending(maxRetries, a) + Pending(maxRetries, b)
  {
    if a == [] {
      assert a + b == b;
    } else {
      assert (a + b)[1..] == a[1..] + b;
      PendingAppend(maxRetries, a[1..], b);
    }
  }

  /** While retries stay bounded, each queued request holds at least one unit of work. */
  lemma {:induction false} PendingCoversQueue(maxRetries: uint64, queue: seq<EsRequest>)
    requires RetriesBounded(maxRetries, queue)
    ensures Pending(maxRetries, queue) >= |queue|
  {
    if queue != [] {
      PendingCoversQueue(maxRetries, queue[1..]);
    }
  }

  /** Serving a request, by retry or by answer, uses up at least one unit of work. */
  lemma StepDrains(cfg: Config, m: Machine, outcome: Attempt)
    requires m.phase == Running && m.queue != [] && RetriesBounded(cfg.maxRetries, m.queue)
    ensures var m' := Step(cfg, m, TakeRequest(outcome));
      m'.phase == Running && RetriesBounded(cfg.maxRetries, m'.queue) &&
      Pending(cfg.maxRetries, m'.queue) < Pending(cfg.maxRetries, m.queue)
  {
    var req := m.queue[0];
    var rest := m.queue[1..];
    var m' := Step(cfg, m, TakeRequest(outcome));
    StepKeepsRetriesBounded(cfg, m, TakeRequest(outcome));
    PendingCoversQueue(cfg.maxRetries, rest);
    assert Pending(cfg.maxRetries, m.queue) == (cfg.maxRetries as int - req.retries as int + 1) + Pending(cfg.maxRetries, rest);
    if |m'.queue| == |m.queue| {
      var again := req.(retries := req.retries + 1);
      assert m'.queue == rest + [again];
      PendingAppend(cfg.maxRetries, rest, [again]);
      assert Pending(cfg.maxRetries, [again]) == cfg.maxRetries as int - req.retries as int;
    } else {
      assert m'.queue == rest;
    }
  }

  /** A running loop that takes the input case at least Pending times, whatever
      each call does, ends with an empty queue: re-queueing at line 64 cannot go
      on forever. */
  lemma {:induction false} Drains(cfg: Config, m: Machine, evs: seq<Select>)
    requires m.phase == Running && RetriesBounded(cfg.maxRetries, m.queue)
    requires forall i :: 0 <= i < |evs| ==> evs[i].TakeRequest?
    requires |evs| >= Pending(cfg.maxRetries, m.queue)
    ensures Run(cfg, m, evs).queue == [] && Run(cfg, m, evs).phase == Running
    decreases evs
  {
    if evs == [] {
      PendingCoversQueue(cfg.maxRetries, m.queue);
    } else {
      var m1 := Step(cfg, m, evs[0]);
      if m.queue == [] {
        assert m1 == m;
      } else {
        StepDrains(cfg, m, evs[0].outcome);
      }
      Drains(cfg, m1, evs[1..]);
    }
  }

  /** Every request queued in a consistent running state is answered exactly
      once by any schedule of at least Pending input cases. */
  lemma EveryQueuedIsAnswered(cfg: Config, m: Machine, evs: seq<Select>)
    requires Consistent(cfg, m) && m.phase == Running
    requires forall i :: 0 <= i < |evs| ==> evs[i].TakeRequest?
    requires |evs| >= Pending(cfg.maxRetries, m.queue)
    ensures forall k :: 0 <= k < |m.queue| ==>
      multiset(Answered(Run(cfg, m, evs).sent))[m.queue[k].answ] == 1
  {
    var m' := Run(cfg, m, evs);
    Drains(cfg, m, evs);
    assert Owners(m') == Answered(m'.sent);
    forall k | 0 <= k < |m.queue|
      ensures multiset(Answered(m'.sent))[m.queue[k].answ] == 1
    {
      QueuedIsNeverLost(cfg, m, evs, k);
    }
  }

  // ---------------------------------------------------------------------------
  // Shutdown (lines 73-81, 86-90)

  /** On the shutdown case the loop writes one acknowledgment and stops; from
      then on no queued request is served and none gets a response. */
  lemma ShutdownAbandonsQueue(cfg: Config, m: Machine, evs: seq<Select>)
    requires m.phase == Running && m.shutdown == Signalled
    ensures var m1 := Step(cfg, m, TakeShutdown);
      m1.phase == Stopped && m1.shutdown == Acknowledged && m1.acks == m.acks + 1 &&
      Run(cfg, m1, evs) == m1 && m1.queue == m.queue && m1.sent == m.sent
  {
    StoppedRunIsIdle(cfg, Step(cfg, m, TakeShutdown), evs);
  }

  /** Without close's signal the loop never stops. */
  lemma {:induction false} NoStopWithoutSignal(cfg: Config, m: Machine, evs: seq<Select>)
    requires m.phase == Running && m.shutdown == Idle
    ensures Run(cfg, m, evs).phase == Running && Run(cfg, m, evs).acks == m.acks
    decreases evs
  {
    if evs != [] {
      NoStopWithoutSignal(cfg, Step(cfg, m, evs[0]), evs[1..]);
    }
  }

  /** close's handshake: after its one signal, whatever the loop selects, either
      the signal is still pending and the loop runs on, or the loop has written
      exactly one acknowledgment and stopped; close then receives it and closes
      the channel. */
  lemma {:induction false} HandshakeOutcome(cfg: Config, m: Machine, evs: seq<Select>)
    requires m.phase == Running && m.shutdown == Signalled
    ensures var m' := Run(cfg, m, evs);
      (m'.phase == Running && m'.shutdown == Signalled && m'.acks == m.acks) ||
      (m'.phase == Stopped && m'.shutdown == Acknowledged && m'.acks == m.acks + 1 &&
       ReceiveAck(m').shutdown == Closed && ReceiveAck(m').acks == m.acks + 1)
    decreases evs
  {
    if evs != [] {
      var m1 := Step(cfg, m, evs[0]);
      if m1.phase == Stopped {
        StoppedRunIsIdle(cfg, m1, evs[1..]);
      } else {
        HandshakeOutcome(cfg, m1, evs[1..]);
      }
    }
  }

  /** close against an idle loop: one signal, one acknowledgment, channel
      closed, loop stopped, queue and responses untouched. */
  lemma CloseStopsLoop(cfg: Config, m: Machine)
    requires Consistent(cfg, m) && m.phase == Running && m.shutdown == Idle
    ensures var m' := ReceiveAck(Step(cfg, SendShutdown(m), TakeShutdown));
      m'.phase == Stopped && m'.shutdown == Closed && m'.acks == 1 &&
      m'.queue == m.queue && m'.sent == m.sent && m'.calls == m.calls
  {
  }

  // ---------------------------------------------------------------------------
  // Scenarios

  /** A request answered 404 with a body: one response carrying 404 and the
      body, no error, no retry. */
  lemma NotFoundScenario(cfg: Config, req: EsRequest, content: Bytes)
    requires req.index == "orders" && req.verb == "GET" && req.path == "/1" && req.retries == 0
    ensures var m' := Step(cfg, Start([req]), TakeRequest(Responded(404, content, None)));
      m'.sent == [Delivery(req, EsResponse(404, Some(content), None))] &&
      m'.queue == [] && m'.backoffs == 0
  {
    StatusDeliveredAtOnce(cfg, Start([req]), 404, content);
  }

  /** An unreachable server with maxRetries 2: two retries, then one error
      response from the request with retries 2. */
  lemma UnreachableScenario(cfg: Config, req: EsRequest, e: Error)
    requires cfg.maxRetries == 2 && req.retries == 0
    ensures var m' := Run(cfg, Start([req]), [TakeRequest(SendFailed(e)), TakeRequest(SendFailed(e)), TakeRequest(SendFailed(e))]);
      m'.queue == [] && m'.backoffs == 2 && |m'.sent| == 1 &&
      m'.sent[0].request.retries == 2 && m'.sent[0].response == EsResponse(0, None, Some(e))
  {
    var evs := [TakeRequest(SendFailed(e)), TakeRequest(SendFailed(e)), TakeRequest(SendFailed(e))];
    AnsweredAfterMaxRetries(cfg, Start([req]), evs);
    assert ResponseFor(cfg, req, SendFailed(e)) == EsResponse(0, None, Some(e));
  }
}
