/** The `consumer` object of rubber/consumer.go: its `input` queue and the
    `shutdown` channel are fields that `loop` and `close` update in place.
    Every method is specified by the state machine of RubberLoop, through
    `State()`, and keeps `Valid()`, the invariant `Consistent`. */
module RubberConsumer {
  import opened RubberRequest
  import opened RubberLoop
  import RubberProperties
  import GoPath

  class Consumer {
    const server: string
    const index: string
    const maxRetries: uint64

    /** The `input` channel, front first. */
    var input: seq<EsRequest>
    var phase: Phase
    /** The `shutdown` channel's handshake. */
    var shutdown: Handshake
    /** Every call of Request made, in order. */
    var calls: seq<Call>
    /** Every esResponse written to a caller's `answ`, in order. */
    var sent: seq<Delivery>
    /** How many times the loop slept for `errorTimeout`. */
    var backoffs: nat
    /** How many acknowledgments the loop wrote on `shutdown`. */
    var acks: nat

    function Cfg(): Config
    {
      Config(server, index, maxRetries)
    }

    function State(): Machine
      reads this
    {
      Machine(input, phase, shutdown, calls, sent, backoffs, acks)
    }

    ghost predicate Valid()
      reads this
    {
      Consistent(Cfg(), State())
    }

    constructor (server: string, index: string, maxRetries: uint64)
      ensures Valid()
      ensures Cfg() == Config(server, index, maxRetries) && State() == Start([])
    {
      this.server := server;
      this.index := index;
      this.maxRetries := maxRetries;
      input, phase, shutdown := [], Running, Idle;
      calls, sent, backoffs, acks := [], [], 0, 0;
      new;
      StartConsistent(Cfg(), []);
    }

    /** A caller's `c.input <- request`, with a new channel and retries 0. */
    method Submit(request: EsRequest)
      requires Valid()
      requires request.answ !in Owners(State()) && request.retries == 0
      modifies this
      ensures Valid() && State() == RubberLoop.Submit(old(State()), request)
    {
      SubmitConsistent(Cfg(), State(), request);
      input := input + [request];
    }

    /** One iteration of `loop` (lines 45-82): the `select` takes `choice`. */
    method Serve(choice: Select)
      requires Valid()
      modifies this
      ensures Valid() && State() == Step(Cfg(), old(State()), choice)
    {
      if phase == Stopped {
        return;
      }
      match choice {
        case TakeRequest(outcome) => ServeRequest(outcome);
        case TakeShutdown => ServeShutdown();
      }
    }

    /** Lines 46-72: the `input` case, with `outcome` the effect of Request's calls. */
    method ServeRequest(outcome: Attempt)
      requires Valid() && phase == Running
      modifies this
      ensures Valid() && State() == Step(Cfg(), old(State()), TakeRequest(outcome))
    {
      ghost var m := State();
      StepConsistent(Cfg(), m, TakeRequest(outcome));
      if input == [] {
        // nothing to receive on `input`: this case of the select waits
        return;
      }
      var request := input[0];
      input := input[1..];
      var urlPath := GoPath.RequestPath(request.index, request.path);
      var response := Request(server, request.verb, urlPath, request.body, outcome);
      assert response == ResponseFor(Cfg(), request, outcome);
      calls := calls + [Call(request.verb, Url(server, urlPath), request.body)];
      assert calls == m.calls + [CallFor(Cfg(), request)];
      if response.err.Some? && request.retries < maxRetries {
        request := request.(retries := request.retries + 1);
        input := input + [request];
        // time.Sleep(c.errorTimeout)
        backoffs := backoffs + 1;
        assert State() == Step(Cfg(), m, TakeRequest(outcome));
        return;
      }
      sent := sent + [Delivery(request, response)];
      assert State() == Step(Cfg(), m, TakeRequest(outcome));
    }

    /** Lines 73-81: the `shutdown` case. */
    method ServeShutdown()
      requires Valid() && phase == Running
      modifies this
      ensures Valid() && State() == Step(Cfg(), old(State()), TakeShutdown)
    {
      ghost var m := State();
      StepConsistent(Cfg(), m, TakeShutdown);
      if shutdown != Signalled {
        // nothing to receive on `shutdown`: this case of the select waits
        return;
      }
      // c.shutdown <- true; return nil
      shutdown := Acknowledged;
      acks := acks + 1;
      phase := Stopped;
    }

    /** `loop` (lines 43-84) over a finite schedule of selects: it serves them
        in turn and returns once it has taken the shutdown signal. */
    method Loop(schedule: seq<Select>) returns (taken: nat)
      requires Valid()
      modifies this
      ensures Valid() && State() == Run(Cfg(), old(State()), schedule)
      ensures taken <= |schedule|
      ensures phase == Running ==> taken == |schedule|
      ensures old(phase) == Running && phase == Stopped ==> 0 < taken && schedule[taken - 1] == TakeShutdown
    {
      ghost var start := State();
      taken := 0;
      while taken < |schedule| && phase == Running
        invariant taken <= |schedule|
        invariant Valid()
        invariant State() == Run(Cfg(), start, schedule[..taken])
        invariant start.phase == Running && phase == Stopped ==> 0 < taken && schedule[taken - 1] == TakeShutdown
        invariant start.phase == Stopped ==> taken == 0
      {
        var choice := schedule[taken];
        RubberProperties.RunPrefixStep(Cfg(), start, schedule, taken);
        Serve(choice);
        assert phase == Stopped ==> choice == TakeShutdown;
        taken := taken + 1;
      }
      RubberProperties.RunPrefixFinal(Cfg(), start, schedule, taken);
    }

    /** `close` (lines 86-91) against a loop waiting in its select: send the
        signal, let the loop take it and acknowledge, receive the
        acknowledgment and close the channel. */
    method Close()
      requires Valid() && phase == Running && shutdown == Idle
      modifies this
      ensures Valid() && State() == ReceiveAck(Step(Cfg(), SendShutdown(old(State())), TakeShutdown))
      ensures phase == Stopped && shutdown == Closed && acks == 1
      ensures input == old(input) && sent == old(sent) && calls == old(calls) && backoffs == old(backoffs)
    {
      // c.shutdown <- true
      shutdown := Signalled;
      assert Valid();
      Serve(TakeShutdown);
      // <-c.shutdown; close(c.shutdown)
      if shutdown == Acknowledged {
        shutdown := Closed;
      }
    }
  }
}
