/** `fds_init` and `app_mqtt_run`: the outer loop that connects, retrying without end, and
    the inner loop that polls the socket until one of five conditions ends the session,
    after which the client is disconnected and the outer loop starts over. The library and
    socket calls (`mqtt_connect`, `poll`, `mqtt_live`, `mqtt_input`) are represented by the
    results they return. Both loops run forever in the source; here they run until the
    supplied results are used up, so a run shows every finite prefix of the real one. */
module Supervisor {
  import opened Zephyr

  /** `struct pollfd`. */
  class PollFd {
    var fd: int
    var events: set<PollFlag>
    var revents: set<PollFlag>

    /** The zero-initialised static `fds`. */
    constructor ()
      ensures fd == 0 && events == {} && revents == {}
    {
      fd, events, revents := 0, {}, {};
    }
  }

  /** `fds_init`: watch the client's socket for input; only a non-secure transport is supported. */
  method FdsInit(transport: TransportType, sock: int, fds: PollFd) returns (err: int)
    modifies fds
    ensures transport == NonSecure ==>
      err == 0 && fds.fd == sock && fds.events == {POLLIN} && fds.revents == old(fds.revents)
    ensures transport != NonSecure ==> err == -ENOTSUP && unchanged(fds)
  {
    if transport == NonSecure {
      fds.fd := sock;
    } else {
      return -ENOTSUP;
    }
    fds.events := {POLLIN};
    return 0;
  }

  /** What `mqtt_connect` returns: 0 and the socket it opened, or an error. */
  datatype ConnectResult = ConnectResult(err: int, sock: int)

  /** What one pass of the poll loop sees: the return value of `poll` and the `revents` it
      set, then the results of `mqtt_live` and of `mqtt_input`. */
  datatype PollStep = PollStep(pollRet: int, revents: set<PollFlag>, liveRet: int, inputRet: int)

  /** Why a session ended. */
  datatype ExitReason =
    | PollFailed(ret: int)
    | LiveFailed(err: int)
    | InputFailed(err: int)
    | PollErr
    | PollNval

  /** The checks of one pass of the poll loop, in the source's order: the first that fails
      ends the session. */
  function ExitOf(s: PollStep): Option<ExitReason> {
    if s.pollRet < 0 then Some(PollFailed(s.pollRet))
    else if s.liveRet != 0 && s.liveRet != -EAGAIN then Some(LiveFailed(s.liveRet))
    else if POLLIN in s.revents && s.inputRet != 0 then Some(InputFailed(s.inputRet))
    else if POLLERR in s.revents then Some(PollErr)
    else if POLLNVAL in s.revents then Some(PollNval)
    else None
  }

  /** The five conditions under which a session ends, as one statement. */
  predicate SessionFault(s: PollStep) {
    || s.pollRet < 0
    || (s.liveRet != 0 && s.liveRet != -EAGAIN)
    || (POLLIN in s.revents && s.inputRet != 0)
    || POLLERR in s.revents
    || POLLNVAL in s.revents
  }

  /** A pass ends the session exactly when one of the five conditions holds; `mqtt_input`
      failing counts only when POLLIN was reported, and a failed `poll` or `mqtt_live` is
      reported before anything `revents` says. */
  lemma ExitOfFault(s: PollStep)
    ensures ExitOf(s).Some? <==> SessionFault(s)
    ensures s.pollRet < 0 ==> ExitOf(s) == Some(PollFailed(s.pollRet))
    ensures s.pollRet >= 0 && s.liveRet != 0 && s.liveRet != -EAGAIN ==> ExitOf(s) == Some(LiveFailed(s.liveRet))
    ensures POLLIN !in s.revents ==> !ExitOf(s).Some? || !ExitOf(s).value.InputFailed?
  {
  }

  /** An observable step of the supervisor. */
  datatype RunAction =
    | ClientInit(err: int)                    // client_init's result
    | Sleep(seconds: nat)                     // the reconnect delay
    | Connect(attempt: nat, err: int)         // the attempt-th call of mqtt_connect (from 0)
    | FdsInitDone(err: int)                   // fds_init's result
    | Iterate(step: PollStep)                 // a pass of the poll loop that kept the session
    | Exit(step: PollStep, reason: ExitReason)   // the pass that ended it
    | Disconnected                            // mqtt_disconnect; its result is only logged

  /** Incrementing a `uint32_t`: it wraps round from 2^32 - 1 to 0. */
  function Inc32(n: nat): nat {
    if n == U32 - 1 then 0 else n + 1
  }

  /** The value of `connect_attempt` after `attempt` increments from 0. */
  function Wrapped(attempt: nat): nat {
    if attempt == 0 then 0 else Inc32(Wrapped(attempt - 1))
  }

  /** `connect_attempt` is the number of connects so far modulo 2^32. */
  lemma {:induction false} WrappedMod(attempt: nat)
    ensures Wrapped(attempt) == attempt % U32
  {
    if attempt > 0 {
      WrappedMod(attempt - 1);
      assert Wrapped(attempt) == Inc32((attempt - 1) % U32);
      var q := (attempt - 1) / U32;
      assert attempt - 1 == q * U32 + (attempt - 1) % U32;
      if (attempt - 1) % U32 == U32 - 1 {
        assert attempt == (q + 1) * U32;
      } else {
        assert attempt == q * U32 + ((attempt - 1) % U32 + 1);
      }
    }
  }

  /** The reconnect delay taken before the attempt-th connect (counting from 0): none before
      the first, and none whenever `connect_attempt` has wrapped round to 0. */
  function Delay(delay: nat, attempt: nat): seq<RunAction> {
    if Wrapped(attempt) > 0 then [Sleep(delay)] else []
  }

  /** The supervisor in its outer loop, `attempt` connects having been made so far. */
  function Connecting(delay: nat, transport: TransportType, connects: seq<ConnectResult>,
                      polls: seq<PollStep>, attempt: nat): seq<RunAction>
    decreases |connects| + |polls|, 1
  {
    if connects == [] then []
    else
      var c := connects[0];
      Delay(delay, attempt) + [Connect(attempt, c.err)] +
      if c.err != 0 then Connecting(delay, transport, connects[1..], polls, attempt + 1)
      else if transport != NonSecure then [FdsInitDone(-ENOTSUP)]
      else [FdsInitDone(0)] + Polling(delay, transport, connects[1..], polls, attempt + 1)
  }

  /** The supervisor in its poll loop. */
  function Polling(delay: nat, transport: TransportType, connects: seq<ConnectResult>,
                   polls: seq<PollStep>, attempt: nat): seq<RunAction>
    decreases |connects| + |polls|, 0
  {
    if polls == [] then []
    else
      match ExitOf(polls[0])
      case None => [Iterate(polls[0])] + Polling(delay, transport, connects, polls[1..], attempt)
      case Some(r) => [Exit(polls[0], r), Disconnected] + Connecting(delay, transport, connects, polls[1..], attempt)
  }

  /** `app_mqtt_run`: `client_init`, then the supervisor from its very first attempt. */
  function RunSpec(initErr: int, delay: nat, transport: TransportType,
                   connects: seq<ConnectResult>, polls: seq<PollStep>): seq<RunAction>
  {
    [ClientInit(initErr)] + if initErr != 0 then [] else Connecting(delay, transport, connects, polls, 0)
  }

  /** One pass of the poll loop after `poll` has returned: record `revents`, then the checks
      in the source's order, the first failing one ending the session. */
  method PollChecks(step: PollStep, fds: PollFd) returns (exit: Option<ExitReason>)
    modifies fds
    ensures exit == ExitOf(step)
    ensures fds.revents == step.revents && fds.fd == old(fds.fd) && fds.events == old(fds.events)
  {
    fds.revents := step.revents;
    if step.pollRet < 0 {
      return Some(PollFailed(step.pollRet));
    }
    if step.liveRet != 0 && step.liveRet != -EAGAIN {
      return Some(LiveFailed(step.liveRet));
    }
    if POLLIN in fds.revents {
      if step.inputRet != 0 {
        return Some(InputFailed(step.inputRet));
      }
    }
    if POLLERR in fds.revents {
      return Some(PollErr);
    }
    if POLLNVAL in fds.revents {
      return Some(PollNval);
    }
    return None;
  }

  /** Extending a trace by a part of what remains to be produced. */
  lemma Advance<T>(done: seq<T>, todo: seq<T>, whole: seq<T>, part: seq<T>, rest: seq<T>)
    requires done + todo == whole && todo == part + rest
    ensures (done + part) + rest == whole
  {
    assert done + (part + rest) == (done + part) + rest;
  }

  /** A failed connect attempt: the outer loop goes round again. */
  lemma ConnectRetry(delay: nat, transport: TransportType, connects: seq<ConnectResult>,
                     polls: seq<PollStep>, attempt: nat, done: seq<RunAction>, whole: seq<RunAction>)
    requires connects != [] && connects[0].err != 0
    requires done + Connecting(delay, transport, connects, polls, attempt) == whole
    ensures (done + Delay(delay, attempt) + [Connect(attempt, connects[0].err)]) +
      Connecting(delay, transport, connects[1..], polls, attempt + 1) == whole
  {
    Advance(done, Connecting(delay, transport, connects, polls, attempt), whole,
            Delay(delay, attempt) + [Connect(attempt, connects[0].err)],
            Connecting(delay, transport, connects[1..], polls, attempt + 1));
  }

  /** A successful connect attempt: `fds_init` and the poll loop follow. */
  lemma ConnectUp(delay: nat, transport: TransportType, connects: seq<ConnectResult>,
                  polls: seq<PollStep>, attempt: nat, done: seq<RunAction>, whole: seq<RunAction>)
    requires connects != [] && connects[0].err == 0
    requires done + Connecting(delay, transport, connects, polls, attempt) == whole
    ensures (done + Delay(delay, attempt) + [Connect(attempt, connects[0].err)]) +
      AfterConnect(delay, transport, connects[1..], polls, attempt + 1) == whole
  {
    Advance(done, Connecting(delay, transport, connects, polls, attempt), whole,
            Delay(delay, attempt) + [Connect(attempt, connects[0].err)],
            AfterConnect(delay, transport, connects[1..], polls, attempt + 1));
  }

  /** A pass of the poll loop that keeps the session. */
  lemma PollKeep(delay: nat, transport: TransportType, connects: seq<ConnectResult>,
                 polls: seq<PollStep>, attempt: nat, done: seq<RunAction>, whole: seq<RunAction>)
    requires polls != [] && ExitOf(polls[0]).None?
    requires done + Polling(delay, transport, connects, polls, attempt) == whole
    ensures (done + [Iterate(polls[0])]) + Polling(delay, transport, connects, polls[1..], attempt) == whole
  {
    Advance(done, Polling(delay, transport, connects, polls, attempt), whole,
            [Iterate(polls[0])], Polling(delay, transport, connects, polls[1..], attempt));
  }

  /** The pass of the poll loop that ends the session: disconnect, then reconnect. */
  lemma PollExit(delay: nat, transport: TransportType, connects: seq<ConnectResult>,
                 polls: seq<PollStep>, attempt: nat, done: seq<RunAction>, whole: seq<RunAction>)
    requires polls != [] && ExitOf(polls[0]).Some?
    requires done + Polling(delay, transport, connects, polls, attempt) == whole
    ensures (done + [Exit(polls[0], ExitOf(polls[0]).value), Disconnected]) +
      Connecting(delay, transport, connects, polls[1..], attempt) == whole
  {
    Advance(done, Polling(delay, transport, connects, polls, attempt), whole,
            [Exit(polls[0], ExitOf(polls[0]).value), Disconnected],
            Connecting(delay, transport, connects, polls[1..], attempt));
  }

  /** What follows a successful connect: `fds_init`, then the poll loop when it succeeded. */
  function AfterConnect(delay: nat, transport: TransportType, connects: seq<ConnectResult>,
                        polls: seq<PollStep>, attempt: nat): seq<RunAction>
  {
    if transport != NonSecure then [FdsInitDone(-ENOTSUP)]
    else [FdsInitDone(0)] + Polling(delay, transport, connects, polls, attempt)
  }

  /** The `do { ... } while (err != 0)` connect loop of `app_mqtt_run`; `counter` is
      `connect_attempt`, `attempt` the unbounded count of connects. */
  method ConnectLoop(delay: nat, ghost transport: TransportType, connects: seq<ConnectResult>,
                     ghost polls: seq<PollStep>, attempt0: nat, counter0: nat)
    returns (trace: seq<RunAction>, up: bool, sock: int, rest: seq<ConnectResult>,
             attempt: nat, counter: nat)
    requires counter0 == Wrapped(attempt0)
    ensures counter == Wrapped(attempt)
    ensures up ==> (|rest| < |connects| &&
      Connecting(delay, transport, connects, polls, attempt0) ==
        trace + AfterConnect(delay, transport, rest, polls, attempt))
    ensures !up ==> trace == Connecting(delay, transport, connects, polls, attempt0)
  {
    trace, sock, rest, attempt, counter := [], 0, connects, attempt0, counter0;
    while true
      invariant counter == Wrapped(attempt) && |rest| <= |connects|
      invariant trace + Connecting(delay, transport, rest, polls, attempt) ==
        Connecting(delay, transport, connects, polls, attempt0)
      decreases |rest|
    {
      if rest == [] {
        return trace, false, sock, rest, attempt, counter;
      }
      var c := rest[0];
      ghost var before := trace;
      if c.err != 0 {
        ConnectRetry(delay, transport, rest, polls, attempt, before, Connecting(delay, transport, connects, polls, attempt0));
      } else {
        ConnectUp(delay, transport, rest, polls, attempt, before, Connecting(delay, transport, connects, polls, attempt0));
      }
      if counter > 0 {
        trace := trace + [Sleep(delay)];
      }
      counter := Inc32(counter);
      trace := trace + [Connect(attempt, c.err)];
      assert trace == before + Delay(delay, attempt) + [Connect(attempt, c.err)];
      rest := rest[1..];
      attempt := attempt + 1;
      if c.err == 0 {
        return trace, true, c.sock, rest, attempt, counter;
      }
    }
  }

  /** The `while (true)` poll loop of `app_mqtt_run`, from the first pass to the one that ends
      the session (`down`) or to the end of the supplied `poll` results. */
  method PollLoop(ghost delay: nat, ghost transport: TransportType, ghost connects: seq<ConnectResult>,
                  polls: seq<PollStep>, ghost attempt: nat, fds: PollFd)
    returns (trace: seq<RunAction>, down: bool, rest: seq<PollStep>)
    modifies fds
    ensures down ==> (|rest| < |polls| &&
      Polling(delay, transport, connects, polls, attempt) ==
        trace + Connecting(delay, transport, connects, rest, attempt))
    ensures !down ==> trace == Polling(delay, transport, connects, polls, attempt)
  {
    trace, rest := [], polls;
    while true
      invariant |rest| <= |polls|
      invariant trace + Polling(delay, transport, connects, rest, attempt) ==
        Polling(delay, transport, connects, polls, attempt)
      decreases |rest|
    {
      if rest == [] {
        return trace, false, rest;
      }
      var step := rest[0];
      ghost var before := trace;
      var exit := PollChecks(step, fds);
      if exit.Some? {
        PollExit(delay, transport, connects, rest, attempt, before, Polling(delay, transport, connects, polls, attempt));
        trace := trace + [Exit(step, exit.value), Disconnected];
        return trace, true, rest[1..];
      }
      PollKeep(delay, transport, connects, rest, attempt, before, Polling(delay, transport, connects, polls, attempt));
      rest := rest[1..];
      trace := trace + [Iterate(step)];
    }
  }

  /** `app_mqtt_run` with `client_init`'s result, the reconnect delay, the socket transport
      type `client_init` configures, and the results the library and `poll` return. */
  method Run(initErr: int, delay: nat, transport: TransportType,
             connects: seq<ConnectResult>, polls: seq<PollStep>, fds: PollFd)
    returns (trace: seq<RunAction>)
    modifies fds
    ensures trace == RunSpec(initErr, delay, transport, connects, polls)
  {
    ghost var spec := RunSpec(initErr, delay, transport, connects, polls);
    trace := [ClientInit(initErr)];
    if initErr != 0 {
      return;
    }
    var connectAttempt: nat := 0;
    var attempt: nat := 0;
    var crest, prest := connects, polls;
    while true
      invariant connectAttempt == Wrapped(attempt)
      invariant trace + Connecting(delay, transport, crest, prest, attempt) == spec
      decreases |crest| + |prest|
    {
      ghost var todo := Connecting(delay, transport, crest, prest, attempt);
      var part, up, sock;
      part, up, sock, crest, attempt, connectAttempt :=
        ConnectLoop(delay, transport, crest, prest, attempt, connectAttempt);
      if !up {
        trace := trace + part;
        return;
      }
      ghost var after := AfterConnect(delay, transport, crest, prest, attempt);
      Advance(trace, todo, spec, part, after);
      trace := trace + part;
      var err := FdsInit(transport, sock, fds);
      if err != 0 {
        trace := trace + [FdsInitDone(err)];
        return;
      }
      ghost var polling := Polling(delay, transport, crest, prest, attempt);
      Advance(trace, after, spec, [FdsInitDone(0)], polling);
      trace := trace + [FdsInitDone(err)];
      var down;
      part, down, prest := PollLoop(delay, transport, crest, prest, attempt, fds);
      if !down {
        trace := trace + part;
        return;
      }
      Advance(trace, polling, spec, part, Connecting(delay, transport, crest, prest, attempt));
      trace := trace + part;
    }
  }
}
