/** What every run of `app_mqtt_run` does, proved of the trace `Supervisor.RunSpec` describes
    (which `Supervisor.Run` produces): the connect loop retries without bound, the reconnect
    delay comes before every attempt except those where the never-reset counter reads 0,
    each session ends only on one of five faults, and each end is followed by exactly one
    disconnect. */
module RunProperties {
  import opened Zephyr
  import opened Supervisor

  /** Every session end is followed at once by a disconnect. */
  predicate ExitsDisconnect(t: seq<RunAction>) {
    forall i :: 0 <= i < |t| && t[i].Exit? ==> i + 1 < |t| && t[i + 1] == Disconnected
  }

  /** Every disconnect comes right after a session end. */
  predicate DisconnectsFollowExit(t: seq<RunAction>) {
    forall i :: 0 <= i < |t| && t[i] == Disconnected ==> i > 0 && t[i - 1].Exit?
  }

  /** Every delay is followed at once by a connect attempt. */
  predicate SleepsBeforeConnect(t: seq<RunAction>) {
    forall i :: 0 <= i < |t| && t[i].Sleep? ==> i + 1 < |t| && t[i + 1].Connect?
  }

  /** A connect attempt is preceded by a delay exactly when `connect_attempt`, the number
      of earlier attempts modulo 2^32, is not 0. */
  predicate DelayRule(t: seq<RunAction>) {
    forall i :: 0 <= i < |t| && t[i].Connect? ==> (PrecededBySleep(t, i) <==> t[i].attempt % U32 != 0)
  }

  predicate PrecededBySleep(t: seq<RunAction>, i: nat)
    requires i < |t|
  {
    i > 0 && t[i - 1].Sleep?
  }

  /** A pass that keeps the session has no fault; one that ends it names its fault. */
  predicate PassesChecked(t: seq<RunAction>) {
    forall i :: 0 <= i < |t| ==>
      (t[i].Iterate? ==> !SessionFault(t[i].step)) &&
      (t[i].Exit? ==> SessionFault(t[i].step) && ExitOf(t[i].step) == Some(t[i].reason))
  }

  /** The attempt numbers of a trace's connects, in order. */
  function AttemptNumbers(t: seq<RunAction>): (r: seq<nat>)
    ensures |r| <= |t|
  {
    if t == [] then [] else (if t[0].Connect? then [t[0].attempt] else []) + AttemptNumbers(t[1..])
  }

  /** `s` counts up by one from `a`. */
  predicate CountsFrom(s: seq<nat>, a: nat) {
    forall i :: 0 <= i < |s| ==> s[i] == a + i
  }

  predicate EndsWithExit(t: seq<RunAction>) { t != [] && t[|t| - 1].Exit? }
  predicate EndsWithSleep(t: seq<RunAction>) { t != [] && t[|t| - 1].Sleep? }
  predicate StartsWithDisconnect(t: seq<RunAction>) { t != [] && t[0] == Disconnected }
  predicate StartsWithConnect(t: seq<RunAction>) { t != [] && t[0].Connect? }

  // Each property of a concatenation from the property of its parts and what meets at the seam.

  lemma ExitsConcat(a: seq<RunAction>, b: seq<RunAction>)
    requires ExitsDisconnect(a) && ExitsDisconnect(b)
    requires EndsWithExit(a) ==> StartsWithDisconnect(b)
    ensures ExitsDisconnect(a + b)
  {
    forall i | 0 <= i < |a + b| && (a + b)[i].Exit?
      ensures i + 1 < |a + b| && (a + b)[i + 1] == Disconnected
    {
      if i >= |a| {
        assert (a + b)[i] == b[i - |a|];
      } else if i == |a| - 1 {
      } else {
        assert (a + b)[i + 1] == a[i + 1];
      }
    }
  }

  lemma DisconnectsConcat(a: seq<RunAction>, b: seq<RunAction>)
    requires DisconnectsFollowExit(a) && DisconnectsFollowExit(b)
    requires StartsWithDisconnect(b) ==> EndsWithExit(a)
    ensures DisconnectsFollowExit(a + b)
  {
    forall i | 0 <= i < |a + b| && (a + b)[i] == Disconnected
      ensures i > 0 && (a + b)[i - 1].Exit?
    {
      if i < |a| {
        assert (a + b)[i] == a[i];
      } else if i > |a| {
        assert (a + b)[i] == b[i - |a|] && (a + b)[i - 1] == b[i - 1 - |a|];
      }
    }
  }

  lemma SleepsConcat(a: seq<RunAction>, b: seq<RunAction>)
    requires SleepsBeforeConnect(a) && SleepsBeforeConnect(b)
    requires EndsWithSleep(a) ==> StartsWithConnect(b)
    ensures SleepsBeforeConnect(a + b)
  {
    forall i | 0 <= i < |a + b| && (a + b)[i].Sleep?
      ensures i + 1 < |a + b| && (a + b)[i + 1].Connect?
    {
      if i >= |a| {
        assert (a + b)[i] == b[i - |a|];
      } else if i < |a| - 1 {
        assert (a + b)[i + 1] == a[i + 1];
      }
    }
  }

  lemma DelayConcat(a: seq<RunAction>, b: seq<RunAction>)
    requires DelayRule(a) && DelayRule(b)
    requires StartsWithConnect(b) ==> !EndsWithSleep(a)
    ensures DelayRule(a + b)
  {
    forall i | 0 <= i < |a + b| && (a + b)[i].Connect?
      ensures PrecededBySleep(a + b, i) <==> (a + b)[i].attempt % U32 != 0
    {
      if i < |a| {
        assert (a + b)[i] == a[i];
        assert PrecededBySleep(a + b, i) == PrecededBySleep(a, i);
      } else if i > |a| {
        assert (a + b)[i] == b[i - |a|] && (a + b)[i - 1] == b[i - 1 - |a|];
        assert PrecededBySleep(a + b, i) == PrecededBySleep(b, i - |a|);
      } else {
        assert (a + b)[i] == b[0];
        assert b[0].attempt % U32 == 0;
        if i > 0 {
          assert (a + b)[i - 1] == a[|a| - 1];
        }
      }
    }
  }

  lemma PassesConcat(a: seq<RunAction>, b: seq<RunAction>)
    requires PassesChecked(a) && PassesChecked(b)
    ensures PassesChecked(a + b)
  {
    forall i | 0 <= i < |a + b|
      ensures ((a + b)[i].Iterate? ==> !SessionFault((a + b)[i].step)) &&
        ((a + b)[i].Exit? ==> SessionFault((a + b)[i].step) && ExitOf((a + b)[i].step) == Some((a + b)[i].reason))
    {
      if i < |a| {
        assert (a + b)[i] == a[i];
      } else {
        assert (a + b)[i] == b[i - |a|];
      }
    }
  }

  lemma {:induction false} AttemptNumbersConcat(a: seq<RunAction>, b: seq<RunAction>)
    ensures AttemptNumbers(a + b) == AttemptNumbers(a) + AttemptNumbers(b)
  {
    if a == [] {
      assert a + b == b;
    } else {
      assert (a + b)[0] == a[0];
      assert (a + b)[1..] == a[1..] + b;
      AttemptNumbersConcat(a[1..], b);
    }
  }

  /** The five local rules together. */
  predicate TraceShape(t: seq<RunAction>) {
    ExitsDisconnect(t) && DisconnectsFollowExit(t) && SleepsBeforeConnect(t) && DelayRule(t) && PassesChecked(t)
  }

  lemma ShapeConcat(a: seq<RunAction>, b: seq<RunAction>)
    requires TraceShape(a) && TraceShape(b)
    requires !EndsWithExit(a) && !EndsWithSleep(a) && !StartsWithDisconnect(b)
    ensures TraceShape(a + b)
  {
    ExitsConcat(a, b);
    DisconnectsConcat(a, b);
    SleepsConcat(a, b);
    DelayConcat(a, b);
    PassesConcat(a, b);
  }

  /** The delay and the connect of one attempt. */
  lemma AttemptShape(delay: nat, attempt: nat, err: int)
    ensures var h := Delay(delay, attempt) + [Connect(attempt, err)];
      TraceShape(h) && !EndsWithExit(h) && !EndsWithSleep(h) && !StartsWithDisconnect(h)
  {
    WrappedMod(attempt);
    var h := Delay(delay, attempt) + [Connect(attempt, err)];
    assert PrecededBySleep(h, |h| - 1) <==> attempt % U32 != 0;
  }

  /** The outer loop's trace keeps the five rules and never starts with a disconnect. */
  lemma {:induction false} ConnectingShape(delay: nat, transport: TransportType, connects: seq<ConnectResult>,
                                           polls: seq<PollStep>, attempt: nat)
    ensures var t := Connecting(delay, transport, connects, polls, attempt);
      TraceShape(t) && !StartsWithDisconnect(t)
    decreases |connects| + |polls|, 1
  {
    if connects != [] {
      var h := Delay(delay, attempt) + [Connect(attempt, connects[0].err)];
      AttemptShape(delay, attempt, connects[0].err);
      if connects[0].err != 0 {
        ConnectingShape(delay, transport, connects[1..], polls, attempt + 1);
        ShapeConcat(h, Connecting(delay, transport, connects[1..], polls, attempt + 1));
      } else if transport != NonSecure {
        ShapeConcat(h, [FdsInitDone(-ENOTSUP)]);
      } else {
        var p := Polling(delay, transport, connects[1..], polls, attempt + 1);
        PollingShape(delay, transport, connects[1..], polls, attempt + 1);
        ShapeConcat([FdsInitDone(0)], p);
        ShapeConcat(h, [FdsInitDone(0)] + p);
      }
      assert Connecting(delay, transport, connects, polls, attempt)[0] == h[0];
    }
  }

  /** The poll loop's trace keeps the five rules and never starts with a disconnect. */
  lemma {:induction false} PollingShape(delay: nat, transport: TransportType, connects: seq<ConnectResult>,
                                        polls: seq<PollStep>, attempt: nat)
    ensures var t := Polling(delay, transport, connects, polls, attempt);
      TraceShape(t) && !StartsWithDisconnect(t)
    decreases |connects| + |polls|, 0
  {
    if polls != [] {
      ExitOfFault(polls[0]);
      match ExitOf(polls[0])
      case None =>
        PollingShape(delay, transport, connects, polls[1..], attempt);
        ShapeConcat([Iterate(polls[0])], Polling(delay, transport, connects, polls[1..], attempt));
      case Some(r) =>
        var c := Connecting(delay, transport, connects, polls[1..], attempt);
        ConnectingShape(delay, transport, connects, polls[1..], attempt);
        assert ExitsDisconnect([Exit(polls[0], r), Disconnected]);
        ShapeConcat([Exit(polls[0], r), Disconnected], c);
    }
  }

  /** One attempt contributes its own number. */
  lemma AttemptNumbersHead(delay: nat, attempt: nat, err: int, rest: seq<RunAction>)
    ensures AttemptNumbers(Delay(delay, attempt) + [Connect(attempt, err)] + rest) == [attempt] + AttemptNumbers(rest)
  {
    var d := Delay(delay, attempt);
    AttemptNumbersConcat(d + [Connect(attempt, err)], rest);
    AttemptNumbersConcat(d, [Connect(attempt, err)]);
    assert AttemptNumbers([Connect(attempt, err)]) == [attempt];
  }

  lemma CountsFromCons(a: nat, s: seq<nat>)
    requires CountsFrom(s, a + 1)
    ensures CountsFrom([a] + s, a)
  {
  }

  /** The outer loop numbers its attempts consecutively from where it starts. */
  lemma {:induction false} ConnectingAttempts(delay: nat, transport: TransportType, connects: seq<ConnectResult>,
                                              polls: seq<PollStep>, attempt: nat)
    ensures CountsFrom(AttemptNumbers(Connecting(delay, transport, connects, polls, attempt)), attempt)
    decreases |connects| + |polls|, 1
  {
    if connects != [] {
      var err := connects[0].err;
      var rest;
      if err != 0 {
        rest := Connecting(delay, transport, connects[1..], polls, attempt + 1);
        ConnectingAttempts(delay, transport, connects[1..], polls, attempt + 1);
      } else if transport != NonSecure {
        rest := [FdsInitDone(-ENOTSUP)];
      } else {
        var p := Polling(delay, transport, connects[1..], polls, attempt + 1);
        rest := [FdsInitDone(0)] + p;
        PollingAttempts(delay, transport, connects[1..], polls, attempt + 1);
        AttemptNumbersConcat([FdsInitDone(0)], p);
      }
      assert Connecting(delay, transport, connects, polls, attempt) ==
        Delay(delay, attempt) + [Connect(attempt, err)] + rest;
      AttemptNumbersHead(delay, attempt, err, rest);
      CountsFromCons(attempt, AttemptNumbers(rest));
    }
  }

  /** Actions other than a connect add no attempt numbers. */
  lemma AttemptNumbersSkip(head: seq<RunAction>, rest: seq<RunAction>)
    requires forall i :: 0 <= i < |head| ==> !head[i].Connect?
    ensures AttemptNumbers(head + rest) == AttemptNumbers(rest)
  {
    AttemptNumbersConcat(head, rest);
    NoAttemptNumbers(head);
  }

  lemma {:induction false} NoAttemptNumbers(t: seq<RunAction>)
    requires forall i :: 0 <= i < |t| ==> !t[i].Connect?
    ensures AttemptNumbers(t) == []
  {
    if t != [] {
      NoAttemptNumbers(t[1..]);
    }
  }

  /** The poll loop makes no attempts of its own; those after it continue the count. */
  lemma {:induction false} PollingAttempts(delay: nat, transport: TransportType, connects: seq<ConnectResult>,
                                           polls: seq<PollStep>, attempt: nat)
    ensures CountsFrom(AttemptNumbers(Polling(delay, transport, connects, polls, attempt)), attempt)
    decreases |connects| + |polls|, 0
  {
    if polls != [] {
      var exit := ExitOf(polls[0]);
      if exit.None? {
        var p := Polling(delay, transport, connects, polls[1..], attempt);
        PollingAttempts(delay, transport, connects, polls[1..], attempt);
        AttemptNumbersSkip([Iterate(polls[0])], p);
      } else {
        var c := Connecting(delay, transport, connects, polls[1..], attempt);
        ConnectingAttempts(delay, transport, connects, polls[1..], attempt);
        AttemptNumbersSkip([Exit(polls[0], exit.value), Disconnected], c);
      }
    }
  }

  /** A failing connect is always followed by another attempt: with only failures to
      return, the outer loop makes one attempt per failure and nothing else. */
  lemma {:induction false} ConnectingRetries(delay: nat, transport: TransportType, connects: seq<ConnectResult>,
                                             polls: seq<PollStep>, attempt: nat)
    requires forall i :: 0 <= i < |connects| ==> connects[i].err != 0
    ensures var t := Connecting(delay, transport, connects, polls, attempt);
      |AttemptNumbers(t)| == |connects| && forall i :: 0 <= i < |t| ==> t[i].Sleep? || t[i].Connect?
    decreases |connects|
  {
    if connects != [] {
      var rest := Connecting(delay, transport, connects[1..], polls, attempt + 1);
      ConnectingRetries(delay, transport, connects[1..], polls, attempt + 1);
      assert Connecting(delay, transport, connects, polls, attempt) ==
        Delay(delay, attempt) + [Connect(attempt, connects[0].err)] + rest;
      AttemptNumbersHead(delay, attempt, connects[0].err, rest);
    }
  }

  lemma RunSpecShape(initErr: int, delay: nat, transport: TransportType,
                     connects: seq<ConnectResult>, polls: seq<PollStep>)
    ensures TraceShape(RunSpec(initErr, delay, transport, connects, polls))
  {
    if initErr == 0 {
      ConnectingShape(delay, transport, connects, polls, 0);
      ShapeConcat([ClientInit(initErr)], Connecting(delay, transport, connects, polls, 0));
    } else {
      assert TraceShape([ClientInit(initErr)]);
    }
  }

  /** Every end of a session is followed by exactly one `mqtt_disconnect`: the action right
      after it, and no disconnect happens anywhere else. */
  lemma RunDisconnectsOnce(initErr: int, delay: nat, transport: TransportType,
                           connects: seq<ConnectResult>, polls: seq<PollStep>)
    ensures var t := RunSpec(initErr, delay, transport, connects, polls);
      ExitsDisconnect(t) && DisconnectsFollowExit(t)
  {
    RunSpecShape(initErr, delay, transport, connects, polls);
  }

  /** The poll loop keeps going exactly while none of the five faults occurs: a pass that
      keeps the session has none, and a session ends on a pass that has one, reporting the
      first in the source's order. */
  lemma RunSessionsEndOnFault(initErr: int, delay: nat, transport: TransportType,
                              connects: seq<ConnectResult>, polls: seq<PollStep>)
    ensures PassesChecked(RunSpec(initErr, delay, transport, connects, polls))
  {
    RunSpecShape(initErr, delay, transport, connects, polls);
  }

  /** The counter is never reset: the k-th connect of the whole run is attempt k, across
      sessions. A delay comes right before an attempt exactly when k modulo 2^32 is not 0,
      so never before the very first attempt and before every other one until the counter
      wraps; and every delay is followed by an attempt. */
  lemma RunDelays(initErr: int, delay: nat, transport: TransportType,
                  connects: seq<ConnectResult>, polls: seq<PollStep>)
    ensures var t := RunSpec(initErr, delay, transport, connects, polls);
      CountsFrom(AttemptNumbers(t), 0) && DelayRule(t) && SleepsBeforeConnect(t)
  {
    RunSpecShape(initErr, delay, transport, connects, polls);
    var t := RunSpec(initErr, delay, transport, connects, polls);
    if initErr == 0 {
      ConnectingAttempts(delay, transport, connects, polls, 0);
      AttemptNumbersSkip([ClientInit(initErr)], Connecting(delay, transport, connects, polls, 0));
    }
  }

  /** Connecting is retried without bound: however many failures `mqtt_connect` returns,
      each is followed by another attempt, numbered 0, 1, 2, ... */
  lemma RunRetriesUnbounded(delay: nat, transport: TransportType,
                            connects: seq<ConnectResult>, polls: seq<PollStep>)
    requires forall i :: 0 <= i < |connects| ==> connects[i].err != 0
    ensures var n := AttemptNumbers(RunSpec(0, delay, transport, connects, polls));
      |n| == |connects| && CountsFrom(n, 0)
  {
    ConnectingRetries(delay, transport, connects, polls, 0);
    RunDelays(0, delay, transport, connects, polls);
    AttemptNumbersSkip([ClientInit(0)], Connecting(delay, transport, connects, polls, 0));
  }
}
