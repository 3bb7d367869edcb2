/** The heartbeat of RPC/ClientSession: pings, their timer, and what the drifting counter
    does to them.  A session that times out has had a ping unanswered for the whole
    timeout; and a server that falls silent is noticed, unless the counter has wrapped. */
module Heartbeat {
  import opened Basics
  import opened Framing
  import opened ClientSession
  import opened RpcProtocol

  // ---------------------------------------------------------------------------
  // A timeout is justified
  // ---------------------------------------------------------------------------

  /** Step j sent a ping, and since then nothing has answered it: no ping reply was
      taken and no request raised numActiveRPCs to 1. */
  ghost predicate PingUnanswered(states: seq<State>, steps: seq<Step>, j: nat, i: nat)
    requires |states| == |steps| + 1 && j < i < |states|
  {
    && steps[j] == TimerRuns && SendsPing(states[j].f)
    && forall k :: j < k < i ==>
         && (steps[k].Receive? ==> !TakesPing(states[k].f, steps[k].id))
         && (steps[k].Send? ==> Increment(states[k].f.numActiveRPCs) != 1)
  }

  /** The timer has not been set to expire, and has not expired, before `when`. */
  predicate NotBefore(s: State, when: nat) {
    (s.f.timer.At? ==> s.f.timer.when >= when) && (s.fired ==> s.clock >= when)
  }

  /** What the ping protocol depends on. */
  function PingPart(s: State): (Timer, bool, nat, nat, bool) {
    (s.f.timer, s.f.activePing, s.f.pingTimeout, s.clock, s.fired)
  }

  predicate Quiet(step: Step) {
    !step.Send? && !step.Receive? && !step.TimerFires? && !step.TimerRuns? && !step.Tick?
  }

  lemma QuietStep(s: State, step: Step)
    requires Enabled(s, step) && Quiet(step)
    ensures PingPart(Apply(s, step)) == PingPart(s)
  {
  }

  /** No step sets the timer to expire earlier than a whole timeout from now. */
  lemma NotBeforeStep(s: State, step: Step, when: nat)
    requires Enabled(s, step) && NotBefore(s, when) && when <= s.clock + s.f.pingTimeout
    ensures NotBefore(Apply(s, step), when)
    ensures Apply(s, step).clock >= s.clock && Apply(s, step).f.pingTimeout == s.f.pingTimeout
  {
    if Quiet(step) {
      QuietStep(s, step);
      hide Apply;
    }
  }

  lemma PingStep(s: State, step: Step, when: nat)
    requires Enabled(s, step) && s.f.activePing && NotBefore(s, when) && when <= s.clock + s.f.pingTimeout
    requires Apply(s, step).f.activePing
    ensures NotBefore(Apply(s, step), when)
    ensures Apply(s, step).clock >= s.clock && Apply(s, step).f.pingTimeout == s.f.pingTimeout
    ensures step.Receive? ==> !TakesPing(s.f, step.id)
    ensures step.Send? ==> Increment(s.f.numActiveRPCs) != 1
  {
    NotBeforeStep(s, step, when);
    hide NotBefore;
    if Quiet(step) {
      hide Apply;
    }
  }

  lemma PingStarts(s: State, step: Step)
    requires Enabled(s, step) && !s.f.activePing && Apply(s, step).f.activePing
    ensures step == TimerRuns && SendsPing(s.f) && Apply(s, step).clock == s.clock
    ensures NotBefore(Apply(s, step), s.clock + s.f.pingTimeout) && Apply(s, step).f.pingTimeout == s.f.pingTimeout
  {
  }

  lemma {:induction false} ActivePingHasCause(states: seq<State>, steps: seq<Step>, i: nat) returns (j: nat)
    requires IsRun(states, steps) && i < |states| && states[i].f.activePing
    ensures j < i && PingUnanswered(states, steps, j, i)
    ensures states[j].f.pingTimeout == states[i].f.pingTimeout && states[j].clock <= states[i].clock
    ensures NotBefore(states[i], states[j].clock + states[j].f.pingTimeout)
    ensures forall k :: j < k <= i ==> states[k].f.activePing
  {
    hide Apply, Enabled, SendsPing, TakesPing, NotBefore;
    assert i > 0;
    var s, step := states[i - 1], steps[i - 1];
    assert states[i - 1 + 1] == Apply(s, step);
    if s.f.activePing {
      j := ActivePingHasCause(states, steps, i - 1);
      PingStep(s, step, states[j].clock + states[j].f.pingTimeout);
    } else {
      j := i - 1;
      PingStarts(s, step);
    }
  }

  /** A session is failed as "timed out" only if a ping was sent at least
      PING_TIMEOUT_NS earlier and has gone unanswered since. */
  lemma TimeoutIsJustified(states: seq<State>, steps: seq<Step>, i: nat)
    requires IsRun(states, steps) && i < |steps|
    ensures states[i].f.errorMessage != TIMED_OUT && states[i + 1].f.errorMessage == TIMED_OUT ==>
      && states[i].f.errorMessage == "" && states[i].f.numActiveRPCs > 0
      && exists j :: 0 <= j < i && PingUnanswered(states, steps, j, i)
           && states[j].clock + states[i].f.pingTimeout <= states[i].clock
  {
    if states[i].f.errorMessage != TIMED_OUT && states[i + 1].f.errorMessage == TIMED_OUT {
      assert states[i + 1] == Apply(states[i], steps[i]);
      ExpiryCause(states[i], steps[i]);
      hide Apply, Enabled;
      var j := ActivePingHasCause(states, steps, i);
    }
  }

  lemma ExpiryCause(s: State, step: Step)
    requires Enabled(s, step)
    requires s.f.errorMessage != TIMED_OUT && Apply(s, step).f.errorMessage == TIMED_OUT
    ensures step == TimerRuns && s.fired && Expires(s.f)
  {
  }

  lemma {:induction false} RunNotBefore(states: seq<State>, steps: seq<Step>, k: nat, i: nat, when: nat)
    requires IsRun(states, steps) && k <= i < |states|
    requires NotBefore(states[k], when) && when <= states[k].clock + states[k].f.pingTimeout
    ensures NotBefore(states[i], when) && when <= states[i].clock + states[i].f.pingTimeout
    decreases i
  {
    hide IsRun, Apply, Enabled, NotBefore;
    if k < i {
      RunStep(states, steps, i - 1);
      RunNotBefore(states, steps, k, i - 1, when);
      NotBeforeStep(states[i - 1], steps[i - 1], when);
    }
  }

  /** A sign of life counts for a whole timeout: after a reply or a ping reply has been
      taken, the timer's handler does not run for PING_TIMEOUT_NS, and so neither pings
      nor fails the session. */
  lemma SignOfLifeDelays(states: seq<State>, steps: seq<Step>, k: nat, i: nat)
    requires IsRun(states, steps) && k < i < |steps| && steps[i].TimerRuns?
    requires steps[k].Receive? && (TakesPing(states[k].f, steps[k].id) || TakesReply(states[k].f, steps[k].id))
    ensures states[k].clock + states[k].f.pingTimeout <= states[i].clock
  {
    RunStep(states, steps, k);
    RunStep(states, steps, i);
    ReceiveDelays(states[k], steps[k]);
    assert states[i].fired;
    hide Apply, Enabled, IsRun;
    RunNotBefore(states, steps, k + 1, i, states[k].clock + states[k].f.pingTimeout);
  }

  lemma ReceiveDelays(s: State, step: Step)
    requires step.Receive? && Enabled(s, step) && (TakesPing(s.f, step.id) || TakesReply(s.f, step.id))
    ensures var s' := Apply(s, step);
      NotBefore(s', s.clock + s.f.pingTimeout) && s'.clock == s.clock && s'.f.pingTimeout == s.f.pingTimeout
  {
  }

  // ---------------------------------------------------------------------------
  // While the counter does not wrap below zero
  // ---------------------------------------------------------------------------

  /** The step takes numActiveRPCs below zero. */
  predicate WrapsBelowZero(s: State, step: Step) {
    && s.f.numActiveRPCs == 0
    && match step
       case CancelBegins(id) => id in s.rpcs && s.rpcs[id].hasSession && id in s.f.responses
       case Receive(id, message) => TakesReply(s.f, id)
       case _ => false
  }

  /** `update` leaves the heartbeat alone. */
  lemma RefreshKeepsHeartbeat(s: State, id: MessageId)
    requires id in s.rpcs
    ensures id in Refresh(s, id).rpcs
    ensures PingPart(Refresh(s, id)) == PingPart(s)
    ensures Refresh(s, id).f.numActiveRPCs == s.f.numActiveRPCs && Refresh(s, id).f.errorMessage == s.f.errorMessage
  {
    hide Absorb;
  }

  /** From zero the counter moves only to one, by a request, or below zero. */
  lemma FromZero(s: State, step: Step)
    requires Enabled(s, step) && s.f.numActiveRPCs == 0
    ensures Apply(s, step).f.numActiveRPCs ==
            if step.Send? then 1 else if WrapsBelowZero(s, step) then TWO_TO_THE_32 - 1 else 0
  {
    hide KeepsWaiting, Schedule, Abandon, Refresh;
    match step
    case Poll(id) => RefreshKeepsHeartbeat(s, id);
    case WaitUpdates(id) => RefreshKeepsHeartbeat(s, id);
    case AskStatus(id) => RefreshKeepsHeartbeat(s, id);
    case _ =>
  }

  /** No message of the ping's id has arrived after step j. */
  ghost predicate NoPingReceived(steps: seq<Step>, j: nat, i: nat)
    requires j < i <= |steps|
  {
    forall k :: j < k < i && steps[k].Receive? ==> steps[k].id != PING_MESSAGE_ID
  }

  /** Unless the counter wrapped below zero after that ping, no ping reply at all has
      arrived: none was taken, and none was overlooked either. */
  lemma TimeoutMeansSilence(states: seq<State>, steps: seq<Step>, i: nat)
    requires IsRun(states, steps) && i < |steps|
    requires forall k :: 0 <= k < i ==> !WrapsBelowZero(states[k], steps[k])
    ensures states[i].f.errorMessage != TIMED_OUT && states[i + 1].f.errorMessage == TIMED_OUT ==>
      exists j :: 0 <= j < i && PingUnanswered(states, steps, j, i) && NoPingReceived(steps, j, i)
        && states[j].clock + states[i].f.pingTimeout <= states[i].clock
  {
    if states[i].f.errorMessage != TIMED_OUT && states[i + 1].f.errorMessage == TIMED_OUT {
      assert states[i + 1] == Apply(states[i], steps[i]);
      ExpiryCause(states[i], steps[i]);
      var j := ActivePingHasCause(states, steps, i);
      hide Apply, Enabled, WrapsBelowZero;
      forall k | j < k < i && steps[k].Receive? ensures steps[k].id != PING_MESSAGE_ID {
        if steps[k].id == PING_MESSAGE_ID {
          OverlookedAtZero(states, steps, j, k, i);
        }
      }
    }
  }

  /** A ping reply that was overlooked arrived while the counter was zero, and the counter
      is still zero. */
  lemma OverlookedAtZero(states: seq<State>, steps: seq<Step>, j: nat, k: nat, i: nat)
    requires IsRun(states, steps) && j < k < i < |states| && PingUnanswered(states, steps, j, i)
    requires forall l :: j < l <= i ==> states[l].f.activePing
    requires forall l :: k <= l < i ==> !WrapsBelowZero(states[l], steps[l])
    requires steps[k].Receive? && steps[k].id == PING_MESSAGE_ID
    ensures states[i].f.numActiveRPCs == 0
  {
    hide Apply, Enabled, WrapsBelowZero;
    ZeroUntilSent(states, steps, k, i);
  }

  /** The counter cannot leave zero without a request that raises it to one. */
  lemma {:induction false} ZeroUntilSent(states: seq<State>, steps: seq<Step>, k: nat, i: nat)
    requires IsRun(states, steps) && k <= i < |states| && states[k].f.numActiveRPCs == 0
    requires forall l :: k <= l < i ==> !WrapsBelowZero(states[l], steps[l])
    requires forall l :: k <= l < i && steps[l].Send? ==> Increment(states[l].f.numActiveRPCs) != 1
    ensures states[i].f.numActiveRPCs == 0
    decreases i
  {
    if k < i {
      hide Apply, Enabled, WrapsBelowZero;
      ZeroUntilSent(states, steps, k, i - 1);
      FromZero(states[i - 1], steps[i - 1]);
      assert states[i - 1 + 1] == Apply(states[i - 1], steps[i - 1]);
    }
  }

  // ---------------------------------------------------------------------------
  // The timer is scheduled while requests are active
  // ---------------------------------------------------------------------------

  /** The documented use of numActiveRPCs: the timer is scheduled, or its handler about to
      run, if the counter is non-zero, for as long as the session has no error. */
  predicate Watched(s: State) {
    s.f.numActiveRPCs > 0 && s.f.errorMessage == "" ==> s.f.timer.At? || s.fired
  }

  /** A cancel finds nothing counted and no timer. */
  predicate Unwatches(s: State, step: Step) {
    step.CancelBegins? && s.f.numActiveRPCs == 0 && s.f.errorMessage == "" && s.f.timer.Off? && !s.fired
  }

  predicate SocketOrError(s: State) {
    s.f.hasSocket || s.f.errorMessage != ""
  }

  lemma CancelUnwatches(s: State, id: MessageId)
    requires Inv(s) && Enabled(s, CancelBegins(id)) && Watched(s)
    ensures Watched(OnCancel(s, id)) <==> !Unwatches(s, CancelBegins(id))
  {
    assert Consistent(s.f, id, s.rpcs[id], s.clock, s.firstReply);
    hide Inv, Consistent;
  }

  lemma WatchedStepIff(s: State, step: Step)
    requires Inv(s) && SocketOrError(s) && Enabled(s, step) && Watched(s)
    ensures Watched(Apply(s, step)) <==> !Unwatches(s, step)
  {
    hide Inv, OnCancel, Refresh, KeepsWaiting;
    match step
    case CancelBegins(id) => CancelUnwatches(s, id);
    case Poll(id) => RefreshKeepsHeartbeat(s, id);
    case WaitUpdates(id) => RefreshKeepsHeartbeat(s, id);
    case AskStatus(id) => RefreshKeepsHeartbeat(s, id);
    case _ =>
  }

  lemma {:induction false} RunHasSocketOrError(states: seq<State>, steps: seq<Step>, i: nat)
    requires IsRun(states, steps) && i < |states|
    ensures SocketOrError(states[i])
  {
    if i > 0 {
      hide Apply, Enabled;
      RunHasSocketOrError(states, steps, i - 1);
      ErrorStep(states[i - 1], steps[i - 1]);
      assert states[i - 1 + 1] == Apply(states[i - 1], steps[i - 1]);
    }
  }

  lemma {:induction false} WatchedUntil(states: seq<State>, steps: seq<Step>, i: nat)
    requires IsRun(states, steps) && i < |states|
    requires forall k :: 0 <= k < i ==> !Unwatches(states[k], steps[k])
    ensures Watched(states[i])
  {
    if i > 0 {
      hide Inv, Apply, Enabled, Watched, Unwatches, SocketOrError;
      WatchedUntil(states, steps, i - 1);
      RunKeepsInv(states, steps, i - 1);
      RunHasSocketOrError(states, steps, i - 1);
      WatchedStepIff(states[i - 1], steps[i - 1]);
      assert states[i - 1 + 1] == Apply(states[i - 1], steps[i - 1]);
    }
  }

  /** The documented use is met throughout a run if and only if no cancel in it finds
      nothing counted and no timer. */
  lemma WatchedIff(states: seq<State>, steps: seq<Step>)
    requires IsRun(states, steps)
    ensures (forall i :: 0 <= i < |states| ==> Watched(states[i])) <==>
            (forall i :: 0 <= i < |steps| ==> !Unwatches(states[i], steps[i]))
  {
    hide Inv, Apply, Enabled, Watched, Unwatches, SocketOrError;
    if forall i :: 0 <= i < |steps| ==> !Unwatches(states[i], steps[i]) {
      forall i | 0 <= i < |states| ensures Watched(states[i]) {
        WatchedUntil(states, steps, i);
      }
    }
    if forall i :: 0 <= i < |states| ==> Watched(states[i]) {
      forall i | 0 <= i < |steps| ensures !Unwatches(states[i], steps[i]) {
        RunKeepsInv(states, steps, i);
        RunHasSocketOrError(states, steps, i);
        WatchedStepIff(states[i], steps[i]);
        assert states[i + 1] == Apply(states[i], steps[i]);
      }
    }
  }

  // ---------------------------------------------------------------------------
  // A silent server is noticed
  // ---------------------------------------------------------------------------

  /** Nothing happens but the passing of time and the timer. */
  predicate Silent(step: Step) {
    step.Tick? || step.TimerFires? || step.TimerRuns?
  }

  ghost predicate Silence(s: State, steps: seq<Step>, s': State)
    decreases |steps|
  {
    if steps == [] then s == s'
    else Silent(steps[0]) && Enabled(s, steps[0]) && Silence(Apply(s, steps[0]), steps[1..], s')
  }

  /** If nothing else happens, the session times out. */
  ghost predicate Noticed(s: State) {
    exists steps, s' :: Silence(s, steps, s') && s'.f.errorMessage == TIMED_OUT
  }

  /** When the handler runs next, and one more timeout if it has yet to send its ping. */
  function Deadline(s: State): nat {
    (if s.fired || s.f.timer.Off? || s.f.timer.when < s.clock then s.clock else s.f.timer.when)
    + if s.f.activePing then 0 else if s.f.pingTimeout == 0 then 1 else s.f.pingTimeout
  }

  lemma SilentThen(s: State, step: Step, rest: seq<Step>, s': State)
    requires Silent(step) && Enabled(s, step) && Silence(Apply(s, step), rest, s')
    ensures Silence(s, [step] + rest, s')
  {
    hide Apply, Enabled;
    assert ([step] + rest)[1..] == rest;
  }

  /** The handler is about to run and fails the session, or pings and has it fail one
      timeout later. */
  lemma FiredIsNoticed(s: State) returns (steps: seq<Step>, s': State)
    requires s.f.hasSocket && s.f.errorMessage == "" && s.f.numActiveRPCs > 0 && s.fired
    ensures Silence(s, steps, s') && s'.f.errorMessage == TIMED_OUT
    ensures s'.clock <= Deadline(s)
    decreases !s.f.activePing, 0
  {
    var ran := Apply(s, TimerRuns);
    if s.f.activePing {
      s' := ran;
      steps := [TimerRuns] + [];
      SilentThen(s, TimerRuns, [], s');
    } else {
      var rest;
      rest, s' := ScheduledIsNoticed(ran);
      steps := [TimerRuns] + rest;
      SilentThen(s, TimerRuns, rest, s');
    }
  }

  /** The timer is scheduled: time passes until it fires. */
  lemma {:induction false} ScheduledIsNoticed(s: State) returns (steps: seq<Step>, s': State)
    requires s.f.hasSocket && s.f.errorMessage == "" && s.f.numActiveRPCs > 0 && !s.fired && s.f.timer.At?
    ensures Silence(s, steps, s') && s'.f.errorMessage == TIMED_OUT
    ensures s'.clock <= Deadline(s)
    decreases !s.f.activePing, 1, s.f.timer.when - s.clock
  {
    var rest;
    if s.f.timer.when <= s.clock {
      rest, s' := FiredIsNoticed(Apply(s, TimerFires));
      steps := [TimerFires] + rest;
      SilentThen(s, TimerFires, rest, s');
    } else {
      rest, s' := ScheduledIsNoticed(Apply(s, Tick));
      steps := [Tick] + rest;
      SilentThen(s, Tick, rest, s');
    }
  }

  /** Nothing is counted, or no timer is set, and so nothing will be noticed. */
  predicate Unnoticed(s: State) {
    s.f.errorMessage == "" && (s.f.numActiveRPCs == 0 || (s.f.timer.Off? && !s.fired))
  }

  lemma {:induction false} StaysUnnoticed(s: State, steps: seq<Step>, s': State)
    requires Unnoticed(s) && Silence(s, steps, s')
    ensures Unnoticed(s')
    decreases |steps|
  {
    if steps != [] {
      StaysUnnoticed(Apply(s, steps[0]), steps[1..], s');
    }
  }

  /** A server that falls silent is noticed if and only if something is counted and the
      timer is scheduled or about to be handled; and then by the deadline. */
  lemma NoticedIff(s: State)
    requires s.f.hasSocket && s.f.errorMessage == ""
    ensures Noticed(s) <==> s.f.numActiveRPCs > 0 && (s.f.timer.At? || s.fired)
    ensures Noticed(s) ==>
      exists steps, s' :: Silence(s, steps, s') && s'.f.errorMessage == TIMED_OUT && s'.clock <= Deadline(s)
  {
    if Noticed(s) {
      var steps, s' :| Silence(s, steps, s') && s'.f.errorMessage == TIMED_OUT;
      if Unnoticed(s) {
        StaysUnnoticed(s, steps, s');
      }
    }
    if s.f.numActiveRPCs > 0 && s.fired {
      var steps, s' := FiredIsNoticed(s);
    } else if s.f.numActiveRPCs > 0 && s.f.timer.At? {
      var steps, s' := ScheduledIsNoticed(s);
    }
  }

  /** In every run in which no cancel finds nothing counted and no timer: a silent server
      is noticed if and only if the WAITING entries and the counter's drift do not cancel
      out. */
  lemma SilentServerIsNoticed(states: seq<State>, steps: seq<Step>, i: nat)
    requires IsRun(states, steps) && i < |states| && states[i].f.errorMessage == ""
    requires forall k :: 0 <= k < i ==> !Unwatches(states[k], steps[k])
    ensures Noticed(states[i]) <==>
            (|WaitingIds(states[i].f.responses)| + Drift(states[i])) % TWO_TO_THE_32 != 0
  {
    hide Inv, Apply, Enabled, Noticed, WaitingIds;
    RunHasSocketOrError(states, steps, i);
    WatchedUntil(states, steps, i);
    ExactAccounting(states, steps, i);
    NoticedIff(states[i]);
  }

  /** The counter that wrapped does disable the heartbeat: after a reply followed by a
      cancel the next request is WAITING with nothing counted and no timer, and a dead
      server is never noticed. */
  lemma DeadServerUnnoticed(s0: State)
    requires Initial(s0) && s0.f.errorMessage == ""
    ensures var steps := [Send, Receive(0, []), CancelBegins(0), CancelEnds(0), Send];
      exists states: seq<State> :: IsRun(states, steps) && states[0] == s0 &&
        Unwatches(states[2], steps[2]) && WaitingIds(states[5].f.responses) == {1} && !Noticed(states[5])
  {
    hide Apply, Enabled, Noticed, WaitingIds, Wrapped, Unwatches;
    var s1, s2, s3 := ReplyThenCancel(s0);
    var s4, s5 := NextRequest(s3);
    assert IsRun([s0, s1, s2, s3, s4, s5], [Send, Receive(0, []), CancelBegins(0), CancelEnds(0), Send]);
  }

  /** A reply and then the cancel of the only RPC have taken the counter below zero. */
  ghost predicate Wrapped(s: State) {
    && s.f.hasSocket && s.f.errorMessage == "" && s.f.timer.Off? && !s.fired
    && s.f.numActiveRPCs == TWO_TO_THE_32 - 1 && s.f.responses == map[] && s.f.nextMessageId == 1
    && s.rpcs.Keys == {0} && s.rpcs[0].cancelling
  }

  lemma ReplyThenCancel(s0: State) returns (s1: State, s2: State, s3: State)
    requires Initial(s0) && s0.f.errorMessage == ""
    ensures Enabled(s0, Send) && s1 == Apply(s0, Send)
    ensures Enabled(s1, Receive(0, [])) && s2 == Apply(s1, Receive(0, []))
    ensures Enabled(s2, CancelBegins(0)) && s3 == Apply(s2, CancelBegins(0))
    ensures Unwatches(s2, CancelBegins(0)) && Wrapped(s3)
  {
    s1 := Apply(s0, Send);
    s2 := Apply(s1, Receive(0, []));
    s3 := Apply(s2, CancelBegins(0));
    assert s3.f.responses == map[];
  }

  lemma NextRequest(s3: State) returns (s4: State, s5: State)
    requires Wrapped(s3)
    ensures Enabled(s3, CancelEnds(0)) && s4 == Apply(s3, CancelEnds(0))
    ensures Enabled(s4, Send) && s5 == Apply(s4, Send)
    ensures WaitingIds(s5.f.responses) == {1} && !Noticed(s5)
  {
    s4 := Apply(s3, CancelEnds(0));
    s5 := Apply(s4, Send);
    NoticedIff(s5);
  }
}
