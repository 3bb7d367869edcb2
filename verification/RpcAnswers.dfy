/** What callers of an RPC are told, over every run of the protocol: a reply that has
    arrived wins, a failed session answers everybody else, and a cancelled RPC says so. */
module RpcAnswers {
  import opened Framing
  import opened ClientSession
  import opened RpcProtocol

  // ---------------------------------------------------------------------------
  // Polling
  // ---------------------------------------------------------------------------

  /** The owner's steps that call `update`: getStatus, peekReply and getErrorMessage, and
      the two calls in waitForReply. */
  predicate Updates(step: Step, id: MessageId) {
    step == Poll(id) || step == WaitUpdates(id) || step == AskStatus(id)
  }

  /** What they make of an RPC without an answer, whose mutex is free: OK with the first
      reply if one has arrived, even if the session has failed since; otherwise the
      session's error if it has one; otherwise nothing. */
  lemma PollAnswers(states: seq<State>, steps: seq<Step>, i: nat, id: MessageId)
    requires IsRun(states, steps) && i < |steps| && Updates(steps[i], id)
    ensures id in states[i].rpcs && id in states[i + 1].rpcs
    ensures var s := states[i]; var r, r' := s.rpcs[id], states[i + 1].rpcs[id];
      r' == (if r.status != NOT_READY then r
             else if id in s.firstReply then r.(status := OK, reply := s.firstReply[id], hasSession := false)
             else if s.f.errorMessage != "" then
               r.(status := ERROR, errorMessage := s.f.errorMessage, hasSession := false)
             else r).(owner := r'.owner)
  {
    RunKeepsInv(states, steps, i);
    RunStep(states, steps, i);
    UpdateAnswers(states[i], steps[i], id);
    hide Apply, Enabled, Inv, IsRun;
  }

  lemma UpdateAnswers(s: State, step: Step, id: MessageId)
    requires Inv(s) && Enabled(s, step) && Updates(step, id)
    ensures id in s.rpcs && id in Apply(s, step).rpcs
    ensures var r, r' := s.rpcs[id], Apply(s, step).rpcs[id];
      r' == (if r.status != NOT_READY then r
             else if id in s.firstReply then r.(status := OK, reply := s.firstReply[id], hasSession := false)
             else if s.f.errorMessage != "" then
               r.(status := ERROR, errorMessage := s.f.errorMessage, hasSession := false)
             else r).(owner := r'.owner)
  {
    assert Consistent(s.f, id, s.rpcs[id], s.clock, s.firstReply);
    hide Inv, TimeoutPassed;
  }

  /** ClientRPC::waitForReply answers TIMEOUT only after the timeout: whenever its owner was
      told NOT_READY, the clock it then reads is past the timeout, and the PANIC is not
      reached. */
  lemma TimeoutHasPassed(states: seq<State>, steps: seq<Step>, i: nat)
    requires IsRun(states, steps) && i < |steps| && steps[i].Decide?
    ensures steps[i].id in states[i].rpcs && states[i].rpcs[steps[i].id].owner.Deciding?
    ensures states[i].rpcs[steps[i].id].owner.timeout < states[i].clock
  {
    RunKeepsInv(states, steps, i);
    RunStep(states, steps, i);
    var s, id := states[i], steps[i].id;
    assert Consistent(s.f, id, s.rpcs[id], s.clock, s.firstReply);
  }

  /** The records that RpcGuarantee speaks of: a PANIC is noted exactly when an owner that
      was told NOT_READY reads a clock that is not past its timeout, and a failed assert
      exactly when `update` finds no entry, or a cancelled one and no error. */
  lemma Recorded(states: seq<State>, steps: seq<Step>, i: nat)
    requires IsRun(states, steps) && i < |steps|
    ensures var s, s', step := states[i], states[i + 1], steps[i];
      && (s'.panicked <==> s.panicked || (step.Decide? && s.clock <= s.rpcs[step.id].owner.timeout))
      && (s'.assertsHeld <==> s.assertsHeld && !AssertFails(s, step))
  {
    RunStep(states, steps, i);
    hide IsRun;
    RecordStep(states[i], steps[i]);
  }

  predicate AssertFails(s: State, step: Step) {
    && (step.Poll? || step.WaitUpdates? || step.AskStatus?)
    && step.id in s.rpcs && s.rpcs[step.id].status == NOT_READY && s.rpcs[step.id].hasSession
    && (step.id !in s.f.responses ||
        (s.f.responses[step.id].status == CANCELED && s.f.errorMessage == ""))
  }

  lemma RecordStep(s: State, step: Step)
    requires Enabled(s, step)
    ensures var s' := Apply(s, step);
      && (s'.panicked <==> s.panicked || (step.Decide? && s.clock <= s.rpcs[step.id].owner.timeout))
      && (s'.assertsHeld <==> s.assertsHeld && !AssertFails(s, step))
  {
    hide Requested, Received, Cancelled, Updated, Waited, TimerEvent, KeepsWaiting, TakesReply, Absorb;
  }

  /** And an owner that was given an answer returns with it, whatever the clock says. */
  lemma AnswerIsReturned(states: seq<State>, steps: seq<Step>, i: nat, id: MessageId)
    requires IsRun(states, steps) && i < |steps| && steps[i] == AskStatus(id)
    ensures id in states[i].rpcs && id in states[i + 1].rpcs
    ensures states[i].rpcs[id].owner.Asking?
    ensures states[i + 1].rpcs[id].owner ==
            if states[i + 1].rpcs[id].status == NOT_READY then Deciding(states[i].rpcs[id].owner.timeout) else Elsewhere
  {
    RunStep(states, steps, i);
  }

  // ---------------------------------------------------------------------------
  // A failed session
  // ---------------------------------------------------------------------------

  lemma {:induction false} ErrorStays(states: seq<State>, steps: seq<Step>, i: nat, j: nat)
    requires IsRun(states, steps) && i <= j < |states| && states[i].f.errorMessage != ""
    ensures states[j].f.errorMessage == states[i].f.errorMessage
    decreases j
  {
    hide IsRun, Apply, Enabled;
    if i < j {
      RunStep(states, steps, j - 1);
      ErrorStays(states, steps, i, j - 1);
      ErrorStep(states[j - 1], steps[j - 1]);
    }
  }

  /** A disconnect fails the session for good, with its own message unless the session had
      failed before. */
  lemma DisconnectFails(states: seq<State>, steps: seq<Step>, i: nat, j: nat)
    requires IsRun(states, steps) && i < j < |states| && steps[i].Disconnect?
    ensures states[j].f.errorMessage != ""
    ensures states[j].f.errorMessage ==
            if states[i].f.errorMessage == "" then DISCONNECTED else states[i].f.errorMessage
  {
    assert states[i + 1] == Apply(states[i], steps[i]);
    ErrorStays(states, steps, i + 1, j);
  }

  /** Then no owner goes back to sleep: the next pass of its wait is the last. */
  lemma NobodySleepsOn(states: seq<State>, steps: seq<Step>, i: nat, j: nat, id: MessageId)
    requires IsRun(states, steps) && i < j < |steps| && steps[i].Disconnect? && steps[j] == WaitPasses(id)
    ensures states[j + 1].rpcs[id].owner == Returned(states[j].rpcs[id].owner.timeout)
  {
    hide Apply, Enabled;
    DisconnectFails(states, steps, i, j);
    assert states[j + 1] == Apply(states[j], steps[j]) && Enabled(states[j], steps[j]);
    PassOnError(states[j], id);
  }

  lemma PassOnError(s: State, id: MessageId)
    requires Enabled(s, WaitPasses(id)) && s.f.errorMessage != ""
    ensures var s' := Apply(s, WaitPasses(id));
      id in s'.rpcs && s'.rpcs[id] == s.rpcs[id].(owner := Returned(s.rpcs[id].owner.timeout))
    ensures Apply(s, WaitPasses(id)).f.errorMessage == s.f.errorMessage
    ensures Apply(s, WaitPasses(id)).firstReply == s.firstReply
  {
  }

  /** And an RPC that was waited for when the connection broke is answered by the two
      steps its owner has left, unless somebody is cancelling it: OK if its reply had
      arrived, otherwise ERROR with the session's error. */
  lemma DisconnectAnswers(states: seq<State>, steps: seq<Step>, i: nat, j: nat, id: MessageId)
    returns (woken: State, answered: State)
    requires IsRun(states, steps) && i < j < |states| && steps[i].Disconnect?
    requires Free(states[j], id) && states[j].rpcs[id].status == NOT_READY && states[j].rpcs[id].owner.InWait?
    ensures Enabled(states[j], WaitPasses(id)) && woken == Apply(states[j], WaitPasses(id))
    ensures Enabled(woken, WaitUpdates(id)) && answered == Apply(woken, WaitUpdates(id))
    ensures id in answered.rpcs
    ensures var r := answered.rpcs[id];
      if id in states[j].firstReply then r.status == OK && r.reply == states[j].firstReply[id]
      else r.status == ERROR && r.errorMessage == states[j].f.errorMessage
  {
    DisconnectFails(states, steps, i, j);
    RunKeepsInv(states, steps, j);
    woken := Apply(states[j], WaitPasses(id));
    PassOnError(states[j], id);
    StepKeepsInv(states[j], WaitPasses(id));
    answered := Apply(woken, WaitUpdates(id));
    UpdateAnswers(woken, WaitUpdates(id), id);
  }

  // ---------------------------------------------------------------------------
  // A cancelled RPC
  // ---------------------------------------------------------------------------

  /** The RPC is being cancelled, or was, and says so. */
  ghost predicate GivenUp(s: State, id: MessageId) {
    && id in s.rpcs
    && var r := s.rpcs[id];
       || r.cancelling
       || (r.status == CANCELED_BY_USER && r.reply == [] && r.errorMessage == "RPC canceled by user")
  }

  lemma GivenUpStep(s: State, step: Step, id: MessageId)
    requires Inv(s) && Enabled(s, step) && GivenUp(s, id)
    ensures GivenUp(Apply(s, step), id)
  {
    if s.rpcs[id].cancelling {
      CancellingStep(s, step, id);
    } else {
      FinalStep(s, step, id);
    }
    hide Inv, Apply, Enabled;
  }

  /** Nobody else touches an RPC while it is being cancelled, but for its owner's place. */
  lemma CancellingStep(s: State, step: Step, id: MessageId)
    requires Enabled(s, step) && id in s.rpcs && s.rpcs[id].cancelling
    requires id < s.f.nextMessageId
    ensures id in Apply(s, step).rpcs
    ensures var r, r' := s.rpcs[id], Apply(s, step).rpcs[id];
      r' == if step == CancelEnds(id) then Abandon(r).(cancelling := false) else r.(owner := r'.owner)
  {
    hide Refresh, Requested, Received, Cancelled, Updated, Waited, TimerEvent, KeepsWaiting, TakesReply;
    match step
    case Poll(other) => RefreshOther(s, other, id);
    case WaitUpdates(other) => RefreshOther(s, other, id);
    case AskStatus(other) => RefreshOther(s, other, id);
    case _ =>
  }

  lemma RefreshOther(s: State, other: MessageId, id: MessageId)
    requires other in s.rpcs && id in s.rpcs && other != id
    ensures var rpcs := Refresh(s, other).rpcs; other in rpcs && id in rpcs && rpcs[id] == s.rpcs[id]
  {
  }

  /** Once a cancel has found the RPC without an answer, no reply and no error becomes its
      answer any more. */
  lemma {:induction false} CancelIsFinal(states: seq<State>, steps: seq<Step>, i: nat, j: nat, id: MessageId)
    requires IsRun(states, steps) && i < j < |states| && steps[i] == CancelBegins(id)
    ensures GivenUp(states[j], id)
    decreases j
  {
    hide IsRun, Apply, Enabled, GivenUp, Inv;
    RunStep(states, steps, j - 1);
    if i == j - 1 {
      CancelStarts(states[i], id);
    } else {
      CancelIsFinal(states, steps, i, j - 1, id);
      RunKeepsInv(states, steps, j - 1);
      GivenUpStep(states[j - 1], steps[j - 1], id);
    }
  }

  lemma CancelStarts(s: State, id: MessageId)
    requires Enabled(s, CancelBegins(id))
    ensures GivenUp(Apply(s, CancelBegins(id)), id)
  {
  }

  /** And when the cancel is through, the answer is CANCELED for good. */
  lemma CancelledIsCanceled(states: seq<State>, steps: seq<Step>, i: nat, j: nat, id: MessageId)
    requires IsRun(states, steps) && i < j < |states| && steps[i] == CancelEnds(id)
    ensures id in states[j].rpcs
    ensures var r := states[j].rpcs[id];
      r.status == CANCELED_BY_USER && r.reply == [] && r.errorMessage == "RPC canceled by user"
  {
    RunStep(states, steps, i);
    AnswersAreFinal(states, steps, i + 1, j, id);
    hide IsRun;
  }
}
