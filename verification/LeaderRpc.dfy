/** Leader discovery in Client/LeaderRPC.cc: threads share one session to the leader,
    one of them at a time connects, and reports about sessions and redirects decide
    where the next connection goes.

    The counter failuresSinceLastSuccess only chooses the level of log messages and
    is not part of this model. */
module LeaderRpc {

  type ThreadId = nat

  /** A session; NO_SESSION stands for the null pointer. */
  type SessionId = nat
  const NO_SESSION: SessionId := 0

  datatype Fields = Fields(isConnecting: bool, leaderSession: SessionId, leaderHint: string)

  /** How getSession's first critical section ends: wait for another thread, return
      the session, or connect to an address ("" for any of the known hosts). */
  datatype Plan = Wait | Use(session: SessionId) | Connect(address: string)

  datatype Report = Failure | NotLeader | Redirect(host: string) | Success

  function Begin(f: Fields): (Fields, Plan) {
    if f.isConnecting then (f, Wait)
    else if f.leaderSession != NO_SESSION then (f, Use(f.leaderSession))
    else (f.(isConnecting := true), Connect(f.leaderHint))
  }

  function Finish(f: Fields, session: SessionId, usedHint: bool): Fields {
    Fields(false, session, if usedHint then "" else f.leaderHint)
  }

  function Reported(f: Fields, cached: SessionId, report: Report): Fields {
    if cached != f.leaderSession || report.Success? then f
    else if report.Redirect? then f.(leaderSession := NO_SESSION, leaderHint := report.host)
    else f.(leaderSession := NO_SESSION)
  }

  class LeaderRPC {
    var isConnecting: bool
    var leaderSession: SessionId
    var leaderHint: string

    function View(): Fields
      reads this
    {
      Fields(isConnecting, leaderSession, leaderHint)
    }

    constructor ()
      ensures View() == Fields(false, NO_SESSION, "")
    {
      isConnecting, leaderSession, leaderHint := false, NO_SESSION, "";
    }

    /** getSession, up to where it releases the mutex. */
    method BeginGetSession() returns (plan: Plan)
      modifies this
      ensures (View(), plan) == Begin(old(View()))
    {
      if isConnecting {
        return Wait;
      }
      if leaderSession != NO_SESSION {
        return Use(leaderSession);
      }
      isConnecting := true;
      if leaderHint == "" {
        plan := Connect("");
      } else {
        plan := Connect(leaderHint);
      }
    }

    /** getSession, from where it has the mutex again. */
    method FinishGetSession(session: SessionId, usedHint: bool) returns (result: SessionId)
      modifies this
      ensures View() == Finish(old(View()), session, usedHint) && result == session
    {
      leaderSession := session;
      if usedHint {
        leaderHint := "";
      }
      isConnecting := false;
      result := leaderSession;
    }

    method ReportFailure(cached: SessionId)
      modifies this
      ensures View() == Reported(old(View()), cached, Failure)
    {
      if cached != leaderSession {
        return;
      }
      leaderSession := NO_SESSION;
    }

    method ReportNotLeader(cached: SessionId)
      modifies this
      ensures View() == Reported(old(View()), cached, NotLeader)
    {
      if cached != leaderSession {
        return;
      }
      leaderSession := NO_SESSION;
    }

    method ReportRedirect(cached: SessionId, host: string)
      modifies this
      ensures View() == Reported(old(View()), cached, Redirect(host))
    {
      if cached != leaderSession {
        return;
      }
      leaderSession := NO_SESSION;
      leaderHint := host;
    }
  }

  // ---------------------------------------------------------------------------
  // Runs
  // ---------------------------------------------------------------------------

  datatype State = State(
    f: Fields,
    attempts: map<ThreadId, string>,   // threads connecting, and to which address
    sessionsMade: nat)                 // sessions created so far are 1 .. sessionsMade

  datatype Step =
    | Get(t: ThreadId)
    | GiveUp(t: ThreadId)                      // its wait for another thread timed out: an error session of its own
    | Connected(t: ThreadId, usedHint: bool)   // usedHint is false when the attempt timed out first
    | Tell(cached: SessionId, report: Report)

  function Initial(): State {
    State(Fields(false, NO_SESSION, ""), map[], 0)
  }

  predicate Enabled(s: State, step: Step) {
    match step
    case Get(t) => t !in s.attempts
    case GiveUp(t) => t !in s.attempts
    case Connected(t, usedHint) => t in s.attempts
    case Tell(cached, report) => cached <= s.sessionsMade
  }

  function Apply(s: State, step: Step): State {
    match step
    case Get(t) =>
      var (f, plan) := Begin(s.f);
      s.(f := f, attempts := if plan.Connect? then s.attempts[t := plan.address] else s.attempts)
    case GiveUp(t) => s.(sessionsMade := s.sessionsMade + 1)
    case Connected(t, usedHint) =>
      State(Finish(s.f, s.sessionsMade + 1, usedHint), s.attempts - {t}, s.sessionsMade + 1)
    case Tell(cached, report) => s.(f := Reported(s.f, cached, report))
  }

  /** A redirect to another host is reported for the null session while a thread
      connects.  A caller gets there by cancelling a call in one thread, which clears the
      call's session, while another thread waits for it. */
  predicate Misleads(s: State, step: Step) {
    && s.f.isConnecting
    && step.Tell? && step.cached == NO_SESSION && step.report.Redirect? && step.report.host != s.f.leaderHint
  }

  /** A run without such reports. */
  ghost predicate IsRun(states: seq<State>, steps: seq<Step>) {
    && |states| == |steps| + 1
    && states[0] == Initial()
    && forall i :: 0 <= i < |steps| ==>
         && Enabled(states[i], steps[i]) && states[i + 1] == Apply(states[i], steps[i])
         && !Misleads(states[i], steps[i])
  }

  ghost predicate Inv(s: State) {
    && (forall t, u :: t in s.attempts && u in s.attempts ==> t == u)
    && (s.f.isConnecting <==> s.attempts != map[])
    && (s.f.isConnecting ==> s.f.leaderSession == NO_SESSION)
    && (forall t :: t in s.attempts ==> s.attempts[t] == s.f.leaderHint)
    && s.f.leaderSession <= s.sessionsMade
  }

  /** Exactly the misleading reports break the agreement between the attempt and the hint. */
  lemma StepKeepsInvIff(s: State, step: Step)
    requires Inv(s) && Enabled(s, step)
    ensures Inv(Apply(s, step)) <==> !Misleads(s, step)
  {
    match step
    case Connected(t, usedHint) => assert s.attempts - {t} == map[];
    case Tell(cached, report) =>
      if Misleads(s, step) {
        var t :| t in s.attempts;
        assert Apply(s, step).attempts[t] != Apply(s, step).f.leaderHint;
      }
    case _ =>
  }

  lemma {:induction false} RunKeepsInv(states: seq<State>, steps: seq<Step>, i: nat)
    requires IsRun(states, steps) && i < |states|
    ensures Inv(states[i])
  {
    if i > 0 {
      RunKeepsInv(states, steps, i - 1);
      StepKeepsInvIff(states[i - 1], steps[i - 1]);
    }
  }

  /** At most one thread is connecting; while it connects there is no session, other
      threads wait, every report but a misleading one is ignored, and the hint that its
      success will clear is exactly the address it is connecting to. */
  lemma OneConnector(states: seq<State>, steps: seq<Step>, i: nat, t: ThreadId)
    requires IsRun(states, steps) && i < |states| && t in states[i].attempts
    ensures var s := states[i];
      && s.attempts == map[t := s.f.leaderHint]
      && s.f.leaderSession == NO_SESSION
      && Begin(s.f) == (s.f, Wait)
      && (forall cached, report :: Reported(s.f, cached, report) == s.f <==> !Misleads(s, Tell(cached, report)))
      && Apply(s, Connected(t, true)).f.leaderHint == ""
  {
    RunKeepsInv(states, steps, i);
    assert states[i].attempts == map[t := states[i].f.leaderHint];
  }

  /** The steps that may change the hint: a connection made to it, or a redirect from
      the session in use. */
  predicate ReplacesHint(s: State, step: Step) {
    || (step.Connected? && step.usedHint)
    || (step.Tell? && step.report.Redirect? && step.cached == s.f.leaderSession)
  }

  /** A hint survives timed-out attempts, failures and stale reports, until an attempt
      uses it or a newer redirect replaces it. */
  lemma {:induction false} HintSurvives(states: seq<State>, steps: seq<Step>, i: nat, j: nat)
    requires IsRun(states, steps) && i <= j < |states|
    requires forall k :: i <= k < j ==> !ReplacesHint(states[k], steps[k])
    ensures states[j].f.leaderHint == states[i].f.leaderHint
    decreases j
  {
    if i < j {
      HintSurvives(states, steps, i, j - 1);
      assert states[j - 1 + 1] == Apply(states[j - 1], steps[j - 1]);
    }
  }

  /** Once the session in use has been reported bad, getSession never returns it again. */
  lemma {:induction false} BadSessionIsGone(states: seq<State>, steps: seq<Step>, i: nat, j: nat)
    requires IsRun(states, steps) && i < j < |states|
    requires steps[i].Tell? && !steps[i].report.Success? && steps[i].cached != NO_SESSION
    ensures states[j].f.leaderSession != steps[i].cached
    ensures Begin(states[j].f).1 != Use(steps[i].cached)
    decreases j
  {
    var bad := steps[i].cached;
    RunKeepsInv(states, steps, j - 1);
    assert states[j - 1 + 1] == Apply(states[j - 1], steps[j - 1]);
    SessionsGrow(states, steps, i, j - 1);
    if i < j - 1 {
      BadSessionIsGone(states, steps, i, j - 1);
    }
  }

  /** The step reports the session as bad. */
  predicate Condemns(step: Step, session: SessionId) {
    step.Tell? && step.cached == session && !step.report.Success?
  }

  lemma SharedStep(s: State, step: Step, session: SessionId)
    requires Inv(s) && Enabled(s, step)
    requires s.f.leaderSession == session != NO_SESSION && s.attempts == map[] && !s.f.isConnecting
    requires !Condemns(step, session)
    ensures var s' := Apply(s, step);
      s'.f.leaderSession == session && s'.attempts == map[] && !s'.f.isConnecting
  {
  }

  /** The session a thread has made is shared: until it is reported bad, every caller of
      getSession gets it at once, and nobody begins another attempt. */
  lemma {:induction false} SessionIsShared(states: seq<State>, steps: seq<Step>, i: nat, j: nat)
    requires IsRun(states, steps) && i < j < |states| && steps[i].Connected?
    requires forall k :: i < k < j ==> !Condemns(steps[k], states[i].sessionsMade + 1)
    ensures var s, session := states[j], states[i].sessionsMade + 1;
      && s.f.leaderSession == session && s.attempts == map[] && !s.f.isConnecting
      && Begin(s.f) == (s.f, Use(session))
    decreases j
  {
    RunKeepsInv(states, steps, j - 1);
    assert states[j - 1 + 1] == Apply(states[j - 1], steps[j - 1]);
    if i == j - 1 {
      var t := steps[i].t;
      assert states[i].attempts - {t} == map[];
    } else {
      SessionIsShared(states, steps, i, j - 1);
      SharedStep(states[j - 1], steps[j - 1], states[i].sessionsMade + 1);
    }
  }

  /** When the session in use is reported bad, the next caller connects: to the host a
      redirect names, and otherwise as the hint says. */
  lemma BadSessionIsReplaced(states: seq<State>, steps: seq<Step>, i: nat)
    requires IsRun(states, steps) && i < |steps|
    requires states[i].f.leaderSession != NO_SESSION && Condemns(steps[i], states[i].f.leaderSession)
    ensures Begin(states[i + 1].f).1 ==
            Connect(if steps[i].report.Redirect? then steps[i].report.host else states[i].f.leaderHint)
  {
    RunKeepsInv(states, steps, i);
    assert states[i + 1] == Apply(states[i], steps[i]);
  }

  /** A redirect is followed: until the hint is used or replaced, whoever connects goes to
      the host it named. */
  lemma RedirectIsFollowed(states: seq<State>, steps: seq<Step>, i: nat, j: nat)
    requires IsRun(states, steps) && i < j < |states|
    requires steps[i].Tell? && steps[i].report.Redirect? && steps[i].cached == states[i].f.leaderSession
    requires forall k :: i < k < j ==> !ReplacesHint(states[k], steps[k])
    ensures Begin(states[j].f).1.Connect? ==> Begin(states[j].f).1 == Connect(steps[i].report.host)
    ensures forall t :: t in states[j].attempts ==> states[j].attempts[t] == steps[i].report.host
  {
    assert states[i + 1] == Apply(states[i], steps[i]);
    HintSurvives(states, steps, i + 1, j);
    RunKeepsInv(states, steps, j);
  }

  lemma {:induction false} SessionsGrow(states: seq<State>, steps: seq<Step>, i: nat, j: nat)
    requires IsRun(states, steps) && i <= j < |states|
    ensures states[i].sessionsMade <= states[j].sessionsMade
    decreases j
  {
    if i < j {
      SessionsGrow(states, steps, i, j - 1);
      assert states[j - 1 + 1] == Apply(states[j - 1], steps[j - 1]);
    }
  }

  /** While a thread connects, the hint that its success clears is still the address it
      went to after a report if and only if the report is about a session, or is no
      redirect, or names the same host. */
  lemma HintMatchesIff(states: seq<State>, steps: seq<Step>, i: nat, t: ThreadId, cached: SessionId, report: Report)
    requires IsRun(states, steps) && i < |states| && t in states[i].attempts
    ensures var s := states[i];
      Reported(s.f, cached, report).leaderHint == s.attempts[t] <==>
      cached != NO_SESSION || !report.Redirect? || report.host == s.f.leaderHint
  {
    RunKeepsInv(states, steps, i);
  }

  /** A misleading report loses the redirect: the success of the attempt clears the new
      hint, which it never used. */
  lemma NullReportLosesHint()
    ensures var s := Apply(Initial(), Get(1)); var told := Apply(s, Tell(NO_SESSION, Redirect("leader")));
      && Misleads(s, Tell(NO_SESSION, Redirect("leader")))
      && told.f.leaderHint == "leader" && told.attempts == map[1 := ""]
      && Apply(told, Connected(1, true)).f.leaderHint == ""
  {
  }
}
