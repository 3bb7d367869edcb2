/** The protocol between RPC/ClientSession, RPC/OpaqueClientRPC and
    ClientRPC::waitForReply, as a state machine over any number of RPCs on a session.

    Each RPC has one owner thread, which polls it and waits for it; any other thread
    may cancel it.  A step is a critical section of the session's mutex, of an RPC's
    mutex, or of both.  `cancel` alone leaves the session's mutex while it keeps the
    RPC's, so it is two steps.  The environment delivers any messages, disconnects
    and wake-ups it likes, and time only moves forward. */
module RpcProtocol {
  import opened Basics
  import opened Framing
  import opened ClientSession

  datatype RpcStatus = NOT_READY | OK | ERROR | CANCELED_BY_USER

  /** Where the owner is inside ClientRPC::waitForReply. */
  datatype Owner =
    | Elsewhere
    | InWait(timeout: int, asleep: bool)  // in ClientSession::wait
    | Returned(timeout: int)              // wait returned; about to update
    | Asking(timeout: int)                // about to call getStatus
    | Deciding(timeout: int)              // was told NOT_READY; about to read the clock

  datatype Rpc = Rpc(
    status: RpcStatus,
    hasSession: bool,
    reply: Buffer,
    errorMessage: string,
    cancelling: bool,        // its mutex is held by a `cancel` that has left the session
    owner: Owner)

  /** What `update` does to an RPC that is NOT_READY with a session. */
  function Absorb(r: Rpc, news: News): Rpc {
    match news
    case Reply(reply) => r.(status := OK, reply := reply, hasSession := false)
    case Failure(error) => r.(status := ERROR, errorMessage := error, hasSession := false)
    case _ => r
  }

  /** What `cancel` leaves of an RPC that was NOT_READY. */
  function Abandon(r: Rpc): Rpc {
    r.(status := CANCELED_BY_USER, hasSession := false, reply := [], errorMessage := "RPC canceled by user")
  }

  /** The same operations as they are written, run without interruption. */
  class OpaqueClientRPC {
    var session: ClientSession?
    var responseToken: MessageId
    var status: RpcStatus
    var reply: Buffer
    var errorMessage: string

    function View(): Rpc
      reads this
    {
      Rpc(status, session != null, reply, errorMessage, false, Elsewhere)
    }

    constructor (session: ClientSession?, responseToken: MessageId)
      ensures this.session == session && this.responseToken == responseToken
      ensures View() == Rpc(NOT_READY, session != null, [], "", false, Elsewhere)
    {
      this.session, this.responseToken := session, responseToken;
      status, reply, errorMessage := NOT_READY, [], "";
    }

    method Cancel()
      modifies this, session
      ensures old(status) != NOT_READY ==> View() == old(View())
      ensures old(status) == NOT_READY ==> View() == Abandon(old(View()))
      ensures old(session) != null ==>
        old(session).View() == if old(status) == NOT_READY then Cancelled(old(session.View()), responseToken)
                               else old(session.View())
      ensures responseToken == old(responseToken)
    {
      if status != NOT_READY {
        return;
      }
      if session != null {
        session.Cancel(responseToken);
      }
      status := CANCELED_BY_USER;
      session := null;
      reply := [];
      errorMessage := "RPC canceled by user";
    }

    /** getStatus, peekReply and getErrorMessage are this and a read of a field. */
    method Update()
      modifies this, session
      ensures old(status) != NOT_READY || old(session) == null ==> View() == old(View())
      ensures old(status) == NOT_READY && old(session) != null ==>
        View() == Absorb(old(View()), Lookup(old(session.View()), responseToken))
      ensures old(session) != null ==>
        old(session).View() == if old(status) == NOT_READY then Updated(old(session.View()), responseToken)
                               else old(session.View())
      ensures responseToken == old(responseToken)
    {
      if status != NOT_READY || session == null {
        return;
      }
      var news := session.Update(responseToken);
      match news
      case Reply(r) =>
        reply := r;
        status := OK;
        session := null;
      case Failure(e) =>
        errorMessage := e;
        status := ERROR;
        session := null;
      case _ =>
    }
  }

  datatype State = State(
    f: Fields,
    rpcs: map<MessageId, Rpc>,
    clock: nat,
    fired: bool,                       // the event loop is about to run the timer handler
    firstReply: map<MessageId, Buffer>,// first message that arrived for each id after its request
    erasedOnError: nat,                // WAITING entries that `update` erased on a session error
    cancelledLate: nat,                // cancels that found HAS_REPLY
    repliedLate: nat,                  // replies that found CANCELED
    panicked: bool,                    // ClientRPC::waitForReply PANICked on a missing timeout
    assertsHeld: bool)                 // both asserts in ClientSession::update held so far

  datatype Step =
    | Send
    | CancelBegins(id: MessageId)
    | CancelEnds(id: MessageId)
    | Poll(id: MessageId)
    | WaitBegins(id: MessageId, timeout: int)
    | WaitPasses(id: MessageId)
    | WaitUpdates(id: MessageId)
    | AskStatus(id: MessageId)
    | Decide(id: MessageId)
    | Receive(id: MessageId, message: Buffer)
    | Disconnect
    | TimerFires
    | TimerRuns
    | Tick

  ghost predicate Initial(s: State) {
    && (s.f.hasSocket || s.f.errorMessage != "")
    && s.f == Fields(s.f.pingTimeout, s.f.hasSocket, 0, map[], s.f.errorMessage, 0, false, Off)
    && s == State(s.f, map[], s.clock, false, map[], 0, 0, 0, false, true)
  }

  /** The RPC's mutex can be taken. */
  predicate Free(s: State, id: MessageId) {
    id in s.rpcs && !s.rpcs[id].cancelling
  }

  predicate Enabled(s: State, step: Step) {
    match step
    case Send => s.f.nextMessageId < VERSION_MESSAGE_ID
    case CancelBegins(id) => Free(s, id) && s.rpcs[id].status == NOT_READY
    case CancelEnds(id) => id in s.rpcs && s.rpcs[id].cancelling
    case Poll(id) => Free(s, id) && s.rpcs[id].owner == Elsewhere
    case WaitBegins(id, timeout) => Free(s, id) && s.rpcs[id].owner == Elsewhere
    case WaitPasses(id) => id in s.rpcs && s.rpcs[id].owner.InWait?
    case WaitUpdates(id) => Free(s, id) && s.rpcs[id].owner.Returned?
    case AskStatus(id) => Free(s, id) && s.rpcs[id].owner.Asking?
    case Decide(id) => id in s.rpcs && s.rpcs[id].owner.Deciding?
    case Receive(id, message) => !s.fired
    case Disconnect => !s.fired
    case TimerFires => !s.fired && s.f.timer.At? && s.f.timer.when <= s.clock
    case TimerRuns => s.fired
    case Tick => true
  }

  /** OpaqueClientRPC::update, with both mutexes held. */
  function Refresh(s: State, id: MessageId): State
    requires id in s.rpcs
  {
    var r := s.rpcs[id];
    if r.status != NOT_READY || !r.hasSession then s
    else
      var news := Lookup(s.f, id);
      s.(f := Updated(s.f, id), rpcs := s.rpcs[id := Absorb(r, news)],
         erasedOnError := if news.Failure? && s.f.responses[id].status == WAITING then s.erasedOnError + 1
                          else s.erasedOnError,
         assertsHeld := s.assertsHeld && !news.NoEntry? && news != NothingYet(true))
  }

  function SetOwner(s: State, id: MessageId, owner: Owner): State
    requires id in s.rpcs
  {
    s.(rpcs := s.rpcs[id := s.rpcs[id].(owner := owner)])
  }

  function OnReceive(s: State, id: MessageId, message: Buffer): State {
    s.(f := Received(s.f, id, message, s.clock),
       firstReply := if id in s.rpcs && id !in s.firstReply then s.firstReply[id := message] else s.firstReply,
       repliedLate := if TakesReply(s.f, id) && s.f.responses[id].status == CANCELED then s.repliedLate + 1
                      else s.repliedLate)
  }

  function OnCancel(s: State, id: MessageId): State
    requires id in s.rpcs
  {
    var r := s.rpcs[id];
    s.(f := if r.hasSession then Cancelled(s.f, id) else s.f,
       rpcs := s.rpcs[id := r.(cancelling := true)],
       cancelledLate := if r.hasSession && id in s.f.responses && s.f.responses[id].status == HAS_REPLY
                        then s.cancelledLate + 1 else s.cancelledLate)
  }

  function OnWaitPass(s: State, id: MessageId): State
    requires id in s.rpcs && s.rpcs[id].owner.InWait?
  {
    var timeout := s.rpcs[id].owner.timeout;
    var owner := if KeepsWaiting(s.f, id, timeout, s.clock) then InWait(timeout, true) else Returned(timeout);
    SetOwner(s.(f := Waited(s.f, id, timeout, s.clock)), id, owner)
  }

  function Apply(s: State, step: Step): State
    requires Enabled(s, step)
  {
    match step
    case Send =>
      s.(f := Requested(s.f, s.clock),
         rpcs := s.rpcs[s.f.nextMessageId := Rpc(NOT_READY, true, [], "", false, Elsewhere)])
    case CancelBegins(id) => OnCancel(s, id)
    case CancelEnds(id) => s.(rpcs := s.rpcs[id := Abandon(s.rpcs[id]).(cancelling := false)])
    case Poll(id) => Refresh(s, id)
    case WaitBegins(id, timeout) =>
      SetOwner(s, id, if s.rpcs[id].status == NOT_READY then InWait(timeout, false) else Asking(timeout))
    case WaitPasses(id) => OnWaitPass(s, id)
    case WaitUpdates(id) =>
      SetOwner(Refresh(s, id), id, Asking(s.rpcs[id].owner.timeout))
    case AskStatus(id) =>
      var s' := Refresh(s, id);
      SetOwner(s', id, if s'.rpcs[id].status == NOT_READY then Deciding(s.rpcs[id].owner.timeout) else Elsewhere)
    case Decide(id) =>
      SetOwner(s.(panicked := s.panicked || s.clock <= s.rpcs[id].owner.timeout), id, Elsewhere)
    case Receive(id, message) => OnReceive(s, id, message)
    case Disconnect => s.(f := Disconnected(s.f))
    case TimerFires => s.(fired := true, f := s.f.(timer := Off))
    case TimerRuns => s.(fired := false, f := TimerEvent(s.f, s.clock))
    case Tick => s.(clock := s.clock + 1)
  }

  ghost predicate IsRun(states: seq<State>, steps: seq<Step>) {
    && |states| == |steps| + 1
    && Initial(states[0])
    && forall i :: 0 <= i < |steps| ==>
         Enabled(states[i], steps[i]) && states[i + 1] == Apply(states[i], steps[i])
  }

  lemma RunStep(states: seq<State>, steps: seq<Step>, i: nat)
    requires IsRun(states, steps) && i + 1 < |states|
    ensures |states| == |steps| + 1 && Enabled(states[i], steps[i]) && states[i + 1] == Apply(states[i], steps[i])
  {
    hide Apply, Enabled;
  }

  // ---------------------------------------------------------------------------
  // One RPC and its entry
  // ---------------------------------------------------------------------------

  /** The owner knows that its timeout has passed, unless news awaits it. */
  predicate TimeoutPassed(f: Fields, id: MessageId, r: Rpc, clock: nat) {
    match r.owner
    case Elsewhere => true
    case InWait(timeout, asleep) => true
    case Returned(timeout) =>
      r.status == NOT_READY && !r.cancelling && Lookup(f, id).NothingYet? ==> timeout < clock
    case Asking(timeout) => r.status == NOT_READY && !r.cancelling ==> timeout < clock
    case Deciding(timeout) => timeout < clock
  }

  predicate Consistent(f: Fields, id: MessageId, r: Rpc, clock: nat, firstReply: map<MessageId, Buffer>) {
    && id < f.nextMessageId
    && (r.status == NOT_READY <==> r.hasSession)
    && (r.cancelling ==> r.status == NOT_READY)
    // the entry
    && (r.status == NOT_READY && !r.cancelling ==> id in f.responses && f.responses[id].status != CANCELED)
    && (id in f.responses && f.responses[id].status == WAITING ==>
          r.status == NOT_READY && !r.cancelling && id !in firstReply)
    && (id in f.responses && f.responses[id].status == CANCELED ==> f.responses[id].hasWaiter)
    // its waiter
    && (r.owner.InWait? && r.owner.asleep ==> id in f.responses)
    && (id in f.responses ==> (f.responses[id].hasWaiter <==> r.owner.InWait? && r.owner.asleep))
    // the reply
    && (r.status == NOT_READY && !r.cancelling && f.responses[id].status == HAS_REPLY ==>
          id in firstReply && f.responses[id].reply == firstReply[id])
    && (r.status == OK ==> id in firstReply && r.reply == firstReply[id])
    && TimeoutPassed(f, id, r, clock)
  }

  ghost predicate Inv(s: State) {
    && (forall id :: id in s.rpcs ==> Consistent(s.f, id, s.rpcs[id], s.clock, s.firstReply))
    && s.f.responses.Keys <= s.rpcs.Keys
    && s.firstReply.Keys <= s.rpcs.Keys
    && s.f.nextMessageId <= VERSION_MESSAGE_ID
    && !s.panicked && s.assertsHeld
  }

  /** The step is about one RPC: it leaves the other RPCs and their entries alone. */
  ghost predicate OnlyTouches(s: State, s': State, id: MessageId) {
    && id in s'.rpcs && s'.rpcs.Keys == s.rpcs.Keys + {id}
    && (forall u :: u in s.rpcs && u != id ==> s'.rpcs[u] == s.rpcs[u])
    && (forall u :: u != id ==> (u in s'.f.responses <==> u in s.f.responses))
    && (forall u :: u != id && u in s.f.responses ==> s'.f.responses[u] == s.f.responses[u])
    && (forall u :: u != id ==> (u in s'.firstReply <==> u in s.firstReply))
    && (forall u :: u != id && u in s.firstReply ==> s'.firstReply[u] == s.firstReply[u])
    && s.f.nextMessageId <= s'.f.nextMessageId <= VERSION_MESSAGE_ID
    && s.f.errorMessage == s'.f.errorMessage && s.clock == s'.clock
  }

  lemma OthersKeepInv(s: State, s': State, id: MessageId)
    requires Inv(s) && OnlyTouches(s, s', id)
    requires Consistent(s'.f, id, s'.rpcs[id], s'.clock, s'.firstReply)
    requires !s'.panicked && s'.assertsHeld
    ensures Inv(s')
  {
    forall u | u in s'.rpcs && u != id
      ensures Consistent(s'.f, u, s'.rpcs[u], s'.clock, s'.firstReply)
    {
      assert Consistent(s.f, u, s.rpcs[u], s.clock, s.firstReply);
    }
    forall u | u in s'.f.responses ensures u in s'.rpcs {}
    forall u | u in s'.firstReply ensures u in s'.rpcs {}
  }

  lemma NewIsConsistent(s: State)
    requires Enabled(s, Send) && s.f.nextMessageId !in s.firstReply
    ensures var s' := Apply(s, Send); var id := s.f.nextMessageId;
      Consistent(s'.f, id, s'.rpcs[id], s'.clock, s'.firstReply)
  {
  }

  lemma SendKeepsInv(s: State)
    requires Inv(s) && Enabled(s, Send)
    ensures Inv(Apply(s, Send))
  {
    var id := s.f.nextMessageId;
    assert id !in s.rpcs;
    hide Consistent, TimeoutPassed;
    NewIsConsistent(s);
    OthersKeepInv(s, Apply(s, Send), id);
  }

  lemma CancelKeepsInv(s: State, id: MessageId)
    requires Inv(s) && Enabled(s, CancelBegins(id))
    ensures Inv(Apply(s, CancelBegins(id)))
  {
    assert Consistent(s.f, id, s.rpcs[id], s.clock, s.firstReply);
    var s' := OnCancel(s, id);
    assert Consistent(s'.f, id, s'.rpcs[id], s'.clock, s'.firstReply);
    hide Consistent, TimeoutPassed;
    OthersKeepInv(s, s', id);
  }

  lemma CancelEndKeepsInv(s: State, id: MessageId)
    requires Inv(s) && Enabled(s, CancelEnds(id))
    ensures Inv(Apply(s, CancelEnds(id)))
  {
    assert Consistent(s.f, id, s.rpcs[id], s.clock, s.firstReply);
    var s' := Apply(s, CancelEnds(id));
    assert Consistent(s'.f, id, s'.rpcs[id], s'.clock, s'.firstReply);
    hide Consistent, TimeoutPassed;
    OthersKeepInv(s, s', id);
  }

  /** `update` finds the entry it expects, and afterwards NOT_READY means nothing yet. */
  lemma RefreshFacts(s: State, id: MessageId, owner: Owner)
    requires Free(s, id) && Consistent(s.f, id, s.rpcs[id], s.clock, s.firstReply)
    requires !s.rpcs[id].owner.InWait? && !owner.InWait?
    requires var r := Refresh(s, id).rpcs[id];
      TimeoutPassed(Refresh(s, id).f, id, r.(owner := owner), s.clock)
    ensures var s' := SetOwner(Refresh(s, id), id, owner);
      && Consistent(s'.f, id, s'.rpcs[id], s'.clock, s'.firstReply)
      && OnlyTouches(s, s', id) == (s.f.nextMessageId <= VERSION_MESSAGE_ID)
      && s'.assertsHeld == s.assertsHeld && s'.panicked == s.panicked
  {
  }

  lemma PollKeepsInv(s: State, id: MessageId)
    requires Inv(s) && Enabled(s, Poll(id))
    ensures Inv(Apply(s, Poll(id)))
  {
    assert Consistent(s.f, id, s.rpcs[id], s.clock, s.firstReply);
    RefreshFacts(s, id, Elsewhere);
    var s' := SetOwner(Refresh(s, id), id, Elsewhere);
    assert s' == Refresh(s, id) by {
      assert s'.rpcs == Refresh(s, id).rpcs;
    }
    hide Consistent, TimeoutPassed, Refresh;
    OthersKeepInv(s, s', id);
  }

  lemma WaitUpdateKeepsInv(s: State, id: MessageId)
    requires Inv(s) && Enabled(s, WaitUpdates(id))
    ensures Inv(Apply(s, WaitUpdates(id)))
  {
    assert Consistent(s.f, id, s.rpcs[id], s.clock, s.firstReply);
    RefreshFacts(s, id, Asking(s.rpcs[id].owner.timeout));
    hide Consistent, TimeoutPassed, Refresh;
    OthersKeepInv(s, Apply(s, WaitUpdates(id)), id);
  }

  lemma AskKeepsInv(s: State, id: MessageId)
    requires Inv(s) && Enabled(s, AskStatus(id))
    ensures Inv(Apply(s, AskStatus(id)))
  {
    assert Consistent(s.f, id, s.rpcs[id], s.clock, s.firstReply);
    var r := Refresh(s, id).rpcs[id];
    RefreshFacts(s, id, if r.status == NOT_READY then Deciding(s.rpcs[id].owner.timeout) else Elsewhere);
    hide Consistent, TimeoutPassed, Refresh;
    OthersKeepInv(s, Apply(s, AskStatus(id)), id);
  }

  lemma WaitPassIsConsistent(s: State, id: MessageId)
    requires id in s.rpcs && s.rpcs[id].owner.InWait?
    requires Consistent(s.f, id, s.rpcs[id], s.clock, s.firstReply)
    ensures var s' := OnWaitPass(s, id);
      Consistent(s'.f, id, s'.rpcs[id], s'.clock, s'.firstReply)
  {
  }

  lemma WaitPassKeepsInv(s: State, id: MessageId)
    requires Inv(s) && Enabled(s, WaitPasses(id))
    ensures Inv(Apply(s, WaitPasses(id)))
  {
    assert Consistent(s.f, id, s.rpcs[id], s.clock, s.firstReply);
    hide Consistent, TimeoutPassed;
    WaitPassIsConsistent(s, id);
    OthersKeepInv(s, OnWaitPass(s, id), id);
  }

  lemma OwnerStepKeepsInv(s: State, step: Step)
    requires Inv(s) && Enabled(s, step) && (step.WaitBegins? || step.Decide?)
    ensures Inv(Apply(s, step))
  {
    var id := step.id;
    assert Consistent(s.f, id, s.rpcs[id], s.clock, s.firstReply);
    var s' := Apply(s, step);
    assert Consistent(s'.f, id, s'.rpcs[id], s'.clock, s'.firstReply);
    hide Consistent;
    OthersKeepInv(s, s', id);
  }

  lemma ReceiveKeepsInv(s: State, id: MessageId, message: Buffer)
    requires Inv(s)
    ensures Inv(OnReceive(s, id, message))
  {
    var s' := OnReceive(s, id, message);
    if id in s.rpcs {
      assert Consistent(s.f, id, s.rpcs[id], s.clock, s.firstReply);
      assert Consistent(s'.f, id, s'.rpcs[id], s'.clock, s'.firstReply);
      hide Consistent, TimeoutPassed;
      OthersKeepInv(s, s', id);
    } else {
      assert s'.f.responses == s.f.responses && s'.firstReply == s.firstReply;
      SameEntriesKeepInv(s, s');
    }
  }

  /** Errors and the passing of time concern every RPC in the same way. */
  lemma SameEntriesKeepInv(s: State, s': State)
    requires Inv(s) && s'.rpcs == s.rpcs && s'.firstReply == s.firstReply
    requires s'.f.responses == s.f.responses && s'.f.nextMessageId == s.f.nextMessageId
    requires s.clock <= s'.clock && (s.f.errorMessage != "" ==> s'.f.errorMessage == s.f.errorMessage)
    requires s'.panicked == s.panicked && s'.assertsHeld == s.assertsHeld
    ensures Inv(s')
  {
    forall u | u in s'.rpcs
      ensures Consistent(s'.f, u, s'.rpcs[u], s'.clock, s'.firstReply)
    {
      assert Consistent(s.f, u, s.rpcs[u], s.clock, s.firstReply);
    }
  }

  lemma StepKeepsInv(s: State, step: Step)
    requires Inv(s) && Enabled(s, step)
    ensures Inv(Apply(s, step))
  {
    hide Consistent, TimeoutPassed;
    match step
    case Send => SendKeepsInv(s);
    case CancelBegins(id) => CancelKeepsInv(s, id);
    case CancelEnds(id) => CancelEndKeepsInv(s, id);
    case Poll(id) => PollKeepsInv(s, id);
    case WaitBegins(id, timeout) => OwnerStepKeepsInv(s, step);
    case WaitPasses(id) => WaitPassKeepsInv(s, id);
    case WaitUpdates(id) => WaitUpdateKeepsInv(s, id);
    case AskStatus(id) => AskKeepsInv(s, id);
    case Decide(id) => OwnerStepKeepsInv(s, step);
    case Receive(id, message) => ReceiveKeepsInv(s, id, message);
    case _ => SameEntriesKeepInv(s, Apply(s, step));
  }

  lemma {:induction false} RunKeepsInv(states: seq<State>, steps: seq<Step>, i: nat)
    requires IsRun(states, steps) && i < |states|
    ensures Inv(states[i])
  {
    if i > 0 {
      RunKeepsInv(states, steps, i - 1);
      hide Inv, Apply, Enabled;
      StepKeepsInv(states[i - 1], steps[i - 1]);
    }
  }

  // ---------------------------------------------------------------------------
  // What every run guarantees
  // ---------------------------------------------------------------------------

  /** While nobody holds its mutex, an unfinished RPC has a live entry; a sleeping
      owner's entry is never deleted under it; OK carries the first reply that
      arrived for the RPC's own id.  Hence both asserts in `update` hold, and the
      PANIC in ClientRPC::waitForReply for an RPC that is neither ready nor past its
      timeout is never reached. */
  lemma RpcGuarantee(states: seq<State>, steps: seq<Step>, i: nat, id: MessageId)
    requires IsRun(states, steps) && i < |states|
    ensures !states[i].panicked && states[i].assertsHeld
    ensures id in states[i].rpcs ==>
      var s := states[i]; var r := s.rpcs[id];
      && (Free(s, id) && r.status == NOT_READY ==>
            r.hasSession && id in s.f.responses && s.f.responses[id].status in {WAITING, HAS_REPLY})
      && (r.owner.InWait? && r.owner.asleep ==> id in s.f.responses && s.f.responses[id].hasWaiter)
      && (r.status == OK ==> id in s.firstReply && r.reply == s.firstReply[id])
  {
    RunKeepsInv(states, steps, i);
    if id in states[i].rpcs {
      var s := states[i];
      assert Consistent(s.f, id, s.rpcs[id], s.clock, s.firstReply);
    }
  }

  lemma FinalStep(s: State, step: Step, id: MessageId)
    requires Inv(s) && Enabled(s, step) && id in s.rpcs
    ensures id in Apply(s, step).rpcs
    ensures var r, r' := s.rpcs[id], Apply(s, step).rpcs[id];
      r.status != NOT_READY ==> r' == r.(owner := r'.owner)
    ensures id in s.firstReply ==> id in Apply(s, step).firstReply && Apply(s, step).firstReply[id] == s.firstReply[id]
  {
    assert Consistent(s.f, id, s.rpcs[id], s.clock, s.firstReply);
    hide Consistent, TimeoutPassed, Requested, Received, Cancelled, Updated, Waited, TimerEvent;
  }

  /** An error of the session stays, and so does its socket. */
  lemma ErrorStep(s: State, step: Step)
    requires Enabled(s, step)
    ensures s.f.errorMessage != "" ==> Apply(s, step).f.errorMessage == s.f.errorMessage
    ensures Apply(s, step).f.hasSocket == s.f.hasSocket
  {
    hide Requested, Received, Cancelled, Updated, Waited, Lookup, KeepsWaiting, TakesReply, Absorb, Abandon;
    match step
    case Send => SectionsKeepError(s.f, 0, [], 0, s.clock);
    case CancelBegins(id) => SectionsKeepError(s.f, id, [], 0, s.clock);
    case Poll(id) => SectionsKeepError(s.f, id, [], 0, s.clock);
    case WaitUpdates(id) => SectionsKeepError(s.f, id, [], 0, s.clock);
    case AskStatus(id) => SectionsKeepError(s.f, id, [], 0, s.clock);
    case WaitPasses(id) => SectionsKeepError(s.f, id, [], s.rpcs[id].owner.timeout, s.clock);
    case Receive(id, message) => SectionsKeepError(s.f, id, message, 0, s.clock);
    case _ =>
  }

  predicate SameConnection(f: Fields, g: Fields) {
    f.errorMessage == g.errorMessage && f.hasSocket == g.hasSocket
  }

  lemma SectionsKeepError(f: Fields, id: MessageId, message: Buffer, timeout: int, now: nat)
    ensures SameConnection(f, Requested(f, now)) && SameConnection(f, Cancelled(f, id))
    ensures SameConnection(f, Updated(f, id)) && SameConnection(f, Waited(f, id, timeout, now))
    ensures SameConnection(f, Received(f, id, message, now))
  {
    hide Increment, Decrement, Schedule, KeepsWaiting;
  }

  /** What is settled about an RPC and its session in `s` is the same in `s'`: the answer
      of a finished RPC, the first reply, and an error of the session. */
  ghost predicate Persists(s: State, s': State, id: MessageId) {
    && id in s.rpcs && id in s'.rpcs
    && (s.rpcs[id].status != NOT_READY ==>
          && s'.rpcs[id].status == s.rpcs[id].status
          && s'.rpcs[id].reply == s.rpcs[id].reply
          && s'.rpcs[id].errorMessage == s.rpcs[id].errorMessage)
    && (id in s.firstReply ==> id in s'.firstReply && s'.firstReply[id] == s.firstReply[id])
    && (s.f.errorMessage != "" ==> s'.f.errorMessage == s.f.errorMessage)
  }

  lemma PersistsStep(s: State, step: Step, id: MessageId)
    requires Inv(s) && Enabled(s, step) && id in s.rpcs
    ensures Persists(s, Apply(s, step), id)
  {
    hide Inv, Apply, Enabled;
    FinalStep(s, step, id);
    ErrorStep(s, step);
  }

  lemma PersistsThrough(s: State, s': State, s'': State, id: MessageId)
    requires Persists(s, s', id) && Persists(s', s'', id)
    ensures Persists(s, s'', id)
  {
  }

  /** An RPC leaves NOT_READY at most once, and then its answer never changes;
      neither does the first reply, nor an error of the session. */
  lemma {:induction false} AnswersAreFinal(states: seq<State>, steps: seq<Step>, i: nat, j: nat, id: MessageId)
    requires IsRun(states, steps) && i <= j < |states| && id in states[i].rpcs
    ensures Persists(states[i], states[j], id)
    decreases j
  {
    hide Inv, Apply, Enabled;
    if i < j {
      AnswersAreFinal(states, steps, i, j - 1, id);
      RunKeepsInv(states, steps, j - 1);
      PersistsStep(states[j - 1], steps[j - 1], id);
      assert states[j - 1 + 1] == Apply(states[j - 1], steps[j - 1]);
      hide Persists;
      PersistsThrough(states[i], states[j - 1], states[j], id);
    }
  }

  // ---------------------------------------------------------------------------
  // The accounting of numActiveRPCs
  // ---------------------------------------------------------------------------

  ghost function WaitingIds(responses: map<MessageId, Response>): set<MessageId> {
    set id | id in responses && responses[id].status == WAITING
  }

  /** How far numActiveRPCs has drifted from the number of WAITING entries. */
  function Drift(s: State): int {
    s.erasedOnError - s.cancelledLate - s.repliedLate
  }

  ghost predicate Accounted(s: State) {
    s.f.numActiveRPCs == (|WaitingIds(s.f.responses)| + Drift(s)) % TWO_TO_THE_32
  }

  lemma CounterStep(n: nat, ledger: int)
    requires n == ledger % TWO_TO_THE_32
    ensures Increment(n) == (ledger + 1) % TWO_TO_THE_32
    ensures Decrement(n) == (ledger - 1) % TWO_TO_THE_32
  {
    assert TWO_TO_THE_32 == 0x1_0000_0000;
    assert (ledger + 1) % 0x1_0000_0000 == (ledger % 0x1_0000_0000 + 1) % 0x1_0000_0000;
    assert (ledger - 1) % 0x1_0000_0000 == (ledger % 0x1_0000_0000 + 0xffff_ffff) % 0x1_0000_0000;
  }

  lemma WaitingAfterSet(m: map<MessageId, Response>, id: MessageId, r: Response)
    ensures |WaitingIds(m[id := r])| ==
            |WaitingIds(m)| - (if id in WaitingIds(m) then 1 else 0) + (if r.status == WAITING then 1 else 0)
  {
    var before, after := WaitingIds(m), WaitingIds(m[id := r]);
    assert before - {id} == after - {id};
    assert id in after <==> r.status == WAITING;
    assert |after - {id}| == |after| - (if id in after then 1 else 0);
    assert |before - {id}| == |before| - (if id in before then 1 else 0);
  }

  lemma WaitingAfterErase(m: map<MessageId, Response>, id: MessageId)
    ensures |WaitingIds(m - {id})| == |WaitingIds(m)| - (if id in WaitingIds(m) then 1 else 0)
  {
    assert WaitingIds(m) - {id} == WaitingIds(m - {id});
  }

  lemma SendAccounts(s: State)
    requires Inv(s) && Accounted(s) && Enabled(s, Send)
    ensures Accounted(Apply(s, Send))
  {
    hide Consistent, WaitingIds;
    assert s.f.nextMessageId !in WaitingIds(s.f.responses) by {
      FreshIsNotWaiting(s);
    }
    WaitingAfterSet(s.f.responses, s.f.nextMessageId, Response(WAITING, [], false));
    CounterStep(s.f.numActiveRPCs, |WaitingIds(s.f.responses)| + Drift(s));
  }

  lemma FreshIsNotWaiting(s: State)
    requires Inv(s)
    ensures s.f.nextMessageId !in WaitingIds(s.f.responses)
  {
    assert s.f.nextMessageId !in s.rpcs;
  }

  lemma CancelAccounts(s: State, id: MessageId)
    requires Inv(s) && Accounted(s) && Enabled(s, CancelBegins(id))
    ensures Accounted(OnCancel(s, id))
  {
    assert Consistent(s.f, id, s.rpcs[id], s.clock, s.firstReply);
    var m := s.f.responses;
    assert id in WaitingIds(m) <==> m[id].status == WAITING;
    hide Consistent, WaitingIds;
    WaitingAfterSet(m, id, m[id].(status := CANCELED));
    WaitingAfterErase(m, id);
    CounterStep(s.f.numActiveRPCs, |WaitingIds(m)| + Drift(s));
  }

  lemma RefreshAccounts(s: State, id: MessageId)
    requires Inv(s) && Accounted(s) && Free(s, id)
    ensures Accounted(Refresh(s, id))
  {
    assert Consistent(s.f, id, s.rpcs[id], s.clock, s.firstReply);
    assert id in s.f.responses ==> (id in WaitingIds(s.f.responses) <==> s.f.responses[id].status == WAITING);
    hide Consistent, WaitingIds;
    WaitingAfterErase(s.f.responses, id);
  }

  lemma WaitPassAccounts(s: State, id: MessageId)
    requires Accounted(s) && Enabled(s, WaitPasses(id))
    ensures Accounted(OnWaitPass(s, id))
  {
    var m, timeout := s.f.responses, s.rpcs[id].owner.timeout;
    if id in m {
      assert id in WaitingIds(m) <==> m[id].status == WAITING;
      hide WaitingIds;
      WaitingAfterErase(m, id);
      WaitingAfterSet(m, id, m[id].(hasWaiter := KeepsWaiting(s.f, id, timeout, s.clock)));
    }
  }

  lemma ReceiveAccounts(s: State, id: MessageId, message: Buffer)
    requires Accounted(s)
    ensures Accounted(OnReceive(s, id, message))
  {
    var m := s.f.responses;
    if TakesReply(s.f, id) {
      assert id in WaitingIds(m) <==> m[id].status == WAITING;
      hide WaitingIds;
      WaitingAfterSet(m, id, m[id].(status := HAS_REPLY, reply := message));
      CounterStep(s.f.numActiveRPCs, |WaitingIds(m)| + Drift(s));
    }
  }

  lemma StepAccounts(s: State, step: Step)
    requires Inv(s) && Accounted(s) && Enabled(s, step)
    ensures Accounted(Apply(s, step))
  {
    hide Consistent, WaitingIds;
    match step
    case Send => SendAccounts(s);
    case CancelBegins(id) => CancelAccounts(s, id);
    case Poll(id) => RefreshAccounts(s, id);
    case WaitUpdates(id) => RefreshAccounts(s, id);
    case AskStatus(id) => RefreshAccounts(s, id);
    case WaitPasses(id) => WaitPassAccounts(s, id);
    case Receive(id, message) => ReceiveAccounts(s, id, message);
    case _ =>
  }

  /** Over every run, as an integer modulo 2^32: numActiveRPCs is the number of
      WAITING entries, plus those `update` erased on a session error, minus the
      cancels that found a reply, minus the replies that found a cancelled entry. */
  lemma {:induction false} ExactAccounting(states: seq<State>, steps: seq<Step>, i: nat)
    requires IsRun(states, steps) && i < |states|
    ensures Accounted(states[i])
  {
    if i > 0 {
      ExactAccounting(states, steps, i - 1);
      RunKeepsInv(states, steps, i - 1);
      hide Inv, Apply, Enabled, Accounted;
      StepAccounts(states[i - 1], steps[i - 1]);
    }
  }

  /** The three meetings that move the counter away from the number of WAITING entries. */
  predicate Drifts(s: State, step: Step) {
    match step
    case CancelBegins(id) => id in s.f.responses && s.f.responses[id].status == HAS_REPLY
    case Receive(id, message) => TakesReply(s.f, id) && s.f.responses[id].status == CANCELED
    case Poll(id) => ErasesWaiting(s, id)
    case WaitUpdates(id) => ErasesWaiting(s, id)
    case AskStatus(id) => ErasesWaiting(s, id)
    case _ => false
  }

  predicate ErasesWaiting(s: State, id: MessageId) {
    && id in s.rpcs && s.rpcs[id].status == NOT_READY
    && id in s.f.responses && s.f.responses[id].status == WAITING && s.f.errorMessage != ""
  }

  /** The documented meaning of numActiveRPCs. */
  ghost predicate CountsWaiting(s: State) {
    s.f.numActiveRPCs == |WaitingIds(s.f.responses)| % TWO_TO_THE_32
  }

  /** From a state where the counter counts the WAITING entries, a step keeps it so
      if and only if it is none of the three meetings. */
  lemma CountsUnlessDrift(states: seq<State>, steps: seq<Step>, i: nat)
    requires IsRun(states, steps) && i < |steps| && CountsWaiting(states[i])
    ensures CountsWaiting(states[i + 1]) <==> !Drifts(states[i], steps[i])
  {
    ExactAccounting(states, steps, i);
    ExactAccounting(states, steps, i + 1);
    RunKeepsInv(states, steps, i);
    var s := states[i];
    DriftMoves(s, steps[i]);
    var s' := states[i + 1];
    assert s' == Apply(s, steps[i]);
    hide Apply, Enabled, Inv, Drifts, WaitingIds;
    CongruentStep(|WaitingIds(s.f.responses)|, Drift(s), |WaitingIds(s'.f.responses)|, Drift(s'));
  }

  lemma DriftMoves(s: State, step: Step)
    requires Inv(s) && Enabled(s, step)
    ensures Drift(Apply(s, step)) - Drift(s) in {-1, 0, 1}
    ensures Drift(Apply(s, step)) == Drift(s) <==> !Drifts(s, step)
  {
    if step.CancelBegins? || step.Poll? || step.WaitUpdates? || step.AskStatus? {
      assert Consistent(s.f, step.id, s.rpcs[step.id], s.clock, s.firstReply);
    }
    hide Consistent;
  }

  lemma CongruentStep(n: nat, d: int, n': nat, d': int)
    requires (n + d) % TWO_TO_THE_32 == n % TWO_TO_THE_32 && d' - d in {-1, 0, 1}
    ensures (n' + d') % TWO_TO_THE_32 == n' % TWO_TO_THE_32 <==> d' == d
  {
    assert d % TWO_TO_THE_32 == 0;
    assert (n' + d') % TWO_TO_THE_32 == (n' + (d' - d)) % TWO_TO_THE_32;
  }

  /** The documentation of numActiveRPCs is not met: a reply arrives, then its RPC is
      cancelled, and the counter stands at 2^32 - 1 with nothing outstanding. */
  lemma CounterWraps(s0: State)
    requires Initial(s0) && s0.f.errorMessage == ""
    ensures var steps := [Send, Receive(0, []), CancelBegins(0)];
      exists states: seq<State> :: IsRun(states, steps) && states[0] == s0 &&
        states[3].f.numActiveRPCs == TWO_TO_THE_32 - 1 && WaitingIds(states[3].f.responses) == {}
  {
    var s1 := Apply(s0, Send);
    var s2 := Apply(s1, Receive(0, []));
    var s3 := Apply(s2, CancelBegins(0));
    var states := [s0, s1, s2, s3];
    assert IsRun(states, [Send, Receive(0, []), CancelBegins(0)]);
    assert s3.f.responses == map[];
  }

  // ---------------------------------------------------------------------------
  // Entries that outlive their RPCs
  // ---------------------------------------------------------------------------

  /** The entry holds a reply that nobody will ever take: its RPC was cancelled. */
  predicate Outlives(s: State, id: MessageId) {
    && id in s.rpcs && (s.rpcs[id].cancelling || s.rpcs[id].status != NOT_READY)
    && id in s.f.responses && s.f.responses[id].status == HAS_REPLY
  }

  ghost function Leaked(s: State): set<MessageId> {
    set id | id in s.rpcs && Outlives(s, id)
  }

  /** A reply arrives for an entry that `cancel` has left for `wait` to delete. */
  predicate RepliesLate(s: State, step: Step, id: MessageId) {
    step.Receive? && step.id == id && TakesReply(s.f, id) && s.f.responses[id].status == CANCELED
  }

  /** What a consistent entry says about the RPC it belongs to. */
  lemma EntryFacts(s: State, id: MessageId)
    requires Inv(s) && id in s.f.responses
    ensures id in s.rpcs && id < s.f.nextMessageId
    ensures s.f.responses[id].status == WAITING ==> s.rpcs[id].status == NOT_READY && !s.rpcs[id].cancelling
    ensures s.f.responses[id].status == CANCELED ==> s.rpcs[id].status != NOT_READY || s.rpcs[id].cancelling
  {
    assert Consistent(s.f, id, s.rpcs[id], s.clock, s.firstReply);
  }

  lemma OutlivesReceive(s: State, received: MessageId, message: Buffer, id: MessageId)
    requires Inv(s)
    ensures Outlives(OnReceive(s, received, message), id) <==>
      Outlives(s, id) || RepliesLate(s, Receive(received, message), id)
  {
    if id in s.f.responses {
      EntryFacts(s, id);
    }
    hide Inv, Schedule, Decrement;
  }

  lemma OutlivesRefresh(s: State, polled: MessageId, id: MessageId)
    requires Free(s, polled)
    ensures polled in Refresh(s, polled).rpcs
    ensures Outlives(Refresh(s, polled), id) <==> Outlives(s, id)
  {
  }

  lemma OutlivesOwner(s: State, owned: MessageId, owner: Owner, id: MessageId)
    requires owned in s.rpcs
    ensures Outlives(SetOwner(s, owned, owner), id) <==> Outlives(s, id)
  {
  }

  lemma OutlivesCancel(s: State, cancelled: MessageId, id: MessageId)
    requires Inv(s) && Enabled(s, CancelBegins(cancelled))
    ensures Outlives(OnCancel(s, cancelled), id) <==> Outlives(s, id)
  {
    assert Consistent(s.f, cancelled, s.rpcs[cancelled], s.clock, s.firstReply);
    hide Inv, Consistent;
  }

  lemma OutlivesWait(s: State, waiter: MessageId, id: MessageId)
    requires Enabled(s, WaitPasses(waiter))
    ensures Outlives(OnWaitPass(s, waiter), id) <==> Outlives(s, id)
  {
    hide KeepsWaiting;
  }

  /** The steps that replace one RPC and leave the other RPCs' entries alone. */
  lemma OutlivesOwn(s: State, step: Step, id: MessageId)
    requires Inv(s) && Enabled(s, step) && (step.Send? || step.CancelEnds? || step.WaitBegins? || step.Decide?)
    ensures Outlives(Apply(s, step), id) <==> Outlives(s, id)
  {
    if id in s.f.responses {
      EntryFacts(s, id);
    }
    hide Inv, Schedule, Increment, Refresh, OnReceive, OnCancel, OnWaitPass, TimerEvent;
  }

  lemma OutlivesStep(s: State, step: Step, id: MessageId)
    requires Inv(s) && Enabled(s, step)
    ensures Outlives(Apply(s, step), id) <==> Outlives(s, id) || RepliesLate(s, step, id)
  {
    hide Inv, Refresh, OnReceive, OnCancel, OnWaitPass, Requested, Abandon;
    match step
    case Receive(received, message) => OutlivesReceive(s, received, message, id);
    case CancelBegins(cancelled) => OutlivesCancel(s, cancelled, id);
    case Poll(polled) => OutlivesRefresh(s, polled, id);
    case WaitUpdates(polled) =>
      OutlivesRefresh(s, polled, id);
      OutlivesOwner(Refresh(s, polled), polled, Asking(s.rpcs[polled].owner.timeout), id);
    case AskStatus(polled) =>
      OutlivesRefresh(s, polled, id);
      OutlivesOwner(Refresh(s, polled), polled, Apply(s, step).rpcs[polled].owner, id);
    case WaitPasses(waiter) => OutlivesWait(s, waiter, id);
    case Disconnect =>
    case TimerFires =>
    case TimerRuns =>
    case Tick =>
    case _ => OutlivesOwn(s, step, id);
  }

  lemma LateStep(s: State, step: Step)
    requires Enabled(s, step)
    ensures Apply(s, step).repliedLate ==
            if step.Receive? && RepliesLate(s, step, step.id) then s.repliedLate + 1 else s.repliedLate
  {
    hide Received, Waited, Updated, Cancelled, Requested, TimerEvent;
  }

  lemma LeakedAfter(s: State, s': State, late: set<MessageId>)
    requires forall id :: Outlives(s', id) <==> Outlives(s, id) || id in late
    ensures Leaked(s') == Leaked(s) + late
  {
    forall id ensures id in Leaked(s') <==> id in Leaked(s) || id in late {
      assert Outlives(s', id) <==> Outlives(s, id) || id in late;
    }
  }

  lemma LeakGrows(s: State, step: Step)
    requires Inv(s) && Enabled(s, step)
    ensures Leaked(s) <= Leaked(Apply(s, step))
    ensures |Leaked(Apply(s, step))| - |Leaked(s)| == Apply(s, step).repliedLate - s.repliedLate
  {
    hide Inv, Apply, Enabled, Leaked;
    LateStep(s, step);
    var late := if step.Receive? && RepliesLate(s, step, step.id) then {step.id} else {};
    if late != {} {
      LateIsNotLeaked(s, step);
    }
    hide Outlives;
    forall id ensures Outlives(Apply(s, step), id) <==> Outlives(s, id) || id in late {
      OutlivesStep(s, step, id);
    }
    LeakedAfter(s, Apply(s, step), late);
  }

  lemma LateIsNotLeaked(s: State, step: Step)
    requires step.Receive? && RepliesLate(s, step, step.id)
    ensures step.id !in Leaked(s)
  {
  }

  /** Exactly one entry is left behind for each reply that found a cancelled entry;
      no other course of events leaves one behind, and nothing removes it. */
  lemma {:induction false} ExactLeak(states: seq<State>, steps: seq<Step>, i: nat)
    requires IsRun(states, steps) && i < |states|
    ensures |Leaked(states[i])| == states[i].repliedLate
    ensures i > 0 ==> Leaked(states[i - 1]) <= Leaked(states[i])
  {
    hide Inv, Apply, Enabled, Outlives;
    if i > 0 {
      ExactLeak(states, steps, i - 1);
      RunKeepsInv(states, steps, i - 1);
      LeakGrows(states[i - 1], steps[i - 1]);
      assert states[i - 1 + 1] == Apply(states[i - 1], steps[i - 1]);
    } else {
      assert Leaked(states[0]) == {};
    }
  }

  /** The only RPC's owner sleeps until its reply arrives. */
  ghost predicate OwnerAsleep(s: State) {
    && s.rpcs.Keys == {0} && s.rpcs[0].status == NOT_READY && s.rpcs[0].hasSession && !s.rpcs[0].cancelling
    && s.f.responses == map[0 := Response(WAITING, [], true)] && !s.fired
  }

  lemma FallsAsleep(s0: State) returns (s1: State, s2: State, s3: State)
    requires Initial(s0) && s0.f.errorMessage == ""
    ensures Enabled(s0, Send) && s1 == Apply(s0, Send)
    ensures Enabled(s1, WaitBegins(0, s0.clock)) && s2 == Apply(s1, WaitBegins(0, s0.clock))
    ensures Enabled(s2, WaitPasses(0)) && s3 == Apply(s2, WaitPasses(0)) && OwnerAsleep(s3)
  {
    s1 := Apply(s0, Send);
    s2 := Apply(s1, WaitBegins(0, s0.clock));
    s3 := Apply(s2, WaitPasses(0));
  }

  lemma ReplyAfterCancel(s3: State) returns (s4: State, s5: State, s6: State)
    requires OwnerAsleep(s3)
    ensures Enabled(s3, CancelBegins(0)) && s4 == Apply(s3, CancelBegins(0))
    ensures Enabled(s4, CancelEnds(0)) && s5 == Apply(s4, CancelEnds(0))
    ensures Enabled(s5, Receive(0, [])) && s6 == Apply(s5, Receive(0, [])) && Leaked(s6) == {0}
  {
    s4 := Apply(s3, CancelBegins(0));
    s5 := Apply(s4, CancelEnds(0));
    s6 := Apply(s5, Receive(0, []));
    assert s6.rpcs.Keys == {0} && Outlives(s6, 0);
  }

  /** It does happen: the owner sleeps, another thread cancels, and the reply arrives
      before the owner has woken up. */
  lemma LateReplyLeaks(s0: State)
    requires Initial(s0) && s0.f.errorMessage == ""
    ensures var steps := [Send, WaitBegins(0, s0.clock), WaitPasses(0), CancelBegins(0), CancelEnds(0), Receive(0, [])];
      exists states: seq<State> :: IsRun(states, steps) && states[0] == s0 && Leaked(states[6]) == {0}
  {
    hide Apply, Enabled, Leaked, OwnerAsleep;
    var s1, s2, s3 := FallsAsleep(s0);
    var s4, s5, s6 := ReplyAfterCancel(s3);
    assert IsRun([s0, s1, s2, s3, s4, s5, s6],
                 [Send, WaitBegins(0, s0.clock), WaitPasses(0), CancelBegins(0), CancelEnds(0), Receive(0, [])]);
  }
}
