/** The reentrant lock of Event/Loop.cc, which parks the event loop's thread
    while other threads hold a Lock.

    The first half gives each critical section of `Loop::mutex` as a function on
    the protected fields, and the class `Loop` whose methods run those sections on
    mutable fields.  The second half is a state machine over any number of threads
    whose atomic steps are those critical sections, the condition-variable wake-ups
    (including spurious ones) and the event loop's moves between epoll_wait and the
    handlers.  The theorems are about every run of that machine. */
module EventLoop {

  type ThreadId = nat

  /** Core::ThreadId::NONE. */
  const NONE: ThreadId := 0

  // ---------------------------------------------------------------------------
  // Critical sections
  // ---------------------------------------------------------------------------

  datatype Fields = Fields(
    runningThread: ThreadId,
    lockOwner: ThreadId,
    numLocks: int,
    numActiveLocks: int,
    shouldExit: bool)

  datatype LoopOutcome = Park | Exit | Dispatch

  datatype Signal = Nobody | Unlocked | SafeToLock

  /** The calling thread already excludes everyone else: it runs the event loop or
      is locking recursively. */
  predicate Reenters(f: Fields, me: ThreadId) {
    f.runningThread == me || f.lockOwner == me
  }

  /** The condition on which a Lock constructor stops waiting. */
  predicate SafeToTake(f: Fields) {
    f.runningThread == NONE && f.lockOwner == NONE
  }

  /** The Lock constructor, up to its return or its first wait. */
  function EnterLock(f: Fields, me: ThreadId): (Fields, bool) {
    var g := f.(numLocks := f.numLocks + 1);
    if Reenters(g, me) then
      (g.(numActiveLocks := g.numActiveLocks + 1), true)
    else
      RetryLock(g, me)
  }

  /** One evaluation of the Lock constructor's wait condition. */
  function RetryLock(f: Fields, me: ThreadId): (Fields, bool) {
    if SafeToTake(f) then
      (f.(lockOwner := me, numActiveLocks := f.numActiveLocks + 1), true)
    else
      (f, false)
  }

  /** The Lock destructor, with the condition variable it signals. */
  function LeaveLock(f: Fields): (Fields, Signal) {
    var g := f.(numLocks := f.numLocks - 1, numActiveLocks := f.numActiveLocks - 1);
    if g.numActiveLocks != 0 then
      (g, Nobody)
    else
      (g.(lockOwner := NONE), if g.numLocks == 0 then Unlocked else SafeToLock)
  }

  /** The top of runForever, up to its return, its next wait or the next epoll_wait. */
  function LoopTop(f: Fields, me: ThreadId): (Fields, LoopOutcome) {
    var g := f.(runningThread := NONE);
    if g.numLocks > 0 then
      (g, Park)
    else if g.shouldExit then
      (g.(shouldExit := false), Exit)
    else
      (g.(runningThread := me), Dispatch)
  }

  /** The body of exit, which holds a Lock. */
  function Asked(f: Fields): Fields {
    f.(shouldExit := true)
  }

  /** The same sections as they are written: on mutable fields. */
  class Loop {
    var runningThread: ThreadId
    var lockOwner: ThreadId
    var numLocks: int
    var numActiveLocks: int
    var shouldExit: bool

    function View(): Fields
      reads this
    {
      Fields(runningThread, lockOwner, numLocks, numActiveLocks, shouldExit)
    }

    constructor ()
      ensures View() == Initial().f
    {
      runningThread, lockOwner := NONE, NONE;
      numLocks, numActiveLocks := 0, 0;
      shouldExit := false;
    }

    method BeginLock(me: ThreadId) returns (acquired: bool, armed: bool)
      modifies this
      ensures (View(), acquired) == EnterLock(old(View()), me)
      ensures armed <==> !old(Reenters(View(), me)) && old(runningThread) != NONE
    {
      armed := false;
      numLocks := numLocks + 1;
      if runningThread != me && lockOwner != me {
        if runningThread != NONE {
          armed := true;
        }
        if runningThread != NONE || lockOwner != NONE {
          return false, armed;
        }
        lockOwner := me;
      }
      numActiveLocks := numActiveLocks + 1;
      acquired := true;
    }

    method AwakenLock(me: ThreadId) returns (acquired: bool)
      modifies this
      ensures (View(), acquired) == RetryLock(old(View()), me)
    {
      if runningThread != NONE || lockOwner != NONE {
        return false;
      }
      lockOwner := me;
      numActiveLocks := numActiveLocks + 1;
      acquired := true;
    }

    method EndLock() returns (signal: Signal)
      modifies this
      ensures (View(), signal) == LeaveLock(old(View()))
    {
      signal := Nobody;
      numLocks := numLocks - 1;
      numActiveLocks := numActiveLocks - 1;
      if numActiveLocks == 0 {
        lockOwner := NONE;
        if numLocks == 0 {
          signal := Unlocked;
        } else {
          signal := SafeToLock;
        }
      }
    }

    method RunTop(me: ThreadId) returns (outcome: LoopOutcome)
      modifies this
      ensures (View(), outcome) == LoopTop(old(View()), me)
    {
      runningThread := NONE;
      if numLocks > 0 {
        return Park;
      }
      if shouldExit {
        shouldExit := false;
        return Exit;
      }
      runningThread := me;
      outcome := Dispatch;
    }

    /** exit, between taking and releasing its Lock. */
    method RequestExit()
      modifies this
      ensures View() == Asked(old(View()))
    {
      shouldExit := true;
    }
  }

  // ---------------------------------------------------------------------------
  // The machine
  // ---------------------------------------------------------------------------

  /** Where the thread executing runForever is. */
  datatype LoopPhase = Away | Polling | Handling | Parked(awake: bool)

  datatype State = State(
    f: Fields,
    blocked: set<ThreadId>,        // waiting in a Lock constructor
    awake: set<ThreadId>,          // those of them that were signalled and are about to retry
    held: map<ThreadId, nat>,      // Lock objects each thread has constructed
    loopThread: ThreadId,          // the thread inside runForever
    phase: LoopPhase,
    round: nat,                    // dispatch rounds begun so far
    armedIn: map<ThreadId, nat>,   // the round in which a blocked thread scheduled breakTimer
    breakPending: bool)            // breakTimer was scheduled and epoll_wait has not reported it

  datatype Step =
    | LockCall(t: ThreadId)
    | LockRetry(t: ThreadId)
    | Unlock(t: ThreadId, w: ThreadId)
    | RequestExit(t: ThreadId)
    | RunForever(t: ThreadId, w: ThreadId)
    | PollReturns(timer: bool)
    | RoundEnds(w: ThreadId)
    | LoopRetry(w: ThreadId)
    | SpuriousLocker(t: ThreadId)
    | SpuriousLoop

  function Initial(): State {
    State(Fields(NONE, NONE, 0, 0, false), {}, {}, map[], NONE, Away, 0, map[], false)
  }

  function Held(s: State, t: ThreadId): nat {
    if t in s.held then s.held[t] else 0
  }

  predicate Dispatching(s: State) {
    s.phase.Polling? || s.phase.Handling?
  }

  /** The thread is executing its own code: neither blocked in a Lock constructor,
      nor in epoll_wait, nor parked. */
  predicate Active(s: State, t: ThreadId) {
    && t != NONE
    && t !in s.blocked
    && (s.phase.Away? || t != s.loopThread || s.phase.Handling?)
  }

  /** `w` is a thread that notify_one on safeToLock may wake. */
  predicate Wakes(s: State, w: ThreadId) {
    s.blocked != s.awake ==> w in s.blocked - s.awake
  }

  predicate Enabled(s: State, step: Step) {
    match step
    case LockCall(t) => Active(s, t)
    case LockRetry(t) => t in s.awake
    case Unlock(t, w) => Active(s, t) && Held(s, t) > 0 && Wakes(s, w)
    case RequestExit(t) => Active(s, t) && Held(s, t) > 0
    case RunForever(t, w) => s.phase.Away? && Active(s, t) && Held(s, t) == 0 && Wakes(s, w)
    case PollReturns(timer) => s.phase.Polling? && (timer ==> s.breakPending)
    case RoundEnds(w) => Dispatching(s) && Held(s, s.loopThread) == 0 && Wakes(s, w)
    case LoopRetry(w) => s.phase == Parked(true) && Wakes(s, w)
    case SpuriousLocker(t) => t in s.blocked
    case SpuriousLoop => s.phase.Parked?
  }

  /** notify_one on safeToLock. */
  function NotifyLocker(s: State, w: ThreadId): State {
    if w in s.blocked then s.(awake := s.awake + {w}) else s
  }

  /** notify_one on unlocked, on which only the parked loop waits. */
  function NotifyLoop(s: State): State {
    if s.phase.Parked? then s.(phase := Parked(true)) else s
  }

  function Deliver(s: State, signal: Signal, w: ThreadId): State {
    match signal
    case Nobody => s
    case Unlocked => NotifyLoop(s)
    case SafeToLock => NotifyLocker(s, w)
  }

  function Acquire(s: State, f: Fields, t: ThreadId): State {
    s.(f := f, held := s.held[t := Held(s, t) + 1])
  }

  /** The loop's thread runs the top of runForever. */
  function AtTop(s: State, t: ThreadId, w: ThreadId): State {
    var (f, outcome) := LoopTop(s.f, t);
    match outcome
    case Park => NotifyLocker(s.(f := f, loopThread := t, phase := Parked(false)), w)
    case Exit => s.(f := f, loopThread := NONE, phase := Away)
    case Dispatch => s.(f := f, loopThread := t, phase := Polling, round := s.round + 1)
  }

  function Apply(s: State, step: Step): State {
    match step
    case LockCall(t) =>
      var (f, acquired) := EnterLock(s.f, t);
      if acquired then Acquire(s, f, t)
      else if s.f.runningThread != NONE then
        s.(f := f, blocked := s.blocked + {t}, armedIn := s.armedIn[t := s.round], breakPending := true)
      else
        s.(f := f, blocked := s.blocked + {t}, armedIn := s.armedIn - {t})
    case LockRetry(t) =>
      var (f, acquired) := RetryLock(s.f, t);
      var retried := s.(awake := s.awake - {t});
      if acquired then Acquire(retried.(blocked := s.blocked - {t}), f, t)
      else retried.(f := f)
    case Unlock(t, w) =>
      var (f, signal) := LeaveLock(s.f);
      Deliver(s.(f := f, held := s.held[t := if Held(s, t) > 0 then Held(s, t) - 1 else 0]), signal, w)
    case RequestExit(t) => s.(f := Asked(s.f))
    case RunForever(t, w) => AtTop(s, t, w)
    case PollReturns(timer) =>
      s.(phase := Handling, breakPending := s.breakPending && !timer)
    case RoundEnds(w) => AtTop(s, s.loopThread, w)
    case LoopRetry(w) => AtTop(s, s.loopThread, w)
    case SpuriousLocker(t) => NotifyLocker(s, t)
    case SpuriousLoop => NotifyLoop(s)
  }

  /** `states` is a run of the machine that takes `steps` in order. */
  ghost predicate IsRun(states: seq<State>, steps: seq<Step>) {
    && |states| == |steps| + 1
    && states[0] == Initial()
    && forall i :: 0 <= i < |steps| ==>
         Enabled(states[i], steps[i]) && states[i + 1] == Apply(states[i], steps[i])
  }

  // ---------------------------------------------------------------------------
  // The invariant
  // ---------------------------------------------------------------------------

  /** The only thread allowed to have Locks. */
  function Holder(f: Fields): ThreadId {
    if f.runningThread != NONE then f.runningThread else f.lockOwner
  }

  ghost predicate WellFormed(s: State) {
    && s.awake <= s.blocked
    && NONE !in s.blocked
    && (Dispatching(s) ==> s.f.runningThread == s.loopThread)
    && (!Dispatching(s) ==> s.f.runningThread == NONE)
    && (!s.phase.Away? ==> s.loopThread != NONE && s.loopThread !in s.blocked)
    && (s.phase.Polling? || s.phase.Parked? ==> Held(s, s.loopThread) == 0)
  }

  /** All Locks belong to one thread, and the counters count. */
  ghost predicate Exclusive(s: State) {
    && !(s.f.runningThread != NONE && s.f.lockOwner != NONE)
    && (forall t :: Held(s, t) > 0 ==> t == Holder(s.f))
    && Held(s, NONE) == 0
    && (s.f.lockOwner != NONE ==> Held(s, s.f.lockOwner) > 0)
    && (forall t :: t in s.blocked ==> Held(s, t) == 0)
    && s.f.numActiveLocks == Held(s, Holder(s.f))
    && s.f.numLocks == s.f.numActiveLocks + |s.blocked|
  }

  /** No wake-up is lost. */
  ghost predicate Live(s: State) {
    && (SafeToTake(s.f) && s.blocked != {} ==> s.awake != {})
    && (s.phase.Parked? && s.f.numLocks == 0 ==> s.phase.awake)
    && (Dispatching(s) ==> forall t :: t in s.blocked ==> t in s.armedIn && s.armedIn[t] == s.round)
    && (s.phase.Polling? && s.blocked != {} ==> s.breakPending)
  }

  ghost predicate Inv(s: State) {
    WellFormed(s) && Exclusive(s) && Live(s)
  }

  lemma AcquireKeepsInv(s: State, f: Fields, t: ThreadId)
    requires Inv(s) && Active(s, t)
    requires f == s.f.(lockOwner := f.lockOwner, numLocks := s.f.numLocks + 1, numActiveLocks := s.f.numActiveLocks + 1)
    requires (Holder(s.f) == t && f.lockOwner == s.f.lockOwner) || (SafeToTake(s.f) && f.lockOwner == t)
    ensures Inv(Acquire(s, f, t))
  {
    var s' := Acquire(s, f, t);
    assert forall u :: Held(s', u) == if u == t then Held(s, t) + 1 else Held(s, u);
  }

  lemma BlockKeepsInv(s: State, t: ThreadId)
    requires Inv(s) && Active(s, t) && !EnterLock(s.f, t).1
    ensures Inv(Apply(s, LockCall(t)))
  {
    var s' := Apply(s, LockCall(t));
    assert forall u :: Held(s', u) == Held(s, u);
    assert s'.blocked == s.blocked + {t};
    assert s'.f == s.f.(numLocks := s.f.numLocks + 1);
  }

  lemma LockRetryKeepsInv(s: State, t: ThreadId)
    requires Inv(s) && Enabled(s, LockRetry(t))
    ensures Inv(Apply(s, LockRetry(t)))
  {
    var s' := Apply(s, LockRetry(t));
    if RetryLock(s.f, t).1 {
      assert forall u :: Held(s', u) == if u == t then 1 else Held(s, u);
      assert s'.blocked == s.blocked - {t};
    } else {
      assert forall u :: Held(s', u) == Held(s, u);
    }
  }

  lemma UnlockKeepsInv(s: State, t: ThreadId, w: ThreadId)
    requires Inv(s) && Enabled(s, Unlock(t, w))
    ensures Inv(Apply(s, Unlock(t, w)))
  {
    var s' := Apply(s, Unlock(t, w));
    assert forall u :: Held(s', u) == if u == t then Held(s, t) - 1 else Held(s, u);
    if Held(s, t) > 1 {
      assert s' == s.(f := s'.f, held := s'.held);
    } else if s.blocked == {} {
      assert s'.f.numLocks == 0;
    } else {
      assert s'.f.numLocks == |s.blocked| > 0;
      assert s' == NotifyLocker(s.(f := s'.f, held := s'.held), w);
    }
  }

  /** `t` may run the top of runForever. */
  ghost predicate MayRun(s: State, t: ThreadId) {
    && Inv(s)
    && t != NONE && t !in s.blocked && Held(s, t) == 0
    && (s.phase.Away? || t == s.loopThread)
  }

  lemma ParkKeepsInv(s: State, t: ThreadId, w: ThreadId)
    requires MayRun(s, t) && Wakes(s, w) && s.f.numLocks > 0
    ensures Inv(AtTop(s, t, w))
  {
    var s' := AtTop(s, t, w);
    assert s' == NotifyLocker(s.(f := s.f.(runningThread := NONE), loopThread := t, phase := Parked(false)), w);
    assert forall u :: Held(s', u) == Held(s, u);
  }

  lemma PassKeepsInv(s: State, t: ThreadId, w: ThreadId)
    requires MayRun(s, t) && s.f.numLocks == 0
    ensures Inv(AtTop(s, t, w))
  {
    var s' := AtTop(s, t, w);
    assert s'.blocked == s.blocked == {};
    assert forall u :: Held(s', u) == Held(s, u);
  }

  lemma AtTopKeepsInv(s: State, t: ThreadId, w: ThreadId)
    requires MayRun(s, t) && Wakes(s, w)
    ensures Inv(AtTop(s, t, w))
  {
    if s.f.numLocks > 0 {
      ParkKeepsInv(s, t, w);
    } else {
      PassKeepsInv(s, t, w);
    }
  }

  lemma StepKeepsInv(s: State, step: Step)
    requires Inv(s) && Enabled(s, step)
    ensures Inv(Apply(s, step))
  {
    match step
    case LockCall(t) =>
      if EnterLock(s.f, t).1 {
        AcquireKeepsInv(s, EnterLock(s.f, t).0, t);
      } else {
        BlockKeepsInv(s, t);
      }
    case LockRetry(t) => LockRetryKeepsInv(s, t);
    case Unlock(t, w) => UnlockKeepsInv(s, t, w);
    case RunForever(t, w) => AtTopKeepsInv(s, t, w);
    case RoundEnds(w) => AtTopKeepsInv(s, s.loopThread, w);
    case LoopRetry(w) => AtTopKeepsInv(s, s.loopThread, w);
    case _ => assert forall u :: Held(Apply(s, step), u) == Held(s, u);
  }

  lemma {:induction false} RunKeepsInv(states: seq<State>, steps: seq<Step>, i: nat)
    requires IsRun(states, steps) && i < |states|
    ensures Inv(states[i])
  {
    if i > 0 {
      RunKeepsInv(states, steps, i - 1);
      StepKeepsInv(states[i - 1], steps[i - 1]);
    }
  }

  lemma RunStep(states: seq<State>, steps: seq<Step>, i: nat)
    requires IsRun(states, steps) && i + 1 < |states|
    ensures |states| == |steps| + 1 && Enabled(states[i], steps[i]) && states[i + 1] == Apply(states[i], steps[i])
  {
    hide Apply, Enabled;
  }

  // ---------------------------------------------------------------------------
  // What every run guarantees
  // ---------------------------------------------------------------------------

  /** The contract written on Loop::Lock: a thread with a Lock is the event loop's
      thread, or no other thread has a Lock and no handler is active.  Only that
      thread gets a further Lock without waiting. */
  lemma LockContract(states: seq<State>, steps: seq<Step>, i: nat, t: ThreadId)
    requires IsRun(states, steps) && i < |states| && Held(states[i], t) > 0
    ensures var s := states[i];
      && (forall u :: u != t ==> Held(s, u) == 0)
      && (Dispatching(s) ==> t == s.loopThread == s.f.runningThread)
      && (!Dispatching(s) ==> t == s.f.lockOwner && s.f.runningThread == NONE)
      && s.f.numActiveLocks == Held(s, t)
      && s.f.numLocks == Held(s, t) + |s.blocked|
      && (forall u :: u != NONE ==> (EnterLock(s.f, u).1 <==> u == t))
  {
    RunKeepsInv(states, steps, i);
  }

  /** What the constructor and the destructor of a Lock do: the constructor returns at once
      with one more Lock if its thread runs the loop or has a Lock already, or if nobody
      does, and blocks otherwise; the destructor takes one Lock away; and neither touches
      the Locks of other threads. */
  lemma LocksComeAndGo(states: seq<State>, steps: seq<Step>, i: nat, u: ThreadId)
    requires IsRun(states, steps) && i < |steps|
    ensures var s, s' := states[i], states[i + 1];
      match steps[i]
      case LockCall(t) =>
        var free := Holder(s.f) in {t, NONE};
        && Held(s', u) == Held(s, u) + (if u == t && free then 1 else 0)
        && s'.blocked == if free then s.blocked else s.blocked + {t}
      case LockRetry(t) =>
        && Held(s', u) == Held(s, u) + (if u == t && SafeToTake(s.f) then 1 else 0)
        && s'.blocked == if SafeToTake(s.f) then s.blocked - {t} else s.blocked
      case Unlock(t, w) =>
        Held(s', u) == Held(s, u) - (if u == t then 1 else 0) && s'.blocked == s.blocked
      case _ => Held(s', u) == Held(s, u) && s'.blocked == s.blocked
  {
    RunKeepsInv(states, steps, i);
    RunStep(states, steps, i);
    hide IsRun;
    LockEffect(states[i], steps[i], u);
  }

  lemma LockEffect(s: State, step: Step, u: ThreadId)
    requires Inv(s) && Enabled(s, step)
    ensures var s' := Apply(s, step);
      match step
      case LockCall(t) =>
        var free := Holder(s.f) in {t, NONE};
        && Held(s', u) == Held(s, u) + (if u == t && free then 1 else 0)
        && s'.blocked == if free then s.blocked else s.blocked + {t}
      case LockRetry(t) =>
        && Held(s', u) == Held(s, u) + (if u == t && SafeToTake(s.f) then 1 else 0)
        && s'.blocked == if SafeToTake(s.f) then s.blocked - {t} else s.blocked
      case Unlock(t, w) =>
        Held(s', u) == Held(s, u) - (if u == t then 1 else 0) && s'.blocked == s.blocked
      case _ => Held(s', u) == Held(s, u) && s'.blocked == s.blocked
  {
    hide Live;
  }

  /** In every reachable state a wake-up that somebody depends on is on its way. */
  lemma NoLostWakeup(states: seq<State>, steps: seq<Step>, i: nat)
    requires IsRun(states, steps) && i < |states|
    ensures var s := states[i];
      && (s.f.runningThread == NONE || s.f.lockOwner == NONE)
      && (SafeToTake(s.f) && s.blocked != {} ==> exists t :: t in s.blocked && t in s.awake)
      && (s.phase.Parked? && s.f.numLocks == 0 ==> s.phase.awake)
      && (Dispatching(s) ==> forall t :: t in s.blocked ==> t in s.armedIn && s.armedIn[t] == s.round)
      && (s.phase.Polling? && s.blocked != {} ==> Enabled(s, PollReturns(true)))
  {
    RunKeepsInv(states, steps, i);
    var s := states[i];
    if SafeToTake(s.f) && s.blocked != {} {
      var t :| t in s.awake;
      assert t in s.blocked;
    }
  }

  /** The step finishes something already begun: it is neither a new request nor a
      spurious wake-up. */
  predicate Finishing(step: Step) {
    step.LockRetry? || step.Unlock? || step.PollReturns? || step.RoundEnds? || step.LoopRetry?
  }

  ghost predicate Executes(s: State, steps: seq<Step>, s': State)
    decreases |steps|
  {
    if steps == [] then s == s'
    else Finishing(steps[0]) && Enabled(s, steps[0]) && Executes(Apply(s, steps[0]), steps[1..], s')
  }

  /** Work left before a blocked thread can take the lock. */
  function Distance(s: State): nat {
    if s.phase.Polling? then Held(s, Holder(s.f)) + 3
    else if s.phase.Handling? then Held(s, Holder(s.f)) + 2
    else Held(s, Holder(s.f)) + 1
  }

  /** The finishing step that brings a blocked thread closer to its Lock. */
  lemma NextStep(s: State) returns (step: Step)
    requires Inv(s) && s.blocked != {}
    ensures Finishing(step) && Enabled(s, step)
    ensures var s' := Apply(s, step);
      if Distance(s) == 1 then s'.f.lockOwner in s.blocked
      else s'.blocked == s.blocked && Distance(s') < Distance(s)
  {
    var w := SomeLocker(s);
    var holder := Holder(s.f);
    if s.phase.Polling? {
      step := PollReturns(true);
      assert Held(Apply(s, step), holder) == Held(s, holder);
    } else if Held(s, holder) > 0 {
      step := Unlock(holder, w);
      UnlockShortens(s, w);
    } else if s.phase.Handling? {
      step := RoundEnds(w);
    } else {
      var t :| t in s.awake;
      step := LockRetry(t);
    }
  }

  lemma UnlockShortens(s: State, w: ThreadId)
    requires Inv(s) && s.blocked != {} && Wakes(s, w) && Held(s, Holder(s.f)) > 0
    ensures Enabled(s, Unlock(Holder(s.f), w))
    ensures var s' := Apply(s, Unlock(Holder(s.f), w));
      s'.blocked == s.blocked && s'.phase == s.phase && Distance(s') < Distance(s)
  {
    var holder := Holder(s.f);
    var s' := Apply(s, Unlock(holder, w));
    UnlockKeepsInv(s, holder, w);
    assert Held(s', holder) == Held(s, holder) - 1;
  }

  /** No deadlock: wherever some Lock constructor is blocked, threads that only
      finish what they have begun let a blocked one through, without any help from
      spurious wake-ups and within a bounded number of steps. */
  lemma {:induction false} BlockedGetsThrough(s: State) returns (steps: seq<Step>, s': State)
    requires Inv(s) && s.blocked != {}
    ensures Executes(s, steps, s') && |steps| <= Distance(s)
    ensures s'.f.lockOwner in s.blocked && Held(s', s'.f.lockOwner) > 0 && Inv(s')
    decreases Distance(s)
  {
    var step := NextStep(s);
    var next := Apply(s, step);
    StepKeepsInv(s, step);
    if Distance(s) == 1 {
      steps, s' := [step], next;
      assert Executes(next, [], next);
      assert [step][1..] == [];
    } else {
      var rest;
      rest, s' := BlockedGetsThrough(next);
      steps := [step] + rest;
      assert steps[1..] == rest;
    }
  }

  /** The step makes runForever return. */
  predicate Returns(s: State, step: Step) {
    (step.RunForever? || step.RoundEnds? || step.LoopRetry?) && Apply(s, step).phase.Away?
  }

  lemma ExitStep(s: State, step: Step)
    requires Enabled(s, step) && s.f.shouldExit
    ensures Apply(s, step).round == s.round
    ensures Apply(s, step).f.shouldExit <==> !Returns(s, step)
  {
  }

  /** Once exit() has set the flag, no new dispatch round begins until runForever
      returns, which is also the only thing that clears the flag. */
  lemma {:induction false} ExitStopsTheLoop(states: seq<State>, steps: seq<Step>, i: nat, j: nat)
    requires IsRun(states, steps) && i <= j < |states| && states[i].f.shouldExit
    requires forall k :: i <= k < j ==> !Returns(states[k], steps[k])
    ensures states[j].f.shouldExit && states[j].round == states[i].round
    decreases j
  {
    if i < j {
      ExitStopsTheLoop(states, steps, i, j - 1);
      ExitStep(states[j - 1], steps[j - 1]);
      assert states[j - 1 + 1] == Apply(states[j - 1], steps[j - 1]);
    }
  }

  lemma ExitStepIsNotPolling(s: State, step: Step)
    requires Inv(s) && Enabled(s, step) && (s.f.shouldExit ==> !s.phase.Polling?)
    ensures Apply(s, step).f.shouldExit ==> !Apply(s, step).phase.Polling?
  {
    hide Exclusive, Live;
    if step.RequestExit? {
      HolderIsNotPolling(s, step.t);
    }
  }

  lemma HolderIsNotPolling(s: State, t: ThreadId)
    requires Inv(s) && Held(s, t) > 0
    ensures !s.phase.Polling?
  {
  }

  /** The flag is never set while the loop's thread is in epoll_wait, or about to enter it. */
  lemma {:induction false} ExitIsNotMissed(states: seq<State>, steps: seq<Step>, i: nat)
    requires IsRun(states, steps) && i < |states|
    ensures states[i].f.shouldExit ==> !states[i].phase.Polling?
  {
    if i > 0 {
      hide Inv, Apply, Enabled;
      ExitIsNotMissed(states, steps, i - 1);
      RunKeepsInv(states, steps, i - 1);
      ExitStepIsNotPolling(states[i - 1], steps[i - 1]);
      assert states[i - 1 + 1] == Apply(states[i - 1], steps[i - 1]);
    }
  }

  /** Work left before runForever can return. */
  function ExitDistance(s: State): nat {
    2 * |s.blocked| + Held(s, Holder(s.f)) + if s.phase.Handling? then 2 else 1
  }

  ghost predicate Exiting(s: State) {
    Inv(s) && s.f.shouldExit && !s.phase.Away? && !s.phase.Polling?
  }

  /** A thread that notify_one may wake. */
  lemma SomeLocker(s: State) returns (w: ThreadId)
    requires s.awake <= s.blocked
    ensures Wakes(s, w)
  {
    w := NONE;
    if s.blocked != s.awake {
      assert !(s.blocked <= s.awake);
      w :| w in s.blocked && w !in s.awake;
    }
  }

  /** The finishing step that brings runForever closer to its return. */
  lemma ExitNextStep(s: State) returns (step: Step)
    requires Exiting(s)
    ensures Finishing(step) && Enabled(s, step)
    ensures Returns(s, step) || (Exiting(Apply(s, step)) && ExitDistance(Apply(s, step)) < ExitDistance(s))
  {
    var w := SomeLocker(s);
    var holder := Holder(s.f);
    if Held(s, holder) > 0 {
      step := Unlock(holder, w);
      UnlockNearsExit(s, w);
    } else if s.phase.Handling? {
      step := RoundEnds(w);
      RoundEndNearsExit(s, w);
    } else if s.blocked != {} {
      var t :| t in s.awake;
      step := LockRetry(t);
      RetryNearsExit(s, t);
    } else {
      step := LoopRetry(w);
    }
  }

  lemma UnlockNearsExit(s: State, w: ThreadId)
    requires Exiting(s) && Wakes(s, w) && Held(s, Holder(s.f)) > 0
    ensures Enabled(s, Unlock(Holder(s.f), w))
    ensures var s' := Apply(s, Unlock(Holder(s.f), w)); Exiting(s') && ExitDistance(s') < ExitDistance(s)
  {
    var holder := Holder(s.f);
    var s' := Apply(s, Unlock(holder, w));
    UnlockKeepsInv(s, holder, w);
    assert Held(s', holder) == Held(s, holder) - 1;
  }

  lemma RoundEndNearsExit(s: State, w: ThreadId)
    requires Exiting(s) && Wakes(s, w) && s.phase.Handling? && Held(s, Holder(s.f)) == 0
    ensures Enabled(s, RoundEnds(w))
    ensures var s' := Apply(s, RoundEnds(w));
      Returns(s, RoundEnds(w)) || (Exiting(s') && ExitDistance(s') < ExitDistance(s))
  {
    StepKeepsInv(s, RoundEnds(w));
    var s' := Apply(s, RoundEnds(w));
    assert forall u :: Held(s', u) == Held(s, u);
  }

  lemma RetryNearsExit(s: State, t: ThreadId)
    requires Exiting(s) && t in s.awake && Held(s, Holder(s.f)) == 0 && s.phase.Parked?
    ensures var s' := Apply(s, LockRetry(t)); Exiting(s') && ExitDistance(s') < ExitDistance(s)
  {
    LockRetryKeepsInv(s, t);
    var s' := Apply(s, LockRetry(t));
    assert s'.blocked == s.blocked - {t} && Held(s', t) == 1;
  }

  /** The promise of exit(): from every state with the flag set and a thread inside
      runForever, threads that only finish what they have begun let runForever return,
      within a bounded number of steps and without spurious wake-ups. */
  lemma {:induction false} ExitGetsThrough(s: State) returns (steps: seq<Step>, s': State, last: Step)
    requires Exiting(s)
    ensures Executes(s, steps, s') && |steps| < ExitDistance(s)
    ensures Finishing(last) && Enabled(s', last) && Returns(s', last)
    decreases ExitDistance(s)
  {
    hide Inv, Apply, Enabled, Returns, Exiting;
    var step := ExitNextStep(s);
    if Returns(s, step) {
      steps, s', last := [], s, step;
    } else {
      var rest;
      rest, s', last := ExitGetsThrough(Apply(s, step));
      steps := [step] + rest;
      assert steps[1..] == rest;
    }
  }

  /** In every run. */
  lemma ExitReturns(states: seq<State>, steps: seq<Step>, i: nat) returns (more: seq<Step>, s': State, last: Step)
    requires IsRun(states, steps) && i < |states| && states[i].f.shouldExit && !states[i].phase.Away?
    ensures Executes(states[i], more, s') && |more| < ExitDistance(states[i])
    ensures Finishing(last) && Enabled(s', last) && Returns(s', last)
  {
    RunKeepsInv(states, steps, i);
    ExitIsNotMissed(states, steps, i);
    more, s', last := ExitGetsThrough(states[i]);
  }

  /** exit() is heard: until runForever returns, the flag stays set and no dispatch round
      begins. */
  lemma ExitIsHeard(states: seq<State>, steps: seq<Step>, i: nat, j: nat)
    requires IsRun(states, steps) && i < j < |states| && steps[i].RequestExit?
    requires forall k :: i < k < j ==> !Returns(states[k], steps[k])
    ensures states[j].f.shouldExit && states[j].round == states[i].round
  {
    assert states[i + 1] == Apply(states[i], steps[i]);
    ExitStopsTheLoop(states, steps, i + 1, j);
  }

  /** The promise of exit(), from the call on: if a thread is inside runForever, threads
      that only finish what they have begun let it return. */
  lemma ExitIsObeyed(states: seq<State>, steps: seq<Step>, i: nat, j: nat)
    returns (more: seq<Step>, s': State, last: Step)
    requires IsRun(states, steps) && i < j < |states| && steps[i].RequestExit?
    requires forall k :: i < k < j ==> !Returns(states[k], steps[k])
    requires !states[j].phase.Away?
    ensures Executes(states[j], more, s') && |more| < ExitDistance(states[j])
    ensures Finishing(last) && Enabled(s', last) && Returns(s', last)
  {
    ExitIsHeard(states, steps, i, j);
    more, s', last := ExitReturns(states, steps, j);
  }

  /** And if none is, the next runForever exits right away: it returns at once, or, if
      there are Locks, parks until they are gone and then returns, without a round. */
  lemma NextRunExits(states: seq<State>, steps: seq<Step>, i: nat, j: nat)
    requires IsRun(states, steps) && i < j < |steps| && steps[i].RequestExit?
    requires forall k :: i < k < j ==> !Returns(states[k], steps[k])
    requires steps[j].RunForever?
    ensures Returns(states[j], steps[j]) <==> states[j].f.numLocks == 0
    ensures !Returns(states[j], steps[j]) ==> states[j + 1].phase.Parked? && Exiting(states[j + 1])
  {
    ExitIsHeard(states, steps, i, j);
    RunKeepsInv(states, steps, j);
    RunKeepsInv(states, steps, j + 1);
    assert states[j + 1] == Apply(states[j], steps[j]);
    hide Inv;
    LocksAreCounted(states, steps, j);
  }

  lemma LocksAreCounted(states: seq<State>, steps: seq<Step>, j: nat)
    requires IsRun(states, steps) && j < |states|
    ensures states[j].f.numLocks >= 0
  {
    RunKeepsInv(states, steps, j);
  }

  /** The flag is set only by exit(), with no return since. */
  lemma {:induction false} FlagHasCause(states: seq<State>, steps: seq<Step>, j: nat) returns (i: nat)
    requires IsRun(states, steps) && j < |states| && states[j].f.shouldExit
    ensures i < j && steps[i].RequestExit? && forall k :: i < k < j ==> !Returns(states[k], steps[k])
  {
    assert j > 0;
    assert states[j - 1 + 1] == Apply(states[j - 1], steps[j - 1]);
    if steps[j - 1].RequestExit? {
      i := j - 1;
    } else {
      FlagKept(states[j - 1], steps[j - 1]);
      hide Apply, Enabled, Returns;
      i := FlagHasCause(states, steps, j - 1);
    }
  }

  lemma FlagKept(s: State, step: Step)
    requires Enabled(s, step) && !step.RequestExit? && Apply(s, step).f.shouldExit
    ensures s.f.shouldExit && !Returns(s, step)
  {
  }

  /** runForever runs until exit() is called: it returns only after a call of exit() with
      no return since. */
  lemma ReturnHasCause(states: seq<State>, steps: seq<Step>, j: nat) returns (i: nat)
    requires IsRun(states, steps) && j < |steps| && Returns(states[j], steps[j])
    ensures i < j && steps[i].RequestExit? && forall k :: i < k < j ==> !Returns(states[k], steps[k])
  {
    assert states[j].f.shouldExit;
    i := FlagHasCause(states, steps, j);
  }
}
