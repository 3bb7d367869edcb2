/** The client's half of exactly-once RPCs: ExactlyOnceRPCHelper in
    Client/ClientImpl.cc numbers the RPCs of all callers and of the keep-alive thread,
    and tells the servers which of them are still outstanding. */
module ExactlyOnce {
  import opened Basics

  /** ExactlyOnceRPCInfo; client id 0 says that no session could be opened in time. */
  datatype Info = Info(clientId: nat, rpcNumber: nat, firstOutstanding: nat)

  predicate IsLeast(n: nat, s: set<nat>) {
    n in s && forall m :: m in s ==> n <= m
  }

  lemma {:induction false} LeastExists(s: set<nat>)
    requires s != {}
    ensures exists n :: IsLeast(n, s)
    decreases |s|
  {
    var x :| x in s;
    if s == {x} {
      assert IsLeast(x, s);
    } else {
      assert s - {x} != {};
      LeastExists(s - {x});
      var n :| IsLeast(n, s - {x});
      assert forall m :: m in s ==> m == x || m in s - {x};
      assert IsLeast(if x <= n then x else n, s);
    }
  }

  ghost function Least(s: set<nat>): (n: nat)
    requires s != {}
    ensures IsLeast(n, s)
  {
    LeastExists(s);
    var n :| IsLeast(n, s);
    n
  }

  class ExactlyOnceRPCHelper {
    var outstandingRPCNumbers: set<nat>
    var clientId: nat
    var nextRPCNumber: nat

    ghost function View(): Fields
      reads this
    {
      Fields(outstandingRPCNumbers, clientId, nextRPCNumber)
    }

    constructor ()
      ensures View() == Fields({}, 0, 1)
    {
      outstandingRPCNumbers, clientId, nextRPCNumber := {}, 0, 1;
    }

    /** `*outstandingRPCNumbers.begin()`. */
    method First() returns (n: nat)
      requires outstandingRPCNumbers != {}
      ensures n == Least(outstandingRPCNumbers)
    {
      n :| n in outstandingRPCNumbers;
      var rest := outstandingRPCNumbers;
      while rest != {}
        invariant rest <= outstandingRPCNumbers && n in outstandingRPCNumbers
        invariant forall m :: m in outstandingRPCNumbers && m !in rest ==> n <= m
        decreases rest
      {
        var m :| m in rest;
        if m < n {
          n := m;
        }
        rest := rest - {m};
      }
    }

    /** `reply` is the id the cluster returned for OpenSession, None if that timed out. */
    method GetRPCInfo(reply: Option<nat>) returns (info: Info)
      requires reply.Some? ==> reply.value > 0
      modifies this
      ensures (View(), info) == Issue(old(View()), reply)
    {
      if clientId == 0 {
        if reply.None? {
          return Info(0, 0, 0);
        }
        clientId := reply.value;
      }
      var rpcNumber := nextRPCNumber;
      nextRPCNumber := nextRPCNumber + 1;
      outstandingRPCNumbers := outstandingRPCNumbers + {rpcNumber};
      var first := First();
      info := Info(clientId, rpcNumber, first);
    }

    method DoneWithRPC(info: Info)
      modifies this
      ensures View() == Finish(old(View()), info)
    {
      outstandingRPCNumbers := outstandingRPCNumbers - {info.rpcNumber};
    }
  }

  datatype Fields = Fields(outstanding: set<nat>, clientId: nat, nextRPCNumber: nat)

  ghost function Issue(f: Fields, reply: Option<nat>): (Fields, Info) {
    if f.clientId == 0 && reply.None? then (f, Info(0, 0, 0))
    else
      var id := if f.clientId == 0 then reply.value else f.clientId;
      var outstanding := f.outstanding + {f.nextRPCNumber};
      assert f.nextRPCNumber in outstanding;
      (Fields(outstanding, id, f.nextRPCNumber + 1), Info(id, f.nextRPCNumber, Least(outstanding)))
  }

  function Finish(f: Fields, info: Info): Fields {
    f.(outstanding := f.outstanding - {info.rpcNumber})
  }

  // ---------------------------------------------------------------------------
  // Runs: any interleaving of callers and the keep-alive thread
  // ---------------------------------------------------------------------------

  datatype State = State(
    f: Fields,
    issued: seq<Info>,     // all infos with a number, in the order of issue
    handed: set<Info>,     // all infos ever returned, timed-out ones included
    done: set<nat>)        // numbers that have been through doneWithRPC

  datatype Step = GetRPCInfo(reply: Option<nat>) | DoneWithRPC(info: Info)

  function Initial(): State {
    State(Fields({}, 0, 1), [], {}, {})
  }

  predicate Enabled(s: State, step: Step) {
    match step
    case GetRPCInfo(reply) => reply.Some? ==> reply.value > 0
    case DoneWithRPC(info) => info in s.handed
  }

  ghost function Apply(s: State, step: Step): State {
    match step
    case GetRPCInfo(reply) =>
      var (f, info) := Issue(s.f, reply);
      s.(f := f, handed := s.handed + {info}, issued := if info.clientId == 0 then s.issued else s.issued + [info])
    case DoneWithRPC(info) => s.(f := Finish(s.f, info), done := s.done + {info.rpcNumber})
  }

  ghost predicate IsRun(states: seq<State>, steps: seq<Step>) {
    && |states| == |steps| + 1
    && states[0] == Initial()
    && forall i :: 0 <= i < |steps| ==>
         Enabled(states[i], steps[i]) && states[i + 1] == Apply(states[i], steps[i])
  }

  /** Numbers handed out and not yet done with. */
  predicate Pending(s: State, n: nat) {
    1 <= n <= |s.issued| && n !in s.done
  }

  ghost predicate Inv(s: State) {
    && s.f.nextRPCNumber == |s.issued| + 1
    && (forall n :: n in s.f.outstanding <==> Pending(s, n))
    && (forall i :: 0 <= i < |s.issued| ==> s.issued[i].rpcNumber == i + 1 && s.issued[i].clientId == s.f.clientId)
    && (s.issued != [] ==> s.f.clientId > 0)
    && (forall n :: n in s.done ==> n <= |s.issued|)
    && (forall info :: info in s.handed ==> info.rpcNumber <= |s.issued|)
    && (forall i :: 0 <= i < |s.issued| ==> s.issued[i].firstOutstanding <= i + 1)
    && (forall i, j :: 0 <= i < j < |s.issued| ==> s.issued[i].firstOutstanding <= s.issued[j].firstOutstanding)
    && (forall i, n :: 0 <= i < |s.issued| && 1 <= n < s.issued[i].firstOutstanding ==> n in s.done)
    && (forall i :: 0 <= i < |s.issued| ==> s.issued[i].firstOutstanding >= 1)
  }

  lemma IssueKeepsInv(s: State, reply: Option<nat>)
    requires Inv(s) && Enabled(s, GetRPCInfo(reply)) && (s.f.clientId != 0 || reply.Some?)
    ensures Inv(Apply(s, GetRPCInfo(reply)))
  {
    var s' := Apply(s, GetRPCInfo(reply));
    var (f, info) := Issue(s.f, reply);
    var next := s.f.nextRPCNumber;
    assert next !in s.done;
    assert IsLeast(info.firstOutstanding, f.outstanding) && next in f.outstanding;
    assert forall n :: Pending(s', n) <==> Pending(s, n) || n == next;
    forall n | 1 <= n < info.firstOutstanding ensures n in s.done {
      assert n !in f.outstanding;
      assert !Pending(s, n);
    }
    assert info.firstOutstanding !in s.done && info.firstOutstanding >= 1;
  }

  lemma StepKeepsInv(s: State, step: Step)
    requires Inv(s) && Enabled(s, step)
    ensures Inv(Apply(s, step))
  {
    match step
    case GetRPCInfo(reply) =>
      if s.f.clientId != 0 || reply.Some? {
        IssueKeepsInv(s, reply);
      }
    case DoneWithRPC(info) =>
      assert forall n :: Pending(Apply(s, step), n) <==> Pending(s, n) && n != info.rpcNumber;
  }

  lemma {:induction false} RunKeepsInv(states: seq<State>, steps: seq<Step>, i: nat)
    requires IsRun(states, steps) && i < |states|
    ensures Inv(states[i])
  {
    if i > 0 {
      RunKeepsInv(states, steps, i - 1);
      hide Inv, Apply;
      StepKeepsInv(states[i - 1], steps[i - 1]);
    }
  }

  /** Numbers are issued in strictly increasing order from 1, all for one client id;
      first_outstanding_rpc never decreases and never exceeds the number issued with
      it; and every number below it has been through doneWithRPC. */
  lemma Numbering(states: seq<State>, steps: seq<Step>, i: nat)
    requires IsRun(states, steps) && i < |states|
    ensures var issued := states[i].issued;
      && (forall k :: 0 <= k < |issued| ==>
            issued[k].rpcNumber == k + 1 && issued[k].clientId == states[i].f.clientId > 0)
      && (forall k :: 0 <= k < |issued| ==> 1 <= issued[k].firstOutstanding <= issued[k].rpcNumber)
      && (forall k, l :: 0 <= k < l < |issued| ==> issued[k].firstOutstanding <= issued[l].firstOutstanding)
      && (forall k, n :: 0 <= k < |issued| && 1 <= n < issued[k].firstOutstanding ==> n in states[i].done)
  {
    RunKeepsInv(states, steps, i);
  }

  /** Nothing is held back either: the number a new RPC names is the smallest one not
      yet done with, its own included. */
  lemma FirstOutstandingIsExact(states: seq<State>, steps: seq<Step>, i: nat)
    requires IsRun(states, steps) && i < |steps| && steps[i].GetRPCInfo?
    requires |states[i + 1].issued| == |states[i].issued| + 1
    ensures var s' := states[i + 1]; var info := s'.issued[|states[i].issued|];
      && Pending(s', info.firstOutstanding)
      && forall n :: Pending(s', n) ==> info.firstOutstanding <= n
  {
    RunKeepsInv(states, steps, i + 1);
    var s, s' := states[i], states[i + 1];
    assert s' == Apply(s, steps[i]);
    var (f, info) := Issue(s.f, steps[i].reply);
    assert IsLeast(info.firstOutstanding, s'.f.outstanding);
  }

  /** A nonzero client id is set at most once. */
  lemma {:induction false} ClientIdIsFinal(states: seq<State>, steps: seq<Step>, i: nat, j: nat)
    requires IsRun(states, steps) && i <= j < |states| && states[i].f.clientId != 0
    ensures states[j].f.clientId == states[i].f.clientId
    decreases j
  {
    if i < j {
      ClientIdIsFinal(states, steps, i, j - 1);
      assert states[j - 1 + 1] == Apply(states[j - 1], steps[j - 1]);
    }
  }

  /** The client id is one that the cluster returned for OpenSession. */
  lemma {:induction false} ClientIdHasCause(states: seq<State>, steps: seq<Step>, j: nat) returns (i: nat)
    requires IsRun(states, steps) && j < |states| && states[j].f.clientId != 0
    ensures i < j && steps[i] == GetRPCInfo(Some(states[j].f.clientId)) && states[i].f.clientId == 0
  {
    assert j > 0;
    assert states[j - 1 + 1] == Apply(states[j - 1], steps[j - 1]);
    if states[j - 1].f.clientId == 0 {
      i := j - 1;
    } else {
      i := ClientIdHasCause(states, steps, j - 1);
    }
  }

  /** getRPCInfo issues a number unless it has no client id and gets none in time; nothing
      else issues one. */
  lemma IssuesIff(states: seq<State>, steps: seq<Step>, i: nat)
    requires IsRun(states, steps) && i < |steps|
    ensures |states[i + 1].issued| == |states[i].issued| + 1 <==>
            steps[i].GetRPCInfo? && (states[i].f.clientId != 0 || steps[i].reply.Some?)
    ensures states[i].issued <= states[i + 1].issued
  {
    assert states[i + 1] == Apply(states[i], steps[i]);
  }

  /** Only issued numbers are outstanding, and a number that has been through doneWithRPC
      is not outstanding any more, ever. */
  lemma {:induction false} DoneIsDone(states: seq<State>, steps: seq<Step>, i: nat, j: nat)
    requires IsRun(states, steps) && i < j < |states| && steps[i].DoneWithRPC?
    ensures steps[i].info.rpcNumber !in states[j].f.outstanding
    ensures steps[i].info.rpcNumber < states[j].f.nextRPCNumber
    decreases j
  {
    RunKeepsInv(states, steps, j - 1);
    assert states[j - 1 + 1] == Apply(states[j - 1], steps[j - 1]);
    if i < j - 1 {
      DoneIsDone(states, steps, i, j - 1);
    }
  }

  /** Nothing else takes a number off the outstanding ones. */
  lemma OutstandingUntilDone(states: seq<State>, steps: seq<Step>, i: nat, n: nat)
    requires IsRun(states, steps) && i < |steps| && n in states[i].f.outstanding
    ensures n in states[i + 1].f.outstanding <==> !(steps[i].DoneWithRPC? && steps[i].info.rpcNumber == n)
  {
    assert states[i + 1] == Apply(states[i], steps[i]);
  }
}
