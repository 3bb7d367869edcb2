/** Two MessageSockets joined by a lossless FIFO byte pipe, as a state machine: any
    number of threads calling sendMessage, the event loop running `writable` in the
    sender, partial sends, and partial reads in the receiver, in any interleaving. */
module Channel {
  import opened Framing
  import opened MessageSender
  import opened MessageReceiver

  /** Where the sender's event loop is inside `writable`. */
  datatype Writer =
    | Idle
    | Looping                    // about to look at the queue
    | Sending(out: Outbound)     // popped, about to call sendmsg
    | Rearming(out: Outbound)    // sent in part, about to set the send event
    | Requeueing(out: Outbound)  // event set, about to put the rest back in front

  datatype Channel = Channel(
    queue: seq<Outbound>,
    writer: Writer,
    armed: bool,               // the one-shot send event is set
    kicks: nat,                // senders that saw an empty queue and have yet to set the event
    wire: seq<Byte>,           // all bytes the pipe has taken
    taken: nat,                // how many of them the receiver has read
    receiver: Receiver,
    enqueued: seq<Message>,    // all messages queued, oldest first
    broken: bool)              // sendmsg found the connection gone

  datatype Step =
    | Enqueue(m: Message)
    | Arm
    | Dispatch
    | Pop
    | Transmit(n: nat)
    | Rearm
    | Requeue
    | Break
    | Receive(n: nat)

  function Initial(): Channel {
    Channel([], Idle, false, 0, [], 0, NewReceiver(), [], false)
  }

  predicate Enabled(c: Channel, step: Step, sendLimit: nat) {
    match step
    case Enqueue(m) => Sendable(m, sendLimit)
    case Arm => c.kicks > 0
    case Dispatch => !c.broken && c.armed && c.writer.Idle?
    case Pop => c.writer.Looping?
    case Transmit(n) => !c.broken && c.writer.Sending? && c.writer.out.bytesSent + n <= Size(c.writer.out)
    case Rearm => c.writer.Rearming?
    case Requeue => c.writer.Requeueing?
    case Break => c.writer.Sending?
    case Receive(n) => !c.receiver.rejected && n <= Wanted(c.receiver) && c.taken + n <= |c.wire|
  }

  function Apply(c: Channel, step: Step, receiveLimit: nat): Channel {
    match step
    case Enqueue(m) =>
      c.(queue := c.queue + [NewOutbound(m)], enqueued := c.enqueued + [m],
         kicks := if c.queue == [] then c.kicks + 1 else c.kicks)
    case Arm => c.(armed := true, kicks := if c.kicks > 0 then c.kicks - 1 else 0)
    case Dispatch => c.(armed := false, writer := Looping)
    case Pop =>
      if c.queue == [] then c.(writer := Idle)
      else c.(writer := Sending(c.queue[0]), queue := c.queue[1..])
    case Transmit(n) => if c.writer.Sending? then AfterSend(c, c.writer.out, n) else c
    case Rearm => if c.writer.Rearming? then c.(armed := true, writer := Requeueing(c.writer.out)) else c
    case Requeue => if c.writer.Requeueing? then c.(queue := [c.writer.out] + c.queue, writer := Idle) else c
    case Break => c.(broken := true)
    case Receive(n) =>
      if c.taken + n <= |c.wire| then
        c.(taken := c.taken + n,
           receiver := OnBytes(c.receiver, c.wire[c.taken..c.taken + n], receiveLimit))
      else c
  }

  /** sendmsg took `n` bytes of `out`. */
  function AfterSend(c: Channel, out: Outbound, n: nat): Channel {
    var out' := out.(bytesSent := out.bytesSent + n);
    c.(wire := if n <= |Rest(out)| then c.wire + Rest(out)[..n] else c.wire,
       writer := if Completes(out, n) then Looping else Rearming(out'))
  }

  ghost predicate IsRun(cs: seq<Channel>, steps: seq<Step>, sendLimit: nat, receiveLimit: nat) {
    && |cs| == |steps| + 1
    && cs[0] == Initial()
    && forall i :: 0 <= i < |steps| ==>
         Enabled(cs[i], steps[i], sendLimit) && cs[i + 1] == Apply(cs[i], steps[i], receiveLimit)
  }

  // ---------------------------------------------------------------------------
  // The steps are those of the code
  // ---------------------------------------------------------------------------

  /** The fields of the sending socket. */
  function Sender(c: Channel): Fields {
    Fields(c.queue, c.armed, c.wire, c.broken)
  }

  ghost predicate Executes(c: Channel, steps: seq<Step>, c': Channel, sendLimit: nat, receiveLimit: nat)
    decreases |steps|
  {
    if steps == [] then c == c'
    else
      && Enabled(c, steps[0], sendLimit)
      && Executes(Apply(c, steps[0], receiveLimit), steps[1..], c', sendLimit, receiveLimit)
  }

  /** The steps of one turn of the loop in `writable`. */
  function TurnSteps(out: Outbound, n: int): seq<Step> {
    if n == -1 then [Pop, Break]
    else if n < 0 then []
    else if Completes(out, n) then [Pop, Transmit(n)]
    else [Pop, Transmit(n), Rearm, Requeue]
  }

  /** One turn of the loop in `writable` does the same as its steps here do, when nothing
      comes in between: it leaves the same fields, and leaves the loop exactly when
      something is left over or the connection is gone. */
  lemma TurnIsSteps(c: Channel, n: int, sendLimit: nat, receiveLimit: nat) returns (c': Channel)
    requires c.writer.Looping? && !c.broken && CanReturn(Sender(c), n)
    ensures Executes(c, TurnSteps(c.queue[0], n), c', sendLimit, receiveLimit)
    ensures Sender(c') == Sent(Sender(c), n)
    ensures c' == c.(queue := c'.queue, armed := c'.armed, wire := c'.wire, broken := c'.broken, writer := c'.writer)
    ensures c'.writer == if n == -1 then Sending(c.queue[0]) else if Completes(c.queue[0], n) then Looping else Idle
  {
    hide OnBytes;
    var out := c.queue[0];
    var popped := Apply(c, Pop, receiveLimit);
    if n == -1 {
      c' := Apply(popped, Break, receiveLimit);
      TwoSteps(c, Pop, Break, c', sendLimit, receiveLimit);
    } else {
      assert n <= |Rest(out)|;
      var sent := Apply(popped, Transmit(n), receiveLimit);
      if Completes(out, n) {
        c' := sent;
        TwoSteps(c, Pop, Transmit(n), c', sendLimit, receiveLimit);
      } else {
        var armed := Apply(sent, Rearm, receiveLimit);
        c' := Apply(armed, Requeue, receiveLimit);
        TwoSteps(sent, Rearm, Requeue, c', sendLimit, receiveLimit);
        assert [Pop, Transmit(n), Rearm, Requeue][1..] == [Transmit(n), Rearm, Requeue];
        assert [Transmit(n), Rearm, Requeue][1..] == [Rearm, Requeue];
      }
    }
  }

  lemma TwoSteps(c: Channel, first: Step, second: Step, c': Channel, sendLimit: nat, receiveLimit: nat)
    requires Enabled(c, first, sendLimit)
    requires Enabled(Apply(c, first, receiveLimit), second, sendLimit)
    requires c' == Apply(Apply(c, first, receiveLimit), second, receiveLimit)
    ensures Executes(c, [first, second], c', sendLimit, receiveLimit)
  {
    hide Apply, Enabled;
    assert [first, second][1..] == [second] && [second][1..] == [];
    assert Executes(c', [], c', sendLimit, receiveLimit);
    assert Executes(Apply(c, first, receiveLimit), [second], c', sendLimit, receiveLimit);
  }

  /** So does sendMessage: it queues, and arms if the queue was empty. */
  lemma SendMessageIsSteps(c: Channel, m: Message, sendLimit: nat, receiveLimit: nat) returns (c': Channel)
    requires Sendable(m, sendLimit)
    ensures Executes(c, if c.queue == [] then [Enqueue(m), Arm] else [Enqueue(m)], c', sendLimit, receiveLimit)
    ensures Sender(c') == Queued(Sender(c), m)
    ensures c' == c.(queue := c'.queue, armed := c'.armed, enqueued := c.enqueued + [m])
  {
    hide OnBytes, NewOutbound;
    var queued := Apply(c, Enqueue(m), receiveLimit);
    if c.queue == [] {
      c' := Apply(queued, Arm, receiveLimit);
      TwoSteps(c, Enqueue(m), Arm, c', sendLimit, receiveLimit);
    } else {
      c' := queued;
      assert [Enqueue(m)][1..] == [];
    }
  }

  // ---------------------------------------------------------------------------
  // The invariant
  // ---------------------------------------------------------------------------

  /** The unsent bytes of the message `writable` has taken off the queue. */
  function InFlight(w: Writer): seq<Byte> {
    if w.Idle? || w.Looping? then [] else Rest(w.out)
  }

  ghost predicate Conserved(c: Channel) {
    c.wire + InFlight(c.writer) + Unsent(c.queue) == WireOf(c.enqueued)
  }

  ghost predicate WellFormed(c: Channel) {
    && InProgress(c.queue)
    && (!c.writer.Idle? && !c.writer.Looping? ==> InProgress([c.writer.out]))
    && (c.writer.Requeueing? ==> c.armed)
    && c.taken <= |c.wire|
  }

  /** Somebody is going to look at a non-empty queue. */
  ghost predicate Attended(c: Channel) {
    c.queue != [] ==> c.armed || !c.writer.Idle? || c.kicks > 0
  }

  ghost predicate Inv(c: Channel, sendLimit: nat, receiveLimit: nat) {
    && WellFormed(c) && Conserved(c) && Attended(c)
    && (forall m :: m in c.enqueued ==> Sendable(m, sendLimit))
    && Agrees(c.receiver, c.wire[..c.taken], receiveLimit)
  }

  lemma EnqueueConserves(c: Channel, m: Message)
    requires Conserved(c)
    ensures Conserved(Apply(c, Enqueue(m), 0))
  {
    hide EncodeMessage, Rest, NewOutbound;
    UnsentAppend(c.queue, NewOutbound(m));
    NewOutboundRest(m);
    WireOfAppend(c.enqueued, m);
  }

  lemma PopConserves(c: Channel)
    requires Conserved(c) && c.writer.Looping?
    ensures Conserved(Apply(c, Pop, 0))
  {
    hide Rest, WireOf;
    if c.queue != [] {
      var first, later := Rest(c.queue[0]), Unsent(c.queue[1..]);
      assert c.wire + [] + (first + later) == c.wire + first + later;
    }
  }

  lemma TransmitConserves(c: Channel, n: nat)
    requires Conserved(c) && WellFormed(c) && Enabled(c, Transmit(n), 0)
    ensures Conserved(Apply(c, Transmit(n), 0)) && WellFormed(Apply(c, Transmit(n), 0))
    ensures c.wire <= Apply(c, Transmit(n), 0).wire
  {
    hide Rest, WireOf, Unsent;
    var out := c.writer.out;
    assert out in [out];
    var out' := out.(bytesSent := out.bytesSent + n);
    RestAfter(out, n);
    RestAfter(out', 0);
    var c' := AfterSend(c, out, n);
    assert c' == c.(wire := c.wire + Rest(out)[..n], writer := c'.writer) && InFlight(c'.writer) == Rest(out');
    SplitRest(c.wire, Rest(out)[..n], Rest(out'), Unsent(c.queue));
  }

  lemma RequeueConserves(c: Channel)
    requires Conserved(c) && c.writer.Requeueing?
    ensures Conserved(Apply(c, Requeue, 0))
  {
    hide Rest, WireOf;
    var out := c.writer.out;
    assert ([out] + c.queue)[1..] == c.queue;
    assert c.wire + Rest(out) + Unsent(c.queue) == c.wire + [] + (Rest(out) + Unsent(c.queue));
  }

  lemma ReceiveAgrees(c: Channel, n: nat, receiveLimit: nat)
    requires WellFormed(c) && Enabled(c, Receive(n), 0)
    requires Agrees(c.receiver, c.wire[..c.taken], receiveLimit)
    ensures var c' := Apply(c, Receive(n), receiveLimit);
      Agrees(c'.receiver, c'.wire[..c'.taken], receiveLimit)
  {
    hide Agrees, OnBytes, Wanted;
    OnBytesAgrees(c.receiver, c.wire[..c.taken], c.wire[c.taken..c.taken + n], receiveLimit);
    assert c.wire[..c.taken] + c.wire[c.taken..c.taken + n] == c.wire[..c.taken + n];
  }

  lemma StepConserves(c: Channel, step: Step, sendLimit: nat, receiveLimit: nat)
    requires Conserved(c) && WellFormed(c) && Enabled(c, step, sendLimit)
    ensures Conserved(Apply(c, step, receiveLimit))
  {
    match step
    case Enqueue(m) => EnqueueConserves(c, m);
    case Pop => PopConserves(c);
    case Transmit(n) => TransmitConserves(c, n);
    case Requeue => RequeueConserves(c);
    case _ => hide WireOf, Unsent, Rest, OnBytes;
  }

  lemma StepKeepsInv(c: Channel, step: Step, sendLimit: nat, receiveLimit: nat)
    requires Inv(c, sendLimit, receiveLimit) && Enabled(c, step, sendLimit)
    ensures Inv(Apply(c, step, receiveLimit), sendLimit, receiveLimit)
  {
    var c' := Apply(c, step, receiveLimit);
    hide Conserved, Agrees, OnBytes, Rest, EncodeHeader, Wanted;
    StepConserves(c, step, sendLimit, receiveLimit);
    match step
    case Enqueue(m) =>
      NewOutboundRest(m);
      assert NewOutbound(m) in [NewOutbound(m)];
    case Transmit(n) =>
      TransmitConserves(c, n);
      assert c'.wire[..c'.taken] == c.wire[..c.taken];
    case Requeue =>
      assert c.writer.out in [c.writer.out];
    case Receive(n) =>
      ReceiveAgrees(c, n, receiveLimit);
    case _ =>
  }

  lemma {:induction false} RunKeepsInv(cs: seq<Channel>, steps: seq<Step>, sendLimit: nat, receiveLimit: nat, i: nat)
    requires IsRun(cs, steps, sendLimit, receiveLimit) && i < |cs|
    ensures Inv(cs[i], sendLimit, receiveLimit)
  {
    if i == 0 {
      assert Prepend([], Parse([], receiveLimit)) == Parse([], receiveLimit);
    } else {
      hide Inv, Apply, Enabled;
      RunKeepsInv(cs, steps, sendLimit, receiveLimit, i - 1);
      StepKeepsInv(cs[i - 1], steps[i - 1], sendLimit, receiveLimit);
    }
  }

  // ---------------------------------------------------------------------------
  // What every run guarantees
  // ---------------------------------------------------------------------------

  /** Bytes are neither lost, repeated nor reordered on the way into the pipe, and a
      non-empty queue is always attended to. */
  lemma SenderGuarantee(cs: seq<Channel>, steps: seq<Step>, sendLimit: nat, receiveLimit: nat, i: nat)
    requires IsRun(cs, steps, sendLimit, receiveLimit) && i < |cs|
    ensures var c := cs[i];
      && c.wire + InFlight(c.writer) + Unsent(c.queue) == WireOf(c.enqueued)
      && (c.queue != [] ==> c.armed || !c.writer.Idle? || c.kicks > 0)
  {
    RunKeepsInv(cs, steps, sendLimit, receiveLimit, i);
  }

  /** End to end: what the receiver hands over is a prefix of what was queued, with
      the same ids and payloads, cut at the first message over its own limit at the
      latest.  It rejects a header only if some message exceeds its limit, so never
      when its limit is at least the sender's; and once the sender has nothing left
      and the receiver has read everything, every message up to the first one over
      the limit has been delivered. */
  lemma EndToEnd(cs: seq<Channel>, steps: seq<Step>, sendLimit: nat, receiveLimit: nat, i: nat)
    requires IsRun(cs, steps, sendLimit, receiveLimit) && i < |cs|
    ensures var c := cs[i]; var n := FittingPrefix(c.enqueued, receiveLimit);
      && c.receiver.delivered <= c.enqueued[..n]
      && (c.receiver.rejected ==> c.receiver.delivered == c.enqueued[..n] && n < |c.enqueued|)
      && (sendLimit <= receiveLimit ==> n == |c.enqueued| && !c.receiver.rejected)
      && (c.queue == [] && c.writer.Idle? && c.taken == |c.wire| && Settled(c.receiver) ==>
            c.receiver.delivered == c.enqueued[..n])
  {
    RunKeepsInv(cs, steps, sendLimit, receiveLimit, i);
    InvEndToEnd(cs[i], sendLimit, receiveLimit);
    hide Inv, FittingPrefix;
  }

  lemma InvEndToEnd(c: Channel, sendLimit: nat, receiveLimit: nat)
    requires Inv(c, sendLimit, receiveLimit)
    ensures var n := FittingPrefix(c.enqueued, receiveLimit);
      && c.receiver.delivered <= c.enqueued[..n]
      && (c.receiver.rejected ==> c.receiver.delivered == c.enqueued[..n] && n < |c.enqueued|)
      && (sendLimit <= receiveLimit ==> n == |c.enqueued| && !c.receiver.rejected)
      && (c.queue == [] && c.writer.Idle? && c.taken == |c.wire| && Settled(c.receiver) ==>
            c.receiver.delivered == c.enqueued[..n])
  {
    hide Parse, DecodeHeader, WireOf, Unsent, Rest, FittingPrefix, Wanted, EncodeMessage;
    var wire, read := WireOf(c.enqueued), c.wire[..c.taken];
    WireIsPrefix(c);
    ParseWire(c.enqueued, sendLimit, receiveLimit);
    ParseOfPrefix(read, wire, receiveLimit);
    if sendLimit <= receiveLimit {
      assert forall m :: m in c.enqueued ==> |m.payload| <= receiveLimit;
    }
    if !c.receiver.rejected && Settled(c.receiver) {
      SettledIsPending(c.receiver, receiveLimit);
    }
  }

  lemma WireIsPrefix(c: Channel)
    requires Conserved(c) && c.taken <= |c.wire|
    ensures c.wire[..c.taken] <= WireOf(c.enqueued)
    ensures c.queue == [] && c.writer.Idle? && c.taken == |c.wire| ==> c.wire[..c.taken] == WireOf(c.enqueued)
  {
    hide WireOf, Rest;
  }

  // ---------------------------------------------------------------------------
  // Everything arrives
  // ---------------------------------------------------------------------------

  predicate Drained(c: Channel) {
    c.queue == [] && c.writer.Idle?
  }

  /** Work left for the sender: messages, and then where the writer is. */
  function SendDistance(c: Channel): nat {
    6 * (|c.queue| + if c.writer.Idle? || c.writer.Looping? then 0 else 1)
    + match c.writer
      case Rearming(_) => 5
      case Requeueing(_) => 4
      case Idle => if c.armed then 2 else 3
      case Looping => 1
      case Sending(_) => 0
  }

  /** The sender's next step, when the kernel takes all it is offered. */
  function NextSend(c: Channel): Step {
    match c.writer
    case Rearming(_) => Rearm
    case Requeueing(_) => Requeue
    case Idle => if c.armed then Dispatch else Arm
    case Looping => Pop
    case Sending(out) => if out.bytesSent <= Size(out) then Transmit(Size(out) - out.bytesSent) else Pop
  }

  lemma SendProgress(c: Channel, sendLimit: nat, receiveLimit: nat)
    requires Inv(c, sendLimit, receiveLimit) && !c.broken && !Drained(c)
    ensures Enabled(c, NextSend(c), sendLimit)
    ensures var c' := Apply(c, NextSend(c), receiveLimit);
      && !c'.broken && c'.enqueued == c.enqueued
      && (Drained(c') || SendDistance(c') < SendDistance(c))
  {
    hide Agrees, Conserved, Rest, OnBytes, Wanted;
    if c.writer.Sending? {
      assert c.writer.out in [c.writer.out];
    }
  }

  lemma {:induction false} Drain(c: Channel, sendLimit: nat, receiveLimit: nat) returns (steps: seq<Step>, c': Channel)
    requires Inv(c, sendLimit, receiveLimit) && !c.broken
    ensures Executes(c, steps, c', sendLimit, receiveLimit) && Inv(c', sendLimit, receiveLimit)
    ensures Drained(c') && !c'.broken && c'.enqueued == c.enqueued
    decreases !Drained(c), SendDistance(c)
  {
    if Drained(c) {
      steps, c' := [], c;
    } else {
      var step := NextSend(c);
      SendProgress(c, sendLimit, receiveLimit);
      StepKeepsInv(c, step, sendLimit, receiveLimit);
      hide Inv, Apply, Enabled, NextSend;
      var rest;
      rest, c' := Drain(Apply(c, step, receiveLimit), sendLimit, receiveLimit);
      steps := [step] + rest;
      assert steps[1..] == rest;
    }
  }

  /** The receiver has taken everything on the wire, or nothing more after a rejection. */
  predicate Received(c: Channel) {
    c.receiver.rejected || (c.taken == |c.wire| && Settled(c.receiver))
  }

  function ReceiveDistance(c: Channel): int {
    2 * (|c.wire| - c.taken) + if Wanted(c.receiver) == 0 then 1 else 0
  }

  /** The receiver's next read, when the kernel gives all it can. */
  function NextRead(c: Channel): nat
    requires c.taken <= |c.wire|
  {
    if Wanted(c.receiver) <= 0 then 0
    else if Wanted(c.receiver) < |c.wire| - c.taken then Wanted(c.receiver)
    else |c.wire| - c.taken
  }

  lemma ReceiveProgress(c: Channel, sendLimit: nat, receiveLimit: nat)
    requires Inv(c, sendLimit, receiveLimit) && !Received(c)
    ensures Enabled(c, Receive(NextRead(c)), sendLimit)
    ensures var c' := Apply(c, Receive(NextRead(c)), receiveLimit);
      && c' == c.(taken := c'.taken, receiver := c'.receiver) && c'.taken <= |c'.wire|
      && ReceiveDistance(c') < ReceiveDistance(c)
  {
    hide Conserved, Parse, DecodeHeader, WireOf, Unsent;
    var chunk := c.wire[c.taken..c.taken + NextRead(c)];
    assert Wanted(c.receiver) >= 0;
    ReadsMore(c.receiver, chunk, receiveLimit);
  }

  lemma ReadsMore(r: Receiver, chunk: seq<Byte>, limit: nat)
    requires Receiving(r, limit) && !r.rejected && |chunk| <= Wanted(r)
    ensures Wanted(r) == 0 ==> Wanted(OnBytes(r, chunk, limit)) > 0
  {
    hide DecodeHeader;
  }

  lemma {:induction false} ReceiveAll(c: Channel, sendLimit: nat, receiveLimit: nat)
    returns (steps: seq<Step>, c': Channel)
    requires Inv(c, sendLimit, receiveLimit)
    ensures Executes(c, steps, c', sendLimit, receiveLimit) && Inv(c', sendLimit, receiveLimit)
    ensures Received(c') && c' == c.(taken := c'.taken, receiver := c'.receiver)
    decreases ReceiveDistance(c)
  {
    if Received(c) {
      steps, c' := [], c;
    } else {
      var step := Receive(NextRead(c));
      ReceiveProgress(c, sendLimit, receiveLimit);
      StepKeepsInv(c, step, sendLimit, receiveLimit);
      hide Inv, Apply, Enabled, Received;
      var rest;
      rest, c' := ReceiveAll(Apply(c, step, receiveLimit), sendLimit, receiveLimit);
      steps := [step] + rest;
      assert steps[1..] == rest;
    }
  }

  lemma {:induction false} ExecutesConcat(c: Channel, a: seq<Step>, m: Channel, b: seq<Step>, c': Channel, sendLimit: nat, receiveLimit: nat)
    requires Executes(c, a, m, sendLimit, receiveLimit) && Executes(m, b, c', sendLimit, receiveLimit)
    ensures Executes(c, a + b, c', sendLimit, receiveLimit)
    decreases |a|
  {
    hide Apply, Enabled;
    if a == [] {
      assert a + b == b;
    } else {
      ExecutesConcat(Apply(c, a[0], receiveLimit), a[1..], m, b, c', sendLimit, receiveLimit);
      assert (a + b)[1..] == a[1..] + b;
    }
  }

  /** No message is stuck: from every state of every run in which the connection holds,
      the sender, the event loop and the receiver have steps that deliver every message
      queued so far, up to the first one over the receiver's limit. */
  lemma EverythingArrives(cs: seq<Channel>, steps: seq<Step>, sendLimit: nat, receiveLimit: nat, i: nat)
    returns (more: seq<Step>, c': Channel)
    requires IsRun(cs, steps, sendLimit, receiveLimit) && i < |cs| && !cs[i].broken
    ensures Executes(cs[i], more, c', sendLimit, receiveLimit)
    ensures c'.enqueued == cs[i].enqueued
    ensures c'.receiver.delivered == c'.enqueued[..FittingPrefix(c'.enqueued, receiveLimit)]
    ensures sendLimit <= receiveLimit ==> c'.receiver.delivered == c'.enqueued
  {
    hide Inv, Executes, FittingPrefix;
    RunKeepsInv(cs, steps, sendLimit, receiveLimit, i);
    var sends, m := Drain(cs[i], sendLimit, receiveLimit);
    var reading, last := ReceiveAll(m, sendLimit, receiveLimit);
    more, c' := sends + reading, last;
    ExecutesConcat(cs[i], sends, m, reading, last, sendLimit, receiveLimit);
    InvEndToEnd(last, sendLimit, receiveLimit);
  }
}
