/** The sending half of RPC/MessageSocket: the outbound queue, whose front message
    may be in the middle of transmission, and the partial sends `writable` survives. */
module MessageSender {
  import opened Basics
  import opened Framing

  datatype Outbound = Outbound(bytesSent: nat, header: seq<Byte>, message: seq<Byte>)

  function NewOutbound(m: Message): Outbound {
    Outbound(0, EncodeHeader(Header(MAGIC, VERSION, |m.payload| % TWO_TO_THE_32, m.id)), m.payload)
  }

  function Size(out: Outbound): nat {
    |out.header| + |out.message|
  }

  /** The bytes of a message that the kernel has not taken yet. */
  function Rest(out: Outbound): seq<Byte> {
    if out.bytesSent <= Size(out) then (out.header + out.message)[out.bytesSent..] else []
  }

  function Unsent(queue: seq<Outbound>): seq<Byte> {
    if queue == [] then [] else Rest(queue[0]) + Unsent(queue[1..])
  }

  predicate InProgress(queue: seq<Outbound>) {
    forall out :: out in queue ==> |out.header| == HEADER_LENGTH && out.bytesSent < Size(out)
  }

  lemma NewOutboundRest(m: Message)
    ensures Rest(NewOutbound(m)) == EncodeMessage(m) && InProgress([NewOutbound(m)])
  {
  }

  lemma {:induction false} UnsentAppend(queue: seq<Outbound>, out: Outbound)
    ensures Unsent(queue + [out]) == Unsent(queue) + Rest(out)
  {
    hide Rest;
    if queue == [] {
      assert [out][1..] == [];
      assert Rest(out) + Unsent([]) == Rest(out);
    } else {
      UnsentAppend(queue[1..], out);
      assert (queue + [out])[1..] == queue[1..] + [out];
    }
  }

  /** Sending `n` more bytes takes them off the front of the rest. */
  lemma RestAfter(out: Outbound, n: nat)
    requires out.bytesSent + n <= Size(out)
    ensures Rest(out) == Rest(out)[..n] + Rest(out.(bytesSent := out.bytesSent + n))
    ensures |Rest(out)| == Size(out) - out.bytesSent
  {
    var all := out.header + out.message;
    assert all[out.bytesSent..][n..] == all[out.bytesSent + n..];
  }

  // ---------------------------------------------------------------------------
  // The critical sections
  // ---------------------------------------------------------------------------

  datatype Fields = Fields(
    queue: seq<Outbound>,
    armed: bool,               // EPOLLOUT|EPOLLONESHOT is set
    wire: seq<Byte>,           // everything the kernel has taken
    disconnected: bool)

  /** sendMessage, for a message within the limit. */
  function Queued(f: Fields, m: Message): Fields {
    f.(queue := f.queue + [NewOutbound(m)], armed := f.armed || f.queue == [])
  }

  /** What sendmsg can return for the front of the queue, -1 standing for a connection
      that is gone. */
  predicate CanReturn(f: Fields, n: int) {
    f.queue != [] && -1 <= n <= Size(f.queue[0]) - f.queue[0].bytesSent
  }

  predicate Completes(out: Outbound, n: nat) {
    out.bytesSent + n == HEADER_LENGTH + |out.message|
  }

  /** One turn of the loop in `writable`, in which sendmsg returned `n`. */
  function Sent(f: Fields, n: int): Fields
    requires CanReturn(f, n)
  {
    var out, g := f.queue[0], f.(queue := f.queue[1..]);
    if n == -1 then g.(disconnected := true)
    else
      var h := g.(wire := g.wire + (if n <= |Rest(out)| then Rest(out)[..n] else []));
      if Completes(out, n) then h
      else h.(armed := true, queue := [out.(bytesSent := out.bytesSent + n)] + h.queue)
  }

  // ---------------------------------------------------------------------------
  // The iovec
  // ---------------------------------------------------------------------------

  function Concat(parts: seq<seq<Byte>>): seq<Byte> {
    if parts == [] then [] else parts[0] + Concat(parts[1..])
  }

  lemma {:induction false} ConcatUpdate(parts: seq<seq<Byte>>, i: nat, n: nat)
    requires i < |parts| && n <= |parts[i]|
    requires forall j :: 0 <= j < i ==> parts[j] == []
    ensures n <= |Concat(parts)|
    ensures Concat(parts[i := parts[i][n..]]) == Concat(parts)[n..]
    decreases i
  {
    var updated := parts[i := parts[i][n..]];
    if i == 0 {
      assert updated[1..] == parts[1..];
      assert Concat(parts) == parts[0] + Concat(parts[1..]);
    } else {
      ConcatUpdate(parts[1..], i - 1, n);
      assert updated[1..] == parts[1..][i - 1 := parts[i][n..]];
      assert [] + Concat(parts[1..]) == Concat(parts[1..]);
      assert [] + Concat(updated[1..]) == Concat(updated[1..]);
    }
  }

  lemma {:induction false} ConcatEmpty(parts: seq<seq<Byte>>)
    requires forall j :: 0 <= j < |parts| ==> parts[j] == []
    ensures Concat(parts) == []
  {
    if parts != [] {
      ConcatEmpty(parts[1..]);
    }
  }

  lemma ConcatPair(a: seq<Byte>, b: seq<Byte>)
    ensures Concat([a, b]) == a + b
  {
    assert [a, b][1..] == [b];
    assert [b][1..] == [];
    assert b + Concat([]) == b;
  }

  /** Skips the parts of an iovec that have already been sent. */
  method SkipSent(iov: seq<seq<Byte>>, bytesSent: nat) returns (left: seq<seq<Byte>>)
    requires bytesSent <= |Concat(iov)|
    ensures |left| == |iov| && Concat(left) == Concat(iov)[bytesSent..]
  {
    left := iov;
    var skip: nat := bytesSent;
    var i := 0;
    while i < |iov|
      invariant 0 <= i <= |iov| == |left|
      invariant forall j :: 0 <= j < i ==> left[j] == []
      invariant skip <= bytesSent && Concat(left) == Concat(iov)[bytesSent - skip..]
    {
      if skip < |left[i]| {
        ConcatUpdate(left, i, skip);
        left := left[i := left[i][skip..]];
        return;
      }
      ConcatUpdate(left, i, |left[i]|);
      skip := skip - |left[i]|;
      left := left[i := left[i][|left[i]|..]];
      i := i + 1;
    }
    ConcatEmpty(left);
  }

  // ---------------------------------------------------------------------------
  // The code
  // ---------------------------------------------------------------------------

  class SendSocket {
    const maxMessageLength: nat
    const eager: bool                // the kernel takes all it is offered, and stays connected
    var outboundQueue: seq<Outbound>
    var armed: bool
    var wire: seq<Byte>
    var disconnected: bool
    ghost var calls: nat             // calls of sendmsg, and what the last one was offered and took
    ghost var offered: nat
    ghost var taken: int

    function View(): Fields
      reads this
    {
      Fields(outboundQueue, armed, wire, disconnected)
    }

    ghost predicate Valid()
      reads this
    {
      InProgress(outboundQueue)
    }

    constructor (maxMessageLength: nat, eager: bool)
      ensures Valid() && View() == Fields([], false, [], false)
      ensures this.maxMessageLength == maxMessageLength && this.eager == eager
    {
      this.maxMessageLength, this.eager := maxMessageLength, eager;
      outboundQueue, armed, wire, disconnected := [], false, [], false;
    }

    /** Refuses (PANICs on) a message over the limit; queues any other behind all
        those before it. */
    method SendMessage(m: Message) returns (ok: bool)
      requires Valid()
      modifies this
      ensures Valid()
      ensures ok <==> |m.payload| <= maxMessageLength
      ensures View() == if ok then Queued(old(View()), m) else old(View())
      ensures Unsent(outboundQueue) == old(Unsent(outboundQueue)) + (if ok then EncodeMessage(m) else [])
    {
      if |m.payload| > maxMessageLength {
        return false;
      }
      UnsentAppend(outboundQueue, NewOutbound(m));
      NewOutboundRest(m);
      var kick := outboundQueue == [];
      outboundQueue := outboundQueue + [NewOutbound(m)];
      if kick {
        armed := true;
      }
      ok := true;
    }

    /** sendmsg: takes any number of the bytes offered, or finds the connection gone. */
    method Transmit(iov: seq<seq<Byte>>) returns (n: int)
      modifies this`wire, this`calls, this`offered, this`taken
      ensures -1 <= n <= |Concat(iov)| && (eager ==> n == |Concat(iov)|)
      ensures wire == if n == -1 then old(wire) else old(wire) + Concat(iov)[..n]
      ensures calls == old(calls) + 1 && offered == |Concat(iov)| && taken == n
    {
      n :| -1 <= n <= |Concat(iov)| && (eager ==> n == |Concat(iov)|);
      calls, offered, taken := calls + 1, |Concat(iov)|, n;
      if n > 0 {
        wire := wire + Concat(iov)[..n];
      }
    }

    /** Builds the iovec for what is left of `out` and offers it to the kernel. */
    method SendRest(out: Outbound) returns (n: int)
      requires out.bytesSent <= Size(out)
      modifies this`wire, this`calls, this`offered, this`taken
      ensures -1 <= n <= Size(out) - out.bytesSent == |Rest(out)| && (eager ==> n == |Rest(out)|)
      ensures wire == if n == -1 then old(wire) else old(wire) + Rest(out)[..n]
      ensures calls == old(calls) + 1 && offered == |Rest(out)| && taken == n
    {
      hide Concat;
      ConcatPair(out.header, out.message);
      var left := SkipSent([out.header, out.message], out.bytesSent);
      assert Concat(left) == Rest(out);
      n := Transmit(left);
    }

    /** One turn of the loop in `writable`. */
    method SendNext() returns (again: bool, ghost n: int)
      requires Valid() && outboundQueue != []
      modifies this
      ensures Valid() && CanReturn(old(View()), n) && View() == Sent(old(View()), n)
      ensures again <==> n != -1 && Completes(old(outboundQueue[0]), n)
      ensures calls == old(calls) + 1 && taken == n <= offered && (again <==> taken == offered)
      ensures eager ==> again
    {
      hide Rest;
      var out := outboundQueue[0];
      outboundQueue := outboundQueue[1..];
      var sent := SendRest(out);
      n := sent;
      if sent == -1 {
        disconnected := true;
        return false, n;
      }
      out := out.(bytesSent := out.bytesSent + sent);
      if out.bytesSent != HEADER_LENGTH + |out.message| {
        armed := true;
        outboundQueue := [out] + outboundQueue;
        return false, n;
      }
      again := true;
    }

    /** Until the connection breaks, no byte is lost, repeated or reordered, whatever
        the kernel takes; and if anything is left, the send event is armed.  It stops only
        when the queue is empty, the kernel has taken less than it was offered, or the
        connection is gone; so a kernel that takes all it is offered gets everything. */
    method Writable()
      requires Valid() && !disconnected
      modifies this
      ensures Valid()
      ensures !disconnected ==> wire + Unsent(outboundQueue) == old(wire + Unsent(outboundQueue))
      ensures wire <= old(wire + Unsent(outboundQueue))
      ensures !disconnected && outboundQueue != [] ==> armed
      ensures outboundQueue != [] || disconnected ==> calls > old(calls) && taken < offered
      ensures disconnected <==> calls > old(calls) && taken == -1
      ensures eager ==> !disconnected && outboundQueue == [] && wire == old(wire + Unsent(outboundQueue))
    {
      hide Rest, Sent;
      while outboundQueue != []
        invariant Valid() && !disconnected
        invariant wire + Unsent(outboundQueue) == old(wire + Unsent(outboundQueue))
        invariant calls >= old(calls) && (calls > old(calls) ==> taken != -1)
        decreases |outboundQueue|
      {
        ghost var before := View();
        var again, n := SendNext();
        SentConserves(before, n);
        if !again {
          return;
        }
      }
    }
  }

  lemma UnsentCons(out: Outbound, later: seq<Outbound>)
    ensures Unsent([out] + later) == Rest(out) + Unsent(later)
  {
    assert ([out] + later)[1..] == later;
  }

  lemma SplitRest(wire: seq<Byte>, sent: seq<Byte>, rest: seq<Byte>, queued: seq<Byte>)
    ensures (wire + sent) + rest + queued == wire + (sent + rest) + queued
    ensures wire + (sent + rest) + queued == wire + ((sent + rest) + queued)
    ensures (wire + sent) + rest + queued == (wire + sent) + (rest + queued)
  {
  }

  lemma SentConserves(f: Fields, n: int)
    requires CanReturn(f, n) && InProgress(f.queue) && !f.disconnected
    ensures Sent(f, n).disconnected == (n == -1)
    ensures n == -1 ==> Sent(f, n).wire == f.wire
    ensures n != -1 ==> Sent(f, n).wire + Unsent(Sent(f, n).queue) == f.wire + Unsent(f.queue)
    ensures if n != -1 && Completes(f.queue[0], n) then |Sent(f, n).queue| < |f.queue|
            else Sent(f, n).disconnected || Sent(f, n).armed
  {
    hide Rest;
    if n >= 0 {
      var out, later := f.queue[0], f.queue[1..];
      var out' := out.(bytesSent := out.bytesSent + n);
      assert out in f.queue && f.queue == [out] + later;
      RestAfter(out, n);
      RestAfter(out', 0);
      UnsentCons(out', later);
      var queued := Unsent(later);
      assert Unsent(f.queue) == Rest(out) + queued;
      assert Unsent(Sent(f, n).queue) == Rest(out') + queued;
      hide Unsent, Sent;
      SplitRest(f.wire, Rest(out)[..n], Rest(out'), queued);
    }
  }
}
