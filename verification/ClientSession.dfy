/** The critical sections of RPC/ClientSession: what each of them does to the map of
    pending responses, the RPC counter, the ping and its timer.

    The functions say what a section does to the protected fields as a value; the
    class `ClientSession` runs the sections on mutable fields.  The protocol they
    form with OpaqueClientRPC and ClientRPC is in RpcProtocol. */
module ClientSession {
  import opened Basics
  import opened Framing

  type Buffer = seq<Byte>
  type MessageId = nat

  /** Protocol::Common::PING_MESSAGE_ID and VERSION_MESSAGE_ID, the reserved ids. */
  const PING_MESSAGE_ID: MessageId := TWO_TO_THE_64 - 1
  const VERSION_MESSAGE_ID: MessageId := TWO_TO_THE_64 - 2

  const DISCONNECTED: string := "Disconnected from server"
  const TIMED_OUT: string := "Server timed out"

  datatype ResponseStatus = WAITING | HAS_REPLY | CANCELED

  datatype Response = Response(status: ResponseStatus, reply: Buffer, hasWaiter: bool)

  datatype Timer = Off | At(when: nat)

  datatype Fields = Fields(
    pingTimeout: nat,
    hasSocket: bool,
    nextMessageId: MessageId,
    responses: map<MessageId, Response>,
    errorMessage: string,
    numActiveRPCs: nat,
    activePing: bool,
    timer: Timer)

  /** uint32_t arithmetic on numActiveRPCs. */
  function Increment(n: nat): nat {
    (n + 1) % TWO_TO_THE_32
  }

  function Decrement(n: nat): nat {
    (n + TWO_TO_THE_32 - 1) % TWO_TO_THE_32
  }

  /** Event::Timer::schedule(PING_TIMEOUT_NS), which never deschedules. */
  function Schedule(f: Fields, now: nat): Timer {
    At(now + if f.pingTimeout == 0 then 1 else f.pingTimeout)
  }

  predicate TakesPing(f: Fields, id: MessageId) {
    id == PING_MESSAGE_ID && f.numActiveRPCs > 0 && f.activePing
  }

  /** The message is the reply that the response for `id` accepts. */
  predicate TakesReply(f: Fields, id: MessageId) {
    id != PING_MESSAGE_ID && id in f.responses && f.responses[id].status != HAS_REPLY
  }

  function Received(f: Fields, id: MessageId, message: Buffer, now: nat): Fields {
    if TakesPing(f, id) then f.(activePing := false, timer := Schedule(f, now))
    else if TakesReply(f, id) then
      var n := Decrement(f.numActiveRPCs);
      f.(numActiveRPCs := n,
         timer := if n == 0 then Off else Schedule(f, now),
         responses := f.responses[id := f.responses[id].(status := HAS_REPLY, reply := message)])
    else f
  }

  function Disconnected(f: Fields): Fields {
    if f.errorMessage == "" then f.(errorMessage := DISCONNECTED) else f
  }

  predicate TimerIgnored(f: Fields) {
    !f.hasSocket || f.numActiveRPCs == 0 || f.errorMessage != ""
  }

  /** The timer handler sends a ping. */
  predicate SendsPing(f: Fields) {
    !TimerIgnored(f) && !f.activePing
  }

  /** The timer handler fails the session. */
  predicate Expires(f: Fields) {
    !TimerIgnored(f) && f.activePing
  }

  function TimerEvent(f: Fields, now: nat): Fields {
    if SendsPing(f) then f.(activePing := true, timer := Schedule(f, now))
    else if Expires(f) then f.(errorMessage := TIMED_OUT)
    else f
  }

  function Requested(f: Fields, now: nat): Fields {
    var n := Increment(f.numActiveRPCs);
    var g := f.(nextMessageId := f.nextMessageId + 1,
                responses := f.responses[f.nextMessageId := Response(WAITING, [], false)],
                numActiveRPCs := n);
    if n == 1 then g.(activePing := false, timer := Schedule(f, now)) else g
  }

  function Cancelled(f: Fields, id: MessageId): Fields {
    if id !in f.responses then f
    else
      f.(responses := if f.responses[id].hasWaiter then f.responses[id := f.responses[id].(status := CANCELED)]
                      else f.responses - {id},
         numActiveRPCs := Decrement(f.numActiveRPCs))
  }

  datatype News = NoEntry | Reply(reply: Buffer) | Failure(error: string) | NothingYet(canceled: bool)

  /** What `update` finds out; only an answer removes the entry. */
  function Lookup(f: Fields, id: MessageId): News {
    if id !in f.responses then NoEntry
    else if f.responses[id].status == HAS_REPLY then Reply(f.responses[id].reply)
    else if f.errorMessage != "" then Failure(f.errorMessage)
    else NothingYet(f.responses[id].status == CANCELED)
  }

  function Updated(f: Fields, id: MessageId): Fields {
    if Lookup(f, id).Reply? || Lookup(f, id).Failure? then f.(responses := f.responses - {id}) else f
  }

  /** Whether `wait` goes (back) to sleep. */
  predicate KeepsWaiting(f: Fields, id: MessageId, timeout: int, now: nat) {
    id in f.responses && f.responses[id].status == WAITING && f.errorMessage == "" && timeout >= now
  }

  /** One pass of the loop in `wait`, from the wake-up to the next sleep or the return. */
  function Waited(f: Fields, id: MessageId, timeout: int, now: nat): Fields {
    if id !in f.responses then f
    else if f.responses[id].status == CANCELED then f.(responses := f.responses - {id})
    else f.(responses := f.responses[id := f.responses[id].(hasWaiter := KeepsWaiting(f, id, timeout, now))])
  }

  /** The sections as they are written. */
  class ClientSession {
    const pingTimeout: nat
    const hasSocket: bool
    var nextMessageId: MessageId
    var responses: map<MessageId, Response>
    var errorMessage: string
    var numActiveRPCs: nat
    var activePing: bool
    var timer: Timer

    function View(): Fields
      reads this
    {
      Fields(pingTimeout, hasSocket, nextMessageId, responses, errorMessage, numActiveRPCs, activePing, timer)
    }

    constructor (pingTimeout: nat, hasSocket: bool, errorMessage: string)
      ensures View() == Fields(pingTimeout, hasSocket, 0, map[], errorMessage, 0, false, Off)
    {
      this.pingTimeout, this.hasSocket, this.errorMessage := pingTimeout, hasSocket, errorMessage;
      nextMessageId, responses, numActiveRPCs, activePing, timer := 0, map[], 0, false, Off;
    }

    method ScheduleTimer(now: nat)
      modifies this`timer
      ensures timer == Schedule(View(), now)
    {
      timer := At(now + if pingTimeout == 0 then 1 else pingTimeout);
    }

    method HandleReceivedMessage(id: MessageId, message: Buffer, now: nat)
      modifies this
      ensures View() == Received(old(View()), id, message, now)
    {
      if id == PING_MESSAGE_ID {
        if numActiveRPCs > 0 && activePing {
          activePing := false;
          ScheduleTimer(now);
        }
        return;
      }
      if id !in responses {
        return;
      }
      var response := responses[id];
      if response.status == HAS_REPLY {
        return;
      }
      numActiveRPCs := Decrement(numActiveRPCs);
      if numActiveRPCs == 0 {
        timer := Off;
      } else {
        ScheduleTimer(now);
      }
      response := response.(status := HAS_REPLY);
      response := response.(reply := message);
      responses := responses[id := response];
    }

    method HandleDisconnect()
      modifies this
      ensures View() == Disconnected(old(View()))
    {
      if errorMessage == "" {
        errorMessage := DISCONNECTED;
      }
    }

    method HandleTimerEvent(now: nat) returns (pinged: bool)
      modifies this
      ensures View() == TimerEvent(old(View()), now)
      ensures pinged == old(SendsPing(View()))
    {
      pinged := false;
      if !hasSocket || numActiveRPCs == 0 || errorMessage != "" {
        return;
      }
      if !activePing {
        activePing := true;
        pinged := true;
        ScheduleTimer(now);
      } else {
        errorMessage := TIMED_OUT;
      }
    }

    /** `sent` says whether the request then goes out on the message socket under its id. */
    method SendRequest(now: nat) returns (id: MessageId, sent: bool)
      modifies this
      ensures View() == Requested(old(View()), now) && id == old(nextMessageId)
      ensures sent == hasSocket
    {
      sent := false;
      id := nextMessageId;
      nextMessageId := nextMessageId + 1;
      responses := responses[id := Response(WAITING, [], false)];
      numActiveRPCs := Increment(numActiveRPCs);
      if numActiveRPCs == 1 {
        activePing := false;
        ScheduleTimer(now);
      }
      if hasSocket {
        sent := true;
      }
    }

    method Cancel(id: MessageId)
      modifies this
      ensures View() == Cancelled(old(View()), id)
    {
      if id !in responses {
        return;
      }
      if responses[id].hasWaiter {
        responses := responses[id := responses[id].(status := CANCELED)];
      } else {
        responses := responses - {id};
      }
      numActiveRPCs := Decrement(numActiveRPCs);
    }

    method Update(id: MessageId) returns (news: News)
      modifies this
      ensures View() == Updated(old(View()), id) && news == Lookup(old(View()), id)
    {
      if id !in responses {
        return NoEntry;
      }
      var response := responses[id];
      if response.status == HAS_REPLY {
        news := Reply(response.reply);
      } else if errorMessage != "" {
        news := Failure(errorMessage);
      } else {
        return NothingYet(response.status == CANCELED);
      }
      responses := responses - {id};
    }

    method WaitPass(id: MessageId, timeout: int, now: nat) returns (sleep: bool)
      modifies this
      ensures View() == Waited(old(View()), id, timeout, now)
      ensures sleep == KeepsWaiting(old(View()), id, timeout, now)
    {
      if id !in responses {
        return false;
      }
      responses := responses[id := responses[id].(hasWaiter := false)];
      if responses[id].status == HAS_REPLY {
        return false;
      } else if responses[id].status == CANCELED {
        responses := responses - {id};
        assert responses == old(responses) - {id};
        return false;
      } else if errorMessage != "" {
        return false;
      } else if timeout < now {
        return false;
      }
      responses := responses[id := responses[id].(hasWaiter := true)];
      sleep := true;
    }
  }
}
