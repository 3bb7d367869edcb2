# A verified model of LogCabin's client library, RPC transport and event loop

LogCabin's clients reach the cluster through an event loop whose lock parks the
dispatching thread, message sockets that frame messages over a byte stream, RPC
sessions with cancellation and pings, and a client library that finds the leader,
numbers its RPCs and limits its connection attempts. This project models that code in
Dafny and proves what it promises over every input, every interleaving and every run.

Code that changes fields step by step is a class here, with a method for each critical
section or turn of a loop, and each such method is proved equal to a function on the
fields. A protocol is a state machine whose steps are those functions: any number of
threads, messages and RPCs, in any order, with any partial read or send and any spurious
wake-up. In `Channel.dfy` the steps are finer, since other threads may queue messages in
the middle of a turn of `writable`; `TurnIsSteps` and `SendMessageIsSteps` prove that
they make up the methods of the sending socket. The theorems are about every run of
these machines. An operation that gives up its mutex half way
(`Loop::Lock`'s constructor, `runForever`, `writable`, `OpaqueClientRPC::cancel` and
`waitForReply`, `ClientSession::wait`, `getSession`) is several steps, so that other
threads can come in between.

| file | source | main results |
|---|---|---|
| `EventLoop.dfy` | Event/Loop.cc | `LockContract`, `NoLostWakeup`, `BlockedGetsThrough`, `ExitIsObeyed`, `ReturnHasCause` |
| `Framing.dfy`, `MessageReceiver.dfy`, `MessageSender.dfy`, `Channel.dfy` | RPC/MessageSocket.cc | `ReadableMatchesParser`, `SenderGuarantee`, `EndToEnd`, `EverythingArrives` |
| `ClientSession.dfy`, `RpcProtocol.dfy` | RPC/ClientSession.cc, RPC/OpaqueClientRPC.cc, RPC/ClientRPC.cc | `RpcGuarantee`, `AnswersAreFinal`, `ExactAccounting`, `CountsUnlessDrift`, `ExactLeak` |
| `RpcAnswers.dfy` | RPC/OpaqueClientRPC.cc, RPC/ClientRPC.cc | `PollAnswers`, `DisconnectAnswers`, `CancelIsFinal` |
| `Heartbeat.dfy` | RPC/ClientSession.cc | `TimeoutIsJustified`, `TimeoutMeansSilence`, `WatchedIff`, `NoticedIff`, `SilentServerIsNoticed` |
| `LeaderRpc.dfy` | Client/LeaderRPC.cc | `OneConnector`, `StepKeepsInvIff`, `SessionIsShared`, `RedirectIsFollowed`, `HintSurvives`, `BadSessionIsGone` |
| `ExactlyOnce.dfy` | Client/ClientImpl.cc | `Numbering`, `FirstOutstandingIsExact` |
| `Backoff.dfy` | Client/Backoff.cc | `AtMostPerWindow`, `BeginsIff` |
| `Config.dfy`, `ConfigRoundTrip.dfy`, `ConfigSyntax.dfy` | Core/Config.cc | `RoundTripIff`, `CommentsAreIgnored` |
| `LogPolicy.dfy`, `Text.dfy` | Core/Debug.cc, Core/StringUtil.cc | `PolicyRoundTripIff`, `SameLevels`, `Serve` |
| `Canonicalize.dfy` | Client/ClientImpl.cc | `FailsIff`, `CanonicalIsFixed`, `CanonicalWorkingDirectory`, `DownAndUp`, `DocumentedIff` |
| `Time.dfy`, `Durations.dfy` | Core/Time.cc, Client/ClientImpl.cc | `ConvertIff`, `AbsTimeoutIsExact`, `DurationIff`, `DurationOf` |

`Basics.dfy` holds what several modules share. `dafny verify dfyconfig.toml` checks the whole project.

## Where the code does not do what its documentation says

- `numActiveRPCs` is documented (RPC/ClientSession.h:321-328) as the number of requests
  sent whose responses have not been received. A reply that is followed by a cancel
  counts down twice, so the unsigned counter stands at 2^32 - 1 with nothing outstanding
  (`CounterWraps`). `ExactAccounting` gives its value in every run, and
  `CountsUnlessDrift` the exact steps that move it off the documented value.
- The same lines say that the timer is scheduled if `numActiveRPCs` is non-zero. After the
  wrap it is not, and the next request is WAITING with a counter of 0 and no timer, so
  that a dead server is never noticed (`DeadServerUnnoticed`). `WatchedIff` says in exactly
  which runs the timer is always scheduled, and `NoticedIff` in exactly which states a
  server that falls silent is noticed.
- `cancel` leaves the deletion of an entry to the thread in `wait`
  (RPC/ClientSession.cc:433-437), which finds HAS_REPLY instead of CANCELED if a reply
  comes first, and the entry stays until the session ends (`LateReplyLeaks`). `ExactLeak`
  counts such entries exactly.
- `Backoff`'s constructor stores max(1, windowCount) but fills its deque from the
  parameter, so that with a window count of 0 every call in time throws, at any point of
  any run, and with no other count does any (`ZeroWindowThrows`).
- `parseSignedDuration` answers 0 for a number at or below INT64_MIN in any unit but
  nanoseconds, instead of saturating, because the absolute value of INT64_MIN is itself
  (`DurationIff`).
- Paths that do not begin with a slash are documented to be resolved from the working
  directory (include/LogCabin/Client.h:311-312), but the empty path canonicalizes to "/"
  from any working directory (`EmptyPathIsRoot`). The documentation is met if and only if
  the path is not empty or the working directory is itself the root (`DocumentedIff`).
- getSession clears the hint that it believes its attempt has used
  (Client/LeaderRPC.cc:255-256, 287-288). A redirect to another host that is reported for
  the null session while a thread connects is cleared unused (`NullReportLosesHint`);
  `StepKeepsInvIff` and `HintMatchesIff` show that exactly these reports do it, and the
  theorems about `LeaderRPC` are about all runs without them. The null session can come
  from `Call::cancel` (Client/LeaderRPC.cc:101-106), which resets the session of a call
  while another thread is in `Call::wait`, as when a client that is being destroyed cancels
  its keep-alive call (Client/ClientImpl.cc:252-253). Where `reportRedirect` also logs, at
  NOTICE when the count of failures is a power of two and otherwise at VERBOSE, it
  dereferences the null session before it touches the hint.

## Model

| member | source | states |
|---|---|---|
| EventLoop.Loop.constructor | Event/Loop.cc:97-111 | A new loop has no running thread, no lock owner, no Locks and no request to exit |
| EventLoop.Loop.BeginLock | Event/Loop.cc:48-68 | The whole new state of a Lock constructor up to its return or its first wait, and that the break timer is armed exactly when a loop runs in another thread and the caller holds nothing |
| EventLoop.Loop.AwakenLock | Event/Loop.cc:60-67 | A woken constructor takes the lock exactly when nobody runs the loop or owns the lock, and otherwise changes nothing |
| EventLoop.Loop.EndLock | Event/Loop.cc:72-85 | The destructor's new state and which of the two condition variables it signals |
| EventLoop.Loop.RunTop | Event/Loop.cc:127-140 | Whether the loop's thread parks, returns or starts a dispatch round, and the state it leaves |
| EventLoop.Loop.RequestExit | Event/Loop.cc:167-172 | exit() sets the flag and nothing else |
| EventLoop.StepKeepsInv | Event/Loop.cc:48-85 | Every atomic step of any thread keeps exclusion, the counters and the pending wake-ups |
| EventLoop.RunKeepsInv | Event/Loop.cc:123-164 | The invariant holds in every state of every run, for any number of threads |
| EventLoop.LockContract | Event/Loop.h:41-50 | The written contract: whoever has a Lock is the loop's thread, or no other thread has one and no handler is active; the counters equal held and held plus blocked; only the holder gets a further Lock at once |
| EventLoop.LocksComeAndGo | Event/Loop.cc:48-85 | In every run a Lock constructor gives its thread one more Lock at once if that thread has the loop or the lock, or nobody has, and blocks it otherwise; a destructor takes one away; and no other thread's Locks change |
| EventLoop.NoLostWakeup | Event/Loop.cc:53-67 | Never both a runner and an owner; if nobody has the lock a blocked constructor is already awake; a parked loop without Locks is awake; every blocked constructor armed the break timer in the current round, so epoll_wait can return |
| EventLoop.NextStep | Event/Loop.cc:72-85 | While a constructor is blocked, some thread has a finishing step enabled that brings it strictly closer to the lock |
| EventLoop.BlockedGetsThrough | Event/Loop.cc:131-134 | No deadlock: from every state with a blocked constructor a bounded sequence of finishing steps, without spurious wake-ups, gives the lock to a thread that was blocked |
| EventLoop.ExitStopsTheLoop | Event/Loop.cc:135-138 | After exit() no further dispatch round begins, and the flag stays set, until runForever returns |
| EventLoop.ExitIsNotMissed | Event/Loop.cc:135-140 | In no run is the flag set while the loop's thread is in epoll_wait or about to enter it |
| EventLoop.ExitNextStep | Event/Loop.cc:131-138 | With the flag set, some thread has a finishing step enabled that makes runForever return or brings it strictly closer |
| EventLoop.ExitGetsThrough | Event/Loop.cc:131-138 | From every such state a bounded sequence of finishing steps, without spurious wake-ups, makes runForever return |
| EventLoop.ExitReturns | Event/Loop.h:84-93 | The promise of exit(), in every run: wherever the flag is set and a thread is inside runForever, finishing steps bounded by the Locks held and blocked make it return |
| EventLoop.ExitIsHeard | Event/Loop.cc:167-172 | From a call of exit() until runForever returns, the flag is set and no dispatch round begins |
| EventLoop.ExitIsObeyed | Event/Loop.h:84-93 | After a call of exit() with no return since, finishing steps make the thread inside runForever return |
| EventLoop.NextRunExits | Event/Loop.h:88-89 | If none is inside, the next runForever returns at once if and only if there are no Locks, and otherwise parks and then returns, without a round |
| EventLoop.ReturnHasCause | Event/Loop.h:76-82 | runForever returns only after a call of exit() with no return since |
| Framing.DecodeEncode | RPC/MessageSocket.cc:107-123 | Big-endian encoding followed by decoding is the identity on every value that fits the width |
| Framing.EncodeDecode | RPC/MessageSocket.cc:107-123 | Decoding followed by encoding is the identity on every byte string |
| Framing.HeaderRoundTrip | RPC/MessageSocket.cc:116-123 | Every header whose fields fit survives toBigEndian then fromBigEndian |
| Framing.HeaderBytesRoundTrip | RPC/MessageSocket.cc:107-114 | Every 16 bytes are the encoding of the header they decode to |
| Framing.HeaderLayout | RPC/MessageSocket.cc:150-161 | The bytes of an encoded message by position: da f4 00 01, then length and id, most significant byte first, then the payload |
| Framing.AcceptableIff | RPC/MessageSocket.cc:255-276 | A receiver accepts 16 bytes if and only if they begin with da f4 00 01 and the next four, most significant first, do not exceed its limit |
| Framing.ParseResumes | RPC/MessageSocket.cc:237-309 | Parsing may stop anywhere in the stream and resume from the incomplete frame; after a rejection nothing more is parsed |
| Framing.ParseOfPrefix | RPC/MessageSocket.cc:237-309 | A stream cut short yields a prefix of the messages, and its rejection is that of the whole stream |
| Framing.ParseFrame | RPC/MessageSocket.cc:150-161 | An encoded message in front of any bytes is parsed as that message, or rejected at its header if over the receiver's limit |
| Framing.FittingPrefix | RPC/MessageSocket.cc:270-276 | The number of messages before the first one over the limit |
| Framing.ParseWire | RPC/MessageSocket.cc:150-161 | Round trip: the encodings of any messages parse back to exactly those messages, up to the first one over the limit, whose header is the one rejected |
| MessageReceiver.OnBytesTakes | RPC/MessageSocket.cc:289-306 | The frames delivered and the current one account for exactly the bytes read, before and after every read |
| MessageReceiver.OnBytesAgrees | RPC/MessageSocket.cc:237-309 | One read of any size keeps the receiver in agreement with the one-shot parser on all bytes consumed |
| MessageReceiver.ReadingAgrees | RPC/MessageSocket.cc:237-309 | So does any sequence of reads |
| MessageReceiver.ReadableMatchesParser | RPC/MessageSocket.cc:237-309 | For every byte stream, well-formed or not, and every split into reads: the same messages in the same order, disconnection at the same frame, the bytes consumed exactly the frames delivered and the part received of the current one (so nothing past a rejected header), and nothing deliverable left over |
| MessageReceiver.Kernel.Read | RPC/MessageSocket.cc:311-324 | The environment: any number of the available bytes is moved to the buffer, in order, or the connection is gone; an eager kernel gives all it can |
| MessageReceiver.ReceiveSocket.constructor | RPC/MessageSocket.cc:127-132 | A new socket has delivered and consumed nothing and agrees with the parser |
| MessageReceiver.ReceiveSocket.AcceptHeader | RPC/MessageSocket.cc:254-279 | A complete header is accepted, and room for its payload made, exactly if magic, version and length are right, and otherwise the socket disconnects |
| MessageReceiver.ReceiveSocket.ReadHeader | RPC/MessageSocket.cc:242-280 | The header branch changes the receiver by exactly the bytes it took, conserves the bytes, delivers nothing, and goes on only with a complete accepted header |
| MessageReceiver.ReceiveSocket.ReadPayload | RPC/MessageSocket.cc:287-307 | The payload branch changes the receiver by exactly the bytes it took, conserves the bytes, and goes on only after a delivery, empty payloads included |
| MessageReceiver.ReceiveSocket.Readable | RPC/MessageSocket.cc:237-309 | Ends on every finite input whatever the kernel does; it reads, and stops only after a read that got less than it wanted, at a rejected header, or with the connection gone; everything handed over is the one-shot parse of the bytes taken, nothing is taken beyond the current frame, and no complete frame is left undelivered; from a kernel that gives all it has, the messages are the one-shot parse of everything that had arrived |
| MessageSender.SkipSent | RPC/MessageSocket.cc:355-368 | The iovec that remains denotes exactly the bytes after those already sent |
| MessageSender.UnsentAppend | RPC/MessageSocket.cc:216-221 | Queueing a message puts its bytes after all unsent bytes |
| MessageSender.RestAfter | RPC/MessageSocket.cc:394-402 | Sending n more bytes takes exactly the first n of the rest |
| MessageSender.SendSocket.constructor | RPC/MessageSocket.cc:174-188 | A new socket has nothing queued, nothing sent and no send event |
| MessageSender.SendSocket.SendMessage | RPC/MessageSocket.cc:206-225 | Refuses exactly the messages over the limit; any other's encoding follows all unsent bytes; the event is armed if the queue was empty |
| MessageSender.SendSocket.Transmit | RPC/MessageSocket.cc:375-392 | The environment: the kernel takes any prefix of the bytes offered, or finds the connection gone; an eager kernel takes them all |
| MessageSender.SendSocket.SendRest | RPC/MessageSocket.cc:346-395 | The iovec offers exactly what remains of the message, and the kernel takes a prefix of it |
| MessageSender.SendSocket.SendNext | RPC/MessageSocket.cc:333-402 | The whole new state of one turn of the loop for any answer of sendmsg, and that the loop goes on exactly after a complete message |
| MessageSender.SentConserves | RPC/MessageSocket.cc:394-402 | A turn keeps wire plus unsent bytes, shortens the queue or leaves the event armed, unless the connection is gone |
| MessageSender.SendSocket.Writable | RPC/MessageSocket.cc:326-404 | Until disconnection no byte is lost, repeated or reordered, and if anything is left the send event is armed; it stops only with the queue empty, after the kernel took less than it was offered, or with the connection gone, so that an eager kernel gets everything |
| Channel.TurnIsSteps | RPC/MessageSocket.cc:333-402 | The machine's steps for a turn of `writable`, taken without interruption, leave the same fields as the method for every answer of sendmsg, and leave the loop when it does |
| Channel.SendMessageIsSteps | RPC/MessageSocket.cc:216-224 | So do the steps for sendMessage |
| Channel.TransmitConserves | RPC/MessageSocket.cc:375-402 | A partial send keeps the conservation of bytes, and the wire only grows |
| Channel.StepKeepsInv | RPC/MessageSocket.cc:326-404 | Every step of senders, writer, pipe and receiver keeps conservation, attendance of the queue and the receiver's agreement |
| Channel.RunKeepsInv | RPC/MessageSocket.cc:206-404 | They hold in every state of every run |
| Channel.SenderGuarantee | RPC/MessageSocket.cc:216-224 | Bytes on the wire, rest of the message in flight and unsent bytes of the queue are the encodings in enqueue order; a non-empty queue has the event armed, `writable` running, or a sender about to arm it |
| Channel.EndToEnd | RPC/MessageSocket.cc:206-404 | Any interleaving of senders, partial sends and partial reads: messages delivered are a prefix of those enqueued, ids and payloads included; a header is rejected only for a message over the receiver's limit; after everything has been sent and read, everything up to that message has been delivered |
| Channel.SendProgress | RPC/MessageSocket.cc:326-404 | While anything is queued or in flight and the connection holds, the sender has an enabled step that brings it strictly closer to an empty queue |
| Channel.EverythingArrives | RPC/MessageSocket.cc:206-404 | No message is stuck: from every state of every run with the connection intact, steps of sender, event loop and receiver deliver everything queued so far, up to the first message over the receiver's limit |
| ClientSession.ClientSession.constructor | RPC/ClientSession.cc:221-241 | A new session has no entries, no active RPC, no ping and no timer |
| ClientSession.ClientSession.HandleReceivedMessage | RPC/ClientSession.cc:80-133 | The whole new state for a ping reply, an unknown id, a second reply and an accepted reply, with the counter's wrap-around |
| ClientSession.ClientSession.HandleDisconnect | RPC/ClientSession.cc:135-153 | The first error is kept |
| ClientSession.ClientSession.HandleTimerEvent | RPC/ClientSession.cc:173-212 | Ignores, pings or expires, and reports when it pinged |
| ClientSession.ClientSession.SendRequest | RPC/ClientSession.cc:377-402 | Allocates the next id with a WAITING entry; the first active RPC restarts ping and timer; the request goes out exactly if there is a socket |
| ClientSession.ClientSession.Cancel | RPC/ClientSession.cc:425-456 | An entry with a waiter is marked, any other erased; the counter goes down in both cases |
| ClientSession.ClientSession.Update | RPC/ClientSession.cc:458-490 | What is found out, and that exactly an answer removes the entry |
| ClientSession.ClientSession.WaitPass | RPC/ClientSession.cc:492-522 | One pass of the wait loop: sleeps exactly while the entry is WAITING, the session has no error and the timeout has not passed; deletes a cancelled entry |
| RpcProtocol.OpaqueClientRPC.constructor | RPC/OpaqueClientRPC.cc:29-37 | A new RPC is NOT_READY |
| RpcProtocol.OpaqueClientRPC.Cancel | RPC/OpaqueClientRPC.cc:66-78 | No effect on a finished RPC; otherwise the RPC and its session's entry are both given up |
| RpcProtocol.OpaqueClientRPC.Update | RPC/OpaqueClientRPC.cc:129-134 | RPC and session change together, by what the session knows of the RPC's own id |
| RpcProtocol.RefreshFacts | RPC/ClientSession.cc:458-490 | From a consistent RPC both asserts in `update` hold, and afterwards RPC and entry are consistent again |
| RpcProtocol.StepKeepsInv | RPC/ClientSession.cc:425-522 | Every step of owners, cancelling threads, event loop and clock keeps all RPCs consistent with their entries |
| RpcProtocol.RunKeepsInv | RPC/ClientSession.cc:377-522 | They are consistent in every state of every run |
| RpcProtocol.RpcGuarantee | RPC/ClientRPC.cc:109-120 | With its mutex free, a NOT_READY RPC has an entry that is WAITING or HAS_REPLY; no entry is deleted under a sleeping owner; OK carries the first reply for its own id; both asserts in `update` hold; the PANIC for a missing timeout is unreachable |
| RpcProtocol.FinalStep | RPC/OpaqueClientRPC.cc:66-78 | No step changes the answer of a finished RPC or the first reply of any |
| RpcProtocol.ErrorStep | RPC/ClientSession.cc:135-153 | No step changes an error of the session |
| RpcProtocol.AnswersAreFinal | RPC/OpaqueClientRPC.cc:107-134 | Over whole runs: status leaves NOT_READY at most once, and answers, first replies and session errors never change |
| RpcProtocol.ExactAccounting | RPC/ClientSession.cc:377-490 | In every run, modulo 2^32: `numActiveRPCs` is the WAITING entries, plus those erased on a session error, minus cancels that found a reply, minus replies that found a cancelled entry |
| RpcProtocol.DriftMoves | RPC/ClientSession.cc:438-451 | A step moves the drift, by one, exactly if it is one of the three meetings |
| RpcProtocol.CountsUnlessDrift | RPC/ClientSession.h:321-328 | From a state where the counter counts the WAITING entries, a step keeps it so if and only if it is none of the three meetings |
| RpcProtocol.CounterWraps | RPC/ClientSession.h:321-328 | The documented meaning fails: a run of three steps after which the counter is 2^32 - 1 with no WAITING entry |
| RpcProtocol.OutlivesStep | RPC/ClientSession.cc:433-449 | Per entry: a step leaves behind the entry of a cancelled RPC if and only if it is a reply that finds it CANCELED, and no step removes one |
| RpcProtocol.ExactLeak | RPC/ClientSession.cc:500-516 | In every run the entries that outlive their cancelled RPCs are exactly as many as the replies that found a cancelled entry, and they are never removed |
| RpcProtocol.LateReplyLeaks | RPC/ClientSession.cc:112-132 | A concrete run that leaves an entry behind |
| RpcAnswers.PollAnswers | RPC/ClientSession.cc:473-489 | In every run, a step that calls `update` leaves an unanswered RPC OK with its first reply if one has arrived, even if the session failed since; otherwise ERROR with the session's error if it has one; otherwise as it was |
| RpcAnswers.TimeoutHasPassed | RPC/ClientRPC.cc:109-120 | In every run, an owner that was told NOT_READY finds the clock past its timeout |
| RpcAnswers.Recorded | RPC/ClientRPC.cc:112-119 | The records of PANICs and failed asserts in the protocol are made exactly at the steps where the code would PANIC or abort |
| RpcAnswers.AnswerIsReturned | RPC/ClientRPC.cc:110-127 | waitForReply goes on to the clock exactly if it was told NOT_READY |
| RpcAnswers.DisconnectFails | RPC/ClientSession.cc:135-153 | From a disconnect on the session has an error for good: its own, or the one it had before |
| RpcAnswers.NobodySleepsOn | RPC/ClientSession.cc:500-516 | After a disconnect the next pass of any owner's wait is the last |
| RpcAnswers.DisconnectAnswers | RPC/OpaqueClientRPC.cc:107-134 | After a disconnect the two steps an owner has left answer its RPC: OK if its reply had arrived, otherwise ERROR with the session's error |
| RpcAnswers.CancelIsFinal | RPC/OpaqueClientRPC.cc:66-78 | Once a cancel has found an RPC unanswered, no reply and no error becomes its answer |
| RpcAnswers.CancelledIsCanceled | RPC/OpaqueClientRPC.cc:74-77 | When the cancel is through, the RPC is CANCELED, without a reply and with its message, for good |
| Heartbeat.ActivePingHasCause | RPC/ClientSession.cc:186-194 | Wherever a ping is active, an earlier timer event sent it, it has been active and unanswered ever since, and the timer does not expire before its timeout |
| Heartbeat.TimeoutIsJustified | RPC/ClientSession.cc:173-212 | A session fails as timed out only if a ping was sent at least PING_TIMEOUT_NS earlier and since then no ping reply was taken and no request raised `numActiveRPCs` to 1 |
| Heartbeat.SignOfLifeDelays | RPC/ClientSession.cc:87-127 | After a reply or a ping reply has been taken, the timer's handler neither pings nor fails the session for PING_TIMEOUT_NS |
| Heartbeat.ZeroUntilSent | RPC/ClientSession.cc:387-392 | The counter leaves zero only through one, by a request, unless it wraps below zero |
| Heartbeat.TimeoutMeansSilence | RPC/ClientSession.cc:87-101 | In runs where the counter does not wrap below zero, no ping message at all has arrived since that ping |
| Heartbeat.WatchedStepIff | RPC/ClientSession.h:326-327 | A step keeps "the timer is scheduled if the counter is non-zero" if and only if it is not a cancel that finds the counter at zero and no timer |
| Heartbeat.WatchedIff | RPC/ClientSession.h:326-327 | It holds throughout a run if and only if the run has no such cancel |
| Heartbeat.NoticedIff | RPC/ClientSession.cc:173-212 | If nothing happens but time and the timer, the session times out, and by the deadline of its timer and one more ping, if and only if the counter is non-zero and the timer is scheduled or about to be handled |
| Heartbeat.SilentServerIsNoticed | RPC/ClientSession.h:321-335 | In every run without such a cancel a silent server is noticed if and only if the WAITING entries and the counter's drift do not cancel out |
| Heartbeat.DeadServerUnnoticed | RPC/ClientSession.h:321-335 | A run of five steps after which a request is WAITING and a silent server is never noticed |
| LeaderRpc.LeaderRPC.constructor | Client/LeaderRPC.cc:164-179 | Initially nobody connects, and there is no session and no hint |
| LeaderRpc.LeaderRPC.BeginGetSession | Client/LeaderRPC.cc:218-257 | Whether a caller waits, uses the session or connects, and to which address |
| LeaderRpc.LeaderRPC.FinishGetSession | Client/LeaderRPC.cc:285-293 | The new session is shared; the hint is cleared exactly when it was used |
| LeaderRpc.LeaderRPC.ReportFailure | Client/LeaderRPC.cc:295-314 | Drops the session only if it is the one reported |
| LeaderRpc.LeaderRPC.ReportNotLeader | Client/LeaderRPC.cc:316-335 | Drops the session only if it is the one reported |
| LeaderRpc.LeaderRPC.ReportRedirect | Client/LeaderRPC.cc:337-360 | Replaces session and hint only if the session is the one reported |
| LeaderRpc.StepKeepsInvIff | Client/LeaderRPC.cc:218-360 | A step keeps the connecting flag, the attempt and the hint in agreement if and only if it is not a redirect to another host reported for the null session while a thread connects |
| LeaderRpc.RunKeepsInv | Client/LeaderRPC.cc:218-293 | In every run the connecting flag means exactly one attempt, towards the current hint, with no session |
| LeaderRpc.OneConnector | Client/LeaderRPC.cc:243-293 | While a thread connects it is the only one, there is no session, other callers wait, a report is ignored if and only if it is not such a redirect, and the hint its success clears is the address it went to |
| LeaderRpc.HintSurvives | Client/LeaderRPC.cc:255-274 | A redirect hint survives timed-out attempts, failures and stale reports until an attempt uses it or a newer redirect replaces it |
| LeaderRpc.BadSessionIsGone | Client/LeaderRPC.cc:295-360 | A session reported bad is never handed out again |
| LeaderRpc.SessionIsShared | Client/LeaderRPC.cc:240-241 | From a connection made until its session is reported bad, every caller of getSession gets that session at once and nobody begins another attempt |
| LeaderRpc.BadSessionIsReplaced | Client/LeaderRPC.cc:243-257 | After a bad report about the session in use the next caller connects, to the host of a redirect or else as the hint says |
| LeaderRpc.RedirectIsFollowed | Client/LeaderRPC.cc:337-360 | Until the hint is used or replaced, whoever connects goes to the host the redirect named |
| LeaderRpc.HintMatchesIff | Client/LeaderRPC.cc:337-360 | In every run, while a thread connects, the hint is still the address of its attempt after a report if and only if the report is about a session, is no redirect, or names the same host |
| LeaderRpc.NullReportLosesHint | Client/LeaderRPC.cc:285-289 | A concrete run in which such a redirect is cleared without having been used |
| ExactlyOnce.ExactlyOnceRPCHelper.constructor | Client/ClientImpl.cc:219-239 | Initially no client id, nothing outstanding, and 1 is the next number |
| ExactlyOnce.ExactlyOnceRPCHelper.First | Client/ClientImpl.cc:351-351 | The first of the ordered set is its least number |
| ExactlyOnce.ExactlyOnceRPCHelper.GetRPCInfo | Client/ClientImpl.cc:305-353 | A timed-out OpenSession changes nothing; otherwise the next number is issued, with the least outstanding one |
| ExactlyOnce.ExactlyOnceRPCHelper.DoneWithRPC | Client/ClientImpl.cc:355-361 | Exactly the given number is no longer outstanding |
| ExactlyOnce.IssueKeepsInv | Client/ClientImpl.cc:344-353 | Issuing keeps outstanding numbers equal to those issued and not done with, and the order of all infos |
| ExactlyOnce.RunKeepsInv | Client/ClientImpl.cc:305-361 | So it is in every run of callers and the keep-alive thread |
| ExactlyOnce.Numbering | Client/ClientImpl.cc:344-425 | Numbers increase strictly from 1 for one client id; first_outstanding_rpc never decreases, never exceeds the new number, and every number below it has been through doneWithRPC |
| ExactlyOnce.FirstOutstandingIsExact | Client/ClientImpl.cc:351-361 | It is the smallest number not yet done with, so nothing finished is held back behind it |
| ExactlyOnce.ClientIdIsFinal | Client/ClientImpl.cc:316-342 | A nonzero client id never changes |
| ExactlyOnce.ClientIdHasCause | Client/ClientImpl.cc:316-338 | The client id is one that the cluster returned while there was none |
| ExactlyOnce.IssuesIff | Client/ClientImpl.cc:316-353 | A number is issued if and only if getRPCInfo has a client id or gets one in time |
| ExactlyOnce.DoneIsDone | Client/ClientImpl.cc:355-361 | A number that has been through doneWithRPC is never outstanding again |
| ExactlyOnce.OutstandingUntilDone | Client/ClientImpl.cc:355-361 | A step takes a number off the outstanding ones if and only if it is doneWithRPC for that number |
| Backoff.Backoff.constructor | Client/Backoff.cc:21-29 | The deque starts as windowCount times minus infinity |
| Backoff.Backoff.DelayAndBegin | Client/Backoff.cc:35-55 | The outcome of a call (timed out, begun at a time, thrown) and the deque it leaves |
| Backoff.DequeHoldsLastStarts | Client/Backoff.cc:53-54 | After every run the deque is the last windowCount starts, oldest first, padded with minus infinity |
| Backoff.StartsInOrder | Client/Backoff.cc:39-54 | Starts are recorded in the order of the clock |
| Backoff.WindowSpans | Client/Backoff.cc:42-55 | Any windowCount+1 consecutive starts span at least windowDuration |
| Backoff.AtMostPerWindow | Client/Backoff.h:40-48 | The promise of the class: at most windowCount operations begin in any period of windowDuration |
| Backoff.BeginsIff | Client/Backoff.cc:39-55 | After any calls, a call begins its operation if and only if it is in time and the start windowCount starts back leaves the window within the timeout; at once if it has left already, otherwise after the sleep; and a call that does not begin changes nothing |
| Backoff.ZeroWindowThrows | Client/Backoff.cc:21-42 | After any calls, a call in time throws if and only if windowCount is 0 |
| Text.Find | Core/Config.cc:177-178 | The first occurrence of a character, or the length if there is none |
| Text.Split | Core/StringUtil.cc:142-151 | The getline loop yields the pieces between delimiters |
| Text.LinesArePieces | Core/StringUtil.cc:142-151 | It yields all pieces but an empty last one |
| Text.Join | Core/StringUtil.cc:115-125 | The loop with its special last turn puts glue exactly between components |
| Text.JoinedPieces | Core/StringUtil.cc:115-151 | Gluing the pieces of any string gives it back |
| Text.PiecesConcat | Core/StringUtil.cc:142-151 | The pieces of two strings around a delimiter are the pieces of each |
| Text.TrimsPadded | Core/Config.cc:62-82 | Trimming, from either end first, leaves exactly what is between the white space |
| Config.ReadLineFacts | Core/Config.cc:295-305 | readLine returns the cleaned lines one by one, then empty ones with the stream failed, and always makes progress |
| Config.ReadValue | Core/Config.cc:189-208 | The inner loop collects exactly the continuation lines, and the line read too far is not lost |
| Config.Read | Core/Config.cc:163-216 | The nested loops end, and store what the text's lines mean, read one entry at a time |
| Config.Print | Core/Config.cc:218-227 | The text is the entries' texts in order of iteration |
| ConfigRoundTrip.EntriesAreGood | Core/Config.cc:163-216 | Whatever the text, every entry read has a trimmed key and value lines of the round-trip domain |
| ConfigRoundTrip.EntriesRoundTrip | Core/Config.cc:163-227 | Entries of that domain, multi-line values included, are read back one for one |
| ConfigRoundTrip.RoundTripIff | Core/Config.cc:163-227 | Printing a configuration, in any order of iteration, and reading it into an empty one gives it back if and only if keys are trimmed without `=`, `#` or newline, value lines are trimmed without `#`, and continuation lines are also non-empty without `=` |
| ConfigSyntax.CommentIsCut | Core/Config.cc:300-303 | A line is read as what precedes its first `#`, trimmed |
| ConfigSyntax.CommentsAreIgnored | Core/Config.cc:295-305 | Wherever in a file a line has a comment, reading the file gives the same with and without it |
| ConfigSyntax.AssignmentIsRead | Core/Config.cc:177-187 | Key and value are read the same whatever white space is around them |
| ConfigSyntax.LastEntryWins | Core/Config.cc:210-211 | Of a repeated key the last entry counts, and other keys are left alone |
| LogPolicy.GetLogLevel | Core/Debug.cc:202-214 | The loop finds the level of the first rule that matches by prefix or suffix, NOTICE if none does |
| LogPolicy.MatchesIff | Core/StringUtil.cc:153-166 | A pattern matches exactly the names that begin or end with it |
| LogPolicy.FirstMatchDecides | Core/Debug.cc:202-214 | The first rule that matches gives the level, and NOTICE is given if none does |
| LogPolicy.PatternDecides | Core/Debug.cc:115-125 | A rule alone gives its level to `pattern + rest` and to `rest + pattern` |
| LogPolicy.RankIsOrder | Core/Debug.cc:413-413 | SILENT, ERROR, WARNING, NOTICE, VERBOSE: a level is logged under exactly those from it on |
| LogPolicy.NamesAreRead | Core/Debug.cc:179-190 | Every level is found under its name in any mixture of upper and lower case |
| LogPolicy.LogPolicyToString | Core/Debug.cc:365-392 | The text lists the rules with the default made explicit |
| LogPolicy.ParseRule | Core/Debug.cc:348-360 | The last `@` separates pattern and level |
| LogPolicy.LogPolicyFromString | Core/Debug.cc:342-363 | All rules in order, or failure on an empty rule |
| LogPolicy.RuleRoundTrip | Core/Debug.cc:348-360 | A rule with a valid level survives printing and parsing, `@` in its pattern included |
| LogPolicy.PiecesOfJoined | Core/StringUtil.cc:115-151 | Joined texts split back into themselves if and only if free of the delimiter, and into more otherwise |
| LogPolicy.PolicyRoundTripIff | Core/Debug.cc:342-392 | With valid levels, print then parse gives the policy with its explicit default if and only if no pattern contains a comma |
| LogPolicy.SameLevels | Core/Debug.cc:202-214 | Then every file name gets the same level as before |
| LogPolicy.DebugLog.constructor | Core/Debug.cc:115-135 | Initially policy and cache are empty |
| LogPolicy.DebugLog.SetLogPolicy | Core/Debug.cc:325-332 | The new policy is in force and no stale cache entry is left |
| LogPolicy.DebugLog.IsLogging | Core/Debug.cc:401-414 | The answer through the cache is that of a fresh look-up, the cache stays in agreement, and the file is cached from then on |
| LogPolicy.Serve | Core/Debug.cc:325-414 | After any sequence of policy changes and queries every answer is that of a look-up in the policy then in force |
| Canonicalize.Split | Client/ClientImpl.cc:103-119 | Appends exactly the non-empty words between slashes |
| Canonicalize.Iron | Client/ClientImpl.cc:667-691 | The in-place erase loop ends and refines a walk with a stack, failing exactly when the walk does |
| Canonicalize.Print | Client/ClientImpl.cc:692-697 | The text of the components, "/" for none |
| Canonicalize.Canonicalize | Client/ClientImpl.cc:645-699 | The whole operation, both errors included, is the walk of the path's components |
| Canonicalize.ComponentsOfSlashed | Client/ClientImpl.cc:103-119 | Splitting a printed path gives its components back |
| Canonicalize.CanonicalIsFixed | Client/ClientImpl.cc:645-699 | A result is absolute, has no empty, "." or ".." component, no two slashes in a row and none at its end unless it is the root, and canonicalizes to itself from anywhere |
| Canonicalize.CanonicalWorkingDirectory | Client/ClientImpl.cc:645-699 | Replacing an absolute working directory by its canonical form never changes the outcome |
| Canonicalize.DownAndUp | Client/ClientImpl.cc:667-697 | From where a path leads, a name leads one component further, "." nowhere else, and ".." to the parent, or above root from the root |
| Canonicalize.UpUndoesDown | Client/ClientImpl.cc:670-675 | Going down to a name and up again changes nothing |
| Canonicalize.RelativeIsBelow | Client/ClientImpl.cc:652-666 | A relative path is looked up below an absolute working directory |
| Canonicalize.WalkDepth | Client/ClientImpl.cc:667-691 | The walk succeeds if and only if no prefix has more ".." than names, and ends at the depth that remains |
| Canonicalize.FailsIff | Client/ClientImpl.cc:645-699 | Each error happens if and only if its condition on the inputs holds |
| Canonicalize.EmptyPathIsRoot | Client/ClientImpl.cc:652-665 | The empty path names the root, whatever the working directory |
| Canonicalize.DocumentedIff | include/LogCabin/Client.h:311-312 | The outcome is the documented one, with every path that does not begin with a slash resolved from the working directory, if and only if the path is not empty or the working directory is the root |
| Time.ConvertIff | Core/Time.cc:227-239 | Wrapping arithmetic equals exact arithmetic clamped to int64 if and only if the exact result is not below INT64_MIN |
| Time.ConvertIsExact | Core/Time.cc:227-239 | So it is for all times when 0 <= steadyNow <= systemNow |
| Time.AbsTimeoutIsExact | Client/ClientImpl.cc:430-442 | Exact and clamped for every nonzero timeout and every clock, maximal for 0 |
| Time.LimitsAreExact | Core/Time.cc:99-168 | Every limit in the code is the exact quotient for its unit |
| Time.BranchIsExact | Core/Time.cc:99-102 | A branch whose limit is the exact quotient gives the exact product clamped to int64, for every number above INT64_MIN |
| Time.ScaleUnits | Core/Time.cc:86-174 | The chain of units, with failure for an unknown one |
| Time.ParseSignedDuration | Core/Time.cc:59-175 | The whole parse, both errors included |
| Time.ScaledInRange | Core/Time.cc:96-168 | For every unit and every number above INT64_MIN the result is the exact product clamped to int64 |
| Time.ScaledIff | Core/Time.cc:96-168 | It is so if and only if the number is above INT64_MIN or the unit is the nanosecond; otherwise the result is 0 |
| Time.DurationIff | Core/Time.cc:59-175 | The same for whole descriptions, with exactly when one is rejected |
| Durations.NumberRoundTrip | Core/Time.cc:65-65 | For every number written in base 10, with any white space, sign and leading zeros before it and any text after it that does not go on with a digit, strtol gives that number and that text |
| Durations.NumberOnlyIf | Core/Time.cc:65-72 | Nothing else is a number |
| Durations.UnitNames | Core/Time.cc:92-168 | The names of every unit, and its ratio to the one before it; a year is 365.25 days and twelve months |
| Durations.DurationOf | Core/Time.cc:59-175 | A number in base 10 and the name of a unit, with any white space around them, give the clamped number of nanoseconds if and only if the number is above INT64_MIN or counts nanoseconds, and otherwise 0 |

## Left out

- Raft consensus, the server's session table and the Tree: only the client's half of exactly-once is modelled.
- The IX transport (RPC/InterfaceIX.cc and the files that use it): its library calls cannot be seen.
- Creating, connecting, binding and accepting sockets, DNS, epoll, timerfd and signalfd: only their contracts appear. `recv` and `sendmsg` move any number of bytes, a zero-length read reports "nothing yet" (RPC/MessageSocket.cc:281-293 relies on it), and a scheduled break timer can be reported by epoll_wait.
- Protobuf and checksums: payloads are opaque bytes. ClientRPC::waitForReply is modelled down to its decision on the status, not the parsing of the response after it.
- Core/RollingStat.cc and Core/Random.cc: floating point and system randomness.
- LeaderRPC::call: whether its retries end depends on the cluster.
- LeaderRPC's failuresSinceLastSuccess: it only chooses the level of log messages, so reportSuccess changes nothing in the model.
- Raw memory: buffer deleters, shared_ptr lifetimes, moved-from objects, and the `session` pointer that OpaqueClientRPC::waitForReply reads after it has released the RPC's mutex.
- Assumptions on callers of the event loop: one runForever at a time (Event/Loop.h:79), by a thread that holds no Lock, and Locks taken in a handler are released before it ends. extraMutexToSatisfyRaceDetector is not modelled.
- Assumptions on RPCs: one owner thread polls and waits, other threads only cancel, and every RPC in the protocol came from sendRequest; waiting for an RPC without a session is not modelled. Notifications of Response::ready are not tracked: a sleeping owner may wake at any time, for any reason or none.
- Wrap-around of numLocks and numActiveLocks, of nextMessageId and of nextRPCNumber: they are unbounded here, except that requests stop before the reserved message ids. numActiveRPCs does wrap.
- Overflow in Backoff's time arithmetic: times are exact integers there, the clock is monotone and a sleep does not return early.
- Config with another delimiter or comment string, set, remove and the typed reads.
- DebugLog's cache is keyed by file name, not by the address of the literal that holds it. Levels are names without embedded NULs, as are descriptions of durations.
- Texts of errors, addresses in them, and the PANICs on failing system calls.
