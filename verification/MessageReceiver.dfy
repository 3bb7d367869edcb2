/** The receiving half of RPC/MessageSocket: `readable` and the partial reads it
    survives.

    `Receiver` and `OnBytes` say what one return from `read` does; the class
    `ReceiveSocket` is the code itself, with its byte counter, its header buffer and
    its message buffer, over a kernel buffer that hands out any number of bytes it
    likes.  Both are measured against the one-shot parser `Framing.Parse`. */
module MessageReceiver {
  import opened Basics
  import opened Framing

  // ---------------------------------------------------------------------------
  // One read at a time
  // ---------------------------------------------------------------------------

  /** `header` and `message` are the parts of the current frame received so far. */
  datatype Receiver = Receiver(
    header: seq<Byte>,
    message: seq<Byte>,
    delivered: seq<Message>,
    rejected: bool)

  function NewReceiver(): Receiver {
    Receiver([], [], [], false)
  }

  predicate Receiving(r: Receiver, limit: nat) {
    if |r.header| < HEADER_LENGTH then r.message == []
    else
      && |r.header| == HEADER_LENGTH
      && (!r.rejected ==>
            && Acceptable(DecodeHeader(r.header), limit)
            && |r.message| <= DecodeHeader(r.header).payloadLength)
  }

  /** The size the next `read` asks for. */
  function Wanted(r: Receiver): int {
    if |r.header| < HEADER_LENGTH then HEADER_LENGTH - |r.header|
    else if |r.header| == HEADER_LENGTH then DecodeHeader(r.header).payloadLength - |r.message|
    else 0
  }

  /** The effect of one `read` that returned `chunk`. */
  function OnBytes(r: Receiver, chunk: seq<Byte>, limit: nat): Receiver {
    if |r.header| < HEADER_LENGTH then
      var header := r.header + chunk;
      if |header| != HEADER_LENGTH || Acceptable(DecodeHeader(header), limit) then r.(header := header)
      else r.(header := header, rejected := true)
    else
      var message := r.message + chunk;
      if |r.header| != HEADER_LENGTH || |message| < DecodeHeader(r.header).payloadLength then r.(message := message)
      else
        Receiver([], [], r.delivered + [Message(DecodeHeader(r.header).messageId, message)], false)
  }

  /** The receiver has understood `consumed` exactly as the one-shot parser does. */
  ghost predicate Understands(r: Receiver, consumed: seq<Byte>, limit: nat) {
    && Receiving(r, limit)
    && Parse(consumed, limit) ==
       if r.rejected then Parsed(r.delivered, Rejected(r.header))
       else Prepend(r.delivered, Parse(r.header + r.message, limit))
  }

  /** And it has taken nothing beyond the frames it delivered and the one it is working on. */
  ghost predicate Agrees(r: Receiver, consumed: seq<Byte>, limit: nat) {
    Understands(r, consumed, limit) && consumed == Taken(r)
  }

  /** The bytes of all frames delivered and of the current one. */
  function Taken(r: Receiver): seq<Byte> {
    WireOf(r.delivered) + r.header + r.message
  }

  /** No complete frame is sitting undelivered: true whenever `readable` is not running. */
  predicate Settled(r: Receiver) {
    r.rejected || Wanted(r) > 0
  }

  /** Between two calls of `readable` the current frame is incomplete. */
  lemma SettledIsPending(r: Receiver, limit: nat)
    requires Receiving(r, limit) && !r.rejected && Settled(r)
    ensures Parse(r.header + r.message, limit) == Parsed([], Pending(r.header + r.message))
  {
    hide DecodeHeader;
    assert |r.header| == HEADER_LENGTH ==> (r.header + r.message)[..HEADER_LENGTH] == r.header;
  }

  /** What a rejected or settled receiver says about the whole stream. */
  lemma UnderstoodAll(r: Receiver, consumed: seq<Byte>, stream: seq<Byte>, limit: nat)
    requires Agrees(r, consumed, limit) && consumed <= stream
    ensures r.delivered <= Parse(stream, limit).msgs
    ensures r.rejected ==> Parse(stream, limit) == Parsed(r.delivered, Rejected(r.header))
    ensures !r.rejected && Settled(r) && consumed == stream ==>
      Parse(stream, limit) == Parsed(r.delivered, Pending(r.header + r.message))
  {
    ParseOfPrefix(consumed, stream, limit);
    hide DecodeHeader, Parse, WireOf;
    if !r.rejected && Settled(r) {
      SettledIsPending(r, limit);
      assert r.delivered + [] == r.delivered;
    }
  }

  lemma FullFrame(header: seq<Byte>, message: seq<Byte>, limit: nat)
    requires |header| == HEADER_LENGTH && Acceptable(DecodeHeader(header), limit)
    requires |message| == DecodeHeader(header).payloadLength
    ensures Parse(header + message, limit) == Parsed([Message(DecodeHeader(header).messageId, message)], Pending([]))
  {
    hide DecodeHeader;
    Cut(header, message, []);
    assert header + message + [] == header + message;
  }

  /** A complete accepted frame is the encoding of the message it delivers. */
  lemma FrameIsEncoding(header: seq<Byte>, message: seq<Byte>, limit: nat)
    requires |header| == HEADER_LENGTH && Acceptable(DecodeHeader(header), limit)
    requires |message| == DecodeHeader(header).payloadLength
    ensures EncodeMessage(Message(DecodeHeader(header).messageId, message)) == header + message
  {
    hide DecodeHeader, EncodeHeader;
    HeaderBytesRoundTrip(header);
    var h := DecodeHeader(header);
    assert h == Header(MAGIC, VERSION, |message| % TWO_TO_THE_32, h.messageId);
  }

  /** A read takes its bytes and no others. */
  lemma OnBytesTakes(r: Receiver, chunk: seq<Byte>, limit: nat)
    requires Receiving(r, limit) && !r.rejected && |chunk| <= Wanted(r)
    ensures Taken(OnBytes(r, chunk, limit)) == Taken(r) + chunk
  {
    hide DecodeHeader, EncodeMessage, WireOf;
    var r' := OnBytes(r, chunk, limit);
    if |r.header| == HEADER_LENGTH && r'.header == [] {
      var message := r.message + chunk;
      FrameIsEncoding(r.header, message, limit);
      WireOfAppend(r.delivered, Message(DecodeHeader(r.header).messageId, message));
      assert Taken(r') == WireOf(r.delivered) + (r.header + message);
    }
  }

  /** Any split of the stream into reads keeps the agreement. */
  lemma OnBytesAgrees(r: Receiver, consumed: seq<Byte>, chunk: seq<Byte>, limit: nat)
    requires Agrees(r, consumed, limit) && !r.rejected && |chunk| <= Wanted(r)
    ensures Agrees(OnBytes(r, chunk, limit), consumed + chunk, limit)
    ensures r.delivered <= OnBytes(r, chunk, limit).delivered
  {
    OnBytesTakes(r, chunk, limit);
    OnBytesUnderstands(r, consumed, chunk, limit);
    hide DecodeHeader, Parse, Taken;
  }

  lemma OnBytesUnderstands(r: Receiver, consumed: seq<Byte>, chunk: seq<Byte>, limit: nat)
    requires Understands(r, consumed, limit) && !r.rejected && |chunk| <= Wanted(r)
    ensures Understands(OnBytes(r, chunk, limit), consumed + chunk, limit)
  {
    hide DecodeHeader;
    var r' := OnBytes(r, chunk, limit);
    var partial := r.header + r.message;
    ParseResumes(consumed, chunk, limit);
    ParseResumes(partial, chunk, limit);
    if |r.header| < HEADER_LENGTH {
      assert partial == r.header && partial + chunk == r'.header == r'.header + r'.message;
      assert r'.rejected ==> Parse(r'.header, limit) == Parsed([], Rejected(r'.header)) by {
        assert |r'.header| == HEADER_LENGTH ==> r'.header[..HEADER_LENGTH] == r'.header;
      }
    } else {
      var message := r.message + chunk;
      assert partial + chunk == r.header + message;
      if r'.header == [] {
        FullFrame(r.header, message, limit);
      }
    }
    AgreementStep(r.delivered, consumed, chunk, partial, limit);
  }

  lemma NothingRead(r: Receiver, limit: nat)
    requires !r.rejected && Wanted(r) > 0
    ensures OnBytes(r, [], limit) == r
  {
    hide DecodeHeader;
    assert r.header + [] == r.header && r.message + [] == r.message;
  }

  /** Resuming the whole stream and resuming the current frame give the same answer. */
  lemma AgreementStep(delivered: seq<Message>, consumed: seq<Byte>, chunk: seq<Byte>, partial: seq<Byte>, limit: nat)
    requires Parse(consumed, limit) == Prepend(delivered, Parse(partial, limit))
    ensures Parse(consumed + chunk, limit) == Prepend(delivered, Parse(partial + chunk, limit))
  {
    hide Parse;
    ParseResumes(consumed, chunk, limit);
    ParseResumes(partial, chunk, limit);
    var p := Parse(partial, limit);
    if p.tail.Pending? {
      var q := Parse(p.tail.rest + chunk, limit);
      assert (delivered + p.msgs) + q.msgs == delivered + (p.msgs + q.msgs);
    }
  }

  // ---------------------------------------------------------------------------
  // Whole streams, cut into reads anywhere
  // ---------------------------------------------------------------------------

  function Flatten(chunks: seq<seq<Byte>>): seq<Byte> {
    if chunks == [] then [] else Flatten(chunks[..|chunks| - 1]) + chunks[|chunks| - 1]
  }

  /** `rs` are the receiver's states over reads that return `chunks`. */
  ghost predicate IsReading(rs: seq<Receiver>, chunks: seq<seq<Byte>>, limit: nat) {
    && |rs| == |chunks| + 1
    && rs[0] == NewReceiver()
    && forall i :: 0 <= i < |chunks| ==>
         && !rs[i].rejected && |chunks[i]| <= Wanted(rs[i])
         && rs[i + 1] == OnBytes(rs[i], chunks[i], limit)
  }

  lemma {:induction false} ReadingAgrees(rs: seq<Receiver>, chunks: seq<seq<Byte>>, limit: nat)
    requires IsReading(rs, chunks, limit)
    ensures Agrees(rs[|chunks|], Flatten(chunks), limit)
    decreases |chunks|
  {
    if chunks == [] {
      assert Prepend([], Parse([], limit)) == Parse([], limit);
    } else {
      hide OnBytes, Wanted, Agrees;
      var n := |chunks| - 1;
      ReadingAgrees(rs[..n + 1], chunks[..n], limit);
      OnBytesAgrees(rs[n], Flatten(chunks[..n]), chunks[n], limit);
      assert rs[n + 1] == OnBytes(rs[n], chunks[n], limit);
    }
  }

  /** For every byte stream, well-formed or not, and every way of cutting what has
      arrived of it into reads: the messages delivered are those of the one-shot
      parser, in order; a rejection happens at the frame the parser rejects; the bytes
      consumed are exactly the frames delivered and the part received of the current
      one, so nothing after a rejected header; and once everything has been read and
      `readable` has returned, nothing deliverable is left over. */
  lemma ReadableMatchesParser(rs: seq<Receiver>, chunks: seq<seq<Byte>>, limit: nat, stream: seq<Byte>)
    requires IsReading(rs, chunks, limit) && Flatten(chunks) <= stream
    ensures var r := rs[|chunks|];
      && Flatten(chunks) == WireOf(r.delivered) + r.header + r.message
      && r.delivered <= Parse(stream, limit).msgs
      && (r.rejected ==> Parse(stream, limit) == Parsed(r.delivered, Rejected(r.header)))
      && (!r.rejected && Settled(r) && Flatten(chunks) == stream ==>
            Parse(stream, limit) == Parsed(r.delivered, Pending(r.header + r.message)))
  {
    ReadingAgrees(rs, chunks, limit);
    UnderstoodAll(rs[|chunks|], Flatten(chunks), stream, limit);
    hide DecodeHeader, Parse, WireOf;
  }

  // ---------------------------------------------------------------------------
  // The code
  // ---------------------------------------------------------------------------

  /** The kernel's receive buffer.  `Read` is MessageSocket::read: it may return any
      number of the bytes available, 0 when there is nothing to report yet, and -1
      when the connection is gone.  A zero-length read reports nothing yet. */
  class Kernel {
    const eager: bool                // hands over all it can, and stays connected
    var bytes: seq<Byte>
    ghost var calls: nat             // reads so far, and what the last one asked for and got
    ghost var wanted: nat
    ghost var got: int

    constructor (bytes: seq<Byte>, eager: bool)
      ensures this.bytes == bytes && this.eager == eager
    {
      this.bytes, this.eager := bytes, eager;
    }

    method Read(buf: array<Byte>, offset: nat, maxBytes: nat) returns (n: int)
      requires offset + maxBytes <= buf.Length
      modifies this, buf
      ensures -1 <= n <= maxBytes && n <= |old(bytes)| && (maxBytes == 0 ==> n == 0)
      ensures bytes == if n == -1 then old(bytes) else old(bytes)[n..]
      ensures n == -1 ==> buf[..] == old(buf[..])
      ensures n >= 0 ==> buf[..offset + n] == old(buf[..offset]) + old(bytes)[..n]
      ensures calls == old(calls) + 1 && wanted == maxBytes && got == n
      ensures eager ==> n != -1 && (n < maxBytes ==> bytes == [])
    {
      if eager {
        n := if maxBytes < |bytes| then maxBytes else |bytes|;
      } else {
        n :| -1 <= n <= maxBytes && n <= |bytes| && (maxBytes == 0 ==> n == 0);
      }
      calls, wanted, got := calls + 1, maxBytes, n;
      if n > 0 {
        forall i | 0 <= i < n {
          buf[offset + i] := bytes[i];
        }
        bytes := bytes[n..];
      }
    }
  }

  class ReceiveSocket {
    const maxMessageLength: nat
    const kernel: Kernel
    const headerBuffer: array<Byte>
    var bytesRead: nat
    var header: Header               // in host order, once complete
    var message: array<Byte>
    var delivered: seq<Message>      // calls of handleReceivedMessage
    var disconnected: bool
    ghost var rejected: bool         // disconnected because of a header
    ghost var consumed: seq<Byte>

    ghost predicate Valid()
      reads this, headerBuffer, message
    {
      && headerBuffer.Length == HEADER_LENGTH
      && message != headerBuffer
      && (bytesRead >= HEADER_LENGTH ==>
            && header == DecodeHeader(headerBuffer[..])
            && (!rejected ==> message.Length == header.payloadLength && bytesRead <= HEADER_LENGTH + message.Length)
            && (rejected ==> bytesRead == HEADER_LENGTH))
      && (rejected ==> disconnected)
      && Agrees(View(), consumed, maxMessageLength)
    }

    ghost function View(): Receiver
      reads this, headerBuffer, message
      requires headerBuffer.Length == HEADER_LENGTH
      requires bytesRead >= HEADER_LENGTH && !rejected ==> bytesRead <= HEADER_LENGTH + message.Length
    {
      if bytesRead < HEADER_LENGTH then Receiver(headerBuffer[..bytesRead], [], delivered, rejected)
      else Receiver(headerBuffer[..], if rejected then [] else message[..bytesRead - HEADER_LENGTH], delivered, rejected)
    }

    /** One more read was made; the socket is disconnected exactly if the header was
        rejected or the connection is gone; and an eager kernel that gave less than was
        wanted has no more. */
    ghost predicate ReadOnce(before: nat)
      reads this, kernel
    {
      && kernel.calls == before + 1
      && (disconnected <==> rejected || kernel.got == -1)
      && (kernel.eager ==> kernel.got != -1 && (kernel.got < kernel.wanted ==> kernel.bytes == []))
    }

    constructor (kernel: Kernel, maxMessageLength: nat)
      ensures Valid() && !disconnected && Settled(View())
      ensures this.kernel == kernel && this.maxMessageLength == maxMessageLength
      ensures delivered == [] && consumed == []
      ensures fresh(headerBuffer) && fresh(message)
    {
      this.kernel, this.maxMessageLength := kernel, maxMessageLength;
      headerBuffer := new Byte[HEADER_LENGTH];
      message := new Byte[0];
      header := Header(0, 0, 0, 0);
      bytesRead, delivered, disconnected, rejected, consumed := 0, [], false, false, [];
      new;
      assert headerBuffer[..0] == [];
      assert Prepend([], Parse([], maxMessageLength)) == Parse([], maxMessageLength);
    }

    /** The first branch of the loop in `readable`. */
    method ReadHeader() returns (again: bool, ghost chunk: seq<Byte>)
      requires Valid() && !disconnected && bytesRead < HEADER_LENGTH
      modifies this, headerBuffer, kernel
      ensures Valid() && (fresh(message) || message == old(message))
      ensures delivered == old(delivered)
      ensures consumed == old(consumed) + chunk && View() == OnBytes(old(View()), chunk, maxMessageLength)
      ensures consumed + kernel.bytes == old(consumed + kernel.bytes)
      ensures again ==> !disconnected && bytesRead == HEADER_LENGTH && |kernel.bytes| < |old(kernel.bytes)|
      ensures !again ==> disconnected || (bytesRead < HEADER_LENGTH && kernel.got < kernel.wanted)
      ensures ReadOnce(old(kernel.calls))
    {
      hide Agrees, DecodeHeader, Parse;
      ghost var before := View();
      var n;
      n, chunk := FillHeader();
      if n == -1 {
        disconnected := true;
        NothingRead(before, maxMessageLength);
        assert View() == before && chunk == [] && consumed == old(consumed);
        return false, chunk;
      }
      ghost var after := OnBytes(before, chunk, maxMessageLength);
      OnBytesAgrees(before, old(consumed), chunk, maxMessageLength);
      if bytesRead < HEADER_LENGTH {
        assert View() == after;
        return false, chunk;
      }
      assert headerBuffer[..] == before.header + chunk;
      again := AcceptHeader();
      assert View() == after;
    }

    /** Reads more of the header. */
    method FillHeader() returns (n: int, ghost chunk: seq<Byte>)
      requires headerBuffer.Length == HEADER_LENGTH && bytesRead < HEADER_LENGTH
      modifies this`bytesRead, this`consumed, headerBuffer, kernel
      ensures -1 <= n <= HEADER_LENGTH - old(bytesRead) && |chunk| == (if n == -1 then 0 else n)
      ensures bytesRead == old(bytesRead) + |chunk| && headerBuffer[..bytesRead] == old(headerBuffer[..bytesRead]) + chunk
      ensures consumed == old(consumed) + chunk && old(kernel.bytes) == chunk + kernel.bytes
      ensures kernel.calls == old(kernel.calls) + 1 && kernel.got == n && kernel.wanted == HEADER_LENGTH - old(bytesRead)
      ensures kernel.eager ==> n != -1 && (n < kernel.wanted ==> kernel.bytes == [])
    {
      ghost var arrived := kernel.bytes;
      n := kernel.Read(headerBuffer, bytesRead, HEADER_LENGTH - bytesRead);
      chunk := [];
      if n != -1 {
        chunk := arrived[..n];
        bytesRead := bytesRead + n;
        consumed := consumed + chunk;
      }
    }

    /** A complete header: converts it to host order, and disconnects or makes room. */
    method AcceptHeader() returns (accepted: bool)
      requires headerBuffer.Length == HEADER_LENGTH && !disconnected && !rejected
      modifies this`header, this`message, this`disconnected, this`rejected
      ensures header == DecodeHeader(headerBuffer[..])
      ensures accepted <==> Acceptable(header, maxMessageLength)
      ensures disconnected == rejected == !accepted
      ensures if accepted then fresh(message) && message.Length == header.payloadLength else message == old(message)
    {
      header := DecodeHeader(headerBuffer[..]);
      if header.fixed != MAGIC {
        disconnected, rejected := true, true;
        return false;
      }
      if header.version != VERSION {
        disconnected, rejected := true, true;
        return false;
      }
      if header.payloadLength > maxMessageLength {
        disconnected, rejected := true, true;
        return false;
      }
      message := new Byte[header.payloadLength];
      accepted := true;
    }

    /** The second branch of the loop in `readable`. */
    method ReadPayload() returns (again: bool, ghost chunk: seq<Byte>)
      requires Valid() && !disconnected && bytesRead >= HEADER_LENGTH
      modifies this, message, kernel
      ensures Valid() && message == old(message)
      ensures old(delivered) <= delivered
      ensures consumed == old(consumed) + chunk && View() == OnBytes(old(View()), chunk, maxMessageLength)
      ensures consumed + kernel.bytes == old(consumed + kernel.bytes) && |kernel.bytes| <= |old(kernel.bytes)|
      ensures old(Wanted(View())) > 0 && again ==> |kernel.bytes| < |old(kernel.bytes)|
      ensures again ==> !disconnected && bytesRead == 0
      ensures !again ==> disconnected || (Settled(View()) && kernel.got < kernel.wanted)
      ensures ReadOnce(old(kernel.calls))
    {
      hide Agrees, DecodeHeader, Parse;
      ghost var before := View();
      var n;
      n, chunk := FillPayload();
      if n == -1 {
        disconnected := true;
        NothingRead(before, maxMessageLength);
        assert View() == before && chunk == [] && consumed == old(consumed);
        return false, chunk;
      }
      ghost var after := OnBytes(before, chunk, maxMessageLength);
      OnBytesAgrees(before, old(consumed), chunk, maxMessageLength);
      if bytesRead < HEADER_LENGTH + header.payloadLength {
        assert View() == after;
        return false, chunk;
      }
      assert message[..] == before.message + chunk;
      delivered := delivered + [Message(header.messageId, message[..])];
      bytesRead := 0;
      assert headerBuffer[..0] == [];
      assert View() == after;
      again := true;
    }

    /** Reads more of the payload. */
    method FillPayload() returns (n: int, ghost chunk: seq<Byte>)
      requires HEADER_LENGTH <= bytesRead <= HEADER_LENGTH + message.Length && message.Length == header.payloadLength
      modifies this`bytesRead, this`consumed, message, kernel
      ensures -1 <= n <= HEADER_LENGTH + message.Length - old(bytesRead) && |chunk| == (if n == -1 then 0 else n)
      ensures bytesRead == old(bytesRead) + |chunk|
      ensures message[..bytesRead - HEADER_LENGTH] == old(message[..bytesRead - HEADER_LENGTH]) + chunk
      ensures consumed == old(consumed) + chunk && old(kernel.bytes) == chunk + kernel.bytes
      ensures kernel.calls == old(kernel.calls) + 1 && kernel.got == n
      ensures kernel.wanted == HEADER_LENGTH + message.Length - old(bytesRead) && (kernel.wanted == 0 ==> n == 0)
      ensures kernel.eager ==> n != -1 && (n < kernel.wanted ==> kernel.bytes == [])
    {
      ghost var arrived := kernel.bytes;
      var payloadBytesRead := bytesRead - HEADER_LENGTH;
      n := kernel.Read(message, payloadBytesRead, header.payloadLength - payloadBytesRead);
      chunk := [];
      if n != -1 {
        chunk := arrived[..n];
        bytesRead := bytesRead + n;
        consumed := consumed + chunk;
      }
    }

    /** Reads until the kernel gives less than was wanted, the connection is gone or a
        header is rejected.  Whatever the kernel does, the bytes taken are accounted for,
        and Valid() says that the messages handed over are the one-shot parse of all bytes
        taken so far; and a kernel that hands over all it has is left with nothing, or
        with what follows a rejected header. */
    method Readable()
      requires Valid() && !disconnected && Settled(View())
      modifies this, headerBuffer, message, kernel
      ensures Valid() && (disconnected || Settled(View()))
      ensures old(delivered) <= delivered
      ensures consumed + kernel.bytes == old(consumed + kernel.bytes)
      ensures kernel.calls > old(kernel.calls)
      ensures disconnected <==> rejected || kernel.got == -1
      ensures !disconnected ==> kernel.got < kernel.wanted
      ensures kernel.eager ==>
        var all := Parse(old(consumed + kernel.bytes), maxMessageLength);
        delivered == all.msgs && (disconnected <==> all.tail.Rejected?) && (disconnected || kernel.bytes == [])
    {
      hide Agrees, DecodeHeader, Parse;
      while true
        invariant Valid() && !disconnected && Settled(View())
        invariant fresh(message) || message == old(message)
        invariant old(delivered) <= delivered && old(kernel.calls) <= kernel.calls
        invariant consumed + kernel.bytes == old(consumed + kernel.bytes)
        decreases |kernel.bytes|
      {
        if bytesRead < HEADER_LENGTH {
          var again, _ := ReadHeader();
          if !again {
            UnderstoodAll(View(), consumed, consumed + kernel.bytes, maxMessageLength);
            return;
          }
        }
        if bytesRead >= HEADER_LENGTH {
          var again, _ := ReadPayload();
          if !again {
            UnderstoodAll(View(), consumed, consumed + kernel.bytes, maxMessageLength);
            return;
          }
        }
      }
    }
  }
}
