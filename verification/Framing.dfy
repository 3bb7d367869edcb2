/** The wire format of RPC/MessageSocket: a 16-byte big-endian header and an opaque
    payload, and the one-shot parser that says what any byte stream means. */
module Framing {
  import opened Basics

  type Byte = b: int | 0 <= b < 0x100

  const HEADER_LENGTH: nat := 16
  const MAGIC: nat := 0xdaf4
  const VERSION: nat := 1

  // ---------------------------------------------------------------------------
  // Big-endian integers
  // ---------------------------------------------------------------------------

  function BigEndian(v: nat, width: nat): (s: seq<Byte>)
    ensures |s| == width
    decreases width
  {
    if width == 0 then [] else BigEndian(v / 0x100, width - 1) + [v % 0x100]
  }

  function FromBigEndian(s: seq<Byte>): nat {
    if s == [] then 0 else FromBigEndian(s[..|s| - 1]) * 0x100 + s[|s| - 1]
  }

  function Power256(width: nat): (p: nat)
    ensures p > 0
  {
    if width == 0 then 1 else 0x100 * Power256(width - 1)
  }

  lemma {:induction false} DecodeEncode(v: nat, width: nat)
    requires v < Power256(width)
    ensures FromBigEndian(BigEndian(v, width)) == v
    decreases width
  {
    if width > 0 {
      DecodeEncode(v / 0x100, width - 1);
      assert BigEndian(v, width)[..width - 1] == BigEndian(v / 0x100, width - 1);
    }
  }

  lemma {:induction false} EncodeDecode(s: seq<Byte>)
    ensures FromBigEndian(s) < Power256(|s|)
    ensures BigEndian(FromBigEndian(s), |s|) == s
  {
    if s != [] {
      EncodeDecode(s[..|s| - 1]);
      assert s == s[..|s| - 1] + [s[|s| - 1]];
    }
  }

  /** The bytes of an integer by position: most significant first. */
  ghost predicate IsBigEndian(s: seq<Byte>, v: nat) {
    forall i :: 0 <= i < |s| ==> s[i] == v / Power256(|s| - 1 - i) % 0x100
  }

  lemma BytesAt(v: nat, width: nat)
    ensures IsBigEndian(BigEndian(v, width), v)
  {
    forall i | 0 <= i < width ensures BigEndian(v, width)[i] == v / Power256(width - 1 - i) % 0x100 {
      ByteAt(v, width, i);
    }
  }

  lemma {:induction false} ByteAt(v: nat, width: nat, i: nat)
    requires i < width
    ensures BigEndian(v, width)[i] == v / Power256(width - 1 - i) % 0x100
    decreases width
  {
    if i < width - 1 {
      var p := Power256(width - 2 - i);
      ByteAt(v / 0x100, width - 1, i);
      QuotientTwice(v, p);
    }
  }

  lemma QuotientTwice(v: nat, p: nat)
    requires p > 0
    ensures v / 0x100 / p == v / (0x100 * p)
  {
    var q, r := v / 0x100 / p, v / 0x100 % p;
    assert v / 0x100 == q * p + r;
    var low := v % 0x100;
    assert v == q * (0x100 * p) + (0x100 * r + low);
    assert 0 <= 0x100 * r + low < 0x100 * p;
    Quotient(v, 0x100 * p, q, 0x100 * r + low);
  }

  lemma Quotient(v: nat, d: nat, q: nat, r: nat)
    requires r < d && v == q * d + r
    ensures v / d == q
  {
    if v / d > q {
      LargerProduct(q, v / d, d);
      assert false;
    } else if v / d < q {
      LargerProduct(v / d, q, d);
      assert false;
    }
  }

  lemma {:induction false} LargerProduct(a: nat, b: nat, d: nat)
    requires a < b
    ensures b * d >= a * d + d
    decreases b
  {
    assert b * d == (b - 1) * d + d;
    if a < b - 1 {
      LargerProduct(a, b - 1, d);
    }
  }

  lemma Widths()
    ensures Power256(2) == 0x1_0000 && Power256(4) == TWO_TO_THE_32 && Power256(8) == TWO_TO_THE_64
  {
    assert Power256(4) == 0x1_0000 * Power256(2);
    assert Power256(8) == 0x1_0000_0000 * Power256(4) by {
      assert Power256(6) == 0x1_0000 * Power256(4);
    }
  }

  // ---------------------------------------------------------------------------
  // Headers
  // ---------------------------------------------------------------------------

  datatype Header = Header(fixed: nat, version: nat, payloadLength: nat, messageId: nat)

  /** Every field fits its unsigned type. */
  predicate Fits(h: Header) {
    h.fixed < 0x1_0000 && h.version < 0x1_0000 && h.payloadLength < TWO_TO_THE_32 && h.messageId < TWO_TO_THE_64
  }

  function EncodeHeader(h: Header): (s: seq<Byte>)
    ensures |s| == HEADER_LENGTH
  {
    BigEndian(h.fixed, 2) + BigEndian(h.version, 2) + BigEndian(h.payloadLength, 4) + BigEndian(h.messageId, 8)
  }

  function DecodeHeader(s: seq<Byte>): Header
    requires |s| == HEADER_LENGTH
  {
    Header(FromBigEndian(s[..2]), FromBigEndian(s[2..4]), FromBigEndian(s[4..8]), FromBigEndian(s[8..]))
  }

  /** toBigEndian and fromBigEndian are inverse: all headers, all 16-byte strings. */
  lemma HeaderRoundTrip(h: Header)
    requires Fits(h)
    ensures DecodeHeader(EncodeHeader(h)) == h
  {
    hide BigEndian, FromBigEndian;
    var s := EncodeHeader(h);
    Widths();
    assert s[..2] == BigEndian(h.fixed, 2);
    assert s[2..4] == BigEndian(h.version, 2);
    assert s[4..8] == BigEndian(h.payloadLength, 4);
    assert s[8..] == BigEndian(h.messageId, 8);
    DecodeEncode(h.fixed, 2);
    DecodeEncode(h.version, 2);
    DecodeEncode(h.payloadLength, 4);
    DecodeEncode(h.messageId, 8);
  }

  lemma HeaderBytesRoundTrip(s: seq<Byte>)
    requires |s| == HEADER_LENGTH
    ensures Fits(DecodeHeader(s)) && EncodeHeader(DecodeHeader(s)) == s
  {
    hide BigEndian, FromBigEndian;
    Widths();
    EncodeDecode(s[..2]);
    EncodeDecode(s[2..4]);
    EncodeDecode(s[4..8]);
    EncodeDecode(s[8..]);
    assert s == s[..2] + s[2..4] + s[4..8] + s[8..];
  }

  /** The header by position: magic, version, length and id, most significant byte first. */
  lemma HeaderLayout(m: Message)
    requires |m.payload| < TWO_TO_THE_32
    ensures var s := EncodeMessage(m);
      && |s| == HEADER_LENGTH + |m.payload|
      && s[..4] == [0xda, 0xf4, 0x00, 0x01]
      && IsBigEndian(s[4..8], |m.payload|) && IsBigEndian(s[8..HEADER_LENGTH], m.id)
      && s[HEADER_LENGTH..] == m.payload
  {
    hide BigEndian, IsBigEndian;
    var s := EncodeMessage(m);
    var length, id := BigEndian(|m.payload|, 4), BigEndian(m.id, 8);
    FirstBytes();
    assert s == [0xda, 0xf4, 0x00, 0x01] + length + id + m.payload;
    BytesAt(|m.payload|, 4);
    BytesAt(m.id, 8);
    assert s[4..8] == length && s[8..HEADER_LENGTH] == id;
  }

  lemma FirstBytes()
    ensures BigEndian(MAGIC, 2) == [0xda, 0xf4] && BigEndian(VERSION, 2) == [0x00, 0x01]
  {
    assert BigEndian(0xda, 1) == [0xda] && BigEndian(0, 1) == [0];
  }

  /** Which 16 bytes a receiver accepts. */
  lemma AcceptableIff(s: seq<Byte>, limit: nat)
    requires |s| == HEADER_LENGTH
    ensures Acceptable(DecodeHeader(s), limit) <==>
      s[..4] == [0xda, 0xf4, 0x00, 0x01] && (((s[4] as int) * 0x100 + s[5]) * 0x100 + s[6]) * 0x100 + s[7] <= limit
  {
    hide FromBigEndian;
    Pair(s[..2]);
    Pair(s[2..4]);
    var length := s[4..8];
    Pair(length[..2]);
    assert FromBigEndian(length) == (FromBigEndian(length[..2]) * 0x100 + length[2]) * 0x100 + length[3] by {
      LastByte(length);
      LastByte(length[..3]);
      assert length[..3][..2] == length[..2];
    }
    assert s[..4] == s[..2] + s[2..4];
  }

  lemma LastByte(s: seq<Byte>)
    requires s != []
    ensures FromBigEndian(s) == FromBigEndian(s[..|s| - 1]) * 0x100 + s[|s| - 1]
  {
  }

  lemma Pair(s: seq<Byte>)
    requires |s| == 2
    ensures FromBigEndian(s) == (s[0] as int) * 0x100 + s[1]
  {
    LastByte(s);
    LastByte(s[..1]);
    assert s[..1][..0] == [];
  }

  // ---------------------------------------------------------------------------
  // Messages and streams
  // ---------------------------------------------------------------------------

  datatype Message = Message(id: nat, payload: seq<Byte>)

  /** What sendMessage takes without a PANIC from a socket with this limit. */
  predicate Sendable(m: Message, limit: nat) {
    |m.payload| <= limit < TWO_TO_THE_32 && m.id < TWO_TO_THE_64
  }

  function EncodeMessage(m: Message): seq<Byte> {
    EncodeHeader(Header(MAGIC, VERSION, |m.payload| % TWO_TO_THE_32, m.id)) + m.payload
  }

  /** The bytes of several messages, one after the other. */
  function WireOf(ms: seq<Message>): seq<Byte> {
    if ms == [] then [] else EncodeMessage(ms[0]) + WireOf(ms[1..])
  }

  predicate Acceptable(h: Header, limit: nat) {
    h.fixed == MAGIC && h.version == VERSION && h.payloadLength <= limit
  }

  /** What is left after the last complete frame. */
  datatype Tail = Pending(rest: seq<Byte>) | Rejected(header: seq<Byte>)

  datatype Parsed = Parsed(msgs: seq<Message>, tail: Tail)

  function Prepend(ms: seq<Message>, p: Parsed): Parsed {
    Parsed(ms + p.msgs, p.tail)
  }

  /** The meaning of a byte stream for a receiver with the given limit. */
  function Parse(s: seq<Byte>, limit: nat): Parsed {
    if |s| < HEADER_LENGTH then Parsed([], Pending(s))
    else
      var h := DecodeHeader(s[..HEADER_LENGTH]);
      if !Acceptable(h, limit) then Parsed([], Rejected(s[..HEADER_LENGTH]))
      else if |s| < HEADER_LENGTH + h.payloadLength then Parsed([], Pending(s))
      else
        var end := HEADER_LENGTH + h.payloadLength;
        Prepend([Message(h.messageId, s[HEADER_LENGTH..end])], Parse(s[end..], limit))
  }

  /** The stream begins with a complete frame of `end` bytes. */
  predicate BeginsWithFrame(s: seq<Byte>, limit: nat, end: nat) {
    && |s| >= HEADER_LENGTH
    && var h := DecodeHeader(s[..HEADER_LENGTH]);
       Acceptable(h, limit) && end == HEADER_LENGTH + h.payloadLength <= |s|
  }

  lemma ParseFirst(s: seq<Byte>, limit: nat, end: nat)
    requires BeginsWithFrame(s, limit, end)
    ensures Parse(s, limit) ==
      Prepend([Message(DecodeHeader(s[..HEADER_LENGTH]).messageId, s[HEADER_LENGTH..end])], Parse(s[end..], limit))
  {
    hide DecodeHeader;
  }

  lemma FrameAppend(a: seq<Byte>, b: seq<Byte>, limit: nat, end: nat)
    requires BeginsWithFrame(a, limit, end)
    ensures BeginsWithFrame(a + b, limit, end)
    ensures (a + b)[..HEADER_LENGTH] == a[..HEADER_LENGTH]
    ensures (a + b)[HEADER_LENGTH..end] == a[HEADER_LENGTH..end] && (a + b)[end..] == a[end..] + b
  {
    hide DecodeHeader;
    assert (a + b)[..HEADER_LENGTH] == a[..HEADER_LENGTH];
  }

  /** Without a complete frame at its beginning a stream is incomplete or rejected. */
  lemma ParseNoFrame(a: seq<Byte>, b: seq<Byte>, limit: nat)
    requires forall end: nat :: !BeginsWithFrame(a, limit, end)
    ensures Parse(a, limit).tail.Pending? ==> Parse(a, limit) == Parsed([], Pending(a))
    ensures Parse(a, limit).tail.Rejected? ==> Parse(a + b, limit) == Parse(a, limit)
  {
    hide DecodeHeader;
    if |a| >= HEADER_LENGTH {
      assert (a + b)[..HEADER_LENGTH] == a[..HEADER_LENGTH];
      assert !BeginsWithFrame(a, limit, HEADER_LENGTH + DecodeHeader(a[..HEADER_LENGTH]).payloadLength);
    }
  }

  /** Parsing may be interrupted anywhere and resumed from the incomplete frame. */
  lemma {:induction false} ParseResumes(a: seq<Byte>, b: seq<Byte>, limit: nat)
    ensures var p := Parse(a, limit);
      Parse(a + b, limit) == if p.tail.Rejected? then p else Prepend(p.msgs, Parse(p.tail.rest + b, limit))
    decreases |a|
  {
    hide DecodeHeader, Parse, BeginsWithFrame;
    if end: nat :| BeginsWithFrame(a, limit, end) {
      FrameAppend(a, b, limit, end);
      ParseFirst(a, limit, end);
      ParseFirst(a + b, limit, end);
      assert |a[end..]| < |a| by {
        FrameIsLong(a, limit, end);
      }
      ParseResumes(a[end..], b, limit);
      var p, q := Parse(a, limit), Parse(a[end..], limit);
      if q.tail.Pending? {
        var r := Parse(q.tail.rest + b, limit);
        assert p.msgs + r.msgs == p.msgs[..1] + (q.msgs + r.msgs);
      }
    } else {
      ParseNoFrame(a, b, limit);
      EmptyPrefix(Parse(a + b, limit));
    }
  }

  lemma FrameIsLong(s: seq<Byte>, limit: nat, end: nat)
    requires BeginsWithFrame(s, limit, end)
    ensures HEADER_LENGTH <= end <= |s|
  {
  }

  lemma EmptyPrefix(p: Parsed)
    ensures Prepend([], p) == p
  {
    assert [] + p.msgs == p.msgs;
  }

  /** A stream cut short gives a prefix of the messages; a rejection is final. */
  lemma ParseOfPrefix(a: seq<Byte>, b: seq<Byte>, limit: nat)
    requires a <= b
    ensures Parse(a, limit).msgs <= Parse(b, limit).msgs
    ensures Parse(a, limit).tail.Rejected? ==> Parse(b, limit) == Parse(a, limit)
  {
    ParseResumes(a, b[|a|..], limit);
    assert b == a + b[|a|..];
  }

  lemma Cut(head: seq<Byte>, body: seq<Byte>, rest: seq<Byte>)
    ensures var s := head + body + rest;
      && s[..|head|] == head && s[|head|..|head| + |body|] == body && s[|head| + |body|..] == rest
  {
  }

  lemma ParseFrame(m: Message, rest: seq<Byte>, limit: nat)
    requires |m.payload| < TWO_TO_THE_32 && m.id < TWO_TO_THE_64
    ensures Parse(EncodeMessage(m) + rest, limit) ==
            if |m.payload| <= limit then Prepend([m], Parse(rest, limit))
            else Parsed([], Rejected(EncodeMessage(m)[..HEADER_LENGTH]))
  {
    hide DecodeHeader, EncodeHeader;
    var h := Header(MAGIC, VERSION, |m.payload|, m.id);
    HeaderRoundTrip(h);
    Cut(EncodeHeader(h), m.payload, rest);
    assert EncodeMessage(m)[..HEADER_LENGTH] == EncodeHeader(h);
  }

  /** How many messages come before the first one longer than the limit. */
  function FittingPrefix(ms: seq<Message>, limit: nat): (n: nat)
    ensures n <= |ms|
    ensures forall i :: 0 <= i < n ==> |ms[i].payload| <= limit
    ensures n < |ms| ==> |ms[n].payload| > limit
  {
    if ms == [] || |ms[0].payload| > limit then 0 else 1 + FittingPrefix(ms[1..], limit)
  }

  /** Round trip: a receiver gets back exactly the messages sent, up to the first
      one over its own limit, whose header it rejects. */
  lemma {:induction false} ParseWire(ms: seq<Message>, sendLimit: nat, limit: nat)
    requires forall m :: m in ms ==> Sendable(m, sendLimit)
    ensures var n := FittingPrefix(ms, limit);
      Parse(WireOf(ms), limit) ==
      Parsed(ms[..n], if n == |ms| then Pending([]) else Rejected(EncodeMessage(ms[n])[..HEADER_LENGTH]))
  {
    hide EncodeHeader;
    if ms != [] {
      hide Parse, EncodeMessage;
      assert ms[0] in ms;
      ParseFrame(ms[0], WireOf(ms[1..]), limit);
      if |ms[0].payload| <= limit {
        ParseWire(ms[1..], sendLimit, limit);
        var n := FittingPrefix(ms[1..], limit);
        assert FittingPrefix(ms, limit) == n + 1;
        assert ms[..n + 1] == [ms[0]] + ms[1..][..n];
        assert n < |ms[1..]| ==> ms[1..][n] == ms[n + 1];
      }
    }
  }

  lemma {:induction false} WireOfAppend(ms: seq<Message>, m: Message)
    ensures WireOf(ms + [m]) == WireOf(ms) + EncodeMessage(m)
  {
    hide EncodeMessage;
    if ms == [] {
      assert [m][1..] == [];
      assert WireOf([m]) == EncodeMessage(m) + WireOf([]);
    } else {
      WireOfAppend(ms[1..], m);
      assert (ms + [m])[1..] == ms[1..] + [m];
    }
  }
}
