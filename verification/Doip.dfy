/** The DoIP transport (ISO 13400-2:2019, section 9.2): header coding, reassembly of frames from the
    TCP byte stream, and the wait for a diagnostic answer. */
module Doip {

  type Octet = b: nat | b < 256
  type Bytes = seq<Octet>

  const PROTOCOL_VERSION: Octet := 0x02
  const INVERSE_PROTOCOL_VERSION: Octet := 0xFD
  const HEADER_SIZE := 8
  const DIAGNOSTIC_MESSAGE := 0x8001
  const DIAGNOSTIC_POSITIVE_ACK := 0x8002
  const DIAGNOSTIC_NEGATIVE_ACK := 0x8003

  // ---------------------------------------------------------------- header

  function ByteAt(value: nat, shift: nat): Octet
    requires shift > 0
  {
    (value / shift) % 256
  }

  function BuildHeader(payloadType: nat, payloadLength: nat): (h: Bytes)
    ensures |h| == HEADER_SIZE
  {
    [PROTOCOL_VERSION, INVERSE_PROTOCOL_VERSION,
     ByteAt(payloadType, 0x100), ByteAt(payloadType, 1),
     ByteAt(payloadLength, 0x100_0000), ByteAt(payloadLength, 0x1_0000),
     ByteAt(payloadLength, 0x100), ByteAt(payloadLength, 1)]
  }

  datatype Header = Header(payloadType: nat, payloadLength: nat) | BadHeader

  function Word(high: nat, low: nat): nat { high * 0x100 + low }

  function LengthField(data: Bytes): nat
    requires |data| >= HEADER_SIZE
  {
    Word(data[4], data[5]) * 0x1_0000 + Word(data[6], data[7])
  }

  function ParseHeader(data: Bytes): Header {
    if |data| < HEADER_SIZE then BadHeader
    else if data[0] != PROTOCOL_VERSION || data[1] != INVERSE_PROTOCOL_VERSION then BadHeader
    else Header(Word(data[2], data[3]), LengthField(data))
  }

  /** Parsing undoes building, for every 16-bit type and 32-bit length and whatever follows the header. */
  lemma ParseBuilt(payloadType: nat, payloadLength: nat, rest: Bytes)
    requires payloadType < 0x1_0000 && payloadLength < 0x1_0000_0000
    ensures ParseHeader(BuildHeader(payloadType, payloadLength) + rest) == Header(payloadType, payloadLength)
  {
    WordBytes(payloadType);
    WordBytes(payloadLength / 0x1_0000);
    WordBytes(payloadLength % 0x1_0000);
    LengthBytes(payloadLength);
  }

  lemma WordBytes(w: nat)
    requires w < 0x1_0000
    ensures Word(ByteAt(w, 0x100), ByteAt(w, 1)) == w
  {
  }

  lemma LengthBytes(n: nat)
    requires n < 0x1_0000_0000
    ensures ByteAt(n, 0x100_0000) == ByteAt(n / 0x1_0000, 0x100) && ByteAt(n, 0x1_0000) == ByteAt(n / 0x1_0000, 1)
    ensures ByteAt(n, 0x100) == ByteAt(n % 0x1_0000, 0x100) && ByteAt(n, 1) == ByteAt(n % 0x1_0000, 1)
    ensures n / 0x1_0000 < 0x1_0000
  {
    var q, r := n / 0x1_0000, n % 0x1_0000;
    HighBytes(q / 0x100, q % 0x100, r);
    LowBytes(q, r / 0x100, r % 0x100);
  }

  lemma HighBytes(h: nat, l: nat, r: nat)
    requires h < 0x100 && l < 0x100 && r < 0x1_0000
    ensures ((h * 0x100 + l) * 0x1_0000 + r) / 0x100_0000 == h
    ensures ((h * 0x100 + l) * 0x1_0000 + r) / 0x1_0000 == h * 0x100 + l
  {
  }

  lemma LowBytes(q: nat, h: nat, l: nat)
    requires h < 0x100 && l < 0x100
    ensures (q * 0x1_0000 + (h * 0x100 + l)) / 0x100 == q * 0x100 + h
    ensures (q * 0x100 + h) % 0x100 == h
    ensures (q * 0x1_0000 + (h * 0x100 + l)) % 0x100 == l
  {
  }

  lemma BytesWord(a: Octet, b: Octet)
    ensures Word(a, b) < 0x1_0000 && ByteAt(Word(a, b), 0x100) == a && ByteAt(Word(a, b), 1) == b
  {
    var w := Word(a, b);
    LowBytes(0, a, b);
    assert w / 0x100 == a && w % 0x100 == b && w / 1 == w;
  }

  /** Every accepted eight-byte header is the one built from its fields. */
  lemma BuildParsed(data: Bytes)
    requires |data| == HEADER_SIZE && ParseHeader(data).Header?
    ensures BuildHeader(ParseHeader(data).payloadType, ParseHeader(data).payloadLength) == data
  {
    hide ByteAt, Word;
    BytesWord(data[2], data[3]);
    BytesWord(data[4], data[5]);
    BytesWord(data[6], data[7]);
    LengthBytes(LengthField(data));
  }

  /** The bytes of a header: version and inverse version, then type and length with the high byte first. */
  lemma HeaderBytes(payloadType: nat, payloadLength: nat)
    requires payloadType < 0x1_0000 && payloadLength < 0x1_0000_0000
    ensures var h := BuildHeader(payloadType, payloadLength);
      && h[0] == 0x02 && h[1] == 0xFD && h[2] as int * 256 + h[3] == payloadType
      && ((h[4] as int * 256 + h[5]) * 256 + h[6]) * 256 + h[7] == payloadLength
  {
    WordBytes(payloadType);
    LengthBytes(payloadLength);
    WordBytes(payloadLength / 0x1_0000);
    WordBytes(payloadLength % 0x1_0000);
  }

  /** Eight bytes or more are a header exactly when they begin with the version and its inverse; type and length have
      the high byte first. */
  lemma HeaderMeaning(data: Bytes)
    ensures ParseHeader(data).BadHeader? <==> |data| < 8 || data[0] != 0x02 || data[1] != 0xFD
    ensures ParseHeader(data).Header? ==>
      ParseHeader(data).payloadType == data[2] as int * 256 + data[3] &&
          ParseHeader(data).payloadLength == ((data[4] as int * 256 + data[5]) * 256 + data[6]) * 256 + data[7]
  {
  }

  /** A stream starts with a frame exactly when it holds the header and as many bytes as the header announces. */
  lemma FrameMeaning(stream: Bytes)
    ensures HasFrame(stream) <==>
      |stream| >= 8 && |stream| >= 8 + ((stream[4] as int * 256 + stream[5]) * 256 + stream[6]) * 256 + stream[7]
    ensures HasFrame(stream) ==>
      FrameSize(stream) == 8 + ((stream[4] as int * 256 + stream[5]) * 256 + stream[6]) * 256 + stream[7]
  {
  }

  function BuildFrame(payloadType: nat, payload: Bytes): Bytes {
    BuildHeader(payloadType, |payload|) + payload
  }

  function BuildDiagnosticMessage(source: nat, target: nat, uds: Bytes): Bytes {
    BuildFrame(
      DIAGNOSTIC_MESSAGE,
      [ByteAt(source, 0x100), ByteAt(source, 1), ByteAt(target, 0x100), ByteAt(target, 1)] + uds)
  }

  /** The frame asks target, on behalf of source, to serve uds: a diagnostic message with both addresses, the high
      byte first, before the service bytes. */
  predicate Asks(f: Bytes, source: nat, target: nat, uds: Bytes) {
    && |f| == 12 + |uds| && f[..4] == [0x02, 0xFD, 0x80, 0x01]
    && ((f[4] as int * 256 + f[5]) * 256 + f[6]) * 256 + f[7] == |uds| + 4
    && f[8] as int * 256 + f[9] == source && f[10] as int * 256 + f[11] == target && f[12..] == uds
  }

  lemma MessageBytes(source: nat, target: nat, uds: Bytes)
    requires source < 0x1_0000 && target < 0x1_0000 && |uds| + 4 < 0x1_0000_0000
    ensures Asks(BuildDiagnosticMessage(source, target, uds), source, target, uds)
  {
    var h := BuildHeader(DIAGNOSTIC_MESSAGE, |uds| + 4);
    var a := [ByteAt(source, 0x100), ByteAt(source, 1), ByteAt(target, 0x100), ByteAt(target, 1)];
    HeaderBytes(DIAGNOSTIC_MESSAGE, |uds| + 4);
    TypeBytes();
    AddressBytes(source);
    AddressBytes(target);
    assert h[2] == ByteAt(DIAGNOSTIC_MESSAGE, 0x100) && h[3] == ByteAt(DIAGNOSTIC_MESSAGE, 1);
    hide ByteAt, BuildHeader;
    MessageParts(h, a, uds);
    assert BuildDiagnosticMessage(source, target, uds) == h + (a + uds);
  }

  lemma AddressBytes(address: nat)
    requires address < 0x1_0000
    ensures ByteAt(address, 0x100) as int * 256 + ByteAt(address, 1) == address
  {
    WordBytes(address);
  }

  lemma MessageParts(h: Bytes, a: Bytes, uds: Bytes)
    requires |h| == 8 && |a| == 4 && h[0] == 0x02 && h[1] == 0xFD && h[2] == 0x80 && h[3] == 0x01
    ensures var f := h + (a + uds);
      && f[..4] == [0x02, 0xFD, 0x80, 0x01] && f[12..] == uds && |f| == 12 + |uds|
      && f[4] == h[4] && f[5] == h[5] && f[6] == h[6] && f[7] == h[7]
      && f[8] == a[0] && f[9] == a[1] && f[10] == a[2] && f[11] == a[3]
  {
  }

  lemma TypeBytes()
    ensures ByteAt(DIAGNOSTIC_MESSAGE, 0x100) == 0x80 && ByteAt(DIAGNOSTIC_MESSAGE, 1) == 0x01
  {
  }

  // ---------------------------------------------------------------- the byte stream

  function Flatten(chunks: seq<Bytes>): Bytes {
    if chunks == [] then [] else chunks[0] + Flatten(chunks[1..])
  }

  /** The stream starts with a complete frame, by its length field. */
  predicate HasFrame(stream: Bytes) {
    |stream| >= HEADER_SIZE && |stream| >= HEADER_SIZE + LengthField(stream)
  }

  function FrameSize(stream: Bytes): nat
    requires HasFrame(stream)
  {
    HEADER_SIZE + LengthField(stream)
  }

  /** The complete frames of a stream, in order. */
  function Frames(stream: Bytes): seq<Bytes> {
    if HasFrame(stream) then [stream[..FrameSize(stream)]] + Frames(stream[FrameSize(stream)..]) else []
  }

  /** The bytes after the first n frames. */
  function After(stream: Bytes, n: nat): Bytes {
    if n == 0 || !HasFrame(stream) then stream else After(stream[FrameSize(stream)..], n - 1)
  }

  lemma HasFramePrefix(a: Bytes, b: Bytes)
    requires HasFrame(a)
    ensures HasFrame(a + b) && FrameSize(a + b) == FrameSize(a)
    ensures (a + b)[..FrameSize(a)] == a[..FrameSize(a)] && (a + b)[FrameSize(a)..] == a[FrameSize(a)..] + b
  {
    assert LengthField(a + b) == LengthField(a);
  }

  datatype Message = Message(payloadType: nat, payload: Bytes)

  predicate WellFormed(m: Message) {
    m.payloadType < 0x1_0000 && |m.payload| < 0x1_0000_0000
  }

  function Encode(m: Message): Bytes { BuildFrame(m.payloadType, m.payload) }

  function EncodeAll(ms: seq<Message>): seq<Bytes> {
    if ms == [] then [] else [Encode(ms[0])] + EncodeAll(ms[1..])
  }

  /** Nothing is lost, added or reordered: the frames of the bytes of some messages, followed by an
      incomplete rest, are these messages. */
  lemma {:induction false} FramesOfMessages(ms: seq<Message>, rest: Bytes)
    requires forall m :: m in ms ==> WellFormed(m)
    requires !HasFrame(rest)
    ensures Frames(Flatten(EncodeAll(ms)) + rest) == EncodeAll(ms)
    ensures After(Flatten(EncodeAll(ms)) + rest, |ms|) == rest
    decreases |ms|
  {
    if ms == [] {
      assert Flatten(EncodeAll(ms)) + rest == rest;
    } else {
      var m := ms[0];
      var tail := Flatten(EncodeAll(ms[1..])) + rest;
      assert Flatten(EncodeAll(ms)) + rest == Encode(m) + tail;
      FirstFrame(m, tail);
      FramesOfMessages(ms[1..], rest);
    }
  }

  lemma FirstFrame(m: Message, tail: Bytes)
    requires WellFormed(m)
    ensures HasFrame(Encode(m) + tail) && FrameSize(Encode(m) + tail) == |Encode(m)|
    ensures (Encode(m) + tail)[..|Encode(m)|] == Encode(m) && (Encode(m) + tail)[|Encode(m)|..] == tail
  {
    hide ByteAt, Word;
    var h := BuildHeader(m.payloadType, |m.payload|);
    ParseBuilt(m.payloadType, |m.payload|, m.payload + tail);
    BuiltLength(m.payloadType, |m.payload|, m.payload + tail);
    hide BuildHeader, LengthField, ParseHeader;
    assert Encode(m) + tail == h + (m.payload + tail);
  }

  lemma BuiltLength(payloadType: nat, payloadLength: nat, rest: Bytes)
    requires payloadType < 0x1_0000 && payloadLength < 0x1_0000_0000
    ensures LengthField(BuildHeader(payloadType, payloadLength) + rest) == payloadLength
  {
    hide ByteAt, Word, BuildHeader, LengthField;
    ParseBuilt(payloadType, payloadLength, rest);
  }

  // ---------------------------------------------------------------- the diagnostic exchange

  datatype Outcome =
    | Answer(uds: Bytes)
    | NotActivated
    | SendFailed
    | ReceiveFailed
    | InvalidResponse
    | InvalidPayload
    | MalformedAck
    | Nack(code: Octet)
    | UnexpectedType
    | TimedOut

  datatype Reaction = Continue | Stop(outcome: Outcome)

  /** UDS negative response 0x78 to the service of the request. */
  predicate ResponsePending(request: Bytes, candidate: Bytes) {
    |candidate| >= 3 && |request| >= 1 && candidate[0] == 0x7F && candidate[1] == request[0] && candidate[2] == 0x78
  }

  predicate IsDiagnostic(frame: Bytes) {
    ParseHeader(frame).Header? && ParseHeader(frame).payloadType == DIAGNOSTIC_MESSAGE && |frame| >= HEADER_SIZE + 5
  }

  /** The UDS bytes of a diagnostic message: what follows the two addresses. */
  function UdsOf(frame: Bytes): Bytes
    requires IsDiagnostic(frame)
  {
    frame[HEADER_SIZE + 4..]
  }

  /** A positive acknowledgement, or a negative one with code zero. */
  predicate AcceptableAck(frame: Bytes) {
    && ParseHeader(frame).Header? && |frame| >= HEADER_SIZE + 5
    && (ParseHeader(frame).payloadType == DIAGNOSTIC_POSITIVE_ACK
        || (ParseHeader(frame).payloadType == DIAGNOSTIC_NEGATIVE_ACK && frame[HEADER_SIZE + 4] == 0))
  }

  /** A frame that only makes the tester wait on. */
  predicate Interim(request: Bytes, frame: Bytes) {
    AcceptableAck(frame) || (IsDiagnostic(frame) && ResponsePending(request, UdsOf(frame)))
  }

  /** What one received frame means for a waiting request. */
  function React(request: Bytes, frame: Bytes): (r: Reaction)
    ensures r == Continue <==> Interim(request, frame)
    ensures r.Stop? && r.outcome.Answer? <==> IsDiagnostic(frame) && !ResponsePending(request, UdsOf(frame))
    ensures r.Stop? && r.outcome.Answer? ==> r.outcome.uds == UdsOf(frame)
  {
    var header := ParseHeader(frame);
    if header.BadHeader? then Stop(InvalidResponse)
    else
      var payload := frame[HEADER_SIZE..];
      if header.payloadType == DIAGNOSTIC_MESSAGE then
        if |payload| < 5 then Stop(InvalidPayload)
        else
          assert payload[4..] == frame[HEADER_SIZE + 4..];
          if ResponsePending(request, payload[4..]) then Continue else Stop(Answer(payload[4..]))
      else if header.payloadType == DIAGNOSTIC_POSITIVE_ACK || header.payloadType == DIAGNOSTIC_NEGATIVE_ACK then
        if |payload| < 5 then Stop(MalformedAck)
        else if header.payloadType == DIAGNOSTIC_NEGATIVE_ACK && payload[4] != 0 then Stop(Nack(payload[4]))
        else Continue
      else Stop(UnexpectedType)
  }

  /** What the bytes of a frame mean for a waiting request: type 0x8001 carries the answer unless it says 7F, the
      service and 78; 0x8002 and 0x8003 acknowledge, the latter only with code zero; nothing else is expected. */
  lemma ReactMeaning(request: Bytes, frame: Bytes)
    ensures |frame| < 8 || frame[0] != 0x02 || frame[1] != 0xFD ==> React(request, frame) == Stop(InvalidResponse)
    ensures |frame| >= 8 && frame[..4] == [0x02, 0xFD, 0x80, 0x01] && |frame| < 13 ==>
      React(request, frame) == Stop(InvalidPayload)
    ensures |frame| >= 13 && frame[..4] == [0x02, 0xFD, 0x80, 0x01] ==>
      React(request, frame) ==
        if |frame| >= 15 && frame[12] == 0x7F && |request| > 0 && frame[13] == request[0] && frame[14] == 0x78
        then Continue else Stop(Answer(frame[12..]))
    ensures |frame| >= 8 && (frame[..4] == [0x02, 0xFD, 0x80, 0x02] || frame[..4] == [0x02, 0xFD, 0x80, 0x03]) ==>
      React(request, frame) ==
        if |frame| < 13 then Stop(MalformedAck)
        else if frame[3] == 0x03 && frame[12] != 0 then Stop(Nack(frame[12])) else Continue
    ensures |frame| >= 8 && frame[..2] == [0x02, 0xFD] && !(frame[2] == 0x80 && 1 <= frame[3] <= 3) ==>
      React(request, frame) == Stop(UnexpectedType)
  {
    HeaderMeaning(frame);
    if |frame| >= 8 {
      assert frame[..4][0] == frame[0] && frame[..4][1] == frame[1] && frame[..4][2] == frame[2] &&
          frame[..4][3] == frame[3] && frame[..2][0] == frame[0] && frame[..2][1] == frame[1];
      if |frame| >= 13 { assert frame[8..][4..] == frame[12..]; }
    }
  }

  /** The outcome of waiting on a list of frames, and how many of them are consumed. */
  function Await(request: Bytes, frames: seq<Bytes>): (Outcome, nat) {
    if frames == [] then (ReceiveFailed, 0)
    else
      match React(request, frames[0])
      case Stop(o) => (o, 1)
      case Continue => var (o, n) := Await(request, frames[1..]); (o, n + 1)
  }

  /** The same with a deadline: late tells for each interim frame whether the time was up when it had been read. */
  function AwaitUntil(request: Bytes, frames: seq<Bytes>, late: seq<bool>): (Outcome, nat) {
    if frames == [] then (ReceiveFailed, 0)
    else
      match React(request, frames[0])
      case Stop(o) => (o, 1)
      case Continue =>
        if late != [] && late[0] then (TimedOut, 1)
        else var (o, n) := AwaitUntil(request, frames[1..], Later(late, 1)); (o, n + 1)
  }

  function Later(late: seq<bool>, n: nat): seq<bool> {
    if n <= |late| then late[n..] else []
  }

  /** A wait times out exactly when the time is up at one of the interim frames that come first; every other wait ends
      as if there were no deadline. */
  lemma {:induction false} TimedOutIff(request: Bytes, frames: seq<Bytes>, late: seq<bool>)
    ensures AwaitUntil(request, frames, late).0 == TimedOut <==>
      exists k :: 0 <= k < |frames| && k < |late| && late[k] && InterimUpTo(request, frames, k)
    ensures AwaitUntil(request, frames, late).0 != TimedOut ==>
              AwaitUntil(request, frames, late) == Await(request, frames)
    decreases |frames|
  {
    hide Interim;
    if frames != [] {
      var rest, more := frames[1..], Later(late, 1);
      TimedOutIff(request, rest, more);
      NeverTimesOut(request, frames[0]);
      forall k | 0 <= k < |rest| && k < |more|
        ensures more[k] == late[k + 1]
        ensures Interim(request, frames[0]) ==> (InterimUpTo(request, rest, k) <==> InterimUpTo(request, frames, k + 1))
      {
        if Interim(request, frames[0]) { InterimNext(request, frames, k); }
      }
      if k :| 0 <= k < |frames| && k < |late| && late[k] && InterimUpTo(request, frames, k) {
        assert Interim(request, frames[0]);
        if k > 0 {
          assert k - 1 < |rest| && k - 1 < |more| && more[k - 1] && InterimUpTo(request, rest, k - 1);
        }
      }
      if k :| Interim(request, frames[0]) && 0 <= k < |rest| && k < |more| && more[k] && InterimUpTo(request, rest, k) {
        assert late[k + 1] && InterimUpTo(request, frames, k + 1);
      }
      if late != [] && late[0] && Interim(request, frames[0]) {
        assert InterimUpTo(request, frames, 0);
      }
    }
  }

  predicate InterimUpTo(request: Bytes, frames: seq<Bytes>, k: nat)
    requires k < |frames|
  {
    forall i :: 0 <= i <= k ==> Interim(request, frames[i])
  }

  lemma InterimNext(request: Bytes, frames: seq<Bytes>, k: nat)
    requires k + 1 < |frames| && Interim(request, frames[0])
    ensures InterimUpTo(request, frames[1..], k) <==> InterimUpTo(request, frames, k + 1)
  {
    hide Interim;
    if InterimUpTo(request, frames, k + 1) {
      assert forall i :: 0 <= i <= k ==> frames[1..][i] == frames[i + 1];
    }
    if InterimUpTo(request, frames[1..], k) {
      forall i | 0 <= i <= k + 1
        ensures Interim(request, frames[i])
      {
        if i > 0 { assert frames[1..][i - 1] == frames[i]; }
      }
    }
  }

  lemma NeverTimesOut(request: Bytes, frame: Bytes)
    ensures React(request, frame) != Stop(TimedOut)
    ensures React(request, frame) == Continue <==> Interim(request, frame)
  {
  }

  /** Frame k is the first diagnostic message that is not pending, carries uds, and only acceptable
      acknowledgements and pending messages came before it. */
  predicate AnswerAt(request: Bytes, frames: seq<Bytes>, uds: Bytes, k: nat)
    requires k < |frames|
  {
    && IsDiagnostic(frames[k]) && UdsOf(frames[k]) == uds && !ResponsePending(request, uds)
    && forall i :: 0 <= i < k ==> Interim(request, frames[i])
  }

  lemma {:induction false} AwaitAnswers(request: Bytes, frames: seq<Bytes>, uds: Bytes)
    ensures Await(request, frames).0 == Answer(uds) <==>
        exists k :: 0 <= k < |frames| && AnswerAt(request, frames, uds, k)
  {
    hide Interim, IsDiagnostic, ResponsePending, UdsOf;
    if frames != [] {
      var rest := frames[1..];
      AwaitAnswers(request, rest, uds);
      assert Interim(request, frames[0]) <==> React(request, frames[0]) == Continue;
      forall k | 0 <= k < |rest|
        ensures Interim(request, frames[0]) ==>
            (AnswerAt(request, rest, uds, k) <==> AnswerAt(request, frames, uds, k + 1))
      {
        if Interim(request, frames[0]) {
          LaterAnswer(request, frames, uds, k);
        }
      }
      if k :| 0 <= k < |frames| && AnswerAt(request, frames, uds, k) {
        if k > 0 {
          assert AnswerAt(request, rest, uds, k - 1);
        }
      }
      if Await(request, frames).0 == Answer(uds) && React(request, frames[0]) == Continue {
        var k :| 0 <= k < |rest| && AnswerAt(request, rest, uds, k);
        assert AnswerAt(request, frames, uds, k + 1);
      } else if Await(request, frames).0 == Answer(uds) {
        assert AnswerAt(request, frames, uds, 0);
      }
    }
  }

  lemma LaterAnswer(request: Bytes, frames: seq<Bytes>, uds: Bytes, k: nat)
    requires frames != [] && k < |frames| - 1 && Interim(request, frames[0])
    ensures AnswerAt(request, frames[1..], uds, k) <==> AnswerAt(request, frames, uds, k + 1)
  {
    hide Interim, IsDiagnostic, ResponsePending, UdsOf;
    var rest := frames[1..];
    assert rest[k] == frames[k + 1];
    if AnswerAt(request, rest, uds, k) {
      forall i | 0 <= i < k + 1
        ensures Interim(request, frames[i])
      {
        if i > 0 { assert Interim(request, rest[i - 1]); }
      }
    }
    if AnswerAt(request, frames, uds, k + 1) {
      forall i | 0 <= i < k
        ensures Interim(request, rest[i])
      {
        assert Interim(request, frames[i + 1]);
      }
    }
  }

  // ---------------------------------------------------------------- the protocol layer

  /** The TCP bus: the chunks it will still deliver before a receive times out, and what was sent. */
  class BusDriver {
    var incoming: seq<Bytes>
    var sent: seq<Bytes>
    var sendOk: bool

    constructor (incoming: seq<Bytes>, sendOk: bool)
      ensures this.incoming == incoming && sent == [] && this.sendOk == sendOk
    {
      this.incoming := incoming;
      this.sent := [];
      this.sendOk := sendOk;
    }

    method Send(data: Bytes) returns (ok: bool)
      modifies this`sent
      ensures ok == sendOk && sent == if ok then old(sent) + [data] else old(sent)
    {
      ok := sendOk;
      if ok { sent := sent + [data]; }
    }

    method Receive() returns (ok: bool, chunk: Bytes)
      modifies this`incoming
      ensures ok <==> old(incoming) != []
      ensures ok ==> old(incoming) == [chunk] + incoming
      ensures !ok ==> incoming == []
    {
      if incoming == [] { return false, []; }
      chunk := incoming[0];
      incoming := incoming[1..];
      ok := true;
    }
  }

  class DoipProtocolLayer {
    const bus: BusDriver
    var rxBuffer: Bytes
    var lastTx: Bytes
    var lastRx: Bytes
    var routingActive: bool

    constructor (bus: BusDriver, routingActive: bool)
      ensures this.bus == bus && rxBuffer == [] && this.routingActive == routingActive
    {
      this.bus := bus;
      this.rxBuffer := [];
      this.lastTx := [];
      this.lastRx := [];
      this.routingActive := routingActive;
    }

    /** All bytes not handed out yet, however the bus splits them. */
    function Pending(): Bytes
      reads this, bus
    {
      rxBuffer + Flatten(bus.incoming)
    }

    /** Hands out the first frame of the pending bytes, or keeps all of them when they hold none. */
    method ReceiveTcpFrame() returns (ok: bool, data: Bytes)
      modifies this`rxBuffer, this`lastRx, bus`incoming
      ensures ok <==> HasFrame(old(Pending()))
      ensures ok ==> old(Pending()) == data + Pending() && |data| == FrameSize(old(Pending())) && lastRx == data
      ensures !ok ==> Pending() == old(Pending()) && bus.incoming == [] && lastRx == old(lastRx)
    {
      hide LengthField, Flatten;
      ghost var stream := Pending();
      while true
        invariant Pending() == stream && lastRx == old(lastRx)
        decreases |bus.incoming|
      {
        if |rxBuffer| >= HEADER_SIZE {
          var frameSize := HEADER_SIZE + LengthField(rxBuffer);
          if |rxBuffer| >= frameSize {
            HasFramePrefix(rxBuffer, Flatten(bus.incoming));
            data := rxBuffer[..frameSize];
            rxBuffer := rxBuffer[frameSize..];
            lastRx := data;
            return true, data;
          }
        }
        var received, chunk := bus.Receive();
        FlattenParts(rxBuffer, chunk, bus.incoming);
        if !received {
          return false, [];
        }
        rxBuffer := rxBuffer + chunk;
      }
    }

    method SendTcpFrame(data: Bytes) returns (ok: bool)
      modifies this`lastTx, bus`sent
      ensures ok == bus.sendOk
      ensures bus.sent == (if ok then old(bus.sent) + [data] else old(bus.sent))
      ensures lastTx == (if ok then data else old(lastTx))
    {
      ok := bus.Send(data);
      if ok { lastTx := data; }
    }

    /** Repeated receives return the complete frames of the pending bytes, in order, and keep the rest. */
    method ReceiveAll() returns (frames: seq<Bytes>)
      modifies this`rxBuffer, this`lastRx, bus`incoming
      ensures frames == Frames(old(Pending()))
      ensures Pending() == After(old(Pending()), |frames|) && !HasFrame(Pending())
    {
      frames := [];
      ghost var stream := Pending();
      After0(stream);
      while true
        invariant Frames(stream) == frames + Frames(Pending())
        invariant Pending() == After(stream, |frames|)
        decreases |Pending()|
      {
        ghost var before := Pending();
        var ok, frame := ReceiveTcpFrame();
        if !ok {
          assert Frames(before) == [];
          return;
        }
        assert before[..FrameSize(before)] == frame && before[FrameSize(before)..] == Pending();
        AfterNext(stream, |frames|);
        frames := frames + [frame];
      }
    }

    /** Sends a request and waits for its final answer. With a non-negative timeout the wait ends at the first interim
        frame after which the time is up; late tells this for each of them. */
    method SendDiagnosticMessage(source: nat, target: nat, uds: Bytes, timeoutMs: int, late: seq<bool>)
      returns (r: Outcome)
      modifies this`rxBuffer, this`lastRx, this`lastTx, bus`incoming, bus`sent
      ensures !routingActive ==> r == NotActivated && Pending() == old(Pending()) && bus.sent == old(bus.sent)
      ensures routingActive && !bus.sendOk ==>
        r == SendFailed && Pending() == old(Pending()) && bus.sent == old(bus.sent) && lastTx == old(lastTx)
      ensures routingActive && bus.sendOk ==>
        bus.sent == old(bus.sent) + [BuildDiagnosticMessage(source, target, uds)] &&
            lastTx == BuildDiagnosticMessage(source, target, uds)
      ensures routingActive && bus.sendOk && source < 0x1_0000 && target < 0x1_0000 && |uds| + 4 < 0x1_0000_0000 ==>
        |bus.sent| > 0 && Asks(bus.sent[|bus.sent| - 1], source, target, uds)
      ensures routingActive && bus.sendOk ==>
        var (o, n) := AwaitUntil(uds, Frames(old(Pending())), if timeoutMs < 0 then [] else late);
        r == o && Pending() == After(old(Pending()), n)
      ensures routingActive && bus.sendOk && r != TimedOut ==>
        (r == Await(uds, Frames(old(Pending()))).0 &&
            Pending() == After(old(Pending()), Await(uds, Frames(old(Pending()))).1))
      ensures timeoutMs < 0 ==> r != TimedOut
    {
      if !routingActive { return NotActivated; }
      var message := BuildDiagnosticMessage(source, target, uds);
      if source < 0x1_0000 && target < 0x1_0000 && |uds| + 4 < 0x1_0000_0000 {
        MessageBytes(source, target, uds);
      }
      hide Asks, BuildDiagnosticMessage;
      var sent := SendTcpFrame(message);
      if !sent { return SendFailed; }
      TimedOutIff(uds, Frames(Pending()), if timeoutMs < 0 then [] else late);
      r := WaitForAnswer(uds, timeoutMs, late);
    }

    /** Reads frames until one of them settles the request. */
    method WaitForAnswer(uds: Bytes, timeoutMs: int, late: seq<bool>) returns (r: Outcome)
      modifies this`rxBuffer, this`lastRx, bus`incoming
      ensures var (o, n) := AwaitUntil(uds, Frames(old(Pending())), if timeoutMs < 0 then [] else late);
        r == o && Pending() == After(old(Pending()), n)
    {
      ghost var stream := Pending();
      ghost var n := 0;
      ghost var left := if timeoutMs < 0 then [] else late;
      After0(stream);
      var i := 0;
      hide *;
      while true
        invariant Pending() == After(stream, n)
        invariant left == if timeoutMs < 0 || i > |late| then [] else late[i..]
        invariant AwaitUntil(uds, Frames(stream), if timeoutMs < 0 then [] else late).0 ==
                  AwaitUntil(uds, Frames(Pending()), left).0
        invariant AwaitUntil(uds, Frames(stream), if timeoutMs < 0 then [] else late).1 ==
                  n + AwaitUntil(uds, Frames(Pending()), left).1
        decreases |Pending()|
      {
        ghost var before := Pending();
        var ok, frame := ReceiveTcpFrame();
        if !ok {
          AwaitNone(uds, before, left);
          return ReceiveFailed;
        }
        AwaitNext(uds, before, frame, Pending(), left);
        AfterNext(stream, n);
        n := n + 1;
        match React(uds, frame)
        case Stop(outcome) =>
          return outcome;
        case Continue =>
          var expired := i < |late| && late[i];
          if timeoutMs >= 0 && expired { return TimedOut; }
          LaterNext(late, left, timeoutMs, i);
          left := Later(left, 1);
          i := i + 1;
      }
    }
  }

  lemma LaterNext(late: seq<bool>, left: seq<bool>, timeoutMs: int, i: nat)
    requires left == if timeoutMs < 0 || i > |late| then [] else late[i..]
    ensures Later(left, 1) == if timeoutMs < 0 || i + 1 > |late| then [] else late[i + 1..]
  {
  }

  lemma AwaitNone(request: Bytes, stream: Bytes, late: seq<bool>)
    requires !HasFrame(stream)
    ensures AwaitUntil(request, Frames(stream), late) == (ReceiveFailed, 0)
  {
  }

  lemma AwaitNext(request: Bytes, stream: Bytes, frame: Bytes, rest: Bytes, late: seq<bool>)
    requires HasFrame(stream) && stream == frame + rest && |frame| == FrameSize(stream)
    ensures |rest| < |stream| && rest == stream[FrameSize(stream)..]
    ensures React(request, frame).Stop? ==>
      AwaitUntil(request, Frames(stream), late) == (React(request, frame).outcome, 1)
    ensures React(request, frame).Continue? ==>
      AwaitUntil(request, Frames(stream), late) ==
        if late != [] && late[0] then (TimedOut, 1)
        else (AwaitUntil(request, Frames(rest), Later(late, 1)).0,
              AwaitUntil(request, Frames(rest), Later(late, 1)).1 + 1)
  {
    hide ParseHeader, ResponsePending, LengthField, Later;
    FramesNext(stream);
    assert frame == stream[..FrameSize(stream)] && rest == stream[FrameSize(stream)..];
  }

  lemma FlattenParts(buffer: Bytes, chunk: Bytes, rest: seq<Bytes>)
    ensures buffer + Flatten([chunk] + rest) == (buffer + chunk) + Flatten(rest)
    ensures rest == [] ==> buffer + Flatten(rest) == buffer
  {
    assert ([chunk] + rest)[1..] == rest;
  }

  lemma After0(stream: Bytes)
    ensures After(stream, 0) == stream
  {
  }

  lemma FramesNext(stream: Bytes)
    requires HasFrame(stream)
    ensures Frames(stream) != [] && Frames(stream)[0] == stream[..FrameSize(stream)]
    ensures Frames(stream)[1..] == Frames(stream[FrameSize(stream)..])
  {
  }

  lemma {:induction false} AfterNext(stream: Bytes, n: nat)
    requires HasFrame(After(stream, n))
    ensures After(stream, n + 1) == After(stream, n)[FrameSize(After(stream, n))..]
  {
    if n > 0 && HasFrame(stream) {
      AfterNext(stream[FrameSize(stream)..], n - 1);
    }
  }
}
