/**
 The frames nodes exchange (cita-network/src/citaprotocol.rs). A frame starts with
 eight bytes: a magic number and the length of what follows. A data frame then
 holds the length of its key in one byte, the key and the body; a heartbeat holds
 nothing more.
 */
module FrameCodec {
  import opened Basics
  import opened StoreKeys

  type Bytes = seq<Byte>

  const TWO_32: nat := 0x1_0000_0000
  const TWO_64: nat := 0x1_0000_0000_0000_0000
  const NETMSG_START: nat := 0xDEAD_BEEF_0000_0000

  datatype Message = Message(key: Bytes, body: Bytes)

  // ---------------------------------------------------------------------
  // UTF-8
  // ---------------------------------------------------------------------

  predicate Tail(b: Byte) {
    0x80 <= b < 0xC0
  }

  /** The length of the character a byte string starts with, or 0 if it is malformed. */
  function CharLength(s: Bytes): (n: nat)
    requires s != []
    ensures n <= |s|
  {
    var b := s[0];
    if b < 0x80 then 1
    else if 0xC2 <= b < 0xE0 then if |s| >= 2 && Tail(s[1]) then 2 else 0
    else if 0xE0 <= b < 0xF0 then
      if && |s| >= 3 && Tail(s[1]) && Tail(s[2])
         && (b == 0xE0 ==> s[1] >= 0xA0) && (b == 0xED ==> s[1] < 0xA0)
      then 3 else 0
    else if 0xF0 <= b < 0xF5 then
      if && |s| >= 4 && Tail(s[1]) && Tail(s[2]) && Tail(s[3])
         && (b == 0xF0 ==> s[1] >= 0x90) && (b == 0xF4 ==> s[1] < 0x90)
      then 4 else 0
    else 0
  }

  predicate Utf8(s: Bytes) {
    s != [] ==> var n := CharLength(s); n > 0 && Utf8(s[n..])
  }

  /** A code point that is not a surrogate. */
  predicate Scalar(c: nat) {
    c < 0xD800 || 0xE000 <= c < 0x11_0000
  }

  /** The bytes of a character, as section 3 of RFC 3629 defines them. */
  function EncodeChar(c: nat): (s: Bytes)
    requires Scalar(c)
    ensures 1 <= |s| <= 4
  {
    if c < 0x80 then [c]
    else if c < 0x800 then [0xC0 + c / 64, 0x80 + c % 64]
    else if c < 0x1_0000 then [0xE0 + c / 4096, 0x80 + c / 64 % 64, 0x80 + c % 64]
    else [0xF0 + c / 262144, 0x80 + c / 4096 % 64, 0x80 + c / 64 % 64, 0x80 + c % 64]
  }

  ghost predicate Text(cs: seq<nat>) {
    forall i :: 0 <= i < |cs| ==> Scalar(cs[i])
  }

  function EncodeText(cs: seq<nat>): Bytes
    requires Text(cs)
  {
    if cs == [] then [] else EncodeChar(cs[0]) + EncodeText(cs[1..])
  }

  /** What a byte is above a lower bound. */
  function Above(b: Byte, low: Byte): nat
    requires b >= low
  {
    var n: int := b;
    n - low
  }

  /** The code point of the first character. */
  function DecodeChar(s: Bytes): nat
    requires s != [] && CharLength(s) > 0
  {
    var b := s[0];
    if b < 0x80 then b
    else if b < 0xE0 then Above(b, 0xC0) * 64 + Above(s[1], 0x80)
    else if b < 0xF0 then Above(b, 0xE0) * 4096 + Above(s[1], 0x80) * 64 + Above(s[2], 0x80)
    else Above(b, 0xF0) * 262144 + Above(s[1], 0x80) * 4096 + Above(s[2], 0x80) * 64 + Above(s[3], 0x80)
  }

  lemma SixBits(a: nat, b: nat, c: nat, d: nat)
    requires b < 64 && c < 64 && d < 64
    ensures
      var n := a * 262144 + b * 4096 + c * 64 + d;
      n / 262144 == a && n / 4096 % 64 == b && n / 64 % 64 == c && n % 64 == d
  {
    var n := a * 262144 + b * 4096 + c * 64 + d;
    assert n / 64 == a * 4096 + b * 64 + c;
    assert n / 4096 == a * 64 + b;
  }

  lemma CharDecodes(s: Bytes)
    requires s != [] && CharLength(s) > 0
    ensures Scalar(DecodeChar(s)) && EncodeChar(DecodeChar(s)) == s[..CharLength(s)]
  {
    var b := s[0];
    if b < 0x80 {
    } else if b < 0xE0 {
      TwoBytes(s);
    } else if b < 0xF0 {
      ThreeBytes(s);
    } else {
      FourBytes(s);
    }
  }

  lemma TwoBytes(s: Bytes)
    requires s != [] && CharLength(s) == 2 && s[0] < 0xE0
    ensures Scalar(DecodeChar(s)) && EncodeChar(DecodeChar(s)) == s[..2]
  {
    SixBits(0, 0, Above(s[0], 0xC0), Above(s[1], 0x80));
    var n := DecodeChar(s);
    assert 0x80 <= n < 0x800 && n / 64 == Above(s[0], 0xC0);
  }

  lemma ThreeBytes(s: Bytes)
    requires s != [] && CharLength(s) == 3 && 0xE0 <= s[0] < 0xF0
    ensures Scalar(DecodeChar(s)) && EncodeChar(DecodeChar(s)) == s[..3]
  {
    SixBits(0, Above(s[0], 0xE0), Above(s[1], 0x80), Above(s[2], 0x80));
    var n := DecodeChar(s);
    assert 0x800 <= n < 0x1_0000 && n / 4096 == Above(s[0], 0xE0);
  }

  lemma FourBytes(s: Bytes)
    requires s != [] && CharLength(s) == 4 && s[0] >= 0xF0
    ensures Scalar(DecodeChar(s)) && EncodeChar(DecodeChar(s)) == s[..4]
  {
    SixBits(Above(s[0], 0xF0), Above(s[1], 0x80), Above(s[2], 0x80), Above(s[3], 0x80));
    var n := DecodeChar(s);
    assert 0x1_0000 <= n < 0x11_0000;
  }

  lemma CharEncodes(c: nat, rest: Bytes)
    requires Scalar(c)
    ensures CharLength(EncodeChar(c) + rest) == |EncodeChar(c)|
  {
    var e := EncodeChar(c);
    var s := e + rest;
    assert forall i :: 0 <= i < |e| ==> s[i] == e[i];
  }

  /** The byte strings accepted as keys are exactly the encodings of texts. */
  lemma {:induction false} TextIsUtf8(cs: seq<nat>)
    requires Text(cs)
    ensures Utf8(EncodeText(cs))
  {
    if cs != [] {
      var rest := EncodeText(cs[1..]);
      TextIsUtf8(cs[1..]);
      CharEncodes(cs[0], rest);
      assert (EncodeChar(cs[0]) + rest)[|EncodeChar(cs[0])|..] == rest;
    }
  }

  lemma {:induction false} Utf8IsText(s: Bytes) returns (cs: seq<nat>)
    requires Utf8(s)
    ensures Text(cs) && EncodeText(cs) == s
  {
    hide CharLength, DecodeChar, EncodeChar, EncodeText;
    if s == [] {
      cs := [];
      NoText();
    } else {
      var n := CharLength(s);
      var rest := s[n..];
      CharDecodes(s);
      cs := Utf8IsText(rest);
      TextCons(DecodeChar(s), cs);
      cs := [DecodeChar(s)] + cs;
      assert s[..n] + rest == s;
    }
  }

  lemma NoText()
    ensures EncodeText([]) == []
  {
  }

  lemma TextCons(c: nat, cs: seq<nat>)
    requires Scalar(c) && Text(cs)
    ensures Text([c] + cs) && EncodeText([c] + cs) == EncodeChar(c) + EncodeText(cs)
  {
    hide EncodeChar;
    assert ([c] + cs)[1..] == cs;
  }

  // ---------------------------------------------------------------------
  // Encoding and decoding
  // ---------------------------------------------------------------------

  function FullLength(m: Message): nat {
    1 + |m.key| + |m.body|
  }

  /** Lengths that do not fit are reported and written all the same. */
  function Frame(msg: Option<Message>): Bytes {
    match msg
    case None => LowBytes(NETMSG_START, 8)
    case Some(m) => LowBytes((NETMSG_START + FullLength(m)) % TWO_64, 8) + [|m.key| % 0x100] + m.key + m.body
  }

  function ParsePayload(payload: Bytes): Option<Message>
    requires payload != []
  {
    var n := payload[0];
    if n == 0 || n > |payload| - 1 || !Utf8(payload[1..1 + n]) then None
    else Some(Message(payload[1..1 + n], payload[1 + n..]))
  }

  /** The message read, if any, and what is left of the buffer. */
  function Decode(buf: Bytes): (Option<Message>, Bytes) {
    if |buf| < 8 then (None, buf)
    else
      var id := FromBytes(buf[..8]);
      var length := id % TWO_32;
      if id - length != NETMSG_START || length + 8 > |buf| then (None, buf)
      else if length == 0 then (None, buf[8..])
      else (ParsePayload(buf[8..8 + length]), buf[8 + length..])
  }

  // ---------------------------------------------------------------------
  // One frame
  // ---------------------------------------------------------------------

  /** What the format can carry. */
  predicate Fits(m: Message) {
    1 <= |m.key| <= 0xFF && FullLength(m) < TWO_32
  }

  predicate Sendable(msg: Option<Message>) {
    msg.Some? ==> Fits(msg.value) && Utf8(msg.value.key)
  }

  lemma HeaderRoundTrip(n: nat)
    requires n < TWO_64
    ensures FromBytes(LowBytes(n, 8)) == n
  {
    BytesRoundTrip(n, 8);
    PowersOf256();
  }

  function LengthOf(msg: Option<Message>): nat {
    if msg.Some? then FullLength(msg.value) else 0
  }

  lemma HeaderOf(msg: Option<Message>)
    requires LengthOf(msg) < TWO_32
    ensures |Frame(msg)| == 8 + LengthOf(msg)
    ensures FromBytes(Frame(msg)[..8]) == NETMSG_START + LengthOf(msg)
  {
    hide LowBytes, FromBytes;
    HeaderRoundTrip(NETMSG_START + LengthOf(msg));
    assert Frame(msg)[..8] == LowBytes(NETMSG_START + LengthOf(msg), 8);
  }

  /** A whole frame is decoded to what was encoded and taken off the buffer. */
  lemma FrameRoundTrip(msg: Option<Message>, tail: Bytes)
    requires Sendable(msg)
    ensures Decode(Frame(msg) + tail) == (msg, tail)
  {
    hide LowBytes, FromBytes, Utf8;
    var frame := Frame(msg);
    var buf := frame + tail;
    HeaderOf(msg);
    assert buf[..8] == frame[..8];
    assert buf[8 + LengthOf(msg)..] == tail;
    if msg.Some? {
      PayloadRoundTrip(msg.value);
      assert buf[8..8 + LengthOf(msg)] == frame[8..];
    }
  }

  lemma PayloadRoundTrip(m: Message)
    requires Fits(m) && Utf8(m.key)
    ensures ParsePayload(Frame(Some(m))[8..]) == Some(m)
  {
    var payload := Frame(Some(m))[8..];
    assert payload == [|m.key|] + m.key + m.body;
    assert payload[1..1 + |m.key|] == m.key;
    assert payload[1 + |m.key|..] == m.body;
  }

  /** Part of a frame is neither decoded nor taken off the buffer. */
  lemma PartialFrameWaits(msg: Option<Message>, part: Bytes)
    requires Sendable(msg) && part < Frame(msg)
    ensures Decode(part) == (None, part)
  {
    hide LowBytes, FromBytes;
    HeaderOf(msg);
    if |part| >= 8 {
      assert part[..8] == Frame(msg)[..8];
    }
  }

  /** A message survives the trip exactly if its key has 1 to 255 bytes and key and
      body together are shorter than 2^32 - 1 bytes; the encoder takes any message. */
  lemma RoundTripIffFits(m: Message)
    requires Utf8(m.key) && FullLength(m) < TWO_64
    ensures Decode(Frame(Some(m))).0 == Some(m) <==> Fits(m)
  {
    hide LowBytes, FromBytes;
    var frame := Frame(Some(m));
    if Fits(m) {
      FrameRoundTrip(Some(m), []);
      assert frame + [] == frame;
    } else {
      var id := (NETMSG_START + FullLength(m)) % TWO_64;
      HeaderRoundTrip(id);
      assert frame[..8] == LowBytes(id, 8);
      if FullLength(m) < TWO_32 {
        assert frame[8..] == frame[8..8 + FullLength(m)];
        assert frame[8..][0] == |m.key| % 0x100;
      }
    }
  }

  /** The layout of a frame: the magic number, the length of the rest in four bytes, the
      length of the key in one, the key and the body; a heartbeat has length 0. */
  lemma FrameLayout(m: Message)
    requires Fits(m)
    ensures
      var f := Frame(Some(m));
      && |f| == 9 + |m.key| + |m.body|
      && f[..4] == [0xDE, 0xAD, 0xBE, 0xEF]
      && FromBytes(f[4..8]) == 1 + |m.key| + |m.body|
      && f[8] == |m.key| && f[9..9 + |m.key|] == m.key && f[9 + |m.key|..] == m.body
  {
    HeaderBytes(FullLength(m));
    hide LowBytes, FromBytes;
    FrameParts(m);
  }

  lemma FrameParts(m: Message)
    requires Fits(m)
    ensures
      var f, h := Frame(Some(m)), LowBytes(NETMSG_START + FullLength(m), 8);
      && |f| == 9 + |m.key| + |m.body|
      && f[..4] == h[..4] && f[4..8] == h[4..] && f[8] == |m.key|
      && f[9..9 + |m.key|] == m.key && f[9 + |m.key|..] == m.body
  {
    hide LowBytes;
  }

  lemma HeartbeatLayout()
    ensures Frame(None) == [0xDE, 0xAD, 0xBE, 0xEF, 0, 0, 0, 0]
  {
    HeaderBytes(0);
    hide LowBytes;
    var z := Frame(None);
    assert z == z[..4] + z[4..];
  }

  lemma HeaderBytes(n: nat)
    requires n < TWO_32
    ensures
      var h := LowBytes(NETMSG_START + n, 8);
      && h[..4] == [0xDE, 0xAD, 0xBE, 0xEF] && h[4..] == LowBytes(n, 4) && FromBytes(h[4..]) == n
    ensures LowBytes(0, 4) == [0, 0, 0, 0]
  {
    BytesRoundTrip(n, 4);
    PowersOf256();
    LowBytesSplit(NETMSG_START + n);
  }

  lemma LowBytesSplit(n: nat)
    requires NETMSG_START <= n < NETMSG_START + TWO_32
    ensures LowBytes(n, 8) == [0xDE, 0xAD, 0xBE, 0xEF] + LowBytes(n - NETMSG_START, 4)
  {
    var d := n - NETMSG_START;
    Shift(n, d, 4);
    assert LowBytes(0xDEAD_BEEF, 4) == [0xDE, 0xAD, 0xBE, 0xEF];
  }

  /** Taking four bytes off the low end leaves the bytes of the quotient. */
  lemma {:induction false} Shift(n: nat, d: nat, k: nat)
    requires n == 0xDEAD_BEEF * Pow256(k) + d && d < Pow256(k)
    ensures LowBytes(n, k + 4) == LowBytes(0xDEAD_BEEF, 4) + LowBytes(d, k)
  {
    if k > 0 {
      var p := Pow256(k - 1);
      assert n == 0x100 * (0xDEAD_BEEF * p) + d;
      assert n / 0x100 == 0xDEAD_BEEF * p + d / 0x100 && n % 0x100 == d % 0x100;
      Shift(n / 0x100, d / 0x100, k - 1);
    } else {
      assert LowBytes(d, 0) == [];
    }
  }

  /** A whole payload behind its header is parsed and taken off. */
  lemma PayloadIsParsed(payload: Bytes, tail: Bytes)
    requires 0 < |payload| < TWO_32
    ensures Decode(LowBytes(NETMSG_START + |payload|, 8) + (payload + tail)) == (ParsePayload(payload), tail)
  {
    hide LowBytes, FromBytes, ParsePayload;
    var id := NETMSG_START + |payload|;
    HeaderRoundTrip(id);
    LengthOfHeader(|payload|);
    Slices(LowBytes(id, 8), payload, tail);
    DecodesTo(LowBytes(id, 8) + (payload + tail), |payload|);
  }

  lemma LengthOfHeader(n: nat)
    requires n < TWO_32
    ensures (NETMSG_START + n) % TWO_32 == n
  {
  }

  lemma DecodesTo(buf: Bytes, n: nat)
    requires 8 + n <= |buf| && 0 < n < TWO_32 && FromBytes(buf[..8]) == NETMSG_START + n
    ensures Decode(buf) == (ParsePayload(buf[8..8 + n]), buf[8 + n..])
  {
    hide FromBytes, ParsePayload;
    LengthOfHeader(n);
  }

  lemma Slices(head: Bytes, payload: Bytes, tail: Bytes)
    requires |head| == 8
    ensures
      var buf := head + (payload + tail);
      && |buf| == 8 + |payload| + |tail|
      && buf[..8] == head && buf[8..8 + |payload|] == payload && buf[8 + |payload|..] == tail
  {
  }

  /** A frame whose key is empty, too long for it or no text is skipped as a whole. */
  lemma BadFrameIsSkipped(payload: Bytes, tail: Bytes)
    requires 0 < |payload| < TWO_32
    requires payload[0] == 0 || payload[0] > |payload| - 1 || !Utf8(payload[1..1 + payload[0]])
    ensures Decode(LowBytes(NETMSG_START + |payload|, 8) + (payload + tail)) == (None, tail)
  {
    hide LowBytes, FromBytes, Utf8, Decode;
    PayloadIsParsed(payload, tail);
  }

  lemma MagicOf(bytes: Bytes)
    requires |bytes| == 8 && NETMSG_START <= FromBytes(bytes) < NETMSG_START + TWO_32
    ensures bytes[..4] == [0xDE, 0xAD, 0xBE, 0xEF]
  {
    NumberRoundTrip(bytes);
    LowBytesSplit(FromBytes(bytes));
    hide LowBytes, FromBytes;
  }

  /** A buffer that does not start with the magic number is left alone. */
  lemma MalformedIsLeft(buf: Bytes)
    requires |buf| >= 8
    ensures buf[..4] == [0xDE, 0xAD, 0xBE, 0xEF] || Decode(buf) == (None, buf)
  {
    hide FromBytes;
    var id := FromBytes(buf[..8]);
    if id - id % TWO_32 == NETMSG_START {
      MagicOf(buf[..8]);
      assert buf[..8][..4] == buf[..4];
    }
  }

  // ---------------------------------------------------------------------
  // Streams of frames
  // ---------------------------------------------------------------------

  function Frames(msgs: seq<Option<Message>>): Bytes {
    if msgs == [] then [] else Frame(msgs[0]) + Frames(msgs[1..])
  }

  ghost predicate AllSendable(msgs: seq<Option<Message>>) {
    forall m :: m in msgs ==> Sendable(m)
  }

  /** Decoding again and again as long as the buffer shrinks. */
  function DecodeAll(buf: Bytes): (seq<Option<Message>>, Bytes)
    decreases |buf|
  {
    var (msg, rest) := Decode(buf);
    if |rest| >= |buf| then ([], buf)
    else
      var (msgs, end) := DecodeAll(rest);
      ([msg] + msgs, end)
  }

  /** Frames sent one after the other are decoded in order, with nothing left over. */
  lemma {:induction false} StreamRoundTrip(msgs: seq<Option<Message>>)
    requires AllSendable(msgs)
    ensures DecodeAll(Frames(msgs)) == (msgs, [])
  {
    if msgs != [] {
      hide Frame, Decode;
      assert Sendable(msgs[0]);
      FrameRoundTrip(msgs[0], Frames(msgs[1..]));
      HeaderOf(msgs[0]);
      StreamRoundTrip(msgs[1..]);
      assert [msgs[0]] + msgs[1..] == msgs;
    }
  }

  /** What a framed connection does with its buffer after each read: it decodes
      until a call returns nothing, which a heartbeat does too. */
  function Drain(buf: Bytes): (r: (seq<Message>, Bytes))
    ensures |r.1| <= |buf|
    decreases |buf|
  {
    var (msg, rest) := Decode(buf);
    if msg.None? then (assert |rest| <= |buf|; ([], rest))
    else
      var (msgs, end) := Drain(rest);
      ([msg.value] + msgs, end)
  }

  /** All messages delivered and the buffer left, after reading chunk by chunk. */
  function Receive(chunks: seq<Bytes>): (seq<Message>, Bytes) {
    if chunks == [] then ([], [])
    else
      var n := |chunks| - 1;
      var (before, buf) := Receive(chunks[..n]);
      var (msgs, rest) := Drain(buf + chunks[n]);
      (before + msgs, rest)
  }

  function Flat(chunks: seq<Bytes>): Bytes {
    if chunks == [] then [] else Flat(chunks[..|chunks| - 1]) + chunks[|chunks| - 1]
  }

  /** The messages among frames, without the heartbeats. */
  function Payloads(msgs: seq<Option<Message>>): seq<Message> {
    if msgs == [] then []
    else (if msgs[0].Some? then [msgs[0].value] else []) + Payloads(msgs[1..])
  }

  /** How far the decoder gets: to the first frame that is incomplete, or just past
      the first heartbeat. */
  function Reach(msgs: seq<Option<Message>>, length: nat): (k: nat)
    ensures k <= |msgs|
  {
    if msgs == [] || length < |Frame(msgs[0])| then 0
    else if msgs[0].None? then 1
    else 1 + Reach(msgs[1..], length - |Frame(msgs[0])|)
  }

  /** Draining takes a whole frame off and goes on after it, unless it is a heartbeat. */
  lemma DrainFrame(msg: Option<Message>, rest: Bytes)
    requires Sendable(msg)
    ensures Drain(Frame(msg) + rest) ==
            if msg.Some? then ([msg.value] + Drain(rest).0, Drain(rest).1) else ([], rest)
  {
    hide Frame, Decode;
    FrameRoundTrip(msg, rest);
  }

  lemma FirstFrame(msgs: seq<Option<Message>>, k: nat)
    requires 0 < k <= |msgs|
    ensures Frames(msgs[..k]) == Frame(msgs[0]) + Frames(msgs[1..][..k - 1])
    ensures Payloads(msgs[..k]) == (if msgs[0].Some? then [msgs[0].value] else []) + Payloads(msgs[1..][..k - 1])
  {
    hide Frame;
    assert msgs[..k][0] == msgs[0] && msgs[..k][1..] == msgs[1..][..k - 1];
  }

  /** The first `k` frames are what draining a buffer takes. */
  ghost predicate Takes(msgs: seq<Option<Message>>, k: nat, buf: Bytes) {
    k <= |msgs| && Drain(buf).0 == Payloads(msgs[..k]) && Frames(msgs[..k]) + Drain(buf).1 == buf
  }

  lemma TakesOneMore(msgs: seq<Option<Message>>, k: nat, rest: Bytes)
    requires msgs != [] && Sendable(msgs[0]) && msgs[0].Some? && Takes(msgs[1..], k, rest)
    ensures Takes(msgs, k + 1, Frame(msgs[0]) + rest)
  {
    hide Frame, Sendable, Drain;
    DrainFrame(msgs[0], rest);
    FirstFrame(msgs, k + 1);
  }

  lemma TakesHeartbeat(msgs: seq<Option<Message>>, rest: Bytes)
    requires msgs != [] && msgs[0].None?
    ensures Takes(msgs, 1, Frame(msgs[0]) + rest)
  {
    hide Frame, Drain;
    DrainFrame(msgs[0], rest);
    FirstFrame(msgs, 1);
  }

  /** From any part of a stream of frames, exactly the frames reached are taken. */
  lemma {:induction false} DrainReaches(msgs: seq<Option<Message>>, part: Bytes)
    requires AllSendable(msgs) && part <= Frames(msgs)
    ensures Takes(msgs, Reach(msgs, |part|), part)
  {
    hide Frame, Decode, Sendable, Takes;
    if msgs == [] {
      assert part == [];
      NothingToDrain();
      TakesNothing(msgs, part);
    } else {
      var frame := Frame(msgs[0]);
      assert Sendable(msgs[0]);
      if |part| < |frame| {
        assert part < frame;
        PartialFrameDrained(msgs[0], part);
        TakesNothing(msgs, part);
      } else {
        var rest := part[|frame|..];
        assert part == frame + rest;
        if msgs[0].Some? {
          DrainReaches(msgs[1..], rest);
          TakesOneMore(msgs, Reach(msgs[1..], |rest|), rest);
        } else {
          TakesHeartbeat(msgs, rest);
        }
      }
    }
  }

  lemma NothingToDrain()
    ensures Drain([]) == ([], [])
  {
  }

  lemma TakesNothing(msgs: seq<Option<Message>>, part: Bytes)
    requires Drain(part) == ([], part)
    ensures Takes(msgs, 0, part)
  {
    hide Drain;
    assert msgs[..0] == [];
  }

  lemma PartialFrameDrained(msg: Option<Message>, part: Bytes)
    requires Sendable(msg) && part < Frame(msg)
    ensures Drain(part) == ([], part)
  {
    hide Frame, Decode;
    PartialFrameWaits(msg, part);
  }

  lemma {:induction false} FramesConcat(a: seq<Option<Message>>, b: seq<Option<Message>>)
    ensures Frames(a + b) == Frames(a) + Frames(b)
  {
    hide Frame;
    if a == [] {
      assert a + b == b;
    } else {
      assert (a + b)[0] == a[0] && (a + b)[1..] == a[1..] + b;
      FramesConcat(a[1..], b);
      assert Frame(a[0]) + (Frames(a[1..]) + Frames(b)) == (Frame(a[0]) + Frames(a[1..])) + Frames(b);
    }
  }

  lemma {:induction false} PayloadsConcat(a: seq<Option<Message>>, b: seq<Option<Message>>)
    ensures Payloads(a + b) == Payloads(a) + Payloads(b)
  {
    if a == [] {
      assert a + b == b;
    } else {
      var head := if a[0].Some? then [a[0].value] else [];
      assert (a + b)[0] == a[0] && (a + b)[1..] == a[1..] + b;
      PayloadsConcat(a[1..], b);
      assert head + (Payloads(a[1..]) + Payloads(b)) == (head + Payloads(a[1..])) + Payloads(b);
    }
  }

  /** The first `k` frames have been taken off the stream and delivered. */
  ghost predicate Delivered(msgs: seq<Option<Message>>, chunks: seq<Bytes>, k: nat) {
    && k <= |msgs|
    && Receive(chunks).0 == Payloads(msgs[..k])
    && Frames(msgs[..k]) + Receive(chunks).1 == Flat(chunks)
  }

  lemma ReceiveOne(chunks: seq<Bytes>)
    requires chunks != []
    ensures
      var n := |chunks| - 1;
      var before := Receive(chunks[..n]);
      Receive(chunks) == (before.0 + Drain(before.1 + chunks[n]).0, Drain(before.1 + chunks[n]).1)
  {
    hide Drain;
  }

  lemma SendableAfter(msgs: seq<Option<Message>>, j: nat)
    requires AllSendable(msgs) && j <= |msgs|
    ensures AllSendable(msgs[j..])
  {
    hide Sendable;
  }

  /** One read takes the delivery as far as the decoder gets from where it was. */
  lemma DeliversMore(msgs: seq<Option<Message>>, chunks: seq<Bytes>, j: nat)
    requires AllSendable(msgs) && Flat(chunks) <= Frames(msgs) && chunks != []
    requires Delivered(msgs, chunks[..|chunks| - 1], j)
    ensures
      var n := |chunks| - 1;
      Delivered(msgs, chunks, j + Reach(msgs[j..], |Receive(chunks[..n]).1| + |chunks[n]|))
  {
    hide Reach, Drain, Frames, Payloads, Receive, AllSendable, Sendable;
    var n := |chunks| - 1;
    var buf := Receive(chunks[..n]).1 + chunks[n];
    ReceiveOne(chunks);
    SendableAfter(msgs, j);
    assert Frames(msgs[..j]) + buf == Flat(chunks);
    assert msgs == msgs[..j] + msgs[j..];
    ReadOn(msgs[..j], msgs[j..], buf);
    var k := j + Reach(msgs[j..], |buf|);
    assert msgs[..k] == msgs[..j] + msgs[j..][..k - j];
  }

  /** However a stream of frames is cut into reads, what is delivered is at every
      moment the messages of its first frames, in order, and nothing is lost. */
  lemma {:induction false} FragmentsKeepOrder(msgs: seq<Option<Message>>, chunks: seq<Bytes>)
    requires AllSendable(msgs) && Flat(chunks) <= Frames(msgs)
    ensures exists k :: Delivered(msgs, chunks, k)
  {
    hide Reach, Drain, Frame, Sendable;
    if chunks == [] {
      assert msgs[..0] == [];
      assert Delivered(msgs, chunks, 0);
    } else {
      var n := |chunks| - 1;
      assert Flat(chunks[..n]) <= Flat(chunks);
      FragmentsKeepOrder(msgs, chunks[..n]);
      var j: nat :| Delivered(msgs, chunks[..n], j);
      DeliversMore(msgs, chunks, j);
    }
  }

  ghost predicate NoHeartbeats(msgs: seq<Option<Message>>) {
    forall m :: m in msgs ==> m.Some?
  }

  /** Without heartbeats the decoder gets exactly as far as there are whole frames. */
  lemma {:induction false} ReachIsWholeFrames(msgs: seq<Option<Message>>, length: nat)
    requires NoHeartbeats(msgs)
    ensures
      var k := Reach(msgs, length);
      |Frames(msgs[..k])| <= length && (k < |msgs| ==> |Frames(msgs[..k + 1])| > length)
  {
    hide Frame;
    var k := Reach(msgs, length);
    if msgs == [] || length < |Frame(msgs[0])| {
      assert msgs[..0] == [];
      if msgs != [] {
        FirstFrame(msgs, 1);
      }
    } else {
      ReachIsWholeFrames(msgs[1..], length - |Frame(msgs[0])|);
      FirstFrame(msgs, k);
      if k < |msgs| {
        FirstFrame(msgs, k + 1);
      }
    }
  }

  lemma {:induction false} ReachOn(msgs: seq<Option<Message>>, j: nat, length: nat)
    requires NoHeartbeats(msgs) && j <= |msgs| && |Frames(msgs[..j])| <= length
    ensures Reach(msgs, length) == j + Reach(msgs[j..], length - |Frames(msgs[..j])|)
  {
    hide Frame;
    if j == 0 {
      assert msgs[..0] == [] && msgs[0..] == msgs;
    } else {
      FirstFrame(msgs, j);
      ReachOn(msgs[1..], j - 1, length - |Frame(msgs[0])|);
      assert msgs[1..][j - 1..] == msgs[j..];
    }
  }

  /** Without heartbeats every whole frame that has arrived has been delivered, however
      the stream was cut; so every cut of the whole stream delivers all of it. */
  lemma {:induction false} FragmentsDeliverWholeFrames(msgs: seq<Option<Message>>, chunks: seq<Bytes>)
    requires AllSendable(msgs) && NoHeartbeats(msgs) && Flat(chunks) <= Frames(msgs)
    ensures Delivered(msgs, chunks, Reach(msgs, |Flat(chunks)|))
    ensures Flat(chunks) == Frames(msgs) ==> Receive(chunks) == (Payloads(msgs), [])
  {
    hide Drain, Frame, Sendable;
    var all := Flat(chunks);
    if chunks == [] {
      ReachNothing(msgs);
      assert msgs[..0] == [];
    } else {
      var n := |chunks| - 1;
      var before := Flat(chunks[..n]);
      assert before <= all;
      FragmentsDeliverWholeFrames(msgs, chunks[..n]);
      var j := Reach(msgs, |before|);
      DeliversMore(msgs, chunks, j);
      ReachOn(msgs, j, |all|);
    }
    if all == Frames(msgs) {
      AllDelivered(msgs, chunks);
    }
  }

  lemma ReachNothing(msgs: seq<Option<Message>>)
    requires AllSendable(msgs)
    ensures Reach(msgs, 0) == 0
  {
    if msgs != [] {
      assert Sendable(msgs[0]);
      HeaderOf(msgs[0]);
    }
  }

  lemma AllDelivered(msgs: seq<Option<Message>>, chunks: seq<Bytes>)
    requires AllSendable(msgs) && NoHeartbeats(msgs) && Flat(chunks) == Frames(msgs)
    requires Delivered(msgs, chunks, Reach(msgs, |Flat(chunks)|))
    ensures Receive(chunks) == (Payloads(msgs), [])
  {
    hide Reach, Drain, Frame, Sendable;
    ReachesAll(msgs);
    assert HeartbeatsLast(msgs);
    assert msgs[..|msgs|] == msgs;
  }

  /** Reading on from a frame boundary. */
  lemma ReadOn(done: seq<Option<Message>>, rest: seq<Option<Message>>, buf: Bytes)
    requires AllSendable(rest) && Frames(done) + buf <= Frames(done + rest)
    ensures
      var more := rest[..Reach(rest, |buf|)];
      && Payloads(done + more) == Payloads(done) + Drain(buf).0
      && Frames(done + more) + Drain(buf).1 == Frames(done) + buf
  {
    hide Reach, Drain, Frames, Payloads, Sendable;
    var more := rest[..Reach(rest, |buf|)];
    FramesConcat(done, rest);
    PrefixAfter(Frames(done), buf, Frames(rest));
    DrainReaches(rest, buf);
    FramesConcat(done, more);
    PayloadsConcat(done, more);
    assert (Frames(done) + Frames(more)) + Drain(buf).1 == Frames(done) + (Frames(more) + Drain(buf).1);
  }

  lemma PrefixAfter(a: Bytes, b: Bytes, c: Bytes)
    requires a + b <= a + c
    ensures b <= c
  {
    assert b == (a + b)[|a|..] && c == (a + c)[|a|..];
  }

  /** No heartbeat is followed by another frame. */
  ghost predicate HeartbeatsLast(msgs: seq<Option<Message>>) {
    forall i :: 0 <= i < |msgs| - 1 ==> msgs[i].Some?
  }

  lemma {:induction false} ReachesAll(msgs: seq<Option<Message>>)
    requires AllSendable(msgs)
    ensures Reach(msgs, |Frames(msgs)|) == |msgs| <==> HeartbeatsLast(msgs)
  {
    hide Frame, Sendable;
    if |msgs| > 1 {
      var tail := msgs[1..];
      ReachesAll(tail);
      if HeartbeatsLast(msgs) {
        assert forall i :: 0 <= i < |tail| - 1 ==> tail[i] == msgs[i + 1];
      } else if msgs[0].Some? {
        var i :| 0 <= i < |msgs| - 1 && msgs[i].None?;
        assert tail[i - 1] == msgs[i];
      }
    }
  }

  lemma FramesNotEmpty(msgs: seq<Option<Message>>)
    requires AllSendable(msgs) && msgs != []
    ensures |Frames(msgs)| >= 8
  {
    assert Sendable(msgs[0]);
    HeaderOf(msgs[0]);
  }

  /** A framed connection that reads a whole stream at once delivers all of it exactly
      if no heartbeat is followed by another frame: what follows one stays in the
      buffer until more bytes arrive. */
  lemma OneReadDeliversIff(msgs: seq<Option<Message>>)
    requires AllSendable(msgs)
    ensures Receive([Frames(msgs)]) == (Payloads(msgs), []) <==> HeartbeatsLast(msgs)
  {
    hide Reach, Drain, Frames, Payloads, Sendable;
    var all := Frames(msgs);
    var k := Reach(msgs, |all|);
    assert Receive([all]) == Drain(all) by {
      var chunks := [all];
      assert chunks[..0] == [] && [] + all == all && [] + Drain(all).0 == Drain(all).0;
    }
    DrainReaches(msgs, all);
    ReachesAll(msgs);
    assert msgs == msgs[..k] + msgs[k..];
    FramesConcat(msgs[..k], msgs[k..]);
    assert Drain(all).1 == Frames(msgs[k..]) by {
      assert Drain(all).1 == all[|Frames(msgs[..k])|..];
    }
    if k == |msgs| {
      assert msgs[..k] == msgs && msgs[k..] == [];
      FramesConcat([], []);
    } else {
      FramesNotEmpty(msgs[k..]);
    }
  }

  // ---------------------------------------------------------------------
  // The buffer
  // ---------------------------------------------------------------------

  class Buffer {
    var bytes: Bytes

    constructor ()
      ensures bytes == []
    {
      bytes := [];
    }

    method Extend(data: Bytes)
      modifies this
      ensures bytes == old(bytes) + data
    {
      bytes := bytes + data;
    }

    /** The first `n` bytes are taken off. */
    method SplitTo(n: nat) returns (front: Bytes)
      requires n <= |bytes|
      modifies this
      ensures front == old(bytes)[..n] && bytes == old(bytes)[n..]
    {
      front := bytes[..n];
      bytes := bytes[n..];
    }

    method PutMessage(msg: Option<Message>)
      modifies this
      ensures bytes == old(bytes) + Frame(msg)
    {
      hide LowBytes;
      match msg {
        case Some(m) =>
          var length := 1 + |m.key| + |m.body|;
          Extend(LowBytes((NETMSG_START + length) % TWO_64, 8));
          Extend([|m.key| % 0x100]);
          Extend(m.key);
          Extend(m.body);
          assert bytes == old(bytes) + (LowBytes((NETMSG_START + length) % TWO_64, 8) + [|m.key| % 0x100] + m.key + m.body);
        case None =>
          Extend(LowBytes(NETMSG_START, 8));
      }
    }

    method TakeMessage() returns (msg: Option<Message>)
      modifies this
      ensures (msg, bytes) == Decode(old(bytes))
    {
      hide FromBytes, Utf8;
      if |bytes| < 8 {
        return None;
      }
      var id := FromBytes(bytes[..8]);
      var length := id % TWO_32;
      if id - length != NETMSG_START {
        return None;
      }
      if length + 8 > |bytes| {
        return None;
      }
      ghost var was := bytes;
      var header := SplitTo(8);
      if length == 0 {
        return None;
      }
      var payload := SplitTo(length);
      assert payload == was[8..8 + length] && bytes == was[8 + length..];
      var n := payload[0];
      if n == 0 || n > |payload| - 1 || !Utf8(payload[1..1 + n]) {
        return None;
      }
      return Some(Message(payload[1..1 + n], payload[1 + n..]));
    }
  }
}
