/** The binary frames of AWS event streams: two lengths and a checksum, headers, payload,
    and a checksum over all of it. */
module EventFrames {
  import opened BigEndian
  import opened PyDict

  type Bytes = seq<Byte>
  type U32 = n: nat | n < 0x1_0000_0000
  type Header = (Bytes, Bytes)

  datatype Event = Event(headers: seq<Header>, payload: Bytes)

  const STRING_TYPE: Byte := 7  // AWS_BINARY_DATA_TYPE_STRING

  // ---------------------------------------------------------------- printing

  function EncodeHeader(h: Header): Bytes
    requires |h.0| < 256
  {
    [|h.0|] + h.0 + [STRING_TYPE] + ToBytes(|h.1|, 2) + h.1
  }

  /** The one and two byte lengths of a header. */
  predicate HeaderFits(h: Header) {
    |h.0| < 0x100 && |h.1| < 0x1_0000
  }

  function EncodeHeaders(hs: seq<Header>): Bytes
    requires forall h | h in hs :: HeaderFits(h)
  {
    if hs == [] then [] else assert HeaderFits(hs[0]); EncodeHeader(hs[0]) + EncodeHeaders(hs[1..])
  }

  /** The length bounds within which `struct.pack` does not raise. */
  predicate Fits(e: Event) {
    && (forall h | h in e.headers :: HeaderFits(h))
    && |EncodeHeaders(e.headers)| + |e.payload| + 16 < 0x1_0000_0000
  }

  function Prelude(e: Event): Bytes
    requires Fits(e)
  {
    var section := EncodeHeaders(e.headers);
    ToBytes(|e.payload| + |section| + 16, 4) + ToBytes(|section|, 4)
  }

  function Message(crc: Bytes -> U32, e: Event): Bytes
    requires Fits(e)
  {
    Prelude(e) + ToBytes(crc(Prelude(e)), 4) + EncodeHeaders(e.headers) + e.payload
  }

  function Encode(crc: Bytes -> U32, e: Event): (r: Bytes)
    requires Fits(e)
    ensures |r| == |EncodeHeaders(e.headers)| + |e.payload| + 16
  {
    Message(crc, e) + ToBytes(crc(Message(crc, e)), 4)
  }

  // ---------------------------------------------------------------- reading

  /** A decoder written from the layout alone. */
  function DecodeHeader(s: Bytes): Option<(Header, Bytes)> {
    if s == [] then None
    else
      var n: nat := s[0];
      if |s| < n + 4 || s[n + 1] != 7 then None
      else
        var m := FromBytes(s[n + 2..n + 4]);
        if |s| < n + 4 + m then None
        else Some(((s[1..n + 1], s[n + 4..n + 4 + m]), s[n + 4 + m..]))
  }

  function DecodeHeaders(s: Bytes): Option<seq<Header>>
    decreases |s|
  {
    if s == [] then Some([])
    else match DecodeHeader(s)
      case None => None
      case Some((h, t)) =>
        match DecodeHeaders(t)
        case None => None
        case Some(hs) => Some([h] + hs)
  }

  function Decode(crc: Bytes -> U32, s: Bytes): Option<(Event, Bytes)> {
    if |s| < 16 then None
    else
      var total, section := FromBytes(s[..4]), FromBytes(s[4..8]);
      if FromBytes(s[8..12]) != crc(s[..8]) || total < section + 16 || |s| < total then None
      else if FromBytes(s[total - 4..total]) != crc(s[..total - 4]) then None
      else match DecodeHeaders(s[12..12 + section])
        case None => None
        case Some(headers) => Some((Event(headers, s[12 + section..total - 4]), s[total..]))
  }

  // ---------------------------------------------------------------- headers back and forth

  lemma HeaderLayout(h: Header, rest: Bytes)
    requires |h.0| < 0x100
    ensures
      var s, n, m := EncodeHeader(h) + rest, |h.0|, |h.1|;
      && s[0] == n && s[1..n + 1] == h.0 && s[n + 1] == 7 && s[n + 2..n + 4] == ToBytes(m, 2)
      && s[n + 4..n + 4 + m] == h.1 && s[n + 4 + m..] == rest
  {
  }

  lemma HeaderBack(h: Header, rest: Bytes)
    requires HeaderFits(h)
    ensures DecodeHeader(EncodeHeader(h) + rest) == Some((h, rest))
  {
    HeaderLayout(h, rest);
    Powers();
    FromToBytes(|h.1|, 2);
  }

  lemma HeaderForth(s: Bytes)
    requires DecodeHeader(s).Some?
    ensures var (h, t) := DecodeHeader(s).value; HeaderFits(h) && s == EncodeHeader(h) + t
  {
    var (h, t) := DecodeHeader(s).value;
    var n: nat := s[0];
    Powers();
    ToFromBytes(s[n + 2..n + 4]);
    assert s == [s[0]] + s[1..n + 1] + [s[n + 1]] + s[n + 2..n + 4] + h.1 + t;
  }

  lemma {:induction false} HeadersBack(hs: seq<Header>)
    requires forall h | h in hs :: HeaderFits(h)
    ensures DecodeHeaders(EncodeHeaders(hs)) == Some(hs)
  {
    if hs != [] {
      assert HeaderFits(hs[0]) && [hs[0]] + hs[1..] == hs;
      HeaderBack(hs[0], EncodeHeaders(hs[1..]));
      HeadersBack(hs[1..]);
      assert EncodeHeaders(hs) == EncodeHeader(hs[0]) + EncodeHeaders(hs[1..]) != [];
    }
  }

  lemma {:induction false} HeadersForth(s: Bytes)
    requires DecodeHeaders(s).Some?
    ensures var hs := DecodeHeaders(s).value; (forall h | h in hs :: HeaderFits(h)) && EncodeHeaders(hs) == s
    decreases |s|
  {
    if s != [] {
      HeaderForth(s);
      var (h, t) := DecodeHeader(s).value;
      HeadersForth(t);
      assert ([h] + DecodeHeaders(t).value)[1..] == DecodeHeaders(t).value;
    }
  }

  // ---------------------------------------------------------------- frames back and forth

  /** The fields of the frame of `e` at the front of `s`. */
  ghost predicate LaidOut(crc: Bytes -> U32, e: Event, s: Bytes, rest: Bytes)
    requires Fits(e)
  {
    var section := |EncodeHeaders(e.headers)|;
    var total := |e.payload| + section + 16;
    && |s| == total + |rest|
    && s[..4] == ToBytes(total, 4) && s[4..8] == ToBytes(section, 4)
    && s[..8] == Prelude(e) && s[8..12] == ToBytes(crc(Prelude(e)), 4)
    && s[12..12 + section] == EncodeHeaders(e.headers) && s[12 + section..total - 4] == e.payload
    && s[..total - 4] == Message(crc, e) && s[total - 4..total] == ToBytes(crc(Message(crc, e)), 4)
    && s[total..] == rest
  }

  lemma Layout(crc: Bytes -> U32, e: Event, rest: Bytes)
    requires Fits(e)
    ensures LaidOut(crc, e, Encode(crc, e) + rest, rest)
  {
    var s := Encode(crc, e) + rest;
    var total, section := ToBytes(|e.payload| + |EncodeHeaders(e.headers)| + 16, 4), ToBytes(|EncodeHeaders(e.headers)|, 4);
    var check := ToBytes(crc(Prelude(e)), 4);
    Parts(Message(crc, e), ToBytes(crc(Message(crc, e)), 4), rest);
    Parts(Prelude(e) + check, EncodeHeaders(e.headers), e.payload);
    Parts(Prelude(e), check, []);
    Parts(total, section, []);
    assert Prelude(e) + check + [] == Prelude(e) + check && total + section + [] == Prelude(e);
    Within(s, Message(crc, e), 12, 12 + |EncodeHeaders(e.headers)|);
    Within(s, Message(crc, e), 12 + |EncodeHeaders(e.headers)|, |Message(crc, e)|);
    Within(s, Message(crc, e), 0, 12);
    Within(s, Prelude(e) + check, 8, 12);
    Within(s, Prelude(e) + check, 0, 8);
    Within(s, Prelude(e), 0, 4);
    Within(s, Prelude(e), 4, 8);
  }

  lemma Parts(a: Bytes, b: Bytes, c: Bytes)
    ensures var s := a + b + c;
      s[..|a|] == a && s[|a|..|a| + |b|] == b && s[|a| + |b|..] == c && s[|a| + |b|..|s|] == c
  {
  }

  lemma Within(s: Bytes, prefix: Bytes, i: nat, j: nat)
    requires i <= j <= |prefix| <= |s| && s[..|prefix|] == prefix
    ensures s[i..j] == prefix[i..j] && s[..j] == prefix[..j]
  {
    forall k | 0 <= k < j ensures s[k] == prefix[k] {
      assert s[..|prefix|][k] == s[k];
    }
  }

  lemma Fields(crc: Bytes -> U32, e: Event, s: Bytes, rest: Bytes)
    requires Fits(e) && LaidOut(crc, e, s, rest)
    ensures
      var section := |EncodeHeaders(e.headers)|;
      var total := |e.payload| + section + 16;
      && FromBytes(s[..4]) == total && FromBytes(s[4..8]) == section
      && FromBytes(s[8..12]) == crc(s[..8]) && FromBytes(s[total - 4..total]) == crc(s[..total - 4])
  {
    Powers();
    FromToBytes(|e.payload| + |EncodeHeaders(e.headers)| + 16, 4);
    FromToBytes(|EncodeHeaders(e.headers)|, 4);
    FromToBytes(crc(Prelude(e)), 4);
    FromToBytes(crc(Message(crc, e)), 4);
  }

  /** What the decoder checks of a frame, and what it takes from it. */
  ghost predicate Accepted(crc: Bytes -> U32, s: Bytes, e: Event, rest: Bytes) {
    |s| >= 16 && AcceptedAs(crc, s, e, rest, FromBytes(s[..4]), FromBytes(s[4..8]))
  }

  ghost predicate AcceptedAs(crc: Bytes -> U32, s: Bytes, e: Event, rest: Bytes, total: nat, section: nat) {
    && section + 16 <= total <= |s|
    && FromBytes(s[8..12]) == crc(s[..8]) && FromBytes(s[total - 4..total]) == crc(s[..total - 4])
    && DecodeHeaders(s[12..12 + section]) == Some(e.headers)
    && e.payload == s[12 + section..total - 4] && rest == s[total..]
  }

  lemma AcceptedIsDecoded(crc: Bytes -> U32, s: Bytes, e: Event, rest: Bytes)
    requires Accepted(crc, s, e, rest)
    ensures Decode(crc, s) == Some((e, rest))
  {
  }

  lemma FieldsAreAccepted(crc: Bytes -> U32, e: Event, s: Bytes, rest: Bytes, total: nat, section: nat)
    requires Fits(e) && section == |EncodeHeaders(e.headers)| && section + 16 <= total <= |s|
    requires FromBytes(s[..4]) == total && FromBytes(s[4..8]) == section
    requires FromBytes(s[8..12]) == crc(s[..8]) && FromBytes(s[total - 4..total]) == crc(s[..total - 4])
    requires s[12..12 + section] == EncodeHeaders(e.headers) && s[12 + section..total - 4] == e.payload && s[total..] == rest
    ensures Accepted(crc, s, e, rest)
  {
    HeadersBack(e.headers);
  }

  lemma LaidOutIsAccepted(crc: Bytes -> U32, e: Event, s: Bytes, rest: Bytes)
    requires Fits(e) && LaidOut(crc, e, s, rest)
    ensures Accepted(crc, s, e, rest)
  {
    var section := |EncodeHeaders(e.headers)|;
    Fields(crc, e, s, rest);
    FieldsAreAccepted(crc, e, s, rest, |e.payload| + section + 16, section);
  }

  /** A frame is read back whatever follows it: it carries its own length. */
  lemma FrameBack(crc: Bytes -> U32, e: Event, rest: Bytes)
    requires Fits(e)
    ensures Decode(crc, Encode(crc, e) + rest) == Some((e, rest))
  {
    Layout(crc, e, rest);
    LaidOutIsAccepted(crc, e, Encode(crc, e) + rest, rest);
    AcceptedIsDecoded(crc, Encode(crc, e) + rest, e, rest);
  }

  lemma AcceptedFits(crc: Bytes -> U32, s: Bytes, e: Event, rest: Bytes)
    requires Accepted(crc, s, e, rest)
    ensures Fits(e) && EncodeHeaders(e.headers) == s[12..12 + FromBytes(s[4..8])]
    ensures |e.payload| + |EncodeHeaders(e.headers)| + 16 == FromBytes(s[..4])
  {
    Powers();
    HeadersForth(s[12..12 + FromBytes(s[4..8])]);
  }

  lemma PreludeForth(s: Bytes, e: Event)
    requires Fits(e) && |s| >= 8
    requires FromBytes(s[..4]) == |e.payload| + |EncodeHeaders(e.headers)| + 16
    requires FromBytes(s[4..8]) == |EncodeHeaders(e.headers)|
    ensures s[..8] == Prelude(e)
  {
    ToFromBytes(s[..4]);
    ToFromBytes(s[4..8]);
    assert s[..8] == s[..4] + s[4..8];
  }

  lemma MessageForth(crc: Bytes -> U32, s: Bytes, e: Event, section: nat, end: nat)
    requires Fits(e) && 12 + section <= end <= |s| && s[..8] == Prelude(e)
    requires FromBytes(s[8..12]) == crc(s[..8])
    requires s[12..12 + section] == EncodeHeaders(e.headers) && s[12 + section..end] == e.payload
    ensures s[..end] == Message(crc, e)
  {
    ToFromBytes(s[8..12]);
    assert s[..end] == s[..8] + s[8..12] + s[12..12 + section] + s[12 + section..end];
  }

  lemma FrameIsEncoded(crc: Bytes -> U32, s: Bytes, e: Event, total: nat)
    requires Fits(e) && 16 <= total <= |s| && s[..total - 4] == Message(crc, e)
    requires FromBytes(s[total - 4..total]) == crc(s[..total - 4])
    ensures s == Encode(crc, e) + s[total..]
  {
    ToFromBytes(s[total - 4..total]);
    assert s == s[..total - 4] + s[total - 4..total] + s[total..];
  }

  lemma AcceptedIsEncoded(crc: Bytes -> U32, s: Bytes, e: Event, rest: Bytes)
    requires Accepted(crc, s, e, rest)
    ensures Fits(e) && s == Encode(crc, e) + rest
  {
    var total, section := FromBytes(s[..4]), FromBytes(s[4..8]);
    AcceptedFits(crc, s, e, rest);
    PreludeForth(s, e);
    MessageForth(crc, s, e, section, total - 4);
    FrameIsEncoded(crc, s, e, total);
  }

  /** Nothing but frames is accepted: both lengths and both checksums are those of the event. */
  lemma FrameForth(crc: Bytes -> U32, s: Bytes)
    requires Decode(crc, s).Some?
    ensures var (e, rest) := Decode(crc, s).value; Fits(e) && s == Encode(crc, e) + rest
  {
    var (e, rest) := Decode(crc, s).value;
    AcceptedIsEncoded(crc, s, e, rest);
  }

  // ---------------------------------------------------------------- streams of frames

  function EncodeAll(crc: Bytes -> U32, es: seq<Event>): Bytes
    requires forall e | e in es :: Fits(e)
  {
    if es == [] then [] else Encode(crc, es[0]) + EncodeAll(crc, es[1..])
  }

  function DecodeAll(crc: Bytes -> U32, s: Bytes): Option<seq<Event>>
    decreases |s|
  {
    if s == [] then Some([])
    else match Decode(crc, s)
      case None => None
      case Some((e, t)) =>
        assert |t| < |s| by { FrameForth(crc, s); }
        match DecodeAll(crc, t)
        case None => None
        case Some(es) => Some([e] + es)
  }

  lemma {:induction false} StreamBack(crc: Bytes -> U32, es: seq<Event>)
    requires forall e | e in es :: Fits(e)
    ensures DecodeAll(crc, EncodeAll(crc, es)) == Some(es)
  {
    if es != [] {
      var first, others := Encode(crc, es[0]), EncodeAll(crc, es[1..]);
      FrameBack(crc, es[0], others);
      StreamBack(crc, es[1..]);
      assert [es[0]] + es[1..] == es && first + others != [];
    }
  }

  lemma {:induction false} StreamForth(crc: Bytes -> U32, s: Bytes)
    requires DecodeAll(crc, s).Some?
    ensures var es := DecodeAll(crc, s).value; (forall e | e in es :: Fits(e)) && s == EncodeAll(crc, es)
    decreases |s|
  {
    if s != [] {
      var (e, t) := Decode(crc, s).value;
      FrameForth(crc, s);
      StreamForth(crc, t);
      assert ([e] + DecodeAll(crc, t).value)[1..] == DecodeAll(crc, t).value;
    }
  }

  /** A byte stream is a concatenation of frames exactly if it decodes, and the events are
      then the decoded ones: there is one way to split it. */
  lemma StreamSplitsUniquely(crc: Bytes -> U32, es: seq<Event>, s: Bytes)
    ensures (forall e | e in es :: Fits(e)) && s == EncodeAll(crc, es) <==> DecodeAll(crc, s) == Some(es)
  {
    if (forall e | e in es :: Fits(e)) && s == EncodeAll(crc, es) {
      StreamBack(crc, es);
    }
    if DecodeAll(crc, s) == Some(es) {
      StreamForth(crc, s);
    }
  }

  // ---------------------------------------------------------------- the encoder

  function Ascii(s: string): Bytes {
    seq(|s|, i requires 0 <= i < |s| => s[i] as int % 256)
  }

  function CodeHeader(errorCode: Bytes): seq<Header> {
    if errorCode != [] then [(Ascii(":error-code"), errorCode)] else []
  }

  function MessageHeader(errorMessage: Bytes): seq<Header> {
    if errorMessage != [] then [(Ascii(":error-message"), errorMessage)] else []
  }

  /** The headers of an event; an error message or code makes it an error. */
  function HeadersOf(eventType: Bytes, errorCode: Bytes, errorMessage: Bytes): seq<Header> {
    [(Ascii(":event-type"), eventType),
     (Ascii(":message-type"), if errorMessage != [] || errorCode != [] then Ascii("error") else Ascii("event"))]
    + MessageHeader(errorMessage) + CodeHeader(errorCode)
  }

  /** The bytes are this text. */
  predicate Spells(b: Bytes, text: string) {
    |b| == |text| && forall i | 0 <= i < |text| :: b[i] == text[i] as int
  }

  /** The value of a header. */
  function HeaderValue(headers: seq<Header>, name: string): Option<Bytes> {
    if headers == [] then None
    else if Spells(headers[0].0, name) then Some(headers[0].1)
    else HeaderValue(headers[1..], name)
  }

  predicate Known(name: Bytes) {
    Spells(name, ":event-type") || Spells(name, ":message-type") || Spells(name, ":error-message")
    || Spells(name, ":error-code")
  }

  /** What the headers tell the client: an event of its type, or an error if there is a code
      or a message, and nothing else. */
  ghost predicate Tell(headers: seq<Header>, eventType: Bytes, errorCode: Bytes, errorMessage: Bytes) {
    && HeaderValue(headers, ":event-type") == Some(eventType)
    && (var m := HeaderValue(headers, ":message-type");
        m.Some? && Spells(m.value, if errorCode == [] && errorMessage == [] then "event" else "error"))
    && HeaderValue(headers, ":error-message") == (if errorMessage == [] then None else Some(errorMessage))
    && HeaderValue(headers, ":error-code") == (if errorCode == [] then None else Some(errorCode))
    && (forall h | h in headers :: Known(h.0))
    && (forall i, j | 0 <= i < j < |headers| :: headers[i].0 != headers[j].0)
  }

  /** The length of the header section. */
  function SectionSize(eventType: Bytes, errorCode: Bytes, errorMessage: Bytes): nat {
    15 + |eventType| + 22 + (if errorMessage == [] then 0 else 18 + |errorMessage|)
    + if errorCode == [] then 0 else 15 + |errorCode|
  }

  lemma AsciiSpells(a: string, b: string)
    requires forall c | c in a :: c as int < 0x100
    ensures Spells(Ascii(a), b) <==> a == b
  {
    if Spells(Ascii(a), b) {
      forall i | 0 <= i < |a| ensures a[i] == b[i] {
        assert a[i] in a;
        assert a[i] as int == b[i] as int;
      }
    } else if a == b {
      forall i | 0 <= i < |a| ensures Ascii(a)[i] == b[i] as int { assert a[i] in a; }
    }
  }

  lemma FirstHeader(h: Header, more: seq<Header>, name: string)
    ensures HeaderValue([h] + more, name) == if Spells(h.0, name) then Some(h.1) else HeaderValue(more, name)
  {
    assert ([h] + more)[1..] == more;
  }

  lemma OneHeader(h: Header, name: string)
    ensures HeaderValue([h], name) == if Spells(h.0, name) then Some(h.1) else None
  {
    assert [h] == [h] + [];
    FirstHeader(h, [], name);
  }

  /** The value of every header, and of those that are not there. */
  lemma ValueIs(eventType: Bytes, errorCode: Bytes, errorMessage: Bytes, name: string)
    ensures HeaderValue(HeadersOf(eventType, errorCode, errorMessage), name) ==
      if name == ":event-type" then Some(eventType)
      else if name == ":message-type" then Some(Ascii(if errorCode == [] && errorMessage == [] then "event" else "error"))
      else if name == ":error-message" && errorMessage != [] then Some(errorMessage)
      else if name == ":error-code" && errorCode != [] then Some(errorCode) else None
  {
    var hs := HeadersOf(eventType, errorCode, errorMessage);
    AsciiSpells(":event-type", name);
    AsciiSpells(":message-type", name);
    AsciiSpells(":error-message", name);
    AsciiSpells(":error-code", name);
    var message, code := MessageHeader(errorMessage), CodeHeader(errorCode);
    assert hs == [hs[0]] + ([hs[1]] + (message + code));
    FirstHeader(hs[0], [hs[1]] + (message + code), name);
    FirstHeader(hs[1], message + code, name);
    if errorMessage != [] { FirstHeader(message[0], code, name); } else { assert message + code == code; }
    if errorCode != [] { OneHeader(code[0], name); }
  }

  lemma NamesDiffer()
    ensures ":event-type" != ":message-type" && ":event-type" != ":error-message" && ":event-type" != ":error-code"
    ensures ":message-type" != ":error-message" && ":message-type" != ":error-code" && ":error-message" != ":error-code"
  {
    assert ":event-type"[2] != ":error-code"[2];
  }

  lemma HeadersTell(eventType: Bytes, errorCode: Bytes, errorMessage: Bytes)
    ensures Tell(HeadersOf(eventType, errorCode, errorMessage), eventType, errorCode, errorMessage)
  {
    NamesDiffer();
    ValueIs(eventType, errorCode, errorMessage, ":event-type");
    ValueIs(eventType, errorCode, errorMessage, ":message-type");
    ValueIs(eventType, errorCode, errorMessage, ":error-message");
    ValueIs(eventType, errorCode, errorMessage, ":error-code");
    AsciiSpells("event", "event");
    AsciiSpells("error", "error");
    NamesAreKnown(eventType, errorCode, errorMessage);
  }

  lemma NamesAreKnown(eventType: Bytes, errorCode: Bytes, errorMessage: Bytes)
    ensures var hs := HeadersOf(eventType, errorCode, errorMessage);
      (forall h | h in hs :: Known(h.0)) && forall i, j | 0 <= i < j < |hs| :: hs[i].0 != hs[j].0
  {
    AsciiSpells(":event-type", ":event-type");
    AsciiSpells(":message-type", ":message-type");
    AsciiSpells(":error-message", ":error-message");
    AsciiSpells(":error-code", ":error-code");
    assert Ascii(":event-type")[2] == 'v' as int && Ascii(":error-code")[2] == 'r' as int;
  }

  lemma HeadersFitExactly(eventType: Bytes, errorCode: Bytes, errorMessage: Bytes)
    ensures var hs := HeadersOf(eventType, errorCode, errorMessage);
      && ((forall h | h in hs :: HeaderFits(h))
          <==> |eventType| < 0x1_0000 && |errorCode| < 0x1_0000 && |errorMessage| < 0x1_0000)
      && ((forall h | h in hs :: HeaderFits(h)) ==>
            |EncodeHeaders(hs)| == SectionSize(eventType, errorCode, errorMessage))
  {
    var hs := HeadersOf(eventType, errorCode, errorMessage);
    var message, code := MessageHeader(errorMessage), CodeHeader(errorCode);
    assert hs == [hs[0]] + [hs[1]] + (message + code);
    assert hs[0] in hs && hs[1] in hs && forall h | h in message + code :: h in hs;
    assert errorMessage != [] ==> message[0] in message + code;
    assert errorCode != [] ==> code[0] in message + code;
    if forall h | h in hs :: HeaderFits(h) {
      SectionOf(hs);
      SectionIs(eventType, errorCode, errorMessage);
    }
  }

  lemma SectionIs(eventType: Bytes, errorCode: Bytes, errorMessage: Bytes)
    ensures Sizes(HeadersOf(eventType, errorCode, errorMessage)) == SectionSize(eventType, errorCode, errorMessage)
  {
    var hs := HeadersOf(eventType, errorCode, errorMessage);
    var message, code := MessageHeader(errorMessage), CodeHeader(errorCode);
    assert hs == [hs[0]] + [hs[1]] + (message + code);
    SizesConcat([hs[0]] + [hs[1]], message + code);
    SizesConcat([hs[0]], [hs[1]]);
    SizesConcat(message, code);
    OneSize(hs[0]);
    OneSize(hs[1]);
    if errorMessage != [] { OneSize(message[0]); }
    if errorCode != [] { OneSize(code[0]); }
  }

  lemma OneSize(h: Header)
    ensures Sizes([h]) == |h.0| + 4 + |h.1|
  {
  }

  lemma {:induction false} SizesConcat(a: seq<Header>, b: seq<Header>)
    ensures Sizes(a + b) == Sizes(a) + Sizes(b)
  {
    if a == [] {
      assert a + b == b;
    } else {
      assert (a + b)[1..] == a[1..] + b;
      SizesConcat(a[1..], b);
    }
  }

  lemma {:induction false} SectionOf(hs: seq<Header>)
    requires forall h | h in hs :: HeaderFits(h)
    ensures |EncodeHeaders(hs)| == Sizes(hs)
  {
    if hs != [] {
      assert hs[0] in hs;
      SectionOf(hs[1..]);
    }
  }

  function Sizes(hs: seq<Header>): nat {
    if hs == [] then 0 else |hs[0].0| + 4 + |hs[0].1| + Sizes(hs[1..])
  }

  /** `_encode_event_payload`: nothing is returned exactly when a length does not fit its
      field. What is returned decodes to one event with nothing left over. */
  method EncodeEventPayload(crc: Bytes -> U32, eventType: Bytes, content: Bytes, errorCode: Bytes, errorMessage: Bytes)
    returns (r: Option<Bytes>)
    ensures r.None? <==>
      || |eventType| >= 0x1_0000 || |errorCode| >= 0x1_0000 || |errorMessage| >= 0x1_0000
      || |content| + SectionSize(eventType, errorCode, errorMessage) + 16 >= 0x1_0000_0000
    ensures r.Some? ==>
      var d := Decode(crc, r.value);
      && d.Some? && d.value.1 == [] && d.value.0.payload == content
      && Tell(d.value.0.headers, eventType, errorCode, errorMessage)
  {
    var frame := BuildFrame(crc, eventType, content, errorCode, errorMessage);
    r := frame;
    HeadersFitExactly(eventType, errorCode, errorMessage);
    ghost var e := Event(HeadersOf(eventType, errorCode, errorMessage), content);
    if Fits(e) {
      HeadersTell(eventType, errorCode, errorMessage);
      FrameBack(crc, e, []);
      assert Encode(crc, e) + [] == Encode(crc, e);
    }
  }

  method BuildFrame(crc: Bytes -> U32, eventType: Bytes, content: Bytes, errorCode: Bytes, errorMessage: Bytes)
    returns (r: Option<Bytes>)
    ensures
      var e := Event(HeadersOf(eventType, errorCode, errorMessage), content);
      if Fits(e) then r == Some(Encode(crc, e)) else r == None
  {
    var section := EncodeSection(HeadersOf(eventType, errorCode, errorMessage));
    if section.None? || |content| + |section.value| + 16 >= 0x1_0000_0000 {
      return None;
    }
    ghost var e := Event(HeadersOf(eventType, errorCode, errorMessage), content);
    var result := ToBytes(|content| + |section.value| + 16, 4);
    result := result + ToBytes(|section.value|, 4);
    assert result == Prelude(e);
    result := result + ToBytes(crc(result), 4);
    result := result + section.value;
    result := result + content;
    assert result == Message(crc, e);
    result := result + ToBytes(crc(result), 4);
    return Some(result);
  }

  method EncodeSection(headers: seq<Header>) returns (r: Option<Bytes>)
    ensures r.Some? <==> forall h | h in headers :: HeaderFits(h)
    ensures r.Some? ==> r.value == EncodeHeaders(headers)
  {
    var section: Bytes := [];
    for i := 0 to |headers|
      invariant forall h | h in headers[..i] :: HeaderFits(h)
      invariant section == EncodeHeaders(headers[..i])
    {
      var h := headers[i];
      if |h.0| >= 0x100 || |h.1| >= 0x1_0000 {
        assert h in headers && !HeaderFits(h);
        return None;
      }
      assert headers[..i + 1] == headers[..i] + [h];
      HeadersSnoc(headers[..i], h);
      var encoded := [|h.0|] + h.0 + [STRING_TYPE] + ToBytes(|h.1|, 2) + h.1;
      section := section + encoded;
    }
    assert headers[..|headers|] == headers;
    return Some(section);
  }

  lemma {:induction false} HeadersSnoc(hs: seq<Header>, h: Header)
    requires (forall x | x in hs :: HeaderFits(x)) && HeaderFits(h)
    ensures forall x | x in hs + [h] :: HeaderFits(x)
    ensures EncodeHeaders(hs + [h]) == EncodeHeaders(hs) + EncodeHeader(h)
  {
    if hs == [] {
      assert [h][1..] == [] && hs + [h] == [h];
      assert EncodeHeaders([h]) == EncodeHeader(h) + EncodeHeaders([]);
    } else {
      assert (hs + [h])[1..] == hs[1..] + [h];
      HeadersSnoc(hs[1..], h);
    }
  }
}
