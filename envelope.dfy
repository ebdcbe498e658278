/** The wire envelope of the protocol: every text frame starts with the magic
    number 463 and a two-digit type code, followed by a JSON body; a binary
    attachment is a blob whose first five bytes are such a header, followed
    by a 36-byte message id and the attachment bytes. JSON itself is not
    modelled: outgoing bodies are structured values and inbound bodies are
    kept as text. */
module Envelope {
  import opened Wrappers
  import opened Listeners
  import opened MessageFrames

  // ---------------------------------------------------------------------------
  // Constants and headers
  // ---------------------------------------------------------------------------

  const MagicId: nat := 463

  const C2SHandshake: nat := 10
  const S2CHandshake: nat := 11
  const C2SMessage: nat := 12
  const S2CAck: nat := 13
  const S2CMessage: nat := 14
  const S2CIdentChange: nat := 15
  const S2CPlatformChange: nat := 16
  const S2CBroadcast: nat := 17
  const S2CError: nat := 18
  const S2CMessageError: nat := 19
  const C2SSynchronizeTopics: nat := 20
  const S2CBinaryAttachment: nat := 21

  /** Every type code of the protocol. */
  const TypeCodes: seq<nat> := [C2SHandshake, S2CHandshake, C2SMessage, S2CAck, S2CMessage, S2CIdentChange,
                                S2CPlatformChange, S2CBroadcast, S2CError, S2CMessageError, C2SSynchronizeTopics,
                                S2CBinaryAttachment]

  function Digit(d: nat): char
    requires d < 10
  {
    "0123456789"[d]
  }

  /** `Number.prototype.toString(10)` on a natural number. */
  function Decimal(n: nat): string
  {
    if n < 10 then [Digit(n)] else Decimal(n / 10) + [Digit(n % 10)]
  }

  /** The value of a string of decimal digits, if it is one. */
  function ParseDecimal(s: string): Option<nat>
  {
    if s == [] then None
    else if !('0' <= s[|s| - 1] <= '9') then None
    else
      var last := (s[|s| - 1] as int - '0' as int) as nat;
      if |s| == 1 then Some(last)
      else match ParseDecimal(s[..|s| - 1])
        case None => None
        case Some(high) => Some(high * 10 + last)
  }

  function MagicIdString(): string
  {
    Decimal(MagicId)
  }

  /** The five header characters of a frame of the given type. */
  function Header(typeCode: nat): string
  {
    MagicIdString() + Decimal(typeCode)
  }

  lemma DigitValue(d: nat)
    requires d < 10
    ensures '0' <= Digit(d) <= '9' && Digit(d) as int - '0' as int == d
  {
  }

  /** Decimal printing and parsing are inverse. */
  lemma {:induction false} DecimalRoundTrip(n: nat)
    ensures ParseDecimal(Decimal(n)) == Some(n)
    decreases n
  {
    if n < 10 {
      DigitValue(n);
    } else {
      var s := Decimal(n);
      DigitValue(n % 10);
      assert s[..|s| - 1] == Decimal(n / 10);
      DecimalRoundTrip(n / 10);
    }
  }

  lemma TwoDigitDecimal(n: nat)
    requires 10 <= n <= 99
    ensures Decimal(n) == [Digit(n / 10), Digit(n % 10)]
  {
  }

  lemma MagicIdIs463()
    ensures MagicIdString() == "463"
  {
    assert Decimal(4) == "4";
    assert Decimal(46) == "46";
  }

  /** Every type code is a distinct two-digit number, so every header has
      five characters, begins with "463", and its last two characters
      determine the type code. */
  lemma HeaderLayout(typeCode: nat)
    requires typeCode in TypeCodes
    ensures |Header(typeCode)| == 5
    ensures Header(typeCode)[..3] == "463"
    ensures ParseDecimal(Header(typeCode)[3..5]) == Some(typeCode)
    ensures forall other :: other in TypeCodes && other != typeCode ==> Header(other) != Header(typeCode)
  {
    MagicIdIs463();
    TwoDigitDecimal(typeCode);
    assert Header(typeCode)[3..5] == Decimal(typeCode);
    DecimalRoundTrip(typeCode);
    forall other | other in TypeCodes && other != typeCode
      ensures Header(other) != Header(typeCode)
    {
      TwoDigitDecimal(other);
      DecimalRoundTrip(other);
      assert Header(other)[3..5] == Decimal(other);
    }
  }

  // ---------------------------------------------------------------------------
  // Outgoing frames
  // ---------------------------------------------------------------------------

  /** The JSON object a client frame carries, before serialisation. */
  datatype Body =
    | MessageBody(id: string, topic: string, payload: Value, notify: bool)
    | HandshakeBody(protocol: int)
    | TopicsBody(topics: seq<string>)

  /** One text frame handed to the socket: its header and its body. */
  datatype Outgoing = Outgoing(header: string, body: Body)

  datatype CodecError = BinaryPayloadNotSupported

  /** `_encodeFrame`: a binary payload is refused; anything else becomes a
      client message with the frame's id, topic, payload and notification
      flag. */
  function EncodeFrame(f: Frame): (r: Result<Outgoing, CodecError>)
    ensures r.Failure? <==> f.payload.Binary?
    ensures r.Success? ==>
      r.value.header == Header(C2SMessage) && r.value.body == MessageBody(f.id, f.topic, f.payload, f.isNotification)
  {
    if f.payload.Binary? then Failure(BinaryPayloadNotSupported)
    else Success(Outgoing(Header(C2SMessage), MessageBody(f.id, f.topic, f.payload, f.isNotification)))
  }

  /** `_createHandshake`: protocol version 1. */
  function CreateHandshake(): Outgoing
  {
    Outgoing(Header(C2SHandshake), HandshakeBody(1))
  }

  /** `_encodeTopics`. */
  function EncodeTopics(topics: seq<string>): Outgoing
  {
    Outgoing(Header(C2SSynchronizeTopics), TopicsBody(topics))
  }

  /** The text the socket sends, given the JSON serialiser. */
  function Serialize(o: Outgoing, json: Body -> string): string
  {
    o.header + json(o.body)
  }

  /** The type code an outgoing frame was built with. */
  function CodeOf(o: Outgoing): nat
  {
    match o.body
    case MessageBody(_, _, _, _) => C2SMessage
    case HandshakeBody(_) => C2SHandshake
    case TopicsBody(_) => C2SSynchronizeTopics
  }

  /** Whatever the serialiser produces, the sent text starts with "463", and
      its characters 3 and 4 read back as the frame's type code. */
  lemma {:induction false} SerializedTypeRecovered(o: Outgoing, json: Body -> string)
    requires o == CreateHandshake() || (exists t :: o == EncodeTopics(t))
      || exists f :: EncodeFrame(f) == Success(o)
    ensures |Serialize(o, json)| >= 5
    ensures Serialize(o, json)[..3] == "463"
    ensures ParseDecimal(Serialize(o, json)[3..5]) == Some(CodeOf(o))
  {
    assert o.header == Header(CodeOf(o));
    HeaderLayout(CodeOf(o));
    var text := Serialize(o, json);
    assert text[..3] == o.header[..3];
    assert text[3..5] == o.header[3..5];
  }

  // ---------------------------------------------------------------------------
  // Inbound text frames
  // ---------------------------------------------------------------------------

  /** A typed inbound frame: the server frame kinds the client dispatches,
      each with its body text. */
  datatype Inbound =
    | InHandshake(body: string)
    | InAck(body: string)
    | InReply(body: string)
    | InIdentChange(body: string)
    | InPlatformChange(body: string)
    | InBroadcast(body: string)
    | InServerError(body: string)
    | InMessageError(body: string)
    | InUnknown(typeCode: string, body: string)

  /** Which kind a two-character type field selects. */
  function Route(typeCode: string, body: string): Inbound
  {
    if typeCode == Decimal(S2CHandshake) then InHandshake(body)
    else if typeCode == Decimal(S2CAck) then InAck(body)
    else if typeCode == Decimal(S2CMessage) then InReply(body)
    else if typeCode == Decimal(S2CIdentChange) then InIdentChange(body)
    else if typeCode == Decimal(S2CPlatformChange) then InPlatformChange(body)
    else if typeCode == Decimal(S2CBroadcast) then InBroadcast(body)
    else if typeCode == Decimal(S2CError) then InServerError(body)
    else if typeCode == Decimal(S2CMessageError) then InMessageError(body)
    else InUnknown(typeCode, body)
  }

  /** The type field and body of a routed frame. */
  function Parts(i: Inbound): (string, string)
  {
    match i
    case InHandshake(b) => (Decimal(S2CHandshake), b)
    case InAck(b) => (Decimal(S2CAck), b)
    case InReply(b) => (Decimal(S2CMessage), b)
    case InIdentChange(b) => (Decimal(S2CIdentChange), b)
    case InPlatformChange(b) => (Decimal(S2CPlatformChange), b)
    case InBroadcast(b) => (Decimal(S2CBroadcast), b)
    case InServerError(b) => (Decimal(S2CError), b)
    case InMessageError(b) => (Decimal(S2CMessageError), b)
    case InUnknown(t, b) => (t, b)
  }

  /** Routing loses nothing: the type field and body are recovered from the
      kind, so two different fields never select the same kind. */
  lemma RouteIsOneToOne(typeCode: string, body: string)
    ensures Parts(Route(typeCode, body)) == (typeCode, body)
  {
  }

  /** The text-frame part of `_onSocketMessage`: text shorter than five
      characters or not starting with the magic number is a foreign
      protocol (`None`); otherwise characters 3 and 4 select the kind and
      the rest is the body. */
  function Classify(text: string): (r: Option<Inbound>)
    ensures r.None? <==> |text| < 5 || text[..3] != MagicIdString()
    ensures r.Some? ==> Parts(r.value) == (text[3..5], text[5..])
  {
    if |text| < 5 || text[..3] != MagicIdString() then None
    else
      RouteIsOneToOne(text[3..5], text[5..]);
      Some(Route(text[3..5], text[5..]))
  }

  /** A text made of a header and a body classifies as that header's kind
      with that body; the server kinds map one-to-one onto their codes. */
  lemma ClassifyHeader(typeCode: nat, body: string)
    requires typeCode in TypeCodes
    ensures Classify(Header(typeCode) + body) == Some(Route(Decimal(typeCode), body))
  {
    HeaderLayout(typeCode);
    MagicIdIs463();
    var text := Header(typeCode) + body;
    assert text[..3] == "463";
    assert text[3..5] == Decimal(typeCode);
    assert text[5..] == body;
    TwoDigitDecimal(typeCode);
  }

  /** The dispatch table: "11" handshake, "13" acknowledgement, "14" reply,
      "15" ident change, "16" platform change, "17" broadcast, "18" server
      error, "19" message error. */
  lemma RouteTable(body: string)
    ensures Route(Decimal(S2CHandshake), body) == InHandshake(body)
    ensures Route(Decimal(S2CAck), body) == InAck(body)
    ensures Route(Decimal(S2CMessage), body) == InReply(body)
    ensures Route(Decimal(S2CIdentChange), body) == InIdentChange(body)
    ensures Route(Decimal(S2CPlatformChange), body) == InPlatformChange(body)
    ensures Route(Decimal(S2CBroadcast), body) == InBroadcast(body)
    ensures Route(Decimal(S2CError), body) == InServerError(body)
    ensures Route(Decimal(S2CMessageError), body) == InMessageError(body)
  {
    TypeStrings();
  }

  /** The client-to-server codes and the attachment code are unknown as
      inbound text frames. */
  lemma RouteUnknownCodes(body: string)
    ensures Route(Decimal(C2SHandshake), body) == InUnknown("10", body)
    ensures Route(Decimal(C2SMessage), body) == InUnknown("12", body)
    ensures Route(Decimal(C2SSynchronizeTopics), body) == InUnknown("20", body)
    ensures Route(Decimal(S2CBinaryAttachment), body) == InUnknown("21", body)
  {
    TypeStrings();
  }

  /** The type fields as text. */
  lemma TypeStrings()
    ensures Decimal(C2SHandshake) == "10" && Decimal(S2CHandshake) == "11"
    ensures Decimal(C2SMessage) == "12" && Decimal(S2CAck) == "13"
    ensures Decimal(S2CMessage) == "14" && Decimal(S2CIdentChange) == "15"
    ensures Decimal(S2CPlatformChange) == "16" && Decimal(S2CBroadcast) == "17"
    ensures Decimal(S2CError) == "18" && Decimal(S2CMessageError) == "19"
    ensures Decimal(C2SSynchronizeTopics) == "20" && Decimal(S2CBinaryAttachment) == "21"
  {
    assert Decimal(1) == "1" && Decimal(2) == "2";
  }

  // ---------------------------------------------------------------------------
  // Binary attachments
  // ---------------------------------------------------------------------------

  /** Code points of windows-1252 bytes 0x80 to 0x9F (the WHATWG index;
      `FileReader.readAsText(blob, 'ASCII')` decodes windows-1252). */
  const HighControls: seq<int> := [
    0x20AC, 0x0081, 0x201A, 0x0192, 0x201E, 0x2026, 0x2020, 0x2021,
    0x02C6, 0x2030, 0x0160, 0x2039, 0x0152, 0x008D, 0x017D, 0x008F,
    0x0090, 0x2018, 0x2019, 0x201C, 0x201D, 0x2022, 0x2013, 0x2014,
    0x02DC, 0x2122, 0x0161, 0x203A, 0x0153, 0x009D, 0x017E, 0x0178]

  function DecodeByte(b: Byte): (c: char)
    ensures (c as int < 0x80) <==> (b as int < 0x80)
    ensures b as int < 0x80 ==> c as int == b as int
  {
    var n := b as int;
    if 0x80 <= n < 0xA0 then HighControls[n - 0x80] as char else n as char
  }

  /** Decoding a byte range as text. */
  function DecodeText(bytes: seq<Byte>): (s: string)
    ensures |s| == |bytes| && forall i :: 0 <= i < |bytes| ==> s[i] == DecodeByte(bytes[i])
  {
    if bytes == [] then [] else [DecodeByte(bytes[0])] + DecodeText(bytes[1..])
  }

  predicate IsAscii(s: string)
  {
    forall i :: 0 <= i < |s| ==> s[i] as int < 0x80
  }

  function AsciiBytes(s: string): (bytes: seq<Byte>)
    requires IsAscii(s)
    ensures |bytes| == |s| && forall i :: 0 <= i < |s| ==> bytes[i] as int == s[i] as int
  {
    if s == [] then [] else [s[0] as int as Byte] + AsciiBytes(s[1..])
  }

  /** `Blob.slice(start, end)`: positions clamped to the blob. */
  function Slice(bytes: seq<Byte>, start: nat, end: nat): (r: seq<Byte>)
  {
    var lo := if start < |bytes| then start else |bytes|;
    var hi := if end < |bytes| then end else |bytes|;
    if lo <= hi then bytes[lo..hi] else []
  }

  /** The binary part of `_onSocketMessage` for a blob: when bytes [0,5)
      decode to the attachment header, bytes [5,41) decoded are the message
      id and bytes [41,end) are the attachment; any other blob is no
      attachment. */
  function AttachmentOf(bytes: seq<Byte>): Option<(string, seq<Byte>)>
  {
    if DecodeText(Slice(bytes, 0, 5)) != Header(S2CBinaryAttachment) then None
    else Some((DecodeText(Slice(bytes, 5, 41)), Slice(bytes, 41, |bytes|)))
  }

  /** The blob a server sends to attach bytes to the message with a 36-character
      ASCII id. */
  function AttachmentBlob(id: string, attachment: seq<Byte>): seq<Byte>
    requires |id| == 36 && IsAscii(id)
  {
    MagicIdIs463();
    TwoDigitDecimal(S2CBinaryAttachment);
    AsciiBytes(Header(S2CBinaryAttachment)) + AsciiBytes(id) + attachment
  }

  lemma {:induction false} DecodeAscii(s: string)
    requires IsAscii(s)
    ensures DecodeText(AsciiBytes(s)) == s
  {
    var d := DecodeText(AsciiBytes(s));
    forall i | 0 <= i < |s|
      ensures d[i] == s[i]
    {
      assert AsciiBytes(s)[i] as int == s[i] as int;
    }
  }

  /** Splitting an attachment blob recovers the id and the attachment. */
  lemma AttachmentRoundTrip(id: string, attachment: seq<Byte>)
    requires |id| == 36 && IsAscii(id)
    ensures AttachmentOf(AttachmentBlob(id, attachment)) == Some((id, attachment))
  {
    MagicIdIs463();
    TwoDigitDecimal(S2CBinaryAttachment);
    var h := Header(S2CBinaryAttachment);
    assert h == "46321";
    var blob := AttachmentBlob(id, attachment);
    assert Slice(blob, 0, 5) == AsciiBytes(h);
    assert Slice(blob, 5, 41) == AsciiBytes(id);
    assert Slice(blob, 41, |blob|) == attachment;
    DecodeAscii(h);
    DecodeAscii(id);
  }

  /** The attachment header is "46321". */
  lemma AttachmentHeader()
    ensures Header(S2CBinaryAttachment) == "46321"
  {
    MagicIdIs463();
    TwoDigitDecimal(S2CBinaryAttachment);
  }

  /** Only a blob of at least five bytes whose first five bytes are the
      ASCII header "46321" is an attachment. */
  lemma AttachmentNeedsHeader(bytes: seq<Byte>)
    ensures AttachmentOf(bytes).Some? <==> |bytes| >= 5 && DecodeText(bytes[..5]) == "46321"
    ensures AttachmentOf(bytes).Some? ==> forall i :: 0 <= i < 5 ==> bytes[i] as int == "46321"[i] as int
  {
    AttachmentHeader();
    var head := DecodeText(Slice(bytes, 0, 5));
    if |bytes| < 5 {
      assert |head| < 5;
    } else {
      assert Slice(bytes, 0, 5) == bytes[..5];
      if head == "46321" {
        forall i | 0 <= i < 5
          ensures bytes[i] as int == "46321"[i] as int
        {
          assert head[i] == DecodeByte(bytes[i]);
        }
      }
    }
  }
}
