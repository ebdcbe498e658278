/** One connection attempt (`SocketTransport`): the socket's ready state, the
    server's handshake reply, and the frames handed to the socket, plus the
    dispatch of every inbound datum to the transport's event kinds. */
module Transports {
  import opened Wrappers
  import opened Listeners
  import opened MessageFrames
  import opened Envelope

  /** The WebSocket `readyState` values. */
  const Connecting: int := 0
  const Open: int := 1
  const Closing: int := 2
  const Closed: int := 3

  /** What a socket `message` event carries: text, a `Blob`, or another
      binary type (an `ArrayBuffer`). */
  datatype InboundData = Text(text: string) | BlobData(blob: seq<Byte>) | BufferData(buffer: seq<Byte>)

  /** The transport's event kinds, in the order its consumers are invoked. */
  datatype TransportEvent =
    | MessageReceived
    | BinaryMessage
    | BinaryAttachment(messageId: string, attachment: seq<Byte>)
    | ForeignProtocol
    | Dispatched(inbound: Inbound)

  datatype TransportError = TransportNotReady | Codec(error: CodecError)

  /** The events of a text datum after the generic message event. */
  function TextEvents(text: string): seq<TransportEvent>
  {
    match Classify(text)
    case None => [ForeignProtocol]
    case Some(i) => [Dispatched(i)]
  }

  /** `_onSocketMessage` with the unknown-type branch reporting through its
      consumer: every datum first raises the message event; binary data then
      raises the binary event and, for a blob with the attachment header,
      the attachment event; text raises exactly one of foreign protocol or
      its typed kind. */
  function Dispatch(data: InboundData): (events: seq<TransportEvent>)
    ensures 2 <= |events| <= 3 && events[0] == MessageReceived
    ensures data.Text? ==> |events| == 2 && (events[1] == ForeignProtocol <==> Classify(data.text).None?)
    ensures !data.Text? ==> events[1] == BinaryMessage
    ensures |events| == 3 <==> data.BlobData? && AttachmentOf(data.blob).Some?
    ensures |events| == 3 ==> events[2] == BinaryAttachment(AttachmentOf(data.blob).value.0, AttachmentOf(data.blob).value.1)
  {
    match data
    case Text(t) => [MessageReceived] + TextEvents(t)
    case BlobData(b) =>
      [MessageReceived, BinaryMessage] +
      (match AttachmentOf(b)
       case None => []
       case Some(split) => [BinaryAttachment(split.0, split.1)])
    case BufferData(_) => [MessageReceived, BinaryMessage]
  }

  /** The events raised and whether an exception escaped. */
  datatype Delivery = Delivery(events: seq<TransportEvent>, thrown: bool)

  /** `_onSocketMessage` as written: for a text frame of unknown type the
      consumer object itself is called, which is not a function, so a
      `TypeError` escapes after the message event and nothing reports the
      frame. */
  function DispatchAsWritten(data: InboundData): Delivery
  {
    if data.Text? && Classify(data.text).Some? && Classify(data.text).value.InUnknown? then
      Delivery([MessageReceived], true)
    else
      Delivery(Dispatch(data), false)
  }

  /** The two agree on everything but text frames of an unknown type. */
  lemma DispatchAsWrittenDiffers(data: InboundData)
    ensures (data.Text? && Classify(data.text).Some? && Classify(data.text).value.InUnknown?) <==>
      DispatchAsWritten(data) != Delivery(Dispatch(data), false)
  {
  }

  /** Counterexample: the text "46399{}" (type "99") throws as written and is
      reported as unknown type "99" with body "{}" by the corrected dispatch. */
  lemma UnknownTypeThrowsAsWritten()
    ensures DispatchAsWritten(Text("46399{}")) == Delivery([MessageReceived], true)
    ensures Dispatch(Text("46399{}")) == [MessageReceived, Dispatched(InUnknown("99", "{}"))]
  {
    MagicIdIs463();
    var t := "46399{}";
    assert t[..3] == "463" && t[3..5] == "99" && t[5..] == "{}";
    TypeStrings();
  }

  class SocketTransport {
    const id: string
    var readyState: int
    var handshakeResponse: Option<string>
    /** Every text the client handed to the socket, oldest first. */
    var outbox: seq<Outgoing>

    constructor(id: string)
      ensures this.id == id && readyState == Connecting && handshakeResponse.None? && outbox == []
      ensures !IsReady()
    {
      this.id := id;
      readyState := Connecting;
      handshakeResponse := None;
      outbox := [];
    }

    /** `_isReady`: the socket is open and the server's handshake has
        arrived. */
    predicate IsReady()
      reads this
    {
      readyState == Open && handshakeResponse.Some?
    }

    /** `_onSocketOpen`: the socket is open and the handshake request goes
        out. */
    method OnSocketOpen()
      modifies this
      ensures readyState == Open && outbox == old(outbox) + [CreateHandshake()]
      ensures handshakeResponse == old(handshakeResponse)
    {
      readyState := Open;
      outbox := outbox + [CreateHandshake()];
    }

    /** `_onSocketClosed`: the socket has closed. */
    method OnSocketClosed()
      modifies this
      ensures readyState == Closed && !IsReady()
      ensures handshakeResponse == old(handshakeResponse) && outbox == old(outbox)
    {
      readyState := Closed;
    }

    /** `_onSocketMessage`: dispatches the datum and, for a handshake reply,
        stores its body. */
    method OnSocketMessage(data: InboundData) returns (events: seq<TransportEvent>)
      modifies this
      ensures events == Dispatch(data)
      ensures handshakeResponse ==
        if data.Text? && Classify(data.text).Some? && Classify(data.text).value.InHandshake?
        then Some(Classify(data.text).value.body) else old(handshakeResponse)
      ensures readyState == old(readyState) && outbox == old(outbox)
    {
      events := Dispatch(data);
      if data.Text? {
        var classified := Classify(data.text);
        if classified.Some? && classified.value.InHandshake? {
          handshakeResponse := Some(classified.value.body);
        }
      }
    }

    /** `_synchronizeTopics`: sends the topic list only when ready. */
    method SynchronizeTopics(topics: seq<string>)
      modifies this
      ensures outbox == if old(IsReady()) then old(outbox) + [EncodeTopics(topics)] else old(outbox)
      ensures readyState == old(readyState) && handshakeResponse == old(handshakeResponse)
    {
      if !IsReady() {
        return;
      }
      outbox := outbox + [EncodeTopics(topics)];
    }

    /** `_sendFrame`: refused when not ready, then refused for a binary
        payload; otherwise the encoded frame goes out. */
    method SendFrame(f: Frame) returns (r: Result<(), TransportError>)
      modifies this
      ensures !old(IsReady()) ==> r == Failure(TransportNotReady) && outbox == old(outbox)
      ensures old(IsReady()) && f.payload.Binary? ==>
        r == Failure(Codec(BinaryPayloadNotSupported)) && outbox == old(outbox)
      ensures old(IsReady()) && !f.payload.Binary? ==>
        r.Success? && outbox == old(outbox) + [EncodeFrame(f).value]
      ensures readyState == old(readyState) && handshakeResponse == old(handshakeResponse)
    {
      if !IsReady() {
        return Failure(TransportNotReady);
      }
      var encoded := EncodeFrame(f);
      if encoded.Failure? {
        return Failure(Codec(encoded.error));
      }
      outbox := outbox + [encoded.value];
      r := Success(());
    }
  }

  /** A fresh transport whose socket opens and which then receives the
      server's handshake reply is ready, having sent exactly the handshake
      request. */
  method Connect(id: string, body: string) returns (t: SocketTransport)
    ensures t.IsReady() && t.outbox == [CreateHandshake()] && t.handshakeResponse == Some(body)
  {
    t := new SocketTransport(id);
    t.OnSocketOpen();
    ClassifyHeader(S2CHandshake, body);
    RouteTable(body);
    var events := t.OnSocketMessage(Text(Header(S2CHandshake) + body));
  }
}
