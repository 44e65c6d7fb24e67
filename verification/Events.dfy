/** The decoded signal-cli notification and the rule that pulls one
    `(source, text)` pair out of it (the first half of the relay loop body). */
module Events {
  import opened Wrappers

  // The decoded JSON-RPC structures; every field is optional, as serde reads them.
  // `methodName` is the JSON field `method` (a Dafny keyword).
  datatype RpcResponse = RpcResponse(methodName: Option<string>, params: Option<RpcParams>)
  datatype RpcParams = RpcParams(envelope: Option<Envelope>)
  datatype Envelope = Envelope(
    sourceNumber: Option<string>,
    dataMessage: Option<DataMessage>,
    syncMessage: Option<SyncMessage>)
  datatype DataMessage = DataMessage(message: Option<string>)
  datatype SyncMessage = SyncMessage(sentMessage: Option<SentMessage>)
  datatype SentMessage = SentMessage(destination: Option<string>, message: Option<string>)

  /** A message the relay acts on: who sent it and its text. */
  datatype Incoming = Incoming(source: string, text: string)

  const ReceiveMethod: string := "receive"

  /** The envelope of a `receive` notification that names its source, if there is one. */
  function UsableEnvelope(rpc: RpcResponse): (r: Option<Envelope>)
    ensures r.Some? <==>
      && rpc.methodName == Some(ReceiveMethod)
      && rpc.params.Some? && rpc.params.value.envelope.Some?
      && rpc.params.value.envelope.value.sourceNumber.Some?
    ensures r.Some? ==> r.value == rpc.params.value.envelope.value
  {
    if rpc.methodName != Some(ReceiveMethod) then None
    else match rpc.params
      case None => None
      case Some(params) =>
        match params.envelope
        case None => None
        case Some(envelope) =>
          if envelope.sourceNumber.None? then None else Some(envelope)
  }

  /** The text of an envelope from `source`: the data message's text when there
      is a data message (the sync message is then not looked at), otherwise the
      text of a sync message the owner sent to `source` itself. */
  function EnvelopeText(envelope: Envelope, source: string): (r: Option<string>)
    ensures envelope.dataMessage.Some? ==> r == envelope.dataMessage.value.message
    ensures envelope.dataMessage.None? && r.Some? ==>
      && envelope.syncMessage.Some?
      && envelope.syncMessage.value.sentMessage.Some?
      && envelope.syncMessage.value.sentMessage.value.destination == Some(source)
      && r == envelope.syncMessage.value.sentMessage.value.message
  {
    match envelope.dataMessage
    case Some(data) => data.message
    case None =>
      match envelope.syncMessage
      case None => None
      case Some(sync) =>
        match sync.sentMessage
        case None => None
        case Some(sent) => if sent.destination == Some(source) then sent.message else None
  }

  /** The `(source, text)` pair the loop goes on with, or None when it `continue`s. */
  function Extract(rpc: RpcResponse): (r: Option<Incoming>)
    ensures r.Some? ==> UsableEnvelope(rpc).Some?
    ensures r.Some? ==> r.value.source == rpc.params.value.envelope.value.sourceNumber.value
  {
    match UsableEnvelope(rpc)
    case None => None
    case Some(envelope) =>
      var source := envelope.sourceNumber.value;
      match EnvelopeText(envelope, source)
      case None => None
      case Some(text) => Some(Incoming(source, text))
  }

  /** Nothing is extracted unless the method is exactly "receive" and params,
      envelope and sourceNumber are all present. */
  lemma ExtractNeedsReceive(rpc: RpcResponse)
    requires
      || rpc.methodName != Some(ReceiveMethod)
      || rpc.params.None?
      || rpc.params.value.envelope.None?
      || rpc.params.value.envelope.value.sourceNumber.None?
    ensures Extract(rpc) == None
  {
  }

  /** With a data message present, the result is exactly its text from the
      envelope's source, whatever the sync message holds. */
  lemma DataMessageWins(rpc: RpcResponse, sync: Option<SyncMessage>)
    requires UsableEnvelope(rpc).Some?
    requires rpc.params.value.envelope.value.dataMessage.Some?
    ensures var e := rpc.params.value.envelope.value;
      var rpc' := rpc.(params := Some(RpcParams(Some(e.(syncMessage := sync)))));
      && Extract(rpc') == Extract(rpc)
      && Extract(rpc) == (match e.dataMessage.value.message
          case None => None
          case Some(t) => Some(Incoming(e.sourceNumber.value, t)))
  {
  }

  /** A sync message sent to anyone but the envelope's source yields nothing. */
  lemma SyncToOtherIgnored(source: string, dest: Option<string>, text: Option<string>)
    requires dest != Some(source)
    ensures Extract(NoteToSelf(source, dest, text)) == None
  {
  }

  // Builders for the two kinds of event the relay accepts.

  function DataEvent(source: string, text: string): RpcResponse {
    RpcResponse(Some(ReceiveMethod), Some(RpcParams(Some(
      Envelope(Some(source), Some(DataMessage(Some(text))), None)))))
  }

  function NoteToSelf(source: string, dest: Option<string>, text: Option<string>): RpcResponse {
    RpcResponse(Some(ReceiveMethod), Some(RpcParams(Some(
      Envelope(Some(source), None, Some(SyncMessage(Some(SentMessage(dest, text)))))))))
  }

  /** Both accepted kinds of event round-trip through `Extract`. */
  lemma ExtractRoundTrip(source: string, text: string)
    ensures Extract(DataEvent(source, text)) == Some(Incoming(source, text))
    ensures Extract(NoteToSelf(source, Some(source), Some(text))) == Some(Incoming(source, text))
  {
  }

  /** Every extracted pair comes from one of the two accepted shapes. */
  lemma ExtractComplete(rpc: RpcResponse)
    requires Extract(rpc).Some?
    ensures var e := rpc.params.value.envelope.value;
      var x := Extract(rpc).value;
      || e.dataMessage == Some(DataMessage(Some(x.text)))
      || (e.dataMessage.None? && e.syncMessage == Some(SyncMessage(Some(SentMessage(Some(x.source), Some(x.text))))))
  {
  }
}
