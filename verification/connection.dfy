/** The connection channel of the Cast client (`ConnectionChannel`).

    A channel remembers the destinations it has opened a virtual connection
    to, sends CONNECT and CLOSE requests on the connection namespace, and
    classifies inbound frames of that namespace.

    The channel's state is an immutable value: `connect` and `disconnect`
    return the call's result together with the channel after the call. The
    shared message manager is reduced to a caller-supplied `SendOutcome`; the
    frames it accepted from this channel are kept, in order, in `sent`.
 */
module Connection {
  import opened Wrappers
  import Json
  import opened Messages

  /** The namespace every frame of this channel carries. */
  const Namespace: string := "urn:x-cast:com.google.cast.tp.connection"
  /** The user agent announced in every request body. */
  const UserAgent: string := "RustCast"

  const MessageTypeConnect: string := "CONNECT"
  const MessageTypeClose: string := "CLOSE"

  /** The message of the internal error a binary payload produces. */
  const BinaryPayloadUnsupported: string := "Binary payload is not supported!"

  /** An inbound message of the connection namespace. An unknown type keeps
      its type string and the whole decoded document. */
  datatype Response =
    | Connect
    | Close
    | NotImplemented(typ: string, raw: Json.Value)

  /** The outbound request body: `{"type": typ, "userAgent": userAgent}`. */
  datatype ConnectionRequest = ConnectionRequest(typ: string, userAgent: string)

  /** The channel: its own sender id, the destinations it believes connected,
      and the frames the transport accepted from it, oldest first. */
  datatype Channel = Channel(sender: string, connections: set<string>, sent: seq<Frame>)

  /** The result of one `connect` or `disconnect` call and the channel after it. */
  datatype Step = Step(result: Outcome<Error>, after: Channel)

  /** The JSON document a request body serialises to. */
  function EncodeRequest(request: ConnectionRequest): (v: Json.Value)
    ensures Json.HasStringField(v, "type") && v.fields["type"].s == request.typ
    ensures Json.HasStringField(v, "userAgent") && v.fields["userAgent"].s == request.userAgent
    ensures v.fields.Keys == {"type", "userAgent"}
  {
    Json.Object(map["type" := Json.Str(request.typ), "userAgent" := Json.Str(request.userAgent)])
  }

  /** The frame this channel sends to `destination` for a request of type `typ`. */
  function RequestFrame(sender: string, destination: string, typ: string): (f: Frame)
    ensures f.namespace == Namespace
    ensures f.source == sender
    ensures f.destination == destination
    ensures f.payload.StringPayload? && f.payload.text.Encoded?
    ensures Json.HasStringField(f.payload.text.value, "type")
    ensures f.payload.text.value.fields["type"].s == typ
    ensures Json.HasStringField(f.payload.text.value, "userAgent")
    ensures f.payload.text.value.fields["userAgent"].s == UserAgent
  {
    Frame(Namespace, sender, destination,
          StringPayload(Encoded(EncodeRequest(ConnectionRequest(typ, UserAgent)))))
  }

  /** Hands `frame` to the transport: on delivery it joins the `sent` log, on
      failure the channel is left as it was and the error is returned. */
  function Send(c: Channel, frame: Frame, outcome: SendOutcome): Step {
    match outcome
    case Delivered => Step(Pass, c.(sent := c.sent + [frame]))
    case Failed(e) => Step(Fail(e), c)
  }

  /** `ConnectionChannel::new`: no destination is connected yet. */
  function New(sender: string): (c: Channel)
    ensures c.sender == sender
    ensures c.connections == {}
    ensures c.sent == []
  {
    Channel(sender, {}, [])
  }

  /** `ConnectionChannel::connect`. */
  function ConnectTo(c: Channel, destination: string, outcome: SendOutcome): (r: Step)
    ensures r.after.sender == c.sender
    // already connected: nothing is sent and nothing changes
    ensures destination in c.connections ==> r == Step(Pass, c)
    // the send failed: its error comes back and nothing changes
    ensures destination !in c.connections && outcome.Failed? ==>
              r == Step(Fail(outcome.error), c)
    // the send succeeded: exactly one CONNECT frame went out and exactly the
    // destination joined the set
    ensures destination !in c.connections && outcome.Delivered? ==>
              && r.result == Pass
              && r.after.connections == c.connections + {destination}
              && |r.after.sent| == |c.sent| + 1
              && r.after.sent[..|c.sent|] == c.sent
              && r.after.sent[|c.sent|].namespace == Namespace
              && r.after.sent[|c.sent|].source == c.sender
              && r.after.sent[|c.sent|].destination == destination
              && r.after.sent[|c.sent|].payload
                 == StringPayload(Encoded(EncodeRequest(ConnectionRequest(MessageTypeConnect, UserAgent))))
  {
    if destination in c.connections then
      Step(Pass, c)
    else
      var s := Send(c, RequestFrame(c.sender, destination, MessageTypeConnect), outcome);
      match s.result
      case Fail(_) => s
      case Pass => Step(Pass, s.after.(connections := s.after.connections + {destination}))
  }

  /** `ConnectionChannel::disconnect`. */
  function DisconnectFrom(c: Channel, destination: string, outcome: SendOutcome): (r: Step)
    // the set of connections is never touched, connected or not
    ensures r.after.sender == c.sender
    ensures r.after.connections == c.connections
    // the transport's result is returned as it is
    ensures outcome.Failed? ==> r == Step(Fail(outcome.error), c)
    ensures outcome.Delivered? ==>
              && r.result == Pass
              && |r.after.sent| == |c.sent| + 1
              && r.after.sent[..|c.sent|] == c.sent
              && r.after.sent[|c.sent|].namespace == Namespace
              && r.after.sent[|c.sent|].source == c.sender
              && r.after.sent[|c.sent|].destination == destination
              && r.after.sent[|c.sent|].payload
                 == StringPayload(Encoded(EncodeRequest(ConnectionRequest(MessageTypeClose, UserAgent))))
  {
    Send(c, RequestFrame(c.sender, destination, MessageTypeClose), outcome)
  }

  /** `ConnectionChannel::can_handle`: exact, case-sensitive namespace match. */
  predicate CanHandle(message: Frame) {
    message.namespace == Namespace
  }

  /** The `type` field of a decoded reply, read through `as_object`, `get`
      and `as_str`, with `""` as the fallback. */
  function MessageType(reply: Json.Value): (t: string)
    ensures Json.HasStringField(reply, "type") ==> t == reply.fields["type"].s
    ensures !Json.HasStringField(reply, "type") ==> t == ""
  {
    Json.AsObject(reply)
      .AndThen((fields: map<string, Json.Value>) => Json.Get(fields, "type"))
      .AndThen(Json.AsStr)
      .GetOr("")
  }

  /** The type string a response stands for; the inverse of the
      classification `Parse` performs. */
  function TypeName(response: Response): string {
    match response
    case Connect => MessageTypeConnect
    case Close => MessageTypeClose
    case NotImplemented(t, _) => t
  }

  /** `ConnectionChannel::parse`. */
  function Parse(message: Frame): (r: Result<Response, Error>)
    ensures message.payload.BinaryPayload? ==>
              r == Failure(Internal(BinaryPayloadUnsupported))
    ensures message.payload.StringPayload? && message.payload.text.Malformed? ==>
              r == Failure(Serialization(message.payload.text.reason))
    ensures message.payload.StringPayload? && message.payload.text.Encoded? ==>
              var reply := message.payload.text.value;
              && r.Success?
              && TypeName(r.value) == MessageType(reply)
              && (r.value == Response.Connect <==> MessageType(reply) == MessageTypeConnect)
              && (r.value == Response.Close <==> MessageType(reply) == MessageTypeClose)
              && (r.value.NotImplemented? ==> r.value.raw == reply)
  {
    match message.payload
    case BinaryPayload(_) => Failure(Internal(BinaryPayloadUnsupported))
    case StringPayload(Malformed(reason)) => Failure(Serialization(reason))
    case StringPayload(Encoded(reply)) =>
      var messageType := MessageType(reply);
      var response :=
        if messageType == MessageTypeConnect then Response.Connect
        else if messageType == MessageTypeClose then Response.Close
        else NotImplemented(messageType, reply);
      Success(response)
  }
}
