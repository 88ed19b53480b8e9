/** The frame type exchanged with the message manager (`CastMessage` and
    `CastMessagePayload`), the crate's error kinds that the connection channel
    produces or passes on, and the transport's send contract.

    The message manager itself is not part of this model: a send is reduced to
    a caller-supplied outcome, and a channel's `sent` log (see `Connection`)
    records the frames the transport accepted.
 */
module Messages {
  import Json

  /** A text payload as the channel sees it once it has tried to decode it:
      either the decoded document or the decoder's complaint. */
  datatype Text =
    | Encoded(value: Json.Value)
    | Malformed(reason: string)

  /** `CastMessagePayload`: a text body or raw bytes. */
  datatype Payload =
    | StringPayload(text: Text)
    | BinaryPayload(bytes: seq<bv8>)

  /** `CastMessage`: one unit of the wire protocol. */
  datatype Frame = Frame(
    namespace: string,
    source: string,
    destination: string,
    payload: Payload)

  /** The error kinds this channel can return. `Internal` is the protocol
      violation of a binary body, `Serialization` a body that does not
      decode, `Io` an I/O failure; a failed send may carry any kind. */
  datatype Error =
    | Internal(message: string)
    | Serialization(reason: string)
    | Io(reason: string)

  /** What the transport does with one frame: accept it whole, or fail and
      leave no trace of it. */
  datatype SendOutcome =
    | Delivered
    | Failed(error: Error)
}
