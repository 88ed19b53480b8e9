# Connection channel of the rust-cast client, in Dafny

This project models `ConnectionChannel`, the part of the Cast client that
opens and closes virtual connections to destinations on a Cast device. It
covers the channel's constants, the `ConnectionResponse` enum, and the
`new`, `connect`, `disconnect`, `can_handle` and `parse` operations.

- The channel tracks a set of destinations it believes connected.
- `connect` sends a CONNECT request only for a destination not yet in that set.
  The destination joins the set only after the transport accepted the frame.
- `disconnect` always sends a CLOSE request and never touches the set.
- `can_handle` is an exact match on the namespace
  `urn:x-cast:com.google.cast.tp.connection`.
- `parse` classifies an inbound body as `Connect`, `Close` or
  `NotImplemented(type, document)`.

The model is functional. A `Channel` value holds the sender id, the
connection set, and `sent`, the frames the transport accepted from this
channel. `ConnectTo` and `DisconnectFrom` return the call's result together
with the new channel. The message manager's send is a caller-supplied
`SendOutcome`:

- `Delivered` appends the frame to `sent`;
- `Failed(e)` returns `e` and changes nothing: the model assumes a failed
  send leaves no frame behind.

Files:

- `wrappers.dfy`: `Option`, `Outcome` and `Result`.
- `json.dfy`: the decoded JSON value and the `as_object`, `get` and `as_str` accessors.
- `messages.dfy`: frames, payloads, error kinds and send outcomes.
- `connection.dfy`: the channel itself.
- `history.dfy`: call sequences and the properties that span several calls.

The Rust operations `connect` and `disconnect` are named `ConnectTo` and
`DisconnectFrom` here. Dafny puts the `Response` constructors `Connect` and
`Close` in the same scope, so the plain names would clash.

Behaviour worth knowing:

- `connect` accepts any destination, the empty string included. The code
  does not check it, so there is no `requires`.
- `disconnect` leaves the destination in the set, so a later `connect` to it
  is suppressed. `History.ConnectAfterDisconnectIsSuppressed` states this
  behaviour as written.
- The unknown-type variant keeps the code's name, `NotImplemented`.

## Model

`Connection.CanHandle` is a one-line predicate; its contract is
`History.CanHandleExact`.

| member | source | states |
|---|---|---|
| Connection.New | src/channels/connection.rs:41-50 | A new channel keeps the given sender, has no connections, and has sent nothing |
| Connection.ConnectTo | src/channels/connection.rs:52-79 | Already connected: returns Ok, sends nothing, changes nothing. Send fails: returns that error and leaves connections and log unchanged. Send succeeds: appends exactly one frame with the connection namespace, the channel's sender, the destination and the body {type CONNECT, userAgent RustCast}, and adds exactly that destination to the set |
| Connection.DisconnectFrom | src/channels/connection.rs:81-96 | Never changes the connection set, whether or not the destination is in it. Returns the transport's result unchanged. On delivery appends exactly one frame with the namespace, the sender, the destination and the body {type CLOSE, userAgent RustCast} |
| Connection.EncodeRequest | src/channels/connection.rs:63-66 | An outbound body is an object with exactly the keys "type" and "userAgent", each holding the request's string |
| Connection.MessageType | src/channels/connection.rs:114-119 | The type is the string in the object's "type" field. It is "" when the value is not an object, the field is missing, or the field is not a string |
| Connection.Parse | src/channels/connection.rs:102-128 | A binary payload gives the internal error "Binary payload is not supported!". Undecodable text gives a serialization error with the decoder's reason. A decoded value always parses: Connect exactly when its type is "CONNECT", Close exactly when it is "CLOSE", otherwise NotImplemented carrying that type and the whole value. In every case the response's type name equals the value's type |
| History.RequestFrameParses | src/channels/connection.rs:63-74 | Every CONNECT or CLOSE frame the channel builds is accepted by its own can_handle and parses back to Connect or Close |
| History.CanHandleExact | src/channels/connection.rs:98-100 | can_handle holds exactly for the connection namespace. Every proper prefix, every proper extension and the upper-case spelling are refused |
| History.ParseExamples | src/channels/connection.rs:114-125 | Worked inbound bodies. {"type":"CONNECT"} gives Connect and {"type":"CLOSE"} gives Close. {"type":"PING","extra":1} gives NotImplemented("PING", the whole object). A non-object or a numeric type gives NotImplemented(""). A binary payload gives the internal error |
| History.ConnectTwiceSendsOnce | src/channels/connection.rs:58-76 | After a successful connect, a second connect to the same destination returns Ok and changes nothing. Together the two calls add exactly one CONNECT frame for a destination that was not yet connected |
| History.ConnectTwoDestinations | src/channels/connection.rs:52-79 | Connecting two distinct, unconnected destinations, both delivered, connects both and sends one CONNECT frame to each, in call order |
| History.ConnectAfterDisconnectIsSuppressed | src/channels/connection.rs:81-96 | Disconnecting a connected destination does not forget it. A following connect sends nothing and returns Ok |
| History.RunOnlyGrows | src/channels/connection.rs:76 | Across any call sequence the connection set never shrinks, the sender never changes, and earlier frames stay as they are |
| History.JoinsOnlyOnDelivery | src/channels/connection.rs:69-76 | A destination enters the set only through a connect call for it whose send was delivered |
| History.NewIsConsistent | src/channels/connection.rs:45-49 | A new channel satisfies the consistency invariant: no destination has a CONNECT frame and none is connected |
| History.ConnectKeepsConsistent | src/channels/connection.rs:52-79 | connect preserves the invariant. A destination is connected exactly when one accepted CONNECT frame went to it, never more than one went out, and every accepted frame is the channel's own and parses |
| History.DisconnectKeepsConsistent | src/channels/connection.rs:81-96 | disconnect preserves the same invariant: a CLOSE frame opens nothing |
| History.RunKeepsConsistent | src/channels/connection.rs:52-96 | Any sequence of connect and disconnect calls preserves the invariant |
| History.AtMostOneConnectPerDestination | src/channels/connection.rs:58-76 | On a channel made by new, after any call sequence, each destination has at most one accepted CONNECT frame. It has exactly one precisely when it is in the connection set |

## Left out

- Connection.ConnectTo: does not model a failure of `serde_json::to_string` on the request body (lines 63-66). The body has two fixed string fields, so serialising it cannot fail.
- Connection.DisconnectFrom: does not model a failure of `serde_json::to_string` on the request body (lines 85-88), for the same reason.
- JSON text encoding and decoding (serde_json): a text payload is either the decoded document or a decode failure with a reason. JSON numbers are kept as reals.
- The JSON field names "type" and "userAgent" of the request body come from the Cast wire contract. The `proxies::connection::ConnectionRequest` declaration that fixes them is not part of this model.
- `MessageManager::send` and the stream under it are I/O. They are reduced to a caller-supplied delivered or failed outcome. The model assumes a failed send leaves no frame behind. `sent` records only the frames the transport accepted from this channel, not those of other channels.
- The `Lrc`/`Lock` sharing and concurrent callers: the connection set is one sequentially updated value. The check, send and insert of `connect` are one step of the model. Interleavings of two concurrent `connect` calls are not modelled.
- `trace!` logging and the `Cow` lifetime handling have no behavioural content.
