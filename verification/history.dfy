/** Properties of the connection channel across whole call sequences:
    what one call sends, that two calls for one destination send one CONNECT,
    that the connection set only grows, and that a channel started with
    `Connection.New` keeps exactly one accepted CONNECT frame per connected
    destination and none for the others.
 */
module History {
  import opened Wrappers
  import Json
  import opened Messages
  import opened Connection

  /** One call on the channel, with the outcome the transport gives it. */
  datatype Call =
    | ConnectCall(destination: string, outcome: SendOutcome)
    | DisconnectCall(destination: string, outcome: SendOutcome)

  function Apply(c: Channel, call: Call): Step {
    match call
    case ConnectCall(d, o) => ConnectTo(c, d, o)
    case DisconnectCall(d, o) => DisconnectFrom(c, d, o)
  }

  /** The channel after `calls`, made one after the other from `c`. */
  function Run(c: Channel, calls: seq<Call>): Channel
    decreases |calls|
  {
    if calls == [] then c else Run(Apply(c, calls[0]).after, calls[1..])
  }

  /** A frame that opens a connection to `d`: on the connection namespace and
      read back by `Parse` as a CONNECT. */
  predicate IsConnectTo(f: Frame, d: string) {
    f.destination == d && CanHandle(f) && Parse(f) == Success(Response.Connect)
  }

  /** How many frames of `sent` open a connection to `d`. */
  function ConnectCount(sent: seq<Frame>, d: string): (n: nat)
    ensures n <= |sent|
    ensures n == 0 <==> forall i :: 0 <= i < |sent| ==> !IsConnectTo(sent[i], d)
  {
    if sent == [] then 0
    else ConnectCount(sent[..|sent| - 1], d) + (if IsConnectTo(sent[|sent| - 1], d) then 1 else 0)
  }

  /** The channel's belief matches what the transport accepted: each
      destination is connected exactly when one CONNECT frame to it went out,
      never more than one went out, and every accepted frame is one of this
      channel's own, which it would itself handle and decode. */
  ghost predicate Consistent(c: Channel) {
    && (forall d :: ConnectCount(c.sent, d) == (if d in c.connections then 1 else 0))
    && (forall i :: 0 <= i < |c.sent| ==>
          c.sent[i].source == c.sender && CanHandle(c.sent[i]) && Parse(c.sent[i]).Success?)
  }

  /** The frames the channel builds are on its namespace and parse back to
      the request type they encode. */
  lemma RequestFrameParses(sender: string, destination: string)
    ensures CanHandle(RequestFrame(sender, destination, MessageTypeConnect))
    ensures Parse(RequestFrame(sender, destination, MessageTypeConnect)) == Success(Response.Connect)
    ensures CanHandle(RequestFrame(sender, destination, MessageTypeClose))
    ensures Parse(RequestFrame(sender, destination, MessageTypeClose)) == Success(Response.Close)
  {
  }

  /** Appending one frame raises the count for `d` by one exactly when that
      frame opens a connection to `d`. */
  lemma ConnectCountAppend(sent: seq<Frame>, f: Frame, d: string)
    ensures ConnectCount(sent + [f], d) == ConnectCount(sent, d) + (if IsConnectTo(f, d) then 1 else 0)
  {
    assert (sent + [f])[..|sent|] == sent;
  }

  /** Appending one of the channel's own frames, and adding to the set exactly
      the destinations that frame opens (none of them connected yet), keeps
      the channel consistent. */
  lemma AppendKeepsConsistent(c: Channel, f: Frame, joined: set<string>)
    requires Consistent(c)
    requires f.source == c.sender && CanHandle(f) && Parse(f).Success?
    requires forall d :: IsConnectTo(f, d) <==> d in joined
    requires joined !! c.connections
    ensures Consistent(c.(connections := c.connections + joined, sent := c.sent + [f]))
  {
    forall d ensures ConnectCount(c.sent + [f], d) == (if d in c.connections + joined then 1 else 0) {
      ConnectCountAppend(c.sent, f, d);
    }
  }

  /** `connect` keeps the channel consistent. */
  lemma ConnectKeepsConsistent(c: Channel, d: string, o: SendOutcome)
    requires Consistent(c)
    ensures Consistent(ConnectTo(c, d, o).after)
  {
    if d !in c.connections && o.Delivered? {
      var f := RequestFrame(c.sender, d, MessageTypeConnect);
      RequestFrameParses(c.sender, d);
      AppendKeepsConsistent(c, f, {d});
      assert ConnectTo(c, d, o).after == c.(connections := c.connections + {d}, sent := c.sent + [f]);
    }
  }

  /** `disconnect` keeps the channel consistent: a CLOSE frame opens nothing. */
  lemma DisconnectKeepsConsistent(c: Channel, d: string, o: SendOutcome)
    requires Consistent(c)
    ensures Consistent(DisconnectFrom(c, d, o).after)
  {
    if o.Delivered? {
      var f := RequestFrame(c.sender, d, MessageTypeClose);
      RequestFrameParses(c.sender, d);
      AppendKeepsConsistent(c, f, {});
      assert DisconnectFrom(c, d, o).after == c.(connections := c.connections + {}, sent := c.sent + [f]);
    }
  }

  /** A new channel is consistent: nothing is connected and nothing was sent. */
  lemma NewIsConsistent(sender: string)
    ensures Consistent(New(sender))
  {
  }

  /** Every call sequence keeps a channel consistent. */
  lemma {:induction false} RunKeepsConsistent(c: Channel, calls: seq<Call>)
    requires Consistent(c)
    ensures Consistent(Run(c, calls))
    decreases |calls|
  {
    if calls != [] {
      var c' := Apply(c, calls[0]).after;
      match calls[0] {
        case ConnectCall(d, o) => ConnectKeepsConsistent(c, d, o);
        case DisconnectCall(d, o) => DisconnectKeepsConsistent(c, d, o);
      }
      RunKeepsConsistent(c', calls[1..]);
    }
  }

  /** Whatever a channel made by `New` is asked to do, each destination has
      had at most one CONNECT frame accepted, exactly one when it is in the
      connection set. */
  lemma AtMostOneConnectPerDestination(sender: string, calls: seq<Call>, d: string)
    ensures var c := Run(New(sender), calls);
            && ConnectCount(c.sent, d) <= 1
            && (d in c.connections <==> ConnectCount(c.sent, d) == 1)
  {
    NewIsConsistent(sender);
    RunKeepsConsistent(New(sender), calls);
  }

  /** The connection set only grows, the sender never changes and the
      accepted frames only get appended. */
  lemma {:induction false} RunOnlyGrows(c: Channel, calls: seq<Call>)
    ensures Run(c, calls).sender == c.sender
    ensures c.connections <= Run(c, calls).connections
    ensures |c.sent| <= |Run(c, calls).sent| && Run(c, calls).sent[..|c.sent|] == c.sent
    decreases |calls|
  {
    if calls != [] {
      var c' := Apply(c, calls[0]).after;
      RunOnlyGrows(c', calls[1..]);
      assert Run(c, calls) == Run(c', calls[1..]);
      var s := Run(c, calls).sent;
      assert s[..|c'.sent|][..|c.sent|] == s[..|c.sent|];
    }
  }

  /** A destination joins the set only through a `connect` call for it that
      the transport delivered. */
  lemma {:induction false} JoinsOnlyOnDelivery(c: Channel, calls: seq<Call>, d: string)
    requires d !in c.connections && d in Run(c, calls).connections
    ensures exists i :: 0 <= i < |calls| && calls[i] == ConnectCall(d, Delivered)
    decreases |calls|
  {
    if calls == [] {
      assert false;
    } else {
      var c' := Apply(c, calls[0]).after;
      if d in c'.connections {
        assert calls[0] == ConnectCall(d, Delivered);
      } else {
        JoinsOnlyOnDelivery(c', calls[1..], d);
        var i :| 0 <= i < |calls[1..]| && calls[1..][i] == ConnectCall(d, Delivered);
        assert calls[i + 1] == ConnectCall(d, Delivered);
      }
    }
  }

  /** Connecting twice: once the first `connect` has succeeded, the second
      one succeeds without sending or changing anything, so the two calls
      together add at most one CONNECT frame for `d`, and exactly one when
      `d` was not yet connected. */
  lemma ConnectTwiceSendsOnce(c: Channel, d: string, o1: SendOutcome, o2: SendOutcome)
    requires ConnectTo(c, d, o1).result == Pass
    ensures var first := ConnectTo(c, d, o1).after;
            && d in first.connections
            && ConnectTo(first, d, o2) == Step(Pass, first)
            && ConnectCount(first.sent, d)
               == ConnectCount(c.sent, d) + (if d in c.connections then 0 else 1)
  {
  }

  /** Connecting two different destinations that are not connected yet, both
      sends delivered: both are connected and one CONNECT frame went to each,
      in call order. */
  lemma ConnectTwoDestinations(c: Channel, d1: string, d2: string)
    requires d1 != d2 && d1 !in c.connections && d2 !in c.connections
    ensures var c2 := Run(c, [ConnectCall(d1, Delivered), ConnectCall(d2, Delivered)]);
            && c2.connections == c.connections + {d1, d2}
            && c2.sent == c.sent + [RequestFrame(c.sender, d1, MessageTypeConnect),
                                    RequestFrame(c.sender, d2, MessageTypeConnect)]
  {
    var c1 := ConnectTo(c, d1, Delivered).after;
    var c2 := ConnectTo(c1, d2, Delivered).after;
    var calls := [ConnectCall(d1, Delivered), ConnectCall(d2, Delivered)];
    assert calls[1..] == [ConnectCall(d2, Delivered)];
    assert Run(c, calls) == Run(c1, [ConnectCall(d2, Delivered)]) == Run(c2, []);
  }

  /** `disconnect` does not forget the destination: a `connect` after a
      `disconnect` of a connected destination sends nothing. */
  lemma ConnectAfterDisconnectIsSuppressed(c: Channel, d: string, o1: SendOutcome, o2: SendOutcome)
    requires d in c.connections
    ensures var closed := DisconnectFrom(c, d, o1).after;
            ConnectTo(closed, d, o2) == Step(Pass, closed)
  {
  }

  /** `can_handle` accepts exactly the connection namespace: a proper prefix,
      a proper extension or any other spelling of it is refused. */
  lemma CanHandleExact(f: Frame, suffix: string)
    ensures CanHandle(f) <==> f.namespace == Namespace
    ensures forall n :: 0 <= n < |Namespace| ==> !CanHandle(f.(namespace := Namespace[..n]))
    ensures suffix != [] ==> !CanHandle(f.(namespace := Namespace + suffix))
    ensures !CanHandle(f.(namespace := "URN:X-CAST:COM.GOOGLE.CAST.TP.CONNECTION"))
  {
  }

  /** Example inbound bodies and how `Parse` classifies them. */
  lemma ParseExamples(f: Frame)
    ensures Parse(f.(payload := StringPayload(Encoded(Json.Object(map["type" := Json.Str("CONNECT")])))))
            == Success(Response.Connect)
    ensures Parse(f.(payload := StringPayload(Encoded(Json.Object(map["type" := Json.Str("CLOSE")])))))
            == Success(Response.Close)
    ensures var ping := Json.Object(map["type" := Json.Str("PING"), "extra" := Json.Number(1.0)]);
            Parse(f.(payload := StringPayload(Encoded(ping)))) == Success(NotImplemented("PING", ping))
    ensures Parse(f.(payload := StringPayload(Encoded(Json.Array([]))))) == Success(NotImplemented("", Json.Array([])))
    ensures var numeric := Json.Object(map["type" := Json.Number(7.0)]);
            Parse(f.(payload := StringPayload(Encoded(numeric)))) == Success(NotImplemented("", numeric))
    ensures Parse(f.(payload := BinaryPayload([1, 2]))) == Failure(Internal(BinaryPayloadUnsupported))
  {
  }
}
