/**
 The messages the signaling relay exchanges with its peers.

 Inbound frames arrive already parsed from JSON; outbound messages are the
 four kinds of object the server generates. Session descriptions and ICE
 candidates are opaque to the relay: it copies them through unchanged.
 */
module Wire {

  /** A JSON value as far as the relay cares: a string it may compare against,
      or any other value, identified only so that it can be copied through. */
  datatype Value = Text(s: string) | Opaque(id: nat)

  /** One inbound JSON frame: an object with named fields, or some other JSON value. */
  datatype Inbound = Record(fields: map<string, Value>) | NotARecord

  /** What the transport reports to the session loop: a frame, or that the peer went away. */
  datatype Event = Received(frame: Inbound) | Closed

  /** The messages the server sends. */
  datatype Message =
    | PeerJoined(userId: string)
    | Offer(from: string, sdp: Value)
    | Answer(from: string, sdp: Value)
    | IceCandidate(from: string, candidate: Value)
    | Pong

  /** An opaque handle on one peer's duplex socket. */
  datatype Channel = Channel(id: nat)

  /** One message handed successfully to one socket. */
  datatype Delivery = Delivery(to: Channel, msg: Message)

  /** The JSON object a message is sent as. */
  function Fields(m: Message): map<string, Value>
  {
    match m
    case PeerJoined(u) => map["type" := Text("peer-joined"), "userId" := Text(u)]
    case Offer(f, sdp) => map["type" := Text("offer"), "from" := Text(f), "sdp" := sdp]
    case Answer(f, sdp) => map["type" := Text("answer"), "from" := Text(f), "sdp" := sdp]
    case IceCandidate(f, c) => map["type" := Text("ice-candidate"), "from" := Text(f), "candidate" := c]
    case Pong => map["type" := Text("pong")]
  }

  /** Reads a server message back from its JSON object. */
  function Parse(obj: map<string, Value>): (r: Option<Message>)
  {
    if "type" !in obj || !obj["type"].Text? then None
    else
      var t := obj["type"].s;
      if t == "peer-joined" && obj.Keys == {"type", "userId"} && obj["userId"].Text? then
        Some(PeerJoined(obj["userId"].s))
      else if (t == "offer" || t == "answer") && obj.Keys == {"type", "from", "sdp"} && obj["from"].Text? then
        Some(if t == "offer" then Offer(obj["from"].s, obj["sdp"]) else Answer(obj["from"].s, obj["sdp"]))
      else if t == "ice-candidate" && obj.Keys == {"type", "from", "candidate"} && obj["from"].Text? then
        Some(IceCandidate(obj["from"].s, obj["candidate"]))
      else if t == "pong" && obj.Keys == {"type"} then
        Some(Pong)
      else None
  }

  datatype Option<T> = None | Some(value: T)

  /** Every server message can be read back from the object it is sent as,
      so two different messages never look alike on the wire. */
  lemma ParseFields(m: Message)
    ensures Parse(Fields(m)) == Some(m)
  {
    var obj := Fields(m);
    match m
    case PeerJoined(u) =>
      assert obj.Keys == {"type", "userId"};
    case Offer(f, sdp) =>
      assert obj.Keys == {"type", "from", "sdp"};
    case Answer(f, sdp) =>
      assert obj.Keys == {"type", "from", "sdp"};
    case IceCandidate(f, c) =>
      assert obj.Keys == {"type", "from", "candidate"};
    case Pong =>
      assert obj.Keys == {"type"};
  }
}
