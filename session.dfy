/**
 One peer's session: join the room, then read frames one at a time and
 relay each, until the peer goes away or a frame cannot be handled; every
 way out of the loop ends with one `Disconnect`.
 */
module Session {
  import opened Wire
  import opened Presence
  import opened Manager

  /** What one inbound frame calls for. `Fault` is a frame whose handling
      raises: it is not a JSON object, it has no `type`, or it lacks the field
      its type requires. */
  datatype Action = Relay(msg: Message) | Reply(msg: Message) | Ignore | Fault

  /** The field a relayed message type must carry, if the type is relayed. */
  function RequiredField(t: string): Option<string>
  {
    if t == "offer" || t == "answer" then Some("sdp")
    else if t == "ice-candidate" then Some("candidate")
    else None
  }

  /** The dispatch rule for a frame received from `user`. */
  function Dispatch(user: string, frame: Inbound): Action
  {
    match frame
    case NotARecord => Fault
    case Record(fields) =>
      if "type" !in fields then Fault
      else
        var t := fields["type"];
        if t == Text("offer") then
          if "sdp" in fields then Relay(Offer(user, fields["sdp"])) else Fault
        else if t == Text("answer") then
          if "sdp" in fields then Relay(Answer(user, fields["sdp"])) else Fault
        else if t == Text("ice-candidate") then
          if "candidate" in fields then Relay(IceCandidate(user, fields["candidate"])) else Fault
        else if t == Text("ping") then Reply(Pong)
        else Ignore
  }

  /** A relayed message is the inbound frame with the sender stamped on it:
      the same `type`, `from` set to the sender, the required payload field
      copied unchanged, and no other field. */
  lemma RelayStampsSender(user: string, frame: Inbound)
    requires Dispatch(user, frame).Relay?
    ensures frame.Record? && "type" in frame.fields && frame.fields["type"].Text?
    ensures var t := frame.fields["type"].s;
      var out := Fields(Dispatch(user, frame).msg);
      && RequiredField(t).Some?
      && var f := RequiredField(t).value;
      && f in frame.fields
      && out == map["type" := Text(t), "from" := Text(user), f := frame.fields[f]]
  {
    var t := frame.fields["type"].s;
    var out := Fields(Dispatch(user, frame).msg);
    var f := RequiredField(t).value;
    assert out.Keys == {"type", "from", f};
  }

  /** The session fails on a frame exactly when the frame is not an object,
      has no `type`, or has a relayed type without its required field. */
  lemma FaultIffMalformed(user: string, frame: Inbound)
    ensures Dispatch(user, frame) == Fault <==>
      || frame.NotARecord?
      || "type" !in frame.fields
      || (frame.fields["type"].Text? && RequiredField(frame.fields["type"].s).Some?
          && RequiredField(frame.fields["type"].s).value !in frame.fields)
  {
  }

  /** Only `ping` is answered, always with `pong`; an unknown or non-string
      `type` is ignored. */
  lemma ReplyOnlyToPing(user: string, frame: Inbound)
    ensures Dispatch(user, frame).Reply? <==> frame.Record? && "type" in frame.fields && frame.fields["type"] == Text("ping")
    ensures Dispatch(user, frame).Reply? ==> Dispatch(user, frame).msg == Pong
    ensures Dispatch(user, frame) == Ignore <==>
      && frame.Record? && "type" in frame.fields
      && frame.fields["type"] !in {Text("offer"), Text("answer"), Text("ice-candidate"), Text("ping")}
  {
  }

  /** Whether an event ends the session: the peer went away, the frame faults,
      or the `pong` cannot be sent (that send is not guarded, so its failure
      ends the session too). */
  predicate Ends(ev: Event, user: string, ch: Channel, dead: set<Channel>)
  {
    match ev
    case Closed => true
    case Received(frame) =>
      var a := Dispatch(user, frame);
      a.Fault? || (a.Reply? && ch in dead)
  }

  /** The position of the first event that ends the session, if any. */
  function FirstEnd(events: seq<Event>, user: string, ch: Channel, dead: set<Channel>): (r: Option<nat>)
    ensures r.Some? ==> r.value < |events| && Ends(events[r.value], user, ch, dead)
    ensures r.Some? ==> forall j :: 0 <= j < r.value ==> !Ends(events[j], user, ch, dead)
    ensures r.None? ==> forall j :: 0 <= j < |events| ==> !Ends(events[j], user, ch, dead)
  {
    if events == [] then None
    else if Ends(events[0], user, ch, dead) then Some(0)
    else
      match FirstEnd(events[1..], user, ch, dead)
      case None => None
      case Some(i) => Some(i + 1)
  }

  /** Handles one event of `user`'s session in `room` on socket `ch`, and says
      whether the session goes on. */
  method HandleEvent(mgr: ConnectionManager, net: Transport, ch: Channel, room: string, user: string, ev: Event)
    returns (open: bool)
    requires mgr.Valid()
    modifies mgr, net`outbox
    ensures mgr.Valid()
    ensures open <==> !Ends(ev, user, ch, net.dead)
    ensures mgr.State() == if open then old(mgr.State()) else Left(old(mgr.State()), room, user)
    ensures old(Consistent(mgr.State())) ==> Consistent(mgr.State())
    ensures old(net.outbox) <= net.outbox
    ensures ev.Received? && Dispatch(user, ev.frame).Relay? ==>
      SendsOnceEach(net.outbox[|old(net.outbox)|..], LiveTargets(mgr.State(), room, user, net.dead), Dispatch(user, ev.frame).msg)
    ensures ev.Received? && Dispatch(user, ev.frame).Reply? ==>
      net.outbox == old(net.outbox) + if ch in net.dead then [] else [Delivery(ch, Pong)]
    ensures ev.Closed? || Dispatch(user, ev.frame) in {Ignore, Fault} ==> net.outbox == old(net.outbox)
  {
    match ev
    case Closed =>
      mgr.Disconnect(room, user);
      open := false;
    case Received(frame) =>
      match Dispatch(user, frame)
      case Relay(msg) =>
        mgr.BroadcastToRoom(net, room, msg, user);
        open := true;
      case Reply(msg) =>
        var ok := net.SendJson(ch, msg);
        if ok {
          open := true;
        } else {
          mgr.Disconnect(room, user);
          open := false;
        }
      case Ignore =>
        open := true;
      case Fault =>
        mgr.Disconnect(room, user);
        open := false;
  }

  /** The whole session of `user` in `room` on socket `ch`, over the events the
      transport delivers: join, then handle events until one ends the session,
      which leaves the room exactly once. Returns how many events were read and
      whether the session is still open after the last of them. */
  method Serve(mgr: ConnectionManager, net: Transport, ch: Channel, room: string, user: string, events: seq<Event>)
    returns (handled: nat, open: bool)
    requires mgr.Valid()
    modifies mgr, net`outbox
    ensures mgr.Valid()
    ensures open <==> FirstEnd(events, user, ch, net.dead).None?
    ensures handled == match FirstEnd(events, user, ch, net.dead) case None => |events| case Some(i) => i + 1
    ensures var joined := Joined(old(mgr.State()), room, user, ch);
      mgr.State() == if open then joined else Left(joined, room, user)
    ensures old(Consistent(mgr.State())) && ':' !in room && ':' !in user ==> Consistent(mgr.State())
    ensures old(net.outbox) <= net.outbox
  {
    ghost var joined := Joined(mgr.State(), room, user, ch);
    mgr.Connect(net, ch, room, user);
    handled, open := 0, true;
    while open && handled < |events|
      invariant handled <= |events|
      invariant mgr.Valid()
      invariant open ==> forall j :: 0 <= j < handled ==> !Ends(events[j], user, ch, net.dead)
      invariant !open ==> 0 < handled && Ends(events[handled - 1], user, ch, net.dead)
      invariant !open ==> forall j :: 0 <= j < handled - 1 ==> !Ends(events[j], user, ch, net.dead)
      invariant mgr.State() == if open then joined else Left(joined, room, user)
      invariant old(Consistent(mgr.State())) && ':' !in room && ':' !in user ==> Consistent(mgr.State())
      invariant old(net.outbox) <= net.outbox
      decreases |events| - handled, open
    {
      open := HandleEvent(mgr, net, ch, room, user, events[handled]);
      handled := handled + 1;
    }
  }
}
