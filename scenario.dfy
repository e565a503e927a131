/**
 Two peers in one room, run through the manager and the session handler:
 A joins r1, B joins r1, B sends an offer, then A and B leave in turn.
 */
module Scenario {
  import opened Wire
  import opened Presence
  import opened Manager
  import opened Session
  import opened Status

  /** A fan-out with no target sends nothing. */
  lemma SendsToNone(sent: seq<Delivery>, targets: map<string, Channel>, msg: Message)
    requires SendsOnceEach(sent, targets, msg)
    requires targets == map[]
    ensures sent == []
  {
    SendsOnceEachCounts(sent, targets, msg, Channel(0));
  }

  /** A fan-out with one target sends one copy, to that target's socket. */
  lemma SendsToOne(sent: seq<Delivery>, user: string, ch: Channel, msg: Message)
    requires SendsOnceEach(sent, map[user := ch], msg)
    ensures sent == [Delivery(ch, msg)]
  {
    var targets := map[user := ch];
    SendsOnceEachCounts(sent, targets, msg, ch);
    assert On(targets, ch) == {user};
    assert Delivery(ch, msg) in multiset(sent);
  }

  /** Keys of distinct users of r1 differ. */
  lemma KeysDiffer()
    ensures Key("r1", "A") != Key("r1", "B")
  {
    KeySplits("r1", "A");
    KeySplits("r1", "B");
    assert Key("r1", "A")[3] != Key("r1", "B")[3];
  }

  /** With A alone in r1, a fan-out that skips A has no target. */
  lemma OnePeerTargets(a: Channel, dead: set<Channel>)
    ensures LiveTargets(Joined(Empty(), "r1", "A", a), "r1", "A", dead) == map[]
  {
    var s1 := Joined(Empty(), "r1", "A", a);
    assert s1.rooms["r1"] == {"A"};
  }

  /** The registry with A on socket `a` and B on socket `b` in r1. */
  function TwoInRoom(a: Channel, b: Channel): Registry
  {
    Registry(map[Key("r1", "A") := a, Key("r1", "B") := b], map["r1" := {"A", "B"}])
  }

  /** The registry once A and then B have joined room r1. */
  lemma {:induction false} TwoPeersJoin(a: Channel, b: Channel)
    ensures Joined(Joined(Empty(), "r1", "A", a), "r1", "B", b) == TwoInRoom(a, b)
  {
    var s1 := Joined(Empty(), "r1", "A", a);
    assert s1.rooms == map["r1" := {"A"}] by {
      assert {} + {"A"} == {"A"};
    }
    assert s1.rooms["r1"] + {"B"} == {"A", "B"};
  }

  /** With A and B in r1, a fan-out from B reaches A alone. */
  lemma TwoPeersTargets(a: Channel, b: Channel)
    ensures LiveTargets(TwoInRoom(a, b), "r1", "B", {}) == map["A" := a]
  {
    var s2 := TwoInRoom(a, b);
    KeysDiffer();
    assert Targets(s2, "r1", "B").Keys == {"A"};
    assert LiveTargets(s2, "r1", "B", {}).Keys == {"A"};
  }

  /** With A and B in r1, A leaves and then B leaves. */
  lemma TwoPeersLeave(a: Channel, b: Channel)
    ensures var s3 := Left(TwoInRoom(a, b), "r1", "A");
      && s3 == Registry(map[Key("r1", "B") := b], map["r1" := {"B"}])
      && Left(s3, "r1", "B") == Empty()
  {
    var s2 := TwoInRoom(a, b);
    var s3 := Left(s2, "r1", "A");
    KeysDiffer();
    assert s2.rooms["r1"] - {"A"} == {"B"};
    assert s3.connections.Keys == {Key("r1", "B")};
    assert s3 == Registry(map[Key("r1", "B") := b], map["r1" := {"B"}]);
    assert Left(s3, "r1", "B") == Empty();
  }

  /** The `/rooms` snapshots once A has left, and once B has left too. */
  lemma TwoPeersRooms(b: Channel)
    ensures Rooms(Registry(map[Key("r1", "B") := b], map["r1" := {"B"}])) == RoomsReport(1, map["r1" := {"B"}])
    ensures Rooms(Empty()) == RoomsReport(0, map[])
  {
    var s3 := Registry(map[Key("r1", "B") := b], map["r1" := {"B"}]);
    assert Rooms(s3).rooms == s3.rooms;
    assert Rooms(Empty()).rooms == map[];
  }

  /** An outbox that grew from `before` is `before` followed by what was added. */
  lemma Extends(before: seq<Delivery>, after: seq<Delivery>, added: seq<Delivery>)
    requires before <= after && after[|before|..] == added
    ensures after == before + added
  {
  }

  /** A joins the empty registry: nobody is told. */
  lemma FirstJoinTellsNobody(a: Channel, sent: seq<Delivery>)
    requires SendsOnceEach(sent, LiveTargets(Joined(Empty(), "r1", "A", a), "r1", "A", {}), PeerJoined("A"))
    ensures sent == []
  {
    OnePeerTargets(a, {});
    SendsToNone(sent, map[], PeerJoined("A"));
  }

  /** With A and B in r1, a fan-out from B is one copy, to A's socket. */
  lemma FromBReachesA(a: Channel, b: Channel, msg: Message, sent: seq<Delivery>)
    requires SendsOnceEach(sent, LiveTargets(Joined(Joined(Empty(), "r1", "A", a), "r1", "B", b), "r1", "B", {}), msg)
    ensures sent == [Delivery(a, msg)]
  {
    TwoPeersJoin(a, b);
    TwoPeersTargets(a, b);
    SendsToOne(sent, "A", a, msg);
  }

  /** B's offer frame is relayed, stamped with B, and does not end B's session. */
  lemma OfferIsRelayed(b: Channel, sdp: Value)
    ensures Dispatch("B", Record(map["type" := Text("offer"), "sdp" := sdp])) == Relay(Offer("B", sdp))
    ensures !Ends(Received(Record(map["type" := Text("offer"), "sdp" := sdp])), "B", b, {})
  {
  }

  /** A and then B join r1 on a fresh server: A alone is told that B joined. */
  method JoinBoth(mgr: ConnectionManager, net: Transport, a: Channel, b: Channel)
    requires mgr.Valid() && mgr.State() == Empty()
    requires net.outbox == [] && net.dead == {}
    modifies mgr, net`outbox
    ensures mgr.Valid() && mgr.State() == TwoInRoom(a, b)
    ensures net.outbox == [Delivery(a, PeerJoined("B"))]
  {
    mgr.Connect(net, a, "r1", "A");
    FirstJoinTellsNobody(a, net.outbox[0..]);
    Extends([], net.outbox, []);
    assert net.outbox == [];
    mgr.Connect(net, b, "r1", "B");
    FromBReachesA(a, b, PeerJoined("B"), net.outbox[0..]);
    Extends([], net.outbox, [Delivery(a, PeerJoined("B"))]);
    TwoPeersJoin(a, b);
  }

  /** With A and B in r1, B's offer goes to A alone, stamped with B. */
  method OfferFromB(mgr: ConnectionManager, net: Transport, a: Channel, b: Channel, sdp: Value)
    requires mgr.Valid() && mgr.State() == TwoInRoom(a, b)
    requires net.outbox == [Delivery(a, PeerJoined("B"))] && net.dead == {}
    modifies mgr, net`outbox
    ensures mgr.Valid() && mgr.State() == TwoInRoom(a, b)
    ensures net.outbox == [Delivery(a, PeerJoined("B")), Delivery(a, Offer("B", sdp))]
  {
    var offer := Received(Record(map["type" := Text("offer"), "sdp" := sdp]));
    OfferIsRelayed(b, sdp);
    TwoPeersJoin(a, b);
    var open := HandleEvent(mgr, net, b, "r1", "B", offer);
    FromBReachesA(a, b, Offer("B", sdp), net.outbox[1..]);
    Extends([Delivery(a, PeerJoined("B"))], net.outbox, [Delivery(a, Offer("B", sdp))]);
  }

  /** With A and B in r1, A leaves and then B leaves; returns the `/rooms`
      snapshot after each leave. */
  method LeaveBoth(mgr: ConnectionManager, a: Channel, b: Channel) returns (afterA: RoomsReport, afterB: RoomsReport)
    requires mgr.Valid() && mgr.State() == TwoInRoom(a, b)
    modifies mgr
    ensures mgr.Valid() && mgr.State() == Empty()
    ensures afterA == RoomsReport(1, map["r1" := {"B"}])
    ensures afterB == RoomsReport(0, map[])
  {
    TwoPeersLeave(a, b);
    TwoPeersRooms(b);
    mgr.Disconnect("r1", "A");
    afterA := Rooms(mgr.State());
    mgr.Disconnect("r1", "B");
    afterB := Rooms(mgr.State());
  }

  /** A joins r1 on socket `a`, B joins r1 on socket `b` and sends an offer
      with session description `sdp`, then A and B leave in turn. A alone is
      told that B joined and alone receives B's offer, stamped with B as its
      sender; B's socket receives nothing. The `/rooms` snapshot lists r1 with
      B alone once A has left, and no room once B has left too. */
  method TwoPeers(a: Channel, b: Channel, sdp: Value) returns (outbox: seq<Delivery>, afterA: RoomsReport, afterB: RoomsReport)
    ensures outbox == [Delivery(a, PeerJoined("B")), Delivery(a, Offer("B", sdp))]
    ensures afterA == RoomsReport(1, map["r1" := {"B"}])
    ensures afterB == RoomsReport(0, map[])
  {
    var mgr := new ConnectionManager();
    var net := new Transport({});
    JoinBoth(mgr, net, a, b);
    OfferFromB(mgr, net, a, b, sdp);
    outbox := net.outbox;
    afterA, afterB := LeaveBoth(mgr, a, b);
  }
}
