/**
 The connection manager: the two dictionaries of the registry as fields of
 one object, updated in place by `Connect` and `Disconnect`, and the
 best-effort sends through which it reaches peers.

 The network is reached only through `Transport.SendJson`. A socket whose
 peer has gone away is "dead": a send to it fails, leaves no trace in the
 outbox, and has no other effect. Each manager operation runs atomically.
 */
module Manager {
  import opened Wire
  import opened Presence

  /** The sockets of all peers, seen from the server. */
  class Transport {
    /** Every message a socket has accepted, in the order they were sent. */
    var outbox: seq<Delivery>
    /** The sockets whose peers have gone away. */
    var dead: set<Channel>

    constructor (dead: set<Channel>)
      ensures outbox == [] && this.dead == dead
    {
      outbox := [];
      this.dead := dead;
    }

    /** Sends one JSON message on one socket; fails on a dead socket. */
    method SendJson(ch: Channel, msg: Message) returns (ok: bool)
      modifies this`outbox
      ensures ok <==> ch !in dead
      ensures outbox == old(outbox) + if ok then [Delivery(ch, msg)] else []
    {
      ok := ch !in dead;
      if ok {
        outbox := outbox + [Delivery(ch, msg)];
      }
    }
  }

  /** `order` lists the users of `users` once each. */
  ghost predicate Enumerates(order: seq<string>, users: set<string>)
  {
    && (forall i, j :: 0 <= i < j < |order| ==> order[i] != order[j])
    && (forall user :: user in order <==> user in users)
  }

  /** `sent` hands `msg` once to the socket of each user of `targets`, in some
      order, and nothing else. */
  ghost predicate SendsOnceEach(sent: seq<Delivery>, targets: map<string, Channel>, msg: Message)
  {
    exists order :: Enumerates(order, targets.Keys) && SentInOrder(sent, order, targets, msg)
  }

  /** `sent` hands `msg` to the socket of each user of `order`, in that order. */
  ghost predicate SentInOrder(sent: seq<Delivery>, order: seq<string>, targets: map<string, Channel>, msg: Message)
  {
    && |sent| == |order|
    && forall i :: 0 <= i < |order| ==> order[i] in targets && sent[i] == Delivery(targets[order[i]], msg)
  }

  /** The targets whose socket is `ch`. */
  function On(targets: map<string, Channel>, ch: Channel): set<string>
  {
    set user | user in targets && targets[user] == ch
  }

  /** The users of `order` whose socket in `targets` is `ch`. */
  ghost function Owners(order: seq<string>, targets: map<string, Channel>, ch: Channel): set<string>
  {
    set user | user in order && user in targets && targets[user] == ch
  }

  /** Listing all targets, the owners of a socket are all the targets on it. */
  lemma OwnersOfAll(order: seq<string>, targets: map<string, Channel>, ch: Channel)
    requires forall user :: user in order <==> user in targets
    ensures Owners(order, targets, ch) == On(targets, ch)
  {
  }

  /** Appending one more user adds it to the owners of its own socket only. */
  lemma OwnersStep(order: seq<string>, targets: map<string, Channel>, ch: Channel, user: string)
    requires user !in order && user in targets
    ensures Owners(order + [user], targets, ch) == Owners(order, targets, ch) + if targets[user] == ch then {user} else {}
  {
  }

  /** Dropping the last user of a send done user by user leaves one too. */
  lemma SentInOrderInit(sent: seq<Delivery>, order: seq<string>, targets: map<string, Channel>, msg: Message)
    requires SentInOrder(sent, order, targets, msg) && order != []
    ensures order[|order| - 1] in targets
    ensures SentInOrder(sent[..|order| - 1], order[..|order| - 1], targets, msg)
    ensures sent == sent[..|order| - 1] + [Delivery(targets[order[|order| - 1]], msg)]
  {
  }

  /** Counting the copies of `msg` in a send done user by user. */
  lemma {:induction false} SentInOrderCounts(sent: seq<Delivery>, order: seq<string>, targets: map<string, Channel>, msg: Message, ch: Channel)
    requires forall i, j :: 0 <= i < j < |order| ==> order[i] != order[j]
    requires SentInOrder(sent, order, targets, msg)
    ensures multiset(sent)[Delivery(ch, msg)] == |Owners(order, targets, ch)|
    decreases |order|
  {
    if order != [] {
      var n := |order| - 1;
      var init, last := order[..n], order[n];
      SentInOrderInit(sent, order, targets, msg);
      SentInOrderCounts(sent[..n], init, targets, msg, ch);
      var d := Delivery(targets[last], msg);
      assert multiset(sent) == multiset(sent[..n]) + multiset{d} by {
        assert sent == sent[..n] + [d];
      }
      assert Owners(order, targets, ch) == Owners(init, targets, ch) + if targets[last] == ch then {last} else {} by {
        assert order == init + [last];
        assert last !in init;
        OwnersStep(init, targets, ch, last);
      }
    }
  }

  /** A send done user by user extends by one more user. */
  lemma SentInOrderSnoc(sent: seq<Delivery>, order: seq<string>, targets: map<string, Channel>, msg: Message, user: string)
    requires SentInOrder(sent, order, targets, msg) && user in targets
    ensures SentInOrder(sent + [Delivery(targets[user], msg)], order + [user], targets, msg)
  {
  }

  /** A send done user by user hands over `msg` and nothing else. */
  lemma SentInOrderOnlyMsg(sent: seq<Delivery>, order: seq<string>, targets: map<string, Channel>, msg: Message)
    requires SentInOrder(sent, order, targets, msg)
    ensures forall d :: d in sent ==> d.msg == msg
  {
  }

  /** Exactly-once delivery: a send that goes once to each target hands the
      message to a socket as many times as there are targets on that socket:
      once for a target with a socket of its own, never to any other socket. */
  lemma SendsOnceEachCounts(sent: seq<Delivery>, targets: map<string, Channel>, msg: Message, ch: Channel)
    requires SendsOnceEach(sent, targets, msg)
    ensures |sent| == |targets|
    ensures multiset(sent)[Delivery(ch, msg)] == |On(targets, ch)|
    ensures forall d :: d in sent ==> d.msg == msg
  {
    var order :| Enumerates(order, targets.Keys) && SentInOrder(sent, order, targets, msg);
    SentInOrderCounts(sent, order, targets, msg, ch);
    SentInOrderOnlyMsg(sent, order, targets, msg);
    OwnersOfAll(order, targets, ch);
    assert |sent| == |targets| by {
      DistinctLength(order, targets.Keys);
    }
  }

  /** A duplicate-free listing of a set is as long as the set. */
  lemma {:induction false} DistinctLength(order: seq<string>, users: set<string>)
    requires Enumerates(order, users)
    ensures |order| == |users|
    decreases |order|
  {
    if order != [] {
      var n := |order| - 1;
      assert Enumerates(order[..n], users - {order[n]}) by {
        forall user | user in order[..n] ensures user in users - {order[n]} {
          var i :| 0 <= i < n && order[..n][i] == user;
          assert order[i] != order[n];
        }
        forall user | user in users - {order[n]} ensures user in order[..n] {
          var i :| 0 <= i < |order| && order[i] == user;
          assert order[..n][i] == user;
        }
      }
      DistinctLength(order[..n], users - {order[n]});
    }
  }

  /** A socket no other target shares is owned by its target alone. */
  lemma SoleOwner(targets: map<string, Channel>, user: string)
    requires user in targets
    requires forall other :: other in targets && other != user ==> targets[other] != targets[user]
    ensures On(targets, targets[user]) == {user}
  {
  }

  /** The corollaries the relay relies on: a target on a socket of its own
      receives the message exactly once, and a socket that belongs to no target
      (the excluded sender's, for one) never receives it. */
  lemma OncePerTarget(sent: seq<Delivery>, targets: map<string, Channel>, msg: Message, user: string)
    requires SendsOnceEach(sent, targets, msg)
    requires user in targets
    requires forall other :: other in targets && other != user ==> targets[other] != targets[user]
    ensures multiset(sent)[Delivery(targets[user], msg)] == 1
  {
    SoleOwner(targets, user);
    SendsOnceEachCounts(sent, targets, msg, targets[user]);
  }

  /** A socket that no target is registered on receives nothing. */
  lemma NoneToOthers(sent: seq<Delivery>, targets: map<string, Channel>, msg: Message, ch: Channel)
    requires SendsOnceEach(sent, targets, msg)
    requires ch !in targets.Values
    ensures forall m :: Delivery(ch, m) !in sent
  {
    SendsOnceEachCounts(sent, targets, msg, ch);
    assert On(targets, ch) == {} by {
      forall u | u in targets ensures targets[u] != ch {
        assert targets[u] in targets.Values;
      }
    }
  }

  /** The registry of one server process. */
  class ConnectionManager {
    /** "room:user" to that peer's socket. */
    var activeConnections: map<string, Channel>
    /** Each room to the set of its members. */
    var roomUsers: map<string, set<string>>

    /** The registry state this object holds. */
    function State(): Registry
      reads this
    {
      Registry(activeConnections, roomUsers)
    }

    /** No empty room is kept. */
    ghost predicate Valid()
      reads this
    {
      NoEmptyRooms(State())
    }

    constructor ()
      ensures Valid() && State() == Empty() && Consistent(State())
    {
      activeConnections := map[];
      roomUsers := map[];
    }

    /** Registers `ch` as the socket of `user` in `room` (overwriting an earlier
        registration of the same pair), then tells every other member of the
        room with a registered socket that `user` joined. */
    method Connect(net: Transport, ch: Channel, room: string, user: string)
      requires Valid()
      modifies this, net`outbox
      ensures Valid()
      ensures State() == Joined(old(State()), room, user, ch)
      ensures old(Consistent(State())) && ':' !in room && ':' !in user ==> Consistent(State())
      ensures old(net.outbox) <= net.outbox
      ensures SendsOnceEach(net.outbox[|old(net.outbox)|..], LiveTargets(State(), room, user, net.dead), PeerJoined(user))
    {
      ghost var before := State();
      ghost var after := Joined(before, room, user, ch);
      JoinedPreserves(before, room, user, ch);
      var key := Key(room, user);
      activeConnections := activeConnections[key := ch];
      if room !in roomUsers {
        roomUsers := roomUsers[room := {}];
      }
      roomUsers := roomUsers[room := roomUsers[room] + {user}];
      assert activeConnections == after.connections;
      assert roomUsers == after.rooms;
      BroadcastToRoom(net, room, PeerJoined(user), user);
    }

    /** Unregisters `user` from `room`; a pair that is not registered is
        silently ignored. Other members are not told. */
    method Disconnect(room: string, user: string)
      requires Valid()
      modifies this
      ensures Valid()
      ensures State() == Left(old(State()), room, user)
      ensures old(Consistent(State())) ==> Consistent(State())
    {
      ghost var after := Left(State(), room, user);
      LeftPreserves(State(), room, user);
      var key := Key(room, user);
      if key in activeConnections {
        activeConnections := activeConnections - {key};
      }
      assert activeConnections == after.connections;
      if room in roomUsers {
        ghost var rooms0 := roomUsers;
        roomUsers := roomUsers[room := roomUsers[room] - {user}];
        if roomUsers[room] == {} {
          roomUsers := roomUsers - {room};
          assert roomUsers == rooms0 - {room};
        }
      }
      assert roomUsers == after.rooms;
    }

    /** Sends `msg` on `ch`, swallowing a failure: the registry never changes. */
    method SendMessage(net: Transport, ch: Channel, msg: Message)
      modifies net`outbox
      ensures unchanged(this)
      ensures net.outbox == old(net.outbox) + if ch in net.dead then [] else [Delivery(ch, msg)]
    {
      var _ := net.SendJson(ch, msg);
    }

    /** Sends `msg` to every member of `room` except `exclude` that has a
        registered socket; a failed send does not stop the others. A room that
        does not exist gets nothing. */
    method BroadcastToRoom(net: Transport, room: string, msg: Message, exclude: string)
      modifies net`outbox
      ensures unchanged(this)
      ensures old(net.outbox) <= net.outbox
      ensures SendsOnceEach(net.outbox[|old(net.outbox)|..], LiveTargets(State(), room, exclude, net.dead), msg)
    {
      ghost var start := net.outbox;
      ghost var live := LiveTargets(State(), room, exclude, net.dead);
      ghost var order: seq<string> := [];
      ghost var sent: seq<Delivery> := [];
      if room in roomUsers {
        var pending := roomUsers[room];
        while pending != {}
          invariant pending <= roomUsers[room]
          invariant forall i, j :: 0 <= i < j < |order| ==> order[i] != order[j]
          invariant forall user :: user in order <==> user in live && user !in pending
          invariant net.outbox == start + sent
          invariant SentInOrder(sent, order, live, msg)
          decreases pending
        {
          var user :| user in pending;
          pending := pending - {user};
          if user != exclude {
            var key := Key(room, user);
            if key in activeConnections {
              SendMessage(net, activeConnections[key], msg);
              if activeConnections[key] !in net.dead {
                SentInOrderSnoc(sent, order, live, msg, user);
                order, sent := order + [user], sent + [Delivery(live[user], msg)];
              } else {
                assert user !in live;
              }
            }
          }
        }
      }
      assert net.outbox[|start|..] == sent;
      assert Enumerates(order, live.Keys);
    }
  }
}
