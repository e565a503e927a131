/**
 The registry's state as a value, and the two transitions that change it.

 The relay keeps two dictionaries in step: `connections` maps the key
 "room:user" to that peer's socket, and `rooms` maps a room to the set of
 its members. A room exists only while it has members. `Joined` and `Left`
 are the effect of a join and of a leave on this state; the class in the
 Manager module is proved to perform exactly these transitions.
 */
module Presence {
  import opened Wire

  datatype Registry = Registry(connections: map<string, Channel>, rooms: map<string, set<string>>)

  /** The state of a freshly started server. */
  function Empty(): Registry
  {
    Registry(map[], map[])
  }

  /** The connection key of a user in a room: the two ids joined by a colon. */
  function Key(room: string, user: string): string
  {
    room + ":" + user
  }

  /** Both ids can be read back from a key by position: the room before the
      colon at index |room|, the user after it. */
  lemma KeySplits(room: string, user: string)
    ensures var k := Key(room, user);
      && |k| == |room| + 1 + |user| && k[|room|] == ':'
      && k[..|room|] == room && k[|room| + 1..] == user
  {
    var k := Key(room, user);
    assert k[..|room|] == room;
    assert k[|room| + 1..] == user;
  }

  /** Rooms are pruned as soon as their last member leaves (no empty room persists). */
  ghost predicate NoEmptyRooms(s: Registry)
  {
    forall room :: room in s.rooms ==> s.rooms[room] != {}
  }

  /** The keys that the membership sets call for. */
  function KeysOf(rooms: map<string, set<string>>): set<string>
  {
    set room, user | room in rooms && user in rooms[room] :: Key(room, user)
  }

  /** No stored id contains the separator. */
  ghost predicate ColonFreeIds(rooms: map<string, set<string>>)
  {
    forall room :: room in rooms ==> ':' !in room && forall user :: user in rooms[room] ==> ':' !in user
  }

  /** The two dictionaries agree: a key is registered exactly when its user is
      a member of its room (stated for colon-free ids, without which two pairs
      can share one key). */
  ghost predicate Consistent(s: Registry)
  {
    ColonFreeIds(s.rooms) && s.connections.Keys == KeysOf(s.rooms)
  }

  /** Registration of `user` in `room` on socket `ch`: the key is (re)bound, and
      the user is added to the room's set, the room being created if absent. */
  function Joined(s: Registry, room: string, user: string, ch: Channel): Registry
  {
    var members := if room in s.rooms then s.rooms[room] else {};
    Registry(s.connections[Key(room, user) := ch], s.rooms[room := members + {user}])
  }

  /** Removal of `user` from `room`: the key is dropped if present, the user is
      discarded from the room's set, and the room is dropped once empty. */
  function Left(s: Registry, room: string, user: string): Registry
  {
    var rooms :=
      if room in s.rooms then
        var rest := s.rooms[room] - {user};
        if rest == {} then s.rooms - {room} else s.rooms[room := rest]
      else s.rooms;
    Registry(s.connections - {Key(room, user)}, rooms)
  }

  /** The members a fan-out in `room` that skips `exclude` is sent to, each with
      the socket registered under its key. Members without a registered key
      are skipped. */
  function Targets(s: Registry, room: string, exclude: string): (t: map<string, Channel>)
    ensures exclude !in t
    ensures forall user :: user in t ==> room in s.rooms && user in s.rooms[room] && Key(room, user) in s.connections
    ensures forall user :: user in t ==> t[user] == s.connections[Key(room, user)]
  {
    if room in s.rooms then
      map user | user in s.rooms[room] && user != exclude && Key(room, user) in s.connections
        :: s.connections[Key(room, user)]
    else map[]
  }

  /** The targets whose sockets still accept messages. */
  function LiveTargets(s: Registry, room: string, exclude: string, dead: set<Channel>): (t: map<string, Channel>)
    ensures forall user :: user in t <==> user in Targets(s, room, exclude) && Targets(s, room, exclude)[user] !in dead
    ensures forall user :: user in t ==> t[user] == Targets(s, room, exclude)[user]
  {
    var all := Targets(s, room, exclude);
    map user | user in all && all[user] !in dead :: all[user]
  }

  // ---------------------------------------------------------------------------
  // The connection key

  /** Two pairs give the same key only if they are the same pair, as long as one
      of them is colon-free. */
  lemma KeyInjective(room: string, user: string, room': string, user': string)
    requires ':' !in room && ':' !in user
    requires Key(room, user) == Key(room', user')
    ensures room == room' && user == user'
  {
    var k := Key(room, user);
    KeySplits(room, user);
    KeySplits(room', user');
    if |room'| < |room| {
      assert false;
    } else if |room'| > |room| {
      assert false;
    }
  }

  /** Without that condition the key is ambiguous: room "a:b" with user "c" and
      room "a" with user "b:c" share the key "a:b:c". */
  lemma KeyCollision()
    ensures Key("a:b", "c") == Key("a", "b:c")
  {
  }

  /** In a consistent registry, a key is present exactly when its user is in
      its room's set, for any ids at all. */
  lemma ConsistentMembership(s: Registry, room: string, user: string)
    requires Consistent(s)
    ensures Key(room, user) in s.connections <==> room in s.rooms && user in s.rooms[room]
  {
    if Key(room, user) in s.connections {
      var r, u :| r in s.rooms && u in s.rooms[r] && Key(r, u) == Key(room, user);
      KeyInjective(r, u, room, user);
    }
  }

  // ---------------------------------------------------------------------------
  // Joining

  /** A join binds the key to the new socket, makes the user a member of the
      room, and changes no other key and no other room. */
  lemma JoinedRegisters(s: Registry, room: string, user: string, ch: Channel)
    ensures var t := Joined(s, room, user, ch);
      && Key(room, user) in t.connections && t.connections[Key(room, user)] == ch
      && room in t.rooms && user in t.rooms[room]
      && (room in s.rooms ==> t.rooms[room] == s.rooms[room] + {user})
      && (room !in s.rooms ==> t.rooms[room] == {user})
      && (forall k :: k != Key(room, user) ==> (k in t.connections <==> k in s.connections))
      && (forall k :: k != Key(room, user) && k in s.connections ==> t.connections[k] == s.connections[k])
      && (forall r :: r != room ==> (r in t.rooms <==> r in s.rooms))
      && (forall r :: r != room && r in s.rooms ==> t.rooms[r] == s.rooms[r])
  {
  }

  /** Joining again with a pair that is already registered only replaces the
      socket: the membership sets stay as they were, without a duplicate. */
  lemma RejoinOverwrites(s: Registry, room: string, user: string, ch: Channel)
    requires room in s.rooms && user in s.rooms[room]
    ensures Joined(s, room, user, ch).rooms == s.rooms
    ensures Joined(s, room, user, ch).connections.Keys == s.connections.Keys + {Key(room, user)}
  {
    assert s.rooms[room] + {user} == s.rooms[room];
  }

  /** A second join of the same pair supersedes the first entirely. */
  lemma {:induction false} RejoinSupersedes(s: Registry, room: string, user: string, ch: Channel, ch': Channel)
    ensures Joined(Joined(s, room, user, ch), room, user, ch') == Joined(s, room, user, ch')
  {
    var members := if room in s.rooms then s.rooms[room] else {};
    assert members + {user} + {user} == members + {user};
  }

  /** Right after a (re)join, a fan-out in the room that does not skip the
      user reaches the user through the new socket. */
  lemma RejoinRedirects(s: Registry, room: string, user: string, ch: Channel, exclude: string)
    requires user != exclude
    ensures var t := Targets(Joined(s, room, user, ch), room, exclude);
      user in t && t[user] == ch
  {
  }

  /** A leave is keyed by the pair, not by the socket: when a superseded
      session cleans up, it unregisters the session that replaced it. */
  lemma SupersededLeaveDropsSuccessor(s: Registry, room: string, user: string, ch: Channel, ch': Channel)
    ensures var t := Left(Joined(Joined(s, room, user, ch), room, user, ch'), room, user);
      Key(room, user) !in t.connections && (room in t.rooms ==> user !in t.rooms[room])
  {
  }

  /** A join keeps every room non-empty. */
  lemma JoinedNoEmptyRooms(s: Registry, room: string, user: string, ch: Channel)
    requires NoEmptyRooms(s)
    ensures NoEmptyRooms(Joined(s, room, user, ch))
  {
  }

  /** A join adds exactly its own key to the keys the membership calls for. */
  lemma {:induction false} JoinedKeys(s: Registry, room: string, user: string, ch: Channel)
    ensures KeysOf(Joined(s, room, user, ch).rooms) == KeysOf(s.rooms) + {Key(room, user)}
  {
    var t := Joined(s, room, user, ch);
    assert KeysOf(t.rooms) <= KeysOf(s.rooms) + {Key(room, user)} by {
      forall k | k in KeysOf(t.rooms)
        ensures k in KeysOf(s.rooms) + {Key(room, user)}
      {
        var r, u :| r in t.rooms && u in t.rooms[r] && k == Key(r, u);
        if r != room || u != user {
          assert r in s.rooms && u in s.rooms[r];
        }
      }
    }
    assert KeysOf(s.rooms) + {Key(room, user)} <= KeysOf(t.rooms) by {
      forall k | k in KeysOf(s.rooms) + {Key(room, user)}
        ensures k in KeysOf(t.rooms)
      {
        if k == Key(room, user) {
          assert room in t.rooms && user in t.rooms[room];
        } else {
          var r, u :| r in s.rooms && u in s.rooms[r] && k == Key(r, u);
          assert r in t.rooms && u in t.rooms[r];
        }
      }
    }
  }

  /** A join with colon-free ids keeps the two dictionaries in step. */
  lemma {:induction false} JoinedConsistent(s: Registry, room: string, user: string, ch: Channel)
    requires Consistent(s)
    requires ':' !in room && ':' !in user
    ensures Consistent(Joined(s, room, user, ch))
  {
    JoinedKeys(s, room, user, ch);
    assert ColonFreeIds(Joined(s, room, user, ch).rooms);
  }

  /** The invariants a join keeps, in the form the manager uses. */
  lemma JoinedPreserves(s: Registry, room: string, user: string, ch: Channel)
    requires NoEmptyRooms(s)
    ensures NoEmptyRooms(Joined(s, room, user, ch))
    ensures Consistent(s) && ':' !in room && ':' !in user ==> Consistent(Joined(s, room, user, ch))
  {
    JoinedNoEmptyRooms(s, room, user, ch);
    if Consistent(s) && ':' !in room && ':' !in user {
      JoinedConsistent(s, room, user, ch);
    }
  }

  // ---------------------------------------------------------------------------
  // Leaving

  /** A leave drops the key and the membership, prunes the room if that was its
      last member, keeps it with its other members otherwise, and changes no
      other key and no other room. */
  lemma LeftUnregisters(s: Registry, room: string, user: string)
    ensures var t := Left(s, room, user);
      && Key(room, user) !in t.connections
      && (room in t.rooms ==> user !in t.rooms[room] && t.rooms[room] == s.rooms[room] - {user})
      && (room in s.rooms && s.rooms[room] <= {user} ==> room !in t.rooms)
      && (room in s.rooms && !(s.rooms[room] <= {user}) ==> room in t.rooms && t.rooms[room] == s.rooms[room] - {user})
      && (forall k :: k != Key(room, user) ==> (k in t.connections <==> k in s.connections))
      && (forall k :: k != Key(room, user) && k in t.connections ==> t.connections[k] == s.connections[k])
      && (forall r :: r != room ==> (r in t.rooms <==> r in s.rooms))
      && (forall r :: r != room && r in t.rooms ==> t.rooms[r] == s.rooms[r])
  {
  }

  /** A leave keeps every room non-empty. */
  lemma LeftNoEmptyRooms(s: Registry, room: string, user: string)
    requires NoEmptyRooms(s)
    ensures NoEmptyRooms(Left(s, room, user))
  {
  }

  /** Leaving is idempotent: a second leave of the same pair changes nothing. */
  lemma {:induction false} LeftIdempotent(s: Registry, room: string, user: string)
    ensures Left(Left(s, room, user), room, user) == Left(s, room, user)
  {
    var t := Left(s, room, user);
    assert t.connections - {Key(room, user)} == t.connections;
    if room in t.rooms {
      assert t.rooms[room] - {user} == t.rooms[room];
      assert t.rooms[room := t.rooms[room]] == t.rooms;
    }
  }

  /** Leaving a pair that is not registered is a no-op. */
  lemma {:induction false} LeftAbsentIsNoop(s: Registry, room: string, user: string)
    requires NoEmptyRooms(s)
    requires Key(room, user) !in s.connections
    requires room !in s.rooms || user !in s.rooms[room]
    ensures Left(s, room, user) == s
  {
    assert s.connections - {Key(room, user)} == s.connections;
    if room in s.rooms {
      assert s.rooms[room] - {user} == s.rooms[room];
      assert s.rooms[room := s.rooms[room]] == s.rooms;
    }
  }

  /** With colon-free stored ids, a leave removes exactly its own key from the
      keys the membership calls for, whatever ids it is given. */
  lemma {:induction false} LeftKeys(s: Registry, room: string, user: string)
    requires ColonFreeIds(s.rooms)
    ensures KeysOf(Left(s, room, user).rooms) == KeysOf(s.rooms) - {Key(room, user)}
  {
    var t := Left(s, room, user);
    assert KeysOf(t.rooms) <= KeysOf(s.rooms) - {Key(room, user)} by {
      forall k | k in KeysOf(t.rooms)
        ensures k in KeysOf(s.rooms) - {Key(room, user)}
      {
        var r, u :| r in t.rooms && u in t.rooms[r] && k == Key(r, u);
        assert r in s.rooms && u in s.rooms[r];
        if k == Key(room, user) {
          KeyInjective(r, u, room, user);
          assert false;
        }
      }
    }
    assert KeysOf(s.rooms) - {Key(room, user)} <= KeysOf(t.rooms) by {
      forall k | k in KeysOf(s.rooms) - {Key(room, user)}
        ensures k in KeysOf(t.rooms)
      {
        var r, u :| r in s.rooms && u in s.rooms[r] && k == Key(r, u);
        if r == room {
          assert u != user;
          assert u in s.rooms[room] - {user};
        }
        assert r in t.rooms && u in t.rooms[r];
      }
    }
  }

  /** A leave keeps the two dictionaries in step, whatever ids it is given. */
  lemma {:induction false} LeftConsistent(s: Registry, room: string, user: string)
    requires Consistent(s)
    ensures Consistent(Left(s, room, user))
  {
    LeftKeys(s, room, user);
    assert ColonFreeIds(Left(s, room, user).rooms);
  }

  /** The invariants a leave keeps, in the form the manager uses. */
  lemma LeftPreserves(s: Registry, room: string, user: string)
    requires NoEmptyRooms(s)
    ensures NoEmptyRooms(Left(s, room, user))
    ensures Consistent(s) ==> Consistent(Left(s, room, user))
  {
    LeftNoEmptyRooms(s, room, user);
    if Consistent(s) {
      LeftConsistent(s, room, user);
    }
  }

  // ---------------------------------------------------------------------------
  // Fan-out targets

  /** In a consistent registry a fan-out reaches every member of the room but
      the excluded one: no member is skipped for lack of a registered key. */
  lemma {:induction false} TargetsAreOtherMembers(s: Registry, room: string, exclude: string)
    requires Consistent(s)
    ensures Targets(s, room, exclude).Keys == if room in s.rooms then s.rooms[room] - {exclude} else {}
  {
    if room in s.rooms {
      forall user | user in s.rooms[room] && user != exclude
        ensures user in Targets(s, room, exclude)
      {
        ConsistentMembership(s, room, user);
      }
    }
  }
}
