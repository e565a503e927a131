/**
 The `/rooms` status snapshot: how many rooms exist and who is in each.
 */
module Status {
  import opened Wire
  import opened Presence

  /** The body of a `/rooms` answer. Each room's members are listed in no
      particular order, so they are given here as a set. */
  datatype RoomsReport = RoomsReport(activeRooms: nat, rooms: map<string, set<string>>)

  /** The snapshot of the registry's rooms. */
  function Rooms(s: Registry): RoomsReport
  {
    RoomsReport(|s.rooms|, map room | room in s.rooms :: s.rooms[room])
  }

  /** The snapshot is coherent: its count is the number of rooms it lists, it
      lists each room with exactly its members, and no listed room is empty. */
  lemma RoomsCoherent(s: Registry)
    requires NoEmptyRooms(s)
    ensures var r := Rooms(s);
      && r.activeRooms == |r.rooms|
      && r.rooms == s.rooms
      && forall room :: room in r.rooms ==> r.rooms[room] != {}
  {
    assert Rooms(s).rooms == s.rooms;
  }

  /** When the last member of a room leaves, the room disappears from the
      snapshot and the room count drops by one. */
  lemma {:induction false} LastLeaveUnlists(s: Registry, room: string, user: string)
    requires room in s.rooms && s.rooms[room] == {user}
    ensures room !in Rooms(Left(s, room, user)).rooms
    ensures Rooms(Left(s, room, user)).activeRooms == Rooms(s).activeRooms - 1
  {
    var rest := s.rooms - {room};
    assert Left(s, room, user).rooms == rest;
    assert s.rooms.Keys == rest.Keys + {room};
    assert |s.rooms.Keys| == |rest.Keys| + 1;
  }
}
