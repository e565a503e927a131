# WebRTC signaling relay: registry and session model

This project models the in-memory core of a WebRTC signaling server. Peers
connect to `/ws/{room_id}/{user_id}`. The server keeps a registry of who is
connected to which room. It relays `offer`, `answer` and `ice-candidate`
messages to the other members of the sender's room, and it answers `ping`
with `pong`.

The model has six modules:

- `Wire` defines the values, the inbound frames (already parsed JSON), the
  outbound messages and the JSON objects they are sent as.
- `Presence` defines the registry state as a value. It holds the two
  dictionaries: `connections` maps `"room:user"` to a socket, and `rooms`
  maps a room to its member set. It also defines `Joined` and `Left`, the
  effect of `connect` and `disconnect` on that state, plus the fan-out
  targets. The two invariants are stated here: `NoEmptyRooms`, no empty
  room persists; and `Consistent`, a key is present exactly when its user is
  in its room's set. All the lemmas about joining, leaving and reconnecting
  are here too.
- `Manager` holds the `ConnectionManager` class. Its two dictionaries are
  fields that `Connect` and `Disconnect` update in place, and each method is
  proved to perform exactly `Joined` or `Left`. `SendMessage` and
  `BroadcastToRoom` reach peers through a `Transport`. The transport records
  every accepted message in an `outbox` and fails on "dead" sockets.
  Set iteration order is unspecified, so fan-out is specified as "once to
  each target, in some order" (`SendsOnceEach`). Lemmas then count the
  copies each socket receives.
- `Session` holds the dispatch rule for one inbound frame, the handling of
  one event, and the whole session loop. The loop joins the room, handles
  events until one of them ends the session, and then leaves exactly once.
- `Status` holds the `/rooms` snapshot.
- `Scenario` runs the two-peer example through the manager and the session
  handler on a fresh server and transport.

Sockets are opaque `Channel` ids. Each manager operation is treated as
atomic.

The connection key `room + ":" + user` is modelled as the source builds it.
It is not injective: room `a:b` with user `c` and room `a` with user `b:c`
share one key (`KeyCollision`). `Consistent` is therefore stated for
colon-free stored ids. `KeyInjective` needs only ONE of the two pairs to be
colon-free, so:

- `Left` keeps `Consistent` whatever ids it is given;
- `Connect` keeps `Consistent` when the joining ids are colon-free.

Behaviour of the code worth noting:

- A failed send is only logged. The failing connection is not unregistered.
- The `pong` reply is sent directly, not through the guarded send. If that
  send fails, the session ends and the user is disconnected.
- A frame that is not an object, has no `type`, or lacks `sdp`/`candidate`
  for its type ends the session with a disconnect. It is not skipped.
- A frame whose `type` is unknown or not a string is ignored.
- Leaving is keyed by `(room, user)`, not by socket. The cleanup of a
  session that was superseded by a reconnect therefore unregisters its
  successor (`SupersededLeaveDropsSuccessor`).

## Model

| member | source | states |
|---|---|---|
| `Wire.ParseFields` | FATSapi/signaling-server-fastapi.py:86-106 | each outbound message can be read back from its JSON object, so distinct messages never look alike on the wire |
| `Presence.KeyInjective` | FATSapi/signaling-server-fastapi.py:29 | two pairs with the same key are the same pair, if one of them is colon-free |
| `Presence.KeyCollision` | FATSapi/signaling-server-fastapi.py:42 | without that condition two different pairs share one key |
| `Presence.ConsistentMembership` | FATSapi/signaling-server-fastapi.py:22-23 | in a consistent registry, a key is registered if and only if its user is in its room's set |
| `Presence.JoinedRegisters` | FATSapi/signaling-server-fastapi.py:28-35 | connect binds the key to the new socket, makes the user a member (the room is created if absent), and leaves every other key and room as it was |
| `Presence.RejoinOverwrites` | FATSapi/signaling-server-fastapi.py:29-35 | reconnecting a registered pair only replaces the socket: the member sets are unchanged, with no duplicate |
| `Presence.RejoinSupersedes` | FATSapi/signaling-server-fastapi.py:29-35 | two connects of the same pair equal the second alone |
| `Presence.RejoinRedirects` | FATSapi/signaling-server-fastapi.py:30 | on the state right after a (re)join, a fan-out that does not skip the user reaches the new socket |
| `Presence.SupersededLeaveDropsSuccessor` | FATSapi/signaling-server-fastapi.py:49-57 | a disconnect of the pair after a reconnect removes the newer registration too |
| `Presence.JoinedNoEmptyRooms` | FATSapi/signaling-server-fastapi.py:33-35 | connect leaves no empty room (`NoEmptyRooms`) |
| `Presence.JoinedConsistent` | FATSapi/signaling-server-fastapi.py:28-35 | connect with colon-free ids keeps the two dictionaries in step (`Consistent`) |
| `Presence.LeftUnregisters` | FATSapi/signaling-server-fastapi.py:49-57 | disconnect drops the key and the membership, prunes the room if it is now empty, keeps it with its other members otherwise, and leaves every other key and room as it was |
| `Presence.LeftNoEmptyRooms` | FATSapi/signaling-server-fastapi.py:54-57 | disconnect leaves no empty room (`NoEmptyRooms`) |
| `Presence.LeftIdempotent` | FATSapi/signaling-server-fastapi.py:49-57 | disconnecting twice gives the same state as disconnecting once |
| `Presence.LeftAbsentIsNoop` | FATSapi/signaling-server-fastapi.py:49-57 | disconnecting a pair that is not registered leaves the registry unchanged |
| `Presence.LeftConsistent` | FATSapi/signaling-server-fastapi.py:49-57 | disconnect keeps the two dictionaries in step, for any ids (`Consistent`) |
| `Presence.TargetsAreOtherMembers` | FATSapi/signaling-server-fastapi.py:67-73 | in a consistent registry, the targets are all members of the room except the excluded user; an unknown room has none |
| `Manager.SendsOnceEachCounts` | FATSapi/signaling-server-fastapi.py:67-73 | a once-to-each fan-out sends as many messages as there are targets, each socket gets one copy per target on it, and nothing but the message is sent |
| `Manager.OncePerTarget` | FATSapi/signaling-server-fastapi.py:67-73 | a target with a socket of its own receives the message exactly once |
| `Manager.NoneToOthers` | FATSapi/signaling-server-fastapi.py:67-73 | a socket that belongs to no target, such as the excluded sender's, receives nothing |
| `Manager.Transport.SendJson` | FATSapi/signaling-server-fastapi.py:63 | a send succeeds exactly when the socket is not dead, and only a successful send reaches the outbox |
| `Manager.ConnectionManager.constructor` | FATSapi/signaling-server-fastapi.py:21-23 | the registry starts empty, with no empty room, and consistent |
| `Manager.ConnectionManager.Connect` | FATSapi/signaling-server-fastapi.py:25-47 | the new state is `Joined` of the old one, with `NoEmptyRooms` kept and `Consistent` kept for colon-free ids; then `peer-joined` goes once to each other member with a registered, live socket, computed on the state after registration |
| `Manager.ConnectionManager.Disconnect` | FATSapi/signaling-server-fastapi.py:49-57 | the new state is `Left` of the old one, keeping `Consistent` and `NoEmptyRooms` |
| `Manager.ConnectionManager.SendMessage` | FATSapi/signaling-server-fastapi.py:61-65 | the registry is unchanged; the message is delivered unless the socket is dead, and the failure is swallowed |
| `Manager.ConnectionManager.BroadcastToRoom` | FATSapi/signaling-server-fastapi.py:67-73 | the registry is unchanged; the message goes once to each live target of the room; an unknown room gets nothing, and dead sockets do not stop the rest |
| `Session.RelayStampsSender` | FATSapi/signaling-server-fastapi.py:87-104 | a relayed message has the inbound `type`, `from` set to the sender, the required payload copied, and nothing else |
| `Session.FaultIffMalformed` | FATSapi/signaling-server-fastapi.py:83-104 | a frame fails if and only if it is not an object, lacks `type`, or lacks the field its relayed type requires |
| `Session.ReplyOnlyToPing` | FATSapi/signaling-server-fastapi.py:105-106 | only `ping` is answered, always with `pong`; an unknown type is ignored |
| `Session.FirstEnd` | FATSapi/signaling-server-fastapi.py:82-112 | finds the first event that ends the session, with no ending event before it, or reports that none does |
| `Session.HandleEvent` | FATSapi/signaling-server-fastapi.py:83-112 | one event: relays go to the room's live targets except the sender; `pong` goes back to the sender alone; unknown types are ignored; closure, a faulty frame or a failed `pong` disconnects the user and ends the loop |
| `Session.Serve` | FATSapi/signaling-server-fastapi.py:78-112 | the session joins, reads events up to and including the first one that ends it, and then has left exactly once; otherwise it stays joined |
| `Status.RoomsCoherent` | FATSapi/signaling-server-fastapi.py:129-134 | the snapshot's count equals the number of listed rooms, each listed room has exactly its members, and none is empty |
| `Status.LastLeaveUnlists` | FATSapi/signaling-server-fastapi.py:54-57 | when the last member leaves, the room disappears from the snapshot and the count drops by one |
| `Scenario.TwoPeers` | FATSapi/signaling-server-fastapi.py:25-112 | on a fresh server, A joins r1, B joins r1 and sends an offer, then A and B leave: the outbox is exactly `peer-joined` B and then B's offer, both to A's socket, so B's socket receives nothing; `/rooms` then lists r1 with B alone, and finally no room |

## Left out

- Accepting the socket (`websocket.accept`) and the JSON decoding of frames: frames arrive already parsed as `Inbound`. A failing accept happens before the session's `try` and is not modelled.
- The `print` logging has no effect on state.
- The FastAPI application, the CORS middleware and the uvicorn start-up are framework wiring.
- The `/` and `/health` endpoints return a constant and one dictionary length.
- Interleaving between `await`s of concurrent sessions is not modelled. Every manager operation is atomic, and `Serve` models one session running alone. An example is another task changing a room's set while a fan-out iterates it, which can raise in the source.
- `Manager.ConnectionManager.BroadcastToRoom`: the `exclude_user` default of `None` is not modelled, because no caller relies on it. The excluded user is always a string.
- `Manager.ConnectionManager.Connect`: the notification loop is the room fan-out with the joining user excluded, so it is modelled by a call to `BroadcastToRoom` on the registered state. Python's set iteration order is unspecified, so fan-out order is stated only as "some order".
- `Session.Serve`: the outbox is stated per event by `HandleEvent`; for the whole session it is only stated to grow.
