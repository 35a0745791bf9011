/**
 * socket.io rooms and the session table. The adapter's rooms are a map from
 * room name to the sockets joined to it; the session table maps a socket id
 * to the name of its room, with `NoRoom` ("") for none.
 */
module Rooms {
  import opened Signaling

  /** `mapOfUsersToRoomID.get(id)`: absent entries are `None` (JavaScript's `undefined`). */
  function Get(m: map<Id, RoomId>, s: Id): (r: Option<RoomId>)
    ensures r.Some? <==> s in m
    ensures r.Some? ==> r.value == m[s]
  {
    if s in m then Some(m[s]) else None
  }

  /** The sockets a broadcast to room `r` reaches; a room nobody joined reaches nobody. */
  function Members(rooms: map<RoomId, set<Id>>, r: RoomId): set<Id> {
    if r in rooms then rooms[r] else {}
  }

  /** `socket.join(r)`. */
  function Join(rooms: map<RoomId, set<Id>>, s: Id, r: RoomId): (rooms': map<RoomId, set<Id>>)
    ensures rooms'.Keys == rooms.Keys + {r}
    ensures Members(rooms', r) == Members(rooms, r) + {s}
    ensures forall x :: x != r ==> Members(rooms', x) == Members(rooms, x)
  {
    rooms[r := Members(rooms, r) + {s}]
  }

  /** `socket.leave(r)`. */
  function Leave(rooms: map<RoomId, set<Id>>, s: Id, r: RoomId): (rooms': map<RoomId, set<Id>>)
    ensures rooms'.Keys == rooms.Keys
    ensures Members(rooms', r) == Members(rooms, r) - {s}
    ensures forall x :: x != r ==> Members(rooms', x) == Members(rooms, x)
  {
    if r in rooms then rooms[r := rooms[r] - {s}] else rooms
  }

  /** What the transport does to the rooms when a socket closes: it leaves every room. */
  function LeaveAll(rooms: map<RoomId, set<Id>>, s: Id): (rooms': map<RoomId, set<Id>>)
    ensures rooms'.Keys == rooms.Keys
    ensures forall x :: Members(rooms', x) == Members(rooms, x) - {s}
  {
    map r | r in rooms :: rooms[r] - {s}
  }

  /** The session table with every entry that names room `r` deleted. */
  function Purge(m: map<Id, RoomId>, r: RoomId): (m': map<Id, RoomId>)
    ensures forall k :: k in m' <==> k in m && m[k] != r
    ensures forall k :: k in m' ==> m'[k] == m[k]
  {
    map k | k in m && m[k] != r :: m[k]
  }
}
