/**
 * The server's shared state and handlers as they run: one object whose
 * fields the handlers update in place, each proved to do what the matching
 * function of `Matchmaking` says.
 */
module SignalingServer {
  import opened Signaling
  import opened WaitQueue
  import opened Rooms
  import M = Matchmaking

  class Server {
    /** `queue`: sockets waiting for a partner, oldest first. */
    var queue: seq<Id>
    /** `mapOfUsersToRoomID`. */
    var roomOf: map<Id, RoomId>
    /** The sockets whose `connected` flag is true. */
    var connected: set<Id>
    /** The transport's rooms. */
    var rooms: map<RoomId, set<Id>>
    /** Every emit made so far, oldest first. */
    var log: seq<Emit>

    function Snapshot(): M.State
      reads this
    {
      M.State(queue, roomOf, connected, rooms)
    }

    constructor ()
      ensures Snapshot() == M.Initial && log == []
    {
      queue, roomOf, connected, rooms, log := [], map[], {}, map[], [];
    }

    /** The transport accepts socket `s`. */
    method Connect(s: Id)
      modifies this
      ensures Snapshot() == M.Connect(old(Snapshot()), s) && log == old(log)
    {
      connected := connected + {s};
    }

    /** `handleConnection(socket)`, with `newRoom` standing for `uuidv4()`. */
    method HandleConnection(s: Id, newRoom: RoomId)
      modifies this
      ensures var r := M.HandleConnection(old(Snapshot()), s, newRoom);
        Snapshot() == r.st && log == old(log) + r.out
    {
      queue := queue + [s];
      roomOf := roomOf[s := NoRoom];
      ghost var enqueued := Snapshot();
      assert enqueued == M.Enqueue(old(Snapshot()), s);
      if |queue| >= 2 {
        var users := TakeUsers();
        if |users| == 2 {
          PairUsers(users[0], users[1], newRoom);
        } else {
          HandleInsufficientUsers(s, users);
        }
      } else {
        log := log + [M.NotEnough(s, |queue|)];
      }
    }

    /** server.ts:47-53: dequeue until two connected users are held or the queue is empty. */
    method TakeUsers() returns (users: seq<Id>)
      modifies this`queue
      ensures (users, queue) == Scan(old(queue), connected, [])
    {
      users := [];
      while |queue| > 0 && |users| < 2
        invariant |users| <= 2
        invariant Scan(queue, connected, users) == Scan(old(queue), connected, [])
        decreases |queue|
      {
        var current := queue[0];
        queue := queue[1..];
        if current in connected {
          users := users + [current];
        }
      }
    }

    /** server.ts:57-73: both users join the new room, both entries name it, `a` is the initiator. */
    method PairUsers(a: Id, b: Id, newRoom: RoomId)
      modifies this`rooms, this`roomOf, this`log
      ensures var r := M.Pair(old(Snapshot()), a, b, newRoom);
        Snapshot() == r.st && log == old(log) + r.out
    {
      rooms := Join(rooms, a, newRoom);
      rooms := Join(rooms, b, newRoom);
      roomOf := roomOf[a := newRoom];
      roomOf := roomOf[b := newRoom];
      log := log + [
        Emit({a}, MatchFound, Text(MatchedText)),
        Emit({b}, MatchFound, Text(MatchedText)),
        Emit({a}, YouAreInitiator, Flag(true)),
        Emit({b}, YouAreInitiator, Flag(false))];
    }

    /** `handleInsufficientUsers(socket, users)`. */
    method HandleInsufficientUsers(s: Id, users: seq<Id>)
      modifies this
      ensures var r := M.InsufficientUsers(old(Snapshot()), s, users);
        Snapshot() == r.st && log == old(log) + r.out
    {
      log := log + [M.NotEnough(s, |queue|)];
      var i := 0;
      while i < |users|
        invariant 0 <= i <= |users|
        invariant queue == old(queue) + Live(users[..i], connected)
        invariant roomOf == old(roomOf) && connected == old(connected) && rooms == old(rooms)
        invariant log == old(log) + [M.NotEnough(s, |old(queue)|)]
      {
        assert users[..i + 1] == users[..i] + [users[i]];
        LiveAppend(users[..i], [users[i]], connected);
        assert [users[i]][1..] == [];
        if users[i] in connected {
          queue := queue + [users[i]];
        }
        i := i + 1;
      }
      assert users[..i] == users;
    }

    /** The `next` handler. */
    method Next(s: Id, newRoom: RoomId)
      modifies this
      ensures var r := M.Next(old(Snapshot()), s, newRoom);
        Snapshot() == r.st && log == old(log) + r.out
    {
      LeaveForNext(s);
      HandleConnection(s, newRoom);
    }

    /** server.ts:100-105: unless the entry is `""`, tell the rest of the room, leave it and delete the entry. */
    method LeaveForNext(s: Id)
      modifies this
      ensures var r := M.LeaveForNext(old(Snapshot()), s);
        Snapshot() == r.st && log == old(log) + r.out
    {
      var room := Get(roomOf, s);
      if room != Some(NoRoom) {
        var audience := if room.Some? then Members(rooms, room.value) - {s} else {};
        log := log + [M.Notice(audience)];
        if room.Some? {
          rooms := Leave(rooms, s, room.value);
          roomOf := roomOf - {s};
        }
      }
    }

    /** The five relay handlers: they only emit. */
    method Relay(s: Id, ev: RelayEvent, p: Payload)
      modifies this`log
      ensures log == old(log) + M.Relay(Snapshot(), s, ev, p)
    {
      var room := Get(roomOf, s);
      if room.Some? && room.value != NoRoom {
        log := log + [Emit(Members(rooms, room.value) - {s}, ev, M.Forwarded(ev, p))];
      }
    }

    /** The transport closes `s` (leaving every room), then the `disconnect` handler runs. */
    method Disconnect(s: Id)
      modifies this
      ensures var r := M.Disconnect(old(Snapshot()), s);
        Snapshot() == r.st && log == old(log) + r.out
    {
      connected := connected - {s};
      rooms := LeaveAll(rooms, s);
      queue := Without(queue, s);
      var room := Get(roomOf, s);
      if room.Some? && room.value != NoRoom {
        log := log + [M.Notice(Members(rooms, room.value))];
        ghost var m := roomOf;
        ghost var before := Snapshot();
        ghost var logged := log;
        var pending := roomOf.Keys;
        while pending != {}
          invariant pending <= m.Keys
          invariant roomOf == map k | k in m && (k in pending || m[k] != room.value) :: m[k]
          invariant queue == before.queue && connected == before.connected && rooms == before.rooms && log == logged
          decreases pending
        {
          var k :| k in pending;
          if roomOf[k] == room.value {
            roomOf := roomOf - {k};
          }
          pending := pending - {k};
        }
        assert roomOf == Purge(m, room.value);
      }
    }
  }
}
