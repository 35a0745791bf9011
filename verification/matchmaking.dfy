/**
 * The handlers of server.ts as functions from the shared state before an
 * event to the shared state after it and the emits the handler made.
 */
module Matchmaking {
  import opened Signaling
  import opened WaitQueue
  import opened Rooms

  /**
   * The shared state: the waiting `queue`, the session table `roomOf`
   * (`mapOfUsersToRoomID`), the set of sockets whose `connected` flag is
   * true, and the transport's rooms.
   */
  datatype State = State(
    queue: seq<Id>,
    roomOf: map<Id, RoomId>,
    connected: set<Id>,
    rooms: map<RoomId, set<Id>>)

  /** A handler's result: the new state and the emits, in the order made. */
  datatype Step = Step(st: State, out: seq<Emit>)

  const Initial: State := State([], map[], {}, map[])

  function NotEnough(s: Id, n: nat): Emit {
    Emit({s}, NotEnoughUsers, Text(OnlyUsersOnline(n)))
  }

  function Notice(to: set<Id>): Emit {
    Emit(to, UserDisconnected, Text(DisconnectedText))
  }

  /** The four emits of a successful pairing; `a` was dequeued first. */
  function Matched(a: Id, b: Id): seq<Emit> {
    [ Emit({a}, MatchFound, Text(MatchedText)),
      Emit({b}, MatchFound, Text(MatchedText)),
      Emit({a}, YouAreInitiator, Flag(true)),
      Emit({b}, YouAreInitiator, Flag(false)) ]
  }

  /** The transport accepts a new socket. */
  function Connect(st: State, s: Id): State {
    st.(connected := st.connected + {s})
  }

  /** server.ts:39-40: append the caller, with no check for an existing entry, and reset its room. */
  function Enqueue(st: State, s: Id): State {
    st.(queue := st.queue + [s], roomOf := st.roomOf[s := NoRoom])
  }

  /** server.ts:211-216: report the queue length, then push back the held users still connected. */
  function InsufficientUsers(st: State, s: Id, users: seq<Id>): Step {
    Step(st.(queue := st.queue + Live(users, st.connected)), [NotEnough(s, |st.queue|)])
  }

  /** server.ts:57-73: both join the new room, both map to it, `a` is the initiator. */
  function Pair(st: State, a: Id, b: Id, newRoom: RoomId): Step {
    Step(st.(rooms := Join(Join(st.rooms, a, newRoom), b, newRoom),
             roomOf := st.roomOf[a := newRoom][b := newRoom]),
         Matched(a, b))
  }

  /** server.ts:42-83: everything `handleConnection` does after the append. */
  function Match(st: State, s: Id, newRoom: RoomId): Step {
    if |st.queue| < 2 then Step(st, [NotEnough(s, |st.queue|)])
    else
      var scan := Scan(st.queue, st.connected, []);
      var st' := st.(queue := scan.1);
      if |scan.0| == 2 then Pair(st', scan.0[0], scan.0[1], newRoom)
      else InsufficientUsers(st', s, scan.0)
  }

  /** `handleConnection(socket)`; `newRoom` is the value `uuidv4()` would return. */
  function HandleConnection(st: State, s: Id, newRoom: RoomId): Step {
    Match(Enqueue(st, s), s, newRoom)
  }

  /**
   * The part of `next` before it matches again, server.ts:100-105. An
   * absent entry reads as `undefined`, which is not `""`: the handler then
   * broadcasts to, and leaves, a room nobody is in.
   */
  function LeaveForNext(st: State, s: Id): Step {
    var room := Get(st.roomOf, s);
    if room == Some(NoRoom) then Step(st, [])
    else
      var audience := if room.Some? then Members(st.rooms, room.value) - {s} else {};
      var st' := if room.Some? then st.(rooms := Leave(st.rooms, s, room.value), roomOf := st.roomOf - {s}) else st;
      Step(st', [Notice(audience)])
  }

  /** The `next` handler: leave the current room, then `handleConnection`. */
  function Next(st: State, s: Id, newRoom: RoomId): Step {
    var w := LeaveForNext(st, s);
    var r := HandleConnection(w.st, s, newRoom);
    Step(r.st, w.out + r.out)
  }

  /** What a relay handler forwards: the payload as received, except that `localStreamSet` carries none. */
  function Forwarded(ev: RelayEvent, p: Payload): Payload {
    if ev == LocalStreamSet then Nothing else p
  }

  /**
   * The five relay handlers: `socket.broadcast.to(roomID).emit(ev, payload)`,
   * or nothing when the sender's entry is `""` or absent. They change no state.
   */
  function Relay(st: State, s: Id, ev: RelayEvent, p: Payload): (out: seq<Emit>)
    ensures out == [] <==> (s !in st.roomOf || st.roomOf[s] == NoRoom)
    ensures |out| <= 1
    ensures forall e :: e in out ==> s !in e.to && e.event == ev
    ensures out != [] ==> out[0].to == Members(st.rooms, st.roomOf[s]) - {s}
    ensures out != [] && ev != LocalStreamSet ==> out[0].payload == p
  {
    var room := Get(st.roomOf, s);
    if room == None || room.value == NoRoom then []
    else [Emit(Members(st.rooms, room.value) - {s}, ev, Forwarded(ev, p))]
  }

  /** The transport closes a socket: its flag drops and it leaves every room, before `disconnect` fires. */
  function Drop(st: State, s: Id): State {
    st.(connected := st.connected - {s}, rooms := LeaveAll(st.rooms, s))
  }

  /** The `disconnect` handler, server.ts:178-198. */
  function DisconnectHandler(st: State, s: Id): Step {
    var q := Without(st.queue, s);
    var room := Get(st.roomOf, s);
    if room.Some? && room.value != NoRoom then
      Step(st.(queue := q, roomOf := Purge(st.roomOf, room.value)), [Notice(Members(st.rooms, room.value))])
    else Step(st.(queue := q), [])
  }

  /** A socket closes: the transport's part, then the handler. */
  function Disconnect(st: State, s: Id): Step {
    DisconnectHandler(Drop(st, s), s)
  }

  // ---------------------------------------------------------------------
  // handleConnection

  /** The caller's entry is always rewritten: afterwards it is `""` or the new room, whatever it was. */
  lemma CallerRoomOverwritten(st: State, s: Id, newRoom: RoomId)
    ensures var r := HandleConnection(st, s, newRoom);
      && s in r.st.roomOf
      && (r.st.roomOf[s] == NoRoom || r.st.roomOf[s] == newRoom)
      && r.st.connected == st.connected
  {
  }

  /** With nobody waiting, the caller is queued alone and told "Only 1 users online". */
  lemma AloneGetsNotEnough(st: State, s: Id, newRoom: RoomId)
    requires st.queue == []
    ensures var r := HandleConnection(st, s, newRoom);
      && r.out == [Emit({s}, NotEnoughUsers, Text("Only 1 users online"))]
      && r.st == st.(queue := [s], roomOf := st.roomOf[s := NoRoom])
  {
    assert OnlyUsersOnline(1) == "Only 1 users online";
  }

  /**
   * With two connected entries in the queue (the caller included), the first
   * two are paired in the new room, the first dequeued as initiator, and
   * the queue keeps exactly the entries behind the second, in order.
   */
  lemma PairsFirstTwoLive(st: State, s: Id, newRoom: RoomId)
    requires |Live(st.queue + [s], st.connected)| >= 2
    ensures var q := st.queue + [s];
      var a, b := Live(q, st.connected)[0], Live(q, st.connected)[1];
      var r := HandleConnection(st, s, newRoom);
      var k := |q| - |r.st.queue|;
      && r.out == Matched(a, b)
      && r.st.roomOf == st.roomOf[s := NoRoom][a := newRoom][b := newRoom]
      && r.st.rooms == Join(Join(st.rooms, a, newRoom), b, newRoom)
      && (newRoom !in st.rooms ==> Members(r.st.rooms, newRoom) == {a, b})
      && r.st.connected == st.connected
      && 0 < k <= |q| && r.st.queue == q[k..]
      && Live(q[..k], st.connected) == [a, b] && q[k - 1] == b
  {
    var q := st.queue + [s];
    var a, b := Live(q, st.connected)[0], Live(q, st.connected)[1];
    var k := PairShape(st, s, newRoom);
    assert Live(q, st.connected)[..2] == [a, b];
    assert HandleConnection(st, s, newRoom).st.queue == q[k..];
  }

  /**
   * After the append, with two connected entries queued: the scan stops
   * right after the second, and the step is the pairing of the first two
   * with the queue left behind them.
   */
  lemma MatchPairs(st: State, s: Id, newRoom: RoomId) returns (k: nat)
    requires |Live(st.queue, st.connected)| >= 2
    ensures var q, live := st.queue, Live(st.queue, st.connected);
      && 0 < k <= |q| && Live(q[..k], st.connected) == live[..2] && q[k - 1] == live[1]
      && Match(st, s, newRoom) == Pair(st.(queue := q[k..]), live[0], live[1], newRoom)
  {
    var q := st.queue;
    ScanPairShape(q, st.connected);
    var scan := Scan(q, st.connected, []);
    k := |q| - |scan.1|;
    assert |scan.0| == 2 && |q| >= 2;
  }

  /** Where the scan stops when it pairs, and the pairing it hands on. */
  lemma PairShape(st: State, s: Id, newRoom: RoomId) returns (k: nat)
    requires |Live(st.queue + [s], st.connected)| >= 2
    ensures var q := st.queue + [s];
      var live := Live(q, st.connected);
      && 0 < k <= |q| && Live(q[..k], st.connected) == live[..2] && q[k - 1] == live[1]
      && HandleConnection(st, s, newRoom) == Pair(Enqueue(st, s).(queue := q[k..]), live[0], live[1], newRoom)
  {
    k := MatchPairs(Enqueue(st, s), s, newRoom);
  }

  /** The initiator is the connected entry nearest the front of the queue. */
  lemma InitiatorIsEarliestLive(st: State, s: Id, newRoom: RoomId, i: nat)
    requires i < |st.queue + [s]| && (st.queue + [s])[i] in st.connected
    requires forall k :: 0 <= k < i ==> (st.queue + [s])[k] !in st.connected
    requires |Live(st.queue + [s], st.connected)| >= 2
    ensures var out := HandleConnection(st, s, newRoom).out;
      |out| == 4 && out[2] == Emit({(st.queue + [s])[i]}, YouAreInitiator, Flag(true))
  {
    LiveHead(st.queue + [s], st.connected, i);
    PairsFirstTwoLive(st, s, newRoom);
  }

  /**
   * With at least two entries but fewer than two connected, the scan drains
   * the queue, the caller is told "Only 0 users online", and the connected
   * survivor (at most one) is pushed back.
   */
  lemma DrainedWhenFewerThanTwoLive(st: State, s: Id, newRoom: RoomId)
    requires st.queue != [] && |Live(st.queue + [s], st.connected)| < 2
    ensures var r := HandleConnection(st, s, newRoom);
      && r.out == [NotEnough(s, 0)]
      && r.st.queue == Live(st.queue + [s], st.connected)
      && r.st.roomOf == st.roomOf[s := NoRoom]
      && r.st.rooms == st.rooms
  {
    var q := st.queue + [s];
    ScanTakesFirstTwoLive(q, st.connected);
    LiveOfLive(q, st.connected);
  }

  /**
   * No connected waiting user is lost: each connected entry of the queue
   * (caller included) is still queued or was paired into the new room,
   * and nothing enters the queue that was not in it.
   */
  lemma NoLiveUserLost(st: State, s: Id, newRoom: RoomId)
    ensures var q := st.queue + [s];
      var r := HandleConnection(st, s, newRoom);
      && (forall x :: x in q && x in st.connected ==>
            x in r.st.queue || (x in r.st.roomOf && r.st.roomOf[x] == newRoom))
      && (forall x :: x in r.st.queue ==> x in q)
  {
    if |Live(st.queue + [s], st.connected)| >= 2 {
      NoLiveUserLostPaired(st, s, newRoom);
    } else if st.queue != [] {
      NoLiveUserLostDrained(st, s, newRoom);
    }
  }

  lemma NoLiveUserLostPaired(st: State, s: Id, newRoom: RoomId)
    requires |Live(st.queue + [s], st.connected)| >= 2
    ensures var q := st.queue + [s];
      var r := HandleConnection(st, s, newRoom);
      && (forall x :: x in q && x in st.connected ==>
            x in r.st.queue || (x in r.st.roomOf && r.st.roomOf[x] == newRoom))
      && (forall x :: x in r.st.queue ==> x in q)
  {
    var q := st.queue + [s];
    var live := Live(q, st.connected);
    var k := PairShape(st, s, newRoom);
    var rq := HandleConnection(st, s, newRoom).st.queue;
    var roomOf := HandleConnection(st, s, newRoom).st.roomOf;
    assert rq == q[k..];
    assert roomOf == st.roomOf[s := NoRoom][live[0] := newRoom][live[1] := newRoom];
    forall x | x in q && x in st.connected
      ensures x in rq || (x in roomOf && roomOf[x] == newRoom)
    {
      ShiftedOrLeft(q, st.connected, k, x);
      if x !in rq {
        assert x == live[0] || x == live[1];
      }
    }
  }

  lemma NoLiveUserLostDrained(st: State, s: Id, newRoom: RoomId)
    requires st.queue != [] && |Live(st.queue + [s], st.connected)| < 2
    ensures var q := st.queue + [s];
      var r := HandleConnection(st, s, newRoom);
      forall x :: x in r.st.queue <==> x in q && x in st.connected
  {
    var q := st.queue + [s];
    DrainedWhenFewerThanTwoLive(st, s, newRoom);
    forall x ensures x in Live(q, st.connected) <==> x in q && x in st.connected {
      LiveMembers(q, st.connected, x);
    }
  }



  // ---------------------------------------------------------------------
  // next

  /** `next` from a socket whose entry is `""` is exactly `handleConnection`. */
  lemma NextWithoutRoomIsConnect(st: State, s: Id, newRoom: RoomId)
    requires s in st.roomOf && st.roomOf[s] == NoRoom
    ensures Next(st, s, newRoom) == HandleConnection(st, s, newRoom)
  {
  }

  /**
   * `next` from a matched, connected socket tells the rest of its room,
   * never itself, that it left; it leaves the room, is no longer mapped to
   * it, and is queued or paired again. The step is exactly the notice, the
   * leave and the deletion of its entry, then `handleConnection`.
   */
  lemma NextLeavesOldRoom(st: State, s: Id, newRoom: RoomId)
    requires s in st.connected
    requires s in st.roomOf && st.roomOf[s] != NoRoom && newRoom != st.roomOf[s]
    ensures var room, r := st.roomOf[s], Next(st, s, newRoom);
      && r.out != [] && r.out[0] == Notice(Members(st.rooms, room) - {s})
      && s !in r.out[0].to
      && s !in Members(r.st.rooms, room)
      && s in r.st.roomOf && r.st.roomOf[s] != room
      && (s in r.st.queue || r.st.roomOf[s] == newRoom)
    ensures var room := st.roomOf[s];
      var h := HandleConnection(st.(rooms := Leave(st.rooms, s, room), roomOf := st.roomOf - {s}), s, newRoom);
      Next(st, s, newRoom) == Step(h.st, [Notice(Members(st.rooms, room) - {s})] + h.out)
  {
    var room := st.roomOf[s];
    var st' := st.(rooms := Leave(st.rooms, s, room), roomOf := st.roomOf - {s});
    var r := HandleConnection(st', s, newRoom);
    assert Next(st, s, newRoom) == Step(r.st, [Notice(Members(st.rooms, room) - {s})] + r.out);
    CallerRoomOverwritten(st', s, newRoom);
    NoLiveUserLost(st', s, newRoom);
    assert s in st'.queue + [s];
  }

  /** `handleConnection` only adds sockets to rooms: nobody leaves a room through it. */
  lemma HandleConnectionOnlyJoins(st: State, s: Id, newRoom: RoomId, rm: RoomId)
    ensures Members(st.rooms, rm) <= Members(HandleConnection(st, s, newRoom).st.rooms, rm)
  {
    var q := st.queue + [s];
    if |Live(q, st.connected)| >= 2 {
      var k := PairShape(st, s, newRoom);
    } else if st.queue != [] {
      DrainedWhenFewerThanTwoLive(st, s, newRoom);
    }
  }

  /**
   * `next` from a socket with no entry at all: the entry reads as
   * `undefined`, which is not `""`, so the handler broadcasts to room
   * `undefined`, which nobody is in, leaves nothing, and runs
   * `handleConnection`. The socket stays in every room it was in.
   */
  lemma NextWithoutEntry(st: State, s: Id, newRoom: RoomId, rm: RoomId)
    requires s !in st.roomOf
    ensures var h := HandleConnection(st, s, newRoom);
      Next(st, s, newRoom) == Step(h.st, [Notice({})] + h.out)
    ensures s in Members(st.rooms, rm) ==> s in Members(Next(st, s, newRoom).st.rooms, rm)
  {
    HandleConnectionOnlyJoins(st, s, newRoom, rm);
  }

  // ---------------------------------------------------------------------
  // disconnect

  /**
   * `disconnect` with a room: every queue occurrence of the socket goes, the
   * others keep their order, the room (which the socket has already left) is
   * told, and every entry naming that room is deleted while the others stay.
   */
  lemma DisconnectPurgesRoom(st: State, s: Id)
    requires s in st.roomOf && st.roomOf[s] != NoRoom
    ensures var room, r := st.roomOf[s], Disconnect(st, s);
      && r.st.queue == Without(st.queue, s)
      && r.out == [Notice(Members(st.rooms, room) - {s})]
      && (forall k :: k in r.st.roomOf ==> r.st.roomOf[k] != room)
      && (forall k :: k in st.roomOf && st.roomOf[k] != room ==>
            k in r.st.roomOf && r.st.roomOf[k] == st.roomOf[k])
      && s !in r.st.connected
      && (forall x :: s !in Members(r.st.rooms, x))
      && (forall x :: multiset(r.st.queue)[x] == if x == s then 0 else multiset(st.queue)[x])
  {
    forall x {
      WithoutCount(st.queue, s, x);
    }
  }

  /** `disconnect` without a room only takes the socket out of the queue. */
  lemma DisconnectWithoutRoom(st: State, s: Id)
    requires s !in st.roomOf || st.roomOf[s] == NoRoom
    ensures var r := Disconnect(st, s);
      && r.out == []
      && r.st.queue == Without(st.queue, s)
      && s !in r.st.queue
      && r.st.roomOf == st.roomOf
  {
    WithoutMembers(st.queue, s, s);
  }
}
