/**
 * Any sequence of events the server handles, one at a time, and the
 * invariant every such run keeps.
 */
module Invariants {
  import opened Signaling
  import opened WaitQueue
  import opened Rooms
  import opened Matchmaking

  /** The events the server reacts to; each room name is the `uuidv4()` value the handler would draw. */
  datatype Op =
    | Connection(s: Id)
    | ConnectToRandomUser(s: Id, newRoom: RoomId)
    | NextUser(s: Id, newRoom: RoomId)
    | Send(s: Id, ev: RelayEvent, p: Payload)
    | Close(s: Id)

  function Apply(st: State, op: Op): Step {
    match op
    case Connection(s) => Step(Connect(st, s), [])
    case ConnectToRandomUser(s, r) => HandleConnection(st, s, r)
    case NextUser(s, r) => Next(st, s, r)
    case Send(s, ev, p) => Step(st, Relay(st, s, ev, p))
    case Close(s) => Disconnect(st, s)
  }

  /** The handlers run one after another, each to completion. */
  function Run(st: State, ops: seq<Op>): Step
    decreases |ops|
  {
    if ops == [] then Step(st, [])
    else
      var first := Apply(st, ops[0]);
      var rest := Run(first.st, ops[1..]);
      Step(rest.st, first.out + rest.out)
  }

  /** `uuidv4()` never returns `""` nor a name a room already has. */
  predicate Unused(st: State, r: RoomId) {
    r != NoRoom && r !in st.rooms
  }

  predicate FreshRoom(st: State, op: Op) {
    (op.ConnectToRandomUser? || op.NextUser?) ==> Unused(st, op.newRoom)
  }

  /** Every event of the run draws a room name unused at the time it is handled. */
  predicate FreshRooms(st: State, ops: seq<Op>)
    decreases |ops|
  {
    ops == [] || (FreshRoom(st, ops[0]) && FreshRooms(Apply(st, ops[0]).st, ops[1..]))
  }

  /**
   * Rooms hold only connected sockets and at most two of them, and a socket
   * whose entry names a room is a member of that room.
   */
  predicate Consistent(st: State) {
    && (forall r :: r in st.rooms ==> st.rooms[r] <= st.connected)
    && (forall r :: r in st.rooms ==> |st.rooms[r]| <= 2)
    && OwnersIn(st)
  }

  /** Every socket whose entry names a room is in that room. */
  predicate OwnersIn(st: State) {
    forall k :: k in st.roomOf && st.roomOf[k] != NoRoom ==> k in Members(st.rooms, st.roomOf[k])
  }

  /** A socket can be a member only of a room that exists, so every non-empty entry names a created room. */
  lemma NamedRoomsCreated(st: State)
    requires OwnersIn(st)
    ensures forall k :: k in st.roomOf && st.roomOf[k] != NoRoom ==> st.roomOf[k] in st.rooms
  {
    forall k | k in st.roomOf && st.roomOf[k] != NoRoom
      ensures st.roomOf[k] in st.rooms
    {
      assert k in Members(st.rooms, st.roomOf[k]);
    }
  }

  lemma InitialConsistent()
    ensures Consistent(Initial)
  {
  }

  /** Resetting the caller's entry to `""` keeps every named room's owners in it. */
  lemma EnqueueOwnersIn(st: State, s: Id)
    requires OwnersIn(st)
    ensures OwnersIn(Enqueue(st, s))
  {
    var en := Enqueue(st, s);
    forall k | k in en.roomOf && en.roomOf[k] != NoRoom
      ensures k in Members(en.rooms, en.roomOf[k])
    {
      assert k != s && en.roomOf[k] == st.roomOf[k];
    }
  }

  /** A pair is joined to the room both entries name, and no other entry or room changes. */
  lemma PairOwnersIn(st: State, a: Id, b: Id, newRoom: RoomId)
    requires OwnersIn(st)
    ensures OwnersIn(Pair(st, a, b, newRoom).st)
  {
    var st' := Pair(st, a, b, newRoom).st;
    forall k | k in st'.roomOf && st'.roomOf[k] != NoRoom
      ensures k in Members(st'.rooms, st'.roomOf[k])
    {
      if k != a && k != b {
        assert st'.roomOf[k] == st.roomOf[k];
        assert Members(st.rooms, st.roomOf[k]) <= Members(st'.rooms, st.roomOf[k]);
      }
    }
  }

  /** After `handleConnection` every socket whose entry names a room is in that room. */
  lemma HandleConnectionOwnersIn(st: State, s: Id, newRoom: RoomId)
    requires Consistent(st) && Unused(st, newRoom)
    ensures OwnersIn(HandleConnection(st, s, newRoom).st)
  {
    var q := st.queue + [s];
    var en := Enqueue(st, s);
    EnqueueOwnersIn(st, s);
    if |Live(q, st.connected)| >= 2 {
      var k := PairShape(st, s, newRoom);
      var live := Live(q, st.connected);
      PairOwnersIn(en.(queue := q[k..]), live[0], live[1], newRoom);
    } else if st.queue != [] {
      DrainedWhenFewerThanTwoLive(st, s, newRoom);
    }
  }

  lemma HandleConnectionConsistent(st: State, s: Id, newRoom: RoomId)
    requires Consistent(st) && Unused(st, newRoom)
    ensures Consistent(HandleConnection(st, s, newRoom).st)
  {
    HandleConnectionOwnersIn(st, s, newRoom);
    var q := st.queue + [s];
    var r := HandleConnection(st, s, newRoom);
    if |Live(q, st.connected)| >= 2 {
      PairsFirstTwoLive(st, s, newRoom);
      var a, b := Live(q, st.connected)[0], Live(q, st.connected)[1];
      LiveMembers(q, st.connected, a);
      LiveMembers(q, st.connected, b);
      assert Members(r.st.rooms, newRoom) == {a, b};
      assert |{a, b}| <= 2;
      forall x | x in r.st.rooms ensures r.st.rooms[x] <= r.st.connected && |r.st.rooms[x]| <= 2 {
        if x != newRoom {
          assert r.st.rooms[x] == Members(r.st.rooms, x) == Members(st.rooms, x);
        }
      }
    } else if st.queue != [] {
      DrainedWhenFewerThanTwoLive(st, s, newRoom);
    }
  }

  lemma NextConsistent(st: State, s: Id, newRoom: RoomId)
    requires Consistent(st) && Unused(st, newRoom)
    ensures Consistent(Next(st, s, newRoom).st)
  {
    if s in st.roomOf && st.roomOf[s] != NoRoom {
      var room := st.roomOf[s];
      var st' := st.(rooms := Leave(st.rooms, s, room), roomOf := st.roomOf - {s});
      forall x | x in st'.rooms ensures st'.rooms[x] <= st'.connected && |st'.rooms[x]| <= 2 {
        assert st'.rooms[x] == Members(st'.rooms, x) <= Members(st.rooms, x);
      }
      HandleConnectionConsistent(st', s, newRoom);
    } else {
      HandleConnectionConsistent(st, s, newRoom);
    }
  }

  lemma DisconnectConsistent(st: State, s: Id)
    requires Consistent(st)
    ensures Consistent(Disconnect(st, s).st)
  {
    var d := Drop(st, s);
    forall x | x in d.rooms ensures d.rooms[x] <= d.connected && |d.rooms[x]| <= 2 {
      assert d.rooms[x] == Members(d.rooms, x) == st.rooms[x] - {s};
    }
  }

  lemma ApplyConsistent(st: State, op: Op)
    requires Consistent(st) && FreshRoom(st, op)
    ensures Consistent(Apply(st, op).st)
  {
    match op
    case Connection(s) =>
    case ConnectToRandomUser(s, r) => HandleConnectionConsistent(st, s, r);
    case NextUser(s, r) => NextConsistent(st, s, r);
    case Send(s, ev, p) =>
    case Close(s) => DisconnectConsistent(st, s);
  }

  /** Every run from a consistent state, with fresh room names, ends in a consistent state. */
  lemma {:induction false} RunConsistent(st: State, ops: seq<Op>)
    requires Consistent(st) && FreshRooms(st, ops)
    ensures Consistent(Run(st, ops).st)
    decreases |ops|
  {
    if ops != [] {
      ApplyConsistent(st, ops[0]);
      RunConsistent(Apply(st, ops[0]).st, ops[1..]);
    }
  }

  /**
   * In a consistent state a relayed payload reaches only connected sockets,
   * never the sender, and at most one of them: the sender's partner.
   */
  lemma RelayReachesOnlyLivePeers(st: State, s: Id, ev: RelayEvent, p: Payload)
    requires Consistent(st)
    ensures forall e :: e in Relay(st, s, ev, p) ==>
      && e.to <= st.connected
      && s !in e.to
      && |e.to| <= 1
  {
    var out := Relay(st, s, ev, p);
    if out != [] {
      var m := Members(st.rooms, st.roomOf[s]);
      assert out[0].to == m - {s};
      assert |m| <= 2 && s in m;
      assert |m - {s}| == |m| - 1;
    }
  }
}
