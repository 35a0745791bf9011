/** The sessions the client suite walks through, stated over the handler functions. */
module Scenarios {
  import opened Signaling
  import opened WaitQueue
  import opened Rooms
  import opened Matchmaking

  /** Sockets `conn` are connected, nobody waits, nobody is matched. */
  function Idle(conn: set<Id>): State {
    State([], map[], conn, map[])
  }

  /** `a` waits alone. */
  function Waiting(a: Id, conn: set<Id>): State {
    State([a], map[a := NoRoom], conn, map[])
  }

  /** `a` and `b` share room `r` and nobody waits. */
  function Together(a: Id, b: Id, r: RoomId, conn: set<Id>): State {
    State([], map[a := r, b := r], conn, map[r := {a, b}])
  }

  /** The first caller with nobody waiting is queued and told "Only 1 users online". */
  lemma FirstCallerWaits(a: Id, conn: set<Id>, r: RoomId)
    ensures HandleConnection(Idle(conn), a, r) == Step(Waiting(a, conn), [NotEnough(a, 1)])
  {
    AloneGetsNotEnough(Idle(conn), a, r);
  }

  /** The second caller is matched with the first, and the first is the initiator. */
  lemma SecondCallerMatches(a: Id, b: Id, r: RoomId, conn: set<Id>)
    requires a != b && a in conn && b in conn
    ensures HandleConnection(Waiting(a, conn), b, r) == Step(Together(a, b, r, conn), Matched(a, b))
  {
    var st := Waiting(a, conn);
    var q := [a, b];
    assert st.queue + [b] == q;
    assert Live(q, conn) == [a, b] by {
      assert q[1..] == [b] && [b][1..] == [];
    }
    PairsFirstTwoLive(st, b, r);
    var res := HandleConnection(st, b, r);
    assert res.st.queue == [];
    assert res.st.roomOf == map[a := r, b := r];
    assert res.st.rooms == map[r := {a, b}];
  }

  /** Once matched, each partner's payloads reach exactly the other, unchanged. */
  lemma PartnersRelay(a: Id, b: Id, r: RoomId, conn: set<Id>, ev: RelayEvent, p: Payload)
    requires a != b && r != NoRoom
    ensures Relay(Together(a, b, r, conn), a, ev, p) == [Emit({b}, ev, Forwarded(ev, p))]
    ensures Relay(Together(a, b, r, conn), b, ev, p) == [Emit({a}, ev, Forwarded(ev, p))]
  {
    assert {a, b} - {a} == {b};
    assert {a, b} - {b} == {a};
  }

  /** `next` after the match: the partner is told, the caller waits alone and hears "Only 1 users online". */
  lemma NextAfterMatch(a: Id, b: Id, r: RoomId, r': RoomId, conn: set<Id>)
    requires a != b && r != NoRoom
    ensures Next(Together(a, b, r, conn), a, r') ==
      Step(State([a], map[b := r, a := NoRoom], conn, map[r := {b}]), [Notice({b}), NotEnough(a, 1)])
  {
    var st := Together(a, b, r, conn);
    assert {a, b} - {a} == {b};
    var st' := st.(rooms := Leave(st.rooms, a, r), roomOf := st.roomOf - {a});
    assert st'.roomOf == map[b := r];
    assert st'.rooms == map[r := {b}];
    AloneGetsNotEnough(st', a, r');
  }

  /**
   * If `b` closes while matched with `a`, only `a` is told and both entries
   * are purged; `a` asking again then waits alone.
   */
  lemma PartnerCloses(a: Id, b: Id, r: RoomId, r': RoomId, conn: set<Id>)
    requires a != b && r != NoRoom
    ensures var s := Disconnect(Together(a, b, r, conn), b);
      && s == Step(State([], map[], conn - {b}, map[r := {a}]), [Notice({a})])
      && HandleConnection(s.st, a, r').out == [NotEnough(a, 1)]
  {
    var st := Together(a, b, r, conn);
    var s := Disconnect(st, b);
    assert {a, b} - {b} == {a};
    assert Drop(st, b).rooms == map[r := {a}];
    assert s.st.roomOf == map[];
    AloneGetsNotEnough(s.st, a, r');
  }
}
