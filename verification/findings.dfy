/**
 * Where `handleConnection` falls short of a queue that holds each socket at
 * most once and a socket that is in at most one room.
 */
module Findings {
  import opened Signaling
  import opened WaitQueue
  import opened Rooms
  import opened Matchmaking
  import opened Scenarios

  /**
   * As written: a socket that asks twice while alone occupies two queue
   * slots and is paired with itself. It is told both that it is the
   * initiator and that it is not, and its room holds only itself.
   */
  lemma SelfPairing(a: Id, conn: set<Id>, r: RoomId)
    requires a in conn
    ensures var s := HandleConnection(Waiting(a, conn), a, r);
      && s.out == Matched(a, a)
      && Emit({a}, YouAreInitiator, Flag(true)) in s.out
      && Emit({a}, YouAreInitiator, Flag(false)) in s.out
      && Members(s.st.rooms, r) == {a}
  {
    var st := Waiting(a, conn);
    var q := [a, a];
    assert st.queue + [a] == q;
    assert Live(q, conn) == [a, a] by {
      assert q[1..] == [a] && [a][1..] == [];
    }
    PairsFirstTwoLive(st, a, r);
  }

  /**
   * The append of server.ts:39 with the check it lacks: a socket waits at
   * most once, so one already waiting keeps its place.
   */
  function EnqueueOnce(st: State, s: Id): (st': State)
    ensures s in st'.queue
    ensures st.queue <= st'.queue && |st'.queue| <= |st.queue| + 1
    ensures NoDup(st.queue) ==> NoDup(st'.queue)
    ensures s in st.queue ==> st'.queue == st.queue
    ensures st' == st.(queue := st'.queue, roomOf := st.roomOf[s := NoRoom])
  {
    var q := if s in st.queue then st.queue else st.queue + [s];
    assert NoDup(st.queue) ==> NoDup(q) by {
      if NoDup(st.queue) && s !in st.queue {
        forall i, j | 0 <= i < j < |q| ensures q[i] != q[j] {
          if j == |q| - 1 {
            assert q[i] == st.queue[i];
          }
        }
      }
    }
    st.(queue := q, roomOf := st.roomOf[s := NoRoom])
  }

  /** `handleConnection` with the deduplicated append and the rest unchanged. */
  function HandleConnectionOnce(st: State, s: Id, newRoom: RoomId): Step {
    Match(EnqueueOnce(st, s), s, newRoom)
  }

  /** Asking twice in a row leaves one queue entry. */
  lemma EnqueueOnceIdempotent(st: State, s: Id)
    ensures EnqueueOnce(EnqueueOnce(st, s), s) == EnqueueOnce(st, s)
  {
  }

  /**
   * Corrected: a queue without repeats stays without repeats, and a pair,
   * when one is formed, is two different sockets.
   */
  lemma NoSelfPairingOnce(st: State, s: Id, newRoom: RoomId)
    requires NoDup(st.queue)
    ensures var q, r := EnqueueOnce(st, s).queue, HandleConnectionOnce(st, s, newRoom);
      && NoDup(r.st.queue)
      && (|Live(q, st.connected)| >= 2 ==>
            var a, b := Live(q, st.connected)[0], Live(q, st.connected)[1];
            r.out == Matched(a, b) && a != b)
  {
    var st1 := EnqueueOnce(st, s);
    var q := st1.queue;
    LiveNoDup(q, st.connected);
    if |q| >= 2 {
      var scan := Scan(q, st.connected, []);
      var k := |q| - |scan.1|;
      ScanTakesFirstTwoLive(q, st.connected);
      assert NoDup(scan.1) by {
        forall i, j | 0 <= i < j < |scan.1| ensures scan.1[i] != scan.1[j] {
          assert scan.1[i] == q[k + i] && scan.1[j] == q[k + j];
        }
      }
      if |scan.0| < 2 {
        LiveOfLive(q, st.connected);
      }
    }
  }

  /**
   * As written: a matched socket that asks for a partner again without
   * `next` has its entry reset to `""` but stays in its room. Its partner's
   * payloads still reach it while its own are dropped, and when it closes
   * its partner is never told and keeps an entry for the old room.
   */
  lemma RequeueWhileMatched(a: Id, b: Id, r: RoomId, r': RoomId, conn: set<Id>, ev: RelayEvent, p: Payload)
    requires a != b && r != NoRoom && a in conn
    ensures WellMatched(Together(a, b, r, conn))
    ensures var s1 := HandleConnection(Together(a, b, r, conn), a, r');
      var s2 := Disconnect(s1.st, a);
      && !RoomsAgree(s1.st)
      && s1.st.roomOf[a] == NoRoom && a in Members(s1.st.rooms, r)
      && Relay(s1.st, a, ev, p) == []
      && Relay(s1.st, b, ev, p) == [Emit({a}, ev, Forwarded(ev, p))]
      && s2.out == []
      && b in s2.st.roomOf && s2.st.roomOf[b] == r
  {
    var st := Together(a, b, r, conn);
    AloneGetsNotEnough(st, a, r');
    assert {a, b} - {b} == {a};
    var s1 := HandleConnection(st, a, r');
    assert b in s1.st.roomOf && s1.st.roomOf[b] == r && a in Members(s1.st.rooms, s1.st.roomOf[b]);
    assert s1.st.roomOf[a] != s1.st.roomOf[b];
  }

  // ---------------------------------------------------------------------
  // A matched caller that asks again, corrected

  /**
   * Every member of a room that some entry names is itself mapped to that
   * room: nobody sits in a conversation its own entry does not name.
   */
  predicate RoomsAgree(st: State) {
    forall x, y :: x in st.roomOf && st.roomOf[x] != NoRoom && y in Members(st.rooms, st.roomOf[x]) ==>
      y in st.roomOf && st.roomOf[y] == st.roomOf[x]
  }

  /** Waiting sockets are in no conversation. */
  predicate QueuedUnmatched(st: State) {
    forall x :: x in st.queue ==> x in st.roomOf && st.roomOf[x] == NoRoom
  }

  predicate NamedRoomsExist(st: State) {
    forall k :: k in st.roomOf && st.roomOf[k] != NoRoom ==> st.roomOf[k] in st.rooms
  }

  /** The state the matchmaker should keep: entries and rooms agree, and each socket waits at most once and only when unmatched. */
  predicate WellMatched(st: State) {
    RoomsAgree(st) && QueuedUnmatched(st) && NoDup(st.queue) && NamedRoomsExist(st)
  }

  /** What `next` does before matching again, server.ts:101-105, for a caller whose entry names a room. */
  function Withdraw(st: State, s: Id): Step {
    if s in st.roomOf && st.roomOf[s] != NoRoom then
      var room := st.roomOf[s];
      Step(st.(rooms := Leave(st.rooms, s, room), roomOf := st.roomOf - {s}), [Notice(Members(st.rooms, room) - {s})])
    else Step(st, [])
  }

  /**
   * `handleConnection` corrected: a matched caller first tells and leaves
   * its room as `next` does, and a waiting caller keeps its one place.
   */
  function HandleConnectionSafe(st: State, s: Id, newRoom: RoomId): Step {
    var w := Withdraw(st, s);
    var h := HandleConnectionOnce(w.st, s, newRoom);
    Step(h.st, w.out + h.out)
  }

  /** Leaving the room keeps the state well matched and leaves the caller with no room. */
  lemma WithdrawKeeps(st: State, s: Id)
    requires WellMatched(st)
    ensures var st' := Withdraw(st, s).st;
      && WellMatched(st')
      && (s !in st'.roomOf || st'.roomOf[s] == NoRoom)
      && st'.rooms.Keys == st.rooms.Keys
  {
    if s in st.roomOf && st.roomOf[s] != NoRoom {
      var room := st.roomOf[s];
      var st' := Withdraw(st, s).st;
      forall x, y | x in st'.roomOf && st'.roomOf[x] != NoRoom && y in Members(st'.rooms, st'.roomOf[x])
        ensures y in st'.roomOf && st'.roomOf[y] == st'.roomOf[x]
      {
        var r := st'.roomOf[x];
        assert x != s && st.roomOf[x] == r;
        assert y in Members(st.rooms, r);
        assert y != s;
      }
    }
  }

  /** The deduplicated append keeps the state well matched when the caller has no room. */
  lemma EnqueueOnceKeeps(st: State, s: Id)
    requires WellMatched(st) && (s !in st.roomOf || st.roomOf[s] == NoRoom)
    ensures WellMatched(EnqueueOnce(st, s))
  {
    var st' := EnqueueOnce(st, s);
    forall x, y | x in st'.roomOf && st'.roomOf[x] != NoRoom && y in Members(st'.rooms, st'.roomOf[x])
      ensures y in st'.roomOf && st'.roomOf[y] == st'.roomOf[x]
    {
      assert x != s && st.roomOf[x] == st'.roomOf[x];
    }
  }

  /** In a queue without repeats, an entry of a prefix is not in the rest. */
  lemma NoDupSplit(q: seq<Id>, k: nat, x: Id)
    requires NoDup(q) && k <= |q| && x in q[..k]
    ensures x !in q[k..]
  {
    var i :| 0 <= i < k && q[i] == x;
    forall j | 0 <= j < |q[k..]| ensures q[k..][j] != x {
      assert q[k..][j] == q[k + j];
    }
  }

  /** Two sockets with no room, paired into an unused room, agree with it, and no other room changes. */
  lemma PairAgrees(st: State, a: Id, b: Id, newRoom: RoomId)
    requires RoomsAgree(st) && NamedRoomsExist(st) && newRoom != NoRoom && newRoom !in st.rooms
    requires a in st.roomOf && st.roomOf[a] == NoRoom && b in st.roomOf && st.roomOf[b] == NoRoom
    ensures RoomsAgree(Pair(st, a, b, newRoom).st) && NamedRoomsExist(Pair(st, a, b, newRoom).st)
  {
    var st' := Pair(st, a, b, newRoom).st;
    assert Members(st.rooms, newRoom) == {};
    assert Members(st'.rooms, newRoom) == {a, b};
    forall x, y | x in st'.roomOf && st'.roomOf[x] != NoRoom && y in Members(st'.rooms, st'.roomOf[x])
      ensures y in st'.roomOf && st'.roomOf[y] == st'.roomOf[x]
    {
      var r := st'.roomOf[x];
      if r != newRoom {
        assert x != a && x != b && st.roomOf[x] == r;
        assert Members(st'.rooms, r) == Members(st.rooms, r);
        assert y != a && y != b;
      }
    }
  }

  /** What is left of a queue without repeats has no repeats. */
  lemma NoDupSuffix(q: seq<Id>, k: nat)
    requires NoDup(q) && k <= |q|
    ensures NoDup(q[k..])
  {
    forall i, j | 0 <= i < j < |q[k..]| ensures q[k..][i] != q[k..][j] {
      assert q[k..][i] == q[k + i] && q[k..][j] == q[k + j];
    }
  }

  /**
   * When a pair forms from a queue without repeats, it is the first two
   * connected entries, two different sockets, neither left in the queue,
   * and the step is their pairing.
   */
  lemma MatchPairShape(st: State, s: Id, newRoom: RoomId) returns (a: Id, b: Id, k: nat)
    requires NoDup(st.queue) && |Live(st.queue, st.connected)| >= 2
    ensures k <= |st.queue| && a != b && a in st.queue && b in st.queue
    ensures a !in st.queue[k..] && b !in st.queue[k..]
    ensures a == Live(st.queue, st.connected)[0] && b == Live(st.queue, st.connected)[1]
    ensures Match(st, s, newRoom) == Pair(st.(queue := st.queue[k..]), a, b, newRoom)
  {
    var q, live := st.queue, st.connected;
    k := MatchPairs(st, s, newRoom);
    LiveNoDup(q, live);
    var l := Live(q, live);
    a, b := l[0], l[1];
    assert l[..2] == [a, b];
    LiveMembers(q[..k], live, a);
    LiveMembers(q[..k], live, b);
    NoDupSplit(q, k, a);
    NoDupSplit(q, k, b);
    assert q == q[..k] + q[k..];
  }

  /** Pairing two sockets that wait no more and have no room into an unused room keeps the state well matched. */
  lemma PairKeeps(st: State, a: Id, b: Id, newRoom: RoomId)
    requires WellMatched(st) && newRoom != NoRoom && newRoom !in st.rooms
    requires a in st.roomOf && st.roomOf[a] == NoRoom && b in st.roomOf && st.roomOf[b] == NoRoom
    requires a !in st.queue && b !in st.queue
    ensures WellMatched(Pair(st, a, b, newRoom).st)
  {
    PairAgrees(st, a, b, newRoom);
    var st' := Pair(st, a, b, newRoom).st;
    forall x | x in st'.queue ensures x in st'.roomOf && st'.roomOf[x] == NoRoom {
      assert x != a && x != b;
    }
  }

  /** Pairing two waiting sockets into an unused room keeps the state well matched. */
  lemma MatchPairKeeps(st: State, s: Id, newRoom: RoomId)
    requires WellMatched(st) && newRoom != NoRoom && newRoom !in st.rooms
    requires |Live(st.queue, st.connected)| >= 2
    ensures WellMatched(Match(st, s, newRoom).st)
  {
    var a, b, k := MatchPairShape(st, s, newRoom);
    var q := st.queue;
    assert st.roomOf[a] == NoRoom && st.roomOf[b] == NoRoom;
    NoDupSuffix(q, k);
    var left := st.(queue := q[k..]);
    forall x | x in left.queue ensures x in q {
    }
    assert WellMatched(left);
    PairKeeps(left, a, b, newRoom);
  }

  /** With two entries or more but fewer than two connected, the queue shrinks to its connected entries and nothing else changes. */
  lemma MatchDrains(st: State, s: Id, newRoom: RoomId)
    requires |st.queue| >= 2 && |Live(st.queue, st.connected)| < 2
    ensures Match(st, s, newRoom).st == st.(queue := Live(st.queue, st.connected))
  {
    var q, live := st.queue, st.connected;
    ScanTakesFirstTwoLive(q, live);
    LiveOfLive(q, live);
    var p := Live(q, live);
    assert Scan(q, live, []) == (p, []);
    assert [] + Live(p, live) == p;
  }

  /** Draining the queue to its connected entries keeps the state well matched. */
  lemma MatchDrainKeeps(st: State, s: Id, newRoom: RoomId)
    requires WellMatched(st) && |st.queue| >= 2 && |Live(st.queue, st.connected)| < 2
    ensures WellMatched(Match(st, s, newRoom).st)
  {
    MatchDrains(st, s, newRoom);
    var q, live := st.queue, st.connected;
    var st' := st.(queue := Live(q, live));
    LiveNoDup(q, live);
    forall x | x in st'.queue ensures x in q {
      LiveMembers(q, live, x);
    }
    assert RoomsAgree(st') && NamedRoomsExist(st');
  }

  /** What `handleConnection` does after the append keeps the state well matched. */
  lemma MatchKeeps(st: State, s: Id, newRoom: RoomId)
    requires WellMatched(st) && newRoom != NoRoom && newRoom !in st.rooms
    ensures WellMatched(Match(st, s, newRoom).st)
  {
    if |st.queue| >= 2 {
      if |Live(st.queue, st.connected)| >= 2 {
        MatchPairKeeps(st, s, newRoom);
      } else {
        MatchDrainKeeps(st, s, newRoom);
      }
    }
  }

  /**
   * Corrected: from a well-matched state, with an unused room name, the
   * corrected `handleConnection` leaves a well-matched state.
   */
  lemma HandleConnectionSafeKeeps(st: State, s: Id, newRoom: RoomId)
    requires WellMatched(st) && newRoom != NoRoom && newRoom !in st.rooms
    ensures WellMatched(HandleConnectionSafe(st, s, newRoom).st)
  {
    var st1 := Withdraw(st, s).st;
    WithdrawKeeps(st, s);
    EnqueueOnceKeeps(st1, s);
    MatchKeeps(EnqueueOnce(st1, s), s, newRoom);
  }

  /** `disconnect` as written keeps the state well matched. */
  lemma DisconnectKeeps(st: State, s: Id)
    requires WellMatched(st)
    ensures WellMatched(Disconnect(st, s).st)
  {
    var st' := Disconnect(st, s).st;
    forall x | x in st'.queue ensures x in st.queue {
      WithoutMembers(st.queue, s, x);
    }
    WithoutNoDup(st.queue, s);
  }

  /**
   * In a well-matched state, when a socket closes, every other member of a
   * conversation it is in is told.
   */
  lemma PartnerToldOnClose(st: State, x: Id, y: Id)
    requires RoomsAgree(st)
    requires y in st.roomOf && st.roomOf[y] != NoRoom && x != y
    requires x in Members(st.rooms, st.roomOf[y]) && y in Members(st.rooms, st.roomOf[y])
    ensures var out := Disconnect(st, x).out;
      |out| == 1 && out[0].event == UserDisconnected && y in out[0].to
  {
  }
}
