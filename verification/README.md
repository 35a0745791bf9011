# AnonMate matchmaking and signaling core, in Dafny

This project models the matchmaking and room bookkeeping of the AnonMate
backend's `server.ts`. That file is a socket.io server that pairs anonymous
users for a WebRTC call and relays the call's signaling messages between the
two partners.

The server keeps two pieces of shared state:
- `queue`: the sockets waiting for a partner, oldest first;
- `mapOfUsersToRoomID`: a session table from a socket id to the id of its
  room, where `""` means "no room".

Around these, the transport holds each socket's `connected` flag and the
socket.io rooms. The handlers are:
- `handleConnection` (`connectToRandomUser`), with its helper
  `handleInsufficientUsers`;
- `next`;
- the five relay handlers `messageFromUser`, `offer`, `answer`,
  `ice_candidate` and `localStreamSet`;
- `disconnect`.

Node runs each handler to completion before the next starts, so every
handler is one atomic step.

The model has two layers:

- **Specification functions** (`Matchmaking`). The state is a value
  `State(queue, roomOf, connected, rooms)`. Each handler is a function from
  the state before an event to a `Step`: the state after it plus the emits
  the handler made, in order. An emit is a record of the recipients, the
  event name and the payload. `Invariants` composes the handlers into
  arbitrary runs. `Scenarios` states the sessions the client test suite
  walks through.
- **The server as it runs** (`SignalingServer.Server`). This is a class
  whose fields the handlers update in place. Its methods contain the
  source's loops:
  - the `while` scan that shifts entries off the queue;
  - the `forEach` that pushes connected users back;
  - the `for` loop that purges the session table.

  Every method is proved to leave exactly the state, and append exactly the
  emits, that the matching specification function computes.

Supporting modules:
- `Signaling`: ids, event names, payloads, and the `"Only N users online"`
  text with the decimal rendering of `N`.
- `WaitQueue`: the scan, and the two filters (connected entries;
  `queue.filter(user => user.id !== s)`).
- `Rooms`: socket.io's `join`, `leave` and leave-all-on-close, and the purge
  of the session table.

Modelling choices:
- A socket is its id. `socket.connected` is membership in `connected`. The
  transport's rooms are a map from room id to member set. An emit is one
  `Emit` record appended to the log; a broadcast's recipient set is computed
  when it is emitted.
- `uuidv4()` becomes a parameter `newRoom`. The run invariant asks that each
  drawn name is non-empty and unused.
- An absent entry of the session table is `None`, JavaScript's `undefined`.
  `next` compares the entry with `""` using `!==`, so a socket without an
  entry takes the "in a room" branch. It broadcasts to and leaves room
  `undefined`, which nobody is in, and the socket stays in any room it was
  in (`Matchmaking.NextWithoutEntry`). The relay handlers test `!roomID`, so
  both `""` and `undefined` drop the payload. `disconnect` tests
  `if (roomID)` the same way.
- Closing a socket is two steps. First the transport clears its
  `connected` flag and removes it from every room (socket.io does this
  before it fires `disconnect`). Then the `disconnect` handler runs. So the
  handler's `io.to(roomID)` reaches only the remaining members.
- `localStreamSet` is emitted without a payload (`Nothing`). The other four
  relays forward the payload they received.

Where the code and the obvious intent of a matchmaker part ways, the model
follows the code:
- A socket with no conversation has the entry `""`, not an absent entry.
  The model keeps `""` as `NoRoom` and an absent entry as `None`.
- `queue.push` appends without checking for an existing entry, so a socket
  can wait in two slots. A socket should wait at most once (Findings, first
  row).
- `next` deletes the caller's entry and `handleConnection` then sets it to
  `""` again. The model does the same.
- A relayed payload is broadcast to the whole room except the sender, not
  addressed to one partner. `Invariants.RelayReachesOnlyLivePeers` shows
  that in a consistent state this reaches at most one socket, the partner.
- `handleConnection` resets the caller's entry to `""` even when the caller
  is matched, and leaves it in its room. A matched caller should first leave
  its conversation, as `next` does (Findings, second row).

## Model

| member | source | states |
|---|---|---|
| Signaling.Decimal | server.ts:82 | The text of a number is a non-empty string of decimal digits with no leading zero, one digit exactly for numbers below ten |
| Signaling.DecimalRoundTrip | server.ts:82 | Reading the decimal text of `n` back as digits gives `n` |
| Signaling.OnlyUsersOnline | server.ts:82 | The notice is "Only ", then the decimal text of the count, then " users online", and the middle slice is exactly that decimal text |
| Signaling.CountReadBack | server.ts:212 | Two `notEnoughUsers` texts are equal only when the queue lengths they report are equal |
| WaitQueue.LiveMembers | server.ts:50-52 | An id is among the connected entries of the queue if and only if it is in the queue and connected |
| WaitQueue.Live | server.ts:213-215 | The connected entries of the queue, in order, never more than the queue holds; LiveMembers, LiveAppend and LiveOfLive state what it keeps |
| WaitQueue.LiveAppend | server.ts:213-215 | Keeping the connected entries of a concatenation keeps those of each part, in order |
| WaitQueue.LiveHead | server.ts:47-53 | The first connected entry of the queue heads the filtered queue |
| WaitQueue.LiveOfLive | server.ts:213-214 | Filtering connected entries twice is filtering once |
| WaitQueue.LiveNoDup | server.ts:47-53 | Filtering a queue without repeats gives a queue without repeats |
| WaitQueue.Without | server.ts:181 | `queue.filter(user => user.id !== s)` is never longer than the queue |
| WaitQueue.WithoutMembers | server.ts:181 | An id survives the filter if and only if it was queued and is not `s` |
| WaitQueue.WithoutCount | server.ts:181 | After the filter `s` occurs zero times and every other id as often as before |
| WaitQueue.WithoutAbsent | server.ts:181 | A queue that does not hold `s` is unchanged by the filter |
| WaitQueue.WithoutNoDup | server.ts:181 | Filtering a queue without repeats gives a queue without repeats |
| WaitQueue.WithoutAppend | server.ts:181 | The filter keeps order: it filters each part of a concatenation in place |
| WaitQueue.Scan | server.ts:47-53 | The scan holds at most two users: the given users, then the connected entries of the prefix it shifted off. The queue left is the unshifted suffix, in its original order. It holds fewer than two only once the queue is empty, and an early stop comes right after shifting a connected entry |
| WaitQueue.ScanStep | server.ts:47-53 | One shift of the loop preserves the scan's contract |
| WaitQueue.ScanKeepsLive | server.ts:47-53 | Every connected entry is either held by the scan or still in the queue it leaves |
| WaitQueue.ScanSplit | server.ts:47-53 | The connected entries of the queue are the users held, followed by the connected entries of the queue left |
| WaitQueue.ScanTakesFirstTwoLive | server.ts:47-55 | With two or more connected entries the scan holds the first two in queue order. With fewer it holds all of them and empties the queue |
| WaitQueue.ScanPairShape | server.ts:47-59 | When a pair forms, the shifted prefix holds exactly the pair and ends with its second member. The queue left is everything behind it |
| WaitQueue.ShiftedOrLeft | server.ts:47-53 | A connected entry is either among the connected entries shifted off the front or still in the rest of the queue |
| Rooms.Get | server.ts:100 | `mapOfUsersToRoomID.get` is defined exactly for present keys and returns their value |
| Rooms.Join | server.ts:58-59 | `join` adds the socket to that room and changes no other room |
| Rooms.Leave | server.ts:103 | `leave` removes the socket from that room and changes no other room |
| Rooms.LeaveAll | server.ts:178 | Closing a socket removes it from every room and keeps all other members |
| Rooms.Purge | server.ts:189-193 | The purge deletes exactly the entries naming the room and keeps the others' values |
| Matchmaking.Connect | server.ts:93 | Accepting a socket marks it connected; Server.Connect and the run invariant use it |
| Matchmaking.Enqueue | server.ts:39-40 | The append and the reset of the caller's entry; CallerRoomOverwritten, AloneGetsNotEnough and SelfPairing state its effect |
| Matchmaking.InsufficientUsers | server.ts:211-216 | The length notice, then the connected held users pushed back; DrainedWhenFewerThanTwoLive states the outcome |
| Matchmaking.Pair | server.ts:57-73 | Both users join the room and map to it, with the four match emits; PairsFirstTwoLive states the outcome |
| Matchmaking.Match | server.ts:42-83 | Everything after the append: the notice for a short queue, the scan, then a pair or the pushback; PairsFirstTwoLive, DrainedWhenFewerThanTwoLive and NoLiveUserLost state it |
| Matchmaking.HandleConnection | server.ts:37-90 | `handleConnection` is the append followed by the match; its lemmas below state what it does in each case |
| Matchmaking.LeaveForNext | server.ts:100-105 | The part of `next` before matching again; NextWithoutRoomIsConnect and NextLeavesOldRoom state it |
| Matchmaking.Next | server.ts:99-107 | `next` leaves the caller's room, then runs `handleConnection`; NextWithoutRoomIsConnect and NextLeavesOldRoom state it |
| Matchmaking.Forwarded | server.ts:165-176 | `localStreamSet` is forwarded with no payload, the other relays with the one received; Relay states it |
| Matchmaking.Drop | server.ts:178 | The transport's part of a close: the flag drops and the socket leaves every room; DisconnectPurgesRoom states it |
| Matchmaking.DisconnectHandler | server.ts:178-198 | The queue filter, then the notice and purge when the entry names a room; DisconnectPurgesRoom and DisconnectWithoutRoom state it |
| Matchmaking.Disconnect | server.ts:178-198 | The transport's close followed by the handler; DisconnectPurgesRoom, DisconnectWithoutRoom and DisconnectConsistent state it |
| Matchmaking.Relay | server.ts:109-176 | Nothing is relayed if and only if the sender's entry is absent or `""`. Otherwise there is one emit of the same event to the room's members minus the sender, and the payload is unchanged except for `localStreamSet` |
| Matchmaking.CallerRoomOverwritten | server.ts:39-40 | After `handleConnection` the caller's entry is `""` or the new room, whatever it was before |
| Matchmaking.AloneGetsNotEnough | server.ts:39-45 | With an empty queue the caller is queued alone, mapped to `""`, and told "Only 1 users online". Nothing else changes |
| Matchmaking.PairsFirstTwoLive | server.ts:47-73 | With two connected entries, the first two are paired: four emits in order, with the first dequeued as initiator. Both are mapped to and joined to the new room, which holds exactly them when it is new. The queue keeps exactly what is behind the second |
| Matchmaking.MatchPairs | server.ts:47-73 | After the append, with two connected entries queued, the scan stops right after the second; the shifted prefix holds exactly the first two connected entries, and the step, state and emits, is their pairing with the queue left behind them |
| Matchmaking.PairShape | server.ts:47-73 | When two connected entries exist the scan stops right after the second, the shifted prefix holds exactly those two, and the step is the pairing of them with the queue left behind them |
| Matchmaking.InitiatorIsEarliestLive | server.ts:72 | `youAreInitiator(true)` goes to the connected entry nearest the front of the queue |
| Matchmaking.DrainedWhenFewerThanTwoLive | server.ts:45-83 | With two or more entries but fewer than two connected, the caller is told "Only 0 users online". The queue ends as its connected entries (at most one), and rooms are untouched |
| Matchmaking.NoLiveUserLost | server.ts:47-77 | Every connected entry is still queued or is mapped to the new room, and nothing enters the queue that was not in it |
| Matchmaking.NoLiveUserLostPaired | server.ts:47-73 | When a pair forms, every connected entry is still queued or mapped to the new room, and the queue left is part of the old one |
| Matchmaking.NoLiveUserLostDrained | server.ts:45-83 | When no pair forms from two entries or more, an id is queued afterwards if and only if it was queued and is connected |
| Matchmaking.NextWithoutRoomIsConnect | server.ts:99-107 | `next` from a socket whose entry is `""` is exactly `handleConnection` |
| Matchmaking.NextLeavesOldRoom | server.ts:99-107 | `next` from a matched socket first notifies the rest of its room, never itself. It leaves the room, is no longer mapped to it, and is queued or paired again. The step is exactly that notice, that leave and the deletion of its entry, followed by `handleConnection` on the resulting state |
| Matchmaking.HandleConnectionOnlyJoins | server.ts:37-90 | `handleConnection` only adds sockets to rooms: every member of a room before is a member after |
| Matchmaking.NextWithoutEntry | server.ts:99-107 | `next` from a socket with no entry notifies nobody, leaves no room and then is exactly `handleConnection`; the socket stays in every room it was in |
| Matchmaking.DisconnectPurgesRoom | server.ts:178-194 | With a room: the socket leaves the queue, and other entries keep their counts and order. The room is notified. Every entry naming the room is deleted and the others are kept. The socket is in no room and no longer connected |
| Matchmaking.DisconnectWithoutRoom | server.ts:178-185 | Without a room: no emit, the socket leaves the queue, and the session table is unchanged |
| Invariants.InitialConsistent | server.ts:32-33 | The empty server is consistent |
| Invariants.NamedRoomsCreated | server.ts:57-64 | In a state where owners are in their rooms, every non-empty entry names a room that was created |
| Invariants.EnqueueOwnersIn | server.ts:39-40 | Resetting the caller's entry to `""` keeps every socket whose entry names a room in that room |
| Invariants.PairOwnersIn | server.ts:57-64 | Pairing joins both sockets to the room both entries now name and changes no other entry or room, so owners stay in their rooms |
| Invariants.HandleConnectionOwnersIn | server.ts:57-64 | After `handleConnection` in a consistent state every socket whose entry names a room is a member of that room: the pair is joined to the room both entries name, and other entries are unchanged or reset to `""` |
| Invariants.HandleConnectionConsistent | server.ts:37-90 | `handleConnection` with an unused room name keeps the invariant: rooms hold only connected sockets, at most two each, and every socket whose entry names a room is a member of it |
| Invariants.NextConsistent | server.ts:99-107 | `next` keeps the same invariant |
| Invariants.DisconnectConsistent | server.ts:178-198 | `disconnect` keeps the same invariant |
| Invariants.Apply | server.ts:93-198 | One event goes to its handler: accept, `connectToRandomUser`, `next`, a relay, or a close; ApplyConsistent states it |
| Invariants.Run | server.ts:93-198 | The handlers of a sequence of events run one after another, each to completion, and their emits are concatenated; RunConsistent states it |
| Invariants.ApplyConsistent | server.ts:93-198 | Every event keeps the invariant |
| Invariants.RunConsistent | server.ts:93-198 | Every run of events with fresh room names, from a consistent state, ends consistent |
| Invariants.RelayReachesOnlyLivePeers | server.ts:109-176 | In a consistent state a relayed payload reaches only connected sockets, never the sender, and at most one socket: the sender's partner |
| Scenarios.FirstCallerWaits | __tests__/server.test.ts:50-63 | The first caller waits alone and is told "Only 1 users online" |
| Scenarios.SecondCallerMatches | __tests__/server.test.ts:84-146 | The second caller is matched with the first. Both share the new room, and the first is the initiator |
| Scenarios.PartnersRelay | __tests__/server.test.ts:150-286 | Once matched, each partner's messages, offers, answers, candidates and stream notices reach exactly the other |
| Scenarios.NextAfterMatch | __tests__/server.test.ts:292-298 | `next` after a match notifies the partner, and the caller waits alone and is told "Only 1 users online" |
| Scenarios.PartnerCloses | server.ts:178-194 | When one partner closes, only the other is told, both entries are purged, and the survivor asking again waits alone |
| Findings.SelfPairing | server.ts:39 | As written: a waiting socket that asks again is paired with itself, told both that it is and is not the initiator, and its room holds only itself |
| Findings.EnqueueOnce | server.ts:39-40 | The deduplicated append: the caller is queued; the old queue is a prefix of the new one, which is at most one entry longer; a queue without repeats stays without repeats; an already waiting caller keeps its one place; apart from the queue only the caller's entry changes, reset to `""` |
| Findings.EnqueueOnceIdempotent | server.ts:39 | Asking twice with the deduplicated append is the same as asking once |
| Findings.NoSelfPairingOnce | server.ts:39-73 | With the deduplicated append the queue never holds repeats, and a pair, when formed, is two different sockets |
| Findings.RequeueWhileMatched | server.ts:40 | From a well-matched pair, a matched socket that asks again is reset to `""` but stays in its room, so entries and rooms no longer agree. Its payloads are dropped while its partner's reach it, and when it closes the partner is not told and keeps a stale entry |
| Findings.HandleConnectionOnce | server.ts:39-73 | `handleConnection` with the deduplicated append and the rest unchanged; NoSelfPairingOnce states it |
| Findings.Withdraw | server.ts:101-105 | What `next` does for a caller whose entry names a room: tell and leave the room, delete the entry; WithdrawKeeps states it |
| Findings.HandleConnectionSafe | server.ts:37-90 | Corrected `handleConnection`: leave a current conversation first, then the deduplicated append and the match; HandleConnectionSafeKeeps states it |
| Findings.WithdrawKeeps | server.ts:101-105 | Leaving the room keeps the state well matched, leaves the caller with no room and creates or removes no room |
| Findings.EnqueueOnceKeeps | server.ts:39-40 | The deduplicated append keeps the state well matched when the caller has no room |
| Findings.NoDupSplit | server.ts:47-53 | In a queue without repeats an entry of the shifted prefix is not in the rest |
| Findings.NoDupSuffix | server.ts:47-53 | What the scan leaves of a queue without repeats has no repeats |
| Findings.PairAgrees | server.ts:57-64 | Two sockets with no room, paired into an unused room, agree with it, and every other room still agrees with its entries |
| Findings.PairKeeps | server.ts:57-73 | Pairing two sockets that no longer wait and have no room into an unused room keeps the state well matched |
| Findings.MatchPairShape | server.ts:47-73 | From a queue without repeats a pair is the first two connected entries, two different queued sockets, neither left in the queue; the step, state and emits, is their pairing, with the first as initiator |
| Findings.MatchPairKeeps | server.ts:47-73 | Pairing the first two connected waiting sockets keeps the state well matched |
| Findings.MatchDrains | server.ts:45-83 | With two entries or more but fewer than two connected the queue shrinks to its connected entries and nothing else changes |
| Findings.MatchDrainKeeps | server.ts:45-83 | That drain keeps the state well matched |
| Findings.MatchKeeps | server.ts:42-83 | Everything after the append keeps the state well matched, given an unused room name |
| Findings.HandleConnectionSafeKeeps | server.ts:37-90 | Corrected: from a well-matched state, with an unused room name, the corrected `handleConnection` leaves a well-matched state |
| Findings.DisconnectKeeps | server.ts:178-198 | `disconnect` as written keeps the state well matched |
| Findings.PartnerToldOnClose | server.ts:184-186 | When entries and rooms agree, closing a socket tells every other member of a conversation it is in |
| SignalingServer.Server.constructor | server.ts:32-33 | The server starts with an empty queue, an empty session table, no sockets and no emits |
| SignalingServer.Server.Connect | server.ts:93 | Accepting a socket marks it connected and emits nothing |
| SignalingServer.Server.HandleConnection | server.ts:37-90 | The new state and the appended emits are exactly those of `handleConnection` |
| SignalingServer.Server.TakeUsers | server.ts:47-53 | The `while` loop leaves exactly the users and the queue the scan describes, and changes nothing else |
| SignalingServer.Server.PairUsers | server.ts:57-73 | Both users join the room and are mapped to it, and the four match emits are appended |
| SignalingServer.Server.HandleInsufficientUsers | server.ts:211-216 | The length notice is appended, then the `forEach` pushes back exactly the connected users, in order |
| SignalingServer.Server.Next | server.ts:99-107 | The new state and the appended emits are exactly those of `next` |
| SignalingServer.Server.LeaveForNext | server.ts:100-105 | The new state and the appended emits are exactly those of the part of `next` before it matches again |
| SignalingServer.Server.Relay | server.ts:109-176 | The relay appends exactly the relay emits and changes nothing else |
| SignalingServer.Server.Disconnect | server.ts:178-198 | The filter and the `for` purge loop leave exactly the state and the emits of the transport close followed by `disconnect` |

## Left out

- The Express app, the `GET /` endpoint and `httpServer.listen`
  (server.ts:22-30, 204-208) are HTTP plumbing.
- The socket.io server and its CORS options (server.ts:25-30) are not
  modelled. Delivery of an emit over the network is not modelled either: an
  emit is a record appended to a log.
- `uuidv4()` is a parameter. Its uniqueness is a precondition of the run
  invariant only.
- `console.log`, `console.warn`, `console.error` and the `try`/`catch`
  paths (and the `"error"` emits inside them) are not modelled. Nothing in
  the modelled logic throws.
- The payload interfaces (server.ts:6-20) and `types.ts` are not part of
  this model. The relay never inspects a payload, so payloads are an opaque
  datatype.
- The client test suite is not part of this model as code. Its sessions are
  restated as lemmas.
- Concurrency is not modelled: handlers run one at a time, as on Node's
  event loop.
- socket.io deletes a room once it is empty. In the model the room stays as
  an empty set. No broadcast can tell the two apart.
- Each socket's own private room (named after its id) is not modelled. The
  server never broadcasts to it.
- The `connected` flag changes only when a socket closes. The model does
  not say when the transport notices a dead connection.
- SignalingServer.Server.Disconnect: the `for ... of entries()` loop deletes
  entries while iterating. The model visits a snapshot of the keys in an
  unspecified order. The result is the same either way, because each step
  deletes only the entry it visits.
- WaitQueue.Without: its own contract gives only the length bound. The
  membership, count and order properties are stated by WithoutMembers,
  WithoutCount, WithoutAbsent, WithoutNoDup and WithoutAppend.

## Findings

| source | as written | input that shows it | evidently intended | confidence | as-written member | corrected member |
|---|---|---|---|---|---|---|
| server.ts:39 | `queue.push(socket)` appends with no check for an existing entry | socket `a` waits alone, then emits `connectToRandomUser` again: the queue is `[a, a]`, both entries are connected, and `a` is matched with itself | a socket occupies at most one queue slot (an idempotent enqueue), so a pair is always two different sockets | high, not executed | Findings.SelfPairing | Findings.NoSelfPairingOnce |
| server.ts:40 | `mapOfUsersToRoomID.set(socket.id, "")` resets the caller's entry even when the caller is matched, and the caller stays in its room | `a` and `b` are matched in room `r`, then `a` emits `connectToRandomUser`: `a` maps to `""` but is still in `r`, its payloads are dropped, `b`'s still reach it, and when `a` closes `b` is not told and keeps its entry for `r` | a matched caller first leaves its conversation, as `next` does, so entries and rooms always agree and a closing socket's partner is told | high, not executed | Findings.RequeueWhileMatched | Findings.HandleConnectionSafeKeeps |

The corrected system is `Findings.HandleConnectionSafe` for both
`connectToRandomUser` and `next`, with `disconnect` as written. Its
invariant `Findings.WellMatched` says that each entry naming a room agrees
with that room's members, that waiting sockets have no room, that the queue
has no repeats, and that every named room exists. HandleConnectionSafeKeeps
and DisconnectKeeps prove that both steps keep it, and PartnerToldOnClose
shows that under it a closing socket's partner is always told.
