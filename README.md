# Signalling server: matchmaking and call lifecycle

This project models the signalling server of a one-to-one WebRTC video chat
(`server/dist/index.js`). The server keeps two pieces of process-wide state:

- `users`, a Map from a connection's socket id to a record of display name,
  socket id, status and current peer;
- `callQueue`, a FIFO array of the socket ids waiting for a partner.

Seven socket events act on that state: `register`, `offer`, `answer`,
`ice-candidate`, `end-room`, `end-call` and `disconnect`. The `register`,
`end-call` and `disconnect` handlers finish by broadcasting a user list and
running the recursive matchmaker `attemptMatchmaking`. The matchmaker
dequeues the two oldest handles and pairs them when both are still
available.

The model has two layers:

- **Step functions over values** (`Registry`, `Matchmaker`, `Handlers`). Each
  one takes the state before an event and returns the state after it
  together with the messages sent. These carry the properties: what an
  event does, the invariant every event keeps, and the facts about whole
  runs of events.
- **A class with one method per handler** (`Server.SignallingServer`). It
  mirrors the source's in-place updates: Map `set`/`delete`, array
  `push`/`shift`/`unshift`/`splice`, field assignments, and the matchmaker
  recursing on the queue it has just shortened. Each method's
  postcondition says the new state and the messages appended to the
  outbox are exactly those of the matching step function, so every lemma
  about the step functions holds of the methods. The class invariant
  `Valid()` is `Consistent` of the fields: the constructor establishes it
  and every handler method keeps it, so handlers can be called one after
  another.

Modules:

- `Protocol` (`protocol.dfy`): connection handles, the messages the server
  emits (`io.to(h).emit` addressed to one connection, `io.emit` of the user
  list to all, `socket.disconnect(true)` as `Close`), and the exact status
  texts.
- `Registry` (`registry.dfy`): the state, the invariants, `indexOf`/`splice`,
  the duplicate-name lookup and the user-list snapshot. A JavaScript Map
  iterates in insertion order, so the state keeps the keys in that order
  (`order`) beside the map.
- `Matchmaker` (`matchmaker.dfy`): `attemptMatchmaking`.
- `Handlers` (`handlers.dfy`): the event handlers as step functions, the
  invariant `Consistent`, and runs of events.
- `Server` (`server.dfy`): the imperative class.
- `Scenarios` (`scenarios.dfy`): concrete runs from start-up with named users.

The invariant `Consistent` is made of these facts:

- the iteration order lists exactly the registry's keys;
- every queued handle is a registered, available user, queued once;
- every available user is queued;
- in-call users point at a distinct registered user who points back;
- display names are unique.

Every event keeps `Consistent`, under the one assumption that a connection
registers at most once. `Consistent` makes the matchmaker's missing-user
branch unreachable.

A further fact came out of the proofs: from start-up at most one user is
ever waiting. Each event queues at most two users, and a run of the
matchmaker that finds two queued users pairs them. That is why pairing one
couple per run, as the source does, is always enough.

Three behaviours of the code are worth knowing:

- `end-call` from a user not in a call sends nothing. The source only logs
  it (lines 168-170).
- Relays forward to whatever target the sender names, without checking that
  it is the sender's peer (lines 126-137).
- After `end-call`, when nobody else is waiting, the two users are
  re-queued caller first (lines 152, 159) and the matchmaker, run at line
  166, pairs them with each other again at once. The caller now starts
  the call. So a user registering next does not pair with either of them,
  but waits (`Scenarios.ScenarioEndCallRepairs`,
  `Scenarios.ScenarioCarolWaits`).

## Model

| member | source | states |
|---|---|---|
| Registry.IndexOf | server/dist/index.js:178 | `indexOf`: -1 exactly when the handle is absent; otherwise a position holding the handle with no earlier occurrence |
| Registry.WithoutRemoves | server/dist/index.js:178-181 | splicing out the first occurrence of a handle from a duplicate-free queue removes exactly that handle, keeps the rest duplicate-free, shortens it by one when present and leaves it unchanged when absent |
| Registry.WithoutSplicesFirst | server/dist/index.js:178-181 | `splice(indexOf(h), 1)` cuts the queue at the first occurrence of the handle and keeps everything before and after it in order; an absent handle leaves it unchanged |
| Registry.NameHeld | server/dist/index.js:101-110 | some registered user already has the name; no ensures of its own, and `Server.SignallingServer.NameTaken` is proved to compute it |
| Registry.Without | server/dist/index.js:178-181 | the queue (or iteration order) with the first occurrence of a handle spliced out; no ensures of its own, its facts are `WithoutRemoves` and `WithoutSplicesFirst` |
| Registry.Info | server/dist/index.js:88-93 | one user-list entry: name, status text, and the peer's name only when the peer is still registered; no ensures of its own, its facts are `SnapshotSymmetric` |
| Registry.Snapshot | server/dist/index.js:86-96 | the user list, one `Info` per user in the Map's iteration order; requires every listed key registered; no ensures of its own, its facts are `SnapshotAt` and `SnapshotSymmetric` |
| Registry.SnapshotAt | server/dist/index.js:87-94 | entry i of the user list describes the i-th user in the Map's iteration order, and the list is as long as that order |
| Registry.OrderCardinality | server/dist/index.js:24 | the iteration order has exactly as many entries as the Map has keys |
| Registry.SnapshotSymmetric | server/dist/index.js:86-96 | the broadcast user list has one entry per registered user and names every one of them; an entry shows a peer exactly when its status is "in-call"; peers are shown in pairs: if A's entry names B, B's entry names A |
| Matchmaker.Paired | server/dist/index.js:41-44 | the registry with two users made to call each other; no ensures of its own, its facts are `MatchmakePairsFirstTwo` and `PairingConsistent` |
| Matchmaker.Requeued | server/dist/index.js:55-58 | the queue after a stale dequeue, each available handle unshifted in source order; no ensures of its own, its facts are `MatchmakeDropsStale` |
| Matchmaker.Matchmake | server/dist/index.js:28-84 | one run of `attemptMatchmaking`; requires every queued handle registered; no ensures of its own, its facts are the `Matchmake*` lemmas below |
| Matchmaker.MatchmakeFrame | server/dist/index.js:28-84 | matchmaking keeps every record's name and handle and the Map's keys and iteration order, never adds a handle to the queue, never lengthens it, and leaves the state well formed |
| Matchmaker.MatchmakePairsFirstTwo | server/dist/index.js:31-51 | when the two oldest queued users are available, both leave the queue in a call with each other and nobody else changes; the first is sent `call-initiated` with the second's name and handle, the second `call-incoming` with the first's, then the user list, and nothing more |
| Matchmaker.MatchmakeDropsStale | server/dist/index.js:53-61 | when one of the two oldest is not available, the run equals a run on the rest of the queue with each available one put back at the front |
| Matchmaker.MatchmakeWaits | server/dist/index.js:75-83 | with one queued handle the state is unchanged and only that user is sent "Waiting for another user to connect..."; with none nothing is sent |
| Matchmaker.MatchmakeAtMostOnePair | server/dist/index.js:39-51 | one run either changes no record or gives the registry of one queued, available pair made to call each other (the same handle twice only when the queue holds it twice, as the source would then do) |
| Matchmaker.MatchmakeKeepsLive | server/dist/index.js:53-61 | every queued available user is, after the run, still queued or in a call: only unavailable handles are dropped |
| Matchmaker.MatchmakePreserves | server/dist/index.js:28-84 | matchmaking keeps `Consistent`; with two or more queued it removes exactly the first two; a queue of at most three is left with at most one handle |
| Matchmaker.PairingConsistent | server/dist/index.js:41-44 | pairing the two oldest queued users of a consistent state gives a consistent state |
| Handlers.Admit | server/dist/index.js:112-119 | the state with a new available user stored, appended to the iteration order and queued; no ensures of its own, its facts are `AdmitConsistent` and `RegisterAdmits` |
| Handlers.Release | server/dist/index.js:150-151 | a user made available with its peer cleared, as at lines 150-151, 157-158 and 190-191; no ensures of its own, its facts are `EndCallRequeuesBoth` and `DisconnectFreesPeer` |
| Handlers.Conclude | server/dist/index.js:165-166 | the tail of `register`, `end-call` and `disconnect` (also lines 122-123 and 199-200): the user list of the state so far, then matchmaking; no ensures of its own, its facts are `RegisterAdmits`, `EndCallRequeuesBoth`, `DisconnectDequeues` and `DisconnectFreesPeer` |
| Handlers.RegisterStep | server/dist/index.js:99-125 | the `register` handler; requires the connection not yet registered; no ensures of its own, its facts are the `Register*` lemmas |
| Handlers.EndCallStep | server/dist/index.js:142-171 | the `end-call` handler; no ensures of its own, its facts are the `EndCall*` lemmas |
| Handlers.DisconnectStep | server/dist/index.js:172-202 | the `disconnect` handler; requires a duplicate-free queue; no ensures of its own, its facts are the `Disconnect*` lemmas |
| Handlers.RelayStep | server/dist/index.js:126-137 | the `offer`, `answer` and `ice-candidate` handlers; no ensures of its own, its facts are `RelayForwardsUnchanged` |
| Handlers.EndRoomStep | server/dist/index.js:138-141 | the `end-room` handler; no ensures of its own, its facts are `EndRoomOnlyCloses` |
| Handlers.Apply | server/dist/index.js:97-203 | dispatch of one event to its handler; requires `Consistent` and no second `register`; no ensures of its own, its facts are `ApplyPreserves` |
| Handlers.Run | server/dist/index.js:97-203 | the events of an admissible sequence handled one after another, with all their messages; no ensures of its own, its facts are `RunPreserves` and the scenarios |
| Handlers.Requeue | server/dist/index.js:155-159 | making a registered user available and pushing it on the queue leaves the state well formed |
| Handlers.Removed | server/dist/index.js:176-181 | deleting a registered user and splicing out its queue entry leaves the state well formed |
| Handlers.HangUp | server/dist/index.js:150-164 | the first half of `end-call` leaves the state well formed |
| Handlers.Leave | server/dist/index.js:176-196 | the first half of `disconnect` leaves the state well formed |
| Handlers.RegisterRefusesTakenName | server/dist/index.js:101-110 | a name held by any registered user is refused: the caller is sent the "already taken" notice and its connection is closed; registry and queue are unchanged |
| Handlers.RegisterAdmits | server/dist/index.js:111-124 | a free name is stored as a new available user with no peer and appended to the queue; "Connected." is sent, then the user list, then whatever matchmaking sends, and the state is matchmaking's result |
| Handlers.RegisterMatchesWaiting | server/dist/index.js:111-124 | in a settled state a newcomer either waits alone, told to wait, or is paired with the one waiting user, who is sent `call-initiated` with the newcomer's name |
| Handlers.AdmitConsistent | server/dist/index.js:112-119 | admitting a user with a free name on a fresh connection keeps `Consistent` |
| Handlers.RegisterPreserves | server/dist/index.js:99-125 | `register` keeps `Consistent`, and a state with at most one waiting user keeps at most one |
| Handlers.EndCallIgnored | server/dist/index.js:145-170 | `end-call` from an unregistered or available user changes nothing and sends nothing |
| Handlers.EndCallRequeuesBoth | server/dist/index.js:145-166 | ending a call makes the caller and then the peer available with no peer and appends them in that order; the new state is matchmaking's result on that state, and the whole output is `call-ended-by-peer` to the peer, the "Call with ... ended" notice, the user list, then exactly what matchmaking sends |
| Handlers.EndCallRepairsSamePair | server/dist/index.js:150-166 | with nobody else waiting, `end-call` leaves the state exactly as it was: the same two users are paired again at once, the caller now sent `call-initiated` |
| Handlers.EndCallReleaseConsistent | server/dist/index.js:150-159 | the state `end-call` hands to the matchmaker is consistent |
| Handlers.EndCallPreserves | server/dist/index.js:142-171 | `end-call` keeps `Consistent`, and a state with at most one waiting user keeps at most one |
| Handlers.DisconnectIgnored | server/dist/index.js:173-175 | disconnecting an unregistered connection changes nothing and sends nothing |
| Handlers.DisconnectRemoves | server/dist/index.js:176-181 | after a disconnect the user is gone from the registry, its iteration order and the queue, and the registry's keys are the old keys minus that handle |
| Handlers.DisconnectDequeues | server/dist/index.js:176-200 | a disconnect by a user not in a call deletes it, splices its first queue entry out and changes no other record; the new state is matchmaking's result on that state, and the whole output is the user list followed by exactly what matchmaking sends |
| Handlers.DisconnectFreesPeer | server/dist/index.js:176-200 | a disconnect out of a call deletes the user; the surviving peer, made available, is appended after the departed user's queue entry is spliced out; the new state is matchmaking's result on that state, and the whole output is `call-ended-by-peer` to the peer, the "Your peer (...) disconnected" notice, the user list, then exactly what matchmaking sends |
| Handlers.DisconnectReleaseConsistent | server/dist/index.js:176-192 | the state `disconnect` hands to the matchmaker is consistent, whether or not the user was in a call |
| Handlers.DisconnectPreserves | server/dist/index.js:172-202 | `disconnect` keeps `Consistent`, and a state with at most one waiting user keeps at most one |
| Handlers.DisconnectIdempotent | server/dist/index.js:173-175 | a second disconnect of the same connection changes nothing and sends nothing |
| Handlers.RelayForwardsUnchanged | server/dist/index.js:126-137 | an offer, answer or ICE candidate yields exactly one message, addressed to the named target only, carrying the sender and the payload unchanged; registry and queue are untouched |
| Handlers.EndRoomOnlyCloses | server/dist/index.js:138-141 | `end-room` only closes the caller's connection; the clean-up is the `disconnect` that follows |
| Handlers.ApplyPreserves | server/dist/index.js:99-202 | every event on a consistent state, other than a second `register` from one connection, gives a consistent state and keeps at most one user waiting |
| Handlers.RunPreserves | server/dist/index.js:97-203 | every admissible sequence of events from a consistent state ends in a consistent state: queued handles are registered, available and unique, in-call users point at each other, and at most one user waits if at most one did |
| Server.SignallingServer.constructor | server/dist/index.js:24-26 | the server starts with an empty Map, an empty queue and nothing sent, which satisfies `Valid()` |
| Server.SignallingServer.UpdateUserListForAll | server/dist/index.js:86-96 | one user-list message, the snapshot of the registry in iteration order, is appended to the outbox |
| Server.SignallingServer.AttemptMatchmaking | server/dist/index.js:28-84 | the in-place matchmaker (shift, shift, unshift, recursion) leaves the state and appends the messages given by `Matchmake` |
| Server.SignallingServer.NameTaken | server/dist/index.js:101-110 | the scan over the Map's entries reports a taken name exactly when some registered user has that name |
| Server.SignallingServer.OnRegister | server/dist/index.js:99-125 | the `register` handler leaves the state and appends the messages given by `RegisterStep`, and keeps `Valid()` |
| Server.SignallingServer.Settle | server/dist/index.js:165-166 | broadcasting the user list and then matchmaking appends that list and matchmaking's messages, and leaves matchmaking's state |
| Server.SignallingServer.Conclude | server/dist/index.js:199-200 | after the first half of an event, broadcasting and matchmaking complete the event as `Handlers.Conclude` describes |
| Server.SignallingServer.OnRelay | server/dist/index.js:126-137 | a relay appends exactly the message `RelayStep` gives and changes no state, so `Valid()` carries over |
| Server.SignallingServer.OnEndRoom | server/dist/index.js:138-141 | `end-room` appends exactly one `Close` for the caller and changes no state, so `Valid()` carries over |
| Server.SignallingServer.RequeueUser | server/dist/index.js:150-152 | setting a user available with no peer and pushing it on the queue gives `Requeue` of the old state |
| Server.SignallingServer.FreePeer | server/dist/index.js:186-192 | the surviving peer is sent `call-ended-by-peer`, requeued, then sent the given notice |
| Server.SignallingServer.RemoveUser | server/dist/index.js:176-181 | `users.delete` followed by `indexOf`/`splice` gives `Removed` of the old state |
| Server.SignallingServer.OnEndCall | server/dist/index.js:142-171 | the `end-call` handler leaves the state and appends the messages given by `EndCallStep`, and keeps `Valid()` |
| Server.SignallingServer.OnDisconnect | server/dist/index.js:172-202 | the `disconnect` handler leaves the state and appends the messages given by `DisconnectStep`, and keeps `Valid()` |
| Scenarios.ScenarioAloneWaits | server/dist/index.js:111-124 | alice registering alone is sent "Connected.", the one-entry user list and the waiting notice, and nothing else; no call starts |
| Scenarios.ScenarioAliceBob | server/dist/index.js:31-51 | bob registering after alice: alice is sent `call-initiated("bob", 2)`, bob `call-incoming("alice", 1)`, and both are in a call with each other |
| Scenarios.ScenarioEndCallRepairs | server/dist/index.js:142-171 | alice ending her call with bob: bob is sent `call-ended-by-peer` and the "Call with alice ended" notice, both are queued alice first, and they are paired again at once |
| Scenarios.ScenarioCarolWaits | server/dist/index.js:111-124 | carol registering after that finds nobody waiting and is told to wait |
| Scenarios.ScenarioDavePairsWithCarol | server/dist/index.js:31-51 | dave, registering fourth, is paired with carol, third, not with anyone earlier |
| Scenarios.ScenarioFirstComeFirstPaired | server/dist/index.js:28-51 | registering alice, bob, carol and dave in that order pairs alice with bob and carol with dave, and empties the queue |
| Scenarios.ScenarioDuplicateName | server/dist/index.js:99-125 | dave registering from start-up is stored, available and queued; a second connection registering "dave" is then sent the "already taken" notice and closed, and the state is unchanged |
| Scenarios.ScenarioPeerDrops | server/dist/index.js:172-202 | bob dropping out of his call with alice: alice is sent `call-ended-by-peer` and the "Your peer (bob) disconnected" notice, made available and queued, and told to wait; bob is gone; a second disconnect of bob does nothing |

## Left out

- Transport and plumbing are not modelled: the express application, the HTTP server, socket.io and CORS set-up, the `/` route and `listen` (lines 1-22, 204-209). Only what the handlers emit is modelled, as appends to an outbox.
- Every `console.log` and `console.warn` line is left out, since logging has no effect on state or messages.
- The client files (`client/src/App.tsx`, `client/src/Components/Room.tsx`) are not part of this model. They hold browser UI, media capture and the `RTCPeerConnection` handshake.
- Message delivery is not modelled. Emits are fire-and-forget, so the outbox records what was sent, not what arrived.
- Concurrency is not modelled. Node runs each handler to completion, so each event is one atomic step.
- Matchmaker.Matchmake: requires every queued handle to be registered (`Wellformed`). The source's branch at lines 63-72 for a dequeued handle with no user re-queues both handles and recurses on a queue of the same length, which need not terminate. `Consistent`, kept by every event, makes it unreachable.
- Handlers.RegisterStep: requires that the connection is not registered yet. A second `register` from one connection overwrites its record and queues its handle twice (lines 118-119), which breaks the invariants. `Allowed` and `Admissible` exclude it from runs.
- Handlers.HangUp, Handlers.Leave: each has a branch for an in-call user whose peer is no longer registered (lines 162-164 and 195-197). No lemma describes it on its own, because `PeersSymmetric`, part of `Consistent`, rules it out. The functions still model it: only the user itself is released or removed, and nothing is sent.
- Handlers.DisconnectStep: requires the queue to be duplicate-free. `Consistent` guarantees it, and with it `splice` removes the user's only entry.
- Socket ids are opaque non-empty strings in the source and natural numbers here. The truthiness tests on them (lines 34, 92, 145, 183) are therefore always true for a set id, and `status` and `currentPeerSocketId`, which the source always assigns together, are one `Status` value.
- A record's peer shown in the user list is `null` when there is no peer and `undefined` when the peer is no longer registered (line 92). Both are `None` here.
- The payloads of offers, answers and ICE candidates are opaque strings and are never inspected.
