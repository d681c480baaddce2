# Ground room and ground match, modelled in Dafny

This project models the two WebSocket handlers behind the "ground" room of
the Origins game server:

- **the lobby** (`GroundRService`). It admits up to four connections and
  hands each one the lowest free slot id (0..3). It relays players'
  profiles and ready flags to the other players. It starts the match when
  its ready counter, moved by +1 or -1 on each `OK_PLAYERREADY`, is at
  least 2 and equals `connectedUsers`. It counts `OK_MATCHENDED` reports
  and clears `matchStarted` when that count equals `connectedUsers`.
- **the match** (`GroundMService`). It sends every new connection the
  current dark-matter target and round time. It relays player, points and
  dark-matter events to everyone but the sender. It advances the round
  once as many round-over reports have arrived as there are connections.
  When any of its connections closes, it clears the lobby's
  `matchStarted` flag.

Each handler callback is one atomic method of a class: `GroundRoom.Room`
for the lobby and `GroundMatch.Match` for the match. The match holds a
reference to its lobby object. Both handlers keep the same state as the
Java fields:

- counters;
- the session ids, as a set: in the lobby, the connections admitted and not
  yet cleaned up; in the match, every connection that ever opened, since the
  match never removes one;
- the stored profiles, as a map;
- the four-slot `assignedIds` table, as an `array<string>` updated in place.

Two things stand in for the transport:

- **The outbox.** A sent message is appended to an `outbox` sequence of
  `(recipient, event)` deliveries.
- **The closed set.** A connection the lobby closes is added to `closed`.

A broadcast is the loop over the sessions' concurrent map, which yields
its entries in an order the map picks. It is modelled as a loop that takes
sessions from a pending set in any order (`Protocol.Fanout`). Its
specification (`IsFanout`) says that every recipient gets the event
exactly once and nobody else gets anything. It does not fix an order.

The files:

- `protocol.dfy` (module `Protocol`): decoded inbound messages, outbound
  events, deliveries and the fan-out loop.
- `slots.dfy` (module `Slots`): reference definitions of the slot scans
  (`getId`, `indexOf`), and the occupancy facts the lobby invariant rests
  on.
- `ground_room.dfy` (module `GroundRoom`): the lobby. It includes the
  roster loop of `getPlayerInfos` and the ready-count facts.
- `ground_match.dfy` (module `GroundMatch`): the match and its target
  tables.
- `scenarios.dfy` (module `GroundScenarios`): short sessions replayed
  through the classes' contracts, each with the outcome it must have.

Read against the code's own field comments, some counters do not mean
what their names say. The model states what the code does:

- **The ready counter is not a count of ready players.** The field
  comment on `readyPlayers` (`GroundRService.java:30`) calls it the
  players ready in the lobby. `OK_PLAYERREADY` (`:250-256`) moves it by
  +1 or -1 on the flag sent, whatever flag is already stored, and
  `OK_PLAYERJOIN` (`:177-187`) stores a profile without counting its flag.
  One player sending "ready" twice in a two-player lobby starts the match
  (`RepeatedReadyStartsMatch`). Two players whose stored profiles are both
  ready may never start it (`ReadyJoinerNotCounted`).
  `ReadyStepTracksFlags` states exactly when the counter step matches the
  stored flags. `StartRuleWhenCounterTracksFlags` states what the start
  rule would mean if it did: at least two players, all of them ready.
- **A connection that closes before sending a profile keeps its slot.**
  `afterConnectionClosed` (`:73`) cleans up only a session with a stored
  profile, so `connectedUsers`, the users connected to the room by its
  field comment (`:27`), still counts it. Four such connections keep the
  lobby full for good (`SilentLeaverKeepsSlot`).
- **The two barriers count reports, not players.** `OK_ROUNDSTATE`
  (`GroundMService.java:103-114`) and the lobby's `OK_MATCHENDED`
  (`GroundRService.java:121-134`) raise a counter without checking who
  sent the report. One player reporting the round over twice advances a
  two-player round (`RepeatedRoundReportAdvances`). One player reporting
  the match over twice clears `matchStarted` in a two-player lobby
  (`RepeatedMatchEndClearsFlag`).
- **The finish counter survives a departure.** A profiled player who
  leaves lowers `connectedUsers` but not `finishedUsers`, and the barrier
  tests equality (`:127`). With two of three reports in, a departure and
  one more report take the counter to 3 against 2 connected users, so the
  lobby does not clear `matchStarted` (`LeaverOvershootsFinishBarrier`).
- **The roster comes in map order.** `getPlayerInfos` (`:363-377`)
  iterates a concurrent map, so the model specifies the roster as every
  stored profile once, in any order (`IsRoster`). No scenario fixes an
  order.
- **Of the two disconnect handlers, only the match's clears
  `matchStarted`.** A lobby disconnect leaves the flag as it is; the
  lobby otherwise clears it only when its count of `OK_MATCHENDED`
  reports equals `connectedUsers` (`:127-133`).

## Model

| member | source | states |
|---|---|---|
| Protocol.Fanout | java/es/armoonys/origins/rooms/ground/GroundRService.java:189-196 | the broadcast loop over the session map sends the event once to every session not excluded and to nobody else, whatever order the map yields |
| Protocol.FanoutSize | java/es/armoonys/origins/rooms/ground/GroundRService.java:212-218 | a broadcast sends exactly one message per recipient |
| Protocol.EnumerationSize | java/es/armoonys/origins/rooms/ground/GroundRService.java:365-376 | a loop that visits every entry of a map once produces one item per entry |
| Protocol.CodesDistinct | java/es/armoonys/origins/rooms/ground/GroundRService.java:109-137 | the three lobby codes, and the four match codes, are pairwise different, so each switch takes at most one case |
| Slots.EqualsIgnoreCase | java/es/armoonys/origins/rooms/ground/GroundRService.java:346 | the comparison `indexOf` uses: the two ids fold to the same string under ASCII case folding; what that means character by character is stated by `EqualsIgnoreCaseCharwise` |
| Slots.EqualsIgnoreCaseCharwise | java/es/armoonys/origins/rooms/ground/GroundRService.java:346 | two ids match ignoring case exactly when they have the same length and every pair of characters is equal once folded to one case |
| Slots.LowestFree | java/es/armoonys/origins/rooms/ground/GroundRService.java:313-332 | the slot `getId` picks is the lowest free one; -1 exactly when all four are held |
| Slots.SlotOf | java/es/armoonys/origins/rooms/ground/GroundRService.java:339-356 | the slot `indexOf` finds is the first whose holder equals the id ignoring case; -1 exactly when none does |
| Slots.OccupiedCount | java/es/armoonys/origins/rooms/ground/GroundRService.java:27-32 | the number of held slots is at most four, and is four exactly when no slot is free |
| Slots.FreeMatchesOnlyEmpty | java/es/armoonys/origins/rooms/ground/GroundRService.java:346 | a non-empty session id never equals a free slot's `""`, ignoring case |
| Slots.OccupantsCount | java/es/armoonys/origins/rooms/ground/GroundRService.java:48-58 | with holders that `indexOf` can tell apart, the number of holders is the number of held slots |
| Slots.FreeSlotWhenNotFull | java/es/armoonys/origins/rooms/ground/GroundRService.java:318-327 | when fewer than four slots are held, `getId` finds a free slot |
| Slots.SlotOfHolder | java/es/armoonys/origins/rooms/ground/GroundRService.java:339-356 | `indexOf` finds a holder at its own slot when holders are distinct |
| Slots.ClaimSlot | java/es/armoonys/origins/rooms/ground/GroundRService.java:320-324 | writing a fresh id into a free slot adds exactly that id to the holders, keeps them distinct and raises the count by one |
| Slots.ClaimLowestFree | java/es/armoonys/origins/rooms/ground/GroundRService.java:54-58 | an admitted id takes the lowest free slot and becomes one more distinct holder |
| Slots.ReleaseSlot | java/es/armoonys/origins/rooms/ground/GroundRService.java:150 | writing `""` into a held slot removes exactly its holder, keeps the rest distinct and lowers the count by one |
| Slots.ReleaseHolder | java/es/armoonys/origins/rooms/ground/GroundRService.java:145-153 | a leaving holder is found at its own slot, and freeing that slot removes exactly that holder |
| Slots.OccupiedCountUpdate | java/es/armoonys/origins/rooms/ground/GroundRService.java:150 | overwriting one slot changes the count only by the change in that slot |
| GroundRoom.StartsMatch | java/es/armoonys/origins/rooms/ground/GroundRService.java:260 | the start rule checked after each readiness update: the ready counter is at least 2 and equals `connectedUsers`; what that means is stated by `StartRuleWhenCounterTracksFlags` |
| GroundRoom.StartRuleWhenCounterTracksFlags | java/es/armoonys/origins/rooms/ground/GroundRService.java:258-263 | if the counter equalled the number of ready profiles and every connected user had a profile, the start rule would hold exactly when at least two profiles are stored and all are ready |
| GroundRoom.CollectPlayerInfos | java/es/armoonys/origins/rooms/ground/GroundRService.java:363-377 | the roster sent to the joiner is one `OK_GETPLAYERS` per stored profile, each once, in map order |
| GroundRoom.RosterSize | java/es/armoonys/origins/rooms/ground/GroundRService.java:363-377 | the roster has as many messages as there are stored profiles |
| GroundRoom.ReadyCountAfterStore | java/es/armoonys/origins/rooms/ground/GroundRService.java:236-238 | replacing a stored profile changes the number of ready profiles by the new flag minus the old one |
| GroundRoom.ReadyCountAfterRemove | java/es/armoonys/origins/rooms/ground/GroundRService.java:77-80 | forgetting a profile lowers the number of ready profiles exactly when its flag was set, as `readyPlayers--` does |
| GroundRoom.ReadyStepTracksFlags | java/es/armoonys/origins/rooms/ground/GroundRService.java:250-256 | the ±1 step of `readyPlayers` equals the change in ready profiles if and only if the flag sent differs from the stored one |
| GroundRoom.ConnectedUsersCountSlots | java/es/armoonys/origins/rooms/ground/GroundRService.java:27-32 | under the lobby invariant `connectedUsers` equals the number of held slots and stays within 0..4 |
| GroundRoom.Room.constructor | java/es/armoonys/origins/rooms/ground/GroundRService.java:21-36 | a new lobby has four free slots, no sessions or profiles, zero counters and no match started |
| GroundRoom.Room.AfterConnectionEstablished | java/es/armoonys/origins/rooms/ground/GroundRService.java:46-62 | refused exactly when full or the match has started: the refusal code is sent, the session is closed and nothing else changes; otherwise the session takes the lowest free slot, the count rises by one and it alone is sent `OK_ROOMCONN` with that slot |
| GroundRoom.Room.AfterConnectionClosed | java/es/armoonys/origins/rooms/ground/GroundRService.java:71-92 | without a stored profile nothing changes; with one, the count drops by one, `readyPlayers` drops iff the stored flag was set, every other session gets `OK_PLAYERDISC` with the leaver's slot, and the slot, session and profile are released |
| GroundRoom.Room.HandleTextMessage | java/es/armoonys/origins/rooms/ground/GroundRService.java:101-138 | JOIN: the roster of the profiles stored before, then the profile to everyone else; READY: the profile replaced and relayed, the ±1 step, and `OK_STARTMATCH` to everyone exactly when the start rule holds; MATCHENDED: the finish barrier that resets the counter and clears `matchStarted`; any other code changes nothing |
| GroundRoom.Room.RemovePlayerInfo | java/es/armoonys/origins/rooms/ground/GroundRService.java:145-153 | the session's slot becomes free and the session and its profile are forgotten |
| GroundRoom.Room.NotifyAccess | java/es/armoonys/origins/rooms/ground/GroundRService.java:161-169 | the lowest free slot is claimed and only the connecting session is told its id |
| GroundRoom.Room.NotifyNewPlayer | java/es/armoonys/origins/rooms/ground/GroundRService.java:177-197 | the joiner's profile is stored and relayed to every other session |
| GroundRoom.Room.NotifyRemovePlayer | java/es/armoonys/origins/rooms/ground/GroundRService.java:205-219 | every other session is sent `OK_PLAYERDISC` with the leaver's slot id |
| GroundRoom.Room.NotifyPlayerReady | java/es/armoonys/origins/rooms/ground/GroundRService.java:227-264 | the profile is replaced and relayed to the others, the counter steps by the flag, and the match starts exactly when at least two and all connected are counted ready |
| GroundRoom.Room.NotifyStartMatch | java/es/armoonys/origins/rooms/ground/GroundRService.java:270-283 | `matchStarted` is set and every session, the sender included, is sent `OK_STARTMATCH` with the connected count |
| GroundRoom.Room.NotifyAndCloseConnection | java/es/armoonys/origins/rooms/ground/GroundRService.java:290-306 | the session is sent `Error_MAXUSERS` when full, else `Error_MATCHSTARTED` when started, else an object with no code, and is then closed |
| GroundRoom.Room.GetId | java/es/armoonys/origins/rooms/ground/GroundRService.java:313-332 | returns the lowest free slot and writes the session there; -1 and no change when all are held |
| GroundRoom.Room.IndexOf | java/es/armoonys/origins/rooms/ground/GroundRService.java:339-356 | returns the first slot whose holder equals the id ignoring case, or -1 |
| GroundRoom.Room.GetPlayerInfos | java/es/armoonys/origins/rooms/ground/GroundRService.java:363-377 | the session is sent the roster of the stored profiles and nothing else |
| GroundMatch.MatterX | java/es/armoonys/origins/rooms/ground/GroundMService.java:292-298 | `getMatterPosX` returns the x of one of the four listed targets |
| GroundMatch.MatterY | java/es/armoonys/origins/rooms/ground/GroundMService.java:304-310 | `getMatterPosY` returns the y of one of the four listed targets |
| GroundMatch.TargetIsListed | java/es/armoonys/origins/rooms/ground/GroundMService.java:292-310 | reading both tables at one index in 0..3 always gives one of the four listed targets |
| GroundMatch.Match.constructor | java/es/armoonys/origins/rooms/ground/GroundMService.java:35-43 | the target is read from the drawn index, the round time is 30, the lobby is linked and the counters are zero |
| GroundMatch.Match.AfterConnectionEstablished | java/es/armoonys/origins/rooms/ground/GroundMService.java:53-60 | the session is registered, the count rises by one and only that session is sent `OK_INITIALSTATE` with the current target and round time |
| GroundMatch.Match.AfterConnectionClosed | java/es/armoonys/origins/rooms/ground/GroundMService.java:69-72 | the linked lobby's `matchStarted` becomes false and nothing else changes, so the match never loses a connection |
| GroundMatch.Match.HandleTextMessage | java/es/armoonys/origins/rooms/ground/GroundMService.java:81-116 | the three relay codes go to everyone but the sender with no state change; ROUNDSTATE raises the counter and, when it reaches the connection count, draws a new target, resets the time to 30 and the counter to 0 and tells everyone; any other code changes nothing |
| GroundMatch.Match.NotifyInitialState | java/es/armoonys/origins/rooms/ground/GroundMService.java:124-134 | one `OK_INITIALSTATE` with the current target and round time goes to the given session |
| GroundMatch.Match.NotifyRoundState | java/es/armoonys/origins/rooms/ground/GroundMService.java:141-160 | the drawn index sets the new target and the round time is 30; every session is sent the new round |
| GroundMatch.Match.NotifyPlayerUpdate | java/es/armoonys/origins/rooms/ground/GroundMService.java:168-184 | `OK_PLAYERINFO` with the sender's `userID` as `userId`, the victim and the key goes to every other session |
| GroundMatch.Match.NotifyPointsUpdate | java/es/armoonys/origins/rooms/ground/GroundMService.java:192-207 | `OK_POINTSINFO` with the user and points goes to every other session |
| GroundMatch.Match.NotifyDarkMTaken | java/es/armoonys/origins/rooms/ground/GroundMService.java:215-229 | `OK_TAKEDM` with the taker goes to every other session |
| GroundMatch.Match.NotifyEndRound | java/es/armoonys/origins/rooms/ground/GroundMService.java:238-246 | exactly one `OK_ENDROUNDINFO` with the winner goes to the given session and nothing else changes |
| GroundScenarios.CapacityIsFour | java/es/armoonys/origins/rooms/ground/GroundRService.java:46-58 | with three players in, a fourth is admitted to the free slot and a fifth is sent `Error_MAXUSERS` and closed |
| GroundScenarios.LeaveFullLobby | java/es/armoonys/origins/rooms/ground/GroundRService.java:71-92 | a profiled player leaving a full lobby leaves its slot as the lowest, and only, free one |
| GroundScenarios.FreedSlotIsReused | java/es/armoonys/origins/rooms/ground/GroundRService.java:313-332 | in a full lobby, the next newcomer gets the slot of the player who left |
| GroundScenarios.SilentLeaverKeepsSlot | java/es/armoonys/origins/rooms/ground/GroundRService.java:71-73 | a connection closed before sending a profile keeps its session and its slot (the slot table is unchanged and the lobby invariant holds), so a full lobby still refuses a newcomer |
| GroundScenarios.QuorumIsEveryone | java/es/armoonys/origins/rooms/ground/GroundRService.java:250-263 | with three connected, the first two ready flags append only `OK_PLAYERREADY` relays and do not start the match; the third is relayed to the other two and then followed by `OK_STARTMATCH` with 3 to every session |
| GroundScenarios.RepeatedReadyStartsMatch | java/es/armoonys/origins/rooms/ground/GroundRService.java:250-263 | one of two players sending ready twice starts the match with only one ready profile stored |
| GroundScenarios.ReadyJoinerNotCounted | java/es/armoonys/origins/rooms/ground/GroundRService.java:177-187 | a profile joined as ready is not counted, so two ready profiles in a two-player lobby leave the counter at one and the match not started |
| GroundScenarios.RepeatedMatchEndClearsFlag | java/es/armoonys/origins/rooms/ground/GroundRService.java:121-134 | in a two-player lobby one player reporting the match over twice clears `matchStarted`, resets the counter and sends nothing |
| GroundScenarios.LeaverOvershootsFinishBarrier | java/es/armoonys/origins/rooms/ground/GroundRService.java:71-80 | with two of three reports in, a profiled player leaving and one more report leave `finishedUsers` at 3 against 2 connected users and the match still started |
| GroundScenarios.RepeatedRoundReportAdvances | java/es/armoonys/origins/rooms/ground/GroundMService.java:103-114 | in a two-player match one player reporting the round over twice advances the round and tells every session |

## Left out

- The WebSocket transport is not modelled. `sendMessage` is an append to the outbox, and `session.close()` adds the session to `closed`. A failed send is not modelled: every send succeeds. Closed sessions can stay mapped: the lobby keeps a connection that closed without a profile (`GroundRService.java:73`), and the match never removes any (`GroundMService.java:69-72`). In Java a broadcast that reaches such a session would make `sendMessage` throw mid-loop and skip the rest of the handler, so the `IsFanout` guarantees hold only while every mapped session is open.
- JSON parsing and serialising is not modelled. Inbound messages arrive decoded as `LobbyMessage` and `MatchMessage`. A missing field, which throws in `node.get(...)`, is not modelled.
- `getRandomIndex` is not modelled because it uses `Math.random()`. Its result is the parameter `r` in 0..3 of the match constructor and of the handlers that draw a new target.
- `notifyTimeUpdate` and the `busy` flag are left out: a spin-wait whose only purpose is concurrency, and nothing calls it.
- Concurrency between connection handlers is not modelled, including the unsynchronised `++`/`--` on the counters. Each callback is one atomic step.
- `System.out.println` logging is left out.
- `UserService`, `ChatService` and `OriginsApplication` are not part of this model. The shared lobby object that `OriginsApplication` passes to the match is the `roomObj` reference.
- Slots.EqualsIgnoreCase: models `equalsIgnoreCase` with ASCII case folding only; Unicode case mapping is not modelled.
- Slots.LowestFree: `assignedIds[i] == ""` is reference equality in Java. It works because every `""` in the class is the same interned literal, so the model uses value equality.
- GroundRoom.Room.AfterConnectionEstablished: requires a session id that is not empty and is unlike every mapped one ignoring case. The transport hands out distinct ids, and the model does not cover an id that would collide under `indexOf`.
- GroundRoom.Room.HandleTextMessage: requires the sender to be a mapped session. Messages that race a refusal or a close are concurrency, which is not modelled.
- GroundMatch.Match.AfterConnectionEstablished: requires a session id not yet registered. With a repeated id the map would keep one entry while `connectedUsers` still rose.
- GroundMatch.Match.HandleTextMessage: requires the sender to be a registered session, for the same reason as the lobby.
- GroundMatch.Match.Valid: keeps `finishedUsers` below `connectedUsers` (or at 0). This holds only because the match never loses a connection and the counter starts at 0.
