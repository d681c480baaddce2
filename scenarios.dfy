/**
 * Short sessions replayed against the lobby and match classes, using
 * nothing but the classes' contracts, each stating what must come out of
 * it. Some confirm the handlers' rules (capacity, slot reuse, the start
 * rule); others show where the counters stop meaning what their names say
 * (a repeated ready flag, a profile joined as ready, a repeated round-over
 * report) and where a closed connection keeps its slot because it never
 * sent a profile.
 */
module GroundScenarios {
  import opened Protocol
  import opened Slots
  import opened GroundRoom
  import opened GroundMatch

  /** With three players in, a fourth is admitted and a fifth is refused with Error_MAXUSERS. */
  method CapacityIsFour(room: Room, a: SessionId, b: SessionId)
    requires room.Valid() && !room.matchStarted && room.connectedUsers == 3
    requires room.FreshSession(a) && room.FreshSession(b) && !EqualsIgnoreCase(b, a)
    modifies room`connectedUsers, room`sessions, room`outbox, room`closed, room.assignedIds
    ensures room.Valid()
    ensures room.connectedUsers == MaxUsers && room.sessions == old(room.sessions) + {a}
    ensures room.outbox == old(room.outbox) + [Delivery(a, RoomConn(LowestFree(old(room.assignedIds[..])))),
                                                Delivery(b, ErrorMaxUsers)]
    ensures room.closed == old(room.closed) + {b}
  {
    room.AfterConnectionEstablished(a);
    room.AfterConnectionEstablished(b);
  }

  /** Freeing one slot of a full table makes it the lowest free slot. */
  lemma OnlyFreedSlot(slots: seq<string>, i: int)
    requires OccupiedCount(slots) == |slots| && 0 <= i < |slots|
    ensures LowestFree(slots[i := Free]) == i
  {
    assert slots[i := Free][i] == Free;
  }

  /** A player who leaves a full lobby leaves its slot as the only free one. */
  method LeaveFullLobby(room: Room, leaving: SessionId)
    requires room.Valid() && room.connectedUsers == MaxUsers && leaving in room.playerInfos
    modifies room`connectedUsers, room`readyPlayers, room`sessions, room`playerInfos, room`outbox, room.assignedIds
    ensures room.Valid() && room.connectedUsers == MaxUsers - 1
    ensures room.sessions == old(room.sessions) - {leaving}
    ensures var slot := SlotOf(old(room.assignedIds[..]), leaving);
      && room.assignedIds[..] == old(room.assignedIds[..])[slot := Free]
      && LowestFree(room.assignedIds[..]) == slot
  {
    ConnectedUsersCountSlots(room);
    ghost var before := room.assignedIds[..];
    room.AfterConnectionClosed(leaving);
    OnlyFreedSlot(before, SlotOf(before, leaving));
  }

  /** In a full lobby, the slot of a player who leaves is the one the next newcomer gets. */
  method FreedSlotIsReused(room: Room, leaving: SessionId, joining: SessionId)
    requires room.Valid() && !room.matchStarted && room.connectedUsers == MaxUsers
    requires leaving in room.playerInfos && room.FreshSession(joining)
    modifies room`connectedUsers, room`readyPlayers, room`sessions, room`playerInfos, room`outbox, room`closed
    modifies room.assignedIds
    ensures room.Valid() && room.connectedUsers == MaxUsers
    ensures room.sessions == old(room.sessions) - {leaving} + {joining}
    ensures var slot := SlotOf(old(room.assignedIds[..]), leaving);
      && 0 <= slot < MaxUsers && room.assignedIds[slot] == joining
      && |room.outbox| > 0 && room.outbox[|room.outbox| - 1] == Delivery(joining, RoomConn(slot))
  {
    LeaveFullLobby(room, leaving);
    assert room.FreshSession(joining);
    room.AfterConnectionEstablished(joining);
  }

  /**
   * A connection that closes before sending a profile keeps its slot and
   * its session, so with four such connections the lobby stays full and
   * turns a newcomer away.
   */
  method SilentLeaverKeepsSlot(room: Room, silent: SessionId, newcomer: SessionId)
    requires room.Valid() && room.connectedUsers == MaxUsers
    requires silent in room.sessions && silent !in room.playerInfos && room.FreshSession(newcomer)
    modifies room`connectedUsers, room`readyPlayers, room`sessions, room`playerInfos, room`outbox, room`closed
    modifies room.assignedIds
    ensures room.Valid() && room.assignedIds[..] == old(room.assignedIds[..])
    ensures silent in room.sessions && room.connectedUsers == MaxUsers
    ensures room.outbox == old(room.outbox) + [Delivery(newcomer, ErrorMaxUsers)]
    ensures newcomer in room.closed
  {
    room.AfterConnectionClosed(silent);
    room.AfterConnectionEstablished(newcomer);
  }

  /** Two OK_PLAYERREADY relays appended to an outbox add nothing but OK_PLAYERREADY messages. */
  lemma OnlyReadyRelays(before: seq<Delivery>, relayA: seq<Delivery>, relayB: seq<Delivery>,
                        toA: set<SessionId>, toB: set<SessionId>, pa: PlayerInfo, pb: PlayerInfo)
    requires IsFanout(relayA, toA, PlayerReady(pa)) && IsFanout(relayB, toB, PlayerReady(pb))
    ensures var all := before + relayA + relayB;
      forall i | |before| <= i < |all| :: all[i].event.PlayerReady?
  {
    var all := before + relayA + relayB;
    forall i | |before| <= i < |all| ensures all[i].event.PlayerReady? {
      if i < |before| + |relayA| {
        assert all[i] == relayA[i - |before|];
      } else {
        assert all[i] == relayB[i - |before| - |relayA|];
      }
    }
  }

  /**
   * With three players connected, two ready flags send only OK_PLAYERREADY
   * relays and do not start the match; the third is relayed and then
   * followed by OK_STARTMATCH with three players to every session.
   * `beforeThird` is the outbox just before the third flag.
   */
  method QuorumIsEveryone(room: Room, a: SessionId, b: SessionId, c: SessionId,
                          pa: PlayerInfo, pb: PlayerInfo, pc: PlayerInfo)
    returns (ghost beforeThird: seq<Delivery>)
    requires room.Valid() && !room.matchStarted && room.connectedUsers == 3 && room.readyPlayers == 0
    requires a in room.sessions && b in room.sessions && c in room.sessions
    requires pa.playerReady && pb.playerReady && pc.playerReady
    modifies room`playerInfos, room`readyPlayers, room`finishedUsers, room`matchStarted, room`outbox
    ensures room.matchStarted && room.readyPlayers == 3
    ensures Extends(old(room.outbox), beforeThird)
    ensures forall i | |old(room.outbox)| <= i < |beforeThird| :: beforeThird[i].event.PlayerReady?
    ensures exists relay, start :: ReadyAnswered(beforeThird, room.outbox, relay, start, room.sessions, c, pc, true, 3)
  {
    CodesDistinct();
    ghost var before := room.outbox;
    room.HandleTextMessage(a, LobbyMessage(PlayerReadyCode, pa));
    assert room.readyPlayers == 1 && !room.matchStarted;
    ghost var relayA, startA :| ReadyAnswered(before, room.outbox, relayA, startA, room.sessions, a, pa, false, 3);
    ghost var afterA := room.outbox;
    room.HandleTextMessage(b, LobbyMessage(PlayerReadyCode, pb));
    assert room.readyPlayers == 2 && !room.matchStarted;
    ghost var relayB, startB :| ReadyAnswered(afterA, room.outbox, relayB, startB, room.sessions, b, pb, false, 3);
    beforeThird := room.outbox;
    OnlyReadyRelays(before, relayA, relayB, room.sessions - {a}, room.sessions - {b}, pa, pb);
    room.HandleTextMessage(c, LobbyMessage(PlayerReadyCode, pc));
  }

  /**
   * One of two players sends its ready flag twice: the counter reaches two
   * and the match starts, though only one stored profile is ready.
   */
  method RepeatedReadyStartsMatch(room: Room, s: SessionId, p: PlayerInfo)
    requires room.Valid() && !room.matchStarted && room.connectedUsers == 2 && room.readyPlayers == 0
    requires room.playerInfos == map[]
    requires s in room.sessions && p.playerReady
    modifies room`playerInfos, room`readyPlayers, room`finishedUsers, room`matchStarted, room`outbox
    ensures room.matchStarted && room.readyPlayers == 2
    ensures ReadyCount(room.playerInfos) == 1 < room.connectedUsers
  {
    CodesDistinct();
    assert ReadyCount(map[]) == 0;
    room.HandleTextMessage(s, LobbyMessage(PlayerReadyCode, p));
    ReadyCountAfterStore(old(room.playerInfos), s, p);
    ghost var once := room.playerInfos;
    room.HandleTextMessage(s, LobbyMessage(PlayerReadyCode, p));
    ReadyCountAfterStore(once, s, p);
  }

  /**
   * A player who joins with its profile already flagged ready is not
   * counted: when the other player then sends ready, both stored profiles
   * are ready but the counter is one and the match does not start.
   */
  method ReadyJoinerNotCounted(room: Room, a: SessionId, b: SessionId, pa: PlayerInfo, pb: PlayerInfo)
    requires room.Valid() && !room.matchStarted && room.connectedUsers == 2 && room.readyPlayers == 0
    requires room.playerInfos == map[]
    requires a in room.sessions && b in room.sessions && a != b
    requires pa.playerReady && pb.playerReady
    modifies room`playerInfos, room`readyPlayers, room`finishedUsers, room`matchStarted, room`outbox
    ensures ReadyCount(room.playerInfos) == room.connectedUsers == 2
    ensures room.readyPlayers == 1 && !room.matchStarted
  {
    CodesDistinct();
    assert ReadyCount(map[]) == 0;
    room.HandleTextMessage(a, LobbyMessage(PlayerJoinCode, pa));
    ReadyCountAfterStore(map[], a, pa);
    ghost var joined := room.playerInfos;
    room.HandleTextMessage(b, LobbyMessage(PlayerReadyCode, pb));
    ReadyCountAfterStore(joined, b, pb);
  }

  /**
   * In a two-player lobby, one player reporting the match over twice is
   * enough to clear `matchStarted` and reset the finish counter.
   */
  method RepeatedMatchEndClearsFlag(room: Room, s: SessionId, message: LobbyMessage)
    requires room.Valid() && room.matchStarted && room.connectedUsers == 2 && room.finishedUsers == 0
    requires s in room.sessions && message.code == MatchEndedCode
    modifies room`playerInfos, room`readyPlayers, room`finishedUsers, room`matchStarted, room`outbox
    ensures !room.matchStarted && room.finishedUsers == 0
    ensures room.outbox == old(room.outbox)
  {
    CodesDistinct();
    room.HandleTextMessage(s, message);
    room.HandleTextMessage(s, message);
  }

  /**
   * A profiled player who leaves once two of three have reported the match
   * over lowers `connectedUsers` but not the finish counter: the next report
   * takes the counter past `connectedUsers`, so the equality that clears
   * `matchStarted` is missed.
   */
  method LeaverOvershootsFinishBarrier(room: Room, leaving: SessionId, s: SessionId, message: LobbyMessage)
    requires room.Valid() && room.matchStarted && room.connectedUsers == 3 && room.finishedUsers == 2
    requires leaving in room.playerInfos && s in room.sessions && s != leaving
    requires message.code == MatchEndedCode
    modifies room`connectedUsers, room`readyPlayers, room`sessions, room`playerInfos, room`finishedUsers
    modifies room`matchStarted, room`outbox, room.assignedIds
    ensures room.finishedUsers == 3 && room.connectedUsers == 2 && room.matchStarted
  {
    CodesDistinct();
    room.AfterConnectionClosed(leaving);
    room.HandleTextMessage(s, message);
  }

  /**
   * In a two-player match, one player reporting the round over twice is
   * enough to advance the round: the counter resets and every session is
   * sent the new target.
   */
  method RepeatedRoundReportAdvances(m: Match, s: SessionId, message: MatchMessage, r: int)
    requires m.Valid() && m.connectedUsers == 2 && m.finishedUsers == 0 && s in m.sessions
    requires message.code == RoundStateCode && 0 <= r < 4
    modifies m`finishedUsers, m`rIdx, m`matterPosX, m`matterPosY, m`roundTime, m`outbox
    ensures m.finishedUsers == 0 && m.rIdx == r
    ensures Extends(old(m.outbox), m.outbox)
    ensures IsFanout(m.outbox[|old(m.outbox)|..], m.sessions, RoundState(AllX[r], AllY[r], RoundTime))
  {
    CodesDistinct();
    m.HandleTextMessage(s, message, r);
    m.HandleTextMessage(s, message, r);
  }
}
