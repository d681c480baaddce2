/**
 * The ground lobby (`GroundRService`): admits up to four connections, hands
 * each a slot id, relays profiles and readiness between the players, starts
 * the match when its ready counter, moved by +1 or -1 on each
 * OK_PLAYERREADY, is at least 2 and equals `connectedUsers`, and counts
 * OK_MATCHENDED reports, clearing `matchStarted` when that count equals
 * `connectedUsers`.
 *
 * Each WebSocket callback is one atomic method of `Room`. Sending a message
 * appends to `outbox`; closing a connection adds it to `closed`.
 */
module GroundRoom {
  import opened Protocol
  import opened Slots

  /** The lobby's capacity (`MAX_USERS`). */
  const MaxUsers: int := 4

  /** The start rule checked after every readiness update. */
  predicate StartsMatch(readyPlayers: int, connectedUsers: int)
  {
    readyPlayers >= 2 && readyPlayers == connectedUsers
  }

  /**
   * `ds` unicasts to `to` one OK_GETPLAYERS per stored profile, following
   * `order`, which lists every key of `infos` once.
   */
  ghost predicate RosterInOrder(ds: seq<Delivery>, to: SessionId, infos: map<SessionId, PlayerInfo>, order: seq<SessionId>)
  {
    && |order| == |ds|
    && (forall i, j | 0 <= i < j < |order| :: order[i] != order[j])
    && (forall k | k in infos :: k in order)
    && (forall i | 0 <= i < |ds| :: order[i] in infos && ds[i] == Delivery(to, GetPlayers(infos[order[i]])))
  }

  /** `ds` is the roster of `infos` sent to `to`, in the order the map yields its entries. */
  ghost predicate IsRoster(ds: seq<Delivery>, to: SessionId, infos: map<SessionId, PlayerInfo>)
  {
    exists order: seq<SessionId> :: RosterInOrder(ds, to, infos, order)
  }

  /**
   * `after` is `before` followed by the answer to OK_PLAYERJOIN: the roster
   * of `infos` sent to the joiner, then its profile relayed to everyone else.
   */
  ghost predicate JoinAnswered(before: seq<Delivery>, after: seq<Delivery>, roster: seq<Delivery>, relay: seq<Delivery>,
                               sessions: set<SessionId>, session: SessionId, infos: map<SessionId, PlayerInfo>, player: PlayerInfo)
  {
    && after == before + roster + relay
    && IsRoster(roster, session, infos)
    && IsFanout(relay, sessions - {session}, PlayerJoin(player))
  }

  /**
   * `after` is `before` followed by the answer to OK_PLAYERREADY: the
   * profile relayed to everyone but the sender, then, when `starts`,
   * OK_STARTMATCH for `players` players sent to everyone.
   */
  ghost predicate ReadyAnswered(before: seq<Delivery>, after: seq<Delivery>, relay: seq<Delivery>, start: seq<Delivery>,
                                sessions: set<SessionId>, session: SessionId, player: PlayerInfo, starts: bool, players: int)
  {
    && after == before + relay + start
    && IsFanout(relay, sessions - {session}, PlayerReady(player))
    && if starts then IsFanout(start, sessions, StartMatch(players)) else start == []
  }

  /** The loop of `getPlayerInfos` over the stored profiles. */
  method CollectPlayerInfos(session: SessionId, playerInfos: map<SessionId, PlayerInfo>) returns (ds: seq<Delivery>)
    ensures IsRoster(ds, session, playerInfos)
  {
    ds := [];
    ghost var order: seq<SessionId> := [];
    var pending := playerInfos.Keys;
    while pending != {}
      invariant pending <= playerInfos.Keys
      invariant |order| == |ds|
      invariant forall i, j | 0 <= i < j < |order| :: order[i] != order[j]
      invariant forall i | 0 <= i < |order| :: order[i] !in pending
      invariant forall k | k in playerInfos && k !in pending :: k in order
      invariant forall i | 0 <= i < |ds| :: order[i] in playerInfos && ds[i] == Delivery(session, GetPlayers(playerInfos[order[i]]))
      decreases pending
    {
      var key :| key in pending;
      ds := ds + [Delivery(session, GetPlayers(playerInfos[key]))];
      order := order + [key];
      pending := pending - {key};
    }
    assert RosterInOrder(ds, session, playerInfos, order);
  }

  /** A roster has one message per stored profile. */
  lemma RosterSize(ds: seq<Delivery>, to: SessionId, infos: map<SessionId, PlayerInfo>)
    requires IsRoster(ds, to, infos)
    ensures |ds| == |infos|
  {
    var order :| RosterInOrder(ds, to, infos, order);
    EnumerationSize(order, infos.Keys);
  }

  /** The sessions whose stored profile is flagged ready. */
  ghost function ReadySet(infos: map<SessionId, PlayerInfo>): set<SessionId>
  {
    set s | s in infos && infos[s].playerReady
  }

  /** The number of stored profiles flagged ready: what `readyPlayers` counts by its field comment. */
  ghost function ReadyCount(infos: map<SessionId, PlayerInfo>): nat
  {
    |ReadySet(infos)|
  }

  /**
   * Read with a counter that tracks the stored flags exactly, and with a
   * profile stored for every connected user, the start rule says: at least
   * two players, and every one of them ready.
   */
  lemma StartRuleWhenCounterTracksFlags(infos: map<SessionId, PlayerInfo>, readyPlayers: int, connectedUsers: int)
    requires readyPlayers == ReadyCount(infos) && connectedUsers == |infos|
    ensures StartsMatch(readyPlayers, connectedUsers)
        <==> 2 <= |infos| && forall s | s in infos :: infos[s].playerReady
  {
    if forall s | s in infos :: infos[s].playerReady {
      assert ReadySet(infos) == infos.Keys;
    } else {
      var k :| k in infos && !infos[k].playerReady;
      assert ReadySet(infos) <= infos.Keys - {k};
      SubsetSize(ReadySet(infos), infos.Keys - {k});
    }
  }

  lemma {:induction false} SubsetSize<T>(a: set<T>, b: set<T>)
    requires a <= b
    ensures |a| <= |b|
  {
    if a != {} {
      var x :| x in a;
      SubsetSize(a - {x}, b - {x});
    }
  }

  /** Storing profile `p` for `s` takes `s` out of the ready set and puts it back when `p` is ready. */
  lemma ReadySetAfterStore(infos: map<SessionId, PlayerInfo>, s: SessionId, p: PlayerInfo)
    ensures ReadySet(infos[s := p]) == (ReadySet(infos) - {s}) + (if p.playerReady then {s} else {})
  {
  }

  /** Storing profile `p` for `s` moves the ready count by the change of `s`'s flag. */
  lemma ReadyCountAfterStore(infos: map<SessionId, PlayerInfo>, s: SessionId, p: PlayerInfo)
    ensures ReadyCount(infos[s := p])
         == ReadyCount(infos) - (if s in infos && infos[s].playerReady then 1 else 0) + (if p.playerReady then 1 else 0)
  {
    ReadySetAfterStore(infos, s, p);
    var kept := ReadySet(infos) - {s};
    assert s in ReadySet(infos) <==> s in infos && infos[s].playerReady;
    assert |kept| == |ReadySet(infos)| - (if s in ReadySet(infos) then 1 else 0);
    assert s !in kept;
  }

  /** Forgetting `s` lowers the ready count exactly when `s`'s stored flag was set. */
  lemma ReadyCountAfterRemove(infos: map<SessionId, PlayerInfo>, s: SessionId)
    requires s in infos
    ensures ReadyCount(infos - {s}) == ReadyCount(infos) - (if infos[s].playerReady then 1 else 0)
  {
    assert ReadySet(infos - {s}) == ReadySet(infos) - {s};
  }

  /**
   * OK_PLAYERREADY moves `readyPlayers` by +1 or -1 on the flag alone; that
   * is the change in the number of ready profiles exactly when the flag sent
   * differs from the one stored.
   */
  lemma ReadyStepTracksFlags(infos: map<SessionId, PlayerInfo>, s: SessionId, p: PlayerInfo)
    requires s in infos
    ensures ReadyCount(infos[s := p]) == ReadyCount(infos) + (if p.playerReady then 1 else -1)
        <==> infos[s].playerReady != p.playerReady
  {
    ReadyCountAfterStore(infos, s, p);
  }

  class Room {
    /** The mapped sessions (`sessions`): admitted and not yet cleaned up. */
    var sessions: set<SessionId>
    /** The last profile each player sent (`playerInfos`). */
    var playerInfos: map<SessionId, PlayerInfo>
    var connectedUsers: int
    var finishedUsers: int
    var readyPlayers: int
    /** Who holds each of the four slots (`assignedIds`); `Free` when nobody. */
    const assignedIds: array<string>
    var matchStarted: bool
    /** Every message sent so far, in sending order. */
    var outbox: seq<Delivery>
    /** The sessions this endpoint has closed. */
    var closed: set<SessionId>

    /**
     * The lobby invariant: the mapped sessions are exactly the slot holders,
     * which `indexOf` can tell apart, and `connectedUsers` counts them.
     */
    ghost predicate Valid()
      reads this, assignedIds
    {
      && assignedIds.Length == MaxUsers
      && DistinctOccupants(assignedIds[..])
      && sessions == Occupants(assignedIds[..])
      && connectedUsers == |sessions|
      && playerInfos.Keys <= sessions
    }

    /** A session id the transport may hand over: not empty, and unlike every mapped one. */
    ghost predicate FreshSession(session: SessionId)
      reads this
    {
      session != Free && forall s | s in sessions :: !EqualsIgnoreCase(session, s)
    }

    constructor ()
      ensures Valid() && fresh(assignedIds)
      ensures assignedIds[..] == [Free, Free, Free, Free]
      ensures sessions == {} && playerInfos == map[] && outbox == [] && closed == {}
      ensures connectedUsers == 0 && finishedUsers == 0 && readyPlayers == 0 && !matchStarted
    {
      sessions := {};
      playerInfos := map[];
      connectedUsers := 0;
      finishedUsers := 0;
      readyPlayers := 0;
      assignedIds := new string[MaxUsers](_ => Free);
      matchStarted := false;
      outbox := [];
      closed := {};
      new;
      assert assignedIds[..] == [Free, Free, Free, Free];
    }

    /** `afterConnectionEstablished`: refuse a fifth player or a latecomer, admit anyone else. */
    method AfterConnectionEstablished(session: SessionId)
      requires Valid() && FreshSession(session)
      modifies this`connectedUsers, this`sessions, this`outbox, this`closed, assignedIds
      ensures Valid()
      ensures old(connectedUsers) + 1 > MaxUsers || old(matchStarted) ==>
        && connectedUsers == old(connectedUsers) && sessions == old(sessions)
        && assignedIds[..] == old(assignedIds[..])
        && outbox == old(outbox) + [Delivery(session,
             if old(connectedUsers) + 1 > MaxUsers then ErrorMaxUsers else ErrorMatchStarted)]
        && closed == old(closed) + {session}
      ensures !(old(connectedUsers) + 1 > MaxUsers || old(matchStarted)) ==>
        var slot := LowestFree(old(assignedIds[..]));
        && 0 <= slot < MaxUsers
        && connectedUsers == old(connectedUsers) + 1 && sessions == old(sessions) + {session}
        && assignedIds[..] == old(assignedIds[..])[slot := session]
        && outbox == old(outbox) + [Delivery(session, RoomConn(slot))]
        && closed == old(closed)
    {
      if connectedUsers + 1 > MaxUsers || matchStarted {
        NotifyAndCloseConnection(session);
        return;
      }
      ClaimLowestFree(assignedIds[..], session);

      connectedUsers := connectedUsers + 1;
      sessions := sessions + {session};
      NotifyAccess(session);
    }

    /** `afterConnectionClosed`: a player who sent a profile leaves; anyone else leaves no trace. */
    method AfterConnectionClosed(session: SessionId)
      requires Valid()
      modifies this`connectedUsers, this`readyPlayers, this`sessions, this`playerInfos, this`outbox, assignedIds
      ensures Valid()
      ensures session !in old(playerInfos) ==>
        && connectedUsers == old(connectedUsers) && readyPlayers == old(readyPlayers)
        && sessions == old(sessions) && playerInfos == old(playerInfos)
        && assignedIds[..] == old(assignedIds[..]) && outbox == old(outbox)
      ensures session in old(playerInfos) ==>
        var slot := SlotOf(old(assignedIds[..]), session);
        && 0 <= slot < MaxUsers && old(assignedIds[..])[slot] == session
        && connectedUsers == old(connectedUsers) - 1
        && readyPlayers == old(readyPlayers) - (if old(playerInfos)[session].playerReady then 1 else 0)
        && Extends(old(outbox), outbox)
        && IsFanout(outbox[|old(outbox)|..], old(sessions) - {session}, PlayerDisc(slot))
        && assignedIds[..] == old(assignedIds[..])[slot := Free]
        && sessions == old(sessions) - {session}
        && playerInfos == old(playerInfos) - {session}
    {
      if session in playerInfos {
        ghost var before := assignedIds[..];
        ReleaseHolder(before, session);
        ghost var slot := SlotOf(before, session);
        assert |sessions - {session}| == |sessions| - 1;

        connectedUsers := connectedUsers - 1;
        var wasReady := playerInfos[session].playerReady;
        if wasReady {
          readyPlayers := readyPlayers - 1;
        }
        assert assignedIds[..] == before;
        NotifyRemovePlayer(session);
        RemovePlayerInfo(session);
        assert assignedIds[..] == before[slot := Free];
      }
    }

    /** `handleTextMessage`: the switch over the lobby's three codes; any other code is ignored. */
    method HandleTextMessage(session: SessionId, message: LobbyMessage)
      requires Valid() && session in sessions
      modifies this`playerInfos, this`readyPlayers, this`finishedUsers, this`matchStarted, this`outbox
      ensures Valid()
      ensures message.code == PlayerJoinCode ==>
        && playerInfos == old(playerInfos)[session := message.player]
        && readyPlayers == old(readyPlayers) && finishedUsers == old(finishedUsers)
        && matchStarted == old(matchStarted)
        && exists roster, relay ::
             JoinAnswered(old(outbox), outbox, roster, relay, sessions, session, old(playerInfos), message.player)
      ensures message.code == PlayerReadyCode ==>
        && playerInfos == old(playerInfos)[session := message.player]
        && readyPlayers == old(readyPlayers) + (if message.player.playerReady then 1 else -1)
        && finishedUsers == old(finishedUsers)
        && matchStarted == (old(matchStarted) || StartsMatch(readyPlayers, connectedUsers))
        && exists relay, start :: ReadyAnswered(old(outbox), outbox, relay, start, sessions, session,
                                                message.player, StartsMatch(readyPlayers, connectedUsers), connectedUsers)
      ensures message.code == MatchEndedCode ==>
        && playerInfos == old(playerInfos) && readyPlayers == old(readyPlayers) && outbox == old(outbox)
        && if old(finishedUsers) + 1 == connectedUsers
           then finishedUsers == 0 && !matchStarted
           else finishedUsers == old(finishedUsers) + 1 && matchStarted == old(matchStarted)
      ensures message.code !in {PlayerJoinCode, PlayerReadyCode, MatchEndedCode} ==>
        && playerInfos == old(playerInfos) && readyPlayers == old(readyPlayers)
        && finishedUsers == old(finishedUsers) && matchStarted == old(matchStarted)
        && outbox == old(outbox)
    {
      if message.code == PlayerJoinCode {
        GetPlayerInfos(session);
        ghost var mid := outbox;
        ghost var roster := outbox[|old(outbox)|..];
        ExtendsSplit(old(outbox), mid);
        NotifyNewPlayer(session, message.player);
        ghost var relay := outbox[|mid|..];
        ExtendsSplit(mid, outbox);
        assert JoinAnswered(old(outbox), outbox, roster, relay, sessions, session, old(playerInfos), message.player);
      } else if message.code == PlayerReadyCode {
        NotifyPlayerReady(session, message.player);
      } else if message.code == MatchEndedCode {
        finishedUsers := finishedUsers + 1;
        if finishedUsers == connectedUsers {
          matchStarted := false;
          finishedUsers := 0;
        }
      }
    }

    /** `removePlayerInfo`: free the session's slot and forget the session. */
    method RemovePlayerInfo(session: SessionId)
      requires SlotOf(assignedIds[..], session) != -1
      modifies this`sessions, this`playerInfos, assignedIds
      ensures assignedIds[..] == old(assignedIds[..])[SlotOf(old(assignedIds[..]), session) := Free]
      ensures sessions == old(sessions) - {session}
      ensures playerInfos == old(playerInfos) - {session}
    {
      var id := session;
      var idx := IndexOf(id);
      assignedIds[idx] := Free;
      sessions := sessions - {id};
      playerInfos := playerInfos - {id};
    }

    /** `notifyAccess`: claim the lowest free slot and tell the session its id. */
    method NotifyAccess(session: SessionId)
      requires assignedIds.Length == MaxUsers
      modifies this`outbox, assignedIds
      ensures var slot := LowestFree(old(assignedIds[..]));
        && assignedIds[..] == (if slot == -1 then old(assignedIds[..]) else old(assignedIds[..])[slot := session])
        && outbox == old(outbox) + [Delivery(session, RoomConn(slot))]
    {
      var userID := GetId(session);
      outbox := outbox + [Delivery(session, RoomConn(userID))];
    }

    /** `notifyNewPlayer`: store the joiner's profile and relay it to everyone else. */
    method NotifyNewPlayer(session: SessionId, player: PlayerInfo)
      modifies this`playerInfos, this`outbox
      ensures playerInfos == old(playerInfos)[session := player]
      ensures Extends(old(outbox), outbox)
      ensures IsFanout(outbox[|old(outbox)|..], sessions - {session}, PlayerJoin(player))
    {
      playerInfos := playerInfos[session := player];
      var ds := Fanout(sessions, {session}, PlayerJoin(player));
      outbox := outbox + ds;
      assert outbox[|old(outbox)|..] == ds;
    }

    /** `notifyRemovePlayer`: tell everyone else which slot id left. */
    method NotifyRemovePlayer(session: SessionId)
      requires assignedIds.Length == MaxUsers
      requires SlotOf(assignedIds[..], session) != -1
      modifies this`outbox
      ensures Extends(old(outbox), outbox)
      ensures IsFanout(outbox[|old(outbox)|..], sessions - {session}, PlayerDisc(SlotOf(assignedIds[..], session)))
    {
      var idx := IndexOf(session);
      assert Ids[idx] == idx;
      var ds := Fanout(sessions, {session}, PlayerDisc(Ids[idx]));
      outbox := outbox + ds;
      assert outbox[|old(outbox)|..] == ds;
    }

    /**
     * `notifyPlayerReady`: replace the stored profile, relay it to everyone
     * else, move the ready counter by the flag just sent, and start the match
     * when the start rule holds.
     */
    method NotifyPlayerReady(session: SessionId, player: PlayerInfo)
      modifies this`playerInfos, this`readyPlayers, this`matchStarted, this`outbox
      ensures playerInfos == old(playerInfos)[session := player]
      ensures readyPlayers == old(readyPlayers) + (if player.playerReady then 1 else -1)
      ensures matchStarted == (old(matchStarted) || StartsMatch(readyPlayers, connectedUsers))
      ensures exists relay, start :: ReadyAnswered(old(outbox), outbox, relay, start, sessions, session,
                                                   player, StartsMatch(readyPlayers, connectedUsers), connectedUsers)
    {
      playerInfos := playerInfos - {session};
      playerInfos := playerInfos[session := player];
      assert playerInfos == old(playerInfos)[session := player];

      var ds := Fanout(sessions, {session}, PlayerReady(player));
      outbox := outbox + ds;

      var playerStatus := player.playerReady;
      if playerStatus {
        readyPlayers := readyPlayers + 1;
      } else {
        readyPlayers := readyPlayers - 1;
      }

      ghost var start: seq<Delivery> := [];
      if readyPlayers >= 2 && readyPlayers == connectedUsers {
        ghost var mid := outbox;
        NotifyStartMatch();
        start := outbox[|mid|..];
        ExtendsSplit(mid, outbox);
      } else {
        assert outbox == old(outbox) + ds + start;
      }
      assert ReadyAnswered(old(outbox), outbox, ds, start, sessions, session,
                           player, StartsMatch(readyPlayers, connectedUsers), connectedUsers);
    }

    /** `notifyStartMatch`: mark the match started and tell every session, the sender included. */
    method NotifyStartMatch()
      modifies this`matchStarted, this`outbox
      ensures matchStarted
      ensures Extends(old(outbox), outbox)
      ensures IsFanout(outbox[|old(outbox)|..], sessions, StartMatch(connectedUsers))
    {
      matchStarted := true;
      var ds := Fanout(sessions, {}, StartMatch(connectedUsers));
      outbox := outbox + ds;
      assert outbox[|old(outbox)|..] == ds;
    }

    /** `notifyAndCloseConnection`: say why the session is refused, then close it. */
    method NotifyAndCloseConnection(session: SessionId)
      modifies this`outbox, this`closed
      ensures outbox == old(outbox) + [Delivery(session,
        if connectedUsers + 1 > MaxUsers then ErrorMaxUsers
        else if matchStarted then ErrorMatchStarted
        else NoCode)]
      ensures closed == old(closed) + {session}
    {
      var code := NoCode;
      if connectedUsers + 1 > MaxUsers {
        code := ErrorMaxUsers;
      } else if matchStarted {
        code := ErrorMatchStarted;
      }
      outbox := outbox + [Delivery(session, code)];
      closed := closed + {session};
    }

    /** `getId`: hand the lowest free slot to the session; -1 and no change when all are held. */
    method GetId(session: SessionId) returns (newId: int)
      requires assignedIds.Length == MaxUsers
      modifies assignedIds
      ensures newId == LowestFree(old(assignedIds[..]))
      ensures assignedIds[..] == if newId == -1 then old(assignedIds[..]) else old(assignedIds[..])[newId := session]
    {
      newId := -1;
      var i := 0;
      while i < |Ids|
        invariant 0 <= i <= |Ids|
        invariant forall k | 0 <= k < i :: assignedIds[k] != Free
        invariant assignedIds[..] == old(assignedIds[..])
      {
        if assignedIds[i] == Free {
          assert Ids[i] == i;
          newId := Ids[i];
          assignedIds[i] := session;
          break;
        }
        i := i + 1;
      }
    }

    /** `indexOf`: the first slot whose holder equals `element` ignoring case, or -1. */
    method IndexOf(element: string) returns (idx: int)
      ensures idx == SlotOf(assignedIds[..], element)
    {
      idx := -1;
      var i := 0;
      while i < assignedIds.Length
        invariant 0 <= i <= assignedIds.Length
        invariant forall k | 0 <= k < i :: !EqualsIgnoreCase(element, assignedIds[k])
      {
        if EqualsIgnoreCase(element, assignedIds[i]) {
          idx := i;
          break;
        }
        i := i + 1;
      }
    }

    /** `getPlayerInfos`: send the session one OK_GETPLAYERS per stored profile. */
    method GetPlayerInfos(session: SessionId)
      modifies this`outbox
      ensures Extends(old(outbox), outbox)
      ensures IsRoster(outbox[|old(outbox)|..], session, playerInfos)
    {
      var ds := CollectPlayerInfos(session, playerInfos);
      outbox := outbox + ds;
      assert outbox[|old(outbox)|..] == ds;
    }
  }

  /** The lobby invariant keeps `connectedUsers` equal to the number of held slots, so within 0..4. */
  lemma ConnectedUsersCountSlots(room: Room)
    requires room.Valid()
    ensures room.connectedUsers == OccupiedCount(room.assignedIds[..])
    ensures 0 <= room.connectedUsers <= MaxUsers
  {
    OccupantsCount(room.assignedIds[..]);
  }
}
