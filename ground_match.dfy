/**
 * The ground match (`GroundMService`): sends each connection the current
 * round state, relays player, points and dark-matter events between the
 * players, and advances the round once as many round-over reports have
 * arrived as there are connections.
 *
 * The random choice of the next target (`getRandomIndex`) is a parameter
 * `r` in 0..3 of the methods that make it.
 */
module GroundMatch {
  import opened Protocol
  import GroundRoom

  /** The four dark-matter targets, as two parallel tables (`allX`, `allY`). */
  const AllX: seq<int> := [200, 400, 530, 400]
  const AllY: seq<int> := [500, 120, 460, 530]

  /** The four targets, as (x, y) pairs. */
  const Targets: set<(int, int)> := {(200, 500), (400, 120), (530, 460), (400, 530)}

  /** The length of every round, in seconds. */
  const RoundTime: int := 30

  /** `getMatterPosX`: the x of one of the four targets. */
  function MatterX(rIdx: int): (x: int)
    requires 0 <= rIdx < 4
    ensures exists t | t in Targets :: t.0 == x
  {
    AllX[rIdx]
  }

  /** `getMatterPosY`: the y of one of the four targets. */
  function MatterY(rIdx: int): (y: int)
    requires 0 <= rIdx < 4
    ensures exists t | t in Targets :: t.1 == y
  {
    AllY[rIdx]
  }

  /** Reading both tables at one index always gives one of the four targets. */
  lemma TargetIsListed(rIdx: int)
    requires 0 <= rIdx < 4
    ensures (MatterX(rIdx), MatterY(rIdx)) in Targets
  {
  }

  class Match {
    /** Every session that ever connected (`sessions`); none is ever removed. */
    var sessions: set<SessionId>
    var matterPosX: int
    var matterPosY: int
    var roundTime: int
    var rIdx: int
    /** The lobby this match belongs to (`roomObj`). */
    const roomObj: GroundRoom.Room
    var connectedUsers: int
    var finishedUsers: int
    /** Every message sent so far, in sending order. */
    var outbox: seq<Delivery>

    /**
     * The match invariant: the target is read from one table index, the
     * round lasts 30 seconds, `connectedUsers` counts the sessions and the
     * round-over counter is short of the barrier (or at rest at 0).
     */
    ghost predicate Valid()
      reads this
    {
      && 0 <= rIdx < 4
      && matterPosX == MatterX(rIdx) && matterPosY == MatterY(rIdx)
      && roundTime == RoundTime
      && connectedUsers == |sessions|
      && 0 <= finishedUsers
      && (finishedUsers < connectedUsers || finishedUsers == 0)
    }

    /** The constructor, with `r` the index `getRandomIndex` drew. */
    constructor (grService: GroundRoom.Room, r: int)
      requires 0 <= r < 4
      ensures Valid()
      ensures rIdx == r && matterPosX == AllX[r] && matterPosY == AllY[r] && roundTime == RoundTime
      ensures roomObj == grService
      ensures sessions == {} && connectedUsers == 0 && finishedUsers == 0 && outbox == []
    {
      sessions := {};
      matterPosX, matterPosY, roundTime, rIdx := 0, 0, 0, 0;
      roomObj := grService;
      connectedUsers := 0;
      finishedUsers := 0;
      outbox := [];
      new;
      rIdx := r;
      matterPosX := MatterX(rIdx);
      matterPosY := MatterY(rIdx);
      roundTime := RoundTime;
    }

    /** `afterConnectionEstablished`: register the session and send it the current round. */
    method AfterConnectionEstablished(session: SessionId)
      requires Valid() && session !in sessions
      modifies this`sessions, this`connectedUsers, this`outbox
      ensures Valid()
      ensures sessions == old(sessions) + {session}
      ensures connectedUsers == old(connectedUsers) + 1
      ensures outbox == old(outbox) + [Delivery(session, InitialState(matterPosX, matterPosY, roundTime))]
    {
      sessions := sessions + {session};
      connectedUsers := connectedUsers + 1;
      NotifyInitialState(session);
    }

    /** `afterConnectionClosed`: the lobby's match flag drops; the match itself keeps the session. */
    method AfterConnectionClosed(session: SessionId)
      modifies roomObj`matchStarted
      ensures !roomObj.matchStarted
    {
      roomObj.matchStarted := false;
    }

    /**
     * `handleTextMessage`: the switch over the match's four codes, any other
     * code being ignored; `r` is the index drawn if the round advances.
     */
    method HandleTextMessage(session: SessionId, message: MatchMessage, r: int)
      requires Valid() && session in sessions
      requires 0 <= r < 4
      modifies this`finishedUsers, this`rIdx, this`matterPosX, this`matterPosY, this`roundTime, this`outbox
      ensures Valid()
      ensures message.code in {PlayerInfoCode, PointsInfoCode, TakeDarkMatterCode} ==>
        && finishedUsers == old(finishedUsers) && rIdx == old(rIdx)
        && matterPosX == old(matterPosX) && matterPosY == old(matterPosY) && roundTime == old(roundTime)
        && Extends(old(outbox), outbox)
      ensures message.code == PlayerInfoCode ==>
        IsFanout(outbox[|old(outbox)|..], sessions - {session},
                 PlayerUpdate(message.userID, message.userVictim, message.updateKey))
      ensures message.code == PointsInfoCode ==>
        IsFanout(outbox[|old(outbox)|..], sessions - {session}, PointsUpdate(message.userID, message.updatedPoints))
      ensures message.code == TakeDarkMatterCode ==>
        IsFanout(outbox[|old(outbox)|..], sessions - {session}, DarkMatterTaken(message.userTaken))
      ensures message.code == RoundStateCode ==>
        if old(finishedUsers) + 1 == connectedUsers then
          && finishedUsers == 0
          && rIdx == r && matterPosX == AllX[r] && matterPosY == AllY[r] && roundTime == RoundTime
          && Extends(old(outbox), outbox)
          && IsFanout(outbox[|old(outbox)|..], sessions, RoundState(AllX[r], AllY[r], RoundTime))
        else
          && finishedUsers == old(finishedUsers) + 1
          && rIdx == old(rIdx) && matterPosX == old(matterPosX) && matterPosY == old(matterPosY)
          && roundTime == old(roundTime) && outbox == old(outbox)
      ensures message.code !in {PlayerInfoCode, PointsInfoCode, TakeDarkMatterCode, RoundStateCode} ==>
        && finishedUsers == old(finishedUsers) && rIdx == old(rIdx)
        && matterPosX == old(matterPosX) && matterPosY == old(matterPosY) && roundTime == old(roundTime)
        && outbox == old(outbox)
    {
      if message.code == PlayerInfoCode {
        NotifyPlayerUpdate(session, message);
      } else if message.code == PointsInfoCode {
        NotifyPointsUpdate(session, message);
      } else if message.code == TakeDarkMatterCode {
        NotifyDarkMTaken(session, message);
      } else if message.code == RoundStateCode {
        finishedUsers := finishedUsers + 1;
        if finishedUsers == connectedUsers {
          NotifyRoundState(r);
          finishedUsers := 0;
        }
      }
    }

    /** `notifyInitialState`: send the session the current target and round time. */
    method NotifyInitialState(session: SessionId)
      modifies this`outbox
      ensures outbox == old(outbox) + [Delivery(session, InitialState(matterPosX, matterPosY, roundTime))]
    {
      outbox := outbox + [Delivery(session, InitialState(matterPosX, matterPosY, roundTime))];
    }

    /** `notifyRoundState`: draw the next target, reset the round time, tell every session. */
    method NotifyRoundState(r: int)
      requires 0 <= r < 4
      modifies this`rIdx, this`matterPosX, this`matterPosY, this`roundTime, this`outbox
      ensures rIdx == r && matterPosX == AllX[r] && matterPosY == AllY[r] && roundTime == RoundTime
      ensures Extends(old(outbox), outbox)
      ensures IsFanout(outbox[|old(outbox)|..], sessions, RoundState(matterPosX, matterPosY, roundTime))
    {
      rIdx := r;
      matterPosX := MatterX(rIdx);
      matterPosY := MatterY(rIdx);
      roundTime := RoundTime;
      var ds := Fanout(sessions, {}, RoundState(matterPosX, matterPosY, roundTime));
      outbox := outbox + ds;
      assert outbox[|old(outbox)|..] == ds;
    }

    /** `notifyPlayerUpdate`: relay OK_PLAYERINFO to everyone but the sender. */
    method NotifyPlayerUpdate(session: SessionId, message: MatchMessage)
      modifies this`outbox
      ensures Extends(old(outbox), outbox)
      ensures IsFanout(outbox[|old(outbox)|..], sessions - {session},
                       PlayerUpdate(message.userID, message.userVictim, message.updateKey))
    {
      var ds := Fanout(sessions, {session}, PlayerUpdate(message.userID, message.userVictim, message.updateKey));
      outbox := outbox + ds;
      assert outbox[|old(outbox)|..] == ds;
    }

    /** `notifyPointsUpdate`: relay OK_POINTSINFO to everyone but the sender. */
    method NotifyPointsUpdate(session: SessionId, message: MatchMessage)
      modifies this`outbox
      ensures Extends(old(outbox), outbox)
      ensures IsFanout(outbox[|old(outbox)|..], sessions - {session},
                       PointsUpdate(message.userID, message.updatedPoints))
    {
      var ds := Fanout(sessions, {session}, PointsUpdate(message.userID, message.updatedPoints));
      outbox := outbox + ds;
      assert outbox[|old(outbox)|..] == ds;
    }

    /** `notifyDarkMTaken`: relay OK_TAKEDM to everyone but the sender. */
    method NotifyDarkMTaken(session: SessionId, message: MatchMessage)
      modifies this`outbox
      ensures Extends(old(outbox), outbox)
      ensures IsFanout(outbox[|old(outbox)|..], sessions - {session}, DarkMatterTaken(message.userTaken))
    {
      var ds := Fanout(sessions, {session}, DarkMatterTaken(message.userTaken));
      outbox := outbox + ds;
      assert outbox[|old(outbox)|..] == ds;
    }

    /** `notifyEndRound`: tell one session who won the round. */
    method NotifyEndRound(session: SessionId, winnerID: int)
      modifies this`outbox
      ensures outbox == old(outbox) + [Delivery(session, EndRoundInfo(winnerID))]
    {
      outbox := outbox + [Delivery(session, EndRoundInfo(winnerID))];
    }
  }
}
