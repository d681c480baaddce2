/**
 * The messages exchanged between the ground room's two WebSocket endpoints
 * (the lobby and the match) and their clients, already decoded from and
 * not yet encoded to JSON, and the one way both endpoints send a message to
 * many sessions: a pass over the session map in whatever order the map
 * yields its entries.
 */
module Protocol {

  /** The id the transport gives a connection. */
  type SessionId = string

  /** A player's profile as the lobby stores and relays it. */
  datatype PlayerInfo = PlayerInfo(playerId: int, playerType: int, playerName: string, playerReady: bool)

  /** Inbound codes the lobby understands. */
  const PlayerJoinCode: string := "OK_PLAYERJOIN"
  const PlayerReadyCode: string := "OK_PLAYERREADY"
  const MatchEndedCode: string := "OK_MATCHENDED"

  /** Inbound codes the match understands. */
  const PlayerInfoCode: string := "OK_PLAYERINFO"
  const PointsInfoCode: string := "OK_POINTSINFO"
  const TakeDarkMatterCode: string := "OK_TAKEDM"
  const RoundStateCode: string := "OK_ROUNDSTATE"

  /** The lobby's three codes differ from each other, as do the match's four. */
  lemma CodesDistinct()
    ensures PlayerJoinCode != PlayerReadyCode && PlayerJoinCode != MatchEndedCode
    ensures PlayerReadyCode != MatchEndedCode
    ensures PlayerInfoCode != PointsInfoCode && PlayerInfoCode != TakeDarkMatterCode
    ensures PlayerInfoCode != RoundStateCode && PointsInfoCode != TakeDarkMatterCode
    ensures PointsInfoCode != RoundStateCode && TakeDarkMatterCode != RoundStateCode
  {
    assert PlayerJoinCode[9] != PlayerReadyCode[9];
    assert PlayerJoinCode[3] != MatchEndedCode[3] && PlayerReadyCode[3] != MatchEndedCode[3];
    assert PlayerInfoCode[4] != PointsInfoCode[4];
    assert PlayerInfoCode[3] != TakeDarkMatterCode[3] && PlayerInfoCode[3] != RoundStateCode[3];
    assert PointsInfoCode[3] != TakeDarkMatterCode[3] && PointsInfoCode[3] != RoundStateCode[3];
    assert TakeDarkMatterCode[3] != RoundStateCode[3];
  }

  /**
   * A decoded message sent to the lobby: its `code` and the profile fields,
   * which are read only for the join and ready codes.
   */
  datatype LobbyMessage = LobbyMessage(code: string, player: PlayerInfo)

  /**
   * A decoded message sent to the match: its `code` and the fields that the
   * relayed codes read (`userID`, `userVictim`, `updateKey`, `updatedPoints`,
   * `userTaken`).
   */
  datatype MatchMessage = MatchMessage(
    code: string, userID: int, userVictim: int, updateKey: string, updatedPoints: int, userTaken: int)

  /** An outbound message; the wire code of each is in its comment. */
  datatype Event =
    | RoomConn(userID: int)                                           // OK_ROOMCONN
    | GetPlayers(player: PlayerInfo)                                  // OK_GETPLAYERS
    | PlayerJoin(player: PlayerInfo)                                  // OK_PLAYERJOIN
    | PlayerReady(player: PlayerInfo)                                 // OK_PLAYERREADY
    | PlayerDisc(playerId: int)                                       // OK_PLAYERDISC
    | StartMatch(players: int)                                        // OK_STARTMATCH
    | ErrorMaxUsers                                                   // Error_MAXUSERS
    | ErrorMatchStarted                                               // Error_MATCHSTARTED
    | NoCode                                                          // an object with no field
    | InitialState(matterX: int, matterY: int, roundTime: int)        // OK_INITIALSTATE
    | RoundState(matterX: int, matterY: int, roundTime: int)          // OK_ROUNDSTATE
    | PlayerUpdate(userId: int, userVictim: int, updateKey: string)   // OK_PLAYERINFO
    | PointsUpdate(userId: int, updatedPoints: int)                   // OK_POINTSINFO
    | DarkMatterTaken(userTaken: int)                                 // OK_TAKEDM
    | EndRoundInfo(winnerUser: int)                                   // OK_ENDROUNDINFO

  /** One `sendMessage` call: the session written to and what was written. */
  datatype Delivery = Delivery(to: SessionId, event: Event)

  /** `after` is `before` with zero or more deliveries appended. */
  ghost predicate Extends(before: seq<Delivery>, after: seq<Delivery>)
  {
    |before| <= |after| && after[..|before|] == before
  }

  /**
   * `ds` sends `e` to every session of `recipients` exactly once and sends
   * nothing else; the order is left open.
   */
  ghost predicate IsFanout(ds: seq<Delivery>, recipients: set<SessionId>, e: Event)
  {
    && (forall i | 0 <= i < |ds| :: ds[i].event == e && ds[i].to in recipients)
    && (forall i, j | 0 <= i < j < |ds| :: ds[i].to != ds[j].to)
    && (forall r | r in recipients :: Delivery(r, e) in ds)
  }

  /**
   * The loop `for (participant : sessions.values()) if (!excluded) send(e)`
   * over a concurrent map: the entries come out in an order the map picks.
   */
  method Fanout(sessions: set<SessionId>, exclude: set<SessionId>, e: Event) returns (ds: seq<Delivery>)
    ensures IsFanout(ds, sessions - exclude, e)
  {
    ds := [];
    var pending := sessions;
    while pending != {}
      invariant pending <= sessions
      invariant IsFanout(ds, (sessions - pending) - exclude, e)
      invariant forall i | 0 <= i < |ds| :: ds[i].to !in pending
      decreases pending
    {
      var participant :| participant in pending;
      if participant !in exclude {
        ds := ds + [Delivery(participant, e)];
      }
      pending := pending - {participant};
    }
  }

  /** An extended outbox is the old one followed by what was appended. */
  lemma ExtendsSplit(before: seq<Delivery>, after: seq<Delivery>)
    requires Extends(before, after)
    ensures after == before + after[|before|..]
  {
    assert after == after[..|before|] + after[|before|..];
  }

  /** A sequence that lists every element of `s`, each once, has `|s|` entries. */
  lemma {:induction false} EnumerationSize<T>(xs: seq<T>, s: set<T>)
    requires forall i, j | 0 <= i < j < |xs| :: xs[i] != xs[j]
    requires forall i | 0 <= i < |xs| :: xs[i] in s
    requires forall x | x in s :: x in xs
    ensures |xs| == |s|
  {
    if xs != [] {
      var rest := s - {xs[0]};
      forall x | x in rest ensures x in xs[1..] {
        var k :| 0 <= k < |xs| && xs[k] == x;
        assert xs[1..][k - 1] == x;
      }
      forall i | 0 <= i < |xs[1..]| ensures xs[1..][i] in rest {
        assert xs[1..][i] == xs[i + 1];
      }
      EnumerationSize(xs[1..], rest);
    } else {
      assert forall x | x in s :: false;
      assert s == {};
    }
  }

  /** A fan-out sends exactly one message per recipient. */
  lemma FanoutSize(ds: seq<Delivery>, recipients: set<SessionId>, e: Event)
    requires IsFanout(ds, recipients, e)
    ensures |ds| == |recipients|
  {
    var tos := seq(|ds|, i requires 0 <= i < |ds| => ds[i].to);
    forall r | r in recipients ensures r in tos {
      var k :| 0 <= k < |ds| && ds[k] == Delivery(r, e);
      assert tos[k] == r;
    }
    EnumerationSize(tos, recipients);
  }
}
