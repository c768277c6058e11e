/** What the steps of the hub do to its maps and to the history, spelled out field by field. */
module SignalingSteps {
  import opened Options
  import opened SignalingHub

  /** Nothing was decided and nobody was called. */
  predicate NothingDecided(h: Hub, h': Hub) {
    && h'.history.decisions == h.history.decisions && h'.history.pending == h.history.pending && h'.history.calls == h.history.calls
  }

  // ---- Joining --------------------------------------------------------------------------

  /** The script refuses exactly a third user, and otherwise adds the user and nothing else. */
  lemma ScriptEffect(redis: map<RoomId, set<User>>, room: RoomId, user: User)
    ensures var (result, redis') := JoinScript(redis, room, user);
            var before := if room in redis then redis[room] else {};
            && (result.AlreadyMember? <==> user in before)
            && (result.Full? <==> user !in before && |before| >= 2)
            && redis' == if result.Joined? then redis[room := before + {user}] else redis
  {
  }

  /** An admitted user is in the room with this connection; the first one's mode becomes the room's,
      and the battle starts with the second member. */
  lemma AdmitEffect(h: Hub, room: RoomId, mode: string, user: User, conn: Conn, now: int)
    ensures var h' := Admit(h, room, mode, user, conn, now);
            var (result, redis) := JoinScript(h.redis, room, user);
            var members := (if room in h.rooms then h.rooms[room] else map[])[user := conn];
            if result.Full? then h' == h
            else
              && h'.rooms == h.rooms[room := members] && h'.redis == redis
              && h'.roomModes == (if room in h.rooms then h.roomModes else h.roomModes[room := mode])
              && h'.battleStart == (if |members| == 2 && room !in h.battleStart then h.battleStart[room := now] else h.battleStart)
              && h'.arbitrations == h.arbitrations && h'.roomCodes == h.roomCodes && NothingDecided(h, h')
  {
  }

  /** The registration that creates a room opens its next epoch, and every one is remembered. */
  lemma RegistrationOpensAnEpoch(h: Hub, room: RoomId, mode: string, user: User, conn: Conn, now: int)
    ensures var t := h.history;
            var admitted := t.admitted[room := (if room in t.admitted then t.admitted[room] else {}) + {user}];
            Register(h, room, mode, user, conn, now).history ==
              if room in h.rooms then t.(admitted := admitted)
              else t.(epochs := t.epochs[room := t.nextEpoch], nextEpoch := t.nextEpoch + 1, used := t.used + {room}, admitted := admitted)
  {
  }

  lemma AdmittingRegisters(h: Hub, room: RoomId, mode: string, user: User, conn: Conn, now: int)
    requires JoinScript(h.redis, room, user).0 != Full
    ensures Admit(h, room, mode, user, conn, now) == Register(h.(redis := JoinScript(h.redis, room, user).1), room, mode, user, conn, now)
  {
  }

  /** Joining by id takes ids of 1 to 128 characters; joining by code and creating are unranked. */
  lemma JoinEffect(h: Hub, user: User, conn: Conn, room: RoomId, mode: string, now: int)
    ensures Step(h, Join(user, conn, room, mode, now)) ==
              if 1 <= |room.text| <= 128 then Admit(h, room, mode, user, conn, now) else h
    ensures Step(h, JoinByCode(user, conn, room, now)) == Admit(h, room, "unranked", user, conn, now)
    ensures var h' := Step(h, CreateRoom(user, conn, room, now));
            var admitted := Admit(h, room, "unranked", user, conn, now);
            if JoinScript(h.redis, room, user).0 == Full then h' == h
            else h' == admitted.(history := admitted.history.(minting := h.history.minting + {room}, privateRooms := h.history.privateRooms + {room}))
  {
    AdmitEffect(h, room, MODE_UNRANKED, user, conn, now);
  }

  /** So the first to join a room fixes whether it is rated: a room is ranked afterwards exactly
      when it was, or is opened now by a join as "ranked". */
  lemma FirstJoinFixesTheMode(h: Hub, user: User, conn: Conn, room: RoomId, mode: string, now: int)
    requires 1 <= |room.text| <= 128 && JoinScript(h.redis, room, user).0 != Full
    ensures var h' := Step(h, Join(user, conn, room, mode, now));
            && room in h'.rooms && user in h'.rooms[room]
            && (room !in h.rooms ==> room in h'.roomModes && h'.roomModes[room] == mode)
            && (room !in h.rooms ==> (IsRanked(h', room) <==> mode == "ranked"))
            && (room in h.rooms ==> (IsRanked(h', room) <==> IsRanked(h, room)))
  {
    AdmitEffect(h, room, mode, user, conn, now);
  }

  // ---- Reporting ------------------------------------------------------------------------

  /** The outcome decided last, in both lists, with this winner and loser. */
  predicate DecidesOne(h: Hub, h': Hub, room: RoomId, winner: User, loser: User) {
    var n := |h.history.decisions|;
    && |h'.history.decisions| == n + 1 && h'.history.decisions[..n] == h.history.decisions
    && var d := h'.history.decisions[n];
    && d.room == room && d.winner == winner && d.loser == loser
    && (room in h.history.epochs ==> d.epoch == h.history.epochs[room])
    && (room in h.rooms ==> d.members == h.rooms[room].Keys)
  }

  /** A report by somebody who is not in the room, in a decided room, or by the first reporter again
      changes nothing. */
  lemma OtherReportsChangeNothing(h: Hub, user: User, room: RoomId, recv: int)
    requires || room !in h.rooms || user !in h.rooms[room]
             || (room in h.arbitrations && h.arbitrations[room].decided)
             || (room in h.arbitrations && h.arbitrations[room].firstReport.Some? && h.arbitrations[room].firstReport.value.user == user)
    ensures Step(h, Report(user, room, recv)) == h
  {
  }

  /** The first report of a member waits, with its stamp. */
  lemma FirstReportWaits(h: Hub, user: User, room: RoomId, recv: int)
    requires room in h.rooms && user in h.rooms[room]
    requires room in h.arbitrations ==> !h.arbitrations[room].decided && h.arbitrations[room].firstReport.None?
    ensures Step(h, Report(user, room, recv)) ==
              h.(arbitrations := h.arbitrations[room := Arbitration(Some(BlinkReport(user, recv)), false)])
  {
  }

  /** The other member's report decides: against itself exactly when its stamp is earlier. */
  lemma SecondReportDecides(h: Hub, user: User, room: RoomId, recv: int)
    requires room in h.rooms && user in h.rooms[room]
    requires room in h.arbitrations && !h.arbitrations[room].decided && h.arbitrations[room].firstReport.Some?
    requires h.arbitrations[room].firstReport.value.user != user
    ensures var h' := Step(h, Report(user, room, recv));
            var first := h.arbitrations[room].firstReport.value;
            && (if recv < first.receivedAt then DecidesOne(h, h', room, first.user, user) else DecidesOne(h, h', room, user, first.user))
            && h' == h.(arbitrations := h.arbitrations[room := Arbitration(Some(first), true)], history := h'.history)
            && h'.history.pending == h.history.pending + [h'.history.decisions[|h.history.decisions|]]
            && h'.history.calls == h.history.calls
  {
  }

  /** The timer decides exactly an undecided room with a report: the reporter loses to another
      member, or to the zero id when he is alone. */
  lemma TimeoutEffect(h: Hub, room: RoomId, winner: User)
    ensures var h' := Step(h, TimerFires(room, winner));
            var waiting := room in h.arbitrations && !h.arbitrations[room].decided && h.arbitrations[room].firstReport.Some?;
            && (!waiting ==> h' == h)
            && (waiting ==>
                  var first := h.arbitrations[room].firstReport;
                  var others := (if room in h.rooms then h.rooms[room].Keys else {}) - {first.value.user};
                  (if others == {} then winner == 0 else winner in others) ==>
                    && h'.arbitrations == h.arbitrations[room := Arbitration(first, true)]
                    && DecidesOne(h, h', room, winner, first.value.user)
                    && h'.history.pending == h.history.pending + [h'.history.decisions[|h.history.decisions|]]
                    && h'.rooms == h.rooms && h'.history.calls == h.history.calls)
  {
  }

  // ---- Leaving and calling --------------------------------------------------------------

  /** The time since the room's second member, or since zero. */
  predicate IsDuration(h: Hub, room: RoomId, now: int, durationMs: int) {
    durationMs == now - (if room in h.battleStart then h.battleStart[room] else 0)
  }

  /** Leaving somebody behind in a room that is not decided, reported in or not, forfeits it: one
      outcome against the leaver, and one ratings call exactly when the room's mode is "ranked". */
  lemma LeavingForfeits(h: Hub, user: User, room: RoomId, winner: User, now: int, removeFails: bool)
    requires room.text != "" && room in h.rooms && winner in h.rooms[room] && winner != user
    requires !(room in h.arbitrations && h.arbitrations[room].decided)
    ensures var h' := Step(h, Leave(user, room, winner, now, removeFails));
            var n, m := |h.history.decisions|, |h.history.calls|;
            && DecidesOne(h, h', room, winner, user) && h'.history.pending == h.history.pending
            && (if room in h.roomModes && h.roomModes[room] == "ranked"
                then |h'.history.calls| == m + 1 && h'.history.calls[..m] == h.history.calls
                     && h'.history.calls[m].decision == h'.history.decisions[n] && IsDuration(h, room, now, h'.history.calls[m].durationMs)
                else h'.history.calls == h.history.calls)
  {
    assert winner in h.rooms[room].Keys - {user};
  }

  /** In every other case a leave decides nothing and calls nobody. */
  lemma OtherLeavesDecideNothing(h: Hub, user: User, room: RoomId, winner: User, now: int, removeFails: bool)
    requires || room.text == "" || room !in h.rooms || h.rooms[room].Keys <= {user}
             || (room in h.arbitrations && h.arbitrations[room].decided)
    ensures NothingDecided(h, Step(h, Leave(user, room, winner, now, removeFails)))
  {
    if room in h.rooms && h.rooms[room].Keys <= {user} {
      assert h.rooms[room].Keys - {user} == {};
    }
  }

  /** Every leave with a room clears the room from the hub, and Redis unless its delete fails. */
  lemma LeavingCloses(h: Hub, user: User, room: RoomId, winner: User, now: int, removeFails: bool)
    requires room.text != ""
    requires (exists w :: room in h.rooms && w in h.rooms[room] && w != user) ==> room in h.rooms && winner in h.rooms[room] && winner != user
    ensures var h' := Step(h, Leave(user, room, winner, now, removeFails));
            && h'.rooms == h.rooms - {room} && h'.arbitrations == h.arbitrations - {room} && h'.roomModes == h.roomModes - {room}
            && h'.battleStart == h.battleStart - {room} && h'.roomCodes == h.roomCodes - {room}
            && h'.redis == (if removeFails then h.redis else h.redis - {room})
            && h'.history.epochs == h.history.epochs - {room} && h'.history.nextEpoch == h.history.nextEpoch && h'.history.used == h.history.used
            && h'.history.undeleted == if removeFails && room in h.redis then h.history.undeleted + {room} else h.history.undeleted - {room}
  {
    if Forfeits(h, user, room) {
      ghost var w: User := Pick(h.rooms[room].Keys - {user});
      assert w in h.rooms[room] && w != user;
    }
  }

  /** A decided outcome leaves the pending ones and calls ratings exactly when the room's mode is
      "ranked" by then. */
  lemma FiringEffect(h: Hub, which: nat, now: int)
    requires which < |h.history.pending|
    ensures var h' := Step(h, FireRatings(which, now));
            var d, m := h.history.pending[which], |h.history.calls|;
            && h'.history.pending == h.history.pending[..which] + h.history.pending[which + 1..]
            && h'.history.decisions == h.history.decisions && h'.rooms == h.rooms && h'.arbitrations == h.arbitrations
            && (if d.room in h.roomModes && h.roomModes[d.room] == "ranked"
                then |h'.history.calls| == m + 1 && h'.history.calls[..m] == h.history.calls
                     && h'.history.calls[m].decision == d && IsDuration(h, d.room, now, h'.history.calls[m].durationMs)
                else h'.history.calls == h.history.calls)
  {
  }

  /** The rollback of a create clears the room from the maps it names and from Redis if that works. */
  lemma RollbackEffect(h: Hub, room: RoomId, removeFails: bool)
    ensures var h' := Step(h, CodeFailed(room, removeFails));
            && h'.rooms == h.rooms - {room} && h'.roomModes == h.roomModes - {room} && h'.battleStart == h.battleStart - {room}
            && h'.arbitrations == h.arbitrations && h'.roomCodes == h.roomCodes && NothingDecided(h, h')
            && h'.redis == (if removeFails then h.redis else h.redis - {room})
            && h'.history.epochs == h.history.epochs - {room} && h'.history.minting == h.history.minting - {room}
            && h'.history.undeleted == if removeFails && room in h.redis then h.history.undeleted + {room} else h.history.undeleted - {room}
    ensures forall code :: Step(h, CodeMinted(room, code)).roomCodes == h.roomCodes[room := code]
  {
  }

  // ---- Runs -----------------------------------------------------------------------------

  /** A run takes every event, one after the other. */
  lemma RunTakesEachEvent(h: Hub, es: seq<Event>, e: Event)
    ensures Run(h, []) == h && Run(h, es + [e]) == Step(Run(h, es), e)
  {
    assert (es + [e])[..|es|] == es;
  }

  // ---- The environment ------------------------------------------------------------------

  /** Nothing else is asked of the outside: ids are positive, an id CreateRoom draws was never used,
      and a room whose CreateRoom has not returned is only finished by it. */
  lemma EnvironmentAsksNoMore(h: Hub, e: Event)
    ensures (e.Join? || e.JoinByCode?) && e.user > 0 && e.room !in h.history.minting ==> Env(h, e)
    ensures e.CreateRoom? && e.user > 0 && e.room !in h.history.used ==> Env(h, e)
    ensures (e.CodeMinted? || e.CodeFailed?) && e.room in h.history.minting ==> Env(h, e)
    ensures (e.Report? || e.Leave?) && e.room !in h.history.minting ==> Env(h, e)
    ensures e.TimerFires? || e.FireRatings? ==> Env(h, e)
  {
  }
}
