/** The signaling service in its own imperative form.  Each method is one critical section (or,
    for the join methods, the Redis script and the registration that follows it) and is proved
    to take exactly the hub step of the same name. */
module SignalingService {
  import opened Options
  import opened SignalingHub
  import SignalingSteps

  /** The Redis member sets behind the two-member admission gate. */
  class RoomRepository {
    var members: map<RoomId, set<User>>

    constructor ()
      ensures members == map[]
    {
      members := map[];
    }

    method Join(room: RoomId, user: User) returns (result: JoinResult)
      modifies this
      ensures (result, members) == JoinScript(old(members), room, user)
      ensures var before := if room in old(members) then old(members)[room] else {};
              && (result.Full? <==> user !in before && |before| >= 2)
              && (result.AlreadyMember? <==> user in before)
              && members == if result.Joined? then old(members)[room := before + {user}] else old(members)
    {
      if room in members && user in members[room] {
        return AlreadyMember;
      }
      var present := {};
      if room in members {
        present := members[room];
      }
      if |present| >= 2 {
        return Full;
      }
      members := members[room := present + {user}];
      return Joined;
    }

    /** `fails` is a delete that Redis does not carry out. */
    method RemoveRoom(room: RoomId, fails: bool) returns (removed: bool)
      modifies this
      ensures members == DeleteSet(old(members), room, fails) && removed == !fails
    {
      if fails {
        return false;
      }
      members := members - {room};
      return true;
    }
  }

  datatype Reply = Accepted | InvalidRoomId | RoomFull | NotMember | MatchFinished | CodeError

  class Service {
    const roomRepo: RoomRepository
    var rooms: map<RoomId, map<User, Conn>>
    var arbitrations: map<RoomId, Arbitration>
    var roomModes: map<RoomId, string>
    var battleStart: map<RoomId, int>
    var roomCodes: map<RoomId, string>
    ghost var history: History

    ghost function View(): Hub
      reads this, roomRepo
    {
      Hub(rooms, arbitrations, roomModes, battleStart, roomCodes, roomRepo.members, history)
    }

    constructor ()
      ensures fresh(roomRepo) && View() == EmptyHub
    {
      roomRepo := new RoomRepository();
      rooms, arbitrations, roomModes, battleStart, roomCodes := map[], map[], map[], map[], map[];
      history := EmptyHistory;
    }

    /** Adds a connection; the mode is stored with the first one, the battle starts with the second. */
    method RegisterConn(room: RoomId, mode: string, user: User, conn: Conn, now: int)
      modifies this
      ensures View() == Register(old(View()), room, mode, user, conn, now)
    {
      ghost var next := Register(View(), room, mode, user, conn, now);
      var members := map[];
      if room in rooms {
        members := rooms[room];
      } else {
        roomModes := roomModes[room := mode];
      }
      members := members[user := conn];
      rooms := rooms[room := members];
      if |members| == 2 && room !in battleStart {
        battleStart := battleStart[room := now];
      }
      history := next.history;
    }

    method JoinRoom(user: User, conn: Conn, room: RoomId, mode: string, now: int) returns (reply: Reply)
      modifies this, roomRepo
      ensures View() == Step(old(View()), Join(user, conn, room, mode, now))
      ensures reply == InvalidRoomId <==> !ValidRoomId(room)
      ensures reply.RoomFull? <==> ValidRoomId(room) && JoinScript(old(roomRepo.members), room, user).0 == Full
      ensures reply.InvalidRoomId? || reply.RoomFull? || reply.Accepted?
      ensures reply.InvalidRoomId? <==> |room.text| == 0 || |room.text| > 128
      ensures reply.Accepted? ==>
                && rooms == old(rooms)[room := (if room in old(rooms) then old(rooms)[room] else map[])[user := conn]]
                && roomModes == (if room in old(rooms) then old(roomModes) else old(roomModes)[room := mode])
                && battleStart == if |rooms[room]| == 2 && room !in old(battleStart) then old(battleStart)[room := now] else old(battleStart)
      ensures reply.Accepted? ==> room in rooms && user in rooms[room]
      ensures !reply.Accepted? ==> View() == old(View())
    {
      if !(0 < |room.text| <= MAX_ROOM_ID_LEN) {
        return InvalidRoomId;
      }
      var result := roomRepo.Join(room, user);
      if result == Full {
        return RoomFull;
      }
      RegisterConn(room, mode, user, conn, now);
      SignalingSteps.AdmitEffect(old(View()), room, mode, user, conn, now);
      return Accepted;
    }

    method CreateRoom(user: User, conn: Conn, room: RoomId, now: int) returns (reply: Reply)
      modifies this, roomRepo
      ensures View() == Step(old(View()), Event.CreateRoom(user, conn, room, now))
      ensures reply == if JoinScript(old(roomRepo.members), room, user).0 == Full then RoomFull else Accepted
      ensures !reply.Accepted? ==> View() == old(View())
      ensures reply.Accepted? && room !in old(rooms) ==>
                rooms == old(rooms)[room := map[user := conn]] && roomModes == old(roomModes)[room := "unranked"]
    {
      SignalingSteps.AdmitEffect(View(), room, MODE_UNRANKED, user, conn, now);
      var result := roomRepo.Join(room, user);
      if result == Full {
        return RoomFull;
      }
      RegisterConn(room, MODE_UNRANKED, user, conn, now);
      history := history.(minting := history.minting + {room}, privateRooms := history.privateRooms + {room});
      return Accepted;
    }

    /** The rest of CreateRoom, once the invite code is minted or its minting has failed; a delete
        that fails in the rollback is only logged. */
    method FinishCreate(room: RoomId, code: Option<string>, removeFails: bool) returns (reply: Reply)
      modifies this, roomRepo
      ensures View() == Step(old(View()), if code.Some? then CodeMinted(room, code.value) else CodeFailed(room, removeFails))
      ensures reply.Accepted? <==> code.Some?
    {
      match code {
        case None =>
          rooms := rooms - {room};
          roomModes := roomModes - {room};
          battleStart := battleStart - {room};
          ghost var undeleted := Undeleted(old(View()), room, removeFails);
          var removed := roomRepo.RemoveRoom(room, removeFails);
          history := history.(minting := history.minting - {room}, epochs := history.epochs - {room}, undeleted := undeleted);
          return CodeError;
        case Some(c) =>
          roomCodes := roomCodes[room := c];
          history := history.(minting := history.minting - {room});
          return Accepted;
      }
    }

    method JoinByCode(user: User, conn: Conn, resolved: Option<RoomId>, now: int) returns (reply: Reply)
      modifies this, roomRepo
      ensures resolved.None? ==> reply == CodeError && View() == old(View())
      ensures resolved.Some? ==>
                && View() == Step(old(View()), Event.JoinByCode(user, conn, resolved.value, now))
                && reply == if JoinScript(old(roomRepo.members), resolved.value, user).0 == Full then RoomFull else Accepted
      ensures !reply.Accepted? ==> View() == old(View())
    {
      if resolved.None? {
        return CodeError;
      }
      var result := roomRepo.Join(resolved.value, user);
      if result == Full {
        return RoomFull;
      }
      RegisterConn(resolved.value, MODE_UNRANKED, user, conn, now);
      return Accepted;
    }

    /** The locked part of ReportEvent; `recv` was read before the lock was taken.  A decision
        leaves the ratings call to FireRatingsCall. */
    method ReportEvent(user: User, room: RoomId, recv: int) returns (reply: Reply)
      modifies this
      ensures View() == Step(old(View()), Report(user, room, recv))
      ensures reply == NotMember <==> user !in HubMembers(old(View()), room)
      ensures reply == NotMember || reply == MatchFinished || reply == Accepted
      ensures reply == NotMember <==> room !in old(rooms) || user !in old(rooms)[room]
      ensures reply == Accepted && (room in old(arbitrations) ==> old(arbitrations)[room].firstReport.None?) ==>
                && arbitrations == old(arbitrations)[room := Arbitration(Some(BlinkReport(user, recv)), false)]
                && history == old(history)
      ensures reply == Accepted && room in old(arbitrations) && old(arbitrations)[room].firstReport.Some? ==>
                var first, n := old(arbitrations)[room].firstReport.value, |old(history.decisions)|;
                if first.user == user then history == old(history) && arbitrations == old(arbitrations)
                else
                  && arbitrations == old(arbitrations)[room := Arbitration(Some(first), true)]
                  && |history.decisions| == n + 1 && history.decisions[..n] == old(history.decisions) && history.decisions[n].room == room
                  && history.decisions[n].loser == (if recv < first.receivedAt then user else first.user)
                  && history.decisions[n].winner == (if recv < first.receivedAt then first.user else user)
      ensures reply == MatchFinished <==> reply != NotMember && ArbitrationOf(old(View()), room).decided
    {
      if room !in rooms || user !in rooms[room] {
        return NotMember;
      }
      var arb := Arbitration(None, false);
      if room in arbitrations {
        arb := arbitrations[room];
      }
      if arb.decided {
        return MatchFinished;
      }
      if arb.firstReport.None? {
        arbitrations := arbitrations[room := arb.(firstReport := Some(BlinkReport(user, recv)))];
        return Accepted;
      }
      var first := arb.firstReport.value;
      if user == first.user {
        return Accepted;
      }
      var winner, loser := user, first.user;
      if recv < first.receivedAt {
        winner, loser := first.user, user;
      }
      ghost var d := DecisionFor(View(), room, winner, loser);
      arbitrations := arbitrations[room := arb.(decided := true)];
      history := history.(decisions := history.decisions + [d], pending := history.pending + [d]);
      return Accepted;
    }

    /** The timer's callback; the loop over the member map may visit it in any order. */
    method ResolveTimeout(room: RoomId) returns (winner: User)
      modifies this
      ensures View() == Step(old(View()), TimerFires(room, winner))
      ensures TimerPending(old(View()), room) ==>
                |history.decisions| == |old(history.decisions)| + 1 && !TimerPending(View(), room)
      ensures room in old(arbitrations) && !old(arbitrations)[room].decided && old(arbitrations)[room].firstReport.Some? ==>
                var first, n := old(arbitrations)[room].firstReport, |old(history.decisions)|;
                var others := (if room in old(rooms) then old(rooms)[room].Keys else {}) - {first.value.user};
                && (if others == {} then winner == 0 else winner in others)
                && arbitrations == old(arbitrations)[room := Arbitration(first, true)]
                && |history.decisions| == n + 1 && history.decisions[..n] == old(history.decisions)
                && history.decisions[n].room == room && history.decisions[n].winner == winner && history.decisions[n].loser == first.value.user
    {
      winner := 0;
      if room !in arbitrations || arbitrations[room].decided || arbitrations[room].firstReport.None? {
        return;
      }
      var loser := arbitrations[room].firstReport.value.user;
      var members := {};
      if room in rooms {
        members := rooms[room].Keys;
      }
      var seen, todo := {}, members;
      while todo != {}
        invariant seen + todo == members
        invariant LoopWinner(seen, loser, winner)
        decreases todo
      {
        ghost var some: User := Pick(todo);
        var uid :| uid in todo;
        if uid != loser {
          winner := uid;
          assert winner in (seen + {uid}) - {loser};
        } else {
          assert (seen + {uid}) - {loser} == seen - {loser};
        }
        seen, todo := seen + {uid}, todo - {uid};
      }
      assert seen == members;
      ghost var d := DecisionFor(View(), room, winner, loser);
      arbitrations := arbitrations[room := arbitrations[room].(decided := true)];
      history := history.(decisions := history.decisions + [d], pending := history.pending + [d]);
    }

    /** Disconnect: forfeit if there is a peer and no outcome yet, then forget the room; a delete
        that fails in Redis is only logged. */
    method LeaveRoom(user: User, room: RoomId, now: int, removeFails: bool) returns (winner: User)
      modifies this, roomRepo
      ensures View() == Step(old(View()), Leave(user, room, winner, now, removeFails))
      ensures room.text != "" ==> room !in rooms && room !in arbitrations && (room in roomRepo.members ==> removeFails)
      ensures room.text != "" && room in old(rooms) && !(old(rooms)[room].Keys <= {user})
              && !(room in old(arbitrations) && old(arbitrations)[room].decided) ==>
                var n, m := |old(history.decisions)|, |old(history.calls)|;
                && |history.decisions| == n + 1 && history.decisions[..n] == old(history.decisions)
                && history.decisions[n].room == room && history.decisions[n].loser == user && history.decisions[n].winner == winner
                && winner in old(rooms)[room] && winner != user
                && (if room in old(roomModes) && old(roomModes)[room] == "ranked"
                    then |history.calls| == m + 1 && history.calls[..m] == old(history.calls) && history.calls[m].decision == history.decisions[n]
                         && history.calls[m].durationMs == now - (if room in old(battleStart) then old(battleStart)[room] else 0)
                    else history.calls == old(history.calls))
      ensures room.text == "" || room !in old(rooms) || old(rooms)[room].Keys <= {user}
              || (room in old(arbitrations) && old(arbitrations)[room].decided) ==>
                history.decisions == old(history.decisions) && history.calls == old(history.calls)
    {
      winner := 0;
      if room.text == "" {
        return;
      }
      var peers := {};
      if room in rooms {
        peers := rooms[room].Keys - {user};
      }
      if peers != {} {
        var decided := room in arbitrations && arbitrations[room].decided;
        if !decided {
          ghost var some: User := Pick(peers);
          winner :| winner in peers;
          ghost var d := DecisionFor(View(), room, winner, user);
          ghost var calls := if IsRanked(View(), room) then [RatingsCall(d, Duration(View(), room, now))] else [];
          history := history.(decisions := history.decisions + [d], calls := history.calls + calls);
        }
      }
      Forget(room, removeFails);
    }

    /** Every map of the hub, then Redis. */
    method Forget(room: RoomId, removeFails: bool)
      modifies this, roomRepo
      ensures View() == CloseRoom(old(View()), room, removeFails)
    {
      ghost var undeleted := Undeleted(View(), room, removeFails);
      rooms := rooms - {room};
      arbitrations := arbitrations - {room};
      roomModes := roomModes - {room};
      battleStart := battleStart - {room};
      roomCodes := roomCodes - {room};
      var removed := roomRepo.RemoveRoom(room, removeFails);
      history := history.(epochs := history.epochs - {room}, undeleted := undeleted);
    }

    /** Reads mode and start under the lock and calls ratings for a ranked room. */
    method FireRatingsCall(ghost which: nat, room: RoomId, now: int) returns (called: bool)
      requires which < |history.pending| && history.pending[which].room == room
      modifies this
      ensures View() == Step(old(View()), FireRatings(which, now))
      ensures called <==> room in roomModes && roomModes[room] == "ranked"
      ensures var m := |old(history.calls)|;
              if called
              then |history.calls| == m + 1 && history.calls[..m] == old(history.calls) && history.calls[m].decision == old(history.pending)[which]
                   && history.calls[m].durationMs == now - (if room in battleStart then battleStart[room] else 0)
              else history.calls == old(history.calls)
    {
      var mode := "";
      if room in roomModes {
        mode := roomModes[room];
      }
      ghost var call := RatingsCall(history.pending[which], Duration(View(), room, now));
      history := history.(pending := history.pending[..which] + history.pending[which + 1..]);
      if mode != MODE_RANKED {
        return false;
      }
      history := history.(calls := history.calls + [call]);
      return true;
    }
  }
}
