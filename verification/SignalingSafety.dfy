/** Safety of the signaling hub over every interleaving of its events. */
module SignalingSafety {
  import opened Options
  import opened SignalingHub

  // ---- The registry invariant -----------------------------------------------------------

  /** The hub's maps agree with each other, room by room. */
  ghost predicate Registry(h: Hub) {
    forall r :: Agrees(h, r)
  }

  predicate Agrees(h: Hub, r: RoomId) {
    && (r in h.roomModes <==> r in h.rooms)
    && (r in h.history.epochs <==> r in h.rooms)
    && (r in h.rooms ==> r in h.history.used)
    && (r in h.arbitrations ==> r in h.rooms)
    && (r in h.history.minting ==> r in h.rooms && r !in h.arbitrations)
    && (r in h.battleStart <==> r in h.rooms && |h.rooms[r].Keys| == 2)
    && (r in h.rooms ==> RoomOk(h.rooms[r].Keys, ArbitrationOf(h, r)))
  }

  predicate RoomOk(members: set<User>, arb: Arbitration) {
    && 1 <= |members| <= 2
    && (forall u :: u in members ==> u > 0)
    && (arb.firstReport.Some? ==> arb.firstReport.value.user in members)
  }

  /** And with Redis: a live room's members are admitted there, and unless a delete has failed
      nobody else is. */
  ghost predicate Admissions(h: Hub) {
    forall r :: Admitted(h, r)
  }

  predicate Admitted(h: Hub, r: RoomId) {
    && (r in h.rooms ==> r in h.redis && h.rooms[r].Keys <= h.redis[r])
    && (r in h.redis ==> r in h.history.used && |h.redis[r]| <= 2)
    && (r in h.history.undeleted ==> r in h.redis)
    && (r in h.redis && r !in h.history.undeleted ==> r in h.rooms && h.redis[r] == h.rooms[r].Keys)
    && (r in h.roomCodes ==> r in h.history.used)
    && (r in h.history.minting ==> r !in h.history.undeleted && r !in h.roomCodes)
  }

  // ---- The decision invariant -----------------------------------------------------------

  predicate DistinctEpochs(ds: seq<Decision>) {
    forall i, j :: 0 <= i < j < |ds| ==> ds[i].epoch != ds[j].epoch
  }

  /** No two outcomes share an epoch, a decided epoch stays decided while its room lives, and
      nobody beats himself. */
  predicate Decided(h: Hub) {
    var t := h.history;
    && (forall r :: r in t.epochs ==> t.epochs[r] < t.nextEpoch)
    && (forall r, q :: r in t.epochs && q in t.epochs && t.epochs[r] == t.epochs[q] ==> r == q)
    && DistinctEpochs(t.decisions)
    && (forall d :: d in t.decisions ==> d.epoch < t.nextEpoch && d.winner != d.loser)
    && (forall d, r :: d in t.decisions && r in t.epochs && t.epochs[r] == d.epoch ==>
          r in h.arbitrations && h.arbitrations[r].decided)
  }

  /** Every ratings call, made or still to be made, belongs to one outcome and no other call does. */
  predicate CallsOk(h: Hub) {
    var t := h.history;
    && (forall d :: d in t.pending ==> d in t.decisions)
    && (forall c :: c in t.calls ==> c.decision in t.decisions)
    && DistinctEpochs(t.pending)
    && (forall i, j :: 0 <= i < j < |t.calls| ==> t.calls[i].decision.epoch != t.calls[j].decision.epoch)
    && (forall d, c :: d in t.pending && c in t.calls ==> d.epoch != c.decision.epoch)
  }

  ghost predicate Inv(h: Hub) {
    Registry(h) && Admissions(h) && Decided(h) && CallsOk(h)
  }

  // ---- Preservation ---------------------------------------------------------------------

  /** Frame rule for the registry: only the arbitration of `room` changed. */
  lemma NewArbitrationOk(h: Hub, h': Hub, room: RoomId)
    requires Registry(h)
    requires h'.rooms == h.rooms && h'.battleStart == h.battleStart && h'.roomModes == h.roomModes
    requires h'.history.epochs == h.history.epochs && h'.history.used == h.history.used
    requires h'.history.minting <= h.history.minting
    requires h'.arbitrations == h.arbitrations || (room in h.rooms && room !in h.history.minting &&
             h'.arbitrations == h.arbitrations[room := ArbitrationOf(h', room)])
    requires room in h.rooms && ArbitrationOf(h', room).firstReport.Some? ==>
               ArbitrationOf(h', room).firstReport.value.user in h.rooms[room]
    ensures Registry(h')
  {
    forall r ensures Agrees(h', r) {
      assert Agrees(h, r);
    }
  }

  /** Deleting a room from every map keeps the registry in order. */
  lemma DeletedRoomOk(h: Hub, h': Hub, room: RoomId)
    requires Registry(h)
    requires h'.rooms == h.rooms - {room} && h'.roomModes == h.roomModes - {room}
    requires h'.battleStart == h.battleStart - {room} && h'.arbitrations == h.arbitrations - {room}
    requires h'.history.epochs == h.history.epochs - {room} && h'.history.used == h.history.used
    requires h'.history.minting == h.history.minting - {room}
    ensures Registry(h')
  {
    forall r ensures Agrees(h', r) {
      assert Agrees(h, r);
    }
  }

  /** Frame rule for the admissions. */
  lemma SameAdmissions(h: Hub, h': Hub)
    requires Admissions(h)
    requires h'.rooms == h.rooms && h'.redis == h.redis && h'.roomCodes == h.roomCodes
    requires h'.history.undeleted == h.history.undeleted && h'.history.used == h.history.used && h'.history.minting == h.history.minting
    ensures Admissions(h')
  {
    forall r ensures Admitted(h', r) {
      assert Admitted(h, r);
    }
  }

  /** Deleting a room from the hub and, if that works, from Redis. */
  lemma DeletedAdmissions(h: Hub, h': Hub, room: RoomId, fails: bool)
    requires Admissions(h)
    requires h'.rooms == h.rooms - {room} && h'.redis == DeleteSet(h.redis, room, fails)
    requires h'.roomCodes == h.roomCodes || h'.roomCodes == h.roomCodes - {room}
    requires h'.history.undeleted == Undeleted(h, room, fails) && h'.history.used == h.history.used
    requires h'.history.minting == h.history.minting - {room}
    ensures Admissions(h')
  {
    forall r ensures Admitted(h', r) {
      assert Admitted(h, r);
    }
  }

  /** Events that decide nothing and call nobody: epochs may open or close, and no decided
      arbitration of a surviving epoch is lost. */
  lemma QuietKeepsDecided(h: Hub, h': Hub)
    requires Decided(h) && CallsOk(h)
    requires h'.history.decisions == h.history.decisions
    requires h'.history.pending == h.history.pending && h'.history.calls == h.history.calls
    requires h.history.nextEpoch <= h'.history.nextEpoch
    requires forall r :: r in h'.history.epochs ==> h'.history.epochs[r] < h'.history.nextEpoch
    requires forall r, q :: r in h'.history.epochs && q in h'.history.epochs && h'.history.epochs[r] == h'.history.epochs[q] ==> r == q
    requires forall r :: r in h'.history.epochs && h'.history.epochs[r] < h.history.nextEpoch ==>
               && r in h.history.epochs && h.history.epochs[r] == h'.history.epochs[r]
               && (r in h.arbitrations && h.arbitrations[r].decided ==> r in h'.arbitrations && h'.arbitrations[r].decided)
    ensures Decided(h') && CallsOk(h')
  {
    forall d, r | d in h'.history.decisions && r in h'.history.epochs && h'.history.epochs[r] == d.epoch
      ensures r in h'.arbitrations && h'.arbitrations[r].decided
    {
      assert d in h.history.decisions;
    }
  }

  /** Events that append one outcome for an epoch no earlier outcome has. */
  lemma DecisionKeepsDecided(h: Hub, h': Hub, d: Decision)
    requires Decided(h) && d.winner != d.loser && d.epoch < h.history.nextEpoch
    requires forall e :: e in h.history.decisions ==> e.epoch != d.epoch
    requires h'.history.decisions == h.history.decisions + [d] && h'.history.nextEpoch == h.history.nextEpoch
    requires forall r :: r in h'.history.epochs ==> r in h.history.epochs && h'.history.epochs[r] == h.history.epochs[r]
    requires forall r :: r in h'.history.epochs && (h'.history.epochs[r] == d.epoch || (r in h.arbitrations && h.arbitrations[r].decided)) ==>
               r in h'.arbitrations && h'.arbitrations[r].decided
    ensures Decided(h')
  {
    forall e, r | e in h'.history.decisions && r in h'.history.epochs && h'.history.epochs[r] == e.epoch
      ensures r in h'.arbitrations && h'.arbitrations[r].decided
    {
      assert e in h.history.decisions || e == d;
    }
  }

  lemma PendingKeepsCalls(h: Hub, h': Hub, d: Decision)
    requires CallsOk(h) && (forall e :: e in h.history.decisions ==> e.epoch != d.epoch)
    requires h'.history.decisions == h.history.decisions + [d]
    requires h'.history.pending == h.history.pending + [d] && h'.history.calls == h.history.calls
    ensures CallsOk(h')
  {
    forall e | e in h'.history.pending ensures e in h'.history.decisions {
      assert e in h.history.pending || e == d;
    }
    assert h'.history.decisions[|h.history.decisions|] == d;
  }

  lemma CallKeepsCalls(h: Hub, h': Hub, c: RatingsCall)
    requires CallsOk(h) && (forall e :: e in h.history.decisions ==> e.epoch != c.decision.epoch)
    requires h'.history.decisions == h.history.decisions + [c.decision]
    requires h'.history.pending == h.history.pending
    requires h'.history.calls == h.history.calls + [c] || h'.history.calls == h.history.calls
    ensures CallsOk(h')
  {
    assert h'.history.decisions[|h.history.decisions|] == c.decision;
    forall e | e in h'.history.calls ensures e.decision in h'.history.decisions {
      assert e in h.history.calls || e == c;
    }
  }

  lemma SubsetIsSmaller(a: set<User>, b: set<User>)
    requires a <= b
    ensures |a| <= |b|
  {
    assert b == a + (b - a);
  }

  /** One more member through the join script, in one room. */
  lemma JoinedRoomOk(members: map<User, Conn>, redis: set<User>, user: User, conn: Conn, arb: Arbitration)
    requires members.Keys + {user} <= redis && |redis| <= 2 && user > 0
    requires members == map[] || RoomOk(members.Keys, arb)
    requires members == map[] ==> arb.firstReport.None?
    ensures members[user := conn].Keys == members.Keys + {user}
    ensures |members[user := conn]| == |members.Keys + {user}|
    ensures user in members ==> members.Keys + {user} == members.Keys
    ensures user !in members ==> |members.Keys + {user}| == |members.Keys| + 1
    ensures RoomOk(members.Keys + {user}, arb)
  {
    assert |members[user := conn]| == |members[user := conn].Keys|;
    assert members == map[] ==> members.Keys == {};
    SubsetIsSmaller(members.Keys + {user}, redis);
    assert user in members.Keys + {user};
  }

  lemma RegisteredRoomAgrees(h: Hub, room: RoomId, mode: string, user: User, conn: Conn, now: int)
    requires Agrees(h, room) && Admitted(h, room) && user > 0 && room !in h.history.minting
    requires JoinScript(h.redis, room, user).0 != Full
    ensures Agrees(Admit(h, room, mode, user, conn, now), room)
  {
    var redis := JoinScript(h.redis, room, user).1;
    ScriptAdds(h.redis, room, user);
    RegisterAgrees(h.(redis := redis), room, mode, user, conn, now);
  }

  lemma RegisterAgrees(h: Hub, room: RoomId, mode: string, user: User, conn: Conn, now: int)
    requires Agrees(h, room) && user > 0 && room !in h.history.minting
    requires room in h.redis && HubMembers(h, room).Keys + {user} <= h.redis[room] && |h.redis[room]| <= 2
    ensures Agrees(Register(h, room, mode, user, conn, now), room)
  {
    JoinedRoomOk(HubMembers(h, room), h.redis[room], user, conn, ArbitrationOf(h, room));
  }

  /** What admitting a user to a room comes to. */
  predicate AdmittedInto(h: Hub, h': Hub, room: RoomId, user: User) {
    && room in h'.rooms && h'.rooms[room].Keys == HubMembers(h, room).Keys + {user}
    && room in h'.redis && h'.redis[room] == MembersOf(h.redis, room) + {user} && |h'.redis[room]| <= 2
    && (room in h.rooms || room in h'.history.used) && h.history.used <= h'.history.used
    && h'.history.undeleted == h.history.undeleted && h'.history.minting == h.history.minting && h'.roomCodes == h.roomCodes
  }

  lemma AdmitAdmits(h: Hub, room: RoomId, mode: string, user: User, conn: Conn, now: int)
    requires |MembersOf(h.redis, room)| <= 2 && JoinScript(h.redis, room, user).0 != Full
    ensures AdmittedInto(h, Admit(h, room, mode, user, conn, now), room, user)
  {
    ScriptAdds(h.redis, room, user);
    RegisterAdds(h.(redis := JoinScript(h.redis, room, user).1), room, mode, user, conn, now);
  }

  lemma ScriptAdds(redis: map<RoomId, set<User>>, room: RoomId, user: User)
    requires |MembersOf(redis, room)| <= 2 && JoinScript(redis, room, user).0 != Full
    ensures var redis' := JoinScript(redis, room, user).1;
            room in redis' && redis'[room] == MembersOf(redis, room) + {user} && |redis'[room]| <= 2
  {
    assert user in MembersOf(redis, room) ==> MembersOf(redis, room) + {user} == MembersOf(redis, room);
  }

  lemma RegisterAdds(h: Hub, room: RoomId, mode: string, user: User, conn: Conn, now: int)
    ensures var h' := Register(h, room, mode, user, conn, now);
            && room in h'.rooms && h'.rooms[room].Keys == HubMembers(h, room).Keys + {user}
            && h'.redis == h.redis && h'.roomCodes == h.roomCodes
            && (room in h.rooms || room in h'.history.used) && h.history.used <= h'.history.used
            && h'.history.undeleted == h.history.undeleted && h'.history.minting == h.history.minting
  {
    assert HubMembers(h, room)[user := conn].Keys == HubMembers(h, room).Keys + {user};
  }

  lemma RegisteredRoomAdmitted(h: Hub, h': Hub, room: RoomId, user: User)
    requires Admitted(h, room) && room !in h.history.minting && AdmittedInto(h, h', room, user)
    ensures Admitted(h', room)
  {
  }

  lemma OtherRoomAdmitted(h: Hub, room: RoomId, mode: string, user: User, conn: Conn, now: int, r: RoomId)
    requires Admitted(h, r) && r != room
    ensures Admitted(Admit(h, room, mode, user, conn, now), r)
  {
  }

  lemma AdmitKeepsAdmissions(h: Hub, room: RoomId, mode: string, user: User, conn: Conn, now: int)
    requires Admissions(h) && room !in h.history.minting
    ensures Admissions(Admit(h, room, mode, user, conn, now))
  {
    if JoinScript(h.redis, room, user).0 != Full {
      forall r ensures Admitted(Admit(h, room, mode, user, conn, now), r) {
        assert Admitted(h, r);
        if r == room {
          AdmitAdmits(h, room, mode, user, conn, now);
          RegisteredRoomAdmitted(h, Admit(h, room, mode, user, conn, now), room, user);
        } else {
          OtherRoomAdmitted(h, room, mode, user, conn, now, r);
        }
      }
    }
  }

  lemma OtherRoomAgrees(h: Hub, room: RoomId, mode: string, user: User, conn: Conn, now: int, r: RoomId)
    requires Agrees(h, r) && r != room
    ensures Agrees(Admit(h, room, mode, user, conn, now), r)
  {
  }

  lemma RegisterKeepsRegistry(h: Hub, room: RoomId, mode: string, user: User, conn: Conn, now: int)
    requires Registry(h) && Admitted(h, room) && user > 0 && room !in h.history.minting
    requires JoinScript(h.redis, room, user).0 != Full
    ensures Registry(Admit(h, room, mode, user, conn, now))
  {
    forall r ensures Agrees(Admit(h, room, mode, user, conn, now), r) {
      assert Agrees(h, r);
      if r == room {
        RegisteredRoomAgrees(h, room, mode, user, conn, now);
      } else {
        OtherRoomAgrees(h, room, mode, user, conn, now, r);
      }
    }
  }

  lemma OpenedKeepsDecided(h: Hub, h': Hub, room: RoomId)
    requires Decided(h) && CallsOk(h)
    requires h'.arbitrations == h.arbitrations && h'.history.decisions == h.history.decisions
    requires h'.history.pending == h.history.pending && h'.history.calls == h.history.calls
    requires || (h'.history.epochs == h.history.epochs && h'.history.nextEpoch == h.history.nextEpoch)
             || (room !in h.history.epochs && h'.history.epochs == h.history.epochs[room := h.history.nextEpoch]
                 && h'.history.nextEpoch == h.history.nextEpoch + 1)
    ensures Decided(h') && CallsOk(h')
  {
    QuietKeepsDecided(h, h');
  }

  lemma AdmitKeepsDecided(h: Hub, room: RoomId, mode: string, user: User, conn: Conn, now: int)
    requires Decided(h) && CallsOk(h) && (room in h.rooms <==> room in h.history.epochs)
    ensures Decided(Admit(h, room, mode, user, conn, now)) && CallsOk(Admit(h, room, mode, user, conn, now))
  {
    OpenedKeepsDecided(h, Admit(h, room, mode, user, conn, now), room);
  }

  lemma AdmitKeepsInv(h: Hub, room: RoomId, mode: string, user: User, conn: Conn, now: int)
    requires Inv(h) && user > 0 && room !in h.history.minting
    ensures Inv(Admit(h, room, mode, user, conn, now))
  {
    assert Agrees(h, room) && Admitted(h, room);
    AdmitKeepsDecided(h, room, mode, user, conn, now);
    AdmitKeepsAdmissions(h, room, mode, user, conn, now);
    if JoinScript(h.redis, room, user).0 != Full {
      RegisterKeepsRegistry(h, room, mode, user, conn, now);
    }
  }

  lemma DecideKeepsInv(h: Hub, room: RoomId, winner: User, loser: User)
    requires Inv(h) && TimerPending(h, room) && winner != loser
    ensures Inv(Decide(h, room, winner, loser))
  {
    var h' := Decide(h, room, winner, loser);
    var d := DecisionFor(h, room, winner, loser);
    assert Agrees(h, room);
    NewArbitrationOk(h, h', room);
    SameAdmissions(h, h');
    DecisionKeepsDecided(h, h', d);
    PendingKeepsCalls(h, h', d);
  }

  lemma ReportKeepsInv(h: Hub, user: User, room: RoomId, recv: int)
    requires Inv(h) && room !in h.history.minting
    ensures Inv(ReportStep(h, user, room, recv))
  {
    var arb := ArbitrationOf(h, room);
    if user in HubMembers(h, room) && !arb.decided {
      if arb.firstReport.None? {
        var h' := ReportStep(h, user, room, recv);
        assert Agrees(h, room);
        NewArbitrationOk(h, h', room);
        SameAdmissions(h, h');
        QuietKeepsDecided(h, h');
      } else if user != arb.firstReport.value.user {
        DecideKeepsInv(h, room, user, arb.firstReport.value.user);
        DecideKeepsInv(h, room, arb.firstReport.value.user, user);
      }
    }
  }

  lemma TimeoutKeepsInv(h: Hub, room: RoomId, winner: User)
    requires Inv(h)
    ensures Inv(TimeoutStep(h, room, winner))
  {
    if TimerPending(h, room) {
      assert Agrees(h, room);
      var loser := h.arbitrations[room].firstReport.value.user;
      if LoopWinner(HubMembers(h, room).Keys, loser, winner) {
        DecideKeepsInv(h, room, winner, loser);
      }
    }
  }

  lemma CloseKeepsInv(h: Hub, room: RoomId, removeFails: bool)
    requires Inv(h) && room !in h.history.minting
    ensures Inv(CloseRoom(h, room, removeFails))
  {
    var h' := CloseRoom(h, room, removeFails);
    assert h.history.minting - {room} == h.history.minting;
    DeletedRoomOk(h, h', room);
    DeletedAdmissions(h, h', room, removeFails);
    QuietKeepsDecided(h, h');
  }

  lemma ForfeitKeepsInv(h: Hub, user: User, room: RoomId, winner: User, now: int, removeFails: bool)
    requires Inv(h) && room !in h.history.minting
    requires Forfeits(h, user, room) && winner in HubMembers(h, room).Keys - {user}
    ensures Inv(CloseRoom(Forfeit(h, user, room, winner, now), room, removeFails))
  {
    var h' := CloseRoom(Forfeit(h, user, room, winner, now), room, removeFails);
    var d := DecisionFor(h, room, winner, user);
    assert Agrees(h, room);
    assert h.history.minting - {room} == h.history.minting;
    DeletedRoomOk(h, h', room);
    DeletedAdmissions(h, h', room, removeFails);
    DecisionKeepsDecided(h, h', d);
    CallKeepsCalls(h, h', RatingsCall(d, Duration(h, room, now)));
  }

  lemma LeaveKeepsInv(h: Hub, user: User, room: RoomId, winner: User, now: int, removeFails: bool)
    requires Inv(h) && room !in h.history.minting
    ensures Inv(LeaveStep(h, user, room, winner, now, removeFails))
  {
    if room.text != "" {
      if !Forfeits(h, user, room) {
        CloseKeepsInv(h, room, removeFails);
      } else if winner in HubMembers(h, room).Keys - {user} {
        ForfeitKeepsInv(h, user, room, winner, now, removeFails);
      }
    }
  }

  lemma FireKeepsInv(h: Hub, which: nat, now: int)
    requires Inv(h)
    ensures Inv(FireStep(h, which, now))
  {
    var h' := FireStep(h, which, now);
    if which < |h.history.pending| {
      assert Agrees(h, h.history.pending[which].room);
      NewArbitrationOk(h, h', h.history.pending[which].room);
      SameAdmissions(h, h');
      FireKeepsCalls(h, h', which, RatingsCall(h.history.pending[which], Duration(h, h.history.pending[which].room, now)));
    }
  }

  lemma FireKeepsCalls(h: Hub, h': Hub, which: nat, c: RatingsCall)
    requires CallsOk(h) && which < |h.history.pending| && c.decision == h.history.pending[which]
    requires h'.history.decisions == h.history.decisions
    requires h'.history.pending == h.history.pending[..which] + h.history.pending[which + 1..]
    requires h'.history.calls == h.history.calls + [c] || h'.history.calls == h.history.calls
    ensures CallsOk(h')
  {
    assert forall d :: d in h'.history.pending ==> d in h.history.pending && d.epoch != c.decision.epoch;
    assert forall e :: e in h'.history.calls ==> e in h.history.calls || e == c;
  }

  lemma CreateKeepsInv(h: Hub, user: User, conn: Conn, room: RoomId, now: int)
    requires Inv(h) && user > 0 && room !in h.history.used
    ensures Inv(CreateStep(h, user, conn, room, now))
  {
    assert Agrees(h, room) && Admitted(h, room);
    AdmitKeepsInv(h, room, MODE_UNRANKED, user, conn, now);
    var h1 := Admit(h, room, MODE_UNRANKED, user, conn, now);
    var h' := CreateStep(h, user, conn, room, now);
    forall r ensures Agrees(h', r) && Admitted(h', r) {
      assert Agrees(h1, r) && Admitted(h1, r);
    }
    QuietKeepsDecided(h1, h');
  }

  lemma MintedKeepsInv(h: Hub, room: RoomId, code: string)
    requires Inv(h) && room in h.history.minting
    ensures Inv(MintedStep(h, room, code))
  {
    var h' := MintedStep(h, room, code);
    assert Agrees(h, room);
    NewArbitrationOk(h, h', room);
    forall r ensures Admitted(h', r) {
      assert Admitted(h, r);
    }
    QuietKeepsDecided(h, h');
  }

  lemma RollbackKeepsInv(h: Hub, room: RoomId, removeFails: bool)
    requires Inv(h) && room in h.history.minting
    ensures Inv(RollbackStep(h, room, removeFails))
  {
    var h' := RollbackStep(h, room, removeFails);
    assert Agrees(h, room);
    assert h.arbitrations - {room} == h.arbitrations;
    DeletedRoomOk(h, h', room);
    DeletedAdmissions(h, h', room, removeFails);
    QuietKeepsDecided(h, h');
  }

  lemma StepKeepsInv(h: Hub, e: Event)
    requires Inv(h) && Env(h, e)
    ensures Inv(Step(h, e))
  {
    match e
    case Join(user, conn, room, mode, now) => AdmitKeepsInv(h, room, mode, user, conn, now);
    case CreateRoom(user, conn, room, now) => CreateKeepsInv(h, user, conn, room, now);
    case CodeMinted(room, code) => MintedKeepsInv(h, room, code);
    case CodeFailed(room, removeFails) => RollbackKeepsInv(h, room, removeFails);
    case JoinByCode(user, conn, room, now) => AdmitKeepsInv(h, room, MODE_UNRANKED, user, conn, now);
    case Report(user, room, recv) => ReportKeepsInv(h, user, room, recv);
    case TimerFires(room, winner) => TimeoutKeepsInv(h, room, winner);
    case Leave(user, room, winner, now, removeFails) => LeaveKeepsInv(h, user, room, winner, now, removeFails);
    case FireRatings(which, now) => FireKeepsInv(h, which, now);
  }

  lemma LegalPrefix(es: seq<Event>)
    requires es != [] && Legal(es)
    ensures Legal(es[..|es| - 1]) && Env(Run(EmptyHub, es[..|es| - 1]), es[|es| - 1])
  {
    var n := |es| - 1;
    forall k | 0 <= k < n ensures Env(Run(EmptyHub, es[..n][..k]), es[..n][k]) {
      assert es[..n][..k] == es[..k];
    }
  }

  lemma {:induction false} RunKeepsInv(es: seq<Event>)
    requires Legal(es)
    ensures Inv(Run(EmptyHub, es))
  {
    if es != [] {
      LegalPrefix(es);
      RunKeepsInv(es[..|es| - 1]);
      StepKeepsInv(Run(EmptyHub, es[..|es| - 1]), es[|es| - 1]);
    }
  }

  // ---- Safety over every interleaving ---------------------------------------------------

  /** An epoch decides at most one outcome and causes at most one ratings call, the call is for
      that outcome, and the winner is never the loser.  Room ids may be reused here. */
  lemma {:induction false} OneOutcomeOneCallPerEpoch(es: seq<Event>)
    requires Legal(es)
    ensures var t := Run(EmptyHub, es).history;
            && (forall i, j :: 0 <= i < j < |t.decisions| ==> t.decisions[i].epoch != t.decisions[j].epoch)
            && (forall i, j :: 0 <= i < j < |t.calls| ==> t.calls[i].decision.epoch != t.calls[j].decision.epoch)
            && (forall c :: c in t.calls ==> c.decision in t.decisions)
            && (forall d :: d in t.decisions ==> d.winner != d.loser)
  {
    RunKeepsInv(es);
  }

  /** In every reachable state the hub's maps agree with each other; a live room's members are in
      its Redis set, which never grows past two; and unless a delete of that set has failed the
      set and the members are the same. */
  lemma {:induction false} RegistryAgrees(es: seq<Event>)
    requires Legal(es)
    ensures var h := Run(EmptyHub, es);
            && h.rooms.Keys == h.roomModes.Keys && h.arbitrations.Keys <= h.rooms.Keys <= h.redis.Keys
            && h.battleStart.Keys == (set r | r in h.rooms && |h.rooms[r].Keys| == 2)
            && (forall r :: r in h.rooms ==> h.rooms[r].Keys <= h.redis[r] && 1 <= |h.rooms[r].Keys| <= |h.redis[r]| <= 2)
            && (forall r :: r in h.redis && r !in h.history.undeleted ==> r in h.rooms && h.redis[r] == h.rooms[r].Keys)
  {
    RunKeepsInv(es);
    SameKeys(Run(EmptyHub, es));
    var h := Run(EmptyHub, es);
    assert forall r :: r !in h.history.undeleted ==> HubAndRedisAgree(h, r);
  }

  /** The hub and Redis know the same members of the room, or neither knows it. */
  predicate HubAndRedisAgree(h: Hub, r: RoomId) {
    (r in h.rooms <==> r in h.redis) && (r in h.rooms ==> h.redis[r] == h.rooms[r].Keys)
  }

  predicate AgreesAt(h: Hub, r: RoomId) {
    && (r in h.rooms <==> r in h.roomModes)
    && (r in h.arbitrations ==> r in h.rooms)
    && (r in h.battleStart <==> r in h.rooms && |h.rooms[r].Keys| == 2)
  }

  predicate AdmittedAt(h: Hub, r: RoomId) {
    && (r in h.rooms ==> r in h.redis && h.rooms[r].Keys <= h.redis[r] && 1 <= |h.rooms[r].Keys| <= |h.redis[r]| <= 2)
    && (r !in h.history.undeleted ==> HubAndRedisAgree(h, r))
  }

  lemma RoomAgreesAt(h: Hub, r: RoomId)
    requires Registry(h) && Admissions(h)
    ensures AgreesAt(h, r) && AdmittedAt(h, r)
  {
    assert Agrees(h, r) && Admitted(h, r);
    if r in h.rooms {
      SubsetIsSmaller(h.rooms[r].Keys, h.redis[r]);
    }
  }

  lemma SameKeys(h: Hub)
    requires Registry(h) && Admissions(h)
    ensures h.rooms.Keys == h.roomModes.Keys && h.arbitrations.Keys <= h.rooms.Keys <= h.redis.Keys
    ensures h.battleStart.Keys == set r | r in h.rooms && |h.rooms[r].Keys| == 2
    ensures forall r :: r in h.rooms ==> h.rooms[r].Keys <= h.redis[r] && 1 <= |h.rooms[r].Keys| <= |h.redis[r]| <= 2
    ensures forall r :: r !in h.history.undeleted ==> HubAndRedisAgree(h, r)
  {
    forall r ensures (r in h.rooms <==> r in h.roomModes) && (r in h.rooms ==> r in h.redis) && (r in h.arbitrations ==> r in h.rooms) {
      RoomAgreesAt(h, r);
    }
    forall r ensures r in h.battleStart <==> r in h.rooms && |h.rooms[r].Keys| == 2 {
      RoomAgreesAt(h, r);
    }
    forall r | r in h.rooms ensures h.rooms[r].Keys <= h.redis[r] && 1 <= |h.rooms[r].Keys| <= |h.redis[r]| <= 2 {
      RoomAgreesAt(h, r);
    }
    forall r | r !in h.history.undeleted ensures HubAndRedisAgree(h, r) {
      RoomAgreesAt(h, r);
    }
  }

  // ---- Ratings calls --------------------------------------------------------------------

  lemma OtherEventsCallNobody(h: Hub, e: Event)
    requires !e.Leave? && !e.FireRatings?
    ensures Step(h, e).history.calls == h.history.calls
  {
    if e.Join? || e.CreateRoom? || e.JoinByCode? {
      AdmissionsCallNobody(h, e);
    } else {
      DecisionsCallNobody(h, e);
    }
  }

  lemma AdmissionsCallNobody(h: Hub, e: Event)
    requires e.Join? || e.CreateRoom? || e.JoinByCode?
    ensures Step(h, e).history.calls == h.history.calls
  {
    match e
    case Join(user, conn, room, mode, now) => AdmitCallsNobody(h, room, mode, user, conn, now);
    case CreateRoom(user, conn, room, now) => AdmitCallsNobody(h, room, MODE_UNRANKED, user, conn, now);
    case JoinByCode(user, conn, room, now) => AdmitCallsNobody(h, room, MODE_UNRANKED, user, conn, now);
  }

  lemma DecisionsCallNobody(h: Hub, e: Event)
    requires e.Report? || e.TimerFires? || e.CodeMinted? || e.CodeFailed?
    ensures Step(h, e).history.calls == h.history.calls
  {
    match e
    case Report(user, room, recv) => ReportCallsNobody(h, user, room, recv);
    case TimerFires(room, winner) => TimeoutCallsNobody(h, room, winner);
    case _ =>
  }

  lemma ReportCallsNobody(h: Hub, user: User, room: RoomId, recv: int)
    ensures ReportStep(h, user, room, recv).history.calls == h.history.calls
  {
  }

  lemma TimeoutCallsNobody(h: Hub, room: RoomId, winner: User)
    ensures TimeoutStep(h, room, winner).history.calls == h.history.calls
  {
  }

  lemma AdmitCallsNobody(h: Hub, room: RoomId, mode: string, user: User, conn: Conn, now: int)
    ensures Admit(h, room, mode, user, conn, now).history.calls == h.history.calls
  {
  }

  lemma LastCall(calls: seq<RatingsCall>, c: RatingsCall, d: RatingsCall)
    requires calls + [c] == calls + [d]
    ensures c == d
  {
    assert (calls + [c])[|calls|] == (calls + [d])[|calls|];
  }

  /** A call for a ranked room, with the time since that room got its second member. */
  predicate MeasuresTheBattle(h: Hub, c: RatingsCall, now: int) {
    var room := c.decision.room;
    && room in h.rooms && IsRanked(h, room)
    && (|h.rooms[room].Keys| == 2 ==> room in h.battleStart && c.durationMs == now - h.battleStart[room])
  }

  lemma RankedCallMeasures(h: Hub, d: Decision, now: int)
    requires Registry(h) && IsRanked(h, d.room)
    ensures MeasuresTheBattle(h, RatingsCall(d, Duration(h, d.room, now)), now)
  {
    assert Agrees(h, d.room);
  }

  lemma LeaveCallMeasures(h: Hub, user: User, room: RoomId, winner: User, now: int, removeFails: bool, c: RatingsCall)
    requires Registry(h) && LeaveStep(h, user, room, winner, now, removeFails).history.calls == h.history.calls + [c]
    ensures MeasuresTheBattle(h, c, now)
  {
    var d := DecisionFor(h, room, winner, user);
    assert |h.history.calls + [c]| == |h.history.calls| + 1;
    assert IsRanked(h, room);
    LastCall(h.history.calls, c, RatingsCall(d, Duration(h, room, now)));
    RankedCallMeasures(h, d, now);
  }

  lemma FireCallMeasures(h: Hub, which: nat, now: int, c: RatingsCall)
    requires Registry(h) && FireStep(h, which, now).history.calls == h.history.calls + [c]
    ensures MeasuresTheBattle(h, c, now)
  {
    assert |h.history.calls + [c]| == |h.history.calls| + 1;
    var d := h.history.pending[which];
    LastCall(h.history.calls, c, RatingsCall(d, Duration(h, d.room, now)));
    RankedCallMeasures(h, d, now);
  }

  /** Ratings are called only by a forfeit or by a deciding goroutine that has come to read the
      mode, only for a live ranked room, with the time since that room got its second member. */
  lemma CallsMeasureTheBattle(h: Hub, e: Event, c: RatingsCall)
    requires Registry(h) && Step(h, e).history.calls == h.history.calls + [c]
    ensures e.Leave? || e.FireRatings?
    ensures var room := c.decision.room;
            && room in h.rooms && room in h.roomModes && h.roomModes[room] == "ranked"
            && (|h.rooms[room].Keys| == 2 ==> room in h.battleStart && c.durationMs == e.now - h.battleStart[room])
  {
    assert |h.history.calls + [c]| == |h.history.calls| + 1;
    if !e.Leave? && !e.FireRatings? {
      OtherEventsCallNobody(h, e);
    } else if e.Leave? {
      LeaveCallMeasures(h, e.user, e.room, e.winner, e.now, e.removeFails, c);
    } else {
      FireCallMeasures(h, e.which, e.now, c);
    }
  }

  // ---- The gate and the rollback --------------------------------------------------------

  /** The script admits a third user never, a member always, and anyone else while there is room. */
  lemma AdmissionGate(redis: map<RoomId, set<User>>, room: RoomId, user: User)
    requires |MembersOf(redis, room)| <= 2
    ensures var (result, redis') := JoinScript(redis, room, user);
            && |MembersOf(redis', room)| <= 2
            && MembersOf(redis, room) <= MembersOf(redis', room)
            && (result == Full <==> user !in MembersOf(redis', room))
            && (result == Full ==> redis' == redis && |MembersOf(redis, room)| == 2)
            && JoinScript(redis', room, user) == (if result == Full then Full else AlreadyMember, redis')
            && (forall r :: r != room ==> MembersOf(redis', r) == MembersOf(redis, r))
  {
  }

  // ---- What a leave and a rollback leave behind -----------------------------------------

  /** A leave clears the hub; the hub and Redis agree on the room again if and only if the delete
      works or there was no set to delete. */
  lemma LeaveResidue(h: Hub, user: User, room: RoomId, winner: User, now: int, removeFails: bool)
    requires room.text != "" && (Forfeits(h, user, room) ==> winner in HubMembers(h, room).Keys - {user})
    ensures var h' := Step(h, Leave(user, room, winner, now, removeFails));
            && room !in h'.rooms && room !in h'.arbitrations && room !in h'.roomModes && room !in h'.battleStart && room !in h'.roomCodes
            && (room !in h'.redis <==> !removeFails || room !in h.redis)
            && (room in h'.redis ==> h'.redis[room] == h.redis[room])
  {
  }

  /** Rolling back a failed CreateRoom leaves nothing of the room in the hub, in every legal run;
      in particular no arbitration, although the rollback does not delete one.  It leaves the
      creator in the Redis set if and only if the delete fails. */
  lemma {:induction false} RollbackResidue(es: seq<Event>, room: RoomId, removeFails: bool)
    requires Legal(es) && Env(Run(EmptyHub, es), CodeFailed(room, removeFails))
    ensures var h, h' := Run(EmptyHub, es), Run(EmptyHub, es + [CodeFailed(room, removeFails)]);
            && room !in h'.rooms && room !in h'.arbitrations && room !in h'.roomModes && room !in h'.battleStart && room !in h'.roomCodes
            && (room !in h'.redis <==> !removeFails)
            && (removeFails ==> room in h.rooms && room in h'.redis && h'.redis[room] == h.rooms[room].Keys)
  {
    var h := Run(EmptyHub, es);
    RunKeepsInv(es);
    assert (es + [CodeFailed(room, removeFails)])[..|es|] == es;
    assert Agrees(h, room) && Admitted(h, room);
  }

  /** A run in which both fail: nobody is in the room, and Redis still counts its creator. */
  lemma RollbackResidueHappens(room: RoomId)
    ensures var es := [CreateRoom(1, 0, room, 0), CodeFailed(room, true)];
            var h := Run(EmptyHub, es);
            Legal(es) && room !in h.rooms && room in h.redis && h.redis[room] == {1}
  {
    var none: seq<Event> := [];
    var created := none + [CreateRoom(1, 0, room, 0)];
    var failed := created + [CodeFailed(room, true)];
    assert failed == [CreateRoom(1, 0, room, 0), CodeFailed(room, true)];
    OneMoreEvent(none, CreateRoom(1, 0, room, 0));
    CreatedAlone(room);
    OneMoreEvent(created, CodeFailed(room, true));
  }

  lemma OneMoreEvent(es: seq<Event>, e: Event)
    requires Legal(es) && Env(Run(EmptyHub, es), e)
    ensures Legal(es + [e]) && Run(EmptyHub, es + [e]) == Step(Run(EmptyHub, es), e)
  {
    var more := es + [e];
    assert more[..|es|] == es;
    forall k | 0 <= k < |more| ensures Env(Run(EmptyHub, more[..k]), more[k]) {
      if k < |es| {
        assert more[..k] == es[..k];
      }
    }
  }

  lemma CreatedAlone(room: RoomId)
    ensures var h := CreateStep(EmptyHub, 1, 0, room, 0);
            room in h.history.minting && room in h.redis && h.redis[room] == {1}
  {
    assert JoinScript(map[], room, 1) == (Joined, map[room := {1}]);
  }
}
