/** What the hub guarantees when room ids are never reused and a connection leaves only a room
    that admitted it: a room is decided at most once in its whole life, and its outcome names its
    two members, or a lone member who timed out against the zero id.  Both demands are on the
    environment, beside those that hold for every run. */
module SignalingRooms {
  import opened Options
  import opened SignalingHub
  import opened SignalingSafety

  /** The two people in the room, or a lone member who timed out against the zero id. */
  predicate NamesTheMembers(d: Decision) {
    || d.members == {d.winner, d.loser}
    || (d.members == {d.loser} && d.winner == 0)
  }

  /** One room: its members are all who were ever admitted. */
  predicate UsedOnce(h: Hub, r: RoomId) {
    && (r in h.rooms ==> MembersOf(h.history.admitted, r) == h.rooms[r].Keys)
    && (r !in h.history.used ==> MembersOf(h.history.admitted, r) == {})
  }

  /** One outcome: its room was used, and while that room lives it is in the same epoch. */
  predicate OutcomeOk(h: Hub, d: Decision) {
    && d.room in h.history.used
    && NamesTheMembers(d)
    && (d.room in h.history.epochs ==> h.history.epochs[d.room] == d.epoch)
  }

  predicate DistinctRooms(ds: seq<Decision>) {
    forall i, j :: 0 <= i < j < |ds| ==> ds[i].room != ds[j].room
  }

  predicate OutcomesOk(h: Hub) {
    && DistinctRooms(h.history.decisions)
    && (forall d :: d in h.history.decisions ==> OutcomeOk(h, d))
  }

  ghost predicate RoomsInv(h: Hub) {
    Inv(h) && (forall r :: UsedOnce(h, r)) && OutcomesOk(h)
  }

  // ---- Who is named ---------------------------------------------------------------------

  lemma TwoMembers(members: set<User>, a: User, b: User)
    requires a in members && b in members && a != b && |members| <= 2
    ensures members == {a, b}
  {
    var rest := members - {a, b};
    assert members == rest + {a, b};
    assert |rest| == |members| - |{a, b}|;
  }

  lemma DecisionNamesMembers(h: Hub, room: RoomId, winner: User, loser: User)
    requires Inv(h) && room in h.rooms
    requires loser in h.rooms[room].Keys && LoopWinner(h.rooms[room].Keys, loser, winner)
    ensures NamesTheMembers(DecisionFor(h, room, winner, loser))
  {
    assert Agrees(h, room);
    if winner in h.rooms[room].Keys - {loser} {
      TwoMembers(h.rooms[room].Keys, winner, loser);
    }
  }

  // ---- Preservation ---------------------------------------------------------------------

  lemma RegisteredUsedOnce(h: Hub, room: RoomId, mode: string, user: User, conn: Conn, now: int)
    requires UsedOnce(h, room) && (room in h.rooms || room !in h.history.used)
    requires room in h.rooms ==> room in h.roomModes && room in h.history.used
    ensures UsedOnce(Admit(h, room, mode, user, conn, now), room)
  {
  }

  lemma OtherUsedOnce(h: Hub, room: RoomId, mode: string, user: User, conn: Conn, now: int, r: RoomId)
    requires UsedOnce(h, r) && r != room
    ensures UsedOnce(Admit(h, room, mode, user, conn, now), r)
  {
  }

  lemma AdmitUsedOnce(h: Hub, room: RoomId, mode: string, user: User, conn: Conn, now: int)
    requires RoomsInv(h) && (room in h.rooms || room !in h.history.used)
    ensures var h' := Admit(h, room, mode, user, conn, now);
            (forall r :: UsedOnce(h', r)) && OutcomesOk(h')
  {
    var h' := Admit(h, room, mode, user, conn, now);
    assert Agrees(h, room) && UsedOnce(h, room);
    forall r ensures UsedOnce(h', r) {
      assert UsedOnce(h, r);
      if r == room {
        RegisteredUsedOnce(h, room, mode, user, conn, now);
      } else {
        OtherUsedOnce(h, room, mode, user, conn, now, r);
      }
    }
    AdmitOutcomesOk(h, room, mode, user, conn, now);
  }

  lemma AdmitOutcomesOk(h: Hub, room: RoomId, mode: string, user: User, conn: Conn, now: int)
    requires OutcomesOk(h) && Agrees(h, room) && (room in h.rooms || room !in h.history.used)
    ensures OutcomesOk(Admit(h, room, mode, user, conn, now))
  {
    var h' := Admit(h, room, mode, user, conn, now);
    assert h'.history.decisions == h.history.decisions;
    forall d | d in h'.history.decisions ensures OutcomeOk(h', d) {
      assert OutcomeOk(h, d);
    }
  }

  lemma CreateUsedOnce(h: Hub, user: User, conn: Conn, room: RoomId, now: int)
    requires RoomsInv(h) && room !in h.history.used
    ensures var h' := CreateStep(h, user, conn, room, now);
            (forall r :: UsedOnce(h', r)) && OutcomesOk(h')
  {
    AdmitUsedOnce(h, room, MODE_UNRANKED, user, conn, now);
    assert Agrees(h, room);
    MintingIsApart(Admit(h, room, MODE_UNRANKED, user, conn, now), CreateStep(h, user, conn, room, now));
  }

  lemma MintingIsApart(h: Hub, h': Hub)
    requires (forall r :: UsedOnce(h, r)) && OutcomesOk(h)
    requires h' == h.(history := h.history.(minting := h'.history.minting, privateRooms := h'.history.privateRooms))
    ensures (forall r :: UsedOnce(h', r)) && OutcomesOk(h')
  {
    forall r ensures UsedOnce(h', r) {
      assert UsedOnce(h, r);
    }
    forall d | d in h'.history.decisions ensures OutcomeOk(h', d) {
      assert OutcomeOk(h, d);
    }
  }

  /** Steps that decide nothing: rooms and epochs may only disappear. */
  lemma QuietUsedOnce(h: Hub, h': Hub)
    requires RoomsInv(h)
    requires SameOrGone(h, h') && h'.history.decisions == h.history.decisions
    ensures (forall r :: UsedOnce(h', r)) && OutcomesOk(h')
  {
    forall r ensures UsedOnce(h', r) {
      assert UsedOnce(h, r);
    }
    forall d | d in h'.history.decisions ensures OutcomeOk(h', d) {
      assert OutcomeOk(h, d);
    }
  }

  predicate SameOrGone(h: Hub, h': Hub) {
    && (forall r :: r in h'.rooms ==> r in h.rooms && h'.rooms[r] == h.rooms[r])
    && (forall r :: r in h'.history.epochs ==> r in h.history.epochs && h'.history.epochs[r] == h.history.epochs[r])
    && h'.history.admitted == h.history.admitted && h'.history.used == h.history.used
  }

  /** Steps that decide an undecided room once. */
  lemma DecisionUsedOnce(h: Hub, h': Hub, room: RoomId, winner: User, loser: User)
    requires RoomsInv(h) && room in h.rooms && !ArbitrationOf(h, room).decided
    requires loser in h.rooms[room].Keys && LoopWinner(h.rooms[room].Keys, loser, winner)
    requires SameOrGone(h, h') && h'.history.decisions == h.history.decisions + [DecisionFor(h, room, winner, loser)]
    ensures (forall r :: UsedOnce(h', r)) && OutcomesOk(h')
  {
    var d := DecisionFor(h, room, winner, loser);
    assert Agrees(h, room) && UsedOnce(h, room);
    DecisionNamesMembers(h, room, winner, loser);
    forall r ensures UsedOnce(h', r) {
      assert UsedOnce(h, r);
    }
    forall e | e in h.history.decisions ensures e.room != room {
      assert OutcomeOk(h, e);
    }
    forall e | e in h'.history.decisions ensures OutcomeOk(h', e) {
      assert e == d || OutcomeOk(h, e);
    }
  }

  lemma SecondReportUsedOnce(h: Hub, room: RoomId, winner: User, loser: User)
    requires RoomsInv(h) && room in h.rooms && winner in h.rooms[room] && loser in h.rooms[room] && winner != loser
    requires !ArbitrationOf(h, room).decided
    ensures var h' := Decide(h, room, winner, loser);
            (forall r :: UsedOnce(h', r)) && OutcomesOk(h')
  {
    assert winner in h.rooms[room].Keys - {loser};
    DecisionUsedOnce(h, Decide(h, room, winner, loser), room, winner, loser);
  }

  lemma ReportUsedOnce(h: Hub, user: User, room: RoomId, recv: int)
    requires RoomsInv(h)
    ensures var h' := ReportStep(h, user, room, recv);
            (forall r :: UsedOnce(h', r)) && OutcomesOk(h')
  {
    var arb := ArbitrationOf(h, room);
    assert Agrees(h, room);
    if user in HubMembers(h, room) && !arb.decided && arb.firstReport.Some? && user != arb.firstReport.value.user {
      var first := arb.firstReport.value;
      if recv < first.receivedAt {
        SecondReportUsedOnce(h, room, first.user, user);
      } else {
        SecondReportUsedOnce(h, room, user, first.user);
      }
    } else {
      QuietUsedOnce(h, ReportStep(h, user, room, recv));
    }
  }

  lemma TimeoutUsedOnce(h: Hub, room: RoomId, winner: User)
    requires RoomsInv(h)
    ensures var h' := TimeoutStep(h, room, winner);
            (forall r :: UsedOnce(h', r)) && OutcomesOk(h')
  {
    var h' := TimeoutStep(h, room, winner);
    assert Agrees(h, room);
    if h'.history.decisions != h.history.decisions {
      DecisionUsedOnce(h, h', room, winner, h.arbitrations[room].firstReport.value.user);
    } else {
      QuietUsedOnce(h, h');
    }
  }

  lemma ForfeitUsedOnce(h: Hub, user: User, room: RoomId, winner: User, now: int, removeFails: bool)
    requires RoomsInv(h) && user in MembersOf(h.history.admitted, room)
    requires Forfeits(h, user, room) && winner in HubMembers(h, room).Keys - {user}
    ensures var h' := CloseRoom(Forfeit(h, user, room, winner, now), room, removeFails);
            (forall r :: UsedOnce(h', r)) && OutcomesOk(h')
  {
    assert UsedOnce(h, room);
    DecisionUsedOnce(h, CloseRoom(Forfeit(h, user, room, winner, now), room, removeFails), room, winner, user);
  }

  lemma LeaveUsedOnce(h: Hub, user: User, room: RoomId, winner: User, now: int, removeFails: bool)
    requires RoomsInv(h) && user in MembersOf(h.history.admitted, room)
    ensures var h' := LeaveStep(h, user, room, winner, now, removeFails);
            (forall r :: UsedOnce(h', r)) && OutcomesOk(h')
  {
    if room.text == "" {
    } else if !Forfeits(h, user, room) {
      QuietUsedOnce(h, CloseRoom(h, room, removeFails));
    } else if winner in HubMembers(h, room).Keys - {user} {
      ForfeitUsedOnce(h, user, room, winner, now, removeFails);
    }
  }

  lemma FireUsedOnce(h: Hub, which: nat, now: int)
    requires RoomsInv(h)
    ensures var h' := FireStep(h, which, now);
            (forall r :: UsedOnce(h', r)) && OutcomesOk(h')
  {
    if which < |h.history.pending| {
      assert Agrees(h, h.history.pending[which].room);
    }
    QuietUsedOnce(h, FireStep(h, which, now));
  }

  lemma StepUsedOnce(h: Hub, e: Event)
    requires RoomsInv(h) && EnvNoReuse(h, e)
    ensures RoomsInv(Step(h, e))
  {
    StepKeepsInv(h, e);
    match e
    case Join(user, conn, room, mode, now) => AdmitUsedOnce(h, room, mode, user, conn, now);
    case CreateRoom(user, conn, room, now) => CreateUsedOnce(h, user, conn, room, now);
    case CodeMinted(room, code) => QuietUsedOnce(h, Step(h, e));
    case CodeFailed(room, _) => QuietUsedOnce(h, Step(h, e));
    case JoinByCode(user, conn, room, now) => AdmitUsedOnce(h, room, MODE_UNRANKED, user, conn, now);
    case Report(user, room, recv) => ReportUsedOnce(h, user, room, recv);
    case TimerFires(room, winner) => TimeoutUsedOnce(h, room, winner);
    case Leave(user, room, winner, now, removeFails) => LeaveUsedOnce(h, user, room, winner, now, removeFails);
    case FireRatings(which, now) => FireUsedOnce(h, which, now);
  }

  lemma {:induction false} RunUsedOnce(es: seq<Event>)
    requires LegalNoReuse(es)
    ensures RoomsInv(Run(EmptyHub, es))
  {
    if es != [] {
      var n := |es| - 1;
      forall k | 0 <= k < n ensures EnvNoReuse(Run(EmptyHub, es[..n][..k]), es[..n][k]) {
        assert es[..n][..k] == es[..k];
      }
      RunUsedOnce(es[..n]);
      StepUsedOnce(Run(EmptyHub, es[..n]), es[n]);
    }
  }

  // ---- Main results ---------------------------------------------------------------------

  /** A room is decided at most once in its whole life; an outcome in a full room names exactly
      its two members, and the only other outcome is a lone member losing to the zero id. */
  lemma {:induction false} OutcomeNamesTheMembers(es: seq<Event>)
    requires Legal(es)
    requires forall k :: 0 <= k < |es| && (es[k].Join? || es[k].JoinByCode?) ==>
               var h := Run(EmptyHub, es[..k]); es[k].room in h.rooms || es[k].room !in h.history.used
    requires forall k :: 0 <= k < |es| && es[k].Leave? ==>
               var t := Run(EmptyHub, es[..k]).history; es[k].room in t.admitted && es[k].user in t.admitted[es[k].room]
    ensures var ds := Run(EmptyHub, es).history.decisions;
            && (forall i, j :: 0 <= i < j < |ds| ==> ds[i].room != ds[j].room)
            && (forall d :: d in ds && |d.members| == 2 ==> d.members == {d.winner, d.loser} && d.winner != d.loser)
            && (forall d :: d in ds && |d.members| != 2 ==> d.members == {d.loser} && d.winner == 0)
  {
    forall k | 0 <= k < |es| ensures EnvNoReuse(Run(EmptyHub, es[..k]), es[k]) {
      assert Env(Run(EmptyHub, es[..k]), es[k]);
    }
    RunUsedOnce(es);
    var h := Run(EmptyHub, es);
    forall d | d in h.history.decisions
      ensures |d.members| == 2 ==> d.members == {d.winner, d.loser} && d.winner != d.loser
      ensures |d.members| != 2 ==> d.members == {d.loser} && d.winner == 0
    {
      assert OutcomeOk(h, d);
    }
  }
}
