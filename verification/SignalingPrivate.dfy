/** Private rooms are never rated, however their ids are used again: a code resolved before a leave
    may revive the room afterwards, but it revives it unranked, and a ratings call reads the mode of
    the room at its own moment.  The one demand beside those of every run is that nobody opens such
    a room again as a ranked one by its id. */
module SignalingPrivate {
  import opened Options
  import opened SignalingHub
  import opened SignalingSafety

  /** The only demand: nobody opens a private room again as a ranked one by joining it by its id.
      Joining by its code may, before or after its leave. */
  predicate EnvPrivate(h: Hub, e: Event) {
    Env(h, e) && (e.Join? && e.mode == MODE_RANKED && e.room in h.history.privateRooms ==> e.room in h.rooms)
  }

  predicate LegalPrivate(es: seq<Event>) {
    forall k :: 0 <= k < |es| ==> EnvPrivate(Run(EmptyHub, es[..k]), es[k])
  }

  predicate IsUnranked(h: Hub, r: RoomId) {
    r in h.history.privateRooms ==> r in h.history.used && !IsRanked(h, r)
  }

  predicate CallsArePublic(h: Hub) {
    && (forall d :: d in h.history.decisions ==> d.room in h.history.used)
    && (forall c :: c in h.history.calls ==> c.decision.room !in h.history.privateRooms)
  }

  ghost predicate PrivateInv(h: Hub) {
    (forall r :: IsUnranked(h, r)) && CallsArePublic(h)
  }

  /** A step that opens no room: a new outcome is for a used room, a new call for a ranked one. */
  ghost predicate OpensNothing(h: Hub, h': Hub) {
    && h'.history.privateRooms == h.history.privateRooms && h'.history.used == h.history.used
    && (forall r :: IsRanked(h', r) ==> IsRanked(h, r))
    && (forall d :: d in h'.history.decisions ==> d in h.history.decisions || d.room in h.history.used)
    && (forall c :: c in h'.history.calls ==> c in h.history.calls || IsRanked(h, c.decision.room))
  }

  lemma OpeningNothingKeeps(h: Hub, h': Hub)
    requires PrivateInv(h) && OpensNothing(h, h')
    ensures PrivateInv(h')
  {
    forall r ensures IsUnranked(h', r) {
      assert IsUnranked(h, r);
    }
    forall c | c in h'.history.calls ensures c.decision.room !in h'.history.privateRooms {
      assert IsUnranked(h, c.decision.room);
    }
  }

  lemma AdmitKeeps(h: Hub, room: RoomId, mode: string, user: User, conn: Conn, now: int)
    requires PrivateInv(h)
    requires mode == MODE_RANKED && room in h.history.privateRooms ==> room in h.rooms
    ensures PrivateInv(Admit(h, room, mode, user, conn, now))
  {
    var h' := Admit(h, room, mode, user, conn, now);
    forall r ensures IsUnranked(h', r) {
      assert IsUnranked(h, r);
    }
  }

  /** Marking an unranked room nobody was rated in as private. */
  lemma MarkingKeeps(h: Hub, h': Hub, room: RoomId)
    requires PrivateInv(h) && room in h.history.used && !IsRanked(h, room)
    requires forall c :: c in h.history.calls ==> c.decision.room != room
    requires h'.roomModes == h.roomModes && h'.history.used == h.history.used
    requires h'.history.privateRooms == h.history.privateRooms + {room}
    requires h'.history.decisions == h.history.decisions && h'.history.calls == h.history.calls
    ensures PrivateInv(h')
  {
    forall r ensures IsUnranked(h', r) {
      assert IsUnranked(h, r);
    }
  }

  lemma CreateKeeps(h: Hub, user: User, conn: Conn, room: RoomId, now: int)
    requires Inv(h) && PrivateInv(h) && room !in h.history.used
    ensures PrivateInv(CreateStep(h, user, conn, room, now))
  {
    assert Agrees(h, room);
    AdmitKeeps(h, room, MODE_UNRANKED, user, conn, now);
    var h1 := Admit(h, room, MODE_UNRANKED, user, conn, now);
    if JoinScript(h.redis, room, user).0 != Full {
      OpensUnranked(h, room, user, conn, now);
      forall c | c in h1.history.calls ensures c.decision.room != room {
        assert c in h.history.calls && c.decision in h.history.decisions;
      }
      MarkingKeeps(h1, CreateStep(h, user, conn, room, now), room);
    }
  }

  lemma OpensUnranked(h: Hub, room: RoomId, user: User, conn: Conn, now: int)
    requires room !in h.rooms && JoinScript(h.redis, room, user).0 != Full
    ensures var h1 := Admit(h, room, MODE_UNRANKED, user, conn, now);
            room in h1.history.used && !IsRanked(h1, room) && h1.history.calls == h.history.calls
  {
  }

  lemma ReportOpensNothing(h: Hub, user: User, room: RoomId, recv: int)
    requires Agrees(h, room)
    ensures OpensNothing(h, ReportStep(h, user, room, recv))
  {
  }

  lemma TimeoutOpensNothing(h: Hub, room: RoomId, winner: User)
    requires Agrees(h, room)
    ensures OpensNothing(h, TimeoutStep(h, room, winner))
  {
  }

  lemma CloseOpensNothing(h: Hub, room: RoomId, removeFails: bool)
    ensures OpensNothing(h, CloseRoom(h, room, removeFails))
  {
  }

  lemma ForfeitOpensNothing(h: Hub, user: User, room: RoomId, winner: User, now: int, removeFails: bool)
    requires Agrees(h, room) && Forfeits(h, user, room)
    ensures OpensNothing(h, CloseRoom(Forfeit(h, user, room, winner, now), room, removeFails))
  {
    assert room in h.rooms;
  }

  lemma LeaveOpensNothing(h: Hub, user: User, room: RoomId, winner: User, now: int, removeFails: bool)
    requires Agrees(h, room)
    ensures OpensNothing(h, LeaveStep(h, user, room, winner, now, removeFails))
  {
    CloseOpensNothing(h, room, removeFails);
    if Forfeits(h, user, room) {
      ForfeitOpensNothing(h, user, room, winner, now, removeFails);
    }
  }

  lemma FireOpensNothing(h: Hub, which: nat, now: int)
    ensures OpensNothing(h, FireStep(h, which, now))
  {
  }

  lemma AdmissionsKeep(h: Hub, e: Event)
    requires Inv(h) && PrivateInv(h) && EnvPrivate(h, e) && (e.Join? || e.CreateRoom? || e.JoinByCode?)
    ensures PrivateInv(Step(h, e))
  {
    match e
    case Join(user, conn, room, mode, now) => AdmitKeeps(h, room, mode, user, conn, now);
    case CreateRoom(user, conn, room, now) => CreateKeeps(h, user, conn, room, now);
    case JoinByCode(user, conn, room, now) => AdmitKeeps(h, room, MODE_UNRANKED, user, conn, now);
  }

  lemma DecisionsKeep(h: Hub, e: Event)
    requires Inv(h) && PrivateInv(h) && (e.Report? || e.TimerFires? || e.FireRatings?)
    ensures PrivateInv(Step(h, e))
  {
    match e
    case Report(user, room, recv) =>
      assert Agrees(h, room);
      ReportOpensNothing(h, user, room, recv);
      OpeningNothingKeeps(h, ReportStep(h, user, room, recv));
    case TimerFires(room, winner) =>
      assert Agrees(h, room);
      TimeoutOpensNothing(h, room, winner);
      OpeningNothingKeeps(h, TimeoutStep(h, room, winner));
    case FireRatings(which, now) =>
      FireOpensNothing(h, which, now);
      OpeningNothingKeeps(h, FireStep(h, which, now));
  }

  lemma ClosingsKeep(h: Hub, e: Event)
    requires Inv(h) && PrivateInv(h) && (e.Leave? || e.CodeMinted? || e.CodeFailed?)
    ensures PrivateInv(Step(h, e))
  {
    match e
    case Leave(user, room, winner, now, removeFails) =>
      assert Agrees(h, room);
      LeaveOpensNothing(h, user, room, winner, now, removeFails);
      OpeningNothingKeeps(h, LeaveStep(h, user, room, winner, now, removeFails));
    case CodeMinted(room, code) => OpeningNothingKeeps(h, MintedStep(h, room, code));
    case CodeFailed(room, removeFails) => OpeningNothingKeeps(h, RollbackStep(h, room, removeFails));
  }

  lemma StepKeeps(h: Hub, e: Event)
    requires Inv(h) && PrivateInv(h) && EnvPrivate(h, e)
    ensures PrivateInv(Step(h, e))
  {
    if e.Join? || e.CreateRoom? || e.JoinByCode? {
      AdmissionsKeep(h, e);
    } else if e.Report? || e.TimerFires? || e.FireRatings? {
      DecisionsKeep(h, e);
    } else {
      ClosingsKeep(h, e);
    }
  }

  lemma {:induction false} RunKeeps(es: seq<Event>)
    requires LegalPrivate(es)
    ensures Inv(Run(EmptyHub, es)) && PrivateInv(Run(EmptyHub, es))
  {
    if es != [] {
      var n := |es| - 1;
      forall k | 0 <= k < n ensures EnvPrivate(Run(EmptyHub, es[..n][..k]), es[..n][k]) {
        assert es[..n][..k] == es[..k];
      }
      RunKeeps(es[..n]);
      StepKeepsInv(Run(EmptyHub, es[..n]), es[n]);
      StepKeeps(Run(EmptyHub, es[..n]), es[n]);
    }
  }

  /** A room made by CreateRoom never causes a ratings call, over every interleaving, even when a
      code resolved before a leave revives the room after it. */
  lemma {:induction false} PrivateRoomsAreNeverRated(es: seq<Event>)
    requires Legal(es)
    requires forall k :: 0 <= k < |es| && es[k].Join? && es[k].mode == "ranked" && es[k].room in Run(EmptyHub, es[..k]).history.privateRooms ==>
               es[k].room in Run(EmptyHub, es[..k]).rooms
    ensures var t := Run(EmptyHub, es).history;
            forall c :: c in t.calls ==> c.decision.room !in t.privateRooms
  {
    RunKeeps(es);
  }
}
