/** What a room keeps from the registration that created it to the leave that deletes it: its mode,
    its battle start once it is set, everybody who is in it, and an outcome once there is one.  A
    room id may be used again after its leave; then a new epoch begins, with a number of its own,
    and nothing is carried over.  First what one step keeps, then what any stretch of a run does. */
module SignalingEpochs {
  import opened Options
  import opened SignalingHub
  import opened SignalingSafety

  /** What a room keeps while its epoch lasts. */
  predicate RoomKept(h: Hub, h': Hub, room: RoomId)
    requires room in h.rooms
  {
    && room in h'.rooms && h.rooms[room].Keys <= h'.rooms[room].Keys
    && (room in h.roomModes ==> room in h'.roomModes && h'.roomModes[room] == h.roomModes[room])
    && (room in h.battleStart ==> room in h'.battleStart && h'.battleStart[room] == h.battleStart[room])
    && (ArbitrationOf(h, room).decided ==> ArbitrationOf(h', room).decided)
  }

  lemma AdmitKeepsRoom(h: Hub, into: RoomId, mode: string, user: User, conn: Conn, now: int, room: RoomId)
    requires room in h.rooms
    ensures RoomKept(h, Admit(h, into, mode, user, conn, now), room)
  {
    var (result, redis) := JoinScript(h.redis, into, user);
    if result != Full {
      RegisterKeepsRoom(h, h.(redis := redis), into, mode, user, conn, now, room);
    }
  }

  lemma RegisterKeepsRoom(h: Hub, admitted: Hub, into: RoomId, mode: string, user: User, conn: Conn, now: int, room: RoomId)
    requires room in h.rooms && admitted == h.(redis := admitted.redis)
    ensures RoomKept(h, Register(admitted, into, mode, user, conn, now), room)
  {
    var h' := Register(admitted, into, mode, user, conn, now);
    assert h'.arbitrations == h.arbitrations;
    assert h'.rooms[room] == if room == into then h.rooms[room][user := conn] else h.rooms[room];
    assert room in h.battleStart ==> h'.battleStart[room] == h.battleStart[room];
  }

  lemma CreateKeepsRoom(h: Hub, user: User, conn: Conn, into: RoomId, now: int, room: RoomId)
    requires room in h.rooms
    ensures RoomKept(h, CreateStep(h, user, conn, into, now), room)
  {
    AdmitKeepsRoom(h, into, MODE_UNRANKED, user, conn, now, room);
  }

  lemma ReportKeepsRoom(h: Hub, user: User, into: RoomId, recv: int, room: RoomId)
    requires room in h.rooms
    ensures RoomKept(h, ReportStep(h, user, into, recv), room)
  {
  }

  lemma TimeoutKeepsRoom(h: Hub, into: RoomId, winner: User, room: RoomId)
    requires room in h.rooms
    ensures RoomKept(h, TimeoutStep(h, into, winner), room)
  {
  }

  lemma CloseKeepsRoom(h: Hub, closed: RoomId, removeFails: bool, room: RoomId)
    requires room in h.rooms && room != closed
    ensures RoomKept(h, CloseRoom(h, closed, removeFails), room)
  {
  }

  lemma LeaveKeepsRoom(h: Hub, user: User, left: RoomId, winner: User, now: int, removeFails: bool, room: RoomId)
    requires room in h.rooms && room in LeaveStep(h, user, left, winner, now, removeFails).history.epochs
    ensures RoomKept(h, LeaveStep(h, user, left, winner, now, removeFails), room)
  {
    if room != left && left.text != "" {
      if Forfeits(h, user, left) {
        CloseKeepsRoom(Forfeit(h, user, left, winner, now), left, removeFails, room);
      } else {
        CloseKeepsRoom(h, left, removeFails, room);
      }
    }
  }

  lemma RollbackKeepsRoom(h: Hub, closed: RoomId, removeFails: bool, room: RoomId)
    requires room in h.rooms && room in RollbackStep(h, closed, removeFails).history.epochs
    ensures RoomKept(h, RollbackStep(h, closed, removeFails), room)
  {
  }

  lemma FireKeepsRoom(h: Hub, which: nat, now: int, room: RoomId)
    requires room in h.rooms
    ensures RoomKept(h, FireStep(h, which, now), room)
  {
  }

  lemma AdmissionsKeepRoom(h: Hub, e: Event, room: RoomId)
    requires room in h.rooms && (e.Join? || e.CreateRoom? || e.JoinByCode?)
    ensures RoomKept(h, Step(h, e), room)
  {
    match e
    case Join(user, conn, into, mode, now) => AdmitKeepsRoom(h, into, mode, user, conn, now, room);
    case CreateRoom(user, conn, into, now) => CreateKeepsRoom(h, user, conn, into, now, room);
    case JoinByCode(user, conn, into, now) => AdmitKeepsRoom(h, into, MODE_UNRANKED, user, conn, now, room);
  }

  lemma DecisionsKeepRoom(h: Hub, e: Event, room: RoomId)
    requires room in h.rooms && (e.Report? || e.TimerFires? || e.FireRatings?)
    ensures RoomKept(h, Step(h, e), room)
  {
    match e
    case Report(user, into, recv) => ReportKeepsRoom(h, user, into, recv, room);
    case TimerFires(into, winner) => TimeoutKeepsRoom(h, into, winner, room);
    case FireRatings(which, now) => FireKeepsRoom(h, which, now, room);
  }

  lemma ClosingsKeepRoom(h: Hub, e: Event, room: RoomId)
    requires room in h.rooms && room in Step(h, e).history.epochs && (e.Leave? || e.CodeMinted? || e.CodeFailed?)
    ensures RoomKept(h, Step(h, e), room)
  {
    match e
    case Leave(user, left, winner, now, removeFails) => LeaveKeepsRoom(h, user, left, winner, now, removeFails, room);
    case CodeMinted(into, code) =>
    case CodeFailed(closed, removeFails) => RollbackKeepsRoom(h, closed, removeFails, room);
  }

  lemma StepKeepsRoom(h: Hub, e: Event, room: RoomId)
    requires room in h.rooms && room in Step(h, e).history.epochs
    ensures RoomKept(h, Step(h, e), room)
  {
    if e.Join? || e.CreateRoom? || e.JoinByCode? {
      AdmissionsKeepRoom(h, e, room);
    } else if e.Report? || e.TimerFires? || e.FireRatings? {
      DecisionsKeepRoom(h, e, room);
    } else {
      ClosingsKeepRoom(h, e, room);
    }
  }

  /** While an epoch lasts its mode and battle start are fixed, nobody is dropped from the
      room, and a decided arbitration stays decided. */
  lemma EpochKeeps(h: Hub, e: Event, room: RoomId)
    requires room in h.rooms && room in Step(h, e).history.epochs
    ensures var h, h' := h, Step(h, e);
            && room in h'.rooms && h.rooms[room].Keys <= h'.rooms[room].Keys
            && (room in h.roomModes ==> room in h'.roomModes && h'.roomModes[room] == h.roomModes[room])
            && (room in h.battleStart ==> room in h'.battleStart && h'.battleStart[room] == h.battleStart[room])
            && (room in h.arbitrations && h.arbitrations[room].decided ==> room in h'.arbitrations && h'.arbitrations[room].decided)
  {
    StepKeepsRoom(h, e, room);
  }

  // ---- Whole epochs ---------------------------------------------------------------------

  /** A step keeps a room's epoch, ends it, or opens the next one. */
  predicate EpochStep(h: Hub, h': Hub, room: RoomId) {
    && h.history.nextEpoch <= h'.history.nextEpoch
    && (room in h'.history.epochs ==>
          || (room in h.history.epochs && h'.history.epochs[room] == h.history.epochs[room])
          || (room !in h.history.epochs && h'.history.epochs[room] == h.history.nextEpoch))
  }

  lemma AdmitEpoch(h: Hub, into: RoomId, mode: string, user: User, conn: Conn, now: int, room: RoomId)
    requires into in h.rooms <==> into in h.history.epochs
    ensures EpochStep(h, Admit(h, into, mode, user, conn, now), room)
  {
  }

  lemma StepEpoch(h: Hub, e: Event, room: RoomId)
    requires Registry(h)
    ensures EpochStep(h, Step(h, e), room)
  {
    match e
    case Join(user, conn, into, mode, now) =>
      assert Agrees(h, into);
      AdmitEpoch(h, into, mode, user, conn, now, room);
    case CreateRoom(user, conn, into, now) =>
      assert Agrees(h, into);
      AdmitEpoch(h, into, MODE_UNRANKED, user, conn, now, room);
    case JoinByCode(user, conn, into, now) =>
      assert Agrees(h, into);
      AdmitEpoch(h, into, MODE_UNRANKED, user, conn, now, room);
    case _ => QuietEpoch(h, e, room);
  }

  lemma QuietEpoch(h: Hub, e: Event, room: RoomId)
    requires !e.Join? && !e.CreateRoom? && !e.JoinByCode?
    ensures EpochStep(h, Step(h, e), room)
  {
    match e
    case Report(user, into, recv) => ReportEpoch(h, user, into, recv);
    case Leave(user, left, winner, now, removeFails) => LeaveEpoch(h, user, left, winner, now, removeFails, room);
    case _ =>
  }

  lemma ReportEpoch(h: Hub, user: User, into: RoomId, recv: int)
    ensures ReportStep(h, user, into, recv).history.epochs == h.history.epochs
    ensures ReportStep(h, user, into, recv).history.nextEpoch == h.history.nextEpoch
  {
  }

  lemma LeaveEpoch(h: Hub, user: User, left: RoomId, winner: User, now: int, removeFails: bool, room: RoomId)
    ensures EpochStep(h, LeaveStep(h, user, left, winner, now, removeFails), room)
  {
  }

  lemma NextEpochGrows(h: Hub, e: Event)
    requires Inv(h)
    ensures h.history.nextEpoch <= Step(h, e).history.nextEpoch
  {
    StepEpoch(h, e, RoomId(""));
  }

  lemma EpochIsOld(h: Hub, room: RoomId)
    requires Inv(h) && room in h.history.epochs
    ensures h.history.epochs[room] < h.history.nextEpoch
  {
  }

  lemma {:induction false} EpochsAreOld(es: seq<Event>, n: nat, room: RoomId)
    requires Legal(es) && n <= |es| && room in Run(EmptyHub, es[..n]).history.epochs
    ensures Run(EmptyHub, es[..n]).history.epochs[room] < Run(EmptyHub, es).history.nextEpoch
  {
    if n == |es| {
      assert es[..n] == es;
      RunKeepsInv(es);
      EpochIsOld(Run(EmptyHub, es), room);
    } else {
      var m := |es| - 1;
      LegalPrefix(es);
      assert es[..m][..n] == es[..n];
      EpochsAreOld(es[..m], n, room);
      RunKeepsInv(es[..m]);
      NextEpochGrows(Run(EmptyHub, es[..m]), es[m]);
    }
  }

  lemma RoomKeptTwice(a: Hub, b: Hub, c: Hub, room: RoomId)
    requires room in a.rooms && RoomKept(a, b, room) && RoomKept(b, c, room)
    ensures RoomKept(a, c, room)
  {
  }

  lemma {:induction false} RunKeepsRoom(es: seq<Event>, n: nat, room: RoomId)
    requires Legal(es) && n <= |es|
    requires room in Run(EmptyHub, es[..n]).history.epochs && room in Run(EmptyHub, es).history.epochs
    requires Run(EmptyHub, es[..n]).history.epochs[room] == Run(EmptyHub, es).history.epochs[room]
    ensures room in Run(EmptyHub, es[..n]).rooms
    ensures RoomKept(Run(EmptyHub, es[..n]), Run(EmptyHub, es), room)
  {
    if n == |es| {
      assert es[..n] == es;
      RunKeepsInv(es);
      assert Agrees(Run(EmptyHub, es), room);
    } else {
      var m := |es| - 1;
      var h := Run(EmptyHub, es[..m]);
      LegalPrefix(es);
      assert es[..m][..n] == es[..n];
      RunKeepsInv(es[..m]);
      assert Agrees(h, room);
      StepEpoch(h, es[m], room);
      EpochsAreOld(es[..m], n, room);
      RunKeepsRoom(es[..m], n, room);
      StepKeepsRoom(h, es[m], room);
      RoomKeptTwice(Run(EmptyHub, es[..n]), h, Run(EmptyHub, es), room);
    }
  }

  /** From any moment of an epoch to any later one, whatever happens to this room and others. */
  lemma {:induction false} WholeEpochKeeps(es: seq<Event>, n: nat, room: RoomId)
    requires Legal(es) && n <= |es|
    requires room in Run(EmptyHub, es[..n]).history.epochs && room in Run(EmptyHub, es).history.epochs
    requires Run(EmptyHub, es[..n]).history.epochs[room] == Run(EmptyHub, es).history.epochs[room]
    ensures room in Run(EmptyHub, es[..n]).rooms
    ensures var h, h' := Run(EmptyHub, es[..n]), Run(EmptyHub, es);
            && room in h'.rooms && h.rooms[room].Keys <= h'.rooms[room].Keys
            && (room in h.roomModes ==> room in h'.roomModes && h'.roomModes[room] == h.roomModes[room])
            && (room in h.battleStart ==> room in h'.battleStart && h'.battleStart[room] == h.battleStart[room])
            && (room in h.arbitrations && h.arbitrations[room].decided ==> room in h'.arbitrations && h'.arbitrations[room].decided)
  {
    RunKeepsRoom(es, n, room);
  }
}
