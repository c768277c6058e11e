/** The signaling hub as a value: the five in-process maps, the Redis member sets, and a
    history of what was decided.  Each critical section of the service, each firing of the
    confirmation timer and each Redis script is one event; `Step` is total, so a sequence of
    events is an interleaving. */
module SignalingHub {
  import opened Options

  type User = int
  type Conn = int
  datatype RoomId = RoomId(text: string)

  const MODE_RANKED := "ranked"
  const MODE_UNRANKED := "unranked"
  const MAX_ROOM_ID_LEN := 128

  datatype BlinkReport = BlinkReport(user: User, receivedAt: int)

  datatype Arbitration = Arbitration(firstReport: Option<BlinkReport>, decided: bool)

  datatype JoinResult = Joined | AlreadyMember | Full

  /** An outcome frame: who won and lost which room, and who was in the room at that moment. */
  datatype Decision = Decision(room: RoomId, epoch: nat, winner: User, loser: User, members: set<User>)

  datatype RatingsCall = RatingsCall(decision: Decision, durationMs: int)

  /** What the service has done so far.  `epochs` numbers the life of each live room, from the
      registration that created it to the leave that deletes it.  `pending` holds the decisions
      whose goroutine has released the lock but not yet read the mode.  `minting` holds the
      rooms whose CreateRoom has not returned, `privateRooms` all rooms CreateRoom ever made.
      `undeleted` holds the rooms whose Redis set has outlived a failed delete. */
  datatype History = History(
    epochs: map<RoomId, nat>,
    nextEpoch: nat,
    used: set<RoomId>,
    admitted: map<RoomId, set<User>>,
    minting: set<RoomId>,
    privateRooms: set<RoomId>,
    undeleted: set<RoomId>,
    decisions: seq<Decision>,
    pending: seq<Decision>,
    calls: seq<RatingsCall>)

  datatype Hub = Hub(
    rooms: map<RoomId, map<User, Conn>>,
    arbitrations: map<RoomId, Arbitration>,
    roomModes: map<RoomId, string>,
    battleStart: map<RoomId, int>,
    roomCodes: map<RoomId, string>,
    redis: map<RoomId, set<User>>,
    history: History)

  datatype Event =
    | Join(user: User, conn: Conn, room: RoomId, mode: string, now: int)
    | CreateRoom(user: User, conn: Conn, room: RoomId, now: int)
    | CodeMinted(room: RoomId, code: string)
    | CodeFailed(room: RoomId, removeFails: bool)
    | JoinByCode(user: User, conn: Conn, room: RoomId, now: int)
    | Report(user: User, room: RoomId, recv: int)
    | TimerFires(room: RoomId, winner: User)
    | Leave(user: User, room: RoomId, winner: User, now: int, removeFails: bool)
    | FireRatings(which: nat, now: int)

  const EmptyHistory := History(map[], 0, {}, map[], {}, {}, {}, [], [], [])
  const EmptyHub := Hub(map[], map[], map[], map[], map[], map[], EmptyHistory)

  // ---- Redis member sets ----------------------------------------------------------------

  function MembersOf(redis: map<RoomId, set<User>>, room: RoomId): set<User> {
    if room in redis then redis[room] else {}
  }

  /** The join script: idempotent for a member, closed to a third user. */
  function JoinScript(redis: map<RoomId, set<User>>, room: RoomId, user: User)
    : (JoinResult, map<RoomId, set<User>>)
  {
    var members := MembersOf(redis, room);
    if user in members then (AlreadyMember, redis)
    else if |members| >= 2 then (Full, redis)
    else (Joined, redis[room := members + {user}])
  }

  /** Deleting a member set; a failure is only logged. */
  function DeleteSet(redis: map<RoomId, set<User>>, room: RoomId, fails: bool): map<RoomId, set<User>> {
    if fails then redis else redis - {room}
  }

  function Undeleted(h: Hub, room: RoomId, fails: bool): set<RoomId> {
    if fails && room in h.redis then h.history.undeleted + {room} else h.history.undeleted - {room}
  }

  // ---- Hub registration -----------------------------------------------------------------

  predicate ValidRoomId(room: RoomId) {
    0 < |room.text| <= MAX_ROOM_ID_LEN
  }

  function HubMembers(h: Hub, room: RoomId): map<User, Conn> {
    if room in h.rooms then h.rooms[room] else map[]
  }

  function OpenEpoch(t: History, room: RoomId): History {
    t.(epochs := t.epochs[room := t.nextEpoch], nextEpoch := t.nextEpoch + 1, used := t.used + {room})
  }

  function Register(h: Hub, room: RoomId, mode: string, user: User, conn: Conn, now: int): Hub {
    var isNew := room !in h.rooms;
    var members := HubMembers(h, room)[user := conn];
    var t := if isNew then OpenEpoch(h.history, room) else h.history;
    h.(rooms := h.rooms[room := members],
       roomModes := if isNew then h.roomModes[room := mode] else h.roomModes,
       battleStart := if |members| == 2 && room !in h.battleStart then h.battleStart[room := now] else h.battleStart,
       history := t.(admitted := t.admitted[room := MembersOf(t.admitted, room) + {user}]))
  }

  /** The join script followed by the registration, unless the room is full. */
  function Admit(h: Hub, room: RoomId, mode: string, user: User, conn: Conn, now: int): Hub {
    var (result, redis) := JoinScript(h.redis, room, user);
    if result == Full then h else Register(h.(redis := redis), room, mode, user, conn, now)
  }

  function CreateStep(h: Hub, user: User, conn: Conn, room: RoomId, now: int): Hub {
    var (result, _) := JoinScript(h.redis, room, user);
    var h' := Admit(h, room, MODE_UNRANKED, user, conn, now);
    if result == Full then h'
    else h'.(history := h'.history.(minting := h'.history.minting + {room},
                                    privateRooms := h'.history.privateRooms + {room}))
  }

  function MintedStep(h: Hub, room: RoomId, code: string): Hub {
    h.(roomCodes := h.roomCodes[room := code], history := h.history.(minting := h.history.minting - {room}))
  }

  /** The rollback of a failed CreateRoom, in the maps it names. */
  function RollbackStep(h: Hub, room: RoomId, removeFails: bool): Hub {
    h.(rooms := h.rooms - {room}, roomModes := h.roomModes - {room}, battleStart := h.battleStart - {room},
       redis := DeleteSet(h.redis, room, removeFails),
       history := h.history.(minting := h.history.minting - {room}, epochs := h.history.epochs - {room},
                             undeleted := Undeleted(h, room, removeFails)))
  }

  // ---- Arbitration ----------------------------------------------------------------------

  function ArbitrationOf(h: Hub, room: RoomId): Arbitration {
    if room in h.arbitrations then h.arbitrations[room] else Arbitration(None, false)
  }

  /** Appends an outcome; the goroutine that made it still has to fire the ratings call. */
  function Decide(h: Hub, room: RoomId, winner: User, loser: User): Hub {
    var d := DecisionFor(h, room, winner, loser);
    h.(arbitrations := h.arbitrations[room := ArbitrationOf(h, room).(decided := true)],
       history := h.history.(decisions := h.history.decisions + [d], pending := h.history.pending + [d]))
  }

  function DecisionFor(h: Hub, room: RoomId, winner: User, loser: User): Decision {
    var epoch := if room in h.history.epochs then h.history.epochs[room] else h.history.nextEpoch;
    Decision(room, epoch, winner, loser, HubMembers(h, room).Keys)
  }

  /** The member with the earlier server stamp loses; on a tie the first to take the lock does. */
  function ReportStep(h: Hub, user: User, room: RoomId, recv: int): Hub {
    var arb := ArbitrationOf(h, room);
    if user !in HubMembers(h, room) || arb.decided then h
    else match arb.firstReport
      case None =>
        h.(arbitrations := h.arbitrations[room := arb.(firstReport := Some(BlinkReport(user, recv)))])
      case Some(first) =>
        if user == first.user then h
        else if recv < first.receivedAt then Decide(h, room, first.user, user)
        else Decide(h, room, user, first.user)
  }

  /** Whether the loop over the room's members can end with `winner`: another member than
      `loser`, or the zero id when there is no other. */
  predicate LoopWinner(members: set<User>, loser: User, winner: User) {
    if members - {loser} == {} then winner == 0 else winner in members - {loser}
  }

  predicate TimerPending(h: Hub, room: RoomId) {
    room in h.arbitrations && !h.arbitrations[room].decided && h.arbitrations[room].firstReport.Some?
  }

  function TimeoutStep(h: Hub, room: RoomId, winner: User): Hub {
    if !TimerPending(h, room) then h
    else
      var loser := h.arbitrations[room].firstReport.value.user;
      if LoopWinner(HubMembers(h, room).Keys, loser, winner) then Decide(h, room, winner, loser) else h
  }

  function Duration(h: Hub, room: RoomId, now: int): int {
    now - if room in h.battleStart then h.battleStart[room] else 0
  }

  predicate IsRanked(h: Hub, room: RoomId) {
    room in h.roomModes && h.roomModes[room] == MODE_RANKED
  }

  predicate Forfeits(h: Hub, user: User, room: RoomId) {
    HubMembers(h, room).Keys - {user} != {} && !ArbitrationOf(h, room).decided
  }

  /** The end of a room's epoch: every map of the hub forgets it, and Redis if its delete works. */
  function CloseRoom(h: Hub, room: RoomId, removeFails: bool): Hub {
    Hub(h.rooms - {room}, h.arbitrations - {room}, h.roomModes - {room}, h.battleStart - {room},
        h.roomCodes - {room}, DeleteSet(h.redis, room, removeFails),
        h.history.(epochs := h.history.epochs - {room}, undeleted := Undeleted(h, room, removeFails)))
  }

  /** A forfeit calls ratings itself, with the mode and start captured before the maps are cleared. */
  function Forfeit(h: Hub, user: User, room: RoomId, winner: User, now: int): Hub {
    var d := DecisionFor(h, room, winner, user);
    var calls := if IsRanked(h, room) then [RatingsCall(d, Duration(h, room, now))] else [];
    h.(history := h.history.(decisions := h.history.decisions + [d], calls := h.history.calls + calls))
  }

  /** Leaving an undecided room that still has a peer forfeits it to that peer; then, whatever
      was decided, the room is closed. */
  function LeaveStep(h: Hub, user: User, room: RoomId, winner: User, now: int, removeFails: bool): Hub {
    if room.text == "" then h
    else if !Forfeits(h, user, room) then CloseRoom(h, room, removeFails)
    else if winner in HubMembers(h, room).Keys - {user} then CloseRoom(Forfeit(h, user, room, winner, now), room, removeFails)
    else h
  }

  /** A deciding goroutine takes the lock again, reads mode and start, and calls ratings. */
  function FireStep(h: Hub, which: nat, now: int): Hub {
    if which >= |h.history.pending| then h
    else
      var d := h.history.pending[which];
      var t := h.history.(pending := h.history.pending[..which] + h.history.pending[which + 1..]);
      h.(history := if IsRanked(h, d.room) then t.(calls := t.calls + [RatingsCall(d, Duration(h, d.room, now))]) else t)
  }

  // ---- Runs -----------------------------------------------------------------------------

  function Step(h: Hub, e: Event): Hub {
    match e
    case Join(user, conn, room, mode, now) => if ValidRoomId(room) then Admit(h, room, mode, user, conn, now) else h
    case CreateRoom(user, conn, room, now) => CreateStep(h, user, conn, room, now)
    case CodeMinted(room, code) => MintedStep(h, room, code)
    case CodeFailed(room, removeFails) => RollbackStep(h, room, removeFails)
    case JoinByCode(user, conn, room, now) => Admit(h, room, MODE_UNRANKED, user, conn, now)
    case Report(user, room, recv) => ReportStep(h, user, room, recv)
    case TimerFires(room, winner) => TimeoutStep(h, room, winner)
    case Leave(user, room, winner, now, removeFails) => LeaveStep(h, user, room, winner, now, removeFails)
    case FireRatings(which, now) => FireStep(h, which, now)
  }

  function Run(h: Hub, es: seq<Event>): Hub {
    if es == [] then h else Step(Run(h, es[..|es| - 1]), es[|es| - 1])
  }

  /** What the code relies on from outside: ids are positive, CreateRoom draws an unused room
      id, and nobody but the pending CreateRoom knows that id before it returns. */
  predicate Env(h: Hub, e: Event) {
    match e
    case Join(user, _, room, _, _) => user > 0 && room !in h.history.minting
    case CreateRoom(user, _, room, _) => user > 0 && room !in h.history.used
    case CodeMinted(room, _) => room in h.history.minting
    case CodeFailed(room, _) => room in h.history.minting
    case JoinByCode(user, _, room, _) => user > 0 && room !in h.history.minting
    case Report(_, room, _) => room !in h.history.minting
    case TimerFires(_, _) => true
    case Leave(_, room, _, _, _) => room !in h.history.minting
    case FireRatings(_, _) => true
  }

  /** In addition: a room id is not used again after its leave, and a connection leaves only a
      room that once admitted it. */
  predicate EnvNoReuse(h: Hub, e: Event) {
    && Env(h, e)
    && match e
       case Join(_, _, room, _, _) => room in h.rooms || room !in h.history.used
       case JoinByCode(_, _, room, _) => room in h.rooms || room !in h.history.used
       case Leave(user, room, _, _, _) => user in MembersOf(h.history.admitted, room)
       case _ => true
  }

  predicate Legal(es: seq<Event>) {
    forall k :: 0 <= k < |es| ==> Env(Run(EmptyHub, es[..k]), es[k])
  }

  predicate LegalNoReuse(es: seq<Event>) {
    forall k :: 0 <= k < |es| ==> EnvNoReuse(Run(EmptyHub, es[..k]), es[k])
  }
}
