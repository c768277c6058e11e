/** Who loses: the order in which two reports take the lock does not matter, only the stamps
    they were given before it. */
module SignalingReports {
  import opened Options
  import opened SignalingHub

  /** Reports taking the lock one after the other. */
  function ReportAll(h: Hub, room: RoomId, rs: seq<BlinkReport>): Hub
    decreases |rs|
  {
    if rs == [] then h else ReportAll(ReportStep(h, rs[0].user, room, rs[0].receivedAt), room, rs[1..])
  }

  predicate Reports(rs: seq<BlinkReport>, user: User) {
    exists k :: 0 <= k < |rs| && rs[k].user == user
  }

  /** The first report of `user` to take the lock. */
  function FirstOf(rs: seq<BlinkReport>, user: User): BlinkReport
    requires Reports(rs, user)
  {
    if rs[0].user == user then rs[0] else FirstOf(rs[1..], user)
  }

  predicate ByMembers(h: Hub, room: RoomId, rs: seq<BlinkReport>, a: User, b: User) {
    && a != b && a in HubMembers(h, room) && b in HubMembers(h, room)
    && (forall k :: 0 <= k < |rs| ==> rs[k].user == a || rs[k].user == b)
  }

  /** Once decided, no report changes anything. */
  lemma {:induction false} DecidedForGood(h: Hub, room: RoomId, rs: seq<BlinkReport>)
    requires ArbitrationOf(h, room).decided
    ensures ReportAll(h, room, rs) == h
    decreases |rs|
  {
    if rs != [] {
      DecidedForGood(h, room, rs[1..]);
    }
  }

  /** While one report is waiting, repeats by its author change nothing, and the first report
      by the other member decides by stamps. */
  lemma {:induction false} SecondReporterDecides(h: Hub, room: RoomId, rs: seq<BlinkReport>, first: BlinkReport, other: User)
    requires ByMembers(h, room, rs, first.user, other)
    requires ArbitrationOf(h, room) == Arbitration(Some(first), false)
    ensures !Reports(rs, other) ==> ReportAll(h, room, rs) == h
    ensures Reports(rs, other) && FirstOf(rs, other).receivedAt < first.receivedAt ==>
              ReportAll(h, room, rs) == Decide(h, room, first.user, other)
    ensures Reports(rs, other) && FirstOf(rs, other).receivedAt >= first.receivedAt ==>
              ReportAll(h, room, rs) == Decide(h, room, other, first.user)
    decreases |rs|
  {
    if rs != [] {
      if rs[0].user == other {
        DecidedForGood(ReportStep(h, other, room, rs[0].receivedAt), room, rs[1..]);
      } else {
        assert Reports(rs, other) ==> Reports(rs[1..], other);
        assert Reports(rs[1..], other) ==> Reports(rs, other) by {
          if Reports(rs[1..], other) {
            var k :| 0 <= k < |rs[1..]| && rs[1..][k].user == other;
            assert rs[k + 1].user == other;
          }
        }
        SecondReporterDecides(h, room, rs[1..], first, other);
      }
    }
  }

  /** The loser of two reports: the earlier stamp, or on a tie the one that took the lock first. */
  function LoserOf(first: BlinkReport, second: BlinkReport): User {
    if second.receivedAt < first.receivedAt then second.user else first.user
  }

  /** For every order in which the members' reports take the lock: nothing is decided until both
      have reported, and then exactly one outcome is, by the stamps of their first reports. */
  lemma ReportsDecide(h: Hub, room: RoomId, rs: seq<BlinkReport>, a: User, b: User)
    requires ByMembers(h, room, rs, a, b) && room !in h.arbitrations
    requires rs != [] && rs[0].user == a
    ensures !Reports(rs, b) ==> ReportAll(h, room, rs).history == h.history
    ensures Reports(rs, b) ==>
              var loser := LoserOf(FirstOf(rs, a), FirstOf(rs, b));
              var winner := if loser == a then b else a;
              && ReportAll(h, room, rs).history.decisions == h.history.decisions + [DecisionFor(h, room, winner, loser)]
              && ReportAll(h, room, rs).history.pending == h.history.pending + [DecisionFor(h, room, winner, loser)]
  {
    var h1 := ReportStep(h, a, room, rs[0].receivedAt);
    assert ArbitrationOf(h1, room) == Arbitration(Some(rs[0]), false);
    assert ReportAll(h, room, rs) == ReportAll(h1, room, rs[1..]);
    assert FirstOf(rs, a) == rs[0];
    assert Reports(rs, b) ==> Reports(rs[1..], b);
    assert Reports(rs[1..], b) ==> Reports(rs, b) by {
      if Reports(rs[1..], b) {
        var k :| 0 <= k < |rs[1..]| && rs[1..][k].user == b;
        assert rs[k + 1].user == b;
      }
    }
    SecondReporterDecides(h1, room, rs[1..], rs[0], b);
    if Reports(rs, b) {
      FirstOfIsTheirs(rs, b);
    }
    assert Reports(rs, b) ==> FirstOf(rs, b) == FirstOf(rs[1..], b);
    assert DecisionFor(h1, room, a, b) == DecisionFor(h, room, a, b);
    assert DecisionFor(h1, room, b, a) == DecisionFor(h, room, b, a);
  }

  /** Two lock orders of the same reports, repeats included, decide the same outcome, and the
      member whose first report has the earlier stamp loses it. */
  lemma {:induction false} LockOrderDoesNotMatter(h: Hub, room: RoomId, rs: seq<BlinkReport>, qs: seq<BlinkReport>, a: User, b: User)
    requires ByMembers(h, room, rs, a, b) && ByMembers(h, room, qs, a, b) && room !in h.arbitrations
    requires Reports(rs, a) && Reports(rs, b) && Reports(qs, a) && Reports(qs, b)
    requires FirstOf(rs, a) == FirstOf(qs, a) && FirstOf(rs, b) == FirstOf(qs, b)
    requires FirstOf(rs, a).receivedAt < FirstOf(rs, b).receivedAt
    ensures ReportAll(h, room, rs).history.decisions == h.history.decisions + [DecisionFor(h, room, b, a)]
    ensures ReportAll(h, room, qs).history.decisions == h.history.decisions + [DecisionFor(h, room, b, a)]
  {
    FirstOfIsTheirs(rs, a);
    FirstOfIsTheirs(rs, b);
    ReportsDecideEither(h, room, rs, a, b);
    ReportsDecideEither(h, room, qs, a, b);
  }

  lemma {:induction false} FirstOfIsTheirs(rs: seq<BlinkReport>, user: User)
    requires Reports(rs, user)
    ensures FirstOf(rs, user).user == user
  {
    if rs[0].user != user {
      FirstOfIsTheirs(rs[1..], user);
    }
  }

  lemma ReportsDecideEither(h: Hub, room: RoomId, rs: seq<BlinkReport>, a: User, b: User)
    requires ByMembers(h, room, rs, a, b) && room !in h.arbitrations && Reports(rs, a) && Reports(rs, b)
    requires FirstOf(rs, a).receivedAt < FirstOf(rs, b).receivedAt
    ensures ReportAll(h, room, rs).history.decisions == h.history.decisions + [DecisionFor(h, room, b, a)]
  {
    FirstOfIsTheirs(rs, a);
    FirstOfIsTheirs(rs, b);
    if rs[0].user == a {
      ReportsDecide(h, room, rs, a, b);
    } else {
      ReportsDecide(h, room, rs, b, a);
    }
  }

  // ---- The three ways to lose an undecided room -----------------------------------------

  predicate Appends(h: Hub, h': Hub, d: Decision) {
    h'.history.decisions == h.history.decisions + [d]
  }

  lemma AppendsLast(h: Hub, h': Hub, d: Decision, d': Decision)
    requires Appends(h, h', d) && Appends(h, h', d')
    ensures d == d'
  {
    assert h'.history.decisions[|h.history.decisions|] == d;
  }

  /** A report decides only as the second of two reporters; it loses when its stamp is earlier. */
  lemma ReporterLoses(h: Hub, user: User, room: RoomId, recv: int, d: Decision)
    requires Appends(h, ReportStep(h, user, room, recv), d)
    ensures !ArbitrationOf(h, room).decided && ArbitrationOf(h, room).firstReport.Some?
    ensures var first := ArbitrationOf(h, room).firstReport.value;
            && user != first.user
            && d == DecisionFor(h, room, d.winner, d.loser)
            && {d.winner, d.loser} == {user, first.user}
            && (d.loser == user <==> recv < first.receivedAt)
  {
    assert |h.history.decisions + [d]| == |h.history.decisions| + 1;
    if ReportStep(h, user, room, recv).history != h.history {
      var first := ArbitrationOf(h, room).firstReport.value;
      var d' := if recv < first.receivedAt then DecisionFor(h, room, first.user, user) else DecisionFor(h, room, user, first.user);
      AppendsLast(h, ReportStep(h, user, room, recv), d, d');
    }
  }

  /** The timer decides against the only reporter, in favour of any other member of the room. */
  lemma LoneReporterLoses(h: Hub, room: RoomId, winner: User, d: Decision)
    requires Appends(h, TimeoutStep(h, room, winner), d)
    ensures !ArbitrationOf(h, room).decided && ArbitrationOf(h, room).firstReport.Some?
    ensures d == DecisionFor(h, room, winner, ArbitrationOf(h, room).firstReport.value.user)
    ensures d.members - {d.loser} != {} ==> d.winner in d.members && d.winner != d.loser
  {
    assert |h.history.decisions + [d]| == |h.history.decisions| + 1;
    if TimeoutStep(h, room, winner) != h {
      AppendsLast(h, TimeoutStep(h, room, winner), d, DecisionFor(h, room, winner, h.arbitrations[room].firstReport.value.user));
    }
  }

  /** A leave decides against the leaver, in favour of a peer left behind, and closes the room;
      the call is made at once exactly when the room is ranked. */
  lemma LeaverLoses(h: Hub, user: User, room: RoomId, winner: User, now: int, removeFails: bool, d: Decision)
    requires Appends(h, LeaveStep(h, user, room, winner, now, removeFails), d)
    ensures !ArbitrationOf(h, room).decided && d == DecisionFor(h, room, winner, user)
    ensures d.winner in d.members && d.winner != d.loser
    ensures room !in LeaveStep(h, user, room, winner, now, removeFails).rooms
    ensures IsRanked(h, room) <==> LeaveStep(h, user, room, winner, now, removeFails).history.calls != h.history.calls
  {
    var h' := LeaveStep(h, user, room, winner, now, removeFails);
    assert |h.history.decisions + [d]| == |h.history.decisions| + 1;
    if room.text != "" && Forfeits(h, user, room) && winner in HubMembers(h, room).Keys - {user} {
      AppendsLast(h, h', d, DecisionFor(h, room, winner, user));
      assert IsRanked(h, room) ==> |h'.history.calls| == |h.history.calls| + 1;
    }
  }
}
