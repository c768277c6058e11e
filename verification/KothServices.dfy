/** The hill and rank services over their tables, in the imperative form of the program; every
    call is tied to the steps of KothHill and KothRank. */
module KothServices {
  import opened Options
  import H = KothHill
  import R = KothRank

  type User = int

  // ---- Hills ----------------------------------------------------------------------------

  datatype ChallengeReply = HillNotFound | KingStands(king: H.Reign) | Crowned(king: H.Reign)

  class HillRepository {
    var reigns: seq<H.Reign>

    /** The partial unique index: one reign of a hill without an end. */
    ghost predicate Valid()
      reads this
    {
      H.OneOpen(reigns)
    }

    constructor ()
      ensures Valid() && reigns == []
    {
      reigns := [];
    }

    /** The reign of the hill that has not ended. */
    method CurrentKing(hill: H.HillType) returns (king: Option<H.ReignId>)
      ensures king == H.King(reigns, hill)
      ensures king.Some? ==> king.value < |reigns| && reigns[king.value].hill == hill && reigns[king.value].endedAt.None?
      ensures king.None? ==> forall k :: 0 <= k < |reigns| ==> !(reigns[k].hill == hill && reigns[k].endedAt.None?)
    {
      var k := 0;
      while k < |reigns|
        invariant 0 <= k <= |reigns|
        invariant forall j :: 0 <= j < k ==> !H.IsOpen(reigns[j], hill)
        invariant H.KingFrom(reigns, hill, 0) == H.KingFrom(reigns, hill, k)
      {
        if H.IsOpen(reigns[k], hill) {
          return Some(k);
        }
        k := k + 1;
      }
      return None;
    }

    /** One transaction under the hill's lock; `now` is the database clock. */
    method Challenge(hill: H.HillType, user: User, survivedMs: int, newClip: H.ClipId, now: int) returns (reply: ChallengeReply)
      requires Valid()
      modifies this
      ensures Valid()
      ensures reigns == H.ChallengeTx(old(reigns), hill, user, survivedMs, newClip, now)
      ensures forall k :: 0 <= k < |old(reigns)| && old(reigns)[k].hill == hill && old(reigns)[k].endedAt.None? ==>
                var king, crowned := old(reigns)[k], H.Reign(hill, user, newClip, survivedMs, now, None, Some(k));
                if survivedMs < king.blinkTsMs
                then reply == KingStands(king) && reigns == old(reigns)
                else reply == Crowned(crowned) && reigns == old(reigns)[k := king.(endedAt := Some(now))] + [crowned]
      ensures (forall k :: 0 <= k < |old(reigns)| ==> !(old(reigns)[k].hill == hill && old(reigns)[k].endedAt.None?)) ==>
                reply == HillNotFound && reigns == old(reigns)
    {
      var king := CurrentKing(hill);
      if king.None? {
        return HillNotFound;
      }
      var k := king.value;
      if survivedMs < reigns[k].blinkTsMs {
        return KingStands(reigns[k]);
      }
      reigns := reigns[k := reigns[k].(endedAt := Some(now))];
      var newKing := H.Reign(hill, user, newClip, survivedMs, now, None, king);
      reigns := reigns + [newKing];
      return Crowned(newKing);
    }

    /** Closes the hill's reign from before the period and returns it as it was: whichever the hill,
        no king who started before the period is left. */
    method CloseIfStale(hill: H.HillType, periodStart: int, now: int) returns (closed: Option<H.Reign>)
      requires Valid()
      modifies this
      ensures Valid()
      ensures forall k :: 0 <= k < |old(reigns)| && old(reigns)[k].hill == hill && old(reigns)[k].endedAt.None? && old(reigns)[k].startedAt < periodStart ==>
                closed == Some(old(reigns)[k]) && reigns == old(reigns)[k := old(reigns)[k].(endedAt := Some(now))]
      ensures (forall k :: 0 <= k < |old(reigns)| && old(reigns)[k].hill == hill && old(reigns)[k].endedAt.None? ==> old(reigns)[k].startedAt >= periodStart) ==>
                closed == None && reigns == old(reigns)
      ensures forall k :: 0 <= k < |reigns| && reigns[k].hill == hill && reigns[k].endedAt.None? ==> reigns[k].startedAt >= periodStart
      ensures var k := H.StaleKing(old(reigns), hill, periodStart);
              && (closed.Some? <==> k.Some?)
              && (k.Some? ==> k.value < |old(reigns)| && closed.value == old(reigns)[k.value] && reigns == H.Closed(old(reigns), k.value, now))
              && (k.None? ==> reigns == old(reigns))
    {
      var king := CurrentKing(hill);
      if king.None? {
        return None;
      }
      var reign := reigns[king.value];
      if reign.startedAt >= periodStart {
        return None;
      }
      reigns := reigns[king.value := reign.(endedAt := Some(now))];
      return Some(reign);
    }
  }

  // ---- The period reset -----------------------------------------------------------------

  const DAY_MS := 86_400_000

  /** What the reset needs of a period start: a monotone floor that is constant on a period. */
  ghost predicate IsPeriodFloor(start: int -> int) {
    && (forall t :: start(t) <= t)
    && (forall t, u :: t <= u ==> start(t) <= start(u))
    && (forall t, u :: start(u) <= t <= u ==> start(t) == start(u))
  }

  /** The start of the UTC day, for a clock in milliseconds. */
  function DayStart(now: int): int {
    now - now % DAY_MS
  }

  /** A day starts at a whole number of days, at most a day before. */
  lemma DayStartIsAPeriodFloor()
    ensures IsPeriodFloor(DayStart)
    ensures forall t :: DayStart(t) % 86_400_000 == 0 && DayStart(t) <= t < DayStart(t) + 86_400_000
  {
    forall t ensures DayStart(t) % 86_400_000 == 0 && DayStart(t) <= t < DayStart(t) + 86_400_000 {
      DayStartIsADay(t);
    }
    forall t, u | t <= u ensures DayStart(t) <= DayStart(u) && (DayStart(u) <= t ==> DayStart(t) == DayStart(u)) {
      DaysInOrder(t, u);
    }
  }

  lemma DayStartIsADay(t: int)
    ensures DayStart(t) == DAY_MS * (t / DAY_MS)
    ensures DayStart(t) % 86_400_000 == 0 && DayStart(t) <= t < DayStart(t) + 86_400_000
  {
  }

  lemma DaysInOrder(t: int, u: int)
    requires t <= u
    ensures DayStart(t) <= DayStart(u) && (DayStart(u) <= t ==> DayStart(t) == DayStart(u))
  {
    DayStartIsADay(t);
    DayStartIsADay(u);
    assert t / DAY_MS <= u / DAY_MS;
  }

  datatype Reason = KothDailyFinal | KothMonthlyFinal

  /** The credit request: the store keys it by user, reason and the hill's period. */
  datatype Credit = Credit(user: User, reason: Reason, hill: H.HillType, period: int)

  function FinalReason(hill: H.HillType): Reason {
    if hill.Monthly? then KothMonthlyFinal else KothDailyFinal
  }

  class ResetService {
    const repo: HillRepository
    const monthStart: int -> int
    var credits: seq<Credit>
    var expired: seq<H.ClipId>

    /** `monthStart` is the calendar's. */
    constructor (repo: HillRepository, monthStart: int -> int)
      ensures this.repo == repo && this.monthStart == monthStart && credits == [] && expired == []
    {
      this.repo, this.monthStart, credits, expired := repo, monthStart, [], [];
    }

    function PeriodStart(hill: H.HillType, now: int): int {
      if hill.Monthly? then monthStart(now) else DayStart(now)
    }

    /** Closes, credits the outgoing king, expires his clip, in this order; a failing credit or
        expiry is logged and dropped.  `clock` is the service's clock, `now` the database's.  The
        period is the month on the monthly hill and the day on the daily one. */
    method CloseStaleReign(hill: H.HillType, clock: int, now: int, creditFails: bool, expireFails: bool)
      requires repo.Valid()
      modifies this, repo
      ensures repo.Valid()
      ensures var before, period := old(repo.reigns), if hill == H.Monthly then monthStart(clock) else clock - clock % 86_400_000;
              && (forall k :: 0 <= k < |before| && before[k].hill == hill && before[k].endedAt.None? && before[k].startedAt < period ==>
                    && repo.reigns == before[k := before[k].(endedAt := Some(now))]
                    && credits == old(credits) + (if creditFails then []
                                                  else [Credit(before[k].user, if hill == H.Monthly then KothMonthlyFinal else KothDailyFinal, hill, period)])
                    && expired == old(expired) + (if before[k].clip.text == "" || expireFails then [] else [before[k].clip]))
              && ((forall k :: 0 <= k < |before| && before[k].hill == hill && before[k].endedAt.None? ==> before[k].startedAt >= period) ==>
                    repo.reigns == before && credits == old(credits) && expired == old(expired))
      ensures var k := H.StaleKing(old(repo.reigns), hill, PeriodStart(hill, clock));
              && (k.None? ==> repo.reigns == old(repo.reigns) && credits == old(credits) && expired == old(expired))
              && (k.Some? ==>
                    && k.value < |old(repo.reigns)|
                    && repo.reigns == H.Closed(old(repo.reigns), k.value, now)
                    && var king := old(repo.reigns)[k.value];
                    && credits == old(credits) + (if creditFails then [] else [Credit(king.user, FinalReason(hill), hill, PeriodStart(hill, clock))])
                    && expired == old(expired) + (if king.clip.text == "" || expireFails then [] else [king.clip]))
    {
      var periodStart := PeriodStart(hill, clock);
      var closed := repo.CloseIfStale(hill, periodStart, now);
      if closed.None? {
        return;
      }
      var reason := KothDailyFinal;
      if hill.Monthly? {
        reason := KothMonthlyFinal;
      }
      if !creditFails {
        credits := credits + [Credit(closed.value.user, reason, hill, periodStart)];
      }
      if closed.value.clip.text != "" && !expireFails {
        expired := expired + [closed.value.clip];
      }
    }
  }

  // ---- Ranks ----------------------------------------------------------------------------

  type Day = int

  datatype Key = Key(user: User, day: Day)

  class RankRepository {
    var rows: map<Key, R.Row>

    constructor ()
      ensures rows == map[]
    {
      rows := map[];
    }

    function RowOf(key: Key): Option<R.Row>
      reads this
    {
      if key in rows then Some(rows[key]) else None
    }

    method GetRank(key: Key) returns (row: Option<R.Row>)
      ensures row == if key in rows then Some(rows[key]) else None
    {
      if key in rows {
        return Some(rows[key]);
      }
      return None;
    }

    /** Inserts, or updates a row only upwards. */
    method UpsertRank(key: Key, newRank: nat, bestHoldMs: int)
      modifies this
      ensures RowOf(key) == R.Upsert(old(RowOf(key)), newRank, bestHoldMs)
      ensures rows == if key !in old(rows) || newRank > old(rows)[key].rank then old(rows)[key := R.Row(newRank, bestHoldMs)] else old(rows)
    {
      if key !in rows || newRank > rows[key].rank {
        rows := rows[key := R.Row(newRank, bestHoldMs)];
      }
    }
  }

  datatype RankCredit = RankCredit(user: User, day: Day, rank: nat)

  datatype AttemptReply = InvalidHoldMs | Attempted(achievedRank: nat, currentRank: nat, newlyReached: bool)

  /** An attempt nobody interrupts is its three steps. */
  lemma AttemptIsItsSteps(s: R.State, thresholds: seq<int>, heldMs: int)
    requires heldMs > 0
    ensures var n := |s.attempts|;
            var s1 := R.Step(s, thresholds, R.Begin(heldMs));
            var s2 := R.Step(s1, thresholds, R.ReadRank(n));
            var s3 := R.Step(s2, thresholds, R.WriteRank(n));
            var achieved := R.RankOf(heldMs, thresholds);
            var before := if s.row.Some? then s.row.value.rank else 0;
            && s3.row == (if achieved > before then Some(R.Row(achieved, heldMs)) else s.row)
            && s3.attempts == s.attempts + [R.Attempt(heldMs, R.Finished)]
  {
  }

  class RankService {
    const repo: RankRepository
    const thresholds: seq<int>
    var credits: seq<RankCredit>

    constructor (repo: RankRepository, thresholds: seq<int>)
      ensures this.repo == repo && this.thresholds == thresholds && credits == []
    {
      this.repo, this.thresholds, credits := repo, thresholds, [];
    }

    /** The stored rank becomes the larger of itself and the rank of the hold. */
    method SubmitAttempt(user: User, heldMs: int, day: Day, creditFails: bool) returns (reply: AttemptReply)
      modifies this, repo
      ensures reply.InvalidHoldMs? <==> heldMs <= 0
      ensures reply.InvalidHoldMs? ==> repo.rows == old(repo.rows) && credits == old(credits)
      ensures reply.Attempted? ==>
                var achieved, key := R.RankOf(heldMs, thresholds), Key(user, day);
                var before := if key in old(repo.rows) then old(repo.rows)[key].rank else 0;
                && reply == Attempted(achieved, if achieved > before then achieved else before, achieved > before)
                && repo.rows == (if achieved > before then old(repo.rows)[key := R.Row(achieved, heldMs)] else old(repo.rows))
                && credits == old(credits) + if achieved > before && !creditFails then [RankCredit(user, day, achieved)] else []
      ensures reply.Attempted? ==>
                && reply.achievedRank <= |thresholds| && (forall k :: 0 <= k < reply.achievedRank ==> thresholds[k] <= heldMs)
                && (reply.achievedRank < |thresholds| ==> heldMs < thresholds[reply.achievedRank])
    {
      if heldMs <= 0 {
        return InvalidHoldMs;
      }
      var key := Key(user, day);
      var achieved := R.ComputeRank(heldMs, thresholds);
      var currentRank := 0;
      var existing := repo.GetRank(key);
      if existing.Some? {
        currentRank := existing.value.rank;
      }
      var newlyReached := false;
      if achieved > currentRank {
        repo.UpsertRank(key, achieved, heldMs);
        newlyReached := true;
        currentRank := achieved;
        if !creditFails {
          credits := credits + [RankCredit(user, day, achieved)];
        }
      }
      return Attempted(achieved, currentRank, newlyReached);
    }

    /** The target shown is what a hold must reach to beat the current rank. */
    method Me(user: User, day: Day) returns (currentRank: nat, nextTargetMs: int)
      ensures currentRank == if Key(user, day) in repo.rows then repo.rows[Key(user, day)].rank else 0
      ensures nextTargetMs == if currentRank < |thresholds| then thresholds[currentRank] else 0
      ensures (forall i, j :: 0 <= i < j < |thresholds| ==> thresholds[i] <= thresholds[j]) && currentRank < |thresholds| ==>
                forall heldMs :: R.RankOf(heldMs, thresholds) > currentRank <==> heldMs >= nextTargetMs
      ensures currentRank >= |thresholds| ==> nextTargetMs == 0
    {
      currentRank := 0;
      var existing := repo.GetRank(Key(user, day));
      if existing.Some? {
        currentRank := existing.value.rank;
      }
      nextTargetMs := R.NextTargetMs(currentRank, thresholds);
      if (forall i, j :: 0 <= i < j < |thresholds| ==> thresholds[i] <= thresholds[j]) && currentRank < |thresholds| {
        forall heldMs ensures R.RankOf(heldMs, thresholds) > currentRank <==> heldMs >= nextTargetMs {
          R.TargetIsExact(heldMs, currentRank, thresholds);
        }
      }
    }
  }
}
