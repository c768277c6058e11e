/** Ranks on the ranked hill: the rank of a hold, and attempts that read the stored rank without
    a lock and write it back conditionally. */
module KothRank {
  import opened Options

  /** One user's row for one day. */
  datatype Row = Row(rank: nat, bestHoldMs: int)

  /** An attempt: begun, then the stored rank read, then finished by its conditional write. */
  datatype Phase = Begun | HasRead(rank: nat) | Finished

  datatype Attempt = Attempt(heldMs: int, phase: Phase)

  datatype State = State(row: Option<Row>, attempts: seq<Attempt>)

  datatype Event =
    | Begin(heldMs: int)
    | ReadRank(which: nat)
    | WriteRank(which: nat)

  const NoAttempts := State(None, [])

  // ---- Ranks ----------------------------------------------------------------------------

  /** How many thresholds, from the first on, the hold reaches. */
  function RankOf(heldMs: int, thresholds: seq<int>): nat {
    if thresholds == [] || heldMs < thresholds[0] then 0 else 1 + RankOf(heldMs, thresholds[1..])
  }

  method ComputeRank(heldMs: int, thresholds: seq<int>) returns (rank: nat)
    ensures rank == RankOf(heldMs, thresholds)
    ensures rank <= |thresholds| && (forall k :: 0 <= k < rank ==> thresholds[k] <= heldMs) && (rank < |thresholds| ==> heldMs < thresholds[rank])
  {
    rank := 0;
    while rank < |thresholds|
      invariant 0 <= rank <= |thresholds|
      invariant RankOf(heldMs, thresholds) == rank + RankOf(heldMs, thresholds[rank..])
      invariant forall k :: 0 <= k < rank ==> thresholds[k] <= heldMs
    {
      if heldMs < thresholds[rank] {
        break;
      }
      rank := rank + 1;
    }
  }

  function NextTargetMs(currentRank: int, thresholds: seq<int>): int {
    if currentRank < 0 || currentRank >= |thresholds| then 0 else thresholds[currentRank]
  }

  /** Every threshold below the rank is reached and the one at it is not. */
  lemma {:induction false} RankIsPrefix(heldMs: int, thresholds: seq<int>)
    ensures RankOf(heldMs, thresholds) <= |thresholds|
    ensures forall k :: 0 <= k < RankOf(heldMs, thresholds) ==> thresholds[k] <= heldMs
    ensures RankOf(heldMs, thresholds) < |thresholds| ==> heldMs < thresholds[RankOf(heldMs, thresholds)]
  {
    if thresholds != [] && heldMs >= thresholds[0] {
      RankIsPrefix(heldMs, thresholds[1..]);
    }
  }

  lemma {:induction false} RankIsMonotone(a: int, b: int, thresholds: seq<int>)
    requires a <= b
    ensures RankOf(a, thresholds) <= RankOf(b, thresholds)
  {
    if thresholds != [] && a >= thresholds[0] {
      RankIsMonotone(a, b, thresholds[1..]);
    }
  }

  /** The advertised target is exact: a hold beats the current rank if and only if it reaches it. */
  lemma TargetIsExact(heldMs: int, currentRank: nat, thresholds: seq<int>)
    requires (forall i, j :: 0 <= i < j < |thresholds| ==> thresholds[i] <= thresholds[j]) && currentRank < |thresholds|
    ensures RankOf(heldMs, thresholds) > currentRank <==> heldMs >= NextTargetMs(currentRank, thresholds)
    ensures NextTargetMs(currentRank, thresholds) == thresholds[currentRank]
    ensures forall done: nat :: done >= |thresholds| ==> NextTargetMs(done, thresholds) == 0
  {
    RankIsPrefix(heldMs, thresholds);
  }

  /** On sorted thresholds the rank is the number of thresholds reached. */
  lemma RankCountsThresholds(heldMs: int, thresholds: seq<int>, k: nat)
    requires (forall i, j :: 0 <= i < j < |thresholds| ==> thresholds[i] <= thresholds[j]) && k < |thresholds|
    ensures k < RankOf(heldMs, thresholds) <==> thresholds[k] <= heldMs
  {
    RankIsPrefix(heldMs, thresholds);
  }

  // ---- Steps ----------------------------------------------------------------------------

  function StoredRank(s: State): nat {
    if s.row.Some? then s.row.value.rank else 0
  }

  /** The upsert: insert, or update only when the new rank is higher. */
  function Upsert(row: Option<Row>, rank: nat, heldMs: int): Option<Row> {
    if row.None? || rank > row.value.rank then Some(Row(rank, heldMs)) else row
  }

  function WriteStep(s: State, thresholds: seq<int>, which: nat): State
    requires which < |s.attempts| && s.attempts[which].phase.HasRead?
  {
    var a := s.attempts[which];
    var achieved := RankOf(a.heldMs, thresholds);
    State(if achieved > a.phase.rank then Upsert(s.row, achieved, a.heldMs) else s.row,
          s.attempts[which := a.(phase := Finished)])
  }

  /** A hold that is not positive is rejected. */
  function Step(s: State, thresholds: seq<int>, e: Event): State {
    match e
    case Begin(heldMs) => if heldMs <= 0 then s else s.(attempts := s.attempts + [Attempt(heldMs, Begun)])
    case ReadRank(which) =>
      if which >= |s.attempts| || !s.attempts[which].phase.Begun? then s
      else s.(attempts := s.attempts[which := s.attempts[which].(phase := HasRead(StoredRank(s)))])
    case WriteRank(which) =>
      if which >= |s.attempts| || !s.attempts[which].phase.HasRead? then s else WriteStep(s, thresholds, which)
  }

  function Run(thresholds: seq<int>, es: seq<Event>): State {
    if es == [] then NoAttempts else Step(Run(thresholds, es[..|es| - 1]), thresholds, es[|es| - 1])
  }

  // ---- What one step does ---------------------------------------------------------------

  /** A hold that is positive begins an attempt; a read takes the stored rank, 0 without a row; a
      write stores the attempt's own rank and hold if that rank is above what was read and above
      what is stored by now. */
  lemma AttemptEffect(s: State, thresholds: seq<int>, heldMs: int, which: nat)
    ensures Step(s, thresholds, Begin(heldMs)) == if heldMs > 0 then s.(attempts := s.attempts + [Attempt(heldMs, Begun)]) else s
    ensures which < |s.attempts| && s.attempts[which].phase.Begun? ==>
              var rank := if s.row.Some? then s.row.value.rank else 0;
              Step(s, thresholds, ReadRank(which)) == s.(attempts := s.attempts[which := Attempt(s.attempts[which].heldMs, HasRead(rank))])
    ensures which < |s.attempts| && s.attempts[which].phase.HasRead? ==>
              var a, s' := s.attempts[which], Step(s, thresholds, WriteRank(which));
              var rank := RankOf(a.heldMs, thresholds);
              && s'.attempts == s.attempts[which := Attempt(a.heldMs, Finished)]
              && s'.row == if rank > a.phase.rank && (s.row.None? || rank > s.row.value.rank) then Some(Row(rank, a.heldMs)) else s.row
  {
  }

  /** A run takes every event, one after the other. */
  lemma RunTakesEachEvent(thresholds: seq<int>, es: seq<Event>, e: Event)
    ensures Run(thresholds, []) == State(None, []) && Run(thresholds, es + [e]) == Step(Run(thresholds, es), thresholds, e)
  {
    assert (es + [e])[..|es|] == es;
  }

  // ---- The stored rank is a maximum -----------------------------------------------------

  /** What was read is not above what is stored now, and a finished attempt's rank is stored. */
  predicate AttemptOk(s: State, thresholds: seq<int>, a: Attempt) {
    && a.heldMs > 0
    && (a.phase.HasRead? ==> a.phase.rank <= StoredRank(s))
    && (a.phase.Finished? ==> RankOf(a.heldMs, thresholds) <= StoredRank(s))
  }

  /** The stored hold maps to the stored rank and is some attempt's. */
  predicate RowOk(s: State, thresholds: seq<int>) {
    s.row.Some? ==>
      && s.row.value.rank == RankOf(s.row.value.bestHoldMs, thresholds)
      && exists k :: 0 <= k < |s.attempts| && s.attempts[k].heldMs == s.row.value.bestHoldMs
  }

  predicate Inv(s: State, thresholds: seq<int>) {
    RowOk(s, thresholds) && forall k :: 0 <= k < |s.attempts| ==> AttemptOk(s, thresholds, s.attempts[k])
  }

  lemma StepKeepsInv(s: State, thresholds: seq<int>, e: Event)
    requires Inv(s, thresholds)
    ensures Inv(Step(s, thresholds, e), thresholds)
    ensures StoredRank(s) <= StoredRank(Step(s, thresholds, e))
  {
    var s' := Step(s, thresholds, e);
    if s.row.Some? {
      var k :| 0 <= k < |s.attempts| && s.attempts[k].heldMs == s.row.value.bestHoldMs;
      assert s'.attempts[k].heldMs == s.row.value.bestHoldMs;
    }
    if e.WriteRank? && e.which < |s.attempts| {
      assert s'.attempts[e.which].heldMs == s.attempts[e.which].heldMs;
    }
    assert StoredRank(s) <= StoredRank(s');
    forall k | 0 <= k < |s'.attempts| ensures AttemptOk(s', thresholds, s'.attempts[k]) {
      assert k < |s.attempts| ==> AttemptOk(s, thresholds, s.attempts[k]);
    }
  }

  lemma {:induction false} RunKeepsInv(thresholds: seq<int>, es: seq<Event>)
    ensures Inv(Run(thresholds, es), thresholds)
  {
    if es != [] {
      RunKeepsInv(thresholds, es[..|es| - 1]);
      StepKeepsInv(Run(thresholds, es[..|es| - 1]), thresholds, es[|es| - 1]);
    }
  }

  /** After any interleaving of the reads and writes of one user's attempts on a day: the stored
      rank is that of some attempt's hold and at least that of every finished one, so once all have
      finished it is the largest; the stored hold maps to the stored rank. */
  lemma {:induction false} StoredRankIsTheMaximum(thresholds: seq<int>, es: seq<Event>)
    ensures var s := Run(thresholds, es);
            var stored := if s.row.Some? then s.row.value.rank else 0;
            && (stored == 0 || exists k :: 0 <= k < |s.attempts| && RankOf(s.attempts[k].heldMs, thresholds) == stored)
            && (forall k :: 0 <= k < |s.attempts| && s.attempts[k].phase == Finished ==> RankOf(s.attempts[k].heldMs, thresholds) <= stored)
            && (s.row.Some? ==> RankOf(s.row.value.bestHoldMs, thresholds) == stored)
  {
    var s := Run(thresholds, es);
    RunKeepsInv(thresholds, es);
    forall k | 0 <= k < |s.attempts| && s.attempts[k].phase.Finished?
      ensures RankOf(s.attempts[k].heldMs, thresholds) <= StoredRank(s)
    {
      assert AttemptOk(s, thresholds, s.attempts[k]);
    }
    if s.row.Some? {
      var k :| 0 <= k < |s.attempts| && s.attempts[k].heldMs == s.row.value.bestHoldMs;
      assert RankOf(s.attempts[k].heldMs, thresholds) == s.row.value.rank;
    }
  }

  /** Once all have finished it is the rank of the longest hold. */
  lemma {:induction false} LongestHoldDecides(thresholds: seq<int>, es: seq<Event>, longest: nat)
    requires var s := Run(thresholds, es);
             && longest < |s.attempts| && (forall k :: 0 <= k < |s.attempts| ==> s.attempts[k].phase == Finished)
             && (forall k :: 0 <= k < |s.attempts| ==> s.attempts[k].heldMs <= s.attempts[longest].heldMs)
    ensures var s := Run(thresholds, es);
            (if s.row.Some? then s.row.value.rank else 0) == RankOf(s.attempts[longest].heldMs, thresholds)
  {
    var s := Run(thresholds, es);
    StoredRankIsTheMaximum(thresholds, es);
    forall k | 0 <= k < |s.attempts| ensures RankOf(s.attempts[k].heldMs, thresholds) <= RankOf(s.attempts[longest].heldMs, thresholds) {
      RankIsMonotone(s.attempts[k].heldMs, s.attempts[longest].heldMs, thresholds);
    }
  }

  /** The stored rank never goes down. */
  lemma {:induction false} StoredRankNeverFalls(thresholds: seq<int>, es: seq<Event>, n: nat)
    requires n <= |es|
    ensures var row, row' := Run(thresholds, es[..n]).row, Run(thresholds, es).row;
            row.Some? ==> row'.Some? && row.value.rank <= row'.value.rank
    ensures StoredRank(Run(thresholds, es[..n])) <= StoredRank(Run(thresholds, es))
    decreases |es| - n
  {
    if n < |es| {
      assert es[..n + 1][..n] == es[..n];
      RunKeepsInv(thresholds, es[..n]);
      StepKeepsInv(Run(thresholds, es[..n]), thresholds, es[n]);
      StoredRankNeverFalls(thresholds, es, n + 1);
    } else {
      assert es[..n] == es;
    }
  }
}
