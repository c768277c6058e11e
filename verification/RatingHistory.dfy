/** Ratings as an account of the match history. */
module RatingHistory {
  import opened Options
  import opened RatingMath
  import opened RatingTransactions

  /** The sum of a player's deltas in the history. */
  function DeltaSum(results: seq<Result>, u: User): int {
    if results == [] then 0
    else
      var r := results[|results| - 1];
      DeltaSum(results[..|results| - 1], u)
      + (if r.winner == u then r.winnerDelta else 0) + (if r.loser == u then r.loserDelta else 0)
  }

  function Games(results: seq<Result>, u: User): nat {
    if results == [] then 0
    else
      var r := results[|results| - 1];
      Games(results[..|results| - 1], u) + if r.winner == u || r.loser == u then 1 else 0
  }

  /** The stored rating of a player is the default plus his history, and nothing else. */
  predicate AccountOk(ratings: map<User, Rating>, results: seq<Result>, u: User) {
    var r := RatingOf(ratings, u);
    && r.elo == DEFAULT_ELO + DeltaSum(results, u)
    && r.gamesPlayed == Games(results, u)
    && r.level == LevelForElo(r.elo)
    && (u in ratings <==> Games(results, u) > 0)
  }

  ghost predicate Accounts(db: Db) {
    forall u :: AccountOk(db.ratings, db.results, u)
  }

  lemma MatchKeepsAccount(ratings: map<User, Rating>, results: seq<Result>, winner: User, loser: User, expectedWin: real, u: User)
    requires winner != loser && AccountOk(ratings, results, u)
    ensures AccountOk(NewRatings(ratings, winner, loser, expectedWin),
                      results + [NewResult(ratings, winner, loser, expectedWin)], u)
  {
    var r := NewResult(ratings, winner, loser, expectedWin);
    assert (results + [r])[..|results|] == results;
  }

  lemma {:induction false} RunKeepsAccounts(es: seq<Event>)
    ensures Accounts(Run(es))
  {
    if es == [] {
      assert forall u :: AccountOk(map[], [], u);
    } else {
      var db, e := Run(es[..|es| - 1]), es[|es| - 1];
      RunKeepsAccounts(es[..|es| - 1]);
      RunKeepsLocks(es[..|es| - 1]);
      if Commits(db, e) {
        var t := db.txs[e.tx];
        assert TxOk(db, e.tx);
        CommitIsSequential(db, e.tx, e.expectedWin);
        forall u ensures AccountOk(Run(es).ratings, Run(es).results, u) {
          assert AccountOk(db.ratings, db.results, u);
          MatchKeepsAccount(db.ratings, db.results, t.winner, t.loser, e.expectedWin, u);
        }
      } else {
        OnlyCommitsWrite(db, e);
        assert forall u :: AccountOk(db.ratings, db.results, u) ==> AccountOk(Run(es).ratings, Run(es).results, u);
      }
    }
  }

  predicate Commits(db: Db, e: Event) {
    e.Advance? && e.tx < |db.txs| && db.txs[e.tx].phase.Write? && 0.0 < e.expectedWin < 1.0
  }

  lemma OnlyCommitsWrite(db: Db, e: Event)
    requires !Commits(db, e)
    ensures Step(db, e).ratings == db.ratings && Step(db, e).results == db.results
  {
  }

  /** In every committed state of every interleaving, each stored rating is 1000 plus the sum of
      that player's deltas, the games played are the player's rows in the history, and the level
      is the level of the rating; a player without rows has no stored rating. */
  lemma {:induction false} RatingsAreTheirHistory(es: seq<Event>, u: User)
    ensures var db := Run(es);
            && (u in db.ratings ==>
                  && db.ratings[u].elo == 1000 + DeltaSum(db.results, u)
                  && db.ratings[u].gamesPlayed == Games(db.results, u)
                  && db.ratings[u].level == LevelForElo(db.ratings[u].elo))
            && (u in db.ratings <==> Games(db.results, u) > 0)
  {
    RunKeepsAccounts(es);
    assert AccountOk(Run(es).ratings, Run(es).results, u);
  }

  // ---- The repository, one transaction at a time ----------------------------------------

  datatype MatchOutcome = MatchOutcome(winner: Rating, loser: Rating, winnerDelta: int, loserDelta: int, winnerLeveledUp: bool)

  class RatingsRepository {
    var ratings: map<User, Rating>
    var results: seq<Result>

    constructor ()
      ensures ratings == map[] && results == []
    {
      ratings, results := map[], [];
    }

    method UpsertDefault(u: User)
      modifies this`ratings
      ensures ratings == if u in old(ratings) then old(ratings) else old(ratings)[u := DefaultRating]
    {
      if u !in ratings {
        ratings := ratings[u := DefaultRating];
      }
    }

    /** Steps (a) and (b): default rows, then both rows read in ascending id order and mapped back. */
    method LockBoth(winner: User, loser: User) returns (winnerBefore: Rating, loserBefore: Rating)
      requires winner != loser
      modifies this`ratings
      ensures winnerBefore == (if winner in old(ratings) then old(ratings)[winner] else Rating(1000, 4, 0))
      ensures loserBefore == (if loser in old(ratings) then old(ratings)[loser] else Rating(1000, 4, 0))
      ensures ratings == old(ratings)[winner := winnerBefore][loser := loserBefore]
    {
      var firstId, secondId := winner, loser;
      if firstId > secondId {
        firstId, secondId := secondId, firstId;
      }
      UpsertDefault(firstId);
      UpsertDefault(secondId);
      var first, second := ratings[firstId], ratings[secondId];
      if winner == firstId {
        winnerBefore, loserBefore := first, second;
      } else {
        winnerBefore, loserBefore := second, first;
      }
    }

    /** Steps (d) and (e): the new values of both rows, and the history row. */
    method Record(winner: User, loser: User, winnerBefore: Rating, loserBefore: Rating, w: int, l: int) returns (outcome: MatchOutcome)
      requires winner != loser
      modifies this
      ensures outcome.winner == Rating(winnerBefore.elo + w, LevelForElo(winnerBefore.elo + w), winnerBefore.gamesPlayed + 1)
      ensures outcome.loser == Rating(loserBefore.elo + l, LevelForElo(loserBefore.elo + l), loserBefore.gamesPlayed + 1)
      ensures outcome.winnerDelta == w && outcome.loserDelta == l && (outcome.winnerLeveledUp <==> outcome.winner.level > winnerBefore.level)
      ensures ratings == old(ratings)[winner := outcome.winner][loser := outcome.loser]
      ensures results == old(results) + [Result(winner, loser, w, l)]
    {
      var newWinner, newLoser := After(winnerBefore, w), After(loserBefore, l);
      ratings := ratings[winner := newWinner];
      ratings := ratings[loser := newLoser];
      results := results + [Result(winner, loser, w, l)];
      outcome := MatchOutcome(newWinner, newLoser, w, l, newWinner.level > winnerBefore.level);
    }

    /** The statements of one transaction in order, with nothing else running; `expectedWin` is
        the winner's expected score. */
    method ApplyMatchResult(winner: User, loser: User, expectedWin: real) returns (outcome: MatchOutcome)
      requires winner != loser
      modifies this
      ensures ratings == NewRatings(old(ratings), winner, loser, expectedWin)
      ensures results == old(results) + [NewResult(old(ratings), winner, loser, expectedWin)]
      ensures var w := if winner in old(ratings) then old(ratings)[winner] else Rating(1000, 4, 0);
              var l := if loser in old(ratings) then old(ratings)[loser] else Rating(1000, 4, 0);
              var dw, dl := outcome.winnerDelta, outcome.loserDelta;
              && results == old(results) + [Result(winner, loser, dw, dl)]
              && outcome.winner == Rating(w.elo + dw, LevelForElo(w.elo + dw), w.gamesPlayed + 1)
              && outcome.loser == Rating(l.elo + dl, LevelForElo(l.elo + dl), l.gamesPlayed + 1)
              && ratings == old(ratings)[winner := outcome.winner][loser := outcome.loser]
              && (outcome.winnerLeveledUp <==> LevelForElo(w.elo + dw) > w.level)
      ensures 0.0 < expectedWin < 1.0 ==>
                var w := if winner in old(ratings) then old(ratings)[winner].gamesPlayed else 0;
                var l := if loser in old(ratings) then old(ratings)[loser].gamesPlayed else 0;
                var gain := (if w < 20 then 64.0 else 32.0) * (1.0 - expectedWin);
                var loss := 0.8 * ((if l < 20 then 64.0 else 32.0) * (1.0 - expectedWin));
                -0.5 <= outcome.winnerDelta as real - gain <= 0.5 && -0.5 <= outcome.loserDelta as real + loss <= 0.5
    {
      var winnerBefore, loserBefore := LockBoth(winner, loser);
      var (w, l) := CalcEloDeltas(expectedWin, winnerBefore.gamesPlayed, loserBefore.gamesPlayed);
      if 0.0 < expectedWin < 1.0 {
        DeltasHaveTheRightSign(expectedWin, winnerBefore.gamesPlayed, loserBefore.gamesPlayed);
      }
      outcome := Record(winner, loser, winnerBefore, loserBefore, w, l);
    }
  }
}
