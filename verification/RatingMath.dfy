/** ELO arithmetic.  The expected score of the winner is an input in (0, 1): how it is computed
    from the rating difference is floating point. */
module RatingMath {
  const DEFAULT_ELO := 1000
  const DEFAULT_LEVEL := 4
  const DEFAULT_GAMES := 0

  /** 64 while calibrating, 32 from the twentieth game on. */
  function KFactor(gamesPlayed: int): real {
    if gamesPlayed < 20 then 64.0 else 32.0
  }

  /** Rounding half away from zero. */
  function Round(x: real): int {
    if x >= 0.0 then (x + 0.5).Floor else -((-x + 0.5).Floor)
  }

  /** The winner gains the full amount, the loser is charged 80% of the fair loss. */
  function CalcEloDeltas(expectedWin: real, winnerGames: int, loserGames: int): (int, int) {
    (Round(KFactor(winnerGames) * (1.0 - expectedWin)), Round(0.8 * KFactor(loserGames) * (0.0 - (1.0 - expectedWin))))
  }

  function LevelForElo(elo: int): int {
    if elo <= 500 then 1
    else if elo <= 700 then 2
    else if elo <= 900 then 3
    else if elo <= 1100 then 4
    else if elo <= 1300 then 5
    else if elo <= 1500 then 6
    else if elo <= 1700 then 7
    else if elo <= 1900 then 8
    else if elo <= 2000 then 9
    else 10
  }

  lemma RoundIsNearest(x: real)
    ensures x - 0.5 <= Round(x) as real <= x + 0.5
    ensures Round(-x) == -Round(x)
    ensures Round(x) >= 1 <==> x >= 0.5
  {
  }

  /** Halves go away from zero. */
  lemma HalvesGoAway(n: nat)
    ensures Round(n as real + 0.5) == n + 1 && Round(-(n as real) - 0.5) == -(n + 1)
  {
    assert (n as real + 0.5 + 0.5).Floor == n + 1;
  }

  lemma RoundIsMonotone(x: real, y: real)
    requires x <= y
    ensures Round(x) <= Round(y)
  {
  }

  /** A winner with fewer than twenty games gains 64 times what he was expected to miss, to within
      half a point, and an established one 32 times; a loser pays 80% of the same by his own games.
      Nobody gains by losing or loses by winning; a win gains and a loss costs at least a point
      exactly when half a point is at stake, so a heavy favourite can win for nothing. */
  lemma DeltasHaveTheRightSign(expectedWin: real, winnerGames: int, loserGames: int)
    requires 0.0 < expectedWin < 1.0
    ensures var (w, l) := CalcEloDeltas(expectedWin, winnerGames, loserGames);
            var gain := (if winnerGames < 20 then 64.0 else 32.0) * (1.0 - expectedWin);
            var loss := 0.8 * ((if loserGames < 20 then 64.0 else 32.0) * (1.0 - expectedWin));
            && 0 <= w <= 64 && -51 <= l <= 0
            && -0.5 <= w as real - gain <= 0.5 && -0.5 <= l as real + loss <= 0.5
            && (w > 0 <==> gain >= 0.5) && (l < 0 <==> loss >= 0.5)
  {
    WinnersDelta(expectedWin, winnerGames);
    LosersDelta(expectedWin, loserGames);
  }

  lemma WinnersDelta(expectedWin: real, games: int)
    requires 0.0 < expectedWin < 1.0
    ensures var gain := (if games < 20 then 64.0 else 32.0) * (1.0 - expectedWin);
            var w := Round(KFactor(games) * (1.0 - expectedWin));
            0 <= w <= 64 && -0.5 <= w as real - gain <= 0.5 && (w > 0 <==> gain >= 0.5)
  {
    var gain := KFactor(games) * (1.0 - expectedWin);
    assert 0.0 <= gain <= 64.0;
    RoundIsNearest(gain);
  }

  lemma LosersDelta(expectedWin: real, games: int)
    requires 0.0 < expectedWin < 1.0
    ensures var loss := 0.8 * ((if games < 20 then 64.0 else 32.0) * (1.0 - expectedWin));
            var l := Round(0.8 * KFactor(games) * (0.0 - (1.0 - expectedWin)));
            -51 <= l <= 0 && -0.5 <= l as real + loss <= 0.5 && (l < 0 <==> loss >= 0.5)
  {
    var loss := 0.8 * (KFactor(games) * (1.0 - expectedWin));
    assert 0.0 <= loss <= 51.2;
    assert 0.8 * KFactor(games) * (0.0 - (1.0 - expectedWin)) == -loss;
    RoundIsNearest(loss);
  }

  /** An expected score of 0.995, some 920 rating points ahead, moves nobody. */
  lemma HeavyFavouriteWinsNothing()
    ensures CalcEloDeltas(0.995, 0, 0) == (0, 0)
  {
  }

  /** Even matches at both sides of the twentieth game. */
  lemma CalibrationEndsAtTwenty()
    ensures CalcEloDeltas(0.5, 19, 19) == (32, -26) && CalcEloDeltas(0.5, 20, 20) == (16, -13)
    ensures CalcEloDeltas(0.5, 19, 20) == (32, -13) && CalcEloDeltas(0.5, 20, 19) == (16, -26)
  {
  }

  /** The softening favours the loser: unless the loser is calibrating against an established
      winner, no match takes points out of the system. */
  lemma LosersAreSoftened(expectedWin: real, winnerGames: int, loserGames: int)
    requires 0.0 < expectedWin < 1.0 && (winnerGames < 20 || loserGames >= 20)
    ensures var (w, l) := CalcEloDeltas(expectedWin, winnerGames, loserGames);
            w + l >= 0
  {
    var kw, kl, el := KFactor(winnerGames), KFactor(loserGames), 1.0 - expectedWin;
    assert 0.8 * kl * (0.0 - el) == -(0.8 * (kl * el));
    RoundIsNearest(0.8 * (kl * el));
    assert kl * el <= kw * el;
    RoundIsMonotone(0.8 * (kl * el), kw * el);
  }

  /** The last rating of every level but the highest. */
  const BAND_ENDS := [500, 700, 900, 1100, 1300, 1500, 1700, 1900, 2000]

  function EndsBelow(ends: seq<int>, elo: int): nat {
    if ends == [] then 0 else EndsBelow(ends[..|ends| - 1], elo) + if ends[|ends| - 1] < elo then 1 else 0
  }

  lemma {:induction false} AllOrNoneBelow(ends: seq<int>, elo: int)
    requires forall i, j :: 0 <= i < j < |ends| ==> ends[i] < ends[j]
    ensures EndsBelow(ends, elo) <= |ends|
    ensures forall k :: 0 <= k < |ends| ==> (ends[k] < elo <==> k < EndsBelow(ends, elo))
  {
    if ends != [] {
      AllOrNoneBelow(ends[..|ends| - 1], elo);
    }
  }

  /** The level is one more than the bands the rating has outgrown: it is above the n-th level exactly
      when the rating is above the last one of that level. */
  lemma LevelCountsBands(elo: int)
    ensures LevelForElo(elo) == 1 + EndsBelow(BAND_ENDS, elo)
    ensures 1 <= LevelForElo(elo) <= 10
    ensures forall n :: 0 <= n < 9 ==> (elo > [500, 700, 900, 1100, 1300, 1500, 1700, 1900, 2000][n] <==> LevelForElo(elo) > n + 1)
  {
    AllOrNoneBelow(BAND_ENDS, elo);
    var n := EndsBelow(BAND_ENDS, elo);
    assert n > 0 ==> BAND_ENDS[n - 1] < elo;
    assert n < 9 ==> elo <= BAND_ENDS[n];
  }

  /** Levels follow ratings: never down when the rating goes up, always one of ten bands. */
  lemma LevelsAreMonotone(a: int, b: int)
    requires a <= b
    ensures 1 <= LevelForElo(a) <= LevelForElo(b) <= 10
    ensures LevelForElo(1000) == 4
  {
  }
}
