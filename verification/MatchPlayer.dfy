/** Waiting players and the choice of an opponent. */
module MatchPlayer {
  import opened Options

  type User = int

  datatype Mode = Mode(name: string)

  datatype Player = Player(userId: User, mode: Mode, level: int, enqueuedAt: int)

  const MIN_LEVEL := 1
  const MAX_LEVEL := 10
  const MAX_MODE_LEN := 32

  // ---- Validation -----------------------------------------------------------------------

  predicate ValidLevel(level: int) {
    MIN_LEVEL <= level <= MAX_LEVEL
  }

  predicate ModeChar(c: char) {
    'a' <= c <= 'z' || '0' <= c <= '9' || c == '_' || c == '-'
  }

  predicate ValidMode(mode: Mode) {
    1 <= |mode.name| <= MAX_MODE_LEN && forall k :: 0 <= k < |mode.name| ==> ModeChar(mode.name[k])
  }

  // ---- The order on opponents -----------------------------------------------------------

  /** The distance of the levels. */
  function Gap(a: Player, b: Player): (d: nat)
    ensures d == a.level - b.level || d == b.level - a.level
  {
    if a.level < b.level then b.level - a.level else a.level - b.level
  }

  /** Smaller level gap, then earlier enqueue time, then lower user id. */
  predicate IsBetter(challenger: Player, current: Player, candidate: Player) {
    var diffC, diffB := Gap(candidate, challenger), Gap(candidate, current);
    if diffC != diffB then diffC < diffB
    else if challenger.enqueuedAt != current.enqueuedAt then challenger.enqueuedAt < current.enqueuedAt
    else challenger.userId < current.userId
  }

  predicate PastFallbackDeadline(now: int, enqueuedAt: int, fallbackAfter: int) {
    now - enqueuedAt >= fallbackAfter
  }

  /** For a fixed candidate, a strict order that is total on distinct users. */
  lemma IsBetterIsStrictTotal(a: Player, b: Player, c: Player, candidate: Player)
    ensures !IsBetter(a, a, candidate)
    ensures IsBetter(a, b, candidate) && IsBetter(b, c, candidate) ==> IsBetter(a, c, candidate)
    ensures IsBetter(a, b, candidate) ==> !IsBetter(b, a, candidate)
    ensures a.userId != b.userId ==> IsBetter(a, b, candidate) || IsBetter(b, a, candidate)
  {
  }

  // ---- The nearest opponent -------------------------------------------------------------

  function Elements(players: seq<Player>): set<Player> {
    set p | p in players
  }

  ghost predicate DistinctUsers(pool: set<Player>) {
    forall p, q :: p in pool && q in pool && p.userId == q.userId ==> p == q
  }

  /** Someone else, and within the level distance if there is one. */
  predicate InReach(candidate: Player, w: Player, maxDist: Option<int>) {
    w.userId != candidate.userId && (maxDist.Some? ==> Gap(candidate, w) <= maxDist.value)
  }

  /** Nobody in reach, or somebody in reach whom nobody in reach is better than. */
  ghost predicate IsNearest(candidate: Player, pool: set<Player>, maxDist: Option<int>, best: Option<Player>) {
    match best
    case None => forall w :: w in pool ==> !InReach(candidate, w, maxDist)
    case Some(b) =>
      && b in pool && InReach(candidate, b, maxDist)
      && forall w :: w in pool && InReach(candidate, w, maxDist) ==> !IsBetter(w, b, candidate)
  }

  /** Spelled out: the one chosen is somebody else within the bound, nobody else within the bound is
      nearer, among those equally near nobody came earlier, and among those of the same time nobody
      has a lower id; nobody is chosen exactly when nobody else is within the bound. */
  lemma NearestSpelledOut(candidate: Player, pool: set<Player>, maxDist: Option<int>, best: Option<Player>)
    requires IsNearest(candidate, pool, maxDist, best)
    ensures best.None? <==> forall w :: w in pool && w.userId != candidate.userId ==> maxDist.Some? && Gap(candidate, w) > maxDist.value
    ensures best.Some? ==>
              var b := best.value;
              && b in pool && b.userId != candidate.userId && (maxDist.Some? ==> Gap(candidate, b) <= maxDist.value)
              && (forall w :: w in pool && w.userId != candidate.userId ==> Gap(candidate, b) <= Gap(candidate, w))
              && (forall w :: w in pool && w.userId != candidate.userId && Gap(candidate, w) == Gap(candidate, b) ==>
                    || b.enqueuedAt < w.enqueuedAt
                    || (b.enqueuedAt == w.enqueuedAt && b.userId <= w.userId))
  {
    if best.Some? {
      forall w | w in pool && w.userId != candidate.userId && Gap(candidate, w) <= Gap(candidate, best.value)
        ensures !IsBetter(w, best.value, candidate)
      {
        assert InReach(candidate, w, maxDist);
      }
    } else {
      forall w | w in pool && w.userId != candidate.userId ensures maxDist.Some? && Gap(candidate, w) > maxDist.value {
        assert !InReach(candidate, w, maxDist);
      }
    }
  }

  /** The loop of both searches; a missing bound is the search regardless of level. */
  method Nearest(candidate: Player, waiting: seq<Player>, maxDist: Option<int>) returns (best: Option<Player>)
    ensures IsNearest(candidate, Elements(waiting), maxDist, best)
  {
    best := None;
    var i := 0;
    while i < |waiting|
      invariant 0 <= i <= |waiting|
      invariant IsNearest(candidate, Elements(waiting[..i]), maxDist, best)
    {
      var w := waiting[i];
      assert Elements(waiting[..i + 1]) == Elements(waiting[..i]) + {w} by {
        assert waiting[..i + 1] == waiting[..i] + [w];
      }
      if InReach(candidate, w, maxDist) && (best.None? || IsBetter(w, best.value, candidate)) {
        best := Some(w);
      }
      i := i + 1;
    }
    assert waiting[..i] == waiting;
  }

  method NearestWithinDistance(candidate: Player, waiting: seq<Player>, maxDist: int) returns (best: Option<Player>)
    ensures IsNearest(candidate, Elements(waiting), Some(maxDist), best)
    ensures best.None? <==> forall w :: w in waiting && w.userId != candidate.userId ==> Gap(candidate, w) > maxDist
    ensures best.Some? ==>
              var b := best.value;
              && b in waiting && b.userId != candidate.userId && Gap(candidate, b) <= maxDist
              && (forall w :: w in waiting && w.userId != candidate.userId ==> Gap(candidate, b) <= Gap(candidate, w))
              && (forall w :: w in waiting && w.userId != candidate.userId && Gap(candidate, w) == Gap(candidate, b) ==>
                    || b.enqueuedAt < w.enqueuedAt
                    || (b.enqueuedAt == w.enqueuedAt && b.userId <= w.userId))
  {
    best := Nearest(candidate, waiting, Some(maxDist));
    NearestSpelledOut(candidate, Elements(waiting), Some(maxDist), best);
    assert forall w :: w in waiting <==> w in Elements(waiting);
  }

  method NearestRegardless(candidate: Player, waiting: seq<Player>) returns (best: Option<Player>)
    ensures IsNearest(candidate, Elements(waiting), None, best)
    ensures best.None? <==> forall w :: w in waiting ==> w.userId == candidate.userId
    ensures best.Some? ==>
              var b := best.value;
              && b in waiting && b.userId != candidate.userId
              && (forall w :: w in waiting && w.userId != candidate.userId ==> Gap(candidate, b) <= Gap(candidate, w))
              && (forall w :: w in waiting && w.userId != candidate.userId && Gap(candidate, w) == Gap(candidate, b) ==>
                    || b.enqueuedAt < w.enqueuedAt
                    || (b.enqueuedAt == w.enqueuedAt && b.userId <= w.userId))
  {
    best := Nearest(candidate, waiting, None);
    NearestSpelledOut(candidate, Elements(waiting), None, best);
    assert forall w :: w in waiting <==> w in Elements(waiting);
  }

  /** At most one player qualifies. */
  lemma NearestIsUnique(candidate: Player, pool: set<Player>, maxDist: Option<int>, a: Option<Player>, b: Option<Player>)
    requires DistinctUsers(pool)
    requires IsNearest(candidate, pool, maxDist, a) && IsNearest(candidate, pool, maxDist, b)
    ensures a == b
  {
    if a.Some? && b.Some? {
      IsBetterIsStrictTotal(a.value, b.value, a.value, candidate);
    }
  }

  /** Whatever order the waiting list comes in, the search returns the same opponent. */
  lemma ListOrderDoesNotMatter(candidate: Player, xs: seq<Player>, ys: seq<Player>, maxDist: Option<int>, a: Option<Player>, b: Option<Player>)
    requires multiset(xs) == multiset(ys) && DistinctUsers(Elements(xs))
    requires IsNearest(candidate, Elements(xs), maxDist, a) && IsNearest(candidate, Elements(ys), maxDist, b)
    ensures a == b
  {
    assert forall p :: p in xs <==> p in multiset(xs);
    assert forall p :: p in ys <==> p in multiset(ys);
    assert Elements(xs) == Elements(ys);
    NearestIsUnique(candidate, Elements(xs), maxDist, a, b);
  }

  /** Between valid levels no gap exceeds nine, so the search regardless of level is the search
      within nine. */
  lemma RegardlessIsWithinNine(candidate: Player, pool: set<Player>, best: Option<Player>)
    requires ValidLevel(candidate.level) && forall w :: w in pool ==> ValidLevel(w.level)
    ensures IsNearest(candidate, pool, None, best) <==> IsNearest(candidate, pool, Some(MAX_LEVEL - MIN_LEVEL), best)
  {
    assert forall w :: w in pool ==> (InReach(candidate, w, None) <==> InReach(candidate, w, Some(MAX_LEVEL - MIN_LEVEL)));
  }
}
