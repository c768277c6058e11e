/** The matchmaking service: the greedy tick over a stale snapshot, and the connection registry. */
module Matchmaking {
  import opened Options
  import opened MatchPlayer
  import opened MatchQueue

  type Conn = int
  type RoomId = nat

  /** The "matched" frame sent to one side of a pair. */
  datatype Notice = Notice(to: Conn, room: RoomId, opponent: User)

  datatype Config = Config(levelDist: int, fallbackAfter: int)

  const DEFAULT_LEVEL := 4

  datatype JoinReply = Enqueued | InvalidPlayer | InCooldown(secondsRemaining: int) | EnqueueFailed

  function NoticeTo(conns: map<User, Conn>, user: User, room: RoomId, opponent: User): seq<Notice> {
    if user in conns then [Notice(conns[user], room, opponent)] else []
  }

  /** The service's own state: who is connected, in which mode, what was sent, the next room. */
  datatype Registry = Registry(conns: map<User, Conn>, modes: map<User, Mode>, sent: seq<Notice>, nextRoom: RoomId)

  /** The frames of one pair: both sides learn the same room and each other. */
  function PairNotices(conns: map<User, Conn>, a: User, b: User, room: RoomId): seq<Notice> {
    NoticeTo(conns, a, room, b) + NoticeTo(conns, b, room, a)
  }

  /** A claimed pair is told and deregistered. */
  function Claimed(r: Registry, a: User, b: User): Registry {
    Registry(r.conns - {a, b}, r.modes - {a, b}, r.sent + PairNotices(r.conns, a, b, r.nextRoom), r.nextRoom + 1)
  }

  /** What other goroutines do while a tick runs: commands on the queue, and connections coming
      and going. */
  datatype Other =
    | OnQueue(op: Op)
    | Connect(user: User, conn: Conn, mode: Mode)
    | Disconnect(user: User)

  datatype World = World(queue: Queue, registry: Registry)

  function OtherStep(w: World, o: Other): World {
    match o
    case OnQueue(op) => w.(queue := Step(w.queue, op))
    case Connect(user, conn, mode) =>
      w.(registry := w.registry.(conns := w.registry.conns[user := conn], modes := w.registry.modes[user := mode]))
    case Disconnect(user) =>
      w.(registry := w.registry.(conns := w.registry.conns - {user}, modes := w.registry.modes - {user}))
  }

  function OthersRun(w: World, os: seq<Other>): World {
    if os == [] then w else OtherStep(OthersRun(w, os[..|os| - 1]), os[|os| - 1])
  }

  /** Nobody else pairs an entry with itself either. */
  predicate OthersPairDiffer(os: seq<Other>) {
    forall k :: 0 <= k < |os| && os[k].OnQueue? && os[k].op.Pair? ==> KeyOf(os[k].op.a) != KeyOf(os[k].op.b)
  }

  // ---- The claims of a tick -------------------------------------------------------------

  /** One claim: for the candidate at position `at` of the snapshot, on the opponent chosen. */
  datatype Attempt = Attempt(at: nat, candidate: Player, chosen: Player, ok: bool)

  function Claim(w: World, a: Attempt): World {
    if CanPair(w.queue, a.candidate, a.chosen)
    then World(PairStep(w.queue, a.candidate, a.chosen), Claimed(w.registry, a.candidate.userId, a.chosen.userId))
    else w
  }

  /** The world after some claims, each preceded by what others do before it. */
  function WorldAfter(w: World, attempts: seq<Attempt>, others: nat -> seq<Other>): World
    decreases |attempts|, 1
  {
    if attempts == [] then w else Claim(WorldBefore(w, attempts, others), attempts[|attempts| - 1])
  }

  /** The moment of the last claim. */
  function WorldBefore(w: World, attempts: seq<Attempt>, others: nat -> seq<Other>): World
    requires attempts != []
    decreases |attempts|, 0
  {
    OthersRun(WorldAfter(w, attempts[..|attempts| - 1], others), others(attempts[|attempts| - 1].at))
  }

  function PairsOf(attempts: seq<Attempt>): seq<(Player, Player)> {
    if attempts == [] then []
    else
      var a := attempts[|attempts| - 1];
      PairsOf(attempts[..|attempts| - 1]) + if a.ok then [(a.candidate, a.chosen)] else []
  }

  /** Whose claim failed. */
  function LostOf(attempts: seq<Attempt>): set<User> {
    set k | 0 <= k < |attempts| && !attempts[k].ok :: attempts[k].candidate.userId
  }

  /** Every claim succeeded exactly when both entries were there at that moment. */
  predicate ClaimsDecided(w: World, attempts: seq<Attempt>, others: nat -> seq<Other>) {
    attempts == [] || (ClaimsDecided(w, attempts[..|attempts| - 1], others) && LastDecided(w, attempts, others))
  }

  predicate LastDecided(w: World, attempts: seq<Attempt>, others: nat -> seq<Other>)
    requires attempts != []
  {
    var a := attempts[|attempts| - 1];
    a.ok <==> CanPair(WorldBefore(w, attempts, others).queue, a.candidate, a.chosen)
  }

  /** Claims are made in the order of the snapshot, at most one per candidate. */
  predicate InTurn(waiting: seq<Player>, attempts: seq<Attempt>, n: nat) {
    && (forall k :: 0 <= k < |attempts| ==> attempts[k].at < n && n <= |waiting| && attempts[k].candidate == waiting[attempts[k].at])
    && (forall j, k :: 0 <= j < k < |attempts| ==> attempts[j].at < attempts[k].at)
  }

  // ---- The greedy choice ----------------------------------------------------------------

  /** Everybody in the snapshot the candidate can still be paired with. */
  function Free(pool: set<Player>, paired: set<User>, candidate: Player): set<Player> {
    set w | w in pool && w.userId != candidate.userId && w.userId !in paired
  }

  predicate Overdue(p: Player, now: int, cfg: Config) {
    PastFallbackDeadline(now, p.enqueuedAt, cfg.fallbackAfter)
  }

  /** Nobody free is within the level distance. */
  predicate NoneInDistance(candidate: Player, free: set<Player>, cfg: Config) {
    forall w :: w in free ==> Gap(candidate, w) > cfg.levelDist
  }

  /** The nearest free player within the distance; past the deadline, the nearest of all; else nobody. */
  ghost predicate Chosen(candidate: Player, free: set<Player>, now: int, cfg: Config, opponent: Option<Player>) {
    if !NoneInDistance(candidate, free, cfg) then opponent.Some? && IsNearest(candidate, free, Some(cfg.levelDist), opponent)
    else if Overdue(candidate, now, cfg) then IsNearest(candidate, free, None, opponent)
    else opponent.None?
  }

  /** The users taken by the pairs of a tick. */
  function UsersOf(pairs: seq<(Player, Player)>): set<User> {
    if pairs == [] then {}
    else UsersOf(pairs[..|pairs| - 1]) + {pairs[|pairs| - 1].0.userId, pairs[|pairs| - 1].1.userId}
  }

  ghost predicate Unpaired(p: Player, pool: set<Player>, pairs: seq<(Player, Player)>) {
    p in pool && p.userId !in UsersOf(pairs)
  }

  /** Each pair was the greedy choice among those the earlier pairs had left free. */
  ghost predicate GreedyPairs(pool: set<Player>, pairs: seq<(Player, Player)>, now: int, cfg: Config) {
    forall k :: 0 <= k < |pairs| ==> GreedyPair(pool, pairs, k, now, cfg)
  }

  ghost predicate GreedyPair(pool: set<Player>, pairs: seq<(Player, Player)>, k: int, now: int, cfg: Config)
    requires 0 <= k < |pairs|
  {
    && pairs[k].0 in pool && pairs[k].0.userId !in UsersOf(pairs[..k])
    && Chosen(pairs[k].0, Free(pool, UsersOf(pairs[..k]), pairs[k].0), now, cfg, Some(pairs[k].1))
  }

  /** The k-th claim was on the greedy choice among those the pairs before it had left free. */
  ghost predicate AttemptOk(pool: set<Player>, attempts: seq<Attempt>, k: nat, now: int, cfg: Config)
    requires k < |attempts|
  {
    var paired, a := UsersOf(PairsOf(attempts[..k])), attempts[k];
    && a.candidate in pool && a.candidate.userId !in paired
    && Chosen(a.candidate, Free(pool, paired, a.candidate), now, cfg, Some(a.chosen))
  }

  ghost predicate AttemptsOk(pool: set<Player>, attempts: seq<Attempt>, now: int, cfg: Config) {
    forall k :: 0 <= k < |attempts| ==> AttemptOk(pool, attempts, k, now, cfg)
  }

  /** What a player who is left over, and whose own attempt was not lost, can say of the others. */
  ghost predicate HadNoMatch(p: Player, pool: set<Player>, paired: set<User>, now: int, cfg: Config) {
    && NoneInDistance(p, Free(pool, paired, p), cfg)
    && (Free(pool, paired, p) == {} || !Overdue(p, now, cfg))
  }

  lemma HadNoMatchStays(p: Player, pool: set<Player>, paired: set<User>, more: set<User>, now: int, cfg: Config)
    requires HadNoMatch(p, pool, paired, now, cfg) && paired <= more
    ensures HadNoMatch(p, pool, more, now, cfg)
  {
    assert Free(pool, more, p) <= Free(pool, paired, p);
  }

  lemma NotChosen(p: Player, free: set<Player>, now: int, cfg: Config)
    requires Chosen(p, free, now, cfg, None) && (forall w :: w in free ==> w.userId != p.userId)
    ensures NoneInDistance(p, free, cfg) && (free == {} || !Overdue(p, now, cfg))
  {
    assert forall w :: w in free ==> InReach(p, w, None);
    if Overdue(p, now, cfg) {
      assert free == {};
    }
  }

  lemma PairAdded(pool: set<Player>, pairs: seq<(Player, Player)>, a: Player, b: Player, now: int, cfg: Config)
    requires GreedyPairs(pool, pairs, now, cfg) && a in pool && a.userId !in UsersOf(pairs)
    requires Chosen(a, Free(pool, UsersOf(pairs), a), now, cfg, Some(b))
    ensures GreedyPairs(pool, pairs + [(a, b)], now, cfg)
    ensures UsersOf(pairs + [(a, b)]) == UsersOf(pairs) + {a.userId, b.userId}
  {
    var pairs' := pairs + [(a, b)];
    assert pairs'[..|pairs|] == pairs;
    forall k | 0 <= k < |pairs'| ensures GreedyPair(pool, pairs', k, now, cfg) {
      if k < |pairs| {
        assert pairs'[..k] == pairs[..k];
        assert GreedyPair(pool, pairs, k, now, cfg);
      }
    }
  }

  /** The candidate at position `k` is paired, lost its claim, or had no match. */
  ghost predicate Settled(waiting: seq<Player>, k: int, paired: set<User>, lost: set<User>, now: int, cfg: Config)
    requires 0 <= k < |waiting|
  {
    waiting[k].userId in paired || waiting[k].userId in lost || HadNoMatch(waiting[k], Elements(waiting), paired, now, cfg)
  }

  ghost predicate SettledUpTo(waiting: seq<Player>, n: int, paired: set<User>, lost: set<User>, now: int, cfg: Config)
    requires 0 <= n <= |waiting|
  {
    forall k :: 0 <= k < n ==> Settled(waiting, k, paired, lost, now, cfg)
  }

  lemma SettleOneMore(waiting: seq<Player>, i: int, paired: set<User>, more: set<User>, before: set<User>, lost: set<User>, now: int, cfg: Config)
    requires 0 <= i < |waiting| && paired <= more && before <= lost
    requires SettledUpTo(waiting, i, paired, before, now, cfg)
    requires waiting[i].userId in more || waiting[i].userId in lost || HadNoMatch(waiting[i], Elements(waiting), paired, now, cfg)
    ensures SettledUpTo(waiting, i + 1, more, lost, now, cfg)
  {
    forall k | 0 <= k < i + 1 ensures Settled(waiting, k, more, lost, now, cfg) {
      assert k < i ==> Settled(waiting, k, paired, before, now, cfg);
      if HadNoMatch(waiting[k], Elements(waiting), paired, now, cfg) {
        HadNoMatchStays(waiting[k], Elements(waiting), paired, more, now, cfg);
      }
    }
  }

  lemma AllSettled(waiting: seq<Player>, pairs: seq<(Player, Player)>, lost: set<User>, now: int, cfg: Config)
    requires SettledUpTo(waiting, |waiting|, UsersOf(pairs), lost, now, cfg)
    ensures LeftoversHadNoMatch(Elements(waiting), pairs, lost, now, cfg)
  {
    forall p | Unpaired(p, Elements(waiting), pairs) && p.userId !in lost
      ensures HadNoMatch(p, Elements(waiting), UsersOf(pairs), now, cfg)
    {
      var k :| 0 <= k < |waiting| && waiting[k] == p;
      assert Settled(waiting, k, UsersOf(pairs), lost, now, cfg);
    }
  }

  /** The unpaired part of the snapshot is not stale. */
  predicate StillQueued(waiting: seq<Player>, paired: set<User>, queue: map<Key, Entry>) {
    forall k :: 0 <= k < |waiting| && waiting[k].userId !in paired ==> KeyOf(waiting[k]) in queue
  }

  ghost predicate LeftoversHadNoMatch(pool: set<Player>, pairs: seq<(Player, Player)>, lost: set<User>, now: int, cfg: Config) {
    forall p :: Unpaired(p, pool, pairs) && p.userId !in lost ==> HadNoMatch(p, pool, UsersOf(pairs), now, cfg)
  }

  lemma MinusTwice<V>(m: map<User, V>, a: set<User>, b: set<User>)
    ensures (m - a) - b == m - (a + b)
  {
  }

  // ---- What a greedy tick achieves ------------------------------------------------------

  /** The pairs of a tick are disjoint and inside the snapshot. */
  lemma PairsAreDisjoint(pool: set<Player>, pairs: seq<(Player, Player)>, now: int, cfg: Config, i: int, j: int)
    requires GreedyPairs(pool, pairs, now, cfg) && 0 <= i < j < |pairs|
    ensures pairs[i].0 in pool && pairs[i].1 in pool && pairs[i].0.userId != pairs[i].1.userId
    ensures {pairs[i].0.userId, pairs[i].1.userId} !! {pairs[j].0.userId, pairs[j].1.userId}
  {
    assert GreedyPair(pool, pairs, i, now, cfg) && GreedyPair(pool, pairs, j, now, cfg);
    UsersOfEarlier(pairs, i, j);
  }

  lemma {:induction false} UsersOfEarlier(pairs: seq<(Player, Player)>, i: int, j: int)
    requires 0 <= i < j <= |pairs|
    ensures pairs[i].0.userId in UsersOf(pairs[..j]) && pairs[i].1.userId in UsersOf(pairs[..j])
  {
    assert pairs[..j][..j - 1] == pairs[..j - 1];
    if i < j - 1 {
      UsersOfEarlier(pairs, i, j - 1);
    }
  }

  /** Each pair is within the level distance, or its candidate had waited past the deadline and
      nobody free was within it; either way nobody free was nearer, and of those as near nobody had
      come earlier, nor at the same time with a lower id. */
  lemma PairsAreClose(pool: set<Player>, pairs: seq<(Player, Player)>, now: int, cfg: Config, k: int)
    requires GreedyPairs(pool, pairs, now, cfg) && 0 <= k < |pairs|
    ensures var (a, b) := pairs[k];
            var free := set w | w in pool && w.userId != a.userId && w.userId !in UsersOf(pairs[..k]);
            && b in free
            && (Gap(a, b) <= cfg.levelDist || (now - a.enqueuedAt >= cfg.fallbackAfter && forall w :: w in free ==> Gap(a, w) > cfg.levelDist))
            && (forall w :: w in free ==> Gap(a, b) <= Gap(a, w))
            && (forall w :: w in free && Gap(a, w) == Gap(a, b) ==>
                  b.enqueuedAt < w.enqueuedAt || (b.enqueuedAt == w.enqueuedAt && b.userId <= w.userId))
  {
    assert GreedyPair(pool, pairs, k, now, cfg);
    var (a, b) := pairs[k];
    var free := Free(pool, UsersOf(pairs[..k]), a);
    if NoneInDistance(a, free, cfg) {
      NearestSpelledOut(a, free, None, Some(b));
    } else {
      NearestSpelledOut(a, free, Some(cfg.levelDist), Some(b));
    }
  }

  /** The pairs are the successful claims. */
  lemma {:induction false} AttemptsAreGreedy(pool: set<Player>, attempts: seq<Attempt>, now: int, cfg: Config)
    requires AttemptsOk(pool, attempts, now, cfg)
    ensures GreedyPairs(pool, PairsOf(attempts), now, cfg)
  {
    if attempts != [] {
      var n := |attempts| - 1;
      AttemptsOfPrefix(pool, attempts, n, now, cfg);
      AttemptsAreGreedy(pool, attempts[..n], now, cfg);
      assert AttemptOk(pool, attempts, n, now, cfg);
      if attempts[n].ok {
        PairAdded(pool, PairsOf(attempts[..n]), attempts[n].candidate, attempts[n].chosen, now, cfg);
      } else {
        assert PairsOf(attempts) == PairsOf(attempts[..n]);
      }
    }
  }

  lemma AttemptsOfPrefix(pool: set<Player>, attempts: seq<Attempt>, n: nat, now: int, cfg: Config)
    requires AttemptsOk(pool, attempts, now, cfg) && n <= |attempts|
    ensures AttemptsOk(pool, attempts[..n], now, cfg)
  {
    forall k | 0 <= k < n ensures AttemptOk(pool, attempts[..n], k, now, cfg) {
      assert attempts[..n][..k] == attempts[..k];
      assert AttemptOk(pool, attempts, k, now, cfg);
    }
  }

  lemma AttemptAdded(pool: set<Player>, attempts: seq<Attempt>, a: Attempt, now: int, cfg: Config)
    requires AttemptsOk(pool, attempts, now, cfg)
    requires var paired := UsersOf(PairsOf(attempts));
             a.candidate in pool && a.candidate.userId !in paired
             && Chosen(a.candidate, Free(pool, paired, a.candidate), now, cfg, Some(a.chosen))
    ensures AttemptsOk(pool, attempts + [a], now, cfg)
    ensures PairsOf(attempts + [a]) == PairsOf(attempts) + if a.ok then [(a.candidate, a.chosen)] else []
    ensures UsersOf(PairsOf(attempts + [a])) == UsersOf(PairsOf(attempts)) + if a.ok then {a.candidate.userId, a.chosen.userId} else {}
    ensures LostOf(attempts + [a]) == LostOf(attempts) + if a.ok then {} else {a.candidate.userId}
  {
    var more := attempts + [a];
    assert more[..|attempts|] == attempts;
    forall k | 0 <= k < |more| ensures AttemptOk(pool, more, k, now, cfg) {
      assert k < |attempts| ==> more[..k] == attempts[..k] && AttemptOk(pool, attempts, k, now, cfg);
    }
    PairsGrow(PairsOf(attempts), a);
    LostGrow(attempts, a);
  }

  lemma PairsGrow(pairs: seq<(Player, Player)>, a: Attempt)
    ensures UsersOf(pairs + [(a.candidate, a.chosen)]) == UsersOf(pairs) + {a.candidate.userId, a.chosen.userId}
    ensures pairs + [] == pairs
  {
    assert (pairs + [(a.candidate, a.chosen)])[..|pairs|] == pairs;
  }

  lemma LostGrow(attempts: seq<Attempt>, a: Attempt)
    ensures LostOf(attempts + [a]) == LostOf(attempts) + if a.ok then {} else {a.candidate.userId}
  {
    var more := attempts + [a];
    assert more[|attempts|] == a;
    forall u | u in LostOf(attempts) ensures u in LostOf(more) {
      var k :| 0 <= k < |attempts| && !attempts[k].ok && attempts[k].candidate.userId == u;
      assert more[k] == attempts[k];
    }
  }

  lemma ClaimAdded(w: World, attempts: seq<Attempt>, a: Attempt, others: nat -> seq<Other>)
    requires ClaimsDecided(w, attempts, others)
    requires a.ok <==> CanPair(OthersRun(WorldAfter(w, attempts, others), others(a.at)).queue, a.candidate, a.chosen)
    ensures ClaimsDecided(w, attempts + [a], others)
    ensures WorldAfter(w, attempts + [a], others) == Claim(OthersRun(WorldAfter(w, attempts, others), others(a.at)), a)
  {
    assert (attempts + [a])[..|attempts|] == attempts;
    WorldOneMore(w, attempts, a, others);
  }

  /** Before each claim others have done all they were to do, in order, in the world the earlier claims
      left: queue commands take their effect, and connections come and go. */
  lemma OthersTakeEffect(w: World, attempts: seq<Attempt>, others: nat -> seq<Other>, os: seq<Other>, o: Other)
    ensures attempts != [] ==>
              var n := |attempts| - 1;
              && WorldBefore(w, attempts, others) == OthersRun(WorldAfter(w, attempts[..n], others), others(attempts[n].at))
              && WorldAfter(w, attempts, others) == Claim(WorldBefore(w, attempts, others), attempts[n])
    ensures WorldAfter(w, [], others) == w && OthersRun(w, []) == w && OthersRun(w, os + [o]) == OtherStep(OthersRun(w, os), o)
    ensures var r := w.registry;
            OtherStep(w, o) ==
              match o
              case OnQueue(op) => World(Step(w.queue, op), r)
              case Connect(user, conn, mode) => World(w.queue, r.(conns := r.conns[user := conn], modes := r.modes[user := mode]))
              case Disconnect(user) => World(w.queue, r.(conns := r.conns - {user}, modes := r.modes - {user}))
  {
    assert (os + [o])[..|os|] == os;
  }

  /** In particular the k-th. */
  lemma {:induction false} EachClaimIsDecided(w: World, attempts: seq<Attempt>, others: nat -> seq<Other>, k: nat)
    requires ClaimsDecided(w, attempts, others) && k < |attempts|
    ensures attempts[k].ok <==> CanPair(WorldBefore(w, attempts[..k + 1], others).queue, attempts[k].candidate, attempts[k].chosen)
  {
    var n := |attempts| - 1;
    if k < n {
      EachClaimIsDecided(w, attempts[..n], others, k);
      assert attempts[..n][..k + 1] == attempts[..k + 1];
    } else {
      assert attempts[..k + 1] == attempts;
    }
  }

  lemma WorldOneMore(w: World, attempts: seq<Attempt>, a: Attempt, others: nat -> seq<Other>)
    ensures WorldBefore(w, attempts + [a], others) == OthersRun(WorldAfter(w, attempts, others), others(a.at))
    ensures WorldAfter(w, attempts + [a], others) == Claim(OthersRun(WorldAfter(w, attempts, others), others(a.at)), a)
  {
    assert (attempts + [a])[..|attempts|] == attempts;
  }

  // ---- Interference ---------------------------------------------------------------------

  lemma {:induction false} OthersConserve(w: World, os: seq<Other>)
    requires Conserved(w.queue) && OthersPairDiffer(os)
    ensures Conserved(OthersRun(w, os).queue)
  {
    if os != [] {
      var n := |os| - 1;
      OthersConserve(w, os[..n]);
      if os[n].OnQueue? {
        StepConserves(OthersRun(w, os[..n]).queue, os[n].op);
      }
    }
  }

  lemma ClaimConserves(w: World, a: Attempt)
    requires Conserved(w.queue) && a.candidate.userId != a.chosen.userId
    ensures Conserved(Claim(w, a).queue)
  {
    PairConserves(w.queue, a.candidate, a.chosen);
  }

  /** Nobody else's frames or rooms. */
  lemma {:induction false} OthersSendNothing(w: World, os: seq<Other>)
    ensures OthersRun(w, os).registry.sent == w.registry.sent && OthersRun(w, os).registry.nextRoom == w.registry.nextRoom
  {
    if os != [] {
      OthersSendNothing(w, os[..|os| - 1]);
    }
  }

  predicate Leaves(os: seq<Other>, user: User) {
    forall k :: 0 <= k < |os| ==> !(os[k].Connect? && os[k].user == user) && !(os[k].Disconnect? && os[k].user == user)
  }

  predicate SameConnection(r: Registry, r': Registry, user: User) {
    && (user in r.conns <==> user in r'.conns) && (user in r.conns ==> r'.conns[user] == r.conns[user])
    && (user in r.modes <==> user in r'.modes) && (user in r.modes ==> r'.modes[user] == r.modes[user])
  }

  lemma {:induction false} OthersLeaveAlone(w: World, os: seq<Other>, user: User)
    requires Leaves(os, user)
    ensures SameConnection(w.registry, OthersRun(w, os).registry, user)
  {
    if os != [] {
      OthersLeaveAlone(w, os[..|os| - 1], user);
    }
  }

  // ---- What a tick does to the registry -------------------------------------------------

  /** The frames of a tick: for the k-th pair, to those of the two connected at that moment. */
  function TickNotices(w: World, attempts: seq<Attempt>, others: nat -> seq<Other>): seq<Notice> {
    if attempts == [] then [] else TickNotices(w, attempts[..|attempts| - 1], others) + LastNotices(w, attempts, others)
  }

  function LastNotices(w: World, attempts: seq<Attempt>, others: nat -> seq<Other>): seq<Notice>
    requires attempts != []
  {
    var n := |attempts| - 1;
    if !attempts[n].ok then []
    else PairNotices(WorldBefore(w, attempts, others).registry.conns, attempts[n].candidate.userId, attempts[n].chosen.userId,
                     w.registry.nextRoom + |PairsOf(attempts[..n])|)
  }

  /** Whatever others do, a tick sends exactly the frames of its pairs: both sides of the k-th pair,
      as far as they are connected at its claim, learn the k-th new room and each other. */
  lemma {:induction false} TickTellsBothSides(w: World, attempts: seq<Attempt>, others: nat -> seq<Other>)
    requires ClaimsDecided(w, attempts, others)
    ensures var r := WorldAfter(w, attempts, others).registry;
            && r.sent == w.registry.sent + TickNotices(w, attempts, others)
            && r.nextRoom == w.registry.nextRoom + |PairsOf(attempts)|
  {
    if attempts != [] {
      var n := |attempts| - 1;
      TickTellsBothSides(w, attempts[..n], others);
      LastClaimTells(w, attempts, others);
    }
  }

  lemma LastClaimTells(w: World, attempts: seq<Attempt>, others: nat -> seq<Other>)
    requires attempts != [] && LastDecided(w, attempts, others)
    requires var n := |attempts| - 1;
             WorldAfter(w, attempts[..n], others).registry.nextRoom == w.registry.nextRoom + |PairsOf(attempts[..n])|
    ensures var n := |attempts| - 1;
            var r, r' := WorldAfter(w, attempts[..n], others).registry, WorldAfter(w, attempts, others).registry;
            && r'.sent == r.sent + LastNotices(w, attempts, others)
            && r'.nextRoom == w.registry.nextRoom + |PairsOf(attempts)|
  {
    var n := |attempts| - 1;
    OthersSendNothing(WorldAfter(w, attempts[..n], others), others(attempts[n].at));
    ClaimTells(WorldBefore(w, attempts, others), attempts[n]);
  }

  lemma ClaimTells(w: World, a: Attempt)
    ensures var can, r := CanPair(w.queue, a.candidate, a.chosen), Claim(w, a).registry;
            && r.sent == w.registry.sent + (if can then PairNotices(w.registry.conns, a.candidate.userId, a.chosen.userId, w.registry.nextRoom) else [])
            && r.nextRoom == w.registry.nextRoom + if can then 1 else 0
  {
    assert w.registry.sent + [] == w.registry.sent;
  }

  /** And it deregisters exactly the users of its pairs: whoever does not come or go meanwhile is
      registered afterwards, with the same connection, if and only if he was and is not paired. */
  lemma {:induction false} TickDeregisters(w: World, attempts: seq<Attempt>, others: nat -> seq<Other>, user: User)
    requires ClaimsDecided(w, attempts, others) && forall i :: Leaves(others(i), user)
    ensures var r, r' := w.registry, WorldAfter(w, attempts, others).registry;
            if user in UsersOf(PairsOf(attempts)) then user !in r'.conns && user !in r'.modes else SameConnection(r, r', user)
  {
    if attempts != [] {
      var n := |attempts| - 1;
      TickDeregisters(w, attempts[..n], others, user);
      OthersLeaveAlone(WorldAfter(w, attempts[..n], others), others(attempts[n].at), user);
      PairsGrow(PairsOf(attempts[..n]), attempts[n]);
    }
  }

  // ---- What one claim sends -------------------------------------------------------------

  /** A successful claim removes both entries, deregisters both users, and tells each connected one
      of the next room and of the other; a failed one does nothing. */
  lemma ClaimEffect(w: World, a: Attempt)
    ensures var w', r, r' := Claim(w, a), w.registry, Claim(w, a).registry;
            var x, y := a.candidate, a.chosen;
            if Key(x.mode, x.userId) in w.queue.waiting && Key(y.mode, y.userId) in w.queue.waiting
            then
              && w'.queue.waiting == w.queue.waiting - {Key(x.mode, x.userId), Key(y.mode, y.userId)}
              && r'.conns == r.conns - {x.userId, y.userId} && r'.modes == r.modes - {x.userId, y.userId} && r'.nextRoom == r.nextRoom + 1
              && r'.sent == r.sent + (if x.userId in r.conns then [Notice(r.conns[x.userId], r.nextRoom, y.userId)] else [])
                                   + (if y.userId in r.conns then [Notice(r.conns[y.userId], r.nextRoom, x.userId)] else [])
            else w' == w
  {
  }

  lemma OthersOnlyAdd(w: World, os: seq<Other>)
    ensures w.registry.sent <= OthersRun(w, os).registry.sent
  {
    OthersSendNothing(w, os);
  }

  /** Frames stay sent. */
  lemma {:induction false} FramesStay(w: World, attempts: seq<Attempt>, others: nat -> seq<Other>, k: nat)
    requires k <= |attempts|
    ensures WorldAfter(w, attempts[..k], others).registry.sent <= WorldAfter(w, attempts, others).registry.sent
    decreases |attempts|
  {
    if k == |attempts| {
      assert attempts[..k] == attempts;
    } else {
      var n := |attempts| - 1;
      assert attempts[..n][..k] == attempts[..k];
      FramesStay(w, attempts[..n], others, k);
      OthersOnlyAdd(WorldAfter(w, attempts[..n], others), others(attempts[n].at));
      ClaimEffect(WorldBefore(w, attempts, others), attempts[n]);
    }
  }

  /** For the k-th claim of a tick, with the connections of that moment: if it succeeds, each of the
      two who is connected is sent one frame with the next new room and the other's id, in this
      order, and the frames stay sent; if it fails, nothing is. */
  lemma {:induction false} KthClaimTells(w: World, attempts: seq<Attempt>, others: nat -> seq<Other>, k: nat)
    requires ClaimsDecided(w, attempts, others) && k < |attempts|
    ensures var r, r' := WorldBefore(w, attempts[..k + 1], others).registry, WorldAfter(w, attempts[..k + 1], others).registry;
            var x, y, room := attempts[k].candidate.userId, attempts[k].chosen.userId, w.registry.nextRoom + |PairsOf(attempts[..k])|;
            && r.sent == WorldAfter(w, attempts[..k], others).registry.sent && r.nextRoom == room
            && r'.sent <= WorldAfter(w, attempts, others).registry.sent
            && r'.sent == if attempts[k].ok
                          then r.sent + (if x in r.conns then [Notice(r.conns[x], room, y)] else [])
                                      + (if y in r.conns then [Notice(r.conns[y], room, x)] else [])
                          else r.sent
  {
    var made := attempts[..k + 1];
    assert made[..k] == attempts[..k];
    DecidedPrefix(w, attempts, others, k + 1);
    RoomsBefore(w, attempts, others, k);
    LastClaimSends(w, made, attempts[..k], attempts[k], others);
    FramesStay(w, attempts, others, k + 1);
  }

  lemma RoomsBefore(w: World, attempts: seq<Attempt>, others: nat -> seq<Other>, k: nat)
    requires ClaimsDecided(w, attempts, others) && k < |attempts|
    ensures WorldAfter(w, attempts[..k], others).registry.nextRoom == w.registry.nextRoom + |PairsOf(attempts[..k])|
  {
    DecidedPrefix(w, attempts, others, k);
    TickTellsBothSides(w, attempts[..k], others);
  }

  lemma LastClaimSends(w: World, made: seq<Attempt>, earlier: seq<Attempt>, a: Attempt, others: nat -> seq<Other>)
    requires made != [] && made[..|made| - 1] == earlier && made[|made| - 1] == a && LastDecided(w, made, others)
    ensures var before, r, r' := WorldAfter(w, earlier, others).registry, WorldBefore(w, made, others).registry, WorldAfter(w, made, others).registry;
            var x, y := a.candidate.userId, a.chosen.userId;
            && r.sent == before.sent && r.nextRoom == before.nextRoom
            && r'.sent == if a.ok
                          then r.sent + (if x in r.conns then [Notice(r.conns[x], r.nextRoom, y)] else [])
                                      + (if y in r.conns then [Notice(r.conns[y], r.nextRoom, x)] else [])
                          else r.sent
  {
    OthersSendNothing(WorldAfter(w, earlier, others), others(a.at));
    ClaimEffect(WorldBefore(w, made, others), a);
  }

  lemma {:induction false} DecidedPrefix(w: World, attempts: seq<Attempt>, others: nat -> seq<Other>, k: nat)
    requires ClaimsDecided(w, attempts, others) && k <= |attempts|
    ensures ClaimsDecided(w, attempts[..k], others)
  {
    if k < |attempts| {
      assert attempts[..|attempts| - 1][..k] == attempts[..k];
      DecidedPrefix(w, attempts[..|attempts| - 1], others, k);
    } else {
      assert attempts[..k] == attempts;
    }
  }

  // ---- Maximality -----------------------------------------------------------------------

  /** A user is taken exactly when some successful claim names him. */
  lemma {:induction false} TakenByAClaim(attempts: seq<Attempt>, user: User)
    ensures user in UsersOf(PairsOf(attempts)) <==>
              exists k :: 0 <= k < |attempts| && attempts[k].ok && (user == attempts[k].candidate.userId || user == attempts[k].chosen.userId)
  {
    if attempts != [] {
      var n := |attempts| - 1;
      TakenByAClaim(attempts[..n], user);
      PairsGrow(PairsOf(attempts[..n]), attempts[n]);
      assert forall k :: 0 <= k < n ==> attempts[..n][k] == attempts[k];
    }
  }

  /** No successful claim names the player. */
  ghost predicate LeftOver(p: Player, attempts: seq<Attempt>) {
    forall k :: 0 <= k < |attempts| && attempts[k].ok ==> p.userId != attempts[k].candidate.userId && p.userId != attempts[k].chosen.userId
  }

  /** Two players left over, one of whom did not lose a claim of his own, differ by more than the
      level distance, and that one has not waited past the deadline. */
  lemma LeftoversCannotMatch(pool: set<Player>, attempts: seq<Attempt>, now: int, cfg: Config, x: Player, y: Player)
    requires LeftoversHadNoMatch(pool, PairsOf(attempts), LostOf(attempts), now, cfg)
    requires x in pool && y in pool && x.userId != y.userId && LeftOver(x, attempts) && LeftOver(y, attempts)
    requires forall k :: 0 <= k < |attempts| && attempts[k].candidate.userId == x.userId ==> attempts[k].ok
    ensures x.level - y.level > cfg.levelDist || y.level - x.level > cfg.levelDist
    ensures now - x.enqueuedAt < cfg.fallbackAfter
  {
    TakenByAClaim(attempts, x.userId);
    TakenByAClaim(attempts, y.userId);
    assert y in Free(pool, UsersOf(PairsOf(attempts)), x);
    assert x.userId !in LostOf(attempts);
    assert Unpaired(x, pool, PairsOf(attempts));
  }

  /** If no claim failed the matching is maximal, however stale the snapshot and whatever others
      did: any two left over differ by more than the distance, and none of them is overdue. */
  lemma NoFailedClaimIsMaximal(pool: set<Player>, attempts: seq<Attempt>, now: int, cfg: Config, x: Player, y: Player)
    requires LeftoversHadNoMatch(pool, PairsOf(attempts), LostOf(attempts), now, cfg)
    requires forall k :: 0 <= k < |attempts| ==> attempts[k].ok
    requires x in pool && y in pool && x.userId != y.userId && LeftOver(x, attempts) && LeftOver(y, attempts)
    ensures x.level - y.level > cfg.levelDist || y.level - x.level > cfg.levelDist
    ensures now - x.enqueuedAt < cfg.fallbackAfter && now - y.enqueuedAt < cfg.fallbackAfter
  {
    LeftoversCannotMatch(pool, attempts, now, cfg, x, y);
    LeftoversCannotMatch(pool, attempts, now, cfg, y, x);
  }

  /** A claim fails only when somebody else took or removed an entry: on a snapshot that is not
      stale, with nobody interfering, none does. */
  lemma {:induction false} UndisturbedClaimsSucceed(w: World, waiting: seq<Player>, attempts: seq<Attempt>, others: nat -> seq<Other>, now: int, cfg: Config)
    requires AttemptsOk(Elements(waiting), attempts, now, cfg) && ClaimsDecided(w, attempts, others)
    requires StillQueued(waiting, {}, w.queue.waiting) && forall n :: others(n) == []
    ensures forall k :: 0 <= k < |attempts| ==> attempts[k].ok
    ensures StillQueued(waiting, UsersOf(PairsOf(attempts)), WorldAfter(w, attempts, others).queue.waiting)
  {
    if attempts != [] {
      var n := |attempts| - 1;
      AttemptsOfPrefix(Elements(waiting), attempts, n, now, cfg);
      UndisturbedClaimsSucceed(w, waiting, attempts[..n], others, now, cfg);
      assert AttemptOk(Elements(waiting), attempts, n, now, cfg);
      assert WorldBefore(w, attempts, others) == WorldAfter(w, attempts[..n], others) && LastDecided(w, attempts, others);
      UndisturbedClaim(WorldAfter(w, attempts[..n], others), waiting, UsersOf(PairsOf(attempts[..n])), attempts[n]);
      PairsGrow(PairsOf(attempts[..n]), attempts[n]);
    }
  }

  lemma UndisturbedClaim(w: World, waiting: seq<Player>, paired: set<User>, a: Attempt)
    requires StillQueued(waiting, paired, w.queue.waiting)
    requires a.candidate in waiting && a.candidate.userId !in paired && a.chosen in waiting && a.chosen.userId !in paired
    ensures CanPair(w.queue, a.candidate, a.chosen)
    ensures StillQueued(waiting, paired + {a.candidate.userId, a.chosen.userId}, Claim(w, a).queue.waiting)
  {
  }

  // ---- The service ----------------------------------------------------------------------

  /** What a visit to the candidate at position `at` finds: he is taken or has nobody to claim, or
      the greedy choice is claimed and decided by the queue as others have left it. */
  ghost predicate Visited(w: World, at: nat, waiting: seq<Player>, paired: set<User>, now: int, os: seq<Other>, cfg: Config, attempt: Option<Attempt>)
    requires at < |waiting|
  {
    var candidate := waiting[at];
    match attempt
    case None => candidate.userId in paired || HadNoMatch(candidate, Elements(waiting), paired, now, cfg)
    case Some(a) =>
      && a.at == at && a.candidate == candidate && candidate.userId !in paired
      && Chosen(candidate, Free(Elements(waiting), paired, candidate), now, cfg, Some(a.chosen))
      && (a.ok <==> CanPair(OthersRun(w, os).queue, candidate, a.chosen))
  }

  function AfterVisit(w: World, os: seq<Other>, attempt: Option<Attempt>): World {
    if attempt.None? then w else Claim(OthersRun(w, os), attempt.value)
  }

  class MatchmakingService {
    const queueRepo: QueueRepository
    const cfg: Config
    var conns: map<User, Conn>
    var modes: map<User, Mode>
    var nextRoom: RoomId
    var sent: seq<Notice>

    ghost function View(): World
      reads this, queueRepo
    {
      World(queueRepo.View(), Registry(conns, modes, sent, nextRoom))
    }

    constructor (cfg: Config)
      ensures fresh(queueRepo) && queueRepo.View() == EmptyQueue && this.cfg == cfg
      ensures conns == map[] && modes == map[] && sent == [] && nextRoom == 0
    {
      this.cfg := cfg;
      queueRepo := new QueueRepository();
      conns, modes, sent, nextRoom := map[], map[], [], 0;
    }

    /** A missing rating means the default level; a failed cooldown lookup lets the player in; a
        failed enqueue registers nobody. */
    method Join(player: Player, conn: Conn, rating: Option<int>, cooldown: Option<int>, enqueueFails: bool) returns (reply: JoinReply)
      modifies this, queueRepo
      ensures var level := if rating.Some? then rating.value else DEFAULT_LEVEL;
              var p := player.(level := level);
              && (reply == InvalidPlayer <==> !ValidMode(p.mode) || !ValidLevel(level))
              && (reply.InCooldown? <==> reply != InvalidPlayer && cooldown.Some?)
              && (reply.EnqueueFailed? <==> reply != InvalidPlayer && cooldown.None? && enqueueFails)
              && View() == if reply.Enqueued?
                           then OthersRun(old(View()), [OnQueue(Op.Enqueue(p)), Connect(p.userId, conn, p.mode)])
                           else old(View())
      ensures var level := if rating.Some? then rating.value else 4;
              && (reply == InvalidPlayer <==>
                    || !(1 <= level <= 10) || !(1 <= |player.mode.name| <= 32)
                    || exists k :: 0 <= k < |player.mode.name| &&
                         var c := player.mode.name[k]; !('a' <= c <= 'z' || '0' <= c <= '9' || c == '_' || c == '-'))
              && (reply == if reply.InvalidPlayer? then InvalidPlayer else if cooldown.Some? then InCooldown(cooldown.value)
                           else if enqueueFails then EnqueueFailed else Enqueued)
              && (reply.Enqueued? ==>
                    && queueRepo.waiting == old(queueRepo.waiting)[Key(player.mode, player.userId) := Entry(level, player.enqueuedAt)]
                    && conns == old(conns)[player.userId := conn] && modes == old(modes)[player.userId := player.mode])
      ensures sent == old(sent)
    {
      var level := DEFAULT_LEVEL;
      if rating.Some? {
        level := rating.value;
      }
      var p := player.(level := level);
      if !ValidMode(p.mode) || !ValidLevel(p.level) {
        return InvalidPlayer;
      }
      if cooldown.Some? {
        return InCooldown(cooldown.value);
      }
      if enqueueFails {
        return EnqueueFailed;
      }
      TwoOthers(View(), OnQueue(Op.Enqueue(p)), Connect(p.userId, conn, p.mode));
      queueRepo.Enqueue(p);
      conns := conns[p.userId := conn];
      modes := modes[p.userId := p.mode];
      return Enqueued;
    }

    /** Deregisters first; a failed removal is logged and leaves the entry in the queue. */
    method Leave(user: User, mode: Mode, removeFails: bool)
      modifies this, queueRepo
      ensures View() == if removeFails then OthersRun(old(View()), [Disconnect(user)])
                        else OthersRun(old(View()), [Disconnect(user), OnQueue(Op.Remove(mode, user))])
      ensures conns == old(conns) - {user} && modes == old(modes) - {user} && sent == old(sent)
      ensures queueRepo.waiting == if removeFails then old(queueRepo.waiting) else old(queueRepo.waiting) - {Key(mode, user)}
    {
      TwoOthers(View(), Disconnect(user), OnQueue(Op.Remove(mode, user)));
      conns := conns - {user};
      modes := modes - {user};
      if !removeFails {
        var found := queueRepo.Remove(mode, user);
      }
    }

    /** The modes with a registered connection, each once. */
    method ActiveModes() returns (active: seq<Mode>)
      ensures forall m :: m in active <==> exists u :: u in modes && modes[u] == m
      ensures forall i, j :: 0 <= i < j < |active| ==> active[i] != active[j]
    {
      active := [];
      var seen, todo := {}, modes.Keys;
      while todo != {}
        invariant seen + todo == modes.Keys
        invariant forall m :: m in active <==> exists u :: u in seen && modes[u] == m
        invariant forall i, j :: 0 <= i < j < |active| ==> active[i] != active[j]
        decreases todo
      {
        ghost var some: User := Pick(todo);
        var user :| user in todo;
        if modes[user] !in active {
          active := active + [modes[user]];
        }
        seen, todo := seen + {user}, todo - {user};
      }
      assert seen == modes.Keys;
    }

    /** Builds the list of free opponents and applies the two searches. */
    method Choose(candidate: Player, waiting: seq<Player>, paired: set<User>, now: int) returns (opponent: Option<Player>)
      ensures Chosen(candidate, Free(Elements(waiting), paired, candidate), now, cfg, opponent)
      ensures opponent.None? <==>
                forall w :: w in waiting && w.userId != candidate.userId && w.userId !in paired ==>
                  Gap(candidate, w) > cfg.levelDist && now - candidate.enqueuedAt < cfg.fallbackAfter
      ensures opponent.Some? ==>
                var b := opponent.value;
                && b in waiting && b.userId != candidate.userId && b.userId !in paired
                && (Gap(candidate, b) <= cfg.levelDist || now - candidate.enqueuedAt >= cfg.fallbackAfter)
                && (forall w :: w in waiting && w.userId != candidate.userId && w.userId !in paired ==> Gap(candidate, b) <= Gap(candidate, w))
                && (forall w :: w in waiting && w.userId != candidate.userId && w.userId !in paired && Gap(candidate, w) == Gap(candidate, b) ==>
                      || b.enqueuedAt < w.enqueuedAt
                      || (b.enqueuedAt == w.enqueuedAt && b.userId <= w.userId))
    {
      var available := [];
      var j := 0;
      while j < |waiting|
        invariant 0 <= j <= |waiting|
        invariant forall w :: w in available <==> w in waiting[..j] && w.userId != candidate.userId && w.userId !in paired
      {
        if waiting[j].userId != candidate.userId && waiting[j].userId !in paired {
          available := available + [waiting[j]];
        }
        j := j + 1;
      }
      assert Elements(available) == Free(Elements(waiting), paired, candidate);
      if available == [] {
        return None;
      }
      opponent := NearestWithinDistance(candidate, available, cfg.levelDist);
      assert opponent.None? <==> NoneInDistance(candidate, Elements(available), cfg) by {
        assert forall w :: w in Elements(available) ==> (InReach(candidate, w, Some(cfg.levelDist)) <==> Gap(candidate, w) <= cfg.levelDist);
      }
      if opponent.None? && PastFallbackDeadline(now, candidate.enqueuedAt, cfg.fallbackAfter) {
        opponent := NearestRegardless(candidate, available);
      }
    }

    method InterfereOnce(o: Other)
      modifies this, queueRepo
      ensures View() == OtherStep(old(View()), o)
    {
      match o {
        case OnQueue(op) => queueRepo.ApplyOne(op);
        case Connect(user, conn, mode) => conns, modes := conns[user := conn], modes[user := mode];
        case Disconnect(user) => conns, modes := conns - {user}, modes - {user};
      }
    }

    /** What other goroutines do between two of our own commands. */
    method Interfere(os: seq<Other>)
      modifies this, queueRepo
      ensures View() == OthersRun(old(View()), os)
    {
      var i := 0;
      while i < |os|
        invariant 0 <= i <= |os|
        invariant View() == OthersRun(old(View()), os[..i])
      {
        assert os[..i + 1][..i] == os[..i];
        InterfereOnce(os[i]);
        i := i + 1;
      }
      assert os[..i] == os;
    }

    /** Claims both sides at once or neither; on success both connections are told of the same
        new room and of each other, and are deregistered. */
    method TryPair(at: nat, a: Player, b: Player) returns (attempt: Attempt)
      modifies this, queueRepo
      ensures attempt == Attempt(at, a, b, CanPair(old(View()).queue, a, b))
      ensures View() == Claim(old(View()), attempt)
      ensures attempt.ok <==> Key(a.mode, a.userId) in old(queueRepo.waiting) && Key(b.mode, b.userId) in old(queueRepo.waiting)
      ensures attempt.ok ==>
                && nextRoom == old(nextRoom) + 1 && conns == old(conns) - {a.userId, b.userId} && modes == old(modes) - {a.userId, b.userId}
                && queueRepo.waiting == old(queueRepo.waiting) - {Key(a.mode, a.userId), Key(b.mode, b.userId)}
                && sent == old(sent)
                           + (if a.userId in old(conns) then [Notice(old(conns)[a.userId], old(nextRoom), b.userId)] else [])
                           + (if b.userId in old(conns) then [Notice(old(conns)[b.userId], old(nextRoom), a.userId)] else [])
      ensures !attempt.ok ==>
                sent == old(sent) && conns == old(conns) && modes == old(modes) && nextRoom == old(nextRoom) && queueRepo.waiting == old(queueRepo.waiting)
    {
      ClaimEffect(View(), Attempt(at, a, b, true));
      var ok := queueRepo.Pair(a, b);
      attempt := Attempt(at, a, b, ok);
      if !ok {
        return;
      }
      var room := nextRoom;
      nextRoom := nextRoom + 1;
      var before := conns;
      conns := conns - {a.userId};
      conns := conns - {b.userId};
      MinusTwice(before, {a.userId}, {b.userId});
      assert {a.userId} + {b.userId} == {a.userId, b.userId};
      modes := modes - {a.userId};
      modes := modes - {b.userId};
      MinusTwice(old(modes), {a.userId}, {b.userId});
      sent := sent + NoticeTo(before, a.userId, room, b.userId);
      sent := sent + NoticeTo(before, b.userId, room, a.userId);
    }

    /** One candidate of a pass: skipped if already paired, else matched by `Choose` and claimed.
        Others may do `os` before the claim. */
    method Visit(at: nat, waiting: seq<Player>, paired: set<User>, now: int, os: seq<Other>) returns (attempt: Option<Attempt>)
      requires at < |waiting|
      modifies this, queueRepo
      ensures Visited(old(View()), at, waiting, paired, now, os, cfg, attempt)
      ensures View() == AfterVisit(old(View()), os, attempt)
    {
      var candidate := waiting[at];
      if candidate.userId in paired {
        return None;
      }
      var opponent := Choose(candidate, waiting, paired, now);
      if opponent.None? {
        NotChosen(candidate, Free(Elements(waiting), paired, candidate), now, cfg);
        return None;
      }
      Interfere(os);
      var a := TryPair(at, candidate, opponent.value);
      return Some(a);
    }

    /** One turn of the loop of a pass that began in world `w`. */
    method Turn(ghost w: World, at: nat, waiting: seq<Player>, before: seq<Attempt>, taken: set<User>, now: int, others: nat -> seq<Other>)
      returns (attempts: seq<Attempt>, paired: set<User>)
      requires at < |waiting| && OthersPairDiffer(others(at))
      requires PassAt(w, View(), waiting, before, taken, others, at, now, cfg)
      modifies this, queueRepo
      ensures PassAt(w, View(), waiting, attempts, paired, others, at + 1, now, cfg)
    {
      attempts, paired := before, taken;
      var attempt := Visit(at, waiting, paired, now, others(at));
      PassGoesOn(w, waiting, before, taken, attempt, others, at, now, cfg);
      if attempt.Some? {
        attempts := attempts + [attempt.value];
        if attempt.value.ok {
          paired := paired + {attempt.value.candidate.userId, attempt.value.chosen.userId};
        }
      }
    }

    /** One pass over a snapshot, which may be stale by the time of a claim. */
    method Pass(waiting: seq<Player>, now: int, others: nat -> seq<Other>) returns (attempts: seq<Attempt>)
      requires Conserved(queueRepo.View()) && forall n :: OthersPairDiffer(others(n))
      modifies this, queueRepo
      ensures Conserved(queueRepo.View())
      ensures InTurn(waiting, attempts, |waiting|)
      ensures AttemptsOk(Elements(waiting), attempts, now, cfg)
      ensures ClaimsDecided(old(View()), attempts, others)
      ensures View() == WorldAfter(old(View()), attempts, others)
      ensures LeftoversHadNoMatch(Elements(waiting), PairsOf(attempts), LostOf(attempts), now, cfg)
    {
      attempts := [];
      var paired: set<User> := {};
      var i := 0;
      while i < |waiting|
        invariant PassAt(old(View()), View(), waiting, attempts, paired, others, i, now, cfg)
      {
        attempts, paired := Turn(old(View()), i, waiting, attempts, paired, now, others);
        i := i + 1;
      }
      PassDone(old(View()), View(), waiting, attempts, paired, others, now, cfg);
    }

    /** The pass over what the queue lists now. */
    method TickMode(mode: Mode, now: int, listFails: bool, others: nat -> seq<Other>) returns (waiting: seq<Player>, attempts: seq<Attempt>)
      requires Conserved(queueRepo.View()) && forall n :: OthersPairDiffer(others(n))
      modifies this, queueRepo
      ensures Conserved(queueRepo.View())
      ensures Elements(waiting) == if listFails then {} else Waiting(old(queueRepo.View()), mode)
      ensures forall i, j :: 0 <= i < j < |waiting| ==> waiting[i].userId != waiting[j].userId
      ensures InTurn(waiting, attempts, |waiting|)
      ensures AttemptsOk(Elements(waiting), attempts, now, cfg)
      ensures ClaimsDecided(old(View()), attempts, others)
      ensures View() == WorldAfter(old(View()), attempts, others)
      ensures LeftoversHadNoMatch(Elements(waiting), PairsOf(attempts), LostOf(attempts), now, cfg)
      ensures (forall n :: others(n) == []) ==> forall k :: 0 <= k < |attempts| ==> attempts[k].ok
    {
      if listFails {
        return [], [];
      }
      waiting := queueRepo.ListWaiting(mode);
      ListedIsQueued(queueRepo.View(), mode, waiting);
      attempts := Pass(waiting, now, others);
      if forall n :: others(n) == [] {
        UndisturbedClaimsSucceed(old(View()), waiting, attempts, others, now, cfg);
      }
    }
  }

  /** What a pass has established after `n` candidates. */
  ghost predicate PassOk(w: World, waiting: seq<Player>, attempts: seq<Attempt>, others: nat -> seq<Other>, n: nat, now: int, cfg: Config)
    requires n <= |waiting|
  {
    && InTurn(waiting, attempts, n)
    && AttemptsOk(Elements(waiting), attempts, now, cfg)
    && ClaimsDecided(w, attempts, others)
    && SettledUpTo(waiting, n, UsersOf(PairsOf(attempts)), LostOf(attempts), now, cfg)
  }

  lemma PassSkips(w: World, waiting: seq<Player>, attempts: seq<Attempt>, others: nat -> seq<Other>, n: nat, now: int, cfg: Config)
    requires n < |waiting| && PassOk(w, waiting, attempts, others, n, now, cfg)
    requires var paired := UsersOf(PairsOf(attempts));
             waiting[n].userId in paired || HadNoMatch(waiting[n], Elements(waiting), paired, now, cfg)
    ensures PassOk(w, waiting, attempts, others, n + 1, now, cfg)
  {
    var paired := UsersOf(PairsOf(attempts));
    SettleOneMore(waiting, n, paired, paired, LostOf(attempts), LostOf(attempts), now, cfg);
  }

  /** The state of the loop of a pass at candidate `n`. */
  ghost predicate PassAt(w: World, w': World, waiting: seq<Player>, attempts: seq<Attempt>, paired: set<User>, others: nat -> seq<Other>,
                         n: nat, now: int, cfg: Config)
  {
    && n <= |waiting| && PassOk(w, waiting, attempts, others, n, now, cfg)
    && Conserved(w'.queue) && w' == WorldAfter(w, attempts, others) && paired == UsersOf(PairsOf(attempts))
  }

  /** One candidate more, claimed for or not. */
  lemma PassGoesOn(w: World, waiting: seq<Player>, attempts: seq<Attempt>, paired: set<User>, attempt: Option<Attempt>, others: nat -> seq<Other>,
                   n: nat, now: int, cfg: Config)
    requires n < |waiting| && OthersPairDiffer(others(n))
    requires PassAt(w, WorldAfter(w, attempts, others), waiting, attempts, paired, others, n, now, cfg)
    requires Visited(WorldAfter(w, attempts, others), n, waiting, paired, now, others(n), cfg, attempt)
    ensures var w' := AfterVisit(WorldAfter(w, attempts, others), others(n), attempt);
            match attempt
            case None => PassAt(w, w', waiting, attempts, paired, others, n + 1, now, cfg)
            case Some(a) =>
              PassAt(w, w', waiting, attempts + [a], if a.ok then paired + {a.candidate.userId, a.chosen.userId} else paired, others, n + 1, now, cfg)
  {
    match attempt
    case None => PassSkips(w, waiting, attempts, others, n, now, cfg);
    case Some(a) =>
      ClaimIsSound(WorldAfter(w, attempts, others), others(n), a, Free(Elements(waiting), UsersOf(PairsOf(attempts)), a.candidate), now, cfg);
      PassClaims(w, waiting, attempts, a, others, n, now, cfg);
  }

  lemma PassDone(w: World, w': World, waiting: seq<Player>, attempts: seq<Attempt>, paired: set<User>, others: nat -> seq<Other>, now: int, cfg: Config)
    requires PassAt(w, w', waiting, attempts, paired, others, |waiting|, now, cfg)
    ensures Conserved(w'.queue) && w' == WorldAfter(w, attempts, others)
    ensures InTurn(waiting, attempts, |waiting|) && AttemptsOk(Elements(waiting), attempts, now, cfg) && ClaimsDecided(w, attempts, others)
    ensures LeftoversHadNoMatch(Elements(waiting), PairsOf(attempts), LostOf(attempts), now, cfg)
  {
    AllSettled(waiting, PairsOf(attempts), LostOf(attempts), now, cfg);
  }

  lemma PassClaims(w: World, waiting: seq<Player>, attempts: seq<Attempt>, a: Attempt, others: nat -> seq<Other>, n: nat, now: int, cfg: Config)
    requires n < |waiting| && PassOk(w, waiting, attempts, others, n, now, cfg)
    requires a.at == n && a.candidate == waiting[n] && a.candidate.userId !in UsersOf(PairsOf(attempts))
    requires Chosen(a.candidate, Free(Elements(waiting), UsersOf(PairsOf(attempts)), a.candidate), now, cfg, Some(a.chosen))
    requires a.ok <==> CanPair(OthersRun(WorldAfter(w, attempts, others), others(n)).queue, a.candidate, a.chosen)
    ensures PassOk(w, waiting, attempts + [a], others, n + 1, now, cfg)
    ensures WorldAfter(w, attempts + [a], others) == Claim(OthersRun(WorldAfter(w, attempts, others), others(n)), a)
    ensures UsersOf(PairsOf(attempts + [a])) == UsersOf(PairsOf(attempts)) + if a.ok then {a.candidate.userId, a.chosen.userId} else {}
  {
    AttemptAdded(Elements(waiting), attempts, a, now, cfg);
    ClaimAdded(w, attempts, a, others);
    TurnTaken(waiting, attempts, a, n);
    SettleOneMore(waiting, n, UsersOf(PairsOf(attempts)), UsersOf(PairsOf(attempts + [a])), LostOf(attempts), LostOf(attempts + [a]), now, cfg);
  }

  lemma TurnTaken(waiting: seq<Player>, attempts: seq<Attempt>, a: Attempt, n: nat)
    requires n < |waiting| && InTurn(waiting, attempts, n) && a.at == n && a.candidate == waiting[n]
    ensures InTurn(waiting, attempts + [a], n + 1)
  {
  }

  lemma TwoOthers(w: World, a: Other, b: Other)
    ensures OthersRun(w, [a]) == OtherStep(w, a)
    ensures OthersRun(w, [a, b]) == OtherStep(OtherStep(w, a), b)
  {
    assert [a, b][..1] == [a] && [a][..0] == [];
  }

  lemma ClaimIsSound(w: World, os: seq<Other>, a: Attempt, free: set<Player>, now: int, cfg: Config)
    requires Conserved(w.queue) && OthersPairDiffer(os)
    requires Chosen(a.candidate, free, now, cfg, Some(a.chosen)) && forall p :: p in free ==> p.userId != a.candidate.userId
    ensures Conserved(Claim(OthersRun(w, os), a).queue)
  {
    OthersConserve(w, os);
    ClaimConserves(OthersRun(w, os), a);
  }

  lemma ListedIsQueued(q: Queue, mode: Mode, waiting: seq<Player>)
    requires Elements(waiting) == Waiting(q, mode)
    ensures StillQueued(waiting, {}, q.waiting)
  {
    forall k | 0 <= k < |waiting| ensures KeyOf(waiting[k]) in q.waiting {
      assert waiting[k] in Waiting(q, mode);
    }
  }
}
