/** Concurrent match transactions. */
module RatingTransactions {
  import opened Options
  import opened RatingMath

  // A transaction inserts default rows and locks the two players' rows in ascending id order, each
  // as a step of its own; inserting a row locks it too, and makes another insert of the same id
  // wait.

  type User = int
  type TxId = nat

  datatype Rating = Rating(elo: int, level: int, gamesPlayed: int)

  datatype Result = Result(winner: User, loser: User, winnerDelta: int, loserDelta: int)

  const DefaultRating := Rating(DEFAULT_ELO, DEFAULT_LEVEL, DEFAULT_GAMES)

  datatype Phase = InsertFirst | InsertSecond | LockFirst | LockSecond | Write | Finished

  /** `firstRead` and `secondRead` are the rows as read under their locks. */
  datatype Tx = Tx(winner: User, loser: User, phase: Phase, firstRead: Rating, secondRead: Rating)

  /** `ratings` and `results` are committed; `owner` says who holds each row lock, and `inserted`
      which locked rows exist only inside their owner's transaction. */
  datatype Db = Db(ratings: map<User, Rating>, results: seq<Result>, txs: seq<Tx>, owner: map<User, TxId>, inserted: set<User>)

  datatype Event =
    | Begin(winner: User, loser: User)
    | Advance(tx: TxId, expectedWin: real)
    | Abort(tx: TxId)

  const EmptyDb := Db(map[], [], [], map[], {})

  function First(t: Tx): User {
    if t.winner < t.loser then t.winner else t.loser
  }

  function Second(t: Tx): User {
    if t.winner < t.loser then t.loser else t.winner
  }

  // ---- The sequential effect of one match -----------------------------------------------

  function RatingOf(ratings: map<User, Rating>, u: User): Rating {
    if u in ratings then ratings[u] else DefaultRating
  }

  function After(r: Rating, delta: int): Rating {
    Rating(r.elo + delta, LevelForElo(r.elo + delta), r.gamesPlayed + 1)
  }

  function Deltas(ratings: map<User, Rating>, winner: User, loser: User, expectedWin: real): (int, int) {
    CalcEloDeltas(expectedWin, RatingOf(ratings, winner).gamesPlayed, RatingOf(ratings, loser).gamesPlayed)
  }

  function NewRatings(ratings: map<User, Rating>, winner: User, loser: User, expectedWin: real): map<User, Rating> {
    var (w, l) := Deltas(ratings, winner, loser, expectedWin);
    ratings[winner := After(RatingOf(ratings, winner), w)][loser := After(RatingOf(ratings, loser), l)]
  }

  function NewResult(ratings: map<User, Rating>, winner: User, loser: User, expectedWin: real): Result {
    var (w, l) := Deltas(ratings, winner, loser, expectedWin);
    Result(winner, loser, w, l)
  }

  // ---- Steps ----------------------------------------------------------------------------

  function WithTx(db: Db, i: TxId, t: Tx): Db
    requires i < |db.txs|
  {
    db.(txs := db.txs[i := t])
  }

  /** The row a transaction's next statement needs, if it needs one. */
  function Wanted(t: Tx): Option<User> {
    match t.phase
    case InsertFirst => Some(First(t))
    case InsertSecond => Some(Second(t))
    case LockFirst => Some(First(t))
    case LockSecond => Some(Second(t))
    case _ => None
  }

  /** An insert waits for another's uncommitted insert of the same id; a lock for another's lock. */
  predicate Blocked(db: Db, i: TxId)
    requires i < |db.txs|
  {
    var t := db.txs[i];
    match t.phase
    case InsertFirst => First(t) in db.inserted && HeldByOther(db, i, First(t))
    case InsertSecond => Second(t) in db.inserted && HeldByOther(db, i, Second(t))
    case LockFirst => HeldByOther(db, i, First(t))
    case LockSecond => HeldByOther(db, i, Second(t))
    case _ => false
  }

  predicate HeldByOther(db: Db, i: TxId, u: User) {
    u in db.owner && db.owner[u] != i
  }

  /** INSERT of the default row, ON CONFLICT DO NOTHING. */
  function InsertRow(db: Db, i: TxId, u: User): Db {
    if u in db.ratings || u in db.inserted then db
    else db.(owner := db.owner[u := i], inserted := db.inserted + {u})
  }

  function Release(db: Db, i: TxId): Db {
    var held := set u | u in db.owner && db.owner[u] == i;
    db.(owner := db.owner - held, inserted := db.inserted - held)
  }

  /** The winner's and the loser's row as the transaction read them. */
  function WinnerRead(t: Tx): Rating {
    if t.winner == First(t) then t.firstRead else t.secondRead
  }

  function LoserRead(t: Tx): Rating {
    if t.winner == First(t) then t.secondRead else t.firstRead
  }

  /** Both updates and the history row, from what was read, and the commit. */
  function CommitStep(db: Db, i: TxId, expectedWin: real): Db
    requires i < |db.txs|
  {
    var t := db.txs[i];
    var (w, l) := CalcEloDeltas(expectedWin, WinnerRead(t).gamesPlayed, LoserRead(t).gamesPlayed);
    var db' := Release(WithTx(db, i, t.(phase := Finished)), i);
    db'.(ratings := db.ratings[t.winner := After(WinnerRead(t), w)][t.loser := After(LoserRead(t), l)],
         results := db.results + [Result(t.winner, t.loser, w, l)])
  }

  function AdvanceStep(db: Db, i: TxId, expectedWin: real): Db {
    if i >= |db.txs| || Blocked(db, i) then db
    else
      var t := db.txs[i];
      match t.phase
      case InsertFirst => InsertRow(WithTx(db, i, t.(phase := InsertSecond)), i, First(t))
      case InsertSecond => InsertRow(WithTx(db, i, t.(phase := LockFirst)), i, Second(t))
      case LockFirst =>
        WithTx(db, i, t.(phase := LockSecond, firstRead := RatingOf(db.ratings, First(t)))).(owner := db.owner[First(t) := i])
      case LockSecond =>
        WithTx(db, i, t.(phase := Write, secondRead := RatingOf(db.ratings, Second(t)))).(owner := db.owner[Second(t) := i])
      case Write => if 0.0 < expectedWin < 1.0 then CommitStep(db, i, expectedWin) else db
      case Finished => db
  }

  /** A transaction is only begun for two different players. */
  function Step(db: Db, e: Event): Db {
    match e
    case Begin(winner, loser) =>
      if winner == loser then db
      else db.(txs := db.txs + [Tx(winner, loser, InsertFirst, DefaultRating, DefaultRating)])
    case Advance(i, expectedWin) => AdvanceStep(db, i, expectedWin)
    case Abort(i) =>
      if i >= |db.txs| || db.txs[i].phase == Finished then db
      else Release(WithTx(db, i, db.txs[i].(phase := Finished)), i)
  }

  function Run(es: seq<Event>): Db {
    if es == [] then EmptyDb else Step(Run(es[..|es| - 1]), es[|es| - 1])
  }

  // ---- The lock invariant ---------------------------------------------------------------

  predicate PastInsert(t: Tx, u: User) {
    (u == First(t) && !t.phase.InsertFirst?) || (u == Second(t) && !t.phase.InsertFirst? && !t.phase.InsertSecond?)
  }

  predicate PastLock(t: Tx, u: User) {
    (u == First(t) && (t.phase.LockSecond? || t.phase.Write?)) || (u == Second(t) && t.phase.Write?)
  }

  /** A row lock is held by a live transaction that has inserted or locked that row. */
  predicate RowOk(db: Db, u: User) {
    && (u in db.inserted ==> u in db.owner && u !in db.ratings)
    && (u in db.owner ==>
          && db.owner[u] < |db.txs| && !db.txs[db.owner[u]].phase.Finished?
          && PastInsert(db.txs[db.owner[u]], u)
          && (u !in db.inserted ==> PastLock(db.txs[db.owner[u]], u)))
  }

  /** Once past its insert a player's row is there; once past its lock it is held and as read. */
  predicate TxOk(db: Db, i: TxId)
    requires i < |db.txs|
  {
    var t := db.txs[i];
    && t.winner != t.loser
    && (!t.phase.Finished? ==> PlayerOk(db, i, First(t), t.firstRead) && PlayerOk(db, i, Second(t), t.secondRead))
  }

  predicate PlayerOk(db: Db, i: TxId, u: User, read: Rating)
    requires i < |db.txs|
  {
    && (PastInsert(db.txs[i], u) ==> u in db.ratings || (u in db.inserted && u in db.owner && db.owner[u] == i))
    && (PastLock(db.txs[i], u) ==> u in db.owner && db.owner[u] == i && read == RatingOf(db.ratings, u))
  }

  ghost predicate Locks(db: Db) {
    && (forall u :: RowOk(db, u))
    && (forall i :: 0 <= i < |db.txs| ==> TxOk(db, i))
  }

  // ---- Preservation ---------------------------------------------------------------------

  lemma ReleaseKeepsLocks(db: Db, db': Db, i: TxId)
    requires Locks(db) && i < |db.txs| && !db.txs[i].phase.Finished?
    requires db' == Release(WithTx(db, i, db.txs[i].(phase := Finished)), i).(ratings := db'.ratings, results := db'.results)
    requires forall u :: u in db.ratings ==> u in db'.ratings
    requires forall u :: HeldByOther(db, i, u) || u !in db.owner ==>
               (u in db.ratings <==> u in db'.ratings) && RatingOf(db.ratings, u) == RatingOf(db'.ratings, u)
    ensures Locks(db')
  {
    forall u ensures RowOk(db', u) {
      assert RowOk(db, u);
    }
    forall k | 0 <= k < |db'.txs| ensures TxOk(db', k) {
      assert TxOk(db, k);
      var t := db.txs[k];
      if k != i && !t.phase.Finished? {
        assert RowOk(db, First(t)) && RowOk(db, Second(t));
      }
    }
  }

  lemma BeginKeepsLocks(db: Db, winner: User, loser: User)
    requires Locks(db)
    ensures Locks(Step(db, Begin(winner, loser)))
  {
    var db' := Step(db, Begin(winner, loser));
    forall u ensures RowOk(db', u) {
      assert RowOk(db, u);
    }
    forall k | 0 <= k < |db'.txs| ensures TxOk(db', k) {
      if k < |db.txs| {
        assert TxOk(db, k);
      }
    }
  }

  lemma InsertKeepsLocks(db: Db, i: TxId)
    requires Locks(db) && i < |db.txs| && !Blocked(db, i)
    requires db.txs[i].phase.InsertFirst? || db.txs[i].phase.InsertSecond?
    ensures Locks(AdvanceStep(db, i, 0.5))
  {
    var db' := AdvanceStep(db, i, 0.5);
    var t := db.txs[i];
    forall u ensures RowOk(db', u) {
      assert RowOk(db, u);
    }
    assert RowOk(db, First(t)) && RowOk(db, Second(t));
    forall k | 0 <= k < |db'.txs| ensures TxOk(db', k) {
      assert TxOk(db, k);
      if k != i {
        InsertLeavesOthers(db, db', if t.phase.InsertFirst? then First(t) else Second(t), i, k);
      }
    }
  }

  lemma InsertLeavesOthers(db: Db, db': Db, u: User, i: TxId, k: TxId)
    requires i < |db.txs| && k < |db.txs| && k != i && TxOk(db, k) && RowOk(db, u)
    requires |db'.txs| == |db.txs| && db' == InsertRow(WithTx(db, i, db'.txs[i]), i, u)
    ensures TxOk(db', k)
  {
  }

  lemma LockKeepsLocks(db: Db, i: TxId)
    requires Locks(db) && i < |db.txs| && !Blocked(db, i)
    requires db.txs[i].phase.LockFirst? || db.txs[i].phase.LockSecond?
    ensures Locks(AdvanceStep(db, i, 0.5))
  {
    var db' := AdvanceStep(db, i, 0.5);
    forall u ensures RowOk(db', u) {
      assert RowOk(db, u) && TxOk(db, i);
    }
    forall k | 0 <= k < |db'.txs| ensures TxOk(db', k) {
      assert TxOk(db, k) && TxOk(db, i);
    }
  }

  /** Under both locks a commit applies the match to the ratings as they are now, although they
      were read earlier: the run of transactions is the sequence of their commits. */
  lemma CommitIsSequential(db: Db, i: TxId, expectedWin: real)
    requires Locks(db) && i < |db.txs| && db.txs[i].phase.Write?
    ensures var t := db.txs[i];
            var db' := CommitStep(db, i, expectedWin);
            && db'.ratings == NewRatings(db.ratings, t.winner, t.loser, expectedWin)
            && db'.results == db.results + [NewResult(db.ratings, t.winner, t.loser, expectedWin)]
  {
    assert TxOk(db, i);
  }

  /** Field by field: both players' rows get their delta, the level of the new rating and one game
      more, everybody else's stay, the history gains one row, and every lock is released. */
  lemma CommitEffect(db: Db, i: TxId, expectedWin: real)
    requires Locks(db) && i < |db.txs| && db.txs[i].phase.Write? && 0.0 < expectedWin < 1.0
    ensures var t, db', n := db.txs[i], Step(db, Advance(i, expectedWin)), |db.results|;
            var w := if t.winner in db.ratings then db.ratings[t.winner] else Rating(1000, 4, 0);
            var l := if t.loser in db.ratings then db.ratings[t.loser] else Rating(1000, 4, 0);
            var (dw, dl) := CalcEloDeltas(expectedWin, w.gamesPlayed, l.gamesPlayed);
            && db'.ratings == db.ratings[t.winner := Rating(w.elo + dw, LevelForElo(w.elo + dw), w.gamesPlayed + 1)]
                                        [t.loser := Rating(l.elo + dl, LevelForElo(l.elo + dl), l.gamesPlayed + 1)]
            && db'.results == db.results + [Result(t.winner, t.loser, dw, dl)]
            && db'.txs == db.txs[i := t.(phase := Finished)]
            && (forall u :: u in db'.owner <==> u in db.owner && db.owner[u] != i)
  {
    CommitIsSequential(db, i, expectedWin);
    assert TxOk(db, i);
  }

  /** A lock waits exactly for another's lock on the row, lower id first; once taken, the row is read
      as it is committed. */
  lemma LockEffect(db: Db, i: TxId, expectedWin: real)
    requires i < |db.txs| && (db.txs[i].phase == LockFirst || db.txs[i].phase == LockSecond)
    ensures var t, db' := db.txs[i], Step(db, Advance(i, expectedWin));
            var low, high := if t.winner < t.loser then t.winner else t.loser, if t.winner < t.loser then t.loser else t.winner;
            var u := if t.phase == LockFirst then low else high;
            var row := if u in db.ratings then db.ratings[u] else Rating(1000, 4, 0);
            if u in db.owner && db.owner[u] != i then db' == db
            else
              && db'.owner == db.owner[u := i] && db'.ratings == db.ratings && db'.results == db.results && db'.inserted == db.inserted
              && db'.txs == db.txs[i := if t.phase == LockFirst then t.(phase := LockSecond, firstRead := row) else t.(phase := Write, secondRead := row)]
  {
  }

  /** An insert waits exactly for another's uncommitted insert of the same id, lower id first; a new
      row is locked by its inserter, and a row that is there is left alone. */
  lemma InsertEffect(db: Db, i: TxId, expectedWin: real)
    requires i < |db.txs| && (db.txs[i].phase == InsertFirst || db.txs[i].phase == InsertSecond)
    ensures var t, db' := db.txs[i], Step(db, Advance(i, expectedWin));
            var low, high := if t.winner < t.loser then t.winner else t.loser, if t.winner < t.loser then t.loser else t.winner;
            var u := if t.phase == InsertFirst then low else high;
            if u in db.inserted && u in db.owner && db.owner[u] != i then db' == db
            else
              && db'.txs == db.txs[i := t.(phase := if t.phase == InsertFirst then InsertSecond else LockFirst)]
              && db'.ratings == db.ratings && db'.results == db.results
              && db'.owner == (if u in db.ratings || u in db.inserted then db.owner else db.owner[u := i])
              && db'.inserted == if u in db.ratings then db.inserted else db.inserted + {u}
  {
  }

  lemma CommitKeepsLocks(db: Db, i: TxId, expectedWin: real)
    requires Locks(db) && i < |db.txs| && db.txs[i].phase.Write?
    ensures Locks(CommitStep(db, i, expectedWin))
  {
    var db' := CommitStep(db, i, expectedWin);
    var t := db.txs[i];
    assert TxOk(db, i);
    assert db' == Release(WithTx(db, i, t.(phase := Finished)), i).(ratings := db'.ratings, results := db'.results);
    ReleaseKeepsLocks(db, db', i);
  }

  lemma StepKeepsLocks(db: Db, e: Event)
    requires Locks(db)
    ensures Locks(Step(db, e))
  {
    match e
    case Begin(winner, loser) => BeginKeepsLocks(db, winner, loser);
    case Advance(i, expectedWin) =>
      if i < |db.txs| && !Blocked(db, i) {
        match db.txs[i].phase
        case InsertFirst => InsertKeepsLocks(db, i);
        case InsertSecond => InsertKeepsLocks(db, i);
        case LockFirst => LockKeepsLocks(db, i);
        case LockSecond => LockKeepsLocks(db, i);
        case Write => CommitKeepsLocks(db, i, expectedWin);
        case Finished =>
      }
    case Abort(i) =>
      if i < |db.txs| && !db.txs[i].phase.Finished? {
        ReleaseKeepsLocks(db, Step(db, e), i);
      }
  }

  lemma {:induction false} RunKeepsLocks(es: seq<Event>)
    ensures Locks(Run(es))
  {
    if es != [] {
      RunKeepsLocks(es[..|es| - 1]);
      StepKeepsLocks(Run(es[..|es| - 1]), es[|es| - 1]);
    }
  }

  // ---- Beginning and aborting -----------------------------------------------------------

  /** A match of two different players always begins, an unfinished transaction can always abort and
      then releases its locks and writes nothing, and a run takes every event. */
  lemma BeginAndAbortEffect(db: Db, winner: User, loser: User, i: TxId, es: seq<Event>, e: Event)
    ensures winner != loser ==>
              var t := Tx(winner, loser, InsertFirst, Rating(1000, 4, 0), Rating(1000, 4, 0));
              Step(db, Begin(winner, loser)) == db.(txs := db.txs + [t])
    ensures i < |db.txs| && db.txs[i].phase != Finished ==>
              var db' := Step(db, Abort(i));
              && db'.txs == db.txs[i := db.txs[i].(phase := Finished)] && db'.ratings == db.ratings && db'.results == db.results
              && (forall u :: u in db'.owner <==> u in db.owner && db.owner[u] != i)
              && (forall u :: u in db'.owner ==> db'.owner[u] == db.owner[u])
    ensures Run([]) == EmptyDb && Run(es + [e]) == Step(Run(es), e)
  {
    assert (es + [e])[..|es|] == es;
  }

  // ---- No deadlock ----------------------------------------------------------------------

  predicate Live(db: Db, i: TxId) {
    i < |db.txs| && !db.txs[i].phase.Finished?
  }

  predicate CanStep(db: Db, i: TxId) {
    Live(db, i) && !Blocked(db, i)
  }

  predicate Locking(t: Tx) {
    t.phase.LockFirst? || t.phase.LockSecond? || t.phase.Write?
  }

  function Bound(txs: seq<Tx>): int {
    if txs == [] then 0
    else var rest := Bound(txs[1..]); if Second(txs[0]) > rest then Second(txs[0]) else rest
  }

  lemma {:induction false} BoundIsUpper(txs: seq<Tx>, i: TxId)
    requires i < |txs|
    ensures Second(txs[i]) <= Bound(txs)
  {
    if i > 0 {
      BoundIsUpper(txs[1..], i - 1);
    }
  }

  /** Whoever a locking transaction waits for holds that row by a lock, not by an insert. */
  lemma HolderIsLocking(db: Db, i: TxId, u: User)
    requires Locks(db) && Live(db, i) && Blocked(db, i) && Locking(db.txs[i]) && Wanted(db.txs[i]) == Some(u)
    ensures var j := db.owner[u];
            Live(db, j) && PastLock(db.txs[j], u)
  {
    assert TxOk(db, i) && RowOk(db, u);
  }

  /** From a transaction that waits for its second lock, the chain of waits climbs strictly in
      row id, so it ends in one that can step. */
  lemma {:induction false} LockChainEnds(db: Db, i: TxId) returns (k: TxId)
    requires Locks(db) && Live(db, i) && (db.txs[i].phase.LockSecond? || db.txs[i].phase.Write?)
    ensures CanStep(db, k)
    decreases Bound(db.txs) - Second(db.txs[i])
  {
    k := i;
    if Blocked(db, i) {
      HolderIsLocking(db, i, Second(db.txs[i]));
      var j := db.owner[Second(db.txs[i])];
      assert TxOk(db, i) && TxOk(db, j);
      BoundIsUpper(db.txs, j);
      if db.txs[j].phase.Write? {
        k := j;
      } else {
        k := LockChainEnds(db, j);
      }
    }
  }

  lemma LockingChainEnds(db: Db, i: TxId) returns (k: TxId)
    requires Locks(db) && Live(db, i) && Locking(db.txs[i])
    ensures CanStep(db, k)
  {
    k := i;
    if Blocked(db, i) {
      var u := Wanted(db.txs[i]).value;
      HolderIsLocking(db, i, u);
      k := LockChainEnds(db, db.owner[u]);
    }
  }

  /** A chain of waits for uncommitted inserts climbs too, or reaches a locking transaction. */
  lemma {:induction false} InsertChainEnds(db: Db, i: TxId) returns (k: TxId)
    requires Locks(db) && Live(db, i) && db.txs[i].phase.InsertSecond?
    ensures CanStep(db, k)
    decreases Bound(db.txs) - Second(db.txs[i])
  {
    k := i;
    if Blocked(db, i) {
      var u := Second(db.txs[i]);
      var j := db.owner[u];
      assert RowOk(db, u) && TxOk(db, i) && TxOk(db, j);
      BoundIsUpper(db.txs, j);
      if Locking(db.txs[j]) {
        k := LockingChainEnds(db, j);
      } else {
        k := InsertChainEnds(db, j);
      }
    }
  }

  lemma SomeoneCanStep(db: Db, i: TxId) returns (k: TxId)
    requires Locks(db) && Live(db, i)
    ensures CanStep(db, k)
  {
    if Locking(db.txs[i]) {
      k := LockingChainEnds(db, i);
    } else if db.txs[i].phase.InsertSecond? {
      k := InsertChainEnds(db, i);
    } else if Blocked(db, i) {
      var j := db.owner[First(db.txs[i])];
      assert RowOk(db, First(db.txs[i]));
      if Locking(db.txs[j]) {
        k := LockingChainEnds(db, j);
      } else {
        k := InsertChainEnds(db, j);
      }
    } else {
      k := i;
    }
  }

  /** However many matches run at once and however their steps interleave, while one of them is
      unfinished some unfinished one can take its next step. */
  lemma {:induction false} NoDeadlock(es: seq<Event>, i: TxId)
    requires i < |Run(es).txs| && Run(es).txs[i].phase != Finished
    ensures var db := Run(es);
            exists k ::
              && 0 <= k < |db.txs| && db.txs[k].phase != Finished && |Step(db, Advance(k, 0.5)).txs| == |db.txs|
              && Step(db, Advance(k, 0.5)).txs[k].phase != db.txs[k].phase
  {
    RunKeepsLocks(es);
    var k := SomeoneCanStep(Run(es), i);
    StepsAreProgress(Run(es), k, 0.5);
  }

  /** A step of an unblocked transaction moves it on, so five steps finish it. */
  function StepsLeft(t: Tx): nat {
    match t.phase
    case InsertFirst => 5
    case InsertSecond => 4
    case LockFirst => 3
    case LockSecond => 2
    case Write => 1
    case Finished => 0
  }

  lemma StepsAreProgress(db: Db, i: TxId, expectedWin: real)
    requires CanStep(db, i) && 0.0 < expectedWin < 1.0
    ensures var db' := Step(db, Advance(i, expectedWin));
            && |db'.txs| == |db.txs| && StepsLeft(db'.txs[i]) == StepsLeft(db.txs[i]) - 1
            && db'.txs[i].phase == (match db.txs[i].phase
                                    case InsertFirst => InsertSecond
                                    case InsertSecond => LockFirst
                                    case LockFirst => LockSecond
                                    case LockSecond => Write
                                    case _ => Finished)
            && (forall k :: 0 <= k < |db.txs| && k != i ==> db'.txs[k] == db.txs[k])
  {
  }
}
