/** One user's cached balance under interleaved writers and readers. */
module BalanceCache {
  import opened Options

  // A reader that misses the cache reads the database and stores what it read in a later step, so a
  // value can be stored after it went out of date.

  /** Five minutes, in milliseconds. */
  const CACHE_TTL := 300000

  /** A committed balance and when it was committed. */
  datatype Commit = Commit(value: int, at: int)

  /** A cached value, the commit it was read from, and when and by which steps of the run it was
      read from the database and stored. */
  datatype Cached = Cached(value: int, commit: nat, readAt: int, readStep: nat, setAt: int, setStep: nat)

  /** A value handed to a caller of GetBalance. */
  datatype Returned =
    | FromCache(value: int, readAt: int, setAt: int, at: int)
    | FromDatabase(value: int, readAt: int, at: int)

  /** A reader between its database read and its return. */
  datatype Reader = Reader(value: int, commit: nat, readAt: int, readStep: nat)

  /** `steps` counts the events so far. */
  datatype State = State(now: int, steps: nat, commits: seq<Commit>, cache: Option<Cached>, readers: seq<Reader>, returned: seq<Returned>)

  /** `Invalidate` is a writer's delete; one that fails simply does not occur. */
  datatype Event =
    | Tick(ms: nat)
    | Write(value: int)
    | Invalidate
    | HitCache
    | ReadDatabase
    | StoreAndReturn(which: nat)
    | ReturnOnly(which: nat)

  function Start(now: int, value: int): State {
    State(now, 0, [Commit(value, now)], None, [], [])
  }

  predicate Visible(s: State) {
    s.cache.Some? && s.now < s.cache.value.setAt + CACHE_TTL
  }

  function Current(s: State): int
    requires s.commits != []
  {
    s.commits[|s.commits| - 1].value
  }

  function DropReader(s: State, which: nat): seq<Reader>
    requires which < |s.readers|
  {
    s.readers[..which] + s.readers[which + 1..]
  }

  function Effect(s: State, e: Event): State {
    match e
    case Tick(ms) => s.(now := s.now + ms)
    case Write(value) => s.(commits := s.commits + [Commit(value, s.now)])
    case Invalidate => s.(cache := None)
    case HitCache =>
      if !Visible(s) then s
      else s.(returned := s.returned + [FromCache(s.cache.value.value, s.cache.value.readAt, s.cache.value.setAt, s.now)])
    case ReadDatabase =>
      if s.commits == [] then s else s.(readers := s.readers + [Reader(Current(s), |s.commits| - 1, s.now, s.steps)])
    case StoreAndReturn(which) =>
      if which >= |s.readers| then s
      else
        var r := s.readers[which];
        s.(cache := Some(Cached(r.value, r.commit, r.readAt, r.readStep, s.now, s.steps)), readers := DropReader(s, which),
           returned := s.returned + [FromDatabase(r.value, r.readAt, s.now)])
    case ReturnOnly(which) =>
      if which >= |s.readers| then s
      else
        var r := s.readers[which];
        s.(readers := DropReader(s, which), returned := s.returned + [FromDatabase(r.value, r.readAt, s.now)])
  }

  function Step(s: State, e: Event): State {
    Effect(s, e).(steps := s.steps + 1)
  }

  function Run(s: State, es: seq<Event>): State {
    if es == [] then s else Step(Run(s, es[..|es| - 1]), es[|es| - 1])
  }

  /** What a hit, a read of the database and a store do: a value stored less than five minutes ago is
      returned, the last committed balance is read, and what a reader read is cached and returned. */
  lemma ReadingEffect(s: State, which: nat)
    ensures var s' := Step(s, HitCache);
            if s.cache.Some? && s.now < s.cache.value.setAt + 300000
            then s' == s.(steps := s.steps + 1, returned := s'.returned) && |s'.returned| == |s.returned| + 1
                 && s'.returned[..|s.returned|] == s.returned && s'.returned[|s.returned|].value == s.cache.value.value
                 && s'.returned[|s.returned|].at == s.now
            else s' == s.(steps := s.steps + 1)
    ensures s.commits != [] ==>
              var s', n := Step(s, ReadDatabase), |s.commits| - 1;
              s' == s.(steps := s.steps + 1, readers := s.readers + [Reader(s.commits[n].value, n, s.now, s.steps)])
    ensures which < |s.readers| ==>
              var s', r := Step(s, StoreAndReturn(which)), s.readers[which];
              && s'.cache == Some(Cached(r.value, r.commit, r.readAt, r.readStep, s.now, s.steps))
              && s'.readers == s.readers[..which] + s.readers[which + 1..] && s'.commits == s.commits && s'.now == s.now
              && s'.returned == s.returned + [FromDatabase(r.value, r.readAt, s.now)]
    ensures which < |s.readers| ==>
              var s', r := Step(s, ReturnOnly(which)), s.readers[which];
              && s'.cache == s.cache && s'.readers == s.readers[..which] + s.readers[which + 1..] && s'.commits == s.commits
              && s'.returned == s.returned + [FromDatabase(r.value, r.readAt, s.now)]
  {
  }

  /** A commit is appended with its time, a delete empties the cache, and neither does more. */
  lemma WritingEffect(s: State, value: int, ms: nat)
    ensures Step(s, Write(value)) == s.(steps := s.steps + 1, commits := s.commits + [Commit(value, s.now)])
    ensures Step(s, Invalidate) == s.(steps := s.steps + 1, cache := None)
    ensures Step(s, Tick(ms)) == s.(steps := s.steps + 1, now := s.now + ms)
  {
  }

  /** A run takes every event, one after the other. */
  lemma RunTakesEachEvent(s: State, es: seq<Event>, e: Event)
    ensures Run(s, []) == s && Run(s, es + [e]) == Step(Run(s, es), e)
  {
    assert (es + [e])[..|es|] == es;
  }

  // ---- Bounded staleness ----------------------------------------------------------------

  /** `value` was the committed balance at `time`: committed by then, and not yet replaced. */
  predicate CommittedAt(commits: seq<Commit>, k: int, value: int, time: int) {
    && 0 <= k < |commits| && commits[k].value == value && commits[k].at <= time
    && (k + 1 < |commits| ==> time <= commits[k + 1].at)
  }

  ghost predicate WasCommitted(commits: seq<Commit>, value: int, time: int) {
    exists k :: CommittedAt(commits, k, value, time)
  }

  ghost predicate ReturnOk(s: State, r: Returned) {
    && WasCommitted(s.commits, r.value, r.readAt) && r.readAt <= r.at
    && (r.FromCache? ==> r.readAt <= r.setAt <= r.at < r.setAt + CACHE_TTL)
  }

  ghost predicate Inv(s: State) {
    && s.commits != [] && s.commits[|s.commits| - 1].at <= s.now
    && (s.cache.Some? ==> WasCommitted(s.commits, s.cache.value.value, s.cache.value.readAt)
                          && s.cache.value.readAt <= s.cache.value.setAt <= s.now)
    && (forall r :: r in s.readers ==> WasCommitted(s.commits, r.value, r.readAt) && r.readAt <= s.now)
    && (forall r :: r in s.returned ==> ReturnOk(s, r) && r.at <= s.now)
  }

  lemma StillCommitted(commits: seq<Commit>, next: Commit, value: int, time: int)
    requires WasCommitted(commits, value, time) && time <= next.at
    ensures WasCommitted(commits + [next], value, time)
  {
    var k :| CommittedAt(commits, k, value, time);
    assert CommittedAt(commits + [next], k, value, time);
  }

  lemma WriteKeepsInv(s: State, value: int)
    requires Inv(s)
    ensures Inv(Step(s, Write(value)))
  {
    var s' := Step(s, Write(value));
    forall v, t | WasCommitted(s.commits, v, t) && t <= s.now ensures WasCommitted(s'.commits, v, t) {
      StillCommitted(s.commits, Commit(value, s.now), v, t);
    }
    forall r | r in s'.returned ensures ReturnOk(s', r) {
      assert ReturnOk(s, r);
    }
  }

  lemma StepKeepsInv(s: State, e: Event)
    requires Inv(s)
    ensures Inv(Step(s, e))
  {
    match e
    case Write(value) => WriteKeepsInv(s, value);
    case ReadDatabase =>
      assert CommittedAt(s.commits, |s.commits| - 1, Current(s), s.now);
    case StoreAndReturn(which) =>
      assert which < |s.readers| ==> s.readers[which] in s.readers;
    case ReturnOnly(which) =>
      assert which < |s.readers| ==> s.readers[which] in s.readers;
    case _ =>
  }

  lemma {:induction false} RunKeepsInv(s: State, es: seq<Event>)
    requires Inv(s)
    ensures Inv(Run(s, es))
  {
    if es != [] {
      RunKeepsInv(s, es[..|es| - 1]);
      StepKeepsInv(Run(s, es[..|es| - 1]), es[|es| - 1]);
    }
  }

  /** Every balance ever returned was the committed balance at the moment its reader read it,
      and a cached one is returned less than the TTL plus that reader's read-to-set gap later. */
  lemma {:induction false} BalancesAreBoundedlyStale(now: int, value: int, es: seq<Event>, r: Returned)
    requires r in Run(Start(now, value), es).returned
    ensures var commits := Run(Start(now, value), es).commits;
            exists k ::
              && 0 <= k < |commits| && commits[k].value == r.value && commits[k].at <= r.readAt
              && forall j :: 0 <= j < |commits| && j == k + 1 ==> r.readAt <= commits[j].at
    ensures r.readAt <= r.at
    ensures r.FromCache? ==> r.at - r.readAt < 300000 + (r.setAt - r.readAt)
  {
    assert CommittedAt([Commit(value, now)], 0, value, now);
    RunKeepsInv(Start(now, value), es);
    var commits := Run(Start(now, value), es).commits;
    assert ReturnOk(Run(Start(now, value), es), r);
    var k :| CommittedAt(commits, k, r.value, r.readAt);
    assert commits[k].value == r.value;
  }

  // ---- One operation at a time ----------------------------------------------------------

  /** Whole operations of the services: a credit or purchase, a balance read, and time passing;
      the calls on the cache may fail. */
  datatype Operation =
    | Wait(ms: nat)
    | Credit(value: int, deleteWorks: bool)
    | GetBalance(cacheWorks: bool, storeWorks: bool)

  function EventsOf(s: State, op: Operation): seq<Event> {
    match op
    case Wait(ms) => [Tick(ms)]
    case Credit(value, deleteWorks) => if deleteWorks then [Write(value), Invalidate] else [Write(value)]
    case GetBalance(cacheWorks, storeWorks) =>
      if cacheWorks && Visible(s) then [HitCache]
      else [ReadDatabase, if storeWorks then StoreAndReturn(|s.readers|) else ReturnOnly(|s.readers|)]
  }

  function Operate(s: State, ops: seq<Operation>): State {
    if ops == [] then s
    else var before := Operate(s, ops[..|ops| - 1]); Run(before, EventsOf(before, ops[|ops| - 1]))
  }

  predicate Coherent(s: State) {
    && s.commits != [] && s.readers == []
    && (s.cache.Some? ==> s.cache.value.value == Current(s))
  }

  lemma RunTwo(s: State, a: Event, b: Event)
    ensures Run(s, [a, b]) == Step(Step(s, a), b)
  {
    assert [a, b][..1] == [a] && [a][..0] == [];
    assert Run(s, [a]) == Step(Run(s, []), a);
  }

  lemma RunOne(s: State, a: Event)
    ensures Run(s, [a]) == Step(s, a)
  {
    assert [a][..0] == [];
    assert Run(s, []) == s;
  }

  /** What whole operations do to the current balance, the cache and the caller. */
  lemma CreditEffect(s: State, value: int, deleteWorks: bool)
    ensures var s' := Run(s, EventsOf(s, Credit(value, deleteWorks)));
            && s'.commits == s.commits + [Commit(value, s.now)] && s'.readers == s.readers && s'.returned == s.returned
            && s'.cache == if deleteWorks then None else s.cache
  {
    RunTwo(s, Write(value), Invalidate);
    RunOne(s, Write(value));
  }

  /** What a read that misses or finds the cache failing leaves: it returns the last commit. */
  predicate Missed(s: State, s': State, storeWorks: bool) {
    && s.commits != [] && s'.commits == s.commits
    && (if storeWorks
        then s'.cache.Some? && s'.cache.value.value == s.commits[|s.commits| - 1].value && s'.cache.value.readAt == s'.cache.value.setAt == s.now
        else s'.cache == s.cache)
    && |s'.returned| == |s.returned| + 1 && s'.returned[|s.returned|].value == s.commits[|s.commits| - 1].value
  }

  lemma MissEffect(s: State, storeWorks: bool)
    requires s.commits != []
    ensures var n := |s.readers|; Missed(s, Run(s, [ReadDatabase, if storeWorks then StoreAndReturn(n) else ReturnOnly(n)]), storeWorks)
  {
    var n := |s.readers|;
    RunTwo(s, ReadDatabase, if storeWorks then StoreAndReturn(n) else ReturnOnly(n));
    ReadingEffect(s, n);
    ReadingEffect(Step(s, ReadDatabase), n);
  }

  /** A balance read: a value cached less than five minutes ago, else the last commit, which is
      then cached. */
  lemma ReadEffect(s: State, cacheWorks: bool, storeWorks: bool)
    requires s.commits != []
    ensures var s' := Run(s, EventsOf(s, GetBalance(cacheWorks, storeWorks)));
            if cacheWorks && s.cache.Some? && s.now < s.cache.value.setAt + 300000
            then s'.commits == s.commits && s'.cache == s.cache && |s'.returned| == |s.returned| + 1
                 && s'.returned[|s.returned|].value == s.cache.value.value
            else Missed(s, s', storeWorks)
  {
    if cacheWorks && Visible(s) {
      RunOne(s, HitCache);
    } else {
      MissEffect(s, storeWorks);
    }
  }

  lemma CreditKeepsCoherence(s: State, value: int)
    requires Coherent(s)
    ensures Coherent(Run(s, [Write(value), Invalidate]))
  {
    RunTwo(s, Write(value), Invalidate);
  }

  /** What a balance read returns last, and what it leaves. */
  predicate ReadWell(s: State, s': State) {
    Coherent(s) && Coherent(s') && |s'.returned| == |s.returned| + 1 && s'.returned[|s.returned|].value == s.commits[|s.commits| - 1].value
  }

  lemma MissKeepsCoherence(s: State, last: Event)
    requires Coherent(s) && (last == StoreAndReturn(|s.readers|) || last == ReturnOnly(|s.readers|))
    ensures ReadWell(s, Run(s, [ReadDatabase, last]))
  {
    RunTwo(s, ReadDatabase, last);
    assert DropReader(Step(s, ReadDatabase), |s.readers|) == s.readers;
  }

  lemma HitKeepsCoherence(s: State)
    requires Coherent(s) && Visible(s)
    ensures ReadWell(s, Run(s, [HitCache]))
  {
    RunOne(s, HitCache);
  }

  lemma ReadKeepsCoherence(s: State, cacheWorks: bool, storeWorks: bool)
    requires Coherent(s)
    ensures ReadWell(s, Run(s, EventsOf(s, GetBalance(cacheWorks, storeWorks))))
  {
    if cacheWorks && Visible(s) {
      HitKeepsCoherence(s);
    } else {
      MissKeepsCoherence(s, if storeWorks then StoreAndReturn(|s.readers|) else ReturnOnly(|s.readers|));
    }
  }

  /** Run one at a time, operations whose delete works keep the cache equal to the database, and
      GetBalance returns the committed balance. */
  lemma OperationKeepsCoherence(s: State, op: Operation)
    requires Coherent(s) && (op.Credit? ==> op.deleteWorks)
    ensures var s' := Run(s, EventsOf(s, op));
            && Coherent(s')
            && (op.GetBalance? ==> |s'.returned| == |s.returned| + 1 && s'.returned[|s.returned|].value == s.commits[|s.commits| - 1].value)
  {
    match op
    case Wait(ms) => RunOne(s, Tick(ms));
    case Credit(value, _) => CreditKeepsCoherence(s, value);
    case GetBalance(cacheWorks, storeWorks) => ReadKeepsCoherence(s, cacheWorks, storeWorks);
  }

  lemma {:induction false} SequentialCacheIsCoherent(now: int, value: int, ops: seq<Operation>)
    requires forall k :: 0 <= k < |ops| && ops[k].Credit? ==> ops[k].deleteWorks
    ensures var s := Operate(Start(now, value), ops);
            s.commits != [] && (s.cache.Some? ==> s.cache.value.value == s.commits[|s.commits| - 1].value) && s.readers == []
  {
    if ops != [] {
      SequentialCacheIsCoherent(now, value, ops[..|ops| - 1]);
      OperationKeepsCoherence(Operate(Start(now, value), ops[..|ops| - 1]), ops[|ops| - 1]);
    }
  }

  // ---- When an interleaved cache is current ---------------------------------------------

  function Writes(es: seq<Event>): nat {
    if es == [] then 0 else Writes(es[..|es| - 1]) + if es[|es| - 1].Write? then 1 else 0
  }

  /** No write among the events from `from` on. */
  predicate NoWriteFrom(es: seq<Event>, from: nat) {
    forall k :: from <= k < |es| ==> !es[k].Write?
  }

  lemma {:induction false} SameWritesIff(es: seq<Event>, from: nat)
    requires from <= |es|
    ensures Writes(es[..from]) <= Writes(es)
    ensures Writes(es[..from]) == Writes(es) <==> NoWriteFrom(es, from)
    decreases |es| - from
  {
    if from == |es| {
      assert es[..from] == es;
    } else {
      assert es[..from + 1][..from] == es[..from];
      SameWritesIff(es, from + 1);
    }
  }

  /** A reader's value is that of the last commit before its read. */
  predicate ReaderOk(commits: seq<Commit>, es: seq<Event>, value: int, commit: nat, readStep: nat) {
    && readStep < |es| && es[readStep].ReadDatabase?
    && commit == Writes(es[..readStep]) && commit < |commits| && commits[commit].value == value
  }

  /** Event `k` stores something. */
  predicate StoresAt(start: State, es: seq<Event>, k: nat)
    requires k < |es|
  {
    es[k].StoreAndReturn? && es[k].which < |Run(start, es[..k]).readers|
  }

  /** Nothing was deleted or stored after event `setStep`. */
  predicate UndisturbedSince(start: State, es: seq<Event>, setStep: nat) {
    forall k :: setStep < k < |es| ==> !es[k].Invalidate? && !StoresAt(start, es, k)
  }

  /** The entry was stored by the reader that read it, and nothing touched it since. */
  predicate EntryOk(start: State, es: seq<Event>, c: Cached) {
    && c.readStep < c.setStep < |es| && StoresAt(start, es, c.setStep)
    && Run(start, es[..c.setStep]).readers[es[c.setStep].which].readStep == c.readStep
    && UndisturbedSince(start, es, c.setStep)
  }

  ghost predicate Traced(start: State, es: seq<Event>) {
    var s := Run(start, es);
    && s.steps == |es| && |s.commits| == 1 + Writes(es)
    && (forall r :: r in s.readers ==> ReaderOk(s.commits, es, r.value, r.commit, r.readStep))
    && (s.cache.Some? ==>
          && ReaderOk(s.commits, es, s.cache.value.value, s.cache.value.commit, s.cache.value.readStep)
          && EntryOk(start, es, s.cache.value))
  }

  lemma ReaderStaysOk(before: seq<Commit>, commits: seq<Commit>, es: seq<Event>, n: nat, value: int, commit: nat, readStep: nat)
    requires n <= |es| && ReaderOk(before, es[..n], value, commit, readStep) && before <= commits
    ensures ReaderOk(commits, es, value, commit, readStep)
  {
    assert es[..n][..readStep] == es[..readStep];
  }

  lemma EntryStaysOk(start: State, es: seq<Event>, c: Cached)
    requires es != [] && EntryOk(start, es[..|es| - 1], c)
    requires !es[|es| - 1].Invalidate? && !StoresAt(start, es, |es| - 1)
    ensures EntryOk(start, es, c)
  {
    var n := |es| - 1;
    assert es[..n][..c.setStep] == es[..c.setStep];
    forall k | c.setStep < k < |es| ensures !es[k].Invalidate? && !StoresAt(start, es, k) {
      if k < n {
        assert es[..n][..k] == es[..k];
        assert !StoresAt(start, es[..n], k) && !es[..n][k].Invalidate?;
      }
    }
  }

  lemma {:induction false} RunIsTraced(now: int, value: int, es: seq<Event>)
    ensures Traced(Start(now, value), es)
  {
    if es != [] {
      var n := |es| - 1;
      var start := Start(now, value);
      RunIsTraced(now, value, es[..n]);
      var s, s' := Run(start, es[..n]), Run(start, es);
      assert s.commits <= s'.commits;
      forall r | r in s.readers ensures ReaderOk(s'.commits, es, r.value, r.commit, r.readStep) {
        ReaderStaysOk(s.commits, s'.commits, es, n, r.value, r.commit, r.readStep);
      }
      ReadersAreTraced(s, es, n);
      if s'.cache.Some? {
        if StoresAt(start, es, n) {
          assert s.readers[es[n].which] in s.readers;
        } else {
          ReaderStaysOk(s.commits, s'.commits, es, n, s.cache.value.value, s.cache.value.commit, s.cache.value.readStep);
          EntryStaysOk(start, es, s.cache.value);
        }
      }
    }
  }

  lemma ReadersAreTraced(s: State, es: seq<Event>, n: nat)
    requires n < |es| && s.steps == n && |s.commits| == 1 + Writes(es[..n])
    requires forall r :: r in s.readers ==> ReaderOk(Step(s, es[n]).commits, es, r.value, r.commit, r.readStep)
    ensures forall r :: r in Step(s, es[n]).readers ==> ReaderOk(Step(s, es[n]).commits, es, r.value, r.commit, r.readStep)
  {
  }

  /** In every run: a cached value comes from the last commit if and only if nothing was written
      after the read of the reader that stored it; that reader stored it later, and nothing was
      deleted or stored since. */
  lemma {:induction false} CachedIsCurrentIff(now: int, value: int, es: seq<Event>)
    requires Run(Start(now, value), es).cache.Some?
    ensures var s := Run(Start(now, value), es);
            var c := s.cache.value;
            && c.readStep < c.setStep < |es| && es[c.readStep].ReadDatabase? && es[c.setStep].StoreAndReturn?
            && es[c.setStep].which < |Run(Start(now, value), es[..c.setStep]).readers|
            && Run(Start(now, value), es[..c.setStep]).readers[es[c.setStep].which].readStep == c.readStep
            && (forall k :: c.setStep < k < |es| ==>
                  !es[k].Invalidate? && !(es[k].StoreAndReturn? && es[k].which < |Run(Start(now, value), es[..k]).readers|))
            && (c.commit == |s.commits| - 1 <==> forall k :: c.readStep <= k < |es| ==> !es[k].Write?)
            && (c.commit == |s.commits| - 1 ==> s.commits != [] && c.value == s.commits[|s.commits| - 1].value)
  {
    RunIsTraced(now, value, es);
    forall k: nat | k < |es| ensures StoresAt(Start(now, value), es, k) <==>
                                     es[k].StoreAndReturn? && es[k].which < |Run(Start(now, value), es[..k]).readers|
    {
    }
    SameWritesIff(es, Run(Start(now, value), es).cache.value.readStep);
  }

  lemma {:induction false} LastWrite(es: seq<Event>, from: nat) returns (w: nat)
    requires !NoWriteFrom(es, from)
    ensures from <= w < |es| && es[w].Write? && NoWriteFrom(es, w + 1)
    decreases |es| - from
  {
    w := from;
    if !NoWriteFrom(es, from + 1) {
      w := LastWrite(es, from + 1);
    }
  }

  /** With no delete failed or outstanding, a cached value is out of date exactly when the interval
      from its read to its store straddles the last write and its delete. */
  lemma {:induction false} StaleIffStraddles(now: int, value: int, es: seq<Event>)
    requires forall w :: 0 <= w < |es| && es[w].Write? ==> exists d :: w < d < |es| && es[d].Invalidate?
    requires Run(Start(now, value), es).cache.Some?
    ensures var s := Run(Start(now, value), es);
            s.cache.value.commit != |s.commits| - 1 <==>
              exists w, d ::
                && s.cache.value.readStep < w < d < s.cache.value.setStep && d < |es| && es[w].Write? && es[d].Invalidate?
                && forall k :: w < k < |es| ==> !es[k].Write?
  {
    var s := Run(Start(now, value), es);
    var c := s.cache.value;
    CachedIsCurrentIff(now, value, es);
    if !NoWriteFrom(es, c.readStep) {
      var w := LastWrite(es, c.readStep);
      var d :| w < d < |es| && es[d].Invalidate?;
      assert c.readStep < w < d < c.setStep && NoWriteFrom(es, w + 1);
    }
  }

  /** So a run in which no read-to-store interval straddles a write and a delete after it keeps the
      cache equal to the database whenever no delete is outstanding. */
  lemma {:induction false} CoherentWithoutStraddling(now: int, value: int, es: seq<Event>)
    requires forall w :: 0 <= w < |es| && es[w].Write? ==> exists d :: w < d < |es| && es[d].Invalidate?
    requires Run(Start(now, value), es).cache.Some?
    requires var c := Run(Start(now, value), es).cache.value;
             forall w, d :: c.readStep < w < d < c.setStep < |es| && es[w].Write? ==> !es[d].Invalidate?
    ensures var s := Run(Start(now, value), es);
            s.commits != [] && s.cache.value.value == s.commits[|s.commits| - 1].value
  {
    CachedIsCurrentIff(now, value, es);
    StaleIffStraddles(now, value, es);
  }

  /** Interleaved, the cache can go stale even when no delete fails: a reader that read before a
      write stores after the writer's delete. */
  lemma StaleAfterRace(value: int, other: int)
    requires value != other
    ensures var s := Run(Start(0, value), [ReadDatabase, Write(other), Invalidate, StoreAndReturn(0)]);
            && s.cache.Some? && s.now < s.cache.value.setAt + 300000
            && s.commits != [] && s.cache.value.value != s.commits[|s.commits| - 1].value
  {
    var s0 := Start(0, value);
    var all := [ReadDatabase, Write(other), Invalidate, StoreAndReturn(0)];
    assert all[..3][..2] == [ReadDatabase, Write(other)];
    RunTwo(s0, ReadDatabase, Write(other));
    assert Run(s0, all[..3]) == Step(Run(s0, all[..3][..2]), Invalidate);
  }
}
