/** The crown of a hill. */
module KothHill {
  import opened Options

  // Challenges, the period reset, and the final-placement credit.  Each transaction runs under the
  // hill's advisory lock and is one step; the reset reads the clock in an earlier step of its own.

  type User = int
  type ReignId = nat

  datatype HillType = Daily | Monthly

  datatype ClipId = ClipId(text: string)

  /** `over` remembers which reign a challenge took the crown from. */
  datatype Reign = Reign(hill: HillType, user: User, clip: ClipId, blinkTsMs: int, startedAt: int, endedAt: Option<int>, over: Option<ReignId>)

  /** A reset that has computed its period start and not yet closed anything. */
  datatype Reset = Reset(hill: HillType, period: int)

  /** The final-placement credit, keyed by hill and period; `reign` is the reign it rewards. */
  datatype FinalCredit = FinalCredit(hill: HillType, period: int, user: User, reign: ReignId)

  datatype State = State(now: int, reigns: seq<Reign>, resets: seq<Reset>, credits: seq<FinalCredit>)

  /** `period` in ReadPeriod is the start of the period the clock is in, so never in the future. */
  datatype Event =
    | Tick(ms: nat)
    | Seed(hill: HillType, user: User, clip: ClipId, blinkTsMs: int)
    | Challenge(hill: HillType, user: User, survivedMs: int, clip: ClipId)
    | ReadPeriod(hill: HillType, period: int)
    | CloseStale(which: nat)

  function Start(now: int): State {
    State(now, [], [], [])
  }

  // ---- Statements -----------------------------------------------------------------------

  predicate IsOpen(r: Reign, hill: HillType) {
    r.hill == hill && r.endedAt.None?
  }

  /** The current king: the reign of the hill that has not ended. */
  function KingFrom(reigns: seq<Reign>, hill: HillType, from: nat): Option<ReignId>
    decreases |reigns| - from
  {
    if from >= |reigns| then None
    else if IsOpen(reigns[from], hill) then Some(from)
    else KingFrom(reigns, hill, from + 1)
  }

  function King(reigns: seq<Reign>, hill: HillType): Option<ReignId> {
    KingFrom(reigns, hill, 0)
  }

  function Closed(reigns: seq<Reign>, k: ReignId, now: int): seq<Reign>
    requires k < |reigns|
  {
    reigns[k := reigns[k].(endedAt := Some(now))]
  }

  lemma {:induction false} KingIsOpen(reigns: seq<Reign>, hill: HillType, from: nat)
    ensures KingFrom(reigns, hill, from).Some? ==>
              from <= KingFrom(reigns, hill, from).value < |reigns| && IsOpen(reigns[KingFrom(reigns, hill, from).value], hill)
    ensures KingFrom(reigns, hill, from).None? ==> forall k :: from <= k < |reigns| ==> !IsOpen(reigns[k], hill)
    decreases |reigns| - from
  {
    if from < |reigns| && !IsOpen(reigns[from], hill) {
      KingIsOpen(reigns, hill, from + 1);
    }
  }

  /** A challenger who survived at least as long as the king takes the crown. */
  function ChallengeTx(reigns: seq<Reign>, hill: HillType, user: User, survivedMs: int, clip: ClipId, now: int): seq<Reign> {
    var king := King(reigns, hill);
    if king.None? || king.value >= |reigns| || survivedMs < reigns[king.value].blinkTsMs then reigns
    else Closed(reigns, king.value, now) + [Reign(hill, user, clip, survivedMs, now, None, king)]
  }

  /** The reign a reset for `period` would close. */
  function StaleKing(reigns: seq<Reign>, hill: HillType, period: int): Option<ReignId> {
    var king := King(reigns, hill);
    if king.Some? && king.value < |reigns| && reigns[king.value].startedAt < period then king else None
  }

  // ---- Steps ----------------------------------------------------------------------------

  function SeedStep(s: State, hill: HillType, user: User, clip: ClipId, blinkTsMs: int): State {
    if King(s.reigns, hill).Some? then s
    else s.(reigns := s.reigns + [Reign(hill, user, clip, blinkTsMs, s.now, None, None)])
  }

  /** Close, then credit the outgoing king. */
  function CloseStep(s: State, which: nat): State {
    if which >= |s.resets| then s
    else
      var r := s.resets[which];
      var rest := s.resets[..which] + s.resets[which + 1..];
      var k := StaleKing(s.reigns, r.hill, r.period);
      if k.None? || k.value >= |s.reigns| then s.(resets := rest)
      else State(s.now, Closed(s.reigns, k.value, s.now), rest,
                 s.credits + [FinalCredit(r.hill, r.period, s.reigns[k.value].user, k.value)])
  }

  function Step(s: State, e: Event): State {
    match e
    case Tick(ms) => s.(now := s.now + ms)
    case Seed(hill, user, clip, blinkTsMs) => SeedStep(s, hill, user, clip, blinkTsMs)
    case Challenge(hill, user, survivedMs, clip) => s.(reigns := ChallengeTx(s.reigns, hill, user, survivedMs, clip, s.now))
    case ReadPeriod(hill, period) => if period <= s.now then s.(resets := s.resets + [Reset(hill, period)]) else s
    case CloseStale(which) => CloseStep(s, which)
  }

  function Run(s: State, es: seq<Event>): State {
    if es == [] then s else Step(Run(s, es[..|es| - 1]), es[|es| - 1])
  }

  // ---- The invariant --------------------------------------------------------------------

  predicate OneOpen(reigns: seq<Reign>) {
    forall i, j :: 0 <= i < j < |reigns| && reigns[i].endedAt.None? && reigns[j].endedAt.None? ==> reigns[i].hill != reigns[j].hill
  }

  /** A crown taken by challenge follows an ended reign of the same hill that was no longer. */
  predicate ReignOk(reigns: seq<Reign>, now: int, j: int)
    requires 0 <= j < |reigns|
  {
    && reigns[j].startedAt <= now
    && (reigns[j].endedAt.Some? ==> reigns[j].startedAt <= reigns[j].endedAt.value <= now)
    && (reigns[j].over.Some? ==>
          && reigns[j].over.value < j
          && reigns[reigns[j].over.value].hill == reigns[j].hill
          && reigns[reigns[j].over.value].endedAt == Some(reigns[j].startedAt)
          && reigns[reigns[j].over.value].blinkTsMs <= reigns[j].blinkTsMs)
  }

  /** A credit's period is over for its hill: the reign it rewards has ended, and whoever is king
      now started in the period or later. */
  predicate CreditOk(s: State, c: FinalCredit) {
    && c.period <= s.now
    && c.reign < |s.reigns| && s.reigns[c.reign].endedAt.Some? && s.reigns[c.reign].user == c.user
    && (forall k :: 0 <= k < |s.reigns| && IsOpen(s.reigns[k], c.hill) ==> s.reigns[k].startedAt >= c.period)
  }

  predicate CreditsOk(s: State) {
    && (forall c :: c in s.credits ==> CreditOk(s, c))
    && (forall i, j :: 0 <= i < j < |s.credits| ==>
          && (s.credits[i].hill != s.credits[j].hill || s.credits[i].period != s.credits[j].period)
          && s.credits[i].reign != s.credits[j].reign)
  }

  predicate Inv(s: State) {
    && OneOpen(s.reigns)
    && (forall j :: 0 <= j < |s.reigns| ==> ReignOk(s.reigns, s.now, j))
    && CreditsOk(s)
    && (forall r :: r in s.resets ==> r.period <= s.now)
  }

  // ---- Preservation ---------------------------------------------------------------------

  /** Opening a reign on a hill without a king, now. */
  lemma OpenKeepsInv(s: State, s': State, r: Reign)
    requires Inv(s) && King(s.reigns, r.hill).None?
    requires r.startedAt == s.now && r.endedAt.None?
    requires r.over.Some? ==>
               && r.over.value < |s.reigns|
               && s.reigns[r.over.value].hill == r.hill && s.reigns[r.over.value].endedAt == Some(s.now)
               && s.reigns[r.over.value].blinkTsMs <= r.blinkTsMs
    requires s' == s.(reigns := s.reigns + [r])
    ensures Inv(s')
  {
    KingIsOpen(s.reigns, r.hill, 0);
    forall j | 0 <= j < |s'.reigns| ensures ReignOk(s'.reigns, s'.now, j) {
      assert j < |s.reigns| ==> ReignOk(s.reigns, s.now, j);
    }
    forall c | c in s'.credits ensures CreditOk(s', c) {
      assert CreditOk(s, c);
    }
  }

  /** Ending the current reign of a hill, now. */
  lemma CloseKeepsInv(s: State, s': State, hill: HillType)
    requires Inv(s) && King(s.reigns, hill).Some?
    requires King(s.reigns, hill).value < |s.reigns|
    requires s' == s.(reigns := Closed(s.reigns, King(s.reigns, hill).value, s.now))
    ensures Inv(s') && King(s'.reigns, hill).None?
  {
    var k := King(s.reigns, hill).value;
    KingIsOpen(s.reigns, hill, 0);
    KingIsOpen(s'.reigns, hill, 0);
    assert ReignOk(s.reigns, s.now, k);
    forall j | 0 <= j < |s'.reigns| ensures ReignOk(s'.reigns, s'.now, j) {
      assert ReignOk(s.reigns, s.now, j);
    }
    forall c | c in s'.credits ensures CreditOk(s', c) {
      assert CreditOk(s, c);
    }
  }

  lemma ChallengeKeepsInv(s: State, hill: HillType, user: User, survivedMs: int, clip: ClipId)
    requires Inv(s)
    ensures Inv(Step(s, Challenge(hill, user, survivedMs, clip)))
  {
    var king := King(s.reigns, hill);
    KingIsOpen(s.reigns, hill, 0);
    if king.Some? && survivedMs >= s.reigns[king.value].blinkTsMs {
      var mid := s.(reigns := Closed(s.reigns, king.value, s.now));
      CloseKeepsInv(s, mid, hill);
      OpenKeepsInv(mid, Step(s, Challenge(hill, user, survivedMs, clip)), Reign(hill, user, clip, survivedMs, s.now, None, king));
    }
  }

  lemma ResetKeepsInv(s: State, which: nat)
    requires Inv(s)
    ensures Inv(CloseStep(s, which))
  {
    var s' := CloseStep(s, which);
    if which < |s.resets| {
      var r := s.resets[which];
      assert r in s.resets;
      var k := StaleKing(s.reigns, r.hill, r.period);
      KingIsOpen(s.reigns, r.hill, 0);
      if k.None? {
        forall c | c in s'.credits ensures CreditOk(s', c) {
          assert CreditOk(s, c);
        }
      } else {
        var mid := s.(reigns := Closed(s.reigns, k.value, s.now));
        CloseKeepsInv(s, mid, r.hill);
        KingIsOpen(mid.reigns, r.hill, 0);
        var c := FinalCredit(r.hill, r.period, s.reigns[k.value].user, k.value);
        forall d | d in s.credits ensures (d.hill != c.hill || d.period != c.period) && d.reign != c.reign {
          assert CreditOk(s, d);
        }
        forall d | d in s'.credits ensures CreditOk(s', d) {
          assert d == c || CreditOk(mid, d);
        }
      }
    }
  }

  lemma StepKeepsInv(s: State, e: Event)
    requires Inv(s)
    ensures Inv(Step(s, e))
  {
    match e
    case Tick(ms) =>
      var s' := Step(s, e);
      forall j | 0 <= j < |s'.reigns| ensures ReignOk(s'.reigns, s'.now, j) {
        assert ReignOk(s.reigns, s.now, j);
      }
      forall c | c in s'.credits ensures CreditOk(s', c) {
        assert CreditOk(s, c);
      }
    case Seed(hill, user, clip, blinkTsMs) =>
      if King(s.reigns, hill).None? {
        OpenKeepsInv(s, Step(s, e), Reign(hill, user, clip, blinkTsMs, s.now, None, None));
      }
    case Challenge(hill, user, survivedMs, clip) => ChallengeKeepsInv(s, hill, user, survivedMs, clip);
    case ReadPeriod(hill, period) =>
      forall c | c in s.credits ensures CreditOk(Step(s, e), c) {
        assert CreditOk(s, c);
      }
    case CloseStale(which) => ResetKeepsInv(s, which);
  }

  lemma {:induction false} RunKeepsInv(s: State, es: seq<Event>)
    requires Inv(s)
    ensures Inv(Run(s, es))
  {
    if es != [] {
      RunKeepsInv(s, es[..|es| - 1]);
      StepKeepsInv(Run(s, es[..|es| - 1]), es[|es| - 1]);
    }
  }

  // ---- What one transaction does --------------------------------------------------------

  lemma TheKing(reigns: seq<Reign>, hill: HillType, k: ReignId)
    requires OneOpen(reigns) && k < |reigns| && reigns[k].hill == hill && reigns[k].endedAt.None?
    ensures King(reigns, hill) == Some(k)
  {
    KingIsOpen(reigns, hill, 0);
    assert IsOpen(reigns[k], hill);
  }

  lemma NoKing(reigns: seq<Reign>, hill: HillType)
    requires forall k :: 0 <= k < |reigns| ==> !(reigns[k].hill == hill && reigns[k].endedAt.None?)
    ensures King(reigns, hill) == None
  {
    KingIsOpen(reigns, hill, 0);
  }

  /** A reset of any hill ends exactly the open reign that started before its period, now, and
      credits that reign's user for that hill and period. */
  lemma StaleReignIsClosed(s: State, which: nat, k: ReignId)
    requires Inv(s) && which < |s.resets| && k < |s.reigns|
    requires s.reigns[k].hill == s.resets[which].hill && s.reigns[k].endedAt.None? && s.reigns[k].startedAt < s.resets[which].period
    ensures var s', reset := Step(s, CloseStale(which)), s.resets[which];
            && s'.reigns == s.reigns[k := s.reigns[k].(endedAt := Some(s.now))]
            && s'.credits == s.credits + [FinalCredit(reset.hill, reset.period, s.reigns[k].user, k)]
            && s'.resets == s.resets[..which] + s.resets[which + 1..] && s'.now == s.now
  {
    TheKing(s.reigns, s.resets[which].hill, k);
  }

  /** When no open reign of the hill started before the period it closes and credits nothing. */
  lemma FreshReignStays(s: State, which: nat)
    requires which < |s.resets|
    requires forall k :: 0 <= k < |s.reigns| && s.reigns[k].hill == s.resets[which].hill && s.reigns[k].endedAt.None? ==>
               s.reigns[k].startedAt >= s.resets[which].period
    ensures var s' := Step(s, CloseStale(which)); s'.reigns == s.reigns && s'.credits == s.credits
  {
    KingIsOpen(s.reigns, s.resets[which].hill, 0);
  }

  /** Either way nobody who started before the period is king of the hill afterwards. */
  lemma NobodyStaleIsLeft(s: State, which: nat)
    requires Inv(s) && which < |s.resets|
    ensures var s' := Step(s, CloseStale(which));
            forall k :: 0 <= k < |s'.reigns| && s'.reigns[k].hill == s.resets[which].hill && s'.reigns[k].endedAt.None? ==>
              s'.reigns[k].startedAt >= s.resets[which].period
  {
    if k :| 0 <= k < |s.reigns| && s.reigns[k].hill == s.resets[which].hill && s.reigns[k].endedAt.None? && s.reigns[k].startedAt < s.resets[which].period {
      StaleReignIsClosed(s, which, k);
    } else {
      FreshReignStays(s, which);
    }
  }

  /** A reset can be begun for any period that has started, and time only moves the clock. */
  lemma ResetBegins(s: State, hill: HillType, period: int, ms: nat)
    requires period <= s.now
    ensures Step(s, ReadPeriod(hill, period)) == s.(resets := s.resets + [Reset(hill, period)])
    ensures Step(s, Tick(ms)) == s.(now := s.now + ms)
  {
  }

  /** A run takes every event, one after the other. */
  lemma RunTakesEachEvent(s: State, es: seq<Event>, e: Event)
    ensures Run(s, []) == s && Run(s, es + [e]) == Step(Run(s, es), e)
  {
    assert (es + [e])[..|es|] == es;
  }

  /** Seeding crowns somebody exactly on a hill without a king. */
  lemma SeedEffect(s: State, hill: HillType, user: User, clip: ClipId, blinkTsMs: int)
    ensures Step(s, Seed(hill, user, clip, blinkTsMs)) ==
              if exists k :: 0 <= k < |s.reigns| && s.reigns[k].hill == hill && s.reigns[k].endedAt.None? then s
              else s.(reigns := s.reigns + [Reign(hill, user, clip, blinkTsMs, s.now, None, None)])
  {
    KingIsOpen(s.reigns, hill, 0);
    if k :| 0 <= k < |s.reigns| && s.reigns[k].hill == hill && s.reigns[k].endedAt.None? {
      assert IsOpen(s.reigns[k], hill);
    }
  }

  // ---- Main results ---------------------------------------------------------------------

  /** In every reachable state a hill has at most one king, and a hill and period get at most one
      final-placement credit, as does a reign. */
  lemma {:induction false} OneKingOneFinalCredit(now: int, es: seq<Event>)
    ensures var s := Run(Start(now), es);
            && (forall i, j :: 0 <= i < j < |s.reigns| && s.reigns[i].endedAt.None? && s.reigns[j].endedAt.None? ==>
                  s.reigns[i].hill != s.reigns[j].hill)
            && (forall i, j :: 0 <= i < j < |s.credits| ==>
                  (s.credits[i].hill, s.credits[i].period) != (s.credits[j].hill, s.credits[j].period)
                  && s.credits[i].reign != s.credits[j].reign)
  {
    RunKeepsInv(Start(now), es);
  }

  /** A challenge needs a king, and takes the crown exactly when it survives at least the king's
      time: then his reign ends now and the challenger's begins, with the time he survived. */
  lemma ChallengePassesTheCrown(s: State, hill: HillType, user: User, survivedMs: int, clip: ClipId, k: ReignId)
    requires Inv(s) && k < |s.reigns| && s.reigns[k].hill == hill && s.reigns[k].endedAt.None?
    ensures var s' := Step(s, Challenge(hill, user, survivedMs, clip));
            if survivedMs >= s.reigns[k].blinkTsMs
            then s' == s.(reigns := s.reigns[k := s.reigns[k].(endedAt := Some(s.now))] + [Reign(hill, user, clip, survivedMs, s.now, None, Some(k))])
            else s' == s
  {
    TheKing(s.reigns, hill, k);
  }

  /** Without a king a challenge changes nothing. */
  lemma NobodyToChallenge(s: State, hill: HillType, user: User, survivedMs: int, clip: ClipId)
    requires forall k :: 0 <= k < |s.reigns| ==> !(s.reigns[k].hill == hill && s.reigns[k].endedAt.None?)
    ensures Step(s, Challenge(hill, user, survivedMs, clip)) == s
  {
    NoKing(s.reigns, hill);
  }

  /** Reign `j` descends from reign `i` by a chain of successful challenges. */
  predicate Descends(reigns: seq<Reign>, j: ReignId, i: ReignId)
    decreases j
  {
    j == i || (j < |reigns| && reigns[j].over.Some? && reigns[j].over.value < j && Descends(reigns, reigns[j].over.value, i))
  }

  /** The smallest such relation that holds from a challenger to the one he took the crown from and
      is transitive: everybody descends from himself, his predecessor, and whomever that one does. */
  lemma {:induction false} DescentIsTheChain(reigns: seq<Reign>, j: ReignId, i: ReignId, h: ReignId)
    ensures Descends(reigns, j, j)
    ensures j < |reigns| && reigns[j].over == Some(i) && i < j ==> Descends(reigns, j, i)
    ensures Descends(reigns, j, i) && Descends(reigns, i, h) ==> Descends(reigns, j, h)
    decreases j
  {
    if Descends(reigns, j, i) && j != i {
      DescentIsTheChain(reigns, reigns[j].over.value, i, h);
    }
  }

  /** Along such a chain the time to beat never falls, and all but the last reign have ended. */
  lemma {:induction false} ChainsNeverFall(s: State, j: ReignId, i: ReignId)
    requires Inv(s) && j < |s.reigns| && Descends(s.reigns, j, i)
    ensures i <= j && s.reigns[i].hill == s.reigns[j].hill && s.reigns[i].blinkTsMs <= s.reigns[j].blinkTsMs
    ensures i != j ==> s.reigns[i].endedAt.Some? && s.reigns[i].endedAt.value <= s.reigns[j].startedAt
    decreases j
  {
    if j != i {
      var k := s.reigns[j].over.value;
      assert ReignOk(s.reigns, s.now, j) && ReignOk(s.reigns, s.now, k);
      ChainsNeverFall(s, k, i);
    }
  }

  /** Nothing about a reign changes but its end, and that only once. */
  lemma StepEndsOnce(s: State, e: Event, k: ReignId)
    requires k < |s.reigns|
    ensures var s' := Step(s, e);
            && k < |s'.reigns| && s'.reigns[k] == s.reigns[k].(endedAt := s'.reigns[k].endedAt)
            && (s.reigns[k].endedAt.Some? ==> s'.reigns[k].endedAt == s.reigns[k].endedAt)
  {
    match e
    case Challenge(hill, user, survivedMs, clip) => KingIsOpen(s.reigns, hill, 0);
    case CloseStale(which) =>
      if which < |s.resets| {
        KingIsOpen(s.reigns, s.resets[which].hill, 0);
      }
    case _ =>
  }

  lemma {:induction false} ReignsEndOnce(s: State, es: seq<Event>, k: ReignId)
    requires k < |s.reigns|
    ensures var s' := Run(s, es);
            && k < |s'.reigns| && s'.reigns[k] == s.reigns[k].(endedAt := s'.reigns[k].endedAt)
            && (s.reigns[k].endedAt.Some? ==> s'.reigns[k].endedAt == s.reigns[k].endedAt)
  {
    if es != [] {
      ReignsEndOnce(s, es[..|es| - 1], k);
      StepEndsOnce(Run(s, es[..|es| - 1]), es[|es| - 1], k);
    }
  }

  // ---- A reset is final -----------------------------------------------------------------

  /** Whoever is king of the hill started in the period or later. */
  predicate Settled(s: State, hill: HillType, period: int) {
    period <= s.now && forall k :: 0 <= k < |s.reigns| && IsOpen(s.reigns[k], hill) ==> s.reigns[k].startedAt >= period
  }

  lemma StepKeepsSettled(s: State, e: Event, hill: HillType, period: int)
    requires Settled(s, hill, period)
    ensures Settled(Step(s, e), hill, period)
  {
    var s' := Step(s, e);
    forall k | 0 <= k < |s'.reigns| && IsOpen(s'.reigns[k], hill) ensures s'.reigns[k].startedAt >= period {
      if k < |s.reigns| {
        StepEndsOnce(s, e, k);
        assert IsOpen(s.reigns[k], hill);
      }
    }
  }

  lemma {:induction false} RunKeepsSettled(s: State, es: seq<Event>, hill: HillType, period: int)
    requires Settled(s, hill, period)
    ensures Settled(Run(s, es), hill, period)
  {
    if es != [] {
      RunKeepsSettled(s, es[..|es| - 1], hill, period);
      StepKeepsSettled(Run(s, es[..|es| - 1]), es[|es| - 1], hill, period);
    }
  }

  /** Once a reset has run, no king of the hill ever again started before its period, and a reset of
      the hill for that period or an earlier one closes and credits nothing, however the run goes on. */
  lemma {:induction false} ResetIsFinal(s: State, which: nat, es: seq<Event>, later: nat)
    requires Inv(s) && which < |s.resets|
    ensures var reset, t := s.resets[which], Run(Step(s, CloseStale(which)), es);
            && (forall k :: 0 <= k < |t.reigns| && t.reigns[k].hill == reset.hill && t.reigns[k].endedAt.None? ==> t.reigns[k].startedAt >= reset.period)
            && (later < |t.resets| && t.resets[later].hill == reset.hill && t.resets[later].period <= reset.period ==>
                  Step(t, CloseStale(later)).reigns == t.reigns && Step(t, CloseStale(later)).credits == t.credits)
  {
    var r := s.resets[which];
    assert r in s.resets;
    NobodyStaleIsLeft(s, which);
    var s', t := Step(s, CloseStale(which)), Run(Step(s, CloseStale(which)), es);
    assert s'.now == s.now;
    RunKeepsSettled(s', es, r.hill, r.period);
    forall k | 0 <= k < |t.reigns| && t.reigns[k].hill == r.hill && t.reigns[k].endedAt.None? ensures t.reigns[k].startedAt >= r.period {
      assert IsOpen(t.reigns[k], r.hill);
    }
    if later < |t.resets| && t.resets[later].hill == r.hill && t.resets[later].period <= r.period {
      FreshReignStays(t, later);
    }
  }
}
