/** The fixed-window limiter in front of rewarded grants. */
module RewardedLimiter {
  import opened Options

  type User = int

  /** A counter key in Redis: created by the first increment of a window, gone `window` later, or
      never when its expiry could not be set. */
  datatype Counter = Counter(count: nat, startedAt: int, expires: bool)

  /** A call of Allow: when, and whether setting an expiry would fail. */
  datatype Call = Call(at: int, expireFails: bool)

  /** An attempt: when, which window of the user it fell in, and whether it was allowed. */
  datatype Attempt = Attempt(at: int, window: nat, allowed: bool)

  datatype Limiter = Limiter(counter: Option<Counter>, windows: nat, log: seq<Attempt>)

  const NewLimiter := Limiter(None, 0, [])

  predicate Running(l: Limiter, window: int, now: int) {
    l.counter.Some? && (l.counter.value.expires ==> now < l.counter.value.startedAt + window)
  }

  /** INCR, with EXPIRE on the first increment, then the comparison with the cap; a non-positive
      cap denies without counting, and a failing EXPIRE denies after counting. */
  function AllowStep(l: Limiter, cap: int, window: int, call: Call): Limiter {
    var now := call.at;
    if cap <= 0 then l.(log := l.log + [Attempt(now, l.windows, false)])
    else if Running(l, window, now) then
      var n := l.counter.value.count + 1;
      l.(counter := Some(l.counter.value.(count := n)), log := l.log + [Attempt(now, l.windows, n <= cap)])
    else Limiter(Some(Counter(1, now, !call.expireFails)), l.windows + 1, l.log + [Attempt(now, l.windows + 1, 1 <= cap && !call.expireFails)])
  }

  /** Whether the next call is allowed. */
  predicate Allows(l: Limiter, cap: int, window: int, call: Call) {
    && cap > 0
    && if Running(l, window, call.at) then l.counter.value.count < cap else !call.expireFails
  }

  /** One call: a cap that is not positive denies; within the lifetime of a counter the call counts
      and is allowed while the count was below the cap; otherwise it opens a window, and is allowed
      unless the window cannot be given an end. */
  lemma AllowEffect(l: Limiter, cap: int, window: int, call: Call)
    ensures var l', n := AllowStep(l, cap, window, call), |l.log|;
            && |l'.log| == n + 1 && l'.log[..n] == l.log && l'.log[n].at == call.at
            && if cap <= 0 then l'.counter == l.counter && l'.windows == l.windows && !l'.log[n].allowed
               else if l.counter.Some? && (!l.counter.value.expires || call.at < l.counter.value.startedAt + window)
               then
                 && l'.counter == Some(Counter(l.counter.value.count + 1, l.counter.value.startedAt, l.counter.value.expires))
                 && l'.windows == l.windows && l'.log[n].window == l.windows && (l'.log[n].allowed <==> l.counter.value.count < cap)
               else
                 && l'.counter == Some(Counter(1, call.at, !call.expireFails))
                 && l'.windows == l.windows + 1 && l'.log[n].window == l.windows + 1 && (l'.log[n].allowed <==> !call.expireFails)
  {
  }

  lemma AllowsIsTheVerdict(l: Limiter, cap: int, window: int, call: Call)
    ensures var log := AllowStep(l, cap, window, call).log;
            log[..|log| - 1] == l.log && (log[|log| - 1].allowed <==> Allows(l, cap, window, call))
  {
  }

  function RunFrom(l: Limiter, cap: int, window: int, calls: seq<Call>): Limiter {
    if calls == [] then l else AllowStep(RunFrom(l, cap, window, calls[..|calls| - 1]), cap, window, calls[|calls| - 1])
  }

  function Run(cap: int, window: int, calls: seq<Call>): Limiter {
    RunFrom(NewLimiter, cap, window, calls)
  }

  predicate Ascending(calls: seq<Call>) {
    forall i, j :: 0 <= i < j < |calls| ==> calls[i].at <= calls[j].at
  }

  function AllowedInWindow(log: seq<Attempt>, w: nat): nat {
    if log == [] then 0
    else AllowedInWindow(log[..|log| - 1], w) + if log[|log| - 1].allowed && log[|log| - 1].window == w then 1 else 0
  }

  /** Allowed attempts in the closed interval. */
  function AllowedBetween(log: seq<Attempt>, from: int, to: int): nat {
    if log == [] then 0
    else AllowedBetween(log[..|log| - 1], from, to)
         + if log[|log| - 1].allowed && from <= log[|log| - 1].at <= to then 1 else 0
  }

  // ---- Counting -------------------------------------------------------------------------

  lemma InWindowCountsOneMore(log: seq<Attempt>, w: nat, n: nat)
    requires |log| == n + 1
    ensures |set k | 0 <= k < |log| && log[k].allowed && log[k].window == w|
         == |set k | 0 <= k < n && log[..n][k].allowed && log[..n][k].window == w| + if log[n].allowed && log[n].window == w then 1 else 0
  {
    var before := set k | 0 <= k < n && log[..n][k].allowed && log[..n][k].window == w;
    var here := if log[n].allowed && log[n].window == w then {n} else {};
    assert (set k | 0 <= k < |log| && log[k].allowed && log[k].window == w) == before + here;
  }

  /** The counts are numbers of attempts. */
  lemma {:induction false} InWindowCounts(log: seq<Attempt>, w: nat)
    ensures |set k | 0 <= k < |log| && log[k].allowed && log[k].window == w| == AllowedInWindow(log, w)
  {
    if log != [] {
      var n := |log| - 1;
      InWindowCounts(log[..n], w);
      InWindowCountsOneMore(log, w, n);
    }
  }

  lemma BetweenCountsOneMore(log: seq<Attempt>, from: int, to: int, n: nat)
    requires |log| == n + 1
    ensures |set k | 0 <= k < |log| && log[k].allowed && from <= log[k].at <= to|
         == |set k | 0 <= k < n && log[..n][k].allowed && from <= log[..n][k].at <= to| + if log[n].allowed && from <= log[n].at <= to then 1 else 0
  {
    var before := set k | 0 <= k < n && log[..n][k].allowed && from <= log[..n][k].at <= to;
    var here := if log[n].allowed && from <= log[n].at <= to then {n} else {};
    assert (set k | 0 <= k < |log| && log[k].allowed && from <= log[k].at <= to) == before + here;
  }

  lemma {:induction false} BetweenCounts(log: seq<Attempt>, from: int, to: int)
    ensures |set k | 0 <= k < |log| && log[k].allowed && from <= log[k].at <= to| == AllowedBetween(log, from, to)
  {
    if log != [] {
      var n := |log| - 1;
      BetweenCounts(log[..n], from, to);
      BetweenCountsOneMore(log, from, to, n);
    }
  }

  /** A run takes every call, one after the other. */
  lemma RunTakesEachCall(cap: int, window: int, calls: seq<Call>, call: Call)
    ensures Run(cap, window, []) == NewLimiter && Run(cap, window, calls + [call]) == AllowStep(Run(cap, window, calls), cap, window, call)
  {
    assert (calls + [call])[..|calls|] == calls;
  }

  // ---- Windows --------------------------------------------------------------------------

  predicate CapOk(l: Limiter, cap: int, w: nat) {
    && AllowedInWindow(l.log, w) <= (if cap < 0 then 0 else cap)
    && (w == l.windows && l.counter.Some? ==> AllowedInWindow(l.log, w) <= l.counter.value.count)
    && (w > l.windows ==> AllowedInWindow(l.log, w) == 0)
  }

  /** Attempts are in time and window order, one window is shorter than `window`, and windows two
      apart are more than `window` apart. */
  predicate Spaced(log: seq<Attempt>, window: int) {
    forall i, j :: 0 <= i < j < |log| && log[i].allowed && log[j].allowed ==> Apart(log[i], log[j], window)
  }

  predicate Apart(a: Attempt, b: Attempt, window: int) {
    && a.at <= b.at && a.window <= b.window
    && (a.window + 2 <= b.window ==> b.at > a.at + window)
  }

  /** Every allowed attempt relates to the current window as `Apart` will need it to. */
  predicate BeforeNow(l: Limiter, window: int, a: Attempt, now: int) {
    && a.at <= now && a.window <= l.windows && l.counter.Some?
    && l.counter.value.startedAt <= now
    && (a.window == l.windows ==> l.counter.value.startedAt <= a.at && (l.counter.value.expires ==> a.at < l.counter.value.startedAt + window))
    && (a.window < l.windows ==> a.at < l.counter.value.startedAt)
    && (a.window + 2 <= l.windows ==> l.counter.value.startedAt > a.at + window)
  }

  ghost predicate Inv(l: Limiter, cap: int, window: int, now: int) {
    && (forall w: nat :: CapOk(l, cap, w))
    && Spaced(l.log, window)
    && (forall a :: a in l.log && a.allowed ==> BeforeNow(l, window, a, now))
    && (l.counter.Some? ==> l.counter.value.startedAt <= now)
    && (l.counter.None? ==> l.windows == 0)
  }

  lemma AppendAttempt(log: seq<Attempt>, a: Attempt, w: nat)
    ensures AllowedInWindow(log + [a], w) == AllowedInWindow(log, w) + if a.allowed && a.window == w then 1 else 0
  {
    assert (log + [a])[..|log|] == log;
  }

  lemma AllowKeepsCap(l: Limiter, cap: int, window: int, call: Call, w: nat)
    requires CapOk(l, cap, w) && CapOk(l, cap, l.windows + 1)
    requires l.counter.None? ==> l.windows == 0
    ensures CapOk(AllowStep(l, cap, window, call), cap, w)
  {
    var l' := AllowStep(l, cap, window, call);
    AppendAttempt(l.log, l'.log[|l.log|], w);
  }

  lemma AllowKeepsInv(l: Limiter, cap: int, window: int, before: int, call: Call)
    requires Inv(l, cap, window, before) && before <= call.at && window > 0
    ensures Inv(AllowStep(l, cap, window, call), cap, window, call.at)
  {
    var now := call.at;
    var l' := AllowStep(l, cap, window, call);
    forall w: nat ensures CapOk(l', cap, w) {
      assert CapOk(l, cap, w) && CapOk(l, cap, l.windows + 1);
      AllowKeepsCap(l, cap, window, call, w);
    }
    forall a | a in l'.log && a.allowed ensures BeforeNow(l', window, a, now) {
      assert a in l.log ==> BeforeNow(l, window, a, before);
    }
    forall i, j | 0 <= i < j < |l'.log| && l'.log[i].allowed && l'.log[j].allowed ensures Apart(l'.log[i], l'.log[j], window) {
      if j == |l.log| {
        assert l.log[i] in l.log && BeforeNow(l, window, l.log[i], before);
      }
    }
  }

  lemma {:induction false} RunKeepsInv(cap: int, window: int, calls: seq<Call>, now: int)
    requires Ascending(calls) && window > 0 && forall k :: 0 <= k < |calls| ==> calls[k].at <= now
    ensures Inv(Run(cap, window, calls), cap, window, now)
  {
    if calls == [] {
      assert forall w: nat :: CapOk(NewLimiter, cap, w);
    } else {
      var n := |calls| - 1;
      RunKeepsInv(cap, window, calls[..n], calls[n].at);
      AllowKeepsInv(Run(cap, window, calls[..n]), cap, window, calls[n].at, calls[n]);
      LaterKeepsInv(Run(cap, window, calls), cap, window, calls[n].at, now);
    }
  }

  lemma LaterKeepsInv(l: Limiter, cap: int, window: int, before: int, now: int)
    requires Inv(l, cap, window, before) && before <= now
    ensures Inv(l, cap, window, now)
  {
    forall a | a in l.log && a.allowed ensures BeforeNow(l, window, a, now) {
      assert BeforeNow(l, window, a, before);
    }
  }

  // ---- The bounds -----------------------------------------------------------------------

  /** If no allowed attempt in the interval is outside two windows, their counts bound it. */
  lemma {:induction false} IntervalInTwoWindows(log: seq<Attempt>, from: int, to: int, w: nat)
    requires forall a :: a in log && a.allowed && from <= a.at <= to ==> a.window == w || a.window == w + 1
    ensures AllowedBetween(log, from, to) <= AllowedInWindow(log, w) + AllowedInWindow(log, w + 1)
  {
    if log != [] {
      var n := |log| - 1;
      assert log[n] in log;
      IntervalInTwoWindows(log[..n], from, to, w);
    }
  }

  predicate Inside(a: Attempt, from: int, to: int) {
    a.allowed && from <= a.at <= to
  }

  /** The window of the first allowed attempt of the interval. */
  lemma {:induction false} FirstWindow(log: seq<Attempt>, window: int, from: int, to: int) returns (w: nat)
    requires Spaced(log, window) && to - from <= window
    ensures forall a :: a in log && Inside(a, from, to) ==> a.window == w || a.window == w + 1
  {
    w := 0;
    if k :| 0 <= k < |log| && Inside(log[k], from, to) && forall i :: 0 <= i < k ==> !Inside(log[i], from, to) {
      w := log[k].window;
      forall j | 0 <= j < |log| && Inside(log[j], from, to) ensures log[j].window == w || log[j].window == w + 1 {
        if j > k {
          assert Apart(log[k], log[j], window);
        }
      }
    } else {
      NoFirst(log, from, to, |log|);
    }
  }

  lemma {:induction false} NoFirst(log: seq<Attempt>, from: int, to: int, n: int)
    requires 0 <= n <= |log|
    requires forall k :: 0 <= k < |log| && Inside(log[k], from, to) ==> exists i :: 0 <= i < k && Inside(log[i], from, to)
    ensures forall k :: 0 <= k < n ==> !Inside(log[k], from, to)
  {
    if n > 0 {
      NoFirst(log, from, to, n - 1);
    }
  }

  /** Whatever the attempts, and whichever expiries fail, at most `cap` are allowed in one window. */
  lemma {:induction false} AtMostCapPerWindow(cap: int, window: int, calls: seq<Call>, w: nat)
    requires (forall i, j :: 0 <= i < j < |calls| ==> calls[i].at <= calls[j].at) && window > 0 && cap >= 0
    ensures var log := Run(cap, window, calls).log; |set k | 0 <= k < |log| && log[k].allowed && log[k].window == w| <= cap
    ensures AllowedInWindow(Run(cap, window, calls).log, w) <= cap
  {
    InWindowCounts(Run(cap, window, calls).log, w);
    var now := if calls == [] then 0 else calls[|calls| - 1].at;
    RunKeepsInv(cap, window, calls, now);
    assert CapOk(Run(cap, window, calls), cap, w);
  }

  /** And at most twice the cap in any interval as long as a window, wherever it starts. */
  lemma {:induction false} AtMostTwiceCapInAnyInterval(cap: int, window: int, calls: seq<Call>, from: int, to: int)
    requires (forall i, j :: 0 <= i < j < |calls| ==> calls[i].at <= calls[j].at) && window > 0 && cap >= 0 && to - from <= window
    ensures var log := Run(cap, window, calls).log; |set k | 0 <= k < |log| && log[k].allowed && from <= log[k].at <= to| <= 2 * cap
    ensures AllowedBetween(Run(cap, window, calls).log, from, to) <= 2 * cap
  {
    BetweenCounts(Run(cap, window, calls).log, from, to);
    var now := if calls == [] then 0 else calls[|calls| - 1].at;
    RunKeepsInv(cap, window, calls, now);
    var l := Run(cap, window, calls);
    var w := FirstWindow(l.log, window, from, to);
    IntervalInTwoWindows(l.log, from, to, w);
    assert CapOk(l, cap, w) && CapOk(l, cap, w + 1);
  }

  /** The bound is reached: a window's attempts at its end and the next window's at its start. */
  lemma TwiceCapHappens(window: int)
    requires window > 0
    ensures Run(1, window, [Call(0, false), Call(window, false)]).log == [Attempt(0, 1, true), Attempt(window, 2, true)]
  {
    var none: seq<Call> := [];
    var one, two := [Call(0, false)], [Call(0, false), Call(window, false)];
    assert one[..|one| - 1] == none && two[..|two| - 1] == one;
    assert Run(1, window, none) == NewLimiter;
    assert Run(1, window, one) == Limiter(Some(Counter(1, 0, true)), 1, [Attempt(0, 1, true)]);
  }

  // ---- What a window allows -------------------------------------------------------------

  /** From the call that opens a window, as long as the window lasts, exactly the first `cap` calls
      are allowed. */
  lemma {:induction false} FirstCallsOfAWindowAreAllowed(l: Limiter, cap: int, window: int, calls: seq<Call>)
    requires cap > 0 && window > 0 && calls != [] && !calls[0].expireFails
    requires l.counter.None? || (l.counter.value.expires && calls[0].at >= l.counter.value.startedAt + window)
    requires forall k :: 0 <= k < |calls| ==> calls[0].at <= calls[k].at < calls[0].at + window
    ensures var l' := RunFrom(l, cap, window, calls);
            && l'.counter == Some(Counter(|calls|, calls[0].at, true)) && l'.windows == l.windows + 1
            && |l'.log| == |l.log| + |calls| && l'.log[..|l.log|] == l.log
            && forall j :: |l.log| <= j < |l'.log| ==>
                 l'.log[j] == Attempt(calls[j - |l.log|].at, l.windows + 1, j - |l.log| < cap)
  {
    var n := |calls| - 1;
    var before := RunFrom(l, cap, window, calls[..n]);
    if n > 0 {
      FirstCallsOfAWindowAreAllowed(l, cap, window, calls[..n]);
    }
    AllowEffect(before, cap, window, calls[n]);
    var l' := RunFrom(l, cap, window, calls);
    assert l'.log[..|before.log|][..|l.log|] == l'.log[..|l.log|];
    forall j | |l.log| <= j < |l'.log| ensures l'.log[j] == Attempt(calls[j - |l.log|].at, l.windows + 1, j - |l.log| < cap) {
      if j < |before.log| {
        assert l'.log[j] == before.log[j] && calls[..n][j - |l.log|] == calls[j - |l.log|];
      }
    }
  }

  // ---- A failed expiry ------------------------------------------------------------------

  /** Allowed attempts from position `from` on. */
  function AllowedSince(log: seq<Attempt>, from: nat): nat {
    if |log| <= from then 0 else AllowedSince(log[..|log| - 1], from) + if log[|log| - 1].allowed then 1 else 0
  }

  /** A counter whose expiry failed never goes away: whatever comes later, the user gets exactly
      what is left of one window's cap, and then nothing for good. */
  lemma {:induction false} FailedExpiryIsForever(l: Limiter, cap: int, window: int, calls: seq<Call>)
    requires cap > 0 && l.counter.Some? && !l.counter.value.expires
    ensures var l' := RunFrom(l, cap, window, calls);
            var left := if cap > l.counter.value.count then cap - l.counter.value.count else 0;
            && l'.counter == Some(l.counter.value.(count := l.counter.value.count + |calls|)) && |l'.log| == |l.log| + |calls|
            && AllowedSince(l'.log, |l.log|) == if |calls| < left then |calls| else left
  {
    if calls != [] {
      var n := |calls| - 1;
      FailedExpiryIsForever(l, cap, window, calls[..n]);
      var before := RunFrom(l, cap, window, calls[..n]);
      assert RunFrom(l, cap, window, calls).log[..|before.log|] == before.log;
    }
  }

  /** Call `k` opens a window and fails to give it an end. */
  predicate OpensForever(cap: int, window: int, calls: seq<Call>, k: nat)
    requires k < |calls|
  {
    calls[k].expireFails && !Running(Run(cap, window, calls[..k]), window, calls[k].at)
  }

  /** A user is in that state if and only if one of his calls opened a window and its EXPIRE failed. */
  lemma {:induction false} LockedForeverIff(cap: int, window: int, calls: seq<Call>)
    requires cap > 0
    ensures var l := Run(cap, window, calls);
            (l.counter.Some? && !l.counter.value.expires) <==> exists k :: 0 <= k < |calls| && OpensForever(cap, window, calls, k)
  {
    if calls != [] {
      var n := |calls| - 1;
      LockedForeverIff(cap, window, calls[..n]);
      forall k | 0 <= k < n ensures OpensForever(cap, window, calls, k) == OpensForever(cap, window, calls[..n], k) {
        assert calls[..n][..k] == calls[..k];
      }
      var before := Run(cap, window, calls[..n]);
      assert OpensForever(cap, window, calls, n) <==> calls[n].expireFails && !Running(before, window, calls[n].at);
      if before.counter.Some? && !before.counter.value.expires {
        var k :| 0 <= k < n && OpensForever(cap, window, calls[..n], k);
        assert OpensForever(cap, window, calls, k);
      }
    }
  }

  /** One call is enough: with a cap of one the user is never allowed again. */
  lemma LockedForeverHappens(window: int, at: int, later: seq<Call>)
    ensures AllowedSince(RunFrom(Run(1, window, [Call(at, true)]), 1, window, later).log, 0) == 0
  {
    var none: seq<Call> := [];
    var first := [Call(at, true)];
    assert first[..|first| - 1] == none && Run(1, window, none) == NewLimiter;
    var l := Run(1, window, first);
    assert l == Limiter(Some(Counter(1, at, false)), 1, [Attempt(at, 1, false)]);
    FailedExpiryIsForever(l, 1, window, later);
    KeepsLog(l, 1, window, later);
    NoneBefore(RunFrom(l, 1, window, later).log, 1);
  }

  lemma {:induction false} KeepsLog(l: Limiter, cap: int, window: int, calls: seq<Call>)
    ensures l.log <= RunFrom(l, cap, window, calls).log
  {
    if calls != [] {
      KeepsLog(l, cap, window, calls[..|calls| - 1]);
    }
  }

  lemma {:induction false} NoneBefore(log: seq<Attempt>, from: nat)
    requires from <= |log| && forall k :: 0 <= k < from ==> !log[k].allowed
    ensures AllowedSince(log, 0) == AllowedSince(log, from)
  {
    if log != [] && |log| > from {
      NoneBefore(log[..|log| - 1], from);
    } else if log != [] {
      NoneBefore(log[..|log| - 1], from - 1);
    }
  }

  // ---- Grants ---------------------------------------------------------------------------

  /** Which attempts ended in a grant: those allowed whose grant did not fail. */
  predicate GrantsFollow(log: seq<Attempt>, granted: seq<bool>) {
    |granted| == |log| && forall k :: 0 <= k < |log| && granted[k] ==> log[k].allowed
  }

  lemma GrantsFollowOn(log: seq<Attempt>, after: seq<Attempt>, granted: seq<bool>, grant: bool)
    requires GrantsFollow(log, granted) && after != [] && after[..|after| - 1] == log
    requires grant ==> after[|after| - 1].allowed
    ensures GrantsFollow(after, granted + [grant])
  {
    forall k | 0 <= k < |after| && (granted + [grant])[k] ensures after[k].allowed {
      assert k < |log| ==> after[k] == log[k];
    }
  }

  function GrantedBetween(log: seq<Attempt>, granted: seq<bool>, from: int, to: int): nat
    requires |granted| == |log|
  {
    if log == [] then 0
    else
      var n := |log| - 1;
      GrantedBetween(log[..n], granted[..n], from, to) + if granted[n] && from <= log[n].at <= to then 1 else 0
  }

  function GrantedInWindow(log: seq<Attempt>, granted: seq<bool>, w: nat): nat
    requires |granted| == |log|
  {
    if log == [] then 0
    else
      var n := |log| - 1;
      GrantedInWindow(log[..n], granted[..n], w) + if granted[n] && log[n].window == w then 1 else 0
  }

  lemma {:induction false} GrantsAreAllowed(log: seq<Attempt>, granted: seq<bool>, from: int, to: int, w: nat)
    requires GrantsFollow(log, granted)
    ensures GrantedBetween(log, granted, from, to) <= AllowedBetween(log, from, to)
    ensures GrantedInWindow(log, granted, w) <= AllowedInWindow(log, w)
  {
    if log != [] {
      GrantsAreAllowed(log[..|log| - 1], granted[..|log| - 1], from, to, w);
    }
  }

  lemma GrantsInWindowCountOneMore(log: seq<Attempt>, granted: seq<bool>, w: nat, n: nat)
    requires |granted| == |log| == n + 1
    ensures |set k | 0 <= k < |log| && granted[k] && log[k].window == w|
         == |set k | 0 <= k < n && granted[..n][k] && log[..n][k].window == w| + if granted[n] && log[n].window == w then 1 else 0
  {
    var before := set k | 0 <= k < n && granted[..n][k] && log[..n][k].window == w;
    var here := if granted[n] && log[n].window == w then {n} else {};
    assert (set k | 0 <= k < |log| && granted[k] && log[k].window == w) == before + here;
  }

  lemma {:induction false} GrantsInWindowCount(log: seq<Attempt>, granted: seq<bool>, w: nat)
    requires |granted| == |log|
    ensures |set k | 0 <= k < |log| && granted[k] && log[k].window == w| == GrantedInWindow(log, granted, w)
  {
    if log != [] {
      var n := |log| - 1;
      GrantsInWindowCount(log[..n], granted[..n], w);
      GrantsInWindowCountOneMore(log, granted, w, n);
    }
  }

  lemma GrantsBetweenCountOneMore(log: seq<Attempt>, granted: seq<bool>, from: int, to: int, n: nat)
    requires |granted| == |log| == n + 1
    ensures |set k | 0 <= k < |log| && granted[k] && from <= log[k].at <= to|
         == |set k | 0 <= k < n && granted[..n][k] && from <= log[..n][k].at <= to| + if granted[n] && from <= log[n].at <= to then 1 else 0
  {
    var before := set k | 0 <= k < n && granted[..n][k] && from <= log[..n][k].at <= to;
    var here := if granted[n] && from <= log[n].at <= to then {n} else {};
    assert (set k | 0 <= k < |log| && granted[k] && from <= log[k].at <= to) == before + here;
  }

  lemma {:induction false} GrantsBetweenCount(log: seq<Attempt>, granted: seq<bool>, from: int, to: int)
    requires |granted| == |log|
    ensures |set k | 0 <= k < |log| && granted[k] && from <= log[k].at <= to| == GrantedBetween(log, granted, from, to)
  {
    if log != [] {
      var n := |log| - 1;
      GrantsBetweenCount(log[..n], granted[..n], from, to);
      GrantsBetweenCountOneMore(log, granted, from, to, n);
    }
  }

  /** So a user gets at most `cap` rewarded grants in a window and at most twice as many in any
      interval as long as one, whichever grants fail. */
  lemma {:induction false} GrantsAreBounded(cap: int, window: int, calls: seq<Call>, granted: seq<bool>, from: int, to: int, w: nat)
    requires (forall i, j :: 0 <= i < j < |calls| ==> calls[i].at <= calls[j].at) && window > 0 && cap >= 0 && to - from <= window
    requires GrantsFollow(Run(cap, window, calls).log, granted)
    ensures var log := Run(cap, window, calls).log;
            && |set k | 0 <= k < |log| && granted[k] && log[k].window == w| <= cap
            && |set k | 0 <= k < |log| && granted[k] && from <= log[k].at <= to| <= 2 * cap
    ensures GrantedInWindow(Run(cap, window, calls).log, granted, w) <= cap
    ensures GrantedBetween(Run(cap, window, calls).log, granted, from, to) <= 2 * cap
  {
    var log := Run(cap, window, calls).log;
    GrantsInWindowCount(log, granted, w);
    GrantsBetweenCount(log, granted, from, to);
    GrantsAreAllowed(log, granted, from, to, w);
    AtMostCapPerWindow(cap, window, calls, w);
    AtMostTwiceCapInAnyInterval(cap, window, calls, from, to);
  }
}
