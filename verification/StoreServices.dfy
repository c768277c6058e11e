/** The store's services: ordered calls on the database, the balance cache and the limiter, run
    one at a time. */
module StoreServices {
  import opened Options
  import opened StoreDatabase
  import L = PointsLedger
  import S = ShopInventory
  import C = BalanceCache
  import R = RewardedLimiter

  /** A Redis value with the moment it disappears. */
  datatype CacheEntry = CacheEntry(value: int, expiresAt: int)

  class PointsCache {
    var entries: map<User, CacheEntry>

    constructor ()
      ensures entries == map[]
    {
      entries := map[];
    }

    method GetBalance(user: User, now: int) returns (found: Option<int>)
      ensures found == Lookup(user, now)
      ensures found == if user in entries && now < entries[user].expiresAt then Some(entries[user].value) else None
    {
      if user in entries && now < entries[user].expiresAt {
        return Some(entries[user].value);
      }
      return None;
    }

    ghost function Lookup(user: User, now: int): Option<int>
      reads this
    {
      if user in entries && now < entries[user].expiresAt then Some(entries[user].value) else None
    }

    method SetBalance(user: User, value: int, now: int)
      modifies this
      ensures entries == old(entries)[user := CacheEntry(value, now + 300000)]
    {
      entries := entries[user := CacheEntry(value, now + C.CACHE_TTL)];
    }

    method DeleteBalance(user: User)
      modifies this
      ensures entries == old(entries) - {user}
    {
      entries := entries - {user};
    }
  }

  /** One user's balance and cache entry, as a state of the transition system. */
  ghost function Project(db: Database, cache: PointsCache, user: User, now: int): C.State
    reads db, cache
  {
    C.State(now, 0, [C.Commit(L.BalanceOf(db.PointsView(), user), now)],
            if user in cache.entries then Some(AsCached(cache.entries[user])) else None, [], [])
  }

  function AsCached(e: CacheEntry): C.Cached {
    C.Cached(e.value, 0, e.expiresAt - C.CACHE_TTL, 0, e.expiresAt - C.CACHE_TTL, 0)
  }

  /** The same balance, and the same value cached until the same moment. */
  predicate SameView(s: C.State, t: C.State) {
    && s.commits != [] && t.commits != [] && C.Current(s) == C.Current(t)
    && (s.cache.Some? <==> t.cache.Some?)
    && (s.cache.Some? ==> s.cache.value.value == t.cache.value.value && s.cache.value.setAt == t.cache.value.setAt)
  }

  /** The operation of the transition system, from `before`, ends where the services end. */
  ghost predicate Operated(before: C.State, op: C.Operation, after: C.State) {
    SameView(C.Run(before, C.EventsOf(before, op)), after)
  }

  /** Every cached balance is the committed one. */
  ghost predicate Coherent(db: Database, cache: PointsCache)
    reads db, cache
  {
    forall u :: C.Coherent(Project(db, cache, u, 0))
  }

  class PointsService {
    const db: Database
    const cache: PointsCache
    const amounts: map<L.Reason, int>

    constructor (db: Database, cache: PointsCache, amounts: map<L.Reason, int>)
      ensures this.db == db && this.cache == cache && this.amounts == amounts
    {
      this.db, this.cache, this.amounts := db, cache, amounts;
    }

    function Resolved(delta: int, reason: L.Reason): int {
      if delta > 0 then delta else if reason in amounts then amounts[reason] else 0
    }

    /** Rejects a credit without a reason or a positive amount; otherwise credits, then deletes
        the cached balance unless the delete fails. */
    method Credit(user: User, delta: int, reason: L.Reason, ref: L.RefId, deleteFails: bool) returns (balance: Option<int>)
      modifies db`balance, db`ledger, cache
      ensures balance.None? <==> reason.name == "" || (delta <= 0 && (reason !in amounts || amounts[reason] <= 0))
      ensures balance.None? ==> db.PointsView() == old(db.PointsView()) && cache.entries == old(cache.entries)
      ensures balance.Some? ==>
                var amount := if delta > 0 then delta else if reason in amounts then amounts[reason] else 0;
                && amount > 0
                && balance.value == (if user in db.balance then db.balance[user] else 0)
                && if ref.text != "" && exists r :: r in old(db.ledger) && r.user == user && r.reason == reason && r.ref == Some(ref)
                   then db.ledger == old(db.ledger) && db.balance == old(db.balance)
                   else
                     && db.ledger == old(db.ledger) + [L.Row(user, amount, reason, if ref.text == "" then None else Some(ref))]
                     && db.balance == old(db.balance)[user := (if user in old(db.balance) then old(db.balance)[user] else 0) + amount]
      ensures balance.Some? ==>
                && db.PointsView() == L.CreditTx(old(db.PointsView()), L.Row(user, Resolved(delta, reason), reason, L.RefArg(ref)))
                && balance.value == L.BalanceOf(db.PointsView(), user)
                && cache.entries == (if deleteFails then old(cache.entries) else old(cache.entries) - {user})
                && Operated(old(Project(db, cache, user, 0)), C.Credit(balance.value, !deleteFails), Project(db, cache, user, 0))
      ensures forall u :: u != user ==> Project(db, cache, u, 0) == old(Project(db, cache, u, 0))
      ensures old(Coherent(db, cache)) && !deleteFails ==> Coherent(db, cache)
    {
      ghost var before := Project(db, cache, user, 0);
      var amount := delta;
      if amount <= 0 {
        amount := if reason in amounts then amounts[reason] else 0;
      }
      if reason.name == "" || amount <= 0 {
        return None;
      }
      var newBalance, applied := db.Credit(user, amount, reason, ref);
      if !deleteFails {
        cache.DeleteBalance(user);
      }
      C.CreditEffect(before, newBalance, !deleteFails);
      return Some(newBalance);
    }

    /** Read through the cache: a hit is returned as it is, a miss or a cache error reads the
        database and stores the balance unless the store fails. */
    method GetBalance(user: User, now: int, getFails: bool, setFails: bool) returns (balance: int)
      modifies cache
      ensures var entries, committed := old(cache.entries), if user in db.balance then db.balance[user] else 0;
              if !getFails && user in entries && now < entries[user].expiresAt
              then balance == entries[user].value && cache.entries == entries
              else balance == committed && cache.entries == if setFails then entries else entries[user := CacheEntry(committed, now + 300000)]
      ensures Operated(old(Project(db, cache, user, now)), C.GetBalance(!getFails, !setFails), Project(db, cache, user, now))
      ensures forall u :: u != user ==> Project(db, cache, u, 0) == old(Project(db, cache, u, 0))
      ensures old(Coherent(db, cache)) ==> Coherent(db, cache) && balance == L.BalanceOf(db.PointsView(), user)
    {
      ghost var before := Project(db, cache, user, now);
      assert old(Coherent(db, cache)) ==> C.Coherent(Project(db, cache, user, 0));
      C.ReadEffect(before, !getFails, !setFails);
      if !getFails {
        var found := cache.GetBalance(user, now);
        if found.Some? {
          return found.value;
        }
      }
      balance := db.GetBalance(user);
      if !setFails {
        cache.SetBalance(user, balance, now);
      }
    }
  }

  // ---- Purchases ------------------------------------------------------------------------

  datatype PurchaseReply = Done | ProductNotFound | AlreadyOwned | MoneyOnly | InsufficientPoints | PurchaseFailed

  datatype WebhookReply = Acknowledged | UnknownIntent | Failed

  /** The row is the only one of its intent and not confirmed, and no row has seen the event. */
  ghost predicate Deliverable(purchases: seq<S.Purchase>, event: S.EventId, ref: S.IntentId, row: int)
    requires 0 <= row < |purchases|
  {
    && purchases[row].ref == Some(ref) && purchases[row].event.None?
    && (forall k :: 0 <= k < |purchases| && k != row ==> purchases[k].ref != Some(ref))
    && (forall k :: 0 <= k < |purchases| ==> purchases[k].event != Some(event))
  }

  /** What one whole delivery of a successful payment does. */
  function WebhookEffect(s: S.Shop, kinds: map<Product, S.Kind>, event: S.EventId, ref: S.IntentId): S.Shop {
    var found := S.FindFrom(s.purchases, ref, 0);
    if S.EventSeen(s, event) || found.None? || found.value >= |s.purchases| || s.purchases[found.value].product !in kinds then s
    else
      var p := s.purchases[found.value];
      S.ConfirmStep(s, ref, event, kinds[p.product], S.Slot(p.user, p.product))
  }

  /** The purchase is there, but its product is not, or the intent names several pending rows. */
  predicate CannotConfirm(s: S.Shop, kinds: map<Product, S.Kind>, ref: S.IntentId) {
    var found := S.FindFrom(s.purchases, ref, 0);
    found.Some? && found.value < |s.purchases| && (s.purchases[found.value].product !in kinds || |S.Matching(s, ref)| > 1)
  }

  /** Apart from its bookkeeping, a delivery nobody interrupts is its steps. */
  lemma WebhookIsItsSteps(s: S.Shop, kinds: map<Product, S.Kind>, event: S.EventId, ref: S.IntentId)
    ensures var n := |s.hooks|;
            var s1 := S.Step(s, kinds, S.Deliver(event, ref));
            var s4 := S.HookAdvance(S.HookAdvance(S.HookAdvance(s1, kinds, n), kinds, n), kinds, n);
            && s4.hooks == s.hooks + [S.Handled]
            && s4 == WebhookEffect(s, kinds, event, ref).(hooks := s4.hooks)
  {
    var n := |s.hooks|;
    var s1 := S.Step(s, kinds, S.Deliver(event, ref));
    S.AdvanceLast(s1, s.hooks, S.Received(event, ref), kinds);
    assert S.EventSeen(s1, event) <==> S.EventSeen(s, event);
    var s2 := S.HookAdvance(s1, kinds, n);
    S.AdvanceLast(s2, s.hooks, s2.hooks[n], kinds);
    var s3 := S.HookAdvance(s2, kinds, n);
    S.AdvanceLast(s3, s.hooks, s3.hooks[n], kinds);
    S.FindFromFinds(s.purchases, ref, 0);
    var found := S.FindFrom(s.purchases, ref, 0);
    if !S.EventSeen(s, event) && found.Some? && s.purchases[found.value].product in kinds {
      var p := s.purchases[found.value];
      S.ConfirmIgnoresHooks(s, s3.(hooks := s.hooks + [S.Handled]), ref, event, kinds[p.product], S.Slot(p.user, p.product));
    }
  }

  class PurchaseService {
    const db: Database
    const cache: PointsCache
    const pointsPrices: map<Product, int>

    constructor (db: Database, cache: PointsCache, pointsPrices: map<Product, int>)
      ensures this.db == db && this.cache == cache && this.pointsPrices == pointsPrices
    {
      this.db, this.cache, this.pointsPrices := db, cache, pointsPrices;
    }

    method IsOwned(slot: S.Slot) returns (owned: bool)
      ensures owned <==> S.Quantity(db.ShopView(), slot) > 0
    {
      owned := slot in db.inventory && db.inventory[slot] > 0;
    }

    /** `ref` is the intent id the payment provider has just minted. */
    method InitiatePurchase(user: User, product: Product, ref: S.IntentId) returns (reply: PurchaseReply)
      requires !S.RefTaken(db.ShopView(), ref)
      modifies db`purchases
      ensures reply.ProductNotFound? <==> product !in db.kinds
      ensures reply.AlreadyOwned? <==>
                product in db.kinds && db.kinds[product] == S.Edit && S.Slot(user, product) in db.inventory && db.inventory[S.Slot(user, product)] > 0
      ensures reply.ProductNotFound? || reply.AlreadyOwned? || reply.Done?
      ensures db.purchases == old(db.purchases) + if reply.Done? then [S.Purchase(user, product, S.Stripe, Some(ref), false, None)] else []
      ensures db.ShopView() == if reply.Done? then S.InitiateStep(old(db.ShopView()), db.kinds, user, product, ref) else old(db.ShopView())
    {
      if product !in db.kinds {
        return ProductNotFound;
      }
      if db.kinds[product].Edit? {
        var owned := IsOwned(S.Slot(user, product));
        if owned {
          return AlreadyOwned;
        }
      }
      db.CreatePurchase(user, product, ref);
      return Done;
    }

    /** One webhook delivery from verification to grant. */
    method HandleWebhook(event: S.EventId, ref: S.IntentId, succeeded: bool) returns (reply: WebhookReply)
      modifies db
      ensures db.ShopView() == if succeeded then WebhookEffect(old(db.ShopView()), db.kinds, event, ref) else old(db.ShopView())
      ensures db.PointsView() == old(db.PointsView())
      ensures forall r :: succeeded && 0 <= r < |old(db.purchases)| && Deliverable(old(db.purchases), event, ref, r) && old(db.purchases)[r].product in db.kinds ==>
                var p := old(db.purchases)[r];
                var slot := S.Slot(p.user, p.product);
                && reply == Acknowledged
                && db.purchases == old(db.purchases)[r := p.(paid := true, event := Some(event))]
                && slot in db.inventory && db.inventory == old(db.inventory)[slot := db.inventory[slot]]
                && db.inventory[slot] == (if slot !in old(db.inventory) then 1
                                          else if db.kinds[p.product] == S.Distraction then old(db.inventory)[slot] + 1 else old(db.inventory)[slot])
      ensures !succeeded || (exists k :: 0 <= k < |old(db.purchases)| && old(db.purchases)[k].event == Some(event))
              || (forall k :: 0 <= k < |old(db.purchases)| && old(db.purchases)[k].ref == Some(ref) ==> old(db.purchases)[k].event.Some?) ==>
                db.purchases == old(db.purchases) && db.inventory == old(db.inventory)
      ensures reply.UnknownIntent? <==> succeeded && !S.EventSeen(old(db.ShopView()), event) && S.FindFrom(old(db.purchases), ref, 0).None?
      ensures reply.Failed? <==> succeeded && !S.EventSeen(old(db.ShopView()), event) && CannotConfirm(old(db.ShopView()), db.kinds, ref)
    {
      if !succeeded || exists k :: 0 <= k < |db.purchases| && db.purchases[k].event == Some(event) {
        return Acknowledged;
      }
      var found := S.FindFrom(db.purchases, ref, 0);
      S.FindFromFinds(db.purchases, ref, 0);
      if found.None? {
        return UnknownIntent;
      }
      var p := db.purchases[found.value];
      if p.product !in db.kinds {
        return Failed;
      }
      var result := db.ConfirmAndGrant(ref, event, db.kinds[p.product], S.Slot(p.user, p.product));
      assert forall r :: 0 <= r < |old(db.purchases)| && Deliverable(old(db.purchases), event, ref, r) ==> S.OnlyPending(old(db.purchases), ref, r);
      return if result.UniqueViolation? then Failed else Acknowledged;
    }

    /** A product for points that the user does not own as an edit. */
    ghost predicate Offered(user: User, product: Product)
      reads db
    {
      product in db.kinds && product in pointsPrices && !(db.kinds[product].Edit? && S.Quantity(db.ShopView(), S.Slot(user, product)) > 0)
    }

    /** Spends points; the cached balance is deleted after the transaction unless that fails. */
    method PurchaseWithPoints(user: User, product: Product, deleteFails: bool) returns (reply: PurchaseReply)
      modifies db, cache
      ensures reply.ProductNotFound? <==> product !in db.kinds
      ensures reply.MoneyOnly? <==> product in db.kinds && product !in pointsPrices
      ensures reply.AlreadyOwned? <==>
                && product in db.kinds && product in pointsPrices
                && db.kinds[product] == S.Edit && S.Slot(user, product) in old(db.inventory) && old(db.inventory)[S.Slot(user, product)] > 0
      ensures reply.InsufficientPoints? <==>
                && product in db.kinds && product in pointsPrices && !reply.AlreadyOwned?
                && (user !in old(db.balance) || old(db.balance)[user] < pointsPrices[product])
      ensures reply.Done? ==>
                var price, slot, id := pointsPrices[product], S.Slot(user, product), |old(db.purchases)|;
                && db.balance == old(db.balance)[user := old(db.balance)[user] - price]
                && db.ledger == old(db.ledger) + [L.Row(user, -price, L.Reason("shop_spend"), Some(L.RefId(L.Decimal(id))))]
                && db.purchases == old(db.purchases) + [S.Purchase(user, product, S.Points, None, true, None)]
                && slot in db.inventory && db.inventory == old(db.inventory)[slot := db.inventory[slot]]
                && db.inventory[slot] == (if slot !in old(db.inventory) then 1
                                          else if db.kinds[product] == S.Distraction then old(db.inventory)[slot] + 1 else old(db.inventory)[slot])
      ensures reply.Done? <==> old(Offered(user, product)) && L.CanSpend(old(db.PointsView()), user, pointsPrices[product], |old(db.purchases)|)
      ensures !reply.Done? ==> db.ShopView() == old(db.ShopView()) && db.PointsView() == old(db.PointsView()) && cache.entries == old(cache.entries)
      ensures reply.Done? ==>
                && db.PointsView() == L.SpendTx(old(db.PointsView()), user, pointsPrices[product], |old(db.purchases)|)
                && db.ShopView() == S.BuyStep(old(db.ShopView()), db.kinds, user, product)
                && Operated(old(Project(db, cache, user, 0)), C.Credit(L.BalanceOf(db.PointsView(), user), !deleteFails), Project(db, cache, user, 0))
      ensures forall u :: u != user ==> Project(db, cache, u, 0) == old(Project(db, cache, u, 0))
      ensures old(Coherent(db, cache)) && !deleteFails ==> Coherent(db, cache)
    {
      if product !in db.kinds {
        return ProductNotFound;
      }
      if product !in pointsPrices {
        return MoneyOnly;
      }
      if db.kinds[product].Edit? {
        var owned := IsOwned(S.Slot(user, product));
        if owned {
          return AlreadyOwned;
        }
      }
      reply := Spend(user, product, deleteFails);
    }

    /** The transaction and the invalidation after it. */
    method Spend(user: User, product: Product, deleteFails: bool) returns (reply: PurchaseReply)
      requires product in db.kinds && product in pointsPrices
      modifies db, cache
      ensures reply.InsufficientPoints? <==> user !in old(db.balance) || old(db.balance)[user] < pointsPrices[product]
      ensures reply.Done? ==>
                var price, slot, id := pointsPrices[product], S.Slot(user, product), |old(db.purchases)|;
                && db.balance == old(db.balance)[user := old(db.balance)[user] - price]
                && db.ledger == old(db.ledger) + [L.Row(user, -price, L.Reason("shop_spend"), Some(L.RefId(L.Decimal(id))))]
                && db.purchases == old(db.purchases) + [S.Purchase(user, product, S.Points, None, true, None)]
                && slot in db.inventory && db.inventory == old(db.inventory)[slot := db.inventory[slot]]
                && db.inventory[slot] == (if slot !in old(db.inventory) then 1
                                          else if db.kinds[product] == S.Distraction then old(db.inventory)[slot] + 1 else old(db.inventory)[slot])
      ensures reply.Done? <==> L.CanSpend(old(db.PointsView()), user, pointsPrices[product], |old(db.purchases)|)
      ensures reply.InsufficientPoints? || reply.Done? || reply.PurchaseFailed?
      ensures !reply.Done? ==> db.ShopView() == old(db.ShopView()) && db.PointsView() == old(db.PointsView()) && cache.entries == old(cache.entries)
      ensures reply.Done? ==>
                && db.PointsView() == L.SpendTx(old(db.PointsView()), user, pointsPrices[product], |old(db.purchases)|)
                && db.ShopView() == S.BuyStep(old(db.ShopView()), db.kinds, user, product)
                && Operated(old(Project(db, cache, user, 0)), C.Credit(L.BalanceOf(db.PointsView(), user), !deleteFails), Project(db, cache, user, 0))
      ensures forall u :: u != user ==> Project(db, cache, u, 0) == old(Project(db, cache, u, 0))
      ensures old(Coherent(db, cache)) && !deleteFails ==> Coherent(db, cache)
    {
      ghost var before := Project(db, cache, user, 0);
      var result := db.PurchaseWithPoints(user, product, pointsPrices[product], db.kinds[product]);
      match result {
        case TooLittle => return InsufficientPoints;
        case LedgerConflict => return PurchaseFailed;
        case Spent(newBalance) =>
          if !deleteFails {
            cache.DeleteBalance(user);
          }
          C.CreditEffect(before, newBalance, !deleteFails);
          return Done;
      }
    }
  }

  // ---- Rewarded grants ------------------------------------------------------------------

  datatype LimiterReply = Allowed | Denied | LimiterFailed

  function CallsIn(calls: map<User, seq<R.Call>>, user: User): seq<R.Call> {
    if user in calls then calls[user] else []
  }

  /** The counters are those the users' calls lead to. */
  ghost predicate InStep(cap: int, window: int, calls: map<User, seq<R.Call>>, counters: map<User, R.Counter>) {
    forall u :: AgreesFor(cap, window, calls, counters, u)
  }

  predicate AgreesFor(cap: int, window: int, calls: map<User, seq<R.Call>>, counters: map<User, R.Counter>, u: User) {
    R.Run(cap, window, CallsIn(calls, u)).counter == if u in counters then Some(counters[u]) else None
  }

  /** The counters after one more call of a user. */
  lemma CounterAfter(cap: int, window: int, calls: map<User, seq<R.Call>>, counters: map<User, R.Counter>, user: User, call: R.Call, after: map<User, R.Counter>)
    requires AgreesFor(cap, window, calls, counters, user)
    requires R.AllowStep(R.Run(cap, window, CallsIn(calls, user)), cap, window, call).counter == if user in after then Some(after[user]) else None
    ensures AgreesFor(cap, window, calls[user := CallsIn(calls, user) + [call]], after, user)
  {
    R.RunTakesEachCall(cap, window, CallsIn(calls, user), call);
  }

  lemma OneMoreCall(cap: int, window: int, calls: map<User, seq<R.Call>>, counters: map<User, R.Counter>, user: User, call: R.Call, after: map<User, R.Counter>)
    requires InStep(cap, window, calls, counters)
    requires R.AllowStep(R.Run(cap, window, CallsIn(calls, user)), cap, window, call).counter == if user in after then Some(after[user]) else None
    requires forall u :: u != user ==> (u in after <==> u in counters) && (u in counters ==> after[u] == counters[u])
    ensures InStep(cap, window, calls[user := CallsIn(calls, user) + [call]], after)
    ensures R.Run(cap, window, CallsIn(calls[user := CallsIn(calls, user) + [call]], user)) == R.AllowStep(R.Run(cap, window, CallsIn(calls, user)), cap, window, call)
  {
    var calls' := calls[user := CallsIn(calls, user) + [call]];
    R.RunTakesEachCall(cap, window, CallsIn(calls, user), call);
    forall u ensures AgreesFor(cap, window, calls', after, u) {
      assert AgreesFor(cap, window, calls, counters, u);
      if u == user {
        CounterAfter(cap, window, calls, counters, user, call, after);
      } else {
        assert CallsIn(calls', u) == CallsIn(calls, u);
      }
    }
  }

  /** What the increment does to the counters, and the answer. */
  predicate Incremented(before: map<User, R.Counter>, after: map<User, R.Counter>, cap: int, window: int, user: User, call: R.Call, reply: LimiterReply) {
    if cap <= 0 then reply == Denied && after == before
    else if user in before && (!before[user].expires || call.at < before[user].startedAt + window)
    then
      && after == before[user := R.Counter(before[user].count + 1, before[user].startedAt, before[user].expires)]
      && reply == if before[user].count < cap then Allowed else Denied
    else
      && after == before[user := R.Counter(1, call.at, !call.expireFails)]
      && reply == if call.expireFails then LimiterFailed else Allowed
  }

  /** It is the step of the user's limiter, with its verdict. */
  lemma IncrementIsTheStep(l: R.Limiter, before: map<User, R.Counter>, after: map<User, R.Counter>, cap: int, window: int, user: User, call: R.Call,
                           reply: LimiterReply)
    requires l.counter == if user in before then Some(before[user]) else None
    requires Incremented(before, after, cap, window, user, call, reply)
    ensures R.AllowStep(l, cap, window, call).counter == if user in after then Some(after[user]) else None
    ensures reply.Allowed? <==> R.Allows(l, cap, window, call)
    ensures reply.LimiterFailed? <==> cap > 0 && call.expireFails && !R.Running(l, window, call.at)
  {
  }

  class RewardedRateLimiter {
    const cap: int
    const window: int
    var counters: map<User, R.Counter>
    ghost var calls: map<User, seq<R.Call>>

    ghost function CallsOf(user: User): seq<R.Call>
      reads this
    {
      CallsIn(calls, user)
    }

    /** The limiter of one user: the run of his calls. */
    ghost function View(user: User): R.Limiter
      reads this
    {
      R.Run(cap, window, CallsOf(user))
    }

    /** The counters are the current ones of the runs. */
    ghost predicate Valid()
      reads this
    {
      InStep(cap, window, calls, counters)
    }

    constructor (cap: int, window: int)
      ensures Valid() && this.cap == cap && this.window == window && (forall u :: CallsOf(u) == [])
    {
      this.cap, this.window, counters, calls := cap, window, map[], map[];
    }

    /** A failing EXPIRE is an error after the increment, and leaves a counter without one. */
    method Allow(user: User, now: int, expireFails: bool) returns (reply: LimiterReply)
      requires Valid()
      modifies this
      ensures Valid()
      ensures CallsOf(user) == old(CallsOf(user)) + [R.Call(now, expireFails)]
      ensures View(user) == R.AllowStep(old(View(user)), cap, window, R.Call(now, expireFails))
      ensures forall u :: u != user ==> CallsOf(u) == old(CallsOf(u))
      ensures reply.Allowed? <==> R.Allows(old(View(user)), cap, window, R.Call(now, expireFails))
      ensures reply.LimiterFailed? <==> cap > 0 && expireFails && !R.Running(old(View(user)), window, now)
      ensures var before := old(counters);
              if cap <= 0 then reply == Denied && counters == before
              else if user in before && (!before[user].expires || now < before[user].startedAt + window)
              then
                && counters == before[user := R.Counter(before[user].count + 1, before[user].startedAt, before[user].expires)]
                && reply == if before[user].count < cap then Allowed else Denied
              else
                && counters == before[user := R.Counter(1, now, !expireFails)]
                && reply == if expireFails then LimiterFailed else Allowed
    {
      ghost var call := R.Call(now, expireFails);
      ghost var was, before := counters, View(user);
      assert AgreesFor(cap, window, calls, counters, user);
      reply := Increment(user, now, expireFails);
      IncrementIsTheStep(before, was, counters, cap, window, user, call, reply);
      OneMoreCall(cap, window, calls, was, user, call, counters);
      calls := calls[user := CallsOf(user) + [call]];
    }

    /** The increment with its expiry, and the comparison with the cap. */
    method Increment(user: User, now: int, expireFails: bool) returns (reply: LimiterReply)
      modifies this`counters
      ensures Incremented(old(counters), counters, cap, window, user, R.Call(now, expireFails), reply)
    {
      if cap <= 0 {
        return Denied;
      }
      var n := 1;
      if user in counters && (!counters[user].expires || now < counters[user].startedAt + window) {
        n := counters[user].count + 1;
        counters := counters[user := counters[user].(count := n)];
      } else {
        counters := counters[user := R.Counter(1, now, !expireFails)];
        if expireFails {
          return LimiterFailed;
        }
      }
      return if n <= cap then Allowed else Denied;
    }
  }

  datatype RewardReply = Granted(quantity: nat) | RewardProductNotFound | NotGrantable | LimiterError | RateLimited | GrantFailed

  class RewardedService {
    const db: Database
    const limiter: RewardedRateLimiter
    const freeProducts: set<Product>
    ghost var granted: map<User, seq<bool>>

    /** Which of the user's attempts ended in a grant. */
    ghost function GrantedOf(user: User): seq<bool>
      reads this
    {
      if user in granted then granted[user] else []
    }

    /** Only allowed attempts did. */
    ghost predicate Valid()
      reads this, limiter
    {
      limiter.Valid() && forall u :: R.GrantsFollow(limiter.View(u).log, GrantedOf(u))
    }

    constructor (db: Database, limiter: RewardedRateLimiter, freeProducts: set<Product>)
      requires limiter.Valid() && forall u :: limiter.CallsOf(u) == []
      ensures Valid() && this.db == db && this.limiter == limiter && this.freeProducts == freeProducts
    {
      this.db, this.limiter, this.freeProducts, granted := db, limiter, freeProducts, map[];
    }

    predicate Grantable(product: Product) {
      product in db.kinds && db.kinds[product].Distraction? && product in freeProducts
    }

    /** Whether the limiter would allow a call now. */
    ghost predicate WouldAllow(user: User, call: R.Call)
      reads this, limiter
    {
      R.Allows(limiter.View(user), limiter.cap, limiter.window, call)
    }

    /** Asks the limiter, and notes whether the attempt will end in a grant. */
    method Consume(user: User, now: int, expireFails: bool, grantFails: bool) returns (answer: LimiterReply)
      requires Valid()
      modifies this`granted, limiter
      ensures Valid()
      ensures limiter.CallsOf(user) == old(limiter.CallsOf(user)) + [R.Call(now, expireFails)]
      ensures GrantedOf(user) == old(GrantedOf(user)) + [answer.Allowed? && !grantFails]
      ensures answer.Allowed? <==> old(WouldAllow(user, R.Call(now, expireFails)))
      ensures answer.LimiterFailed? <==> limiter.cap > 0 && expireFails && !R.Running(old(limiter.View(user)), limiter.window, now)
    {
      ghost var log, done := limiter.View(user).log, GrantedOf(user);
      assert R.GrantsFollow(log, done);
      R.AllowsIsTheVerdict(limiter.View(user), limiter.cap, limiter.window, R.Call(now, expireFails));
      answer := limiter.Allow(user, now, expireFails);
      granted := granted[user := done + [answer.Allowed? && !grantFails]];
      R.GrantsFollowOn(log, limiter.View(user).log, done, answer.Allowed? && !grantFails);
      forall u ensures R.GrantsFollow(limiter.View(u).log, GrantedOf(u)) {
        assert u != user ==> limiter.View(u) == old(limiter.View(u)) && GrantedOf(u) == old(GrantedOf(u));
        assert old(R.GrantsFollow(limiter.View(u).log, GrantedOf(u)));
      }
    }

    /** Only a free distraction, and exactly on an allowed attempt whose upsert does not fail. */
    method GrantFreeDistraction(user: User, product: Product, now: int, expireFails: bool, grantFails: bool) returns (reply: RewardReply)
      requires Valid()
      modifies this`granted, limiter, db`inventory, db`rewarded
      ensures Valid()
      ensures reply.RewardProductNotFound? <==> product !in db.kinds
      ensures reply.NotGrantable? <==> product in db.kinds && (db.kinds[product] == S.Edit || product !in freeProducts)
      ensures var before := old(limiter.counters);
              reply.Granted? <==>
                && product in db.kinds && db.kinds[product] == S.Distraction && product in freeProducts && limiter.cap > 0 && !grantFails
                && if user in before && (!before[user].expires || now < before[user].startedAt + limiter.window)
                   then before[user].count < limiter.cap else !expireFails
      ensures var slot, before := S.Slot(user, product), old(db.inventory);
              if reply.Granted?
              then reply.quantity == 1 + (if slot in before then before[slot] else 0) && db.inventory == before[slot := reply.quantity]
              else db.inventory == before
      ensures Grantable(product) ==>
                var call := R.Call(now, expireFails);
                var allowed := old(WouldAllow(user, call));
                && limiter.CallsOf(user) == old(limiter.CallsOf(user)) + [call]
                && GrantedOf(user) == old(GrantedOf(user)) + [reply.Granted?]
                && (reply.Granted? <==> allowed && !grantFails)
                && (reply.GrantFailed? <==> allowed && grantFails)
                && (reply.LimiterError? <==> limiter.cap > 0 && expireFails && !R.Running(old(limiter.View(user)), limiter.window, now))
                && (reply.RateLimited? <==> !allowed && !reply.LimiterError?)
      ensures !Grantable(product) ==> limiter.CallsOf(user) == old(limiter.CallsOf(user)) && granted == old(granted)
      ensures db.ShopView() == if reply.Granted? then S.RewardStep(old(db.ShopView()), db.kinds, user, product) else old(db.ShopView())
    {
      if product !in db.kinds {
        return RewardProductNotFound;
      }
      if db.kinds[product].Edit? || product !in freeProducts {
        return NotGrantable;
      }
      ghost var counter := limiter.View(user).counter;
      assert AgreesFor(limiter.cap, limiter.window, limiter.calls, limiter.counters, user);
      var answer := Consume(user, now, expireFails, grantFails);
      if answer.LimiterFailed? {
        return LimiterError;
      }
      if answer.Denied? {
        return RateLimited;
      }
      if grantFails {
        return GrantFailed;
      }
      var quantity := db.GrantFreeDistraction(user, product);
      return Granted(quantity);
    }

    /** However the calls came, every user's grants are within the limiter's bounds. */
    lemma GrantsStayBounded(user: User, from: int, to: int, w: nat)
      requires forall i, j :: 0 <= i < j < |limiter.CallsOf(user)| ==> limiter.CallsOf(user)[i].at <= limiter.CallsOf(user)[j].at
      requires Valid() && limiter.window > 0 && limiter.cap >= 0 && to - from <= limiter.window
      ensures |GrantedOf(user)| == |limiter.View(user).log|
      ensures var log, granted := limiter.View(user).log, GrantedOf(user);
              && |set k | 0 <= k < |log| && granted[k] && log[k].window == w| <= limiter.cap
              && |set k | 0 <= k < |log| && granted[k] && from <= log[k].at <= to| <= 2 * limiter.cap
    {
      R.GrantsAreBounded(limiter.cap, limiter.window, limiter.CallsOf(user), GrantedOf(user), from, to, w);
    }
  }
}
