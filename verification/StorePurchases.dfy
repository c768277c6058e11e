/** Points and purchases together: every points purchase is in the ledger once, and nothing else
    is ever debited. */
module StorePurchases {
  import opened Options
  import L = PointsLedger
  import S = ShopInventory

  type User = int
  type Product = int

  datatype Store = Store(points: L.Points, shop: S.Shop)

  datatype Event =
    | Credit(row: L.Row)
    | Shop(event: S.Event)

  const EmptyStore := Store(L.NoPoints, S.EmptyShop)

  /** Debit, purchase, ledger row and grant are one transaction; the row's id is its reference. */
  function BuyTx(s: Store, kinds: map<Product, S.Kind>, prices: map<Product, int>, user: User, product: Product): Store {
    if product !in kinds || product !in prices || !L.CanSpend(s.points, user, prices[product], |s.shop.purchases|) then s
    else Store(L.SpendTx(s.points, user, prices[product], |s.shop.purchases|), S.BuyStep(s.shop, kinds, user, product))
  }

  function Step(s: Store, kinds: map<Product, S.Kind>, prices: map<Product, int>, e: Event): Store {
    match e
    case Credit(row) => s.(points := L.CreditTx(s.points, row))
    case Shop(BuyWithPoints(user, product)) => BuyTx(s, kinds, prices, user, product)
    case Shop(event) => s.(shop := S.Step(s.shop, kinds, event))
  }

  function Run(kinds: map<Product, S.Kind>, prices: map<Product, int>, es: seq<Event>): Store {
    if es == [] then EmptyStore else Step(Run(kinds, prices, es[..|es| - 1]), kinds, prices, es[|es| - 1])
  }

  predicate PositiveCredits(es: seq<Event>) {
    forall k :: 0 <= k < |es| && es[k].Credit? ==> es[k].row.delta > 0
  }

  /** A purchase for points needs a price, a balance of at least it, and a reference not yet in the
      ledger: then the balance falls by exactly the price, one ledger row says so, one paid row is
      added, and the product is granted; otherwise nothing changes. */
  lemma PurchaseEffect(s: Store, kinds: map<Product, S.Kind>, prices: map<Product, int>, user: User, product: Product)
    ensures var s' := Step(s, kinds, prices, Shop(S.BuyWithPoints(user, product)));
            var slot, ref := S.Slot(user, product), Some(L.RefId(L.Decimal(|s.shop.purchases|)));
            if && product in kinds && product in prices && user in s.points.balance && s.points.balance[user] >= prices[product]
               && !(exists r :: r in s.points.ledger && r.user == user && r.reason == L.Reason("shop_spend") && r.ref == ref)
            then
              && s'.points.balance == s.points.balance[user := s.points.balance[user] - prices[product]]
              && s'.points.ledger == s.points.ledger + [L.Row(user, -prices[product], L.Reason("shop_spend"), ref)]
              && s'.shop.purchases == s.shop.purchases + [S.Purchase(user, product, S.Points, None, true, None)]
              && slot in s'.shop.inventory && s'.shop.inventory == s.shop.inventory[slot := s'.shop.inventory[slot]]
              && s'.shop.inventory[slot] == (if slot !in s.shop.inventory then 1
                                             else if kinds[product] == S.Distraction then s.shop.inventory[slot] + 1 else s.shop.inventory[slot])
            else s' == s
  {
    if product in kinds && product in prices {
      L.SpendTxEffect(s.points, user, prices[product], |s.shop.purchases|);
      S.BuyEffect(s.shop, kinds, user, product);
      L.CanSpendIff(s.points, user, prices[product], |s.shop.purchases|);
    }
  }

  /** Credits and everything else in the shop take their own steps, and a run takes every event. */
  lemma OtherEventsEffect(s: Store, kinds: map<Product, S.Kind>, prices: map<Product, int>, row: L.Row, e: S.Event, es: seq<Event>, last: Event)
    ensures Step(s, kinds, prices, Credit(row)) == Store(L.CreditTx(s.points, row), s.shop)
    ensures !e.BuyWithPoints? ==> Step(s, kinds, prices, Shop(e)) == Store(s.points, S.Step(s.shop, kinds, e))
    ensures Run(kinds, prices, []) == EmptyStore && Run(kinds, prices, es + [last]) == Step(Run(kinds, prices, es), kinds, prices, last)
  {
    assert (es + [last])[..|es|] == es;
  }

  // ---- The invariant --------------------------------------------------------------------

  /** Ledger row `i` pays for purchase `k`. */
  predicate Pays(s: Store, prices: map<Product, int>, i: nat, k: nat) {
    && i < |s.points.ledger| && k < |s.shop.purchases| && s.shop.purchases[k].provider.Points?
    && s.shop.purchases[k].product in prices
    && s.points.ledger[i] == L.SpendRow(s.shop.purchases[k].user, prices[s.shop.purchases[k].product], k)
  }

  predicate IsPaid(s: Store, prices: map<Product, int>, k: nat) {
    exists i :: 0 <= i < |s.points.ledger| && Pays(s, prices, i, k)
  }

  predicate IsPayment(s: Store, prices: map<Product, int>, i: nat) {
    exists k :: 0 <= k < |s.shop.purchases| && Pays(s, prices, i, k)
  }

  ghost predicate Inv(s: Store, prices: map<Product, int>) {
    && L.LedgerOk(s.points)
    && (forall k :: 0 <= k < |s.shop.purchases| && s.shop.purchases[k].provider.Points? ==> IsPaid(s, prices, k))
    && (forall i :: 0 <= i < |s.points.ledger| && s.points.ledger[i].delta < 0 ==> IsPayment(s, prices, i))
  }

  /** Rows are never removed, and what they were bought for never changes. */
  predicate RowsStay(before: seq<S.Purchase>, after: seq<S.Purchase>) {
    && |before| <= |after|
    && forall k :: 0 <= k < |before| ==>
         after[k].user == before[k].user && after[k].product == before[k].product && after[k].provider == before[k].provider
  }

  lemma PaymentsStay(s: Store, s': Store, prices: map<Product, int>)
    requires s.points.ledger <= s'.points.ledger && RowsStay(s.shop.purchases, s'.shop.purchases)
    ensures forall k: nat :: IsPaid(s, prices, k) ==> IsPaid(s', prices, k)
    ensures forall i: nat :: IsPayment(s, prices, i) ==> IsPayment(s', prices, i)
  {
    forall k: nat | IsPaid(s, prices, k) ensures IsPaid(s', prices, k) {
      var i :| 0 <= i < |s.points.ledger| && Pays(s, prices, i, k);
      assert Pays(s', prices, i, k);
    }
    forall i: nat | IsPayment(s, prices, i) ensures IsPayment(s', prices, i) {
      var k :| 0 <= k < |s.shop.purchases| && Pays(s, prices, i, k);
      assert Pays(s', prices, i, k);
    }
  }

  lemma ShopKeepsRows(s: S.Shop, kinds: map<Product, S.Kind>, e: S.Event)
    requires !e.BuyWithPoints?
    ensures RowsStay(s.purchases, S.Step(s, kinds, e).purchases)
    ensures forall k :: |s.purchases| <= k < |S.Step(s, kinds, e).purchases| ==> S.Step(s, kinds, e).purchases[k].provider.Stripe?
  {
    match e
    case HookStep(which) => HookKeepsRows(s, kinds, which);
    case _ =>
  }

  lemma HookKeepsRows(s: S.Shop, kinds: map<Product, S.Kind>, which: nat)
    ensures RowsStay(s.purchases, S.HookAdvance(s, kinds, which).purchases)
    ensures |S.HookAdvance(s, kinds, which).purchases| == |s.purchases|
  {
  }

  lemma CreditKeepsInv(s: Store, prices: map<Product, int>, row: L.Row)
    requires Inv(s, prices) && row.delta > 0
    ensures Inv(s.(points := L.CreditTx(s.points, row)), prices)
  {
    var s' := s.(points := L.CreditTx(s.points, row));
    assert L.BalanceOk(s.points, row.user);
    PaymentsStay(s, s', prices);
    if !L.Conflicts(s.points, row) {
      L.PostKeepsLedger(s.points, row);
      forall i | 0 <= i < |s'.points.ledger| && s'.points.ledger[i].delta < 0 ensures IsPayment(s', prices, i) {
        assert i < |s.points.ledger| && s.points.ledger[i].delta < 0;
      }
    }
  }

  lemma BuyKeepsInv(s: Store, kinds: map<Product, S.Kind>, prices: map<Product, int>, user: User, product: Product)
    requires Inv(s, prices)
    ensures Inv(BuyTx(s, kinds, prices, user, product), prices)
  {
    var s' := BuyTx(s, kinds, prices, user, product);
    var n, m := |s.shop.purchases|, |s.points.ledger|;
    if product in kinds && product in prices && L.CanSpend(s.points, user, prices[product], n) {
      L.PostKeepsLedger(s.points, L.SpendRow(user, prices[product], n));
      PaymentsStay(s, s', prices);
      assert Pays(s', prices, m, n);
      forall k | 0 <= k < |s'.shop.purchases| && s'.shop.purchases[k].provider.Points? ensures IsPaid(s', prices, k) {
        assert k < n ==> IsPaid(s, prices, k);
      }
      forall i | 0 <= i < |s'.points.ledger| && s'.points.ledger[i].delta < 0 ensures IsPayment(s', prices, i) {
        assert i < m ==> s.points.ledger[i].delta < 0 && IsPayment(s, prices, i);
      }
    }
  }

  lemma {:induction false} RunKeepsInv(kinds: map<Product, S.Kind>, prices: map<Product, int>, es: seq<Event>)
    requires PositiveCredits(es)
    ensures Inv(Run(kinds, prices, es), prices)
  {
    if es == [] {
      assert forall u :: L.BalanceOk(L.NoPoints, u);
    } else {
      var s := Run(kinds, prices, es[..|es| - 1]);
      RunKeepsInv(kinds, prices, es[..|es| - 1]);
      match es[|es| - 1]
      case Credit(row) => CreditKeepsInv(s, prices, row);
      case Shop(BuyWithPoints(user, product)) => BuyKeepsInv(s, kinds, prices, user, product);
      case Shop(event) =>
        ShopKeepsRows(s.shop, kinds, event);
        PaymentsStay(s, Run(kinds, prices, es), prices);
    }
  }

  // ---- Main results ---------------------------------------------------------------------

  /** In every reachable state each points purchase has exactly one ledger row under its own
      reference, the debit of its price. */
  lemma {:induction false} EveryPurchaseIsPaidOnce(kinds: map<Product, S.Kind>, prices: map<Product, int>, es: seq<Event>, k: nat)
    requires forall k :: 0 <= k < |es| && es[k].Credit? ==> es[k].row.delta > 0
    requires var s := Run(kinds, prices, es); k < |s.shop.purchases| && s.shop.purchases[k].provider.Points?
    ensures var s := Run(kinds, prices, es);
            var user, reason, ref := s.shop.purchases[k].user, L.Reason("shop_spend"), Some(L.RefId(L.Decimal(k)));
            && s.shop.purchases[k].product in prices
            && exists i ::
                 && 0 <= i < |s.points.ledger|
                 && s.points.ledger[i] == L.Row(user, -prices[s.shop.purchases[k].product], reason, ref)
                 && forall j :: 0 <= j < |s.points.ledger| && j != i ==>
                      s.points.ledger[j].user != user || s.points.ledger[j].reason != reason || s.points.ledger[j].ref != ref
  {
    RunKeepsInv(kinds, prices, es);
    var s := Run(kinds, prices, es);
    assert IsPaid(s, prices, k);
    var i :| 0 <= i < |s.points.ledger| && Pays(s, prices, i, k);
    var key := L.Key(s.shop.purchases[k].user, L.SHOP_SPEND, L.RefId(L.Decimal(k)));
    assert L.Covers(s.points.ledger[i], key);
    forall j | 0 <= j < |s.points.ledger| && j != i ensures !L.Covers(s.points.ledger[j], key) {
    }
  }

  /** And every debit in the ledger pays for a points purchase. */
  lemma {:induction false} EveryDebitIsAPurchase(kinds: map<Product, S.Kind>, prices: map<Product, int>, es: seq<Event>, i: nat)
    requires forall k :: 0 <= k < |es| && es[k].Credit? ==> es[k].row.delta > 0
    requires var s := Run(kinds, prices, es); i < |s.points.ledger| && s.points.ledger[i].delta < 0
    ensures var s := Run(kinds, prices, es);
            exists k ::
              && 0 <= k < |s.shop.purchases| && s.shop.purchases[k].provider.Points? && s.shop.purchases[k].product in prices
              && s.points.ledger[i] == L.Row(s.shop.purchases[k].user, -prices[s.shop.purchases[k].product],
                                             L.Reason("shop_spend"), Some(L.RefId(L.Decimal(k))))
  {
    RunKeepsInv(kinds, prices, es);
    assert IsPayment(Run(kinds, prices, es), prices, i);
  }

  // ---- References of purchases ----------------------------------------------------------

  /** Credits use other reasons. */
  predicate CreditsAreNoSpends(es: seq<Event>) {
    forall k :: 0 <= k < |es| && es[k].Credit? ==> es[k].row.reason != L.Reason("shop_spend")
  }

  predicate NamesAPurchase(s: Store, row: L.Row) {
    exists k: nat :: k < |s.shop.purchases| && row.ref == Some(L.RefId(L.Decimal(k)))
  }

  ghost predicate SpendsNamePurchases(s: Store) {
    forall r :: r in s.points.ledger && r.reason == L.Reason("shop_spend") ==> NamesAPurchase(s, r)
  }

  lemma StepNamesPurchases(s: Store, kinds: map<Product, S.Kind>, prices: map<Product, int>, e: Event)
    requires SpendsNamePurchases(s) && (e.Credit? ==> e.row.reason != L.Reason("shop_spend"))
    ensures SpendsNamePurchases(Step(s, kinds, prices, e))
  {
    var s' := Step(s, kinds, prices, e);
    match e
    case Credit(row) =>
      L.CreditTxEffect(s.points, row);
      assert forall r :: r in s'.points.ledger ==> r in s.points.ledger || r == row;
    case Shop(BuyWithPoints(user, product)) =>
      PurchaseEffect(s, kinds, prices, user, product);
      assert forall r :: r in s.points.ledger && NamesAPurchase(s, r) ==> NamesAPurchase(s', r);
      assert |s'.shop.purchases| > |s.shop.purchases| ==> forall r :: r in s'.points.ledger && r !in s.points.ledger ==> NamesAPurchase(s', r);
    case Shop(event) =>
      ShopKeepsRows(s.shop, kinds, event);
      assert forall r :: NamesAPurchase(s, r) ==> NamesAPurchase(s', r);
  }

  lemma {:induction false} RunNamesPurchases(kinds: map<Product, S.Kind>, prices: map<Product, int>, es: seq<Event>)
    requires CreditsAreNoSpends(es)
    ensures SpendsNamePurchases(Run(kinds, prices, es))
  {
    if es != [] {
      RunNamesPurchases(kinds, prices, es[..|es| - 1]);
      StepNamesPurchases(Run(kinds, prices, es[..|es| - 1]), kinds, prices, es[|es| - 1]);
    }
  }

  /** The reference of the next purchase is never taken, as decimals of different rows differ: in
      every reachable state a purchase for points goes through exactly when the balance covers it. */
  lemma {:induction false} OnlyTheBalanceDecides(kinds: map<Product, S.Kind>, prices: map<Product, int>, es: seq<Event>, user: User, product: Product)
    requires forall k :: 0 <= k < |es| && es[k].Credit? ==> es[k].row.reason != L.Reason("shop_spend")
    requires product in kinds && product in prices
    ensures var s := Run(kinds, prices, es);
            var s' := Step(s, kinds, prices, Shop(S.BuyWithPoints(user, product)));
            if user in s.points.balance && s.points.balance[user] >= prices[product]
            then |s'.shop.purchases| == |s.shop.purchases| + 1 && s'.points.balance == s.points.balance[user := s.points.balance[user] - prices[product]]
            else s' == s
  {
    var s := Run(kinds, prices, es);
    RunNamesPurchases(kinds, prices, es);
    PurchaseEffect(s, kinds, prices, user, product);
    forall r | r in s.points.ledger && r.reason == L.Reason("shop_spend") ensures r.ref != Some(L.RefId(L.Decimal(|s.shop.purchases|))) {
      var k: nat :| k < |s.shop.purchases| && r.ref == Some(L.RefId(L.Decimal(k)));
      if L.Decimal(k) == L.Decimal(|s.shop.purchases|) {
        L.DecimalIsInjective(k, |s.shop.purchases|);
      }
    }
  }
}
