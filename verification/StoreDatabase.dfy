/** The store's tables and the transactions on them, statement by statement. */
module StoreDatabase {
  import opened Options
  import L = PointsLedger
  import S = ShopInventory

  type User = int
  type Product = int

  /** A debit refused for its balance, or rolled back for its ledger reference. */
  datatype Spending = Spent(newBalance: int) | TooLittle | LedgerConflict

  datatype Confirmation = Confirmed | AlreadyProcessed | UniqueViolation

  class Database {
    const kinds: map<Product, S.Kind>
    var balance: map<User, int>
    var ledger: seq<L.Row>
    var purchases: seq<S.Purchase>
    var inventory: map<S.Slot, nat>
    ghost var rewarded: multiset<S.Slot>
    ghost var confirmed: seq<S.RowId>

    ghost function PointsView(): L.Points
      reads this
    {
      L.Points(balance, ledger)
    }

    ghost function ShopView(): S.Shop
      reads this
    {
      S.Shop(purchases, inventory, rewarded, confirmed, [])
    }

    constructor (kinds: map<Product, S.Kind>)
      ensures this.kinds == kinds && PointsView() == L.NoPoints && ShopView() == S.EmptyShop
    {
      this.kinds := kinds;
      balance, ledger, purchases, inventory, rewarded, confirmed := map[], [], [], map[], multiset{}, [];
    }

    /** ON CONFLICT DO NOTHING: whether the row went in. */
    method InsertLedger(row: L.Row) returns (inserted: bool)
      modifies this`ledger
      ensures inserted <==> !L.Conflicts(old(PointsView()), row)
      ensures ledger == if inserted then old(ledger) + [row] else old(ledger)
      ensures !inserted <==> row.ref.Some? && exists r :: r in old(ledger) && r.user == row.user && r.reason == row.reason && r.ref == row.ref
    {
      var k := 0;
      while k < |ledger|
        invariant 0 <= k <= |ledger|
        invariant row.ref.Some? ==> forall i :: 0 <= i < k ==> !L.Covers(ledger[i], L.Key(row.user, row.reason, row.ref.value))
      {
        if row.ref.Some? && L.Covers(ledger[k], L.Key(row.user, row.reason, row.ref.value)) {
          return false;
        }
        k := k + 1;
      }
      ledger := ledger + [row];
      return true;
    }

    /** The credit transaction; the caller learns the balance and whether anything was added.  A
        reference the user already has under this reason adds nothing; anything else adds one row
        and its amount. */
    method Credit(user: User, delta: int, reason: L.Reason, ref: L.RefId) returns (newBalance: int, applied: bool)
      modifies this`balance, this`ledger
      ensures var row := L.Row(user, delta, reason, L.RefArg(ref));
              && PointsView() == L.CreditTx(old(PointsView()), row)
              && (applied <==> !L.Conflicts(old(PointsView()), row))
      ensures newBalance == L.BalanceOf(PointsView(), user)
      ensures !applied <==> ref.text != "" && exists r :: r in old(ledger) && r.user == user && r.reason == reason && r.ref == Some(ref)
      ensures applied ==>
                && ledger == old(ledger) + [L.Row(user, delta, reason, if ref.text == "" then None else Some(ref))]
                && balance == old(balance)[user := newBalance]
                && newBalance == delta + if user in old(balance) then old(balance)[user] else 0
      ensures !applied ==> ledger == old(ledger) && balance == old(balance)
    {
      applied := InsertLedger(L.Row(user, delta, reason, L.RefArg(ref)));
      if !applied {
        newBalance := if user in balance then balance[user] else 0;
        return;
      }
      newBalance := delta + if user in balance then balance[user] else 0;
      balance := balance[user := newBalance];
    }

    method GetBalance(user: User) returns (value: int)
      ensures value == if user in balance then balance[user] else 0
    {
      value := if user in balance then balance[user] else 0;
    }

    method UpsertInventory(kind: S.Kind, slot: S.Slot)
      modifies this`inventory
      ensures inventory == S.Granted(old(inventory), kind, slot)
      ensures inventory == if slot !in old(inventory) then old(inventory)[slot := 1]
                           else if kind.Distraction? then old(inventory)[slot := old(inventory)[slot] + 1] else old(inventory)
    {
      if slot !in inventory {
        inventory := inventory[slot := 1];
      } else if kind.Distraction? {
        inventory := inventory[slot := inventory[slot] + 1];
      }
    }

    /** Debit, purchase row, ledger row and grant together, or none of them: an uncovered balance
        or a taken reference rolls everything back. */
    method PurchaseWithPoints(user: User, product: Product, price: int, kind: S.Kind) returns (result: Spending)
      requires product in kinds && kinds[product] == kind
      modifies this
      ensures result.Spent? <==> L.CanSpend(old(PointsView()), user, price, |old(purchases)|)
      ensures result.TooLittle? <==> !L.Covered(old(PointsView()), user, price)
      ensures PointsView() == L.SpendTx(old(PointsView()), user, price, |old(purchases)|)
      ensures ShopView() == if result.Spent? then S.BuyStep(old(ShopView()), kinds, user, product) else old(ShopView())
      ensures result.Spent? ==> result.newBalance == L.BalanceOf(PointsView(), user)
      ensures result.TooLittle? <==> user !in old(balance) || old(balance)[user] < price
      ensures result.LedgerConflict? <==>
                && !result.TooLittle?
                && exists r ::
                     r in old(ledger) && r.user == user && r.reason == L.Reason("shop_spend") && r.ref == Some(L.RefId(L.Decimal(|old(purchases)|)))
      ensures result.Spent? ==>
                && result.newBalance == old(balance)[user] - price >= 0 && balance == old(balance)[user := result.newBalance]
                && ledger == old(ledger) + [L.Row(user, -price, L.Reason("shop_spend"), Some(L.RefId(L.Decimal(|old(purchases)|))))]
                && purchases == old(purchases) + [S.Purchase(user, product, S.Points, None, true, None)]
                && inventory == (if S.Slot(user, product) !in old(inventory) then old(inventory)[S.Slot(user, product) := 1]
                                 else if kind.Distraction? then old(inventory)[S.Slot(user, product) := old(inventory)[S.Slot(user, product)] + 1]
                                 else old(inventory))
      ensures !result.Spent? ==> balance == old(balance) && ledger == old(ledger) && purchases == old(purchases) && inventory == old(inventory)
    {
      if user !in balance || balance[user] < price {
        return TooLittle;
      }
      var savedBalance, savedPurchases := balance, purchases;
      balance := balance[user := balance[user] - price];
      purchases := purchases + [S.Purchase(user, product, S.Points, None, true, None)];
      var inserted := InsertLedger(L.SpendRow(user, price, |savedPurchases|));
      if !inserted {
        balance, purchases := savedBalance, savedPurchases;
        return LedgerConflict;
      }
      UpsertInventory(kind, S.Slot(user, product));
      return Spent(balance[user]);
    }

    method CreatePurchase(user: User, product: Product, ref: S.IntentId)
      modifies this`purchases
      ensures purchases == old(purchases) + [S.Purchase(user, product, S.Stripe, Some(ref), false, None)]
    {
      purchases := purchases + [S.Purchase(user, product, S.Stripe, Some(ref), false, None)];
    }

    /** Confirm the pending rows of an intent and grant, in one transaction. */
    method ConfirmAndGrant(ref: S.IntentId, event: S.EventId, kind: S.Kind, slot: S.Slot) returns (result: Confirmation)
      modifies this
      ensures ShopView() == S.ConfirmStep(old(ShopView()), ref, event, kind, slot)
      ensures PointsView() == old(PointsView())
      ensures result.Confirmed? <==> |S.Matching(old(ShopView()), ref)| == 1 && !S.EventSeen(old(ShopView()), event)
      ensures result.AlreadyProcessed? <==> S.Matching(old(ShopView()), ref) == {}
      ensures result.Confirmed? <==>
                && (forall k :: 0 <= k < |old(purchases)| ==> old(purchases)[k].event != Some(event))
                && (exists r :: 0 <= r < |old(purchases)| && S.OnlyPending(old(purchases), ref, r))
      ensures forall r :: 0 <= r < |old(purchases)| && S.OnlyPending(old(purchases), ref, r) && result.Confirmed? ==>
                && purchases == old(purchases)[r := old(purchases)[r].(paid := true, event := Some(event))]
                && confirmed == old(confirmed) + [r]
                && inventory == (if slot !in old(inventory) then old(inventory)[slot := 1]
                                 else if kind.Distraction? then old(inventory)[slot := old(inventory)[slot] + 1] else old(inventory))
      ensures !result.Confirmed? ==> purchases == old(purchases) && inventory == old(inventory) && confirmed == old(confirmed)
    {
      S.PendingRows(ShopView(), ref);
      var rows := set k: nat | k < |purchases| && purchases[k].ref == Some(ref) && purchases[k].event.None?;
      assert rows == S.Matching(ShopView(), ref);
      if rows == {} {
        return AlreadyProcessed;
      }
      if |rows| > 1 || exists k :: 0 <= k < |purchases| && purchases[k].event == Some(event) {
        return UniqueViolation;
      }
      S.OnlyOne(rows);
      ghost var some: nat := Pick(rows);
      var r :| r in rows;
      assert r == S.FirstOf(ShopView(), ref);
      purchases := purchases[r := purchases[r].(paid := true, event := Some(event))];
      UpsertInventory(kind, slot);
      confirmed := confirmed + [r];
      return Confirmed;
    }

    method GrantFreeDistraction(user: User, product: Product) returns (quantity: nat)
      requires product in kinds && kinds[product].Distraction?
      modifies this`inventory, this`rewarded
      ensures ShopView() == S.RewardStep(old(ShopView()), kinds, user, product)
      ensures var slot := S.Slot(user, product);
              && quantity == 1 + (if slot in old(inventory) then old(inventory)[slot] else 0)
              && inventory == old(inventory)[slot := quantity] && rewarded == old(rewarded) + multiset{slot}
    {
      UpsertInventory(S.Distraction, S.Slot(user, product));
      rewarded := rewarded + multiset{S.Slot(user, product)};
      quantity := inventory[S.Slot(user, product)];
    }
  }
}
