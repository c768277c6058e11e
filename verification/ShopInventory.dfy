/** Purchases, webhook deliveries and the inventory they grant. */
module ShopInventory {
  import opened Options

  type User = int
  type Product = int
  type RowId = nat

  datatype Kind = Distraction | Edit
  datatype Provider = Stripe | Points
  datatype IntentId = IntentId(text: string)
  datatype EventId = EventId(text: string)

  datatype Slot = Slot(user: User, product: Product)

  /** `event` is the Stripe event that confirmed the row; `paid` is its status. */
  datatype Purchase = Purchase(user: User, product: Product, provider: Provider, ref: Option<IntentId>, paid: bool, event: Option<EventId>)

  /** How far one webhook delivery has got. */
  datatype Hook =
    | Received(event: EventId, ref: IntentId)
    | Unseen(event: EventId, ref: IntentId)
    | Found(event: EventId, ref: IntentId, row: RowId)
    | Handled

  /** `rewarded` counts the free grants per slot, `confirmed` lists the rows webhooks confirmed. */
  datatype Shop = Shop(
    purchases: seq<Purchase>,
    inventory: map<Slot, nat>,
    rewarded: multiset<Slot>,
    confirmed: seq<RowId>,
    hooks: seq<Hook>)

  datatype Event =
    | Initiate(user: User, product: Product, ref: IntentId)
    | Deliver(event: EventId, ref: IntentId)
    | HookStep(which: nat)
    | BuyWithPoints(user: User, product: Product)
    | Reward(user: User, product: Product)

  const EmptyShop := Shop([], map[], multiset{}, [], [])

  // ---- Statements -----------------------------------------------------------------------

  function Quantity(s: Shop, slot: Slot): nat {
    if slot in s.inventory then s.inventory[slot] else 0
  }

  /** A distraction stacks, an edit is owned once. */
  function Granted(inventory: map<Slot, nat>, kind: Kind, slot: Slot): map<Slot, nat> {
    if slot !in inventory then inventory[slot := 1]
    else if kind.Distraction? then inventory[slot := inventory[slot] + 1]
    else inventory
  }

  predicate RefTaken(s: Shop, ref: IntentId) {
    exists k :: 0 <= k < |s.purchases| && s.purchases[k].ref == Some(ref)
  }

  predicate EventSeen(s: Shop, event: EventId) {
    exists k :: 0 <= k < |s.purchases| && s.purchases[k].event == Some(event)
  }

  /** The first row with the reference at or after `from`. */
  function FindFrom(purchases: seq<Purchase>, ref: IntentId, from: nat): Option<RowId>
    decreases |purchases| - from
  {
    if from >= |purchases| then None
    else if purchases[from].ref == Some(ref) then Some(from)
    else FindFrom(purchases, ref, from + 1)
  }

  /** The rows the confirming UPDATE matches. */
  function Matching(s: Shop, ref: IntentId): set<RowId> {
    set k: nat | k < |s.purchases| && s.purchases[k].ref == Some(ref) && s.purchases[k].event.None?
  }

  /** The row is the one unconfirmed row of the intent. */
  ghost predicate OnlyPending(purchases: seq<Purchase>, ref: IntentId, row: int)
    requires 0 <= row < |purchases|
  {
    && purchases[row].ref == Some(ref) && purchases[row].event.None?
    && forall k :: 0 <= k < |purchases| && k != row ==> !(purchases[k].ref == Some(ref) && purchases[k].event.None?)
  }

  /** Confirm and grant in one transaction.  No row to confirm: nothing happens.  The event id is
      unique over all rows, so confirming two rows, or reusing a seen event, fails. */
  function ConfirmStep(s: Shop, ref: IntentId, event: EventId, kind: Kind, slot: Slot): Shop {
    var rows := Matching(s, ref);
    if |rows| != 1 || EventSeen(s, event) then s
    else
      var r := FirstOf(s, ref);
      s.(purchases := s.purchases[r := s.purchases[r].(paid := true, event := Some(event))],
         inventory := Granted(s.inventory, kind, slot),
         confirmed := s.confirmed + [r])
  }

  /** The row in a one-row match. */
  function FirstOf(s: Shop, ref: IntentId): RowId
    requires |Matching(s, ref)| == 1
    ensures FirstOf(s, ref) in Matching(s, ref)
  {
    ghost var some: RowId := Pick(Matching(s, ref));
    OnlyOne(Matching(s, ref));
    var r :| r in Matching(s, ref);
    r
  }

  lemma OnlyOne(rows: set<RowId>)
    requires |rows| == 1
    ensures forall a, b :: a in rows && b in rows ==> a == b
  {
    forall a, b | a in rows && b in rows ensures a == b {
      assert |rows - {a}| == 0;
    }
  }

  /** One pending row and an event no row has seen: the row ends paid by this event and the slot has
      one more distraction, or the edit. */
  lemma ConfirmEffect(s: Shop, ref: IntentId, event: EventId, kind: Kind, slot: Slot, row: RowId)
    requires row < |s.purchases| && s.purchases[row].ref == Some(ref) && s.purchases[row].event.None?
    requires forall k :: 0 <= k < |s.purchases| && k != row && s.purchases[k].ref == Some(ref) ==> s.purchases[k].event.Some?
    requires forall k :: 0 <= k < |s.purchases| ==> s.purchases[k].event != Some(event)
    ensures var s' := ConfirmStep(s, ref, event, kind, slot);
            && s'.purchases == s.purchases[row := s.purchases[row].(paid := true, event := Some(event))]
            && s'.confirmed == s.confirmed + [row] && s'.rewarded == s.rewarded && s'.hooks == s.hooks
            && slot in s'.inventory && s'.inventory == s.inventory[slot := s'.inventory[slot]]
            && s'.inventory[slot] == if slot !in s.inventory then 1 else if kind == Distraction then s.inventory[slot] + 1 else s.inventory[slot]
  {
    assert row in Matching(s, ref);
    assert Matching(s, ref) == {row};
  }

  lemma PendingRows(s: Shop, ref: IntentId)
    ensures (exists r :: 0 <= r < |s.purchases| && OnlyPending(s.purchases, ref, r)) <==> |Matching(s, ref)| == 1
    ensures forall r :: 0 <= r < |s.purchases| && OnlyPending(s.purchases, ref, r) ==> Matching(s, ref) == {r}
  {
    forall r | 0 <= r < |s.purchases| && OnlyPending(s.purchases, ref, r) ensures Matching(s, ref) == {r} {
    }
    if |Matching(s, ref)| == 1 {
      var r := FirstOf(s, ref);
      OnlyOne(Matching(s, ref));
      assert forall k :: 0 <= k < |s.purchases| && s.purchases[k].ref == Some(ref) && s.purchases[k].event.None? ==> k in Matching(s, ref);
      assert OnlyPending(s.purchases, ref, r);
    }
  }

  /** No pending row, several of them, or a seen event: nothing happens. */
  lemma ConfirmRefused(s: Shop, ref: IntentId, event: EventId, kind: Kind, slot: Slot)
    requires (exists k :: 0 <= k < |s.purchases| && s.purchases[k].event == Some(event))
             || !(exists r :: 0 <= r < |s.purchases| && OnlyPending(s.purchases, ref, r))
    ensures ConfirmStep(s, ref, event, kind, slot) == s
  {
    PendingRows(s, ref);
  }

  // ---- Steps ----------------------------------------------------------------------------

  /** A pending purchase; the payment provider mints a fresh intent id.  An owned edit is refused
      before that, outside any transaction, so this step can follow a check that no longer holds. */
  function InitiateStep(s: Shop, kinds: map<Product, Kind>, user: User, product: Product, ref: IntentId): Shop {
    if product !in kinds || RefTaken(s, ref) then s
    else s.(purchases := s.purchases + [Purchase(user, product, Stripe, Some(ref), false, None)])
  }

  /** The next statement of one webhook delivery: event check, lookup, then confirm and grant. */
  function HookAdvance(s: Shop, kinds: map<Product, Kind>, which: nat): Shop {
    if which >= |s.hooks| then s
    else match s.hooks[which]
      case Received(event, ref) =>
        s.(hooks := s.hooks[which := if EventSeen(s, event) then Handled else Unseen(event, ref)])
      case Unseen(event, ref) =>
        var found := FindFrom(s.purchases, ref, 0);
        s.(hooks := s.hooks[which := if found.Some? then Found(event, ref, found.value) else Handled])
      case Found(event, ref, row) =>
        var done := s.(hooks := s.hooks[which := Handled]);
        if row >= |s.purchases| || s.purchases[row].product !in kinds then done
        else ConfirmStep(done, ref, event, kinds[s.purchases[row].product], Slot(s.purchases[row].user, s.purchases[row].product))
      case Handled => s
  }

  function BuyStep(s: Shop, kinds: map<Product, Kind>, user: User, product: Product): Shop {
    if product !in kinds then s
    else s.(purchases := s.purchases + [Purchase(user, product, Points, None, true, None)],
            inventory := Granted(s.inventory, kinds[product], Slot(user, product)))
  }

  function RewardStep(s: Shop, kinds: map<Product, Kind>, user: User, product: Product): Shop {
    if product !in kinds || kinds[product].Edit? then s
    else s.(inventory := Granted(s.inventory, Distraction, Slot(user, product)), rewarded := s.rewarded + multiset{Slot(user, product)})
  }

  /** A pending purchase adds its row and grants nothing. */
  lemma InitiateEffect(s: Shop, kinds: map<Product, Kind>, user: User, product: Product, ref: IntentId)
    ensures var s' := Step(s, kinds, Initiate(user, product, ref));
            if product in kinds && forall k :: 0 <= k < |s.purchases| ==> s.purchases[k].ref != Some(ref)
            then s' == s.(purchases := s.purchases + [Purchase(user, product, Stripe, Some(ref), false, None)])
            else s' == s
  {
  }

  /** A points purchase adds a paid row and one more distraction, or the edit. */
  lemma BuyEffect(s: Shop, kinds: map<Product, Kind>, user: User, product: Product)
    ensures var s', slot := Step(s, kinds, BuyWithPoints(user, product)), Slot(user, product);
            if product in kinds
            then
              && s'.purchases == s.purchases + [Purchase(user, product, Points, None, true, None)]
              && slot in s'.inventory && s' == s.(purchases := s'.purchases, inventory := s.inventory[slot := s'.inventory[slot]])
              && s'.inventory[slot] == if slot !in s.inventory then 1 else if kinds[product] == Distraction then s.inventory[slot] + 1 else s.inventory[slot]
            else s' == s
  {
  }

  /** A rewarded grant is one more distraction, and never an edit. */
  lemma RewardEffect(s: Shop, kinds: map<Product, Kind>, user: User, product: Product)
    ensures var s', slot := Step(s, kinds, Reward(user, product)), Slot(user, product);
            if product in kinds && kinds[product] == Distraction
            then s' == s.(inventory := s.inventory[slot := 1 + if slot in s.inventory then s.inventory[slot] else 0],
                          rewarded := s.rewarded + multiset{slot})
            else s' == s
  {
  }

  /** The three statements of a delivery: a seen event ends it, the first row with the reference is
      found, and that row's product is confirmed and granted to that row's user. */
  lemma HookEffect(s: Shop, kinds: map<Product, Kind>, which: nat)
    requires which < |s.hooks|
    ensures var h, s' := s.hooks[which], Step(s, kinds, HookStep(which));
            && |s'.hooks| == |s.hooks| && s'.hooks == s.hooks[which := s'.hooks[which]]
            && (h.Received? ==>
                  && s' == s.(hooks := s'.hooks)
                  && s'.hooks[which] == if exists k :: 0 <= k < |s.purchases| && s.purchases[k].event == Some(h.event) then Handled else Unseen(h.event, h.ref))
            && (h.Unseen? ==>
                  && s' == s.(hooks := s'.hooks)
                  && (s'.hooks[which] == Handled || (s'.hooks[which].Found? && s'.hooks[which] == Found(h.event, h.ref, s'.hooks[which].row)))
                  && (s'.hooks[which] == Handled ==> forall k :: 0 <= k < |s.purchases| ==> s.purchases[k].ref != Some(h.ref))
                  && (s'.hooks[which].Found? ==>
                        var row := s'.hooks[which].row;
                        && row < |s.purchases| && s.purchases[row].ref == Some(h.ref)
                        && forall k :: 0 <= k < row ==> s.purchases[k].ref != Some(h.ref)))
            && (h.Found? && h.row < |s.purchases| && s.purchases[h.row].product in kinds ==>
                  var p := s.purchases[h.row];
                  && s'.hooks[which] == Handled
                  && s'.(hooks := s.hooks) == ConfirmStep(s, h.ref, h.event, kinds[p.product], Slot(p.user, p.product)))
  {
    var h := s.hooks[which];
    match h
    case Unseen(event, ref) => FindFromFinds(s.purchases, ref, 0);
    case Found(event, ref, row) =>
      if row < |s.purchases| && s.purchases[row].product in kinds {
        var p := s.purchases[row];
        ConfirmIgnoresHooks(s, s.(hooks := s.hooks[which := Handled]), ref, event, kinds[p.product], Slot(p.user, p.product));
      }
    case _ =>
  }

  function Step(s: Shop, kinds: map<Product, Kind>, e: Event): Shop {
    match e
    case Initiate(user, product, ref) => InitiateStep(s, kinds, user, product, ref)
    case Deliver(event, ref) => s.(hooks := s.hooks + [Received(event, ref)])
    case HookStep(which) => HookAdvance(s, kinds, which)
    case BuyWithPoints(user, product) => BuyStep(s, kinds, user, product)
    case Reward(user, product) => RewardStep(s, kinds, user, product)
  }

  function Run(kinds: map<Product, Kind>, es: seq<Event>): Shop {
    if es == [] then EmptyShop else Step(Run(kinds, es[..|es| - 1]), kinds, es[|es| - 1])
  }

  /** A delivery is received, and a run takes every event. */
  lemma RunTakesEachEvent(s: Shop, kinds: map<Product, Kind>, event: EventId, ref: IntentId, es: seq<Event>, e: Event)
    ensures Step(s, kinds, Deliver(event, ref)) == s.(hooks := s.hooks + [Received(event, ref)])
    ensures Run(kinds, []) == EmptyShop && Run(kinds, es + [e]) == Step(Run(kinds, es), kinds, e)
  {
    assert (es + [e])[..|es|] == es;
  }

  // ---- Counting -------------------------------------------------------------------------

  /** Paid rows of one slot that came from one provider. */
  function PaidBy(purchases: seq<Purchase>, provider: Provider, slot: Slot): nat {
    if purchases == [] then 0
    else PaidBy(purchases[..|purchases| - 1], provider, slot) + Counts(purchases[|purchases| - 1], provider, slot)
  }

  function Counts(p: Purchase, provider: Provider, slot: Slot): nat {
    if p.paid && p.provider == provider && Slot(p.user, p.product) == slot then 1 else 0
  }

  lemma {:induction false} PaidByUpdate(purchases: seq<Purchase>, r: RowId, p: Purchase, provider: Provider, slot: Slot)
    requires r < |purchases|
    ensures PaidBy(purchases[r := p], provider, slot) + Counts(purchases[r], provider, slot)
         == PaidBy(purchases, provider, slot) + Counts(p, provider, slot)
  {
    var n := |purchases| - 1;
    if r < n {
      assert purchases[r := p][..n] == purchases[..n][r := p];
      PaidByUpdate(purchases[..n], r, p, provider, slot);
    } else {
      assert purchases[r := p][..n] == purchases[..n];
    }
  }

  /** Together the two counts are the number of paid rows of the slot. */
  lemma {:induction false} PaidCounts(purchases: seq<Purchase>, slot: Slot)
    ensures |set k | 0 <= k < |purchases| && purchases[k].paid && purchases[k].user == slot.user && purchases[k].product == slot.product|
         == PaidBy(purchases, Stripe, slot) + PaidBy(purchases, Points, slot)
  {
    if purchases != [] {
      var n := |purchases| - 1;
      PaidCounts(purchases[..n], slot);
      var before := set k | 0 <= k < n && purchases[..n][k].paid && purchases[..n][k].user == slot.user && purchases[..n][k].product == slot.product;
      var here := if purchases[n].paid && purchases[n].user == slot.user && purchases[n].product == slot.product then {n} else {};
      assert (set k | 0 <= k < |purchases| && purchases[k].paid && purchases[k].user == slot.user && purchases[k].product == slot.product)
          == before + here;
    }
  }

  lemma PaidByAppend(purchases: seq<Purchase>, p: Purchase, provider: Provider, slot: Slot)
    ensures PaidBy(purchases + [p], provider, slot) == PaidBy(purchases, provider, slot) + Counts(p, provider, slot)
  {
    assert (purchases + [p])[..|purchases|] == purchases;
  }

  // ---- The invariant --------------------------------------------------------------------

  /** Distractions add up; an edit is owned once, and exactly when something was paid for it. */
  predicate SlotOk(s: Shop, kinds: map<Product, Kind>, slot: Slot) {
    var paid := PaidBy(s.purchases, Stripe, slot) + PaidBy(s.purchases, Points, slot);
    && (slot in s.inventory ==> s.inventory[slot] > 0)
    && if slot.product in kinds && kinds[slot.product].Distraction? then Quantity(s, slot) == paid + s.rewarded[slot]
    else Quantity(s, slot) == if paid > 0 then 1 else 0
  }

  /** Points rows are paid and carry no ids; a Stripe row is paid exactly when an event confirmed it. */
  predicate RowOk(p: Purchase, kinds: map<Product, Kind>) {
    && p.product in kinds
    && (if p.provider.Points? then p.paid && p.ref.None? && p.event.None? else p.ref.Some? && (p.paid <==> p.event.Some?))
  }

  predicate RefsUnique(s: Shop) {
    forall i, j :: 0 <= i < j < |s.purchases| && s.purchases[i].ref.Some? ==> s.purchases[i].ref != s.purchases[j].ref
  }

  /** The confirmed rows are the confirmed rows, each listed once. */
  ghost predicate ConfirmedOk(s: Shop) {
    && (forall i, j :: 0 <= i < j < |s.confirmed| ==> s.confirmed[i] != s.confirmed[j])
    && (forall r: nat :: r in s.confirmed <==> r < |s.purchases| && s.purchases[r].event.Some?)
  }

  predicate HookOk(s: Shop, h: Hook) {
    h.Found? ==> h.row < |s.purchases| && s.purchases[h.row].ref == Some(h.ref)
  }

  ghost predicate Inv(s: Shop, kinds: map<Product, Kind>) {
    && (forall slot :: SlotOk(s, kinds, slot))
    && (forall p :: p in s.purchases ==> RowOk(p, kinds))
    && RefsUnique(s) && ConfirmedOk(s)
    && (forall h :: h in s.hooks ==> HookOk(s, h))
  }

  // ---- Preservation ---------------------------------------------------------------------

  lemma AppendKeepsSlot(s: Shop, s': Shop, kinds: map<Product, Kind>, p: Purchase, slot: Slot)
    requires SlotOk(s, kinds, slot) && p.product in kinds
    requires s'.purchases == s.purchases + [p] && s'.rewarded == s.rewarded
    requires s'.inventory == if p.paid then Granted(s.inventory, kinds[p.product], Slot(p.user, p.product)) else s.inventory
    ensures SlotOk(s', kinds, slot)
  {
    PaidByAppend(s.purchases, p, Stripe, slot);
    PaidByAppend(s.purchases, p, Points, slot);
  }

  lemma AppendKeepsInv(s: Shop, s': Shop, kinds: map<Product, Kind>, p: Purchase)
    requires Inv(s, kinds) && RowOk(p, kinds) && p.event.None?
    requires p.ref.Some? ==> !RefTaken(s, p.ref.value)
    requires s'.purchases == s.purchases + [p] && s'.confirmed == s.confirmed && s'.hooks == s.hooks && s'.rewarded == s.rewarded
    requires s'.inventory == if p.paid then Granted(s.inventory, kinds[p.product], Slot(p.user, p.product)) else s.inventory
    ensures Inv(s', kinds)
  {
    forall slot ensures SlotOk(s', kinds, slot) {
      assert SlotOk(s, kinds, slot);
      AppendKeepsSlot(s, s', kinds, p, slot);
    }
    assert forall i :: 0 <= i < |s.purchases| && p.ref.Some? ==> s.purchases[i].ref != Some(p.ref.value);
  }

  lemma MatchIsTheRow(s: Shop, ref: IntentId, row: RowId)
    requires RefsUnique(s) && row < |s.purchases| && s.purchases[row].ref == Some(ref)
    ensures Matching(s, ref) == if s.purchases[row].event.None? then {row} else {}
  {
    forall k: nat | k < |s.purchases| && s.purchases[k].ref == Some(ref) ensures k == row {
    }
  }

  lemma ConfirmKeepsInv(s: Shop, kinds: map<Product, Kind>, ref: IntentId, event: EventId, row: RowId)
    requires Inv(s, kinds) && row < |s.purchases| && s.purchases[row].ref == Some(ref)
    ensures s.purchases[row] in s.purchases && s.purchases[row].product in kinds
    ensures Inv(ConfirmStep(s, ref, event, kinds[s.purchases[row].product], Slot(s.purchases[row].user, s.purchases[row].product)), kinds)
  {
    var p := s.purchases[row];
    assert p in s.purchases && RowOk(p, kinds);
    var s' := ConfirmStep(s, ref, event, kinds[p.product], Slot(p.user, p.product));
    MatchIsTheRow(s, ref, row);
    if |Matching(s, ref)| == 1 && !EventSeen(s, event) {
      var p' := p.(paid := true, event := Some(event));
      assert FirstOf(s, ref) == row;
      assert s'.purchases == s.purchases[row := p'];
      ConfirmKeepsSlots(s, s', kinds, row, p');
      assert forall q :: q in s'.purchases ==> q in s.purchases || q == p';
      ConfirmKeepsRows(s, s', row, p');
    }
  }

  lemma ConfirmKeepsSlots(s: Shop, s': Shop, kinds: map<Product, Kind>, row: RowId, p': Purchase)
    requires (forall slot :: SlotOk(s, kinds, slot)) && row < |s.purchases| && s.purchases[row].product in kinds
    requires s.purchases[row].provider.Stripe? && !s.purchases[row].paid
    requires p' == s.purchases[row].(paid := true, event := p'.event)
    requires s'.purchases == s.purchases[row := p'] && s'.rewarded == s.rewarded
    requires s'.inventory == Granted(s.inventory, kinds[p'.product], Slot(p'.user, p'.product))
    ensures forall slot :: SlotOk(s', kinds, slot)
  {
    forall slot ensures SlotOk(s', kinds, slot) {
      assert SlotOk(s, kinds, slot);
      PaidByUpdate(s.purchases, row, p', Stripe, slot);
      PaidByUpdate(s.purchases, row, p', Points, slot);
    }
  }

  lemma ConfirmKeepsRows(s: Shop, s': Shop, row: RowId, p': Purchase)
    requires RefsUnique(s) && ConfirmedOk(s) && (forall h :: h in s.hooks ==> HookOk(s, h))
    requires row < |s.purchases| && s.purchases[row].event.None?
    requires p'.ref == s.purchases[row].ref && p'.event.Some?
    requires s'.purchases == s.purchases[row := p'] && s'.confirmed == s.confirmed + [row] && s'.hooks == s.hooks
    ensures RefsUnique(s') && ConfirmedOk(s') && (forall h :: h in s'.hooks ==> HookOk(s', h))
  {
    assert row !in s.confirmed;
    assert forall r: nat :: r in s'.confirmed <==> r in s.confirmed || r == row;
    assert forall h :: h in s'.hooks ==> HookOk(s, h);
  }

  lemma {:induction false} FindFromFinds(purchases: seq<Purchase>, ref: IntentId, from: nat)
    ensures var found := FindFrom(purchases, ref, from);
            && (found.Some? ==> from <= found.value < |purchases| && purchases[found.value].ref == Some(ref))
            && forall k :: from <= k < (if found.Some? then found.value else |purchases|) ==> purchases[k].ref != Some(ref)
    decreases |purchases| - from
  {
    if from < |purchases| && purchases[from].ref != Some(ref) {
      FindFromFinds(purchases, ref, from + 1);
    }
  }

  /** Changing only the deliveries in flight. */
  lemma HooksKeepInv(s: Shop, s': Shop, kinds: map<Product, Kind>)
    requires Inv(s, kinds) && s' == s.(hooks := s'.hooks)
    requires forall h :: h in s'.hooks ==> h in s.hooks || HookOk(s, h)
    ensures Inv(s', kinds)
  {
    forall slot ensures SlotOk(s', kinds, slot) {
      assert SlotOk(s, kinds, slot);
    }
  }

  lemma HookKeepsInv(s: Shop, kinds: map<Product, Kind>, which: nat)
    requires Inv(s, kinds)
    ensures Inv(HookAdvance(s, kinds, which), kinds)
  {
    if which < |s.hooks| {
      var h := s.hooks[which];
      assert HookOk(s, h);
      match h
      case Found(event, ref, row) =>
        var done := s.(hooks := s.hooks[which := Handled]);
        HooksKeepInv(s, done, kinds);
        ConfirmKeepsInv(done, kinds, ref, event, row);
      case Unseen(event, ref) =>
        FindFromFinds(s.purchases, ref, 0);
        HooksKeepInv(s, HookAdvance(s, kinds, which), kinds);
      case _ =>
        HooksKeepInv(s, HookAdvance(s, kinds, which), kinds);
    }
  }

  lemma RewardKeepsInv(s: Shop, kinds: map<Product, Kind>, user: User, product: Product)
    requires Inv(s, kinds)
    ensures Inv(RewardStep(s, kinds, user, product), kinds)
  {
    var s' := RewardStep(s, kinds, user, product);
    forall slot ensures SlotOk(s', kinds, slot) {
      assert SlotOk(s, kinds, slot);
    }
  }

  lemma {:induction false} RunKeepsInv(kinds: map<Product, Kind>, es: seq<Event>)
    ensures Inv(Run(kinds, es), kinds)
  {
    if es == [] {
      assert forall slot :: SlotOk(EmptyShop, kinds, slot);
    } else {
      var s := Run(kinds, es[..|es| - 1]);
      RunKeepsInv(kinds, es[..|es| - 1]);
      match es[|es| - 1]
      case Initiate(user, product, ref) =>
        if InitiateStep(s, kinds, user, product, ref) != s {
          AppendKeepsInv(s, InitiateStep(s, kinds, user, product, ref), kinds, Purchase(user, product, Stripe, Some(ref), false, None));
        }
      case Deliver(event, ref) => HooksKeepInv(s, s.(hooks := s.hooks + [Received(event, ref)]), kinds);
      case HookStep(which) => HookKeepsInv(s, kinds, which);
      case BuyWithPoints(user, product) =>
        if product in kinds {
          AppendKeepsInv(s, BuyStep(s, kinds, user, product), kinds, Purchase(user, product, Points, None, true, None));
        }
      case Reward(user, product) => RewardKeepsInv(s, kinds, user, product);
    }
  }

  lemma ConfirmIgnoresHooks(s: Shop, s': Shop, ref: IntentId, event: EventId, kind: Kind, slot: Slot)
    requires s' == s.(hooks := s'.hooks)
    ensures ConfirmStep(s', ref, event, kind, slot) == ConfirmStep(s, ref, event, kind, slot).(hooks := s'.hooks)
  {
    assert Matching(s', ref) == Matching(s, ref);
    assert EventSeen(s', event) <==> EventSeen(s, event);
    if |Matching(s, ref)| == 1 {
      OnlyOne(Matching(s, ref));
      assert FirstOf(s', ref) == FirstOf(s, ref);
    }
  }

  /** Only the last delivery of the list moves. */
  lemma AdvanceLast(s: Shop, hooks: seq<Hook>, h: Hook, kinds: map<Product, Kind>)
    requires s.hooks == hooks + [h]
    ensures h.Received? ==> HookAdvance(s, kinds, |hooks|) == s.(hooks := hooks + [if EventSeen(s, h.event) then Handled else Unseen(h.event, h.ref)])
    ensures h.Unseen? ==> HookAdvance(s, kinds, |hooks|) == s.(hooks := hooks +
              [if FindFrom(s.purchases, h.ref, 0).Some? then Found(h.event, h.ref, FindFrom(s.purchases, h.ref, 0).value) else Handled])
    ensures h.Handled? ==> HookAdvance(s, kinds, |hooks|) == s
    ensures s.hooks[|hooks| := Handled] == hooks + [Handled]
  {
    assert forall x: Hook :: s.hooks[|hooks| := x] == hooks + [x];
  }

  // ---- Main results ---------------------------------------------------------------------

  /** For any number, order and interleaving of webhook deliveries, points purchases and rewarded
      grants: a distraction's quantity is its confirmed Stripe purchases plus its points purchases
      plus its grants, and an edit is owned once if it was ever paid for. */
  lemma {:induction false} InventoryIsConserved(kinds: map<Product, Kind>, es: seq<Event>, slot: Slot)
    requires slot.product in kinds
    ensures var s := Run(kinds, es);
            var paid := |set k | 0 <= k < |s.purchases| && s.purchases[k].paid
                                 && s.purchases[k].user == slot.user && s.purchases[k].product == slot.product|;
            var quantity := if slot in s.inventory then s.inventory[slot] else 0;
            && (kinds[slot.product] == Distraction ==> quantity == paid + s.rewarded[slot])
            && (kinds[slot.product] == Edit ==> quantity == (if paid > 0 then 1 else 0))
  {
    RunKeepsInv(kinds, es);
    PaidCounts(Run(kinds, es).purchases, slot);
    assert SlotOk(Run(kinds, es), kinds, slot);
  }

  /** A Stripe purchase is confirmed, and so grants, at most once, and a row is paid for exactly
      when it was. */
  lemma {:induction false} PurchasesGrantAtMostOnce(kinds: map<Product, Kind>, es: seq<Event>)
    ensures var s := Run(kinds, es);
            && (forall i, j :: 0 <= i < j < |s.confirmed| ==> s.confirmed[i] != s.confirmed[j])
            && (forall r: nat :: r < |s.purchases| && s.purchases[r].provider.Stripe? ==> (s.purchases[r].paid <==> r in s.confirmed))
  {
    RunKeepsInv(kinds, es);
    var s := Run(kinds, es);
    forall r: nat | r < |s.purchases| && s.purchases[r].provider.Stripe? ensures s.purchases[r].paid <==> r in s.confirmed {
      assert s.purchases[r] in s.purchases;
    }
  }

  /** Once a row is confirmed, a later delivery for it, by the same event or another, changes
      neither the purchases nor the inventory. */
  lemma RedeliveryGrantsNothing(s: Shop, kinds: map<Product, Kind>, ref: IntentId, event: EventId, kind: Kind, slot: Slot, row: RowId)
    requires Inv(s, kinds) && row < |s.purchases| && s.purchases[row].ref == Some(ref) && s.purchases[row].event.Some?
    ensures ConfirmStep(s, ref, event, kind, slot) == s
  {
    MatchIsTheRow(s, ref, row);
  }
}
