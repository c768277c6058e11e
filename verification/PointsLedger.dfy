/** The points ledger and the balances kept beside it. */
module PointsLedger {
  import opened Options

  type User = int

  datatype Reason = Reason(name: string)
  datatype RefId = RefId(text: string)

  const SHOP_SPEND := Reason("shop_spend")

  /** What the unique index on the ledger covers: rows with a reference. */
  datatype Key = Key(user: User, reason: Reason, ref: RefId)

  datatype Row = Row(user: User, delta: int, reason: Reason, ref: Option<RefId>)

  datatype Points = Points(balance: map<User, int>, ledger: seq<Row>)

  const NoPoints := Points(map[], [])

  function Decimal(n: nat): string {
    if n < 10 then [['0', '1', '2', '3', '4', '5', '6', '7', '8', '9'][n]] else Decimal(n / 10) + Decimal(n % 10)
  }

  /** What a string of digits stands for. */
  function ValueOf(digits: string): int {
    if digits == "" then 0 else 10 * ValueOf(digits[..|digits| - 1]) + (digits[|digits| - 1] as int - '0' as int)
  }

  /** The decimal form: digits only, no leading zero, and it reads back as the number. */
  lemma {:induction false} DecimalReadsBack(n: nat)
    ensures Decimal(n) != "" && ValueOf(Decimal(n)) == n
    ensures forall k :: 0 <= k < |Decimal(n)| ==> '0' <= Decimal(n)[k] <= '9'
    ensures n > 0 ==> Decimal(n)[0] != '0'
  {
    if n < 10 {
      assert Decimal(n)[..0] == "";
    } else {
      DecimalReadsBack(n / 10);
      DecimalReadsBack(n % 10);
      assert Decimal(n % 10)[..0] == "" && |Decimal(n % 10)| == 1;
      assert Decimal(n)[..|Decimal(n)| - 1] == Decimal(n / 10);
    }
  }

  /** So different numbers have different references. */
  lemma DecimalIsInjective(m: nat, n: nat)
    requires Decimal(m) == Decimal(n)
    ensures m == n
  {
    DecimalReadsBack(m);
    DecimalReadsBack(n);
  }

  /** An empty reference is stored as NULL and is not idempotent. */
  function RefArg(ref: RefId): Option<RefId> {
    if ref.text == "" then None else Some(ref)
  }

  function BalanceOf(p: Points, u: User): int {
    if u in p.balance then p.balance[u] else 0
  }

  predicate Covers(row: Row, key: Key) {
    row.user == key.user && row.reason == key.reason && row.ref == Some(key.ref)
  }

  predicate InLedger(p: Points, key: Key) {
    exists k :: 0 <= k < |p.ledger| && Covers(p.ledger[k], key)
  }

  predicate Conflicts(p: Points, row: Row) {
    row.ref.Some? && InLedger(p, Key(row.user, row.reason, row.ref.value))
  }

  /** One row and its effect on the balance. */
  function Post(p: Points, row: Row): Points {
    Points(p.balance[row.user := BalanceOf(p, row.user) + row.delta], p.ledger + [row])
  }

  /** The credit transaction: a duplicate reference inserts nothing and adds nothing. */
  function CreditTx(p: Points, row: Row): Points {
    if Conflicts(p, row) then p else Post(p, row)
  }

  function SpendRow(u: User, price: int, purchaseId: nat): Row {
    Row(u, -price, SHOP_SPEND, Some(RefId(Decimal(purchaseId))))
  }

  /** The debit only touches a balance row that covers the price, and the ledger insert of a
      spend has no conflict clause: a taken reference fails the whole transaction. */
  predicate CanSpend(p: Points, u: User, price: int, purchaseId: nat) {
    Covered(p, u, price) && !Conflicts(p, SpendRow(u, price, purchaseId))
  }

  predicate Covered(p: Points, u: User, price: int) {
    u in p.balance && p.balance[u] >= price
  }

  function SpendTx(p: Points, u: User, price: int, purchaseId: nat): Points {
    if CanSpend(p, u, price, purchaseId) then Post(p, SpendRow(u, price, purchaseId)) else p
  }

  datatype Op =
    | Credit(row: Row)
    | Spend(user: User, price: int, purchaseId: nat)

  function Step(p: Points, op: Op): Points {
    match op
    case Credit(row) => CreditTx(p, row)
    case Spend(u, price, id) => SpendTx(p, u, price, id)
  }

  function Run(p: Points, ops: seq<Op>): Points {
    if ops == [] then p else Step(Run(p, ops[..|ops| - 1]), ops[|ops| - 1])
  }

  /** The service rejects a credit that is not positive. */
  predicate PositiveCredits(ops: seq<Op>) {
    forall op :: op in ops && op.Credit? ==> op.row.delta > 0
  }

  // ---- What one transaction does --------------------------------------------------------

  /** A credit whose reference the user already has under its reason changes nothing; any other one
      appends its row and raises the user's balance by its amount. */
  lemma CreditTxEffect(p: Points, row: Row)
    ensures Step(p, Credit(row)) == CreditTx(p, row)
    ensures var p' := CreditTx(p, row);
            if row.ref.Some? && exists r :: r in p.ledger && r.user == row.user && r.reason == row.reason && r.ref == row.ref then p' == p
            else
              && p'.ledger == p.ledger + [row]
              && p'.balance == p.balance[row.user := (if row.user in p.balance then p.balance[row.user] else 0) + row.delta]
  {
    if r :| r in p.ledger && row.ref.Some? && r.user == row.user && r.reason == row.reason && r.ref == row.ref {
      assert Covers(r, Key(row.user, row.reason, row.ref.value));
    }
  }

  lemma CanSpendIff(p: Points, u: User, price: int, purchaseId: nat)
    ensures CanSpend(p, u, price, purchaseId) <==>
              && u in p.balance && p.balance[u] >= price
              && !(exists r :: r in p.ledger && r.user == u && r.reason == Reason("shop_spend") && r.ref == Some(RefId(Decimal(purchaseId))))
  {
    var row := SpendRow(u, price, purchaseId);
    if r :| r in p.ledger && r.user == u && r.reason == row.reason && r.ref == row.ref {
      assert Covers(r, Key(u, row.reason, row.ref.value));
    }
  }

  /** A spend takes exactly the price, under the purchase's own reference, or changes nothing: it
      needs a balance row of at least the price and a reference that is not in the ledger. */
  lemma SpendTxEffect(p: Points, u: User, price: int, purchaseId: nat)
    ensures Step(p, Spend(u, price, purchaseId)) == SpendTx(p, u, price, purchaseId)
    ensures var p', row := SpendTx(p, u, price, purchaseId), Row(u, -price, Reason("shop_spend"), Some(RefId(Decimal(purchaseId))));
            if u in p.balance && p.balance[u] >= price && !(exists r :: r in p.ledger && r.user == u && r.reason == row.reason && r.ref == row.ref)
            then p'.ledger == p.ledger + [row] && p'.balance == p.balance[u := p.balance[u] - price]
            else p' == p
  {
    CanSpendIff(p, u, price, purchaseId);
  }

  /** A run takes every event, one after the other. */
  lemma RunTakesEachOp(p: Points, ops: seq<Op>, op: Op)
    ensures Run(p, []) == p && Run(p, ops + [op]) == Step(Run(p, ops), op)
  {
    assert (ops + [op])[..|ops|] == ops;
  }

  // ---- Balances are their ledgers -------------------------------------------------------

  function LedgerSum(ledger: seq<Row>, u: User): int {
    if ledger == [] then 0
    else LedgerSum(ledger[..|ledger| - 1], u) + if ledger[|ledger| - 1].user == u then ledger[|ledger| - 1].delta else 0
  }

  predicate BalanceOk(p: Points, u: User) {
    BalanceOf(p, u) == LedgerSum(p.ledger, u) && BalanceOf(p, u) >= 0
  }

  /** The unique index: no two rows with a reference share user, reason and reference. */
  predicate RefsUnique(p: Points) {
    forall i, j :: 0 <= i < j < |p.ledger| && p.ledger[i].ref.Some? ==>
      !Covers(p.ledger[j], Key(p.ledger[i].user, p.ledger[i].reason, p.ledger[i].ref.value))
  }

  ghost predicate LedgerOk(p: Points) {
    (forall u :: BalanceOk(p, u)) && RefsUnique(p)
  }

  lemma PostKeepsBalance(p: Points, row: Row, u: User)
    requires BalanceOk(p, u) && BalanceOf(p, row.user) + row.delta >= 0
    ensures BalanceOk(Post(p, row), u)
  {
    assert Post(p, row).ledger[..|p.ledger|] == p.ledger;
  }

  lemma PostKeepsLedger(p: Points, row: Row)
    requires LedgerOk(p) && BalanceOf(p, row.user) + row.delta >= 0 && !Conflicts(p, row)
    ensures LedgerOk(Post(p, row))
  {
    var p' := Post(p, row);
    forall u ensures BalanceOk(p', u) {
      PostKeepsBalance(p, row, u);
    }
    forall i, j | 0 <= i < j < |p'.ledger| && p'.ledger[i].ref.Some?
      ensures !Covers(p'.ledger[j], Key(p'.ledger[i].user, p'.ledger[i].reason, p'.ledger[i].ref.value))
    {
      if j == |p.ledger| {
        var r := p.ledger[i];
        if Covers(row, Key(r.user, r.reason, r.ref.value)) {
          assert Covers(r, Key(row.user, row.reason, row.ref.value));
        }
      }
    }
  }

  lemma {:induction false} RunKeepsLedger(p: Points, ops: seq<Op>)
    requires LedgerOk(p) && PositiveCredits(ops)
    ensures LedgerOk(Run(p, ops))
  {
    if ops != [] {
      RunKeepsLedger(p, ops[..|ops| - 1]);
      var q, op := Run(p, ops[..|ops| - 1]), ops[|ops| - 1];
      if op.Credit? {
        assert BalanceOk(q, op.row.user);
        if !Conflicts(q, op.row) {
          PostKeepsLedger(q, op.row);
        }
      } else if CanSpend(q, op.user, op.price, op.purchaseId) {
        PostKeepsLedger(q, SpendRow(op.user, op.price, op.purchaseId));
      }
    }
  }

  /** In every reachable state each balance is the sum of that user's ledger rows and is never
      negative, and no reference was credited twice. */
  lemma {:induction false} BalancesAreTheirLedgers(ops: seq<Op>, u: User)
    requires forall op :: op in ops && op.Credit? ==> op.row.delta > 0
    ensures var p := Run(NoPoints, ops);
            && (if u in p.balance then p.balance[u] else 0) == LedgerSum(p.ledger, u) >= 0
            && forall i, j :: 0 <= i < j < |p.ledger| && p.ledger[i].ref.Some? ==>
                 p.ledger[i].user != p.ledger[j].user || p.ledger[i].reason != p.ledger[j].reason || p.ledger[i].ref != p.ledger[j].ref
  {
    assert forall v :: BalanceOk(NoPoints, v);
    RunKeepsLedger(NoPoints, ops);
    assert BalanceOk(Run(NoPoints, ops), u);
  }
}
