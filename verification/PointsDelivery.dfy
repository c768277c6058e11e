/** Credits that carry a reference may be delivered any number of times, in any order. */
module PointsDelivery {
  import opened Options
  import opened PointsLedger

  /** Credits delivered one after the other. */
  function Deliver(p: Points, rows: seq<Row>): Points
    decreases |rows|
  {
    if rows == [] then p else Deliver(CreditTx(p, rows[0]), rows[1..])
  }

  predicate WithRef(row: Row) {
    row.ref.Some?
  }

  function KeyOf(row: Row): Key
    requires WithRef(row)
  {
    Key(row.user, row.reason, row.ref.value)
  }

  /** Every credit has a reference, and deliveries of one key carry one amount. */
  predicate Redeliverable(rows: seq<Row>) {
    && (forall r :: r in rows ==> WithRef(r))
    && (forall r, s :: r in rows && s in rows && KeyOf(r) == KeyOf(s) ==> r == s)
  }

  /** Equal for every later credit and every reader: same balances, same references taken. */
  ghost predicate Same(p: Points, q: Points) {
    && (forall u :: BalanceOf(p, u) == BalanceOf(q, u))
    && (forall key :: InLedger(p, key) <==> InLedger(q, key))
  }

  lemma InLedgerAfter(p: Points, row: Row, key: Key)
    requires WithRef(row)
    ensures InLedger(CreditTx(p, row), key) <==> InLedger(p, key) || key == KeyOf(row)
  {
    if !Conflicts(p, row) {
      var p' := Post(p, row);
      assert p'.ledger[|p.ledger|] == row;
      if InLedger(p, key) {
        var k :| 0 <= k < |p.ledger| && Covers(p.ledger[k], key);
        assert p'.ledger[k] == p.ledger[k];
      }
    }
  }

  lemma CreditsAreCongruent(p: Points, q: Points, row: Row)
    requires Same(p, q) && WithRef(row)
    ensures Same(CreditTx(p, row), CreditTx(q, row))
  {
    assert InLedger(p, KeyOf(row)) <==> InLedger(q, KeyOf(row));
    forall key ensures InLedger(CreditTx(p, row), key) <==> InLedger(CreditTx(q, row), key) {
      InLedgerAfter(p, row, key);
      InLedgerAfter(q, row, key);
    }
    forall u ensures BalanceOf(CreditTx(p, row), u) == BalanceOf(CreditTx(q, row), u) {
      assert BalanceOf(p, u) == BalanceOf(q, u) && BalanceOf(p, row.user) == BalanceOf(q, row.user);
    }
  }

  lemma CreditsCommute(p: Points, r: Row, s: Row)
    requires r.ref.Some? && s.ref.Some? && (r.user == s.user && r.reason == s.reason && r.ref == s.ref ==> r == s)
    ensures Same(CreditTx(CreditTx(p, r), s), CreditTx(CreditTx(p, s), r))
  {
    InLedgerAfter(p, r, KeyOf(s));
    InLedgerAfter(p, s, KeyOf(r));
    forall key ensures InLedger(CreditTx(CreditTx(p, r), s), key) <==> InLedger(CreditTx(CreditTx(p, s), r), key) {
      InLedgerAfter(p, r, key);
      InLedgerAfter(p, s, key);
      InLedgerAfter(CreditTx(p, r), s, key);
      InLedgerAfter(CreditTx(p, s), r, key);
    }
  }

  lemma {:induction false} DeliveryIsCongruent(p: Points, q: Points, rows: seq<Row>)
    requires Same(p, q) && forall r :: r in rows ==> WithRef(r)
    ensures Same(Deliver(p, rows), Deliver(q, rows))
    decreases |rows|
  {
    if rows != [] {
      CreditsAreCongruent(p, q, rows[0]);
      DeliveryIsCongruent(CreditTx(p, rows[0]), CreditTx(q, rows[0]), rows[1..]);
    }
  }

  lemma {:induction false} DeliverInTwoParts(p: Points, rows: seq<Row>, more: seq<Row>)
    ensures Deliver(p, rows + more) == Deliver(Deliver(p, rows), more)
    decreases |rows|
  {
    if rows == [] {
      assert rows + more == more;
    } else {
      assert (rows + more)[1..] == rows[1..] + more;
      DeliverInTwoParts(CreditTx(p, rows[0]), rows[1..], more);
    }
  }

  /** One credit may be moved from before a list of others to after it. */
  lemma {:induction false} CreditMovesPast(p: Points, r: Row, rows: seq<Row>)
    requires WithRef(r) && forall s :: s in rows ==> WithRef(s) && (KeyOf(r) == KeyOf(s) ==> r == s)
    ensures Same(Deliver(CreditTx(p, r), rows), CreditTx(Deliver(p, rows), r))
    decreases |rows|
  {
    if rows != [] {
      assert rows[0] in rows;
      CreditsCommute(p, r, rows[0]);
      DeliveryIsCongruent(CreditTx(CreditTx(p, r), rows[0]), CreditTx(CreditTx(p, rows[0]), r), rows[1..]);
      CreditMovesPast(CreditTx(p, rows[0]), r, rows[1..]);
    }
  }

  lemma {:induction false} DeliveriesSwap(p: Points, rows: seq<Row>, more: seq<Row>)
    requires Redeliverable(rows + more)
    ensures Same(Deliver(p, rows + more), Deliver(p, more + rows))
    decreases |rows|
  {
    if rows == [] {
      assert rows + more == more && more + rows == more;
    } else {
      var r, rest := rows[0], rows[1..];
      assert (rows + more)[1..] == rest + more;
      assert forall s :: s in rest + more ==> s in rows + more;
      assert r in rows + more;
      assert forall s :: s in more ==> s in rows + more;
      DeliveriesSwap(CreditTx(p, r), rest, more);
      DeliverInTwoParts(CreditTx(p, r), more, rest);
      CreditMovesPast(p, r, more);
      DeliveryIsCongruent(Deliver(CreditTx(p, r), more), CreditTx(Deliver(p, more), r), rest);
      DeliverInTwoParts(p, more, rows);
    }
  }

  lemma {:induction false} DeliveredIsInLedger(p: Points, rows: seq<Row>, key: Key)
    requires forall r :: r in rows ==> WithRef(r)
    requires InLedger(p, key) || exists r :: r in rows && KeyOf(r) == key
    ensures InLedger(Deliver(p, rows), key)
    decreases |rows|
  {
    if rows != [] {
      InLedgerAfter(p, rows[0], key);
      DeliveredIsInLedger(CreditTx(p, rows[0]), rows[1..], key);
    }
  }

  /** Redelivering references that are already in the ledger changes nothing at all. */
  lemma {:induction false} RedeliveryDoesNothing(p: Points, rows: seq<Row>)
    requires forall r :: r in rows ==> r.ref.Some? && exists q :: q in p.ledger && q.user == r.user && q.reason == r.reason && q.ref == r.ref
    ensures Deliver(p, rows) == p
    decreases |rows|
  {
    if rows != [] {
      assert rows[0] in rows;
      CreditTxEffect(p, rows[0]);
      RedeliveryDoesNothing(p, rows[1..]);
    }
  }

  lemma ExtraDeliveriesDoNothing(p: Points, rows: seq<Row>, more: seq<Row>)
    requires Redeliverable(rows + more) && forall r :: r in more ==> r in rows
    ensures Deliver(p, rows + more) == Deliver(p, rows)
  {
    DeliverInTwoParts(p, rows, more);
    assert forall r :: r in rows ==> r in rows + more;
    var q := Deliver(p, rows);
    forall r | r in more ensures r.ref.Some? && exists q :: q in Deliver(p, rows).ledger && q.user == r.user && q.reason == r.reason && q.ref == r.ref {
      DeliveredIsInLedger(p, rows, KeyOf(r));
      var k :| 0 <= k < |q.ledger| && Covers(q.ledger[k], KeyOf(r));
      assert q.ledger[k] in q.ledger;
    }
    RedeliveryDoesNothing(Deliver(p, rows), more);
  }

  /** At-least-once delivery has exactly-once effect: two deliveries of the same credits, in any
      order and with any repetitions, leave every balance the same. */
  lemma {:induction false} ExactlyOnceEffect(p: Points, rows: seq<Row>, more: seq<Row>)
    requires forall r :: r in rows <==> r in more
    requires forall r :: r in rows ==> r.ref.Some?
    requires forall r, s :: r in rows && s in rows && r.user == s.user && r.reason == s.reason && r.ref == s.ref ==> r == s
    ensures forall u :: BalanceOf(Deliver(p, rows), u) == BalanceOf(Deliver(p, more), u)
  {
    assert forall r :: r in rows + more ==> r in rows;
    assert forall r :: r in more + rows ==> r in rows + more;
    ExtraDeliveriesDoNothing(p, rows, more);
    ExtraDeliveriesDoNothing(p, more, rows);
    DeliveriesSwap(p, rows, more);
  }

  /** A credit without a reference counts every time it is delivered. */
  lemma UnreferencedCreditsAdd(p: Points, row: Row)
    requires row.ref.None?
    ensures BalanceOf(CreditTx(CreditTx(p, row), row), row.user) == BalanceOf(p, row.user) + 2 * row.delta
  {
  }

  /** The same call twice: with a reference the user does not have yet it counts once, without one
      it counts twice. */
  lemma RepeatedCall(p: Points, user: User, delta: int, reason: Reason, ref: RefId)
    ensures var row := Row(user, delta, reason, RefArg(ref));
            var p1, p2 := CreditTx(p, row), CreditTx(CreditTx(p, row), row);
            var before := if user in p.balance then p.balance[user] else 0;
            var known := exists r :: r in p.ledger && r.user == user && r.reason == reason && r.ref == Some(ref);
            if ref.text == "" then user in p2.balance && p2.balance[user] == before + 2 * delta && p2.ledger == p.ledger + [row, row]
            else if known then p1 == p && p2 == p
            else p2 == p1 && user in p1.balance && p1.balance[user] == before + delta && p1.ledger == p.ledger + [row]
  {
    var row := Row(user, delta, reason, RefArg(ref));
    CreditTxEffect(p, row);
    CreditTxEffect(CreditTx(p, row), row);
    var p1 := CreditTx(p, row);
    assert p1 == Post(p, row) ==> p1.ledger[|p.ledger|] == row;
    assert p.ledger + [row] + [row] == p.ledger + [row, row];
  }
}
