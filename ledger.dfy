/** The balance ledger: every loan's outstanding balance is its approved amount minus the
    payments recorded against it. This module proves which controller actions keep that
    (and the loan-status invariant beside it) and which one breaks it. */
module Ledger {
  import opened Common
  import opened Records
  import opened Tables
  import Pagos
  import Prestamos
  import Solicitudes
  import Clientes

  /** The sum of the payments recorded against loan `loanId`. */
  function Paid(pagos: seq<Row<Pago>>, loanId: int): Cents {
    if |pagos| == 0 then 0
    else
      var last := pagos[|pagos| - 1];
      Paid(pagos[..|pagos| - 1], loanId) + (if last.val.prestamoId == loanId then last.val.montoPagado else 0)
  }

  /** The ledger invariant: `saldo_actual == monto_aprobado - sum of its payments`. */
  ghost predicate Balanced(db: Db) {
    forall k :: 0 <= k < |db.prestamos| ==>
      db.prestamos[k].val.saldoActual == db.prestamos[k].val.montoAprobado - Paid(db.pagos, db.prestamos[k].id)
  }

  /** The status a loan can have when only the ledger has moved it: never a negative balance,
      ACTIVO, or PAGADO with nothing left to pay. MOROSO never occurs. */
  predicate Standing(loan: Prestamo) {
    loan.saldoActual >= 0 && (loan.estado == ACTIVO || (loan.estado == PAGADO && loan.saldoActual == 0))
  }

  ghost predicate AllStanding(db: Db) {
    forall k :: 0 <= k < |db.prestamos| ==> Standing(db.prestamos[k].val)
  }

  lemma {:induction false} PaidConcat(a: seq<Row<Pago>>, b: seq<Row<Pago>>, loanId: int)
    ensures Paid(a + b, loanId) == Paid(a, loanId) + Paid(b, loanId)
  {
    if |b| == 0 {
      assert a + b == a;
    } else {
      PaidConcat(a, b[..|b| - 1], loanId);
      assert (a + b)[..|a + b| - 1] == a + b[..|b| - 1];
    }
  }

  lemma PaidAppend(pagos: seq<Row<Pago>>, p: Row<Pago>, loanId: int)
    ensures Paid(pagos + [p], loanId) == Paid(pagos, loanId) + (if p.val.prestamoId == loanId then p.val.montoPagado else 0)
  {
    assert (pagos + [p])[..|pagos|] == pagos;
  }

  lemma PaidRemove(pagos: seq<Row<Pago>>, j: int, loanId: int)
    requires 0 <= j < |pagos|
    ensures Paid(Remove(pagos, j), loanId)
         == Paid(pagos, loanId) - (if pagos[j].val.prestamoId == loanId then pagos[j].val.montoPagado else 0)
  {
    var front, back := pagos[..j], pagos[j + 1..];
    assert pagos == front + [pagos[j]] + back;
    PaidConcat(front + [pagos[j]], back, loanId);
    PaidAppend(front, pagos[j], loanId);
    PaidConcat(front, back, loanId);
  }

  lemma {:induction false} PaidNothing(pagos: seq<Row<Pago>>, loanId: int)
    requires forall k :: 0 <= k < |pagos| ==> pagos[k].val.prestamoId != loanId
    ensures Paid(pagos, loanId) == 0
  {
    if |pagos| > 0 {
      PaidNothing(pagos[..|pagos| - 1], loanId);
    }
  }

  /** Recording a payment keeps every loan balanced: the debited loan's payments grow by
      exactly the amount, and no other loan's payments change. */
  lemma PaymentKeepsBalanced(db: Db, req: Pagos.PagoInput, now: Moment)
    requires Valid(db) && Balanced(db)
    ensures Balanced(Pagos.StoreOutcome(db, req, now).db)
  {
    var r := Pagos.StoreOutcome(db, req, now);
    if r.status == Created {
      var i := IndexOf(db.prestamos, req.prestamoId.value);
      var p := Pagos.NewPago(db, db.prestamos[i].id, req, now);
      forall k | 0 <= k < |r.db.prestamos|
        ensures r.db.prestamos[k].val.saldoActual == r.db.prestamos[k].val.montoAprobado - Paid(r.db.pagos, r.db.prestamos[k].id)
      {
        PaidAppend(db.pagos, p, db.prestamos[k].id);
        if k != i {
          assert db.prestamos[k].id != db.prestamos[i].id by {
            if k < i {} else {}
          }
        }
      }
    }
  }

  /** Deleting a payment keeps every loan balanced: the credited loan's payments shrink by
      exactly the amount given back. */
  lemma ReversalKeepsBalanced(db: Db, id: int)
    requires Valid(db) && Balanced(db)
    ensures Balanced(Pagos.DestroyOutcome(db, id).db)
  {
    var r := Pagos.DestroyOutcome(db, id);
    if r.status == NoContent {
      var j := IndexOf(db.pagos, id);
      var i := IndexOf(db.prestamos, db.pagos[j].val.prestamoId);
      var loan := db.prestamos[i];
      assert r.db == db.(prestamos := db.prestamos[i := Row(loan.id, Pagos.Credit(loan.val, db.pagos[j].val.montoPagado))],
                         pagos := Remove(db.pagos, j));
      CreditKeepsBalanced(db, j, i);
    }
  }

  /** Crediting loan `i` with payment `j` while removing that payment keeps every loan balanced. */
  lemma CreditKeepsBalanced(db: Db, j: int, i: int)
    requires Keyed(db.prestamos, db.nextPrestamo) && Balanced(db)
    requires 0 <= j < |db.pagos| && 0 <= i < |db.prestamos| && db.prestamos[i].id == db.pagos[j].val.prestamoId
    ensures var loan := db.prestamos[i];
      Balanced(db.(prestamos := db.prestamos[i := Row(loan.id, Pagos.Credit(loan.val, db.pagos[j].val.montoPagado))],
                   pagos := Remove(db.pagos, j)))
  {
    var loan := db.prestamos[i];
    var after := db.(prestamos := db.prestamos[i := Row(loan.id, Pagos.Credit(loan.val, db.pagos[j].val.montoPagado))],
                     pagos := Remove(db.pagos, j));
    forall k | 0 <= k < |after.prestamos|
      ensures after.prestamos[k].val.saldoActual == after.prestamos[k].val.montoAprobado - Paid(after.pagos, after.prestamos[k].id)
    {
      PaidRemove(db.pagos, j, db.prestamos[k].id);
      if k != i {
        assert db.prestamos[k].id != db.prestamos[i].id by {
          if k < i {} else {}
        }
      }
    }
  }

  /** A new loan has no payments yet, so starting its balance at the approved amount keeps
      the ledger balanced. */
  lemma PromotionKeepsBalanced(db: Db, req: Prestamos.PrestamoInput, now: Moment)
    requires Valid(db) && Balanced(db)
    ensures Balanced(Prestamos.StoreOutcome(db, req, now).db)
  {
    var r := Prestamos.StoreOutcome(db, req, now);
    if r.status == Created {
      forall k | 0 <= k < |db.pagos| ensures db.pagos[k].val.prestamoId != db.nextPrestamo {
        var m :| 0 <= m < |db.prestamos| && db.prestamos[m].id == db.pagos[k].val.prestamoId;
      }
      PaidNothing(db.pagos, db.nextPrestamo);
      forall k | 0 <= k < |r.db.prestamos|
        ensures r.db.prestamos[k].val.saldoActual == r.db.prestamos[k].val.montoAprobado - Paid(r.db.pagos, r.db.prestamos[k].id)
      {
        if k < |db.prestamos| {
          assert r.db.prestamos[k] == db.prestamos[k];
        }
      }
    }
  }

  /** Only a loan without payments can be deleted, and the others keep their payments. */
  lemma LoanDeletionKeepsBalanced(db: Db, id: int)
    requires Balanced(db)
    ensures Balanced(Prestamos.DestroyOutcome(db, id).db)
  {
    var r := Prestamos.DestroyOutcome(db, id);
    if r.status == NoContent {
      var i := IndexOf(db.prestamos, id);
      forall k | 0 <= k < |r.db.prestamos|
        ensures r.db.prestamos[k].val.saldoActual == r.db.prestamos[k].val.montoAprobado - Paid(r.db.pagos, r.db.prestamos[k].id)
      {
        var k' := if k < i then k else k + 1;
        assert r.db.prestamos[k] == db.prestamos[k'];
      }
    }
  }

  /** `PUT /prestamos/{id}` keeps the ledger balanced exactly when it does not write a
      different `saldo_actual`: the overwrite is not checked against the payments. */
  lemma UpdateBalancedIff(db: Db, id: int, patch: Prestamos.PrestamoPatch)
    requires Valid(db) && Balanced(db) && Has(db.prestamos, id)
    ensures var i := IndexOf(db.prestamos, id);
      Balanced(Prestamos.UpdateOutcome(db, id, patch).db)
      <==> (patch.saldoActual.None? || patch.saldoActual.value == db.prestamos[i].val.saldoActual)
  {
    var r := Prestamos.UpdateOutcome(db, id, patch);
    var i := IndexOf(db.prestamos, id);
    if patch.saldoActual.None? || patch.saldoActual.value == db.prestamos[i].val.saldoActual {
      forall k | 0 <= k < |r.db.prestamos|
        ensures r.db.prestamos[k].val.saldoActual == r.db.prestamos[k].val.montoAprobado - Paid(r.db.pagos, r.db.prestamos[k].id)
      {
      }
    } else {
      assert r.db.prestamos[i].val.saldoActual != r.db.prestamos[i].val.montoAprobado - Paid(r.db.pagos, r.db.prestamos[i].id);
    }
  }

  /** Both ledger invariants depend on the loans and the payments only. */
  lemma LedgerUntouched(db: Db, after: Db)
    requires after.prestamos == db.prestamos && after.pagos == db.pagos
    ensures Balanced(after) <==> Balanced(db)
    ensures AllStanding(after) <==> AllStanding(db)
  {
  }

  // Client and application actions touch neither loans nor payments, so they keep both
  // ledger invariants.

  lemma ClienteStoreKeepsLedger(db: Db, req: Clientes.ClienteInput, caller: Option<string>, now: Moment)
    ensures Balanced(Clientes.StoreOutcome(db, req, caller, now).db) <==> Balanced(db)
    ensures AllStanding(Clientes.StoreOutcome(db, req, caller, now).db) <==> AllStanding(db)
  {
    LedgerUntouched(db, Clientes.StoreOutcome(db, req, caller, now).db);
  }

  lemma ClienteUpdateKeepsLedger(db: Db, id: int, patch: Clientes.ClientePatch, caller: Option<string>)
    ensures Balanced(Clientes.UpdateOutcome(db, id, patch, caller).db) <==> Balanced(db)
    ensures AllStanding(Clientes.UpdateOutcome(db, id, patch, caller).db) <==> AllStanding(db)
  {
    LedgerUntouched(db, Clientes.UpdateOutcome(db, id, patch, caller).db);
  }

  lemma ClienteDestroyKeepsLedger(db: Db, id: int)
    ensures Balanced(Clientes.DestroyOutcome(db, id).db) <==> Balanced(db)
    ensures AllStanding(Clientes.DestroyOutcome(db, id).db) <==> AllStanding(db)
  {
    LedgerUntouched(db, Clientes.DestroyOutcome(db, id).db);
  }

  lemma SolicitudStoreKeepsLedger(db: Db, req: Solicitudes.SolicitudInput, caller: Option<string>, now: Moment)
    ensures Balanced(Solicitudes.StoreOutcome(db, req, caller, now).db) <==> Balanced(db)
    ensures AllStanding(Solicitudes.StoreOutcome(db, req, caller, now).db) <==> AllStanding(db)
  {
    LedgerUntouched(db, Solicitudes.StoreOutcome(db, req, caller, now).db);
  }

  lemma SolicitudUpdateKeepsLedger(db: Db, id: int, patch: Solicitudes.SolicitudPatch, caller: Option<string>)
    ensures Balanced(Solicitudes.UpdateOutcome(db, id, patch, caller).db) <==> Balanced(db)
    ensures AllStanding(Solicitudes.UpdateOutcome(db, id, patch, caller).db) <==> AllStanding(db)
  {
    LedgerUntouched(db, Solicitudes.UpdateOutcome(db, id, patch, caller).db);
  }

  lemma SolicitudDestroyKeepsLedger(db: Db, id: int)
    ensures Balanced(Solicitudes.DestroyOutcome(db, id).db) <==> Balanced(db)
    ensures AllStanding(Solicitudes.DestroyOutcome(db, id).db) <==> AllStanding(db)
  {
    LedgerUntouched(db, Solicitudes.DestroyOutcome(db, id).db);
  }

  /** A payment leaves the loan in good standing: the balance cannot go negative, and the
      loan turns PAGADO exactly when it is paid off. */
  lemma PaymentKeepsStanding(db: Db, req: Pagos.PagoInput, now: Moment)
    requires AllStanding(db)
    ensures AllStanding(Pagos.StoreOutcome(db, req, now).db)
  {
    var r := Pagos.StoreOutcome(db, req, now);
    if r.status == Created {
      var i := IndexOf(db.prestamos, req.prestamoId.value);
      assert Standing(r.db.prestamos[i].val);
    }
  }

  /** Withdrawing a payment returns a positive balance and the ACTIVO status. */
  lemma ReversalKeepsStanding(db: Db, id: int)
    requires Valid(db) && AllStanding(db)
    ensures AllStanding(Pagos.DestroyOutcome(db, id).db)
  {
    var r := Pagos.DestroyOutcome(db, id);
    if r.status == NoContent {
      var j := IndexOf(db.pagos, id);
      var i := IndexOf(db.prestamos, db.pagos[j].val.prestamoId);
      assert Standing(r.db.prestamos[i].val);
    }
  }

  lemma PromotionKeepsStanding(db: Db, req: Prestamos.PrestamoInput, now: Moment)
    requires AllStanding(db)
    ensures AllStanding(Prestamos.StoreOutcome(db, req, now).db)
  {
    var r := Prestamos.StoreOutcome(db, req, now);
    if r.status == Created {
      forall k | 0 <= k < |r.db.prestamos| ensures Standing(r.db.prestamos[k].val) {
        if k < |db.prestamos| {
          assert r.db.prestamos[k] == db.prestamos[k];
        }
      }
    }
  }

  lemma LoanDeletionKeepsStanding(db: Db, id: int)
    requires AllStanding(db)
    ensures AllStanding(Prestamos.DestroyOutcome(db, id).db)
  {
    var r := Prestamos.DestroyOutcome(db, id);
    if r.status == NoContent {
      var i := IndexOf(db.prestamos, id);
      forall k | 0 <= k < |r.db.prestamos| ensures Standing(r.db.prestamos[k].val) {
        var k' := if k < i then k else k + 1;
        assert r.db.prestamos[k] == db.prestamos[k'];
      }
    }
  }

  /** After `PUT /prestamos/{id}` the loans are in good standing exactly when the
      overwritten loan is: nothing stops a negative balance, MOROSO, or PAGADO with money
      still owed. */
  lemma UpdateStandingIff(db: Db, id: int, patch: Prestamos.PrestamoPatch)
    requires AllStanding(db) && Has(db.prestamos, id)
    ensures var i := IndexOf(db.prestamos, id);
      AllStanding(Prestamos.UpdateOutcome(db, id, patch).db)
      <==> Standing(Prestamos.Patched(db.prestamos[i].val, patch))
  {
    var r := Prestamos.UpdateOutcome(db, id, patch);
    var i := IndexOf(db.prestamos, id);
    assert r.db.prestamos[i].val == Prestamos.Patched(db.prestamos[i].val, patch);
  }

  /** With the loans in good standing, a successful payment marks the loan PAGADO if and only
      if it brings the balance to zero. (Without it the source keeps any earlier status
      while money is still owed.) */
  lemma PaidOffIff(db: Db, req: Pagos.PagoInput, now: Moment)
    requires AllStanding(db)
    requires Pagos.StoreOutcome(db, req, now).status == Created
    ensures var after := Pagos.StoreOutcome(db, req, now).db.prestamos[IndexOf(db.prestamos, req.prestamoId.value)].val;
      after.estado == PAGADO <==> after.saldoActual == 0
  {
    var i := IndexOf(db.prestamos, req.prestamoId.value);
    assert Standing(db.prestamos[i].val);
  }

  /** A loan with nothing left to pay accepts no payment: the smallest amount, 0.01, already
      exceeds its balance. */
  lemma SettledLoanRefusesPayment(db: Db, req: Pagos.PagoInput, now: Moment)
    requires Pagos.Acceptable(db, req)
    requires db.prestamos[IndexOf(db.prestamos, req.prestamoId.value)].val.saldoActual <= 0
    ensures Pagos.StoreOutcome(db, req, now).status == BadRequest
  {
  }

  /** Round trip: recording a payment and then deleting it gives back the store as it was,
      except that the loan is ACTIVO and the payment id has been used up. */
  lemma StoreThenDestroy(db: Db, req: Pagos.PagoInput, now: Moment)
    requires Valid(db)
    requires Pagos.StoreOutcome(db, req, now).status == Created
    ensures var i := IndexOf(db.prestamos, req.prestamoId.value);
      var back := Pagos.DestroyOutcome(Pagos.StoreOutcome(db, req, now).db, db.nextPago);
      && back.status == NoContent
      && back.db == db.(prestamos := db.prestamos[i := Row(db.prestamos[i].id, db.prestamos[i].val.(estado := ACTIVO))],
                        nextPago := db.nextPago + 1)
  {
    var i := IndexOf(db.prestamos, req.prestamoId.value);
    var loan := db.prestamos[i];
    var amount := req.montoPagado.value;
    var p := Pagos.NewPago(db, loan.id, req, now);
    // the store after the payment
    var debited := db.prestamos[i := Row(loan.id, Pagos.Debit(loan.val, amount))];
    var mid := db.(pagos := db.pagos + [p], nextPago := db.nextPago + 1, prestamos := debited);
    assert Pagos.StoreOutcome(db, req, now).db == mid;
    UndoPayment(db, i, p);
  }

  /** Deleting the payment just appended for loan `i` credits the loan back and drops the row. */
  lemma UndoPayment(db: Db, i: int, p: Row<Pago>)
    requires Valid(db) && 0 <= i < |db.prestamos|
    requires p.id == db.nextPago && p.val.prestamoId == db.prestamos[i].id
    ensures var loan := db.prestamos[i];
      var debited := db.prestamos[i := Row(loan.id, Pagos.Debit(loan.val, p.val.montoPagado))];
      var mid := db.(pagos := db.pagos + [p], nextPago := db.nextPago + 1, prestamos := debited);
      var back := Pagos.DestroyOutcome(mid, db.nextPago);
      && back.status == NoContent
      && back.db == db.(prestamos := db.prestamos[i := Row(loan.id, loan.val.(estado := ACTIVO))],
                        nextPago := db.nextPago + 1)
  {
    var loan := db.prestamos[i];
    var amount := p.val.montoPagado;
    var debited := db.prestamos[i := Row(loan.id, Pagos.Debit(loan.val, amount))];
    var mid := db.(pagos := db.pagos + [p], nextPago := db.nextPago + 1, prestamos := debited);
    // in it, the new payment is the last row and its loan is still at position i
    Appended(db.pagos, db.nextPago, p.val);
    KeyedFinds(mid.pagos, mid.nextPago, |db.pagos|);
    assert IndexOf(mid.pagos, db.nextPago) == |db.pagos|;
    Replaced(db.prestamos, db.nextPrestamo, i, Pagos.Debit(loan.val, amount));
    KeyedFinds(debited, db.nextPrestamo, i);
    assert IndexOf(debited, p.val.prestamoId) == i;
    // deleting it credits the debited loan back and drops the last row
    var restored := Row(loan.id, Pagos.Credit(Pagos.Debit(loan.val, amount), amount));
    assert Pagos.DestroyOutcome(mid, db.nextPago).db == mid.(prestamos := debited[i := restored], pagos := Remove(mid.pagos, |db.pagos|));
    assert restored.val == loan.val.(estado := ACTIVO);
    assert debited[i := restored] == db.prestamos[i := Row(loan.id, loan.val.(estado := ACTIVO))];
    assert Remove(mid.pagos, |db.pagos|) == db.pagos;
  }

  /** Two payments against the same loan, each within its balance when requested, run one
      after the other as the transactions serialize them: the first always succeeds, and the
      second succeeds exactly when both together fit in the balance. */
  lemma CompetingPayments(db: Db, first: Pagos.PagoInput, second: Pagos.PagoInput, t1: Moment, t2: Moment)
    requires Valid(db)
    requires Pagos.Acceptable(db, first) && Pagos.Acceptable(db, second)
    requires first.prestamoId == second.prestamoId
    requires var saldo := db.prestamos[IndexOf(db.prestamos, first.prestamoId.value)].val.saldoActual;
      first.montoPagado.value <= saldo && second.montoPagado.value <= saldo
    ensures var saldo := db.prestamos[IndexOf(db.prestamos, first.prestamoId.value)].val.saldoActual;
      var r1 := Pagos.StoreOutcome(db, first, t1);
      var r2 := Pagos.StoreOutcome(r1.db, second, t2);
      && r1.status == Created
      && (r2.status == Created <==> first.montoPagado.value + second.montoPagado.value <= saldo)
      && (r2.status == BadRequest <==> first.montoPagado.value + second.montoPagado.value > saldo)
  {
    var r1 := Pagos.StoreOutcome(db, first, t1);
    var i := IndexOf(db.prestamos, first.prestamoId.value);
    Pagos.StoreKeepsValid(db, first, t1);
    KeyedFinds(r1.db.prestamos, r1.db.nextPrestamo, i);
    assert Has(r1.db.prestamos, first.prestamoId.value);
  }
}
