/** PagoController: recording a payment against a loan (debit of its balance) and deleting
    a payment (credit back). Each action is one transaction on the store. */
module Pagos {
  import opened Common
  import opened Records
  import opened Tables

  /** The body of `POST /pagos`; `None` is a missing or null field. */
  datatype PagoInput = PagoInput(
    prestamoId: Option<int>,
    montoPagado: Option<Cents>,
    metodoPago: Option<string>,
    observaciones: Option<string>)

  /** The validator's rules: an existing `prestamo_id`, an amount of at least 0.01 and one of
      the three payment methods. */
  predicate Acceptable(db: Db, req: PagoInput) {
    && req.prestamoId.Some? && Has(db.prestamos, req.prestamoId.value)
    && req.montoPagado.Some? && req.montoPagado.value >= 1
    && req.metodoPago.Some? && IsMetodoPago(req.metodoPago.value)
  }

  /** The loan after a payment of `amount`: the balance is debited, and the loan is marked
      PAGADO once the balance is at or below zero; otherwise its status is kept. */
  function Debit(loan: Prestamo, amount: Cents): Prestamo {
    var nuevoSaldo := loan.saldoActual - amount;
    loan.(saldoActual := nuevoSaldo, estado := if nuevoSaldo <= 0 then PAGADO else loan.estado)
  }

  /** The loan after a payment of `amount` is withdrawn: credited back and ACTIVO again. */
  function Credit(loan: Prestamo, amount: Cents): Prestamo {
    loan.(saldoActual := loan.saldoActual + amount, estado := ACTIVO)
  }

  /** The row a successful `POST /pagos` inserts. */
  function NewPago(db: Db, loanId: nat, req: PagoInput, now: Moment): Row<Pago>
    requires req.montoPagado.Some? && req.metodoPago.Some?
  {
    Row(db.nextPago, Pago(loanId, now, req.montoPagado.value, req.metodoPago.value, req.observaciones, now))
  }

  /** `POST /pagos`. */
  function StoreOutcome(db: Db, req: PagoInput, now: Moment): (r: Outcome)
    ensures r.status == Created || r.status == BadRequest || r.status == Unprocessable
    ensures r.status == Unprocessable <==> !Acceptable(db, req)
    ensures r.status != Created ==> r.db == db
    ensures Acceptable(db, req) ==>
      var i := IndexOf(db.prestamos, req.prestamoId.value);
      (r.status == BadRequest <==> req.montoPagado.value > db.prestamos[i].val.saldoActual)
    ensures r.status == Created ==> |r.db.prestamos| == |db.prestamos|
    ensures r.status == Created ==>
      var i := IndexOf(db.prestamos, req.prestamoId.value);
      var amount := req.montoPagado.value;
      var before := db.prestamos[i];
      var after := r.db.prestamos[i];
      // exactly one payment row is added, with the next id, for this loan
      && r.db.pagos == db.pagos + [NewPago(db, before.id, req, now)]
      && r.db.nextPago == db.nextPago + 1
      // the loan's balance is debited by the amount and cannot become negative
      && after.id == before.id
      && after.val.saldoActual == before.val.saldoActual - amount
      && 0 <= after.val.saldoActual
      && after.val.estado == (if after.val.saldoActual <= 0 then PAGADO else before.val.estado)
      && SameTerms(after.val, before.val)
      && after.val.tasaInteres == before.val.tasaInteres && after.val.plazoMeses == before.val.plazoMeses
      // no other loan, and no other table, changes
      && (forall k :: 0 <= k < |db.prestamos| && k != i ==> r.db.prestamos[k] == db.prestamos[k])
      && r.db.(prestamos := db.prestamos, pagos := db.pagos, nextPago := db.nextPago) == db
  {
    if !Acceptable(db, req) then Outcome(db, Unprocessable)
    else
      var i := IndexOf(db.prestamos, req.prestamoId.value);
      var loan := db.prestamos[i];
      if req.montoPagado.value > loan.val.saldoActual then Outcome(db, BadRequest)
      else
        Outcome(db.(pagos := db.pagos + [NewPago(db, loan.id, req, now)],
                    nextPago := db.nextPago + 1,
                    prestamos := db.prestamos[i := Row(loan.id, Debit(loan.val, req.montoPagado.value))]),
                Created)
  }

  /** `DELETE /pagos/{id}`. */
  function DestroyOutcome(db: Db, id: int): (r: Outcome)
    ensures r.status == NoContent || r.status == NotFound || r.status == ServerError
    ensures r.status == NotFound <==> !Has(db.pagos, id)
    ensures r.status != NoContent ==> r.db == db
    ensures Valid(db) && Has(db.pagos, id) ==> r.status == NoContent
    ensures r.status == NoContent ==>
      var j := IndexOf(db.pagos, id);
      var i := IndexOf(db.prestamos, db.pagos[j].val.prestamoId);
      && 0 <= i
      && |r.db.prestamos| == |db.prestamos|
      // the payment row goes away
      && r.db.pagos == Remove(db.pagos, j)
      // its loan is credited with the amount and reset to ACTIVO whatever its balance
      && r.db.prestamos[i].id == db.prestamos[i].id
      && r.db.prestamos[i].val.saldoActual == db.prestamos[i].val.saldoActual + db.pagos[j].val.montoPagado
      && r.db.prestamos[i].val.estado == ACTIVO
      && SameTerms(r.db.prestamos[i].val, db.prestamos[i].val)
      && r.db.prestamos[i].val.tasaInteres == db.prestamos[i].val.tasaInteres
      && r.db.prestamos[i].val.plazoMeses == db.prestamos[i].val.plazoMeses
      // no other loan or payment, and no other table, changes
      && (forall k :: 0 <= k < |db.prestamos| && k != i ==> r.db.prestamos[k] == db.prestamos[k])
      && r.db.(prestamos := db.prestamos, pagos := db.pagos) == db
  {
    var j := IndexOf(db.pagos, id);
    if j < 0 then Outcome(db, NotFound)
    else
      var pago := db.pagos[j].val;
      var i := IndexOf(db.prestamos, pago.prestamoId);
      // `$pago->prestamo` is null only if the foreign key were broken; updating it throws
      if i < 0 then Outcome(db, ServerError)
      else
        var loan := db.prestamos[i];
        Outcome(db.(prestamos := db.prestamos[i := Row(loan.id, Credit(loan.val, pago.montoPagado))],
                    pagos := Remove(db.pagos, j)),
                NoContent)
  }

  lemma StoreKeepsValid(db: Db, req: PagoInput, now: Moment)
    requires Valid(db)
    ensures Valid(StoreOutcome(db, req, now).db)
  {
    var r := StoreOutcome(db, req, now);
    if r.status == Created {
      var i := IndexOf(db.prestamos, req.prestamoId.value);
      var loan := db.prestamos[i];
      Appended(db.pagos, db.nextPago, NewPago(db, loan.id, req, now).val);
      Replaced(db.prestamos, db.nextPrestamo, i, Debit(loan.val, req.montoPagado.value));
      assert r.db.prestamos == db.prestamos[i := Row(loan.id, Debit(loan.val, req.montoPagado.value))];
      assert forall k :: 0 <= k < |db.pagos| ==> r.db.pagos[k] == db.pagos[k];
      assert r.db.pagos[|db.pagos|].val.prestamoId == db.prestamos[i].id;
    }
  }

  /** Removing payment `j` and crediting its loan (at position `i`) keeps the store
      consistent. */
  lemma ReversalKeepsValid(db: Db, j: int, i: int)
    requires Valid(db) && 0 <= j < |db.pagos| && 0 <= i < |db.prestamos|
    ensures var loan := db.prestamos[i];
      Valid(db.(prestamos := db.prestamos[i := Row(loan.id, Credit(loan.val, db.pagos[j].val.montoPagado))],
                pagos := Remove(db.pagos, j)))
  {
    var loan := db.prestamos[i];
    var credited := db.prestamos[i := Row(loan.id, Credit(loan.val, db.pagos[j].val.montoPagado))];
    var rest := Remove(db.pagos, j);
    KeyedRemove(db.pagos, db.nextPago, j);
    Replaced(db.prestamos, db.nextPrestamo, i, Credit(loan.val, db.pagos[j].val.montoPagado));
    forall k | 0 <= k < |credited| ensures Has(db.solicitudes, credited[k].val.solicitudId) {
      assert credited[k].val.solicitudId == db.prestamos[k].val.solicitudId;
    }
    forall k | 0 <= k < |rest|
      ensures Has(credited, rest[k].val.prestamoId) && rest[k].val.montoPagado >= 1
    {
      var k' := if k < j then k else k + 1;
      assert rest[k] == db.pagos[k'];
    }
  }

  lemma DestroyKeepsValid(db: Db, id: int)
    requires Valid(db)
    ensures Valid(DestroyOutcome(db, id).db)
  {
    var r := DestroyOutcome(db, id);
    if r.status == NoContent {
      var j := IndexOf(db.pagos, id);
      var i := IndexOf(db.prestamos, db.pagos[j].val.prestamoId);
      var loan := db.prestamos[i];
      assert r.db == db.(prestamos := db.prestamos[i := Row(loan.id, Credit(loan.val, db.pagos[j].val.montoPagado))],
                         pagos := Remove(db.pagos, j));
      ReversalKeepsValid(db, j, i);
    }
  }

  /** The controller action `store`, applied to the shared database in one transaction. */
  method Store(d: Database, req: PagoInput, now: Moment) returns (status: Status)
    modifies d
    ensures d.State() == StoreOutcome(old(d.State()), req, now).db
    ensures status == StoreOutcome(old(d.State()), req, now).status
  {
    if !Acceptable(d.State(), req) {
      return Unprocessable;
    }
    var i := IndexOf(d.prestamos, req.prestamoId.value);
    var prestamo := d.prestamos[i];
    if req.montoPagado.value > prestamo.val.saldoActual {
      return BadRequest;
    }
    var pago := NewPago(d.State(), prestamo.id, req, now);
    d.pagos, d.nextPago := d.pagos + [pago], d.nextPago + 1;
    d.prestamos := d.prestamos[i := Row(prestamo.id, Debit(prestamo.val, req.montoPagado.value))];
    return Created;
  }

  /** The controller action `destroy`: credit the loan back, then delete the payment. */
  method Destroy(d: Database, id: int) returns (status: Status)
    modifies d
    ensures d.State() == DestroyOutcome(old(d.State()), id).db
    ensures status == DestroyOutcome(old(d.State()), id).status
  {
    var j := IndexOf(d.pagos, id);
    if j < 0 {
      return NotFound;
    }
    var pago := d.pagos[j];
    var i := IndexOf(d.prestamos, pago.val.prestamoId);
    if i < 0 {
      return ServerError;
    }
    var prestamo := d.prestamos[i];
    d.prestamos := d.prestamos[i := Row(prestamo.id, Credit(prestamo.val, pago.val.montoPagado))];
    d.pagos := Remove(d.pagos, j);
    return NoContent;
  }
}
