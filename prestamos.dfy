/** PrestamoController: promoting an approved application to a loan, overwriting the
    whitelisted loan fields, and deleting a loan that has no payments. */
module Prestamos {
  import opened Common
  import opened Records
  import opened Tables

  /** The body of `POST /prestamos`. */
  datatype PrestamoInput = PrestamoInput(
    solicitudId: Option<int>,
    montoAprobado: Option<Cents>,
    tasaInteres: Option<int>,
    plazoMeses: Option<int>)

  /** The body of `PUT /prestamos/{id}`. Only the first four keys are taken from the
      request; `solicitudId` and `montoAprobado` stand for any other key it carries. */
  datatype PrestamoPatch = PrestamoPatch(
    saldoActual: Option<Cents>,
    estado: Option<string>,
    tasaInteres: Option<int>,
    plazoMeses: Option<int>,
    solicitudId: Option<int>,
    montoAprobado: Option<Cents>)

  /** The validator's rules: an existing `solicitud_id`, a non-negative approved amount and
      rate, a term of at least one month. */
  predicate Acceptable(db: Db, req: PrestamoInput) {
    && req.solicitudId.Some? && Has(db.solicitudes, req.solicitudId.value)
    && req.montoAprobado.Some? && req.montoAprobado.value >= 0
    && req.tasaInteres.Some? && req.tasaInteres.value >= 0
    && req.plazoMeses.Some? && req.plazoMeses.value >= 1
  }

  /** Some payment belongs to loan `id` (`$prestamo->pagos->count() > 0`). */
  predicate HasPayments(pagos: seq<Row<Pago>>, id: int) {
    exists k :: 0 <= k < |pagos| && pagos[k].val.prestamoId == id
  }

  /** `POST /prestamos`. */
  function StoreOutcome(db: Db, req: PrestamoInput, now: Moment): (r: Outcome)
    ensures r.status == Created || r.status == BadRequest || r.status == Unprocessable
    ensures r.status == Unprocessable <==> !Acceptable(db, req)
    ensures r.status != Created ==> r.db == db
    ensures Acceptable(db, req) ==>
      var s := IndexOf(db.solicitudes, req.solicitudId.value);
      (r.status == Created <==> db.solicitudes[s].val.estado == APROBADO)
    ensures r.status == Created ==>
      && |r.db.prestamos| == |db.prestamos| + 1
      && r.db.prestamos[..|db.prestamos|] == db.prestamos
      && r.db.nextPrestamo == db.nextPrestamo + 1
      && r.db.(prestamos := db.prestamos, nextPrestamo := db.nextPrestamo) == db
    ensures r.status == Created ==>
      var loan := r.db.prestamos[|db.prestamos|];
      // the new loan gets the next id, starts ACTIVO with its whole amount outstanding
      && loan.id == db.nextPrestamo
      && loan.val.solicitudId == req.solicitudId.value
      && loan.val.montoAprobado == req.montoAprobado.value
      && loan.val.saldoActual == loan.val.montoAprobado
      && loan.val.estado == ACTIVO
      && loan.val.tasaInteres == req.tasaInteres.value
      && loan.val.plazoMeses == req.plazoMeses.value
      && loan.val.fechaAprobacion == now && loan.val.createdAt == now
  {
    if !Acceptable(db, req) then Outcome(db, Unprocessable)
    else
      var s := IndexOf(db.solicitudes, req.solicitudId.value);
      var solicitud := db.solicitudes[s];
      if solicitud.val.estado != APROBADO then Outcome(db, BadRequest)
      else
        var monto := req.montoAprobado.value;
        var loan := Prestamo(solicitud.id, monto, now, req.tasaInteres.value, req.plazoMeses.value, monto, ACTIVO, now);
        Outcome(db.(prestamos := db.prestamos + [Row(db.nextPrestamo, loan)], nextPrestamo := db.nextPrestamo + 1),
                Created)
  }

  /** The loan with the request's whitelisted fields written over it. */
  function Patched(loan: Prestamo, patch: PrestamoPatch): Prestamo {
    loan.(saldoActual := patch.saldoActual.GetOr(loan.saldoActual),
          estado := patch.estado.GetOr(loan.estado),
          tasaInteres := patch.tasaInteres.GetOr(loan.tasaInteres),
          plazoMeses := patch.plazoMeses.GetOr(loan.plazoMeses))
  }

  /** `PUT /prestamos/{id}`. Nothing checks the values: the balance and the status can be
      set to anything. */
  function UpdateOutcome(db: Db, id: int, patch: PrestamoPatch): (r: Outcome)
    ensures r.status == Ok || r.status == NotFound
    ensures r.status == NotFound <==> !Has(db.prestamos, id)
    ensures r.status == NotFound ==> r.db == db
    ensures r.status == Ok ==>
      var i := IndexOf(db.prestamos, id);
      var before := db.prestamos[i];
      && |r.db.prestamos| == |db.prestamos|
      && r.db.prestamos[i].id == before.id
      && SameTerms(r.db.prestamos[i].val, before.val)
      && (patch.saldoActual.Some? ==> r.db.prestamos[i].val.saldoActual == patch.saldoActual.value)
      && (patch.saldoActual.None? ==> r.db.prestamos[i].val.saldoActual == before.val.saldoActual)
      && (patch.estado.Some? ==> r.db.prestamos[i].val.estado == patch.estado.value)
      && (patch.estado.None? ==> r.db.prestamos[i].val.estado == before.val.estado)
      && (patch.tasaInteres.Some? ==> r.db.prestamos[i].val.tasaInteres == patch.tasaInteres.value)
      && (patch.tasaInteres.None? ==> r.db.prestamos[i].val.tasaInteres == before.val.tasaInteres)
      && (patch.plazoMeses.Some? ==> r.db.prestamos[i].val.plazoMeses == patch.plazoMeses.value)
      && (patch.plazoMeses.None? ==> r.db.prestamos[i].val.plazoMeses == before.val.plazoMeses)
      && (forall k :: 0 <= k < |db.prestamos| && k != i ==> r.db.prestamos[k] == db.prestamos[k])
      && r.db.(prestamos := db.prestamos) == db
  {
    var i := IndexOf(db.prestamos, id);
    if i < 0 then Outcome(db, NotFound)
    else
      var loan := db.prestamos[i];
      Outcome(db.(prestamos := db.prestamos[i := Row(loan.id, Patched(loan.val, patch))]), Ok)
  }

  /** `DELETE /prestamos/{id}`. */
  function DestroyOutcome(db: Db, id: int): (r: Outcome)
    ensures r.status == NoContent || r.status == BadRequest || r.status == NotFound
    ensures r.status == NotFound <==> !Has(db.prestamos, id)
    ensures r.status == BadRequest <==> Has(db.prestamos, id) && HasPayments(db.pagos, id)
    ensures r.status != NoContent ==> r.db == db
    ensures r.status == NoContent ==>
      && r.db.prestamos == Remove(db.prestamos, IndexOf(db.prestamos, id))
      && r.db.(prestamos := db.prestamos) == db
  {
    var i := IndexOf(db.prestamos, id);
    if i < 0 then Outcome(db, NotFound)
    else if HasPayments(db.pagos, id) then Outcome(db, BadRequest)
    else Outcome(db.(prestamos := Remove(db.prestamos, i)), NoContent)
  }

  /** A second promotion of the same approved application succeeds too: nothing ties a
      Solicitud to at most one Prestamo. */
  lemma PromotingTwice(db: Db, req: PrestamoInput, now: Moment, later: Moment)
    requires Acceptable(db, req)
    requires db.solicitudes[IndexOf(db.solicitudes, req.solicitudId.value)].val.estado == APROBADO
    ensures var first := StoreOutcome(db, req, now);
      var second := StoreOutcome(first.db, req, later);
      && first.status == Created && second.status == Created
      && |second.db.prestamos| == |db.prestamos| + 2
      && second.db.prestamos[|db.prestamos|].val.solicitudId == second.db.prestamos[|db.prestamos| + 1].val.solicitudId
  {
    var first := StoreOutcome(db, req, now);
    assert first.db.solicitudes == db.solicitudes;
    assert Acceptable(first.db, req);
  }

  lemma StoreKeepsValid(db: Db, req: PrestamoInput, now: Moment)
    requires Valid(db)
    ensures Valid(StoreOutcome(db, req, now).db)
  {
    var r := StoreOutcome(db, req, now);
    if r.status == Created {
      var s := IndexOf(db.solicitudes, req.solicitudId.value);
      var loan := r.db.prestamos[|db.prestamos|];
      Appended(db.prestamos, db.nextPrestamo, loan.val);
      assert r.db.prestamos == db.prestamos + [loan];
      assert db.solicitudes[s].id == loan.val.solicitudId;
    }
  }

  lemma UpdateKeepsValid(db: Db, id: int, patch: PrestamoPatch)
    requires Valid(db)
    ensures Valid(UpdateOutcome(db, id, patch).db)
  {
    var r := UpdateOutcome(db, id, patch);
    if r.status == Ok {
      var i := IndexOf(db.prestamos, id);
      var loan := db.prestamos[i];
      Replaced(db.prestamos, db.nextPrestamo, i, Patched(loan.val, patch));
      assert r.db.prestamos == db.prestamos[i := Row(loan.id, Patched(loan.val, patch))];
    }
  }

  /** Removing a loan that no payment references keeps the store consistent. */
  lemma RemovalKeepsValid(db: Db, i: int)
    requires Valid(db) && 0 <= i < |db.prestamos| && !HasPayments(db.pagos, db.prestamos[i].id)
    ensures Valid(db.(prestamos := Remove(db.prestamos, i)))
  {
    var rest := Remove(db.prestamos, i);
    KeyedRemove(db.prestamos, db.nextPrestamo, i);
    forall k | 0 <= k < |rest| ensures Has(db.solicitudes, rest[k].val.solicitudId) {
      var k' := if k < i then k else k + 1;
      assert rest[k] == db.prestamos[k'];
    }
    forall k | 0 <= k < |db.pagos| ensures Has(rest, db.pagos[k].val.prestamoId) {
      RemoveKeepsHas(db.prestamos, i, db.pagos[k].val.prestamoId);
    }
  }

  lemma DestroyKeepsValid(db: Db, id: int)
    requires Valid(db)
    ensures Valid(DestroyOutcome(db, id).db)
  {
    var r := DestroyOutcome(db, id);
    if r.status == NoContent {
      var i := IndexOf(db.prestamos, id);
      assert r.db == db.(prestamos := Remove(db.prestamos, i));
      RemovalKeepsValid(db, i);
    }
  }

  /** The controller action `store`. */
  method Store(d: Database, req: PrestamoInput, now: Moment) returns (status: Status)
    modifies d
    ensures d.State() == StoreOutcome(old(d.State()), req, now).db
    ensures status == StoreOutcome(old(d.State()), req, now).status
  {
    if !Acceptable(d.State(), req) {
      return Unprocessable;
    }
    var s := IndexOf(d.solicitudes, req.solicitudId.value);
    var solicitud := d.solicitudes[s];
    if solicitud.val.estado != APROBADO {
      return BadRequest;
    }
    var monto := req.montoAprobado.value;
    var loan := Prestamo(solicitud.id, monto, now, req.tasaInteres.value, req.plazoMeses.value, monto, ACTIVO, now);
    d.prestamos, d.nextPrestamo := d.prestamos + [Row(d.nextPrestamo, loan)], d.nextPrestamo + 1;
    return Created;
  }

  /** The controller action `update`. */
  method Update(d: Database, id: int, patch: PrestamoPatch) returns (status: Status)
    modifies d
    ensures d.State() == UpdateOutcome(old(d.State()), id, patch).db
    ensures status == UpdateOutcome(old(d.State()), id, patch).status
  {
    var i := IndexOf(d.prestamos, id);
    if i < 0 {
      return NotFound;
    }
    var prestamo := d.prestamos[i];
    d.prestamos := d.prestamos[i := Row(prestamo.id, Patched(prestamo.val, patch))];
    return Ok;
  }

  /** The controller action `destroy`. */
  method Destroy(d: Database, id: int) returns (status: Status)
    modifies d
    ensures d.State() == DestroyOutcome(old(d.State()), id).db
    ensures status == DestroyOutcome(old(d.State()), id).status
  {
    var i := IndexOf(d.prestamos, id);
    if i < 0 {
      return NotFound;
    }
    if HasPayments(d.pagos, id) {
      return BadRequest;
    }
    d.prestamos := Remove(d.prestamos, i);
    return NoContent;
  }
}
