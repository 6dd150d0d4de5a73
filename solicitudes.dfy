/** SolicitudController: filing a loan application, editing it (which is also how it is
    approved or rejected) and deleting it. */
module Solicitudes {
  import opened Common
  import opened Records
  import opened Tables

  /** The body of `POST /solicitudes`. `estado` is not among the validated keys, so whatever
      the caller sends there is dropped. */
  datatype SolicitudInput = SolicitudInput(
    clienteId: Option<int>,
    montoSolicitado: Option<Cents>,
    plazoMeses: Option<int>,
    tasaInteres: Option<int>,
    estado: Option<string>,
    observaciones: Option<string>)

  /** The body of `PUT /solicitudes/{id}`: an absent key keeps the column. `observaciones` is
      nullable, so it can also be cleared (`Some(None)`). `clienteId` is not validated on
      update and is dropped like any unknown key. */
  datatype SolicitudPatch = SolicitudPatch(
    clienteId: Option<int>,
    montoSolicitado: Option<Cents>,
    plazoMeses: Option<int>,
    tasaInteres: Option<int>,
    estado: Option<string>,
    observaciones: Option<Option<string>>)

  const MAX_OBSERVACIONES: nat := 255

  /** The validator's rules on create: an existing client, at least 1.00 requested, a term of
      at least one month, a non-negative rate and notes of at most 255 characters. */
  predicate Acceptable(db: Db, req: SolicitudInput) {
    && req.clienteId.Some? && Has(db.clientes, req.clienteId.value)
    && req.montoSolicitado.Some? && req.montoSolicitado.value >= 100
    && req.plazoMeses.Some? && req.plazoMeses.value >= 1
    && req.tasaInteres.Some? && req.tasaInteres.value >= 0
    && (req.observaciones.None? || |req.observaciones.value| <= MAX_OBSERVACIONES)
  }

  /** The validator's rules on update: the same bounds on whatever is supplied, and a status
      that is one of the three known ones. */
  predicate PatchAcceptable(patch: SolicitudPatch) {
    && (patch.montoSolicitado.None? || patch.montoSolicitado.value >= 100)
    && (patch.plazoMeses.None? || patch.plazoMeses.value >= 1)
    && (patch.tasaInteres.None? || patch.tasaInteres.value >= 0)
    && (patch.estado.None? || IsSolicitudEstado(patch.estado.value))
    && (patch.observaciones.None? || patch.observaciones.value.None?
        || |patch.observaciones.value.value| <= MAX_OBSERVACIONES)
  }

  /** Some loan was promoted from application `id`. */
  predicate HasLoan(prestamos: seq<Row<Prestamo>>, id: int) {
    exists k :: 0 <= k < |prestamos| && prestamos[k].val.solicitudId == id
  }

  /** `POST /solicitudes`. */
  function StoreOutcome(db: Db, req: SolicitudInput, caller: Option<string>, now: Moment): (r: Outcome)
    ensures r.status == Created || r.status == Unprocessable
    ensures r.status == Created <==> Acceptable(db, req)
    ensures r.status == Unprocessable ==> r.db == db
    ensures r.status == Created ==>
      && |r.db.solicitudes| == |db.solicitudes| + 1
      && r.db.solicitudes[..|db.solicitudes|] == db.solicitudes
      && r.db.nextSolicitud == db.nextSolicitud + 1
      && r.db.(solicitudes := db.solicitudes, nextSolicitud := db.nextSolicitud) == db
    ensures r.status == Created ==>
      var s := r.db.solicitudes[|db.solicitudes|];
      && s.id == db.nextSolicitud
      // every new application starts EN PROCESO, whatever the request says
      && s.val.estado == EN_PROCESO
      && s.val.clienteId == req.clienteId.value
      && s.val.montoSolicitado == req.montoSolicitado.value
      && s.val.plazoMeses == req.plazoMeses.value
      && s.val.tasaInteres == req.tasaInteres.value
      && s.val.observaciones == req.observaciones
      && s.val.usuarioCrea == Some(Actor(caller))
      && s.val.usuarioActualiza == None
      && s.val.fechaSolicitud == now
  {
    if !Acceptable(db, req) then Outcome(db, Unprocessable)
    else
      var s := Solicitud(req.clienteId.value, req.montoSolicitado.value, req.plazoMeses.value,
                         req.tasaInteres.value, EN_PROCESO, req.observaciones, now, Some(Actor(caller)), None);
      Outcome(db.(solicitudes := db.solicitudes + [Row(db.nextSolicitud, s)], nextSolicitud := db.nextSolicitud + 1),
              Created)
  }

  /** The application with the supplied fields written over it and the updater stamped. */
  function Patched(s: Solicitud, patch: SolicitudPatch, caller: Option<string>): Solicitud {
    s.(montoSolicitado := patch.montoSolicitado.GetOr(s.montoSolicitado),
       plazoMeses := patch.plazoMeses.GetOr(s.plazoMeses),
       tasaInteres := patch.tasaInteres.GetOr(s.tasaInteres),
       estado := patch.estado.GetOr(s.estado),
       observaciones := patch.observaciones.GetOr(s.observaciones),
       usuarioActualiza := Some(Actor(caller)))
  }

  /** `PUT /solicitudes/{id}`. The id is looked up before the body is validated. Only
      membership of the status is checked: any status may replace any other. */
  function UpdateOutcome(db: Db, id: int, patch: SolicitudPatch, caller: Option<string>): (r: Outcome)
    ensures r.status == Ok || r.status == NotFound || r.status == Unprocessable
    ensures r.status == NotFound <==> !Has(db.solicitudes, id)
    ensures r.status == Unprocessable <==> Has(db.solicitudes, id) && !PatchAcceptable(patch)
    ensures r.status != Ok ==> r.db == db
    ensures r.status == Ok ==> |r.db.solicitudes| == |db.solicitudes|
    ensures r.status == Ok ==>
      var i := IndexOf(db.solicitudes, id);
      var before := db.solicitudes[i];
      var after := r.db.solicitudes[i];
      && after.id == before.id
      // the owner, the filing date and the creator never change
      && after.val.clienteId == before.val.clienteId
      && after.val.fechaSolicitud == before.val.fechaSolicitud
      && after.val.usuarioCrea == before.val.usuarioCrea
      && after.val.usuarioActualiza == Some(Actor(caller))
      && after.val.estado == (if patch.estado.Some? then patch.estado.value else before.val.estado)
      && after.val.montoSolicitado == (if patch.montoSolicitado.Some? then patch.montoSolicitado.value else before.val.montoSolicitado)
      && after.val.plazoMeses == (if patch.plazoMeses.Some? then patch.plazoMeses.value else before.val.plazoMeses)
      && after.val.tasaInteres == (if patch.tasaInteres.Some? then patch.tasaInteres.value else before.val.tasaInteres)
      && after.val.observaciones == (if patch.observaciones.Some? then patch.observaciones.value else before.val.observaciones)
      && (forall k :: 0 <= k < |db.solicitudes| && k != i ==> r.db.solicitudes[k] == db.solicitudes[k])
      && r.db.(solicitudes := db.solicitudes) == db
  {
    var i := IndexOf(db.solicitudes, id);
    if i < 0 then Outcome(db, NotFound)
    else if !PatchAcceptable(patch) then Outcome(db, Unprocessable)
    else
      var s := db.solicitudes[i];
      Outcome(db.(solicitudes := db.solicitudes[i := Row(s.id, Patched(s.val, patch, caller))]), Ok)
  }

  /** `DELETE /solicitudes/{id}`. The controller does not look for a loan; the foreign key of the
      prestamos table refuses the delete of a promoted application, which surfaces as a
      database error. */
  function DestroyOutcome(db: Db, id: int): (r: Outcome)
    ensures r.status == NoContent || r.status == NotFound || r.status == ServerError
    ensures r.status == NotFound <==> !Has(db.solicitudes, id)
    ensures r.status == ServerError <==> Has(db.solicitudes, id) && HasLoan(db.prestamos, id)
    ensures r.status != NoContent ==> r.db == db
    ensures r.status == NoContent ==>
      && r.db.solicitudes == Remove(db.solicitudes, IndexOf(db.solicitudes, id))
      && r.db.(solicitudes := db.solicitudes) == db
  {
    var i := IndexOf(db.solicitudes, id);
    if i < 0 then Outcome(db, NotFound)
    else if HasLoan(db.prestamos, id) then Outcome(db, ServerError)
    else Outcome(db.(solicitudes := Remove(db.solicitudes, i)), NoContent)
  }

  /** Whatever status an application has, an update may move it to any of the three. */
  lemma AnyStatusFollowsAny(db: Db, id: int, target: string, caller: Option<string>)
    requires Has(db.solicitudes, id) && IsSolicitudEstado(target)
    ensures var r := UpdateOutcome(db, id, SolicitudPatch(None, None, None, None, Some(target), None), caller);
      r.status == Ok && r.db.solicitudes[IndexOf(db.solicitudes, id)].val.estado == target
  {
  }

  lemma StoreKeepsValid(db: Db, req: SolicitudInput, caller: Option<string>, now: Moment)
    requires Valid(db)
    ensures Valid(StoreOutcome(db, req, caller, now).db)
  {
    var r := StoreOutcome(db, req, caller, now);
    if r.status == Created {
      var s := r.db.solicitudes[|db.solicitudes|];
      Appended(db.solicitudes, db.nextSolicitud, s.val);
      assert r.db.solicitudes == db.solicitudes + [s];
    }
  }

  lemma UpdateKeepsValid(db: Db, id: int, patch: SolicitudPatch, caller: Option<string>)
    requires Valid(db)
    ensures Valid(UpdateOutcome(db, id, patch, caller).db)
  {
    var r := UpdateOutcome(db, id, patch, caller);
    if r.status == Ok {
      var i := IndexOf(db.solicitudes, id);
      var s := db.solicitudes[i];
      Replaced(db.solicitudes, db.nextSolicitud, i, Patched(s.val, patch, caller));
      assert r.db.solicitudes == db.solicitudes[i := Row(s.id, Patched(s.val, patch, caller))];
    }
  }

  /** Removing an application that no loan references keeps the store consistent. */
  lemma RemovalKeepsValid(db: Db, i: int)
    requires Valid(db) && 0 <= i < |db.solicitudes| && !HasLoan(db.prestamos, db.solicitudes[i].id)
    ensures Valid(db.(solicitudes := Remove(db.solicitudes, i)))
  {
    var rest := Remove(db.solicitudes, i);
    KeyedRemove(db.solicitudes, db.nextSolicitud, i);
    forall k | 0 <= k < |rest|
      ensures Has(db.clientes, rest[k].val.clienteId) && IsSolicitudEstado(rest[k].val.estado)
    {
      var k' := if k < i then k else k + 1;
      assert rest[k] == db.solicitudes[k'];
    }
    forall k | 0 <= k < |db.prestamos| ensures Has(rest, db.prestamos[k].val.solicitudId) {
      RemoveKeepsHas(db.solicitudes, i, db.prestamos[k].val.solicitudId);
    }
  }

  lemma DestroyKeepsValid(db: Db, id: int)
    requires Valid(db)
    ensures Valid(DestroyOutcome(db, id).db)
  {
    var r := DestroyOutcome(db, id);
    if r.status == NoContent {
      var i := IndexOf(db.solicitudes, id);
      assert r.db == db.(solicitudes := Remove(db.solicitudes, i));
      RemovalKeepsValid(db, i);
    }
  }

  /** The controller action `store`. */
  method Store(d: Database, req: SolicitudInput, caller: Option<string>, now: Moment) returns (status: Status)
    modifies d
    ensures d.State() == StoreOutcome(old(d.State()), req, caller, now).db
    ensures status == StoreOutcome(old(d.State()), req, caller, now).status
  {
    if !Acceptable(d.State(), req) {
      return Unprocessable;
    }
    var s := Solicitud(req.clienteId.value, req.montoSolicitado.value, req.plazoMeses.value,
                       req.tasaInteres.value, EN_PROCESO, req.observaciones, now, Some(Actor(caller)), None);
    d.solicitudes, d.nextSolicitud := d.solicitudes + [Row(d.nextSolicitud, s)], d.nextSolicitud + 1;
    return Created;
  }

  /** The controller action `update`. */
  method Update(d: Database, id: int, patch: SolicitudPatch, caller: Option<string>) returns (status: Status)
    modifies d
    ensures d.State() == UpdateOutcome(old(d.State()), id, patch, caller).db
    ensures status == UpdateOutcome(old(d.State()), id, patch, caller).status
  {
    var i := IndexOf(d.solicitudes, id);
    if i < 0 {
      return NotFound;
    }
    if !PatchAcceptable(patch) {
      return Unprocessable;
    }
    var s := d.solicitudes[i];
    d.solicitudes := d.solicitudes[i := Row(s.id, Patched(s.val, patch, caller))];
    return Ok;
  }

  /** The controller action `destroy`. */
  method Destroy(d: Database, id: int) returns (status: Status)
    modifies d
    ensures d.State() == DestroyOutcome(old(d.State()), id).db
    ensures status == DestroyOutcome(old(d.State()), id).status
  {
    var i := IndexOf(d.solicitudes, id);
    if i < 0 {
      return NotFound;
    }
    if HasLoan(d.prestamos, id) {
      return ServerError;
    }
    d.solicitudes := Remove(d.solicitudes, i);
    return NoContent;
  }
}
