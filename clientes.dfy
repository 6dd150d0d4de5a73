/** ClienteController: registering, reading, editing and deleting clients, with the national
    id (`dpi`) and the tax id (`nit`) kept unique across clients. */
module Clientes {
  import opened Common
  import opened Records
  import opened Tables

  /** The body of `POST /clientes`; `None` is a missing or null field. */
  datatype ClienteInput = ClienteInput(
    primerNombre: Option<string>,
    segundoNombre: Option<string>,
    primerApellido: Option<string>,
    segundoApellido: Option<string>,
    dpi: Option<string>,
    nit: Option<string>,
    fechaNacimiento: Option<string>,
    direccion: Option<string>,
    correo: Option<string>,
    telefono: Option<string>)

  /** The body of `PUT /clientes/{id}`: an absent key keeps the column; the nullable columns
      can also be cleared (`Some(None)`). */
  datatype ClientePatch = ClientePatch(
    primerNombre: Option<string>,
    segundoNombre: Option<Option<string>>,
    primerApellido: Option<string>,
    segundoApellido: Option<Option<string>>,
    dpi: Option<string>,
    nit: Option<string>,
    fechaNacimiento: Option<string>,
    direccion: Option<Option<string>>,
    correo: Option<Option<string>>,
    telefono: Option<Option<string>>)

  /** `required|string|max:n`: present and not empty, at most `n` characters. */
  predicate Filled(f: Option<string>, max: nat) {
    f.Some? && 0 < |f.value| <= max
  }

  /** `nullable|string|max:n` on create. */
  predicate Fits(f: Option<string>, max: nat) {
    f.None? || |f.value| <= max
  }

  /** `nullable|string|max:n` on update, for a nullable column. */
  predicate FitsPatch(f: Option<Option<string>>, max: nat) {
    f.None? || f.value.None? || |f.value.value| <= max
  }

  /** A client other than `except` already has this `dpi` (`unique:clientes,dpi,except`). */
  predicate DpiTaken(clientes: seq<Row<Cliente>>, dpi: string, except: int) {
    exists k :: 0 <= k < |clientes| && clientes[k].val.dpi == dpi && clientes[k].id != except
  }

  /** A client other than `except` already has this `nit`. */
  predicate NitTaken(clientes: seq<Row<Cliente>>, nit: string, except: int) {
    exists k :: 0 <= k < |clientes| && clientes[k].val.nit == nit && clientes[k].id != except
  }

  /** The validator's rules on create (the date and e-mail formats are not modelled). On
      create no row is excepted from the uniqueness rules: ids are never negative. */
  predicate Acceptable(db: Db, req: ClienteInput) {
    && Filled(req.primerNombre, 100) && Fits(req.segundoNombre, 100)
    && Filled(req.primerApellido, 100) && Fits(req.segundoApellido, 100)
    && Filled(req.dpi, 20) && !DpiTaken(db.clientes, req.dpi.value, -1)
    && Filled(req.nit, 20) && !NitTaken(db.clientes, req.nit.value, -1)
    && req.fechaNacimiento.Some? && |req.fechaNacimiento.value| > 0
    && Fits(req.direccion, 255) && Fits(req.correo, 100) && Fits(req.telefono, 20)
  }

  /** The validator's rules on update of client `id`: bounds on whatever is supplied, and a
      supplied dpi or nit must not belong to any other client. */
  predicate PatchAcceptable(db: Db, id: int, patch: ClientePatch) {
    && Fits(patch.primerNombre, 100) && FitsPatch(patch.segundoNombre, 100)
    && Fits(patch.primerApellido, 100) && FitsPatch(patch.segundoApellido, 100)
    && Fits(patch.dpi, 20) && (patch.dpi.None? || !DpiTaken(db.clientes, patch.dpi.value, id))
    && Fits(patch.nit, 20) && (patch.nit.None? || !NitTaken(db.clientes, patch.nit.value, id))
    && FitsPatch(patch.direccion, 255) && FitsPatch(patch.correo, 100) && FitsPatch(patch.telefono, 20)
  }

  /** The row a successful `POST /clientes` stores. */
  function NewCliente(req: ClienteInput, caller: Option<string>, now: Moment): Cliente
    requires req.primerNombre.Some? && req.primerApellido.Some? && req.dpi.Some? && req.nit.Some?
    requires req.fechaNacimiento.Some?
  {
    Cliente(req.primerNombre.value, req.segundoNombre, req.primerApellido.value, req.segundoApellido,
            req.dpi.value, req.nit.value, req.fechaNacimiento.value, req.direccion, req.correo,
            req.telefono, Some(Actor(caller)), None, now)
  }

  /** `POST /clientes`. */
  function StoreOutcome(db: Db, req: ClienteInput, caller: Option<string>, now: Moment): (r: Outcome)
    ensures r.status == Created || r.status == Unprocessable
    ensures r.status == Created <==> Acceptable(db, req)
    ensures r.status == Unprocessable ==> r.db == db
    ensures r.status == Created ==>
      && |r.db.clientes| == |db.clientes| + 1
      && r.db.clientes[..|db.clientes|] == db.clientes
      && r.db.nextCliente == db.nextCliente + 1
      && r.db.(clientes := db.clientes, nextCliente := db.nextCliente) == db
    ensures r.status == Created ==>
      var c := r.db.clientes[|db.clientes|];
      && c.id == db.nextCliente
      && Some(c.val.primerNombre) == req.primerNombre && Some(c.val.primerApellido) == req.primerApellido
      && c.val.segundoNombre == req.segundoNombre && c.val.segundoApellido == req.segundoApellido
      && Some(c.val.dpi) == req.dpi && Some(c.val.nit) == req.nit
      && Some(c.val.fechaNacimiento) == req.fechaNacimiento
      && c.val.direccion == req.direccion && c.val.correo == req.correo && c.val.telefono == req.telefono
      && c.val.usuarioCrea == Some(Actor(caller)) && c.val.usuarioActualiza == None
      && c.val.createdAt == now
  {
    if !Acceptable(db, req) then Outcome(db, Unprocessable)
    else
      Outcome(db.(clientes := db.clientes + [Row(db.nextCliente, NewCliente(req, caller, now))],
                  nextCliente := db.nextCliente + 1),
              Created)
  }

  /** What `GET /clientes/{id}` answers. */
  datatype Shown = Shown(status: Status, cliente: Option<Row<Cliente>>)

  /** `GET /clientes/{id}`: the client, or 404. */
  function Show(db: Db, id: int): (r: Shown)
    ensures r.status == Ok || r.status == NotFound
    ensures r.status == NotFound <==> !Has(db.clientes, id)
    ensures r.status == NotFound ==> r.cliente == None
    ensures r.status == Ok ==> r.cliente.Some? && r.cliente.value.id == id && r.cliente.value in db.clientes
  {
    var i := IndexOf(db.clientes, id);
    if i < 0 then Shown(NotFound, None) else Shown(Ok, Some(db.clientes[i]))
  }

  /** The client with the supplied fields written over it and the updater stamped. */
  function Patched(c: Cliente, patch: ClientePatch, caller: Option<string>): Cliente {
    c.(primerNombre := patch.primerNombre.GetOr(c.primerNombre),
       segundoNombre := patch.segundoNombre.GetOr(c.segundoNombre),
       primerApellido := patch.primerApellido.GetOr(c.primerApellido),
       segundoApellido := patch.segundoApellido.GetOr(c.segundoApellido),
       dpi := patch.dpi.GetOr(c.dpi),
       nit := patch.nit.GetOr(c.nit),
       fechaNacimiento := patch.fechaNacimiento.GetOr(c.fechaNacimiento),
       direccion := patch.direccion.GetOr(c.direccion),
       correo := patch.correo.GetOr(c.correo),
       telefono := patch.telefono.GetOr(c.telefono),
       usuarioActualiza := Some(Actor(caller)))
  }

  /** `PUT /clientes/{id}`. The id is looked up before the body is validated. */
  function UpdateOutcome(db: Db, id: int, patch: ClientePatch, caller: Option<string>): (r: Outcome)
    ensures r.status == Ok || r.status == NotFound || r.status == Unprocessable
    ensures r.status == NotFound <==> !Has(db.clientes, id)
    ensures r.status == Unprocessable <==> Has(db.clientes, id) && !PatchAcceptable(db, id, patch)
    ensures r.status != Ok ==> r.db == db
    ensures r.status == Ok ==> |r.db.clientes| == |db.clientes|
    ensures r.status == Ok ==>
      var i := IndexOf(db.clientes, id);
      var before := db.clientes[i];
      var after := r.db.clientes[i];
      && after.id == before.id
      && after.val.dpi == (if patch.dpi.Some? then patch.dpi.value else before.val.dpi)
      && after.val.nit == (if patch.nit.Some? then patch.nit.value else before.val.nit)
      && after.val.primerNombre == (if patch.primerNombre.Some? then patch.primerNombre.value else before.val.primerNombre)
      && after.val.primerApellido == (if patch.primerApellido.Some? then patch.primerApellido.value else before.val.primerApellido)
      && after.val.fechaNacimiento == (if patch.fechaNacimiento.Some? then patch.fechaNacimiento.value else before.val.fechaNacimiento)
      // a nullable column is kept, overwritten or cleared as the request says
      && after.val.segundoNombre == (if patch.segundoNombre.Some? then patch.segundoNombre.value else before.val.segundoNombre)
      && after.val.segundoApellido == (if patch.segundoApellido.Some? then patch.segundoApellido.value else before.val.segundoApellido)
      && after.val.direccion == (if patch.direccion.Some? then patch.direccion.value else before.val.direccion)
      && after.val.correo == (if patch.correo.Some? then patch.correo.value else before.val.correo)
      && after.val.telefono == (if patch.telefono.Some? then patch.telefono.value else before.val.telefono)
      && after.val.usuarioCrea == before.val.usuarioCrea
      && after.val.usuarioActualiza == Some(Actor(caller))
      && after.val.createdAt == before.val.createdAt
      && (forall k :: 0 <= k < |db.clientes| && k != i ==> r.db.clientes[k] == db.clientes[k])
      && r.db.(clientes := db.clientes) == db
  {
    var i := IndexOf(db.clientes, id);
    if i < 0 then Outcome(db, NotFound)
    else if !PatchAcceptable(db, id, patch) then Outcome(db, Unprocessable)
    else
      var c := db.clientes[i];
      Outcome(db.(clientes := db.clientes[i := Row(c.id, Patched(c.val, patch, caller))]), Ok)
  }

  /** Some application belongs to client `id`. */
  predicate HasApplications(solicitudes: seq<Row<Solicitud>>, id: int) {
    exists k :: 0 <= k < |solicitudes| && solicitudes[k].val.clienteId == id
  }

  /** `DELETE /clientes/{id}`. The controller deletes without looking for applications; the
      foreign key of the solicitudes table refuses the delete of a client that has some,
      which surfaces as a database error. */
  function DestroyOutcome(db: Db, id: int): (r: Outcome)
    ensures r.status == NoContent || r.status == NotFound || r.status == ServerError
    ensures r.status == NotFound <==> !Has(db.clientes, id)
    ensures r.status == ServerError <==> Has(db.clientes, id) && HasApplications(db.solicitudes, id)
    ensures r.status != NoContent ==> r.db == db
    ensures r.status == NoContent ==>
      && r.db.clientes == Remove(db.clientes, IndexOf(db.clientes, id))
      && r.db.(clientes := db.clientes) == db
  {
    var i := IndexOf(db.clientes, id);
    if i < 0 then Outcome(db, NotFound)
    else if HasApplications(db.solicitudes, id) then Outcome(db, ServerError)
    else Outcome(db.(clientes := Remove(db.clientes, i)), NoContent)
  }

  /** Sending back one's own dpi and nit on update is never a uniqueness violation. */
  lemma KeepingOwnIdentity(db: Db, id: int, caller: Option<string>)
    requires Valid(db) && Has(db.clientes, id)
    ensures var c := db.clientes[IndexOf(db.clientes, id)].val;
      var patch := ClientePatch(None, None, None, None, Some(c.dpi), Some(c.nit), None, None, None, None);
      |c.dpi| <= 20 && |c.nit| <= 20 ==> UpdateOutcome(db, id, patch, caller).status == Ok
  {
  }

  lemma StoreKeepsValid(db: Db, req: ClienteInput, caller: Option<string>, now: Moment)
    requires Valid(db)
    ensures Valid(StoreOutcome(db, req, caller, now).db)
  {
    var r := StoreOutcome(db, req, caller, now);
    if r.status == Created {
      var c := r.db.clientes[|db.clientes|];
      Appended(db.clientes, db.nextCliente, c.val);
      assert r.db.clientes == db.clientes + [c];
      forall i, j | 0 <= i < |r.db.clientes| && 0 <= j < |r.db.clientes| && i != j
        ensures r.db.clientes[i].val.dpi != r.db.clientes[j].val.dpi
        ensures r.db.clientes[i].val.nit != r.db.clientes[j].val.nit
      {
        if i < |db.clientes| && j < |db.clientes| {
        } else if i < |db.clientes| {
          assert db.clientes[i].id != -1;
        } else {
          assert db.clientes[j].id != -1;
        }
      }
    }
  }

  lemma UpdateKeepsValid(db: Db, id: int, patch: ClientePatch, caller: Option<string>)
    requires Valid(db)
    ensures Valid(UpdateOutcome(db, id, patch, caller).db)
  {
    var r := UpdateOutcome(db, id, patch, caller);
    if r.status == Ok {
      var i := IndexOf(db.clientes, id);
      var c := db.clientes[i];
      Replaced(db.clientes, db.nextCliente, i, Patched(c.val, patch, caller));
      assert r.db.clientes == db.clientes[i := Row(c.id, Patched(c.val, patch, caller))];
      forall a, b | 0 <= a < |r.db.clientes| && 0 <= b < |r.db.clientes| && a != b
        ensures r.db.clientes[a].val.dpi != r.db.clientes[b].val.dpi
        ensures r.db.clientes[a].val.nit != r.db.clientes[b].val.nit
      {
        if a == i {
          assert db.clientes[b].id != id;
        } else if b == i {
          assert db.clientes[a].id != id;
        }
      }
    }
  }

  /** Removing a client that no application references keeps the store consistent. */
  lemma RemovalKeepsValid(db: Db, i: int)
    requires Valid(db) && 0 <= i < |db.clientes| && !HasApplications(db.solicitudes, db.clientes[i].id)
    ensures Valid(db.(clientes := Remove(db.clientes, i)))
  {
    var rest := Remove(db.clientes, i);
    KeyedRemove(db.clientes, db.nextCliente, i);
    forall a, b | 0 <= a < |rest| && 0 <= b < |rest| && a != b
      ensures rest[a].val.dpi != rest[b].val.dpi && rest[a].val.nit != rest[b].val.nit
    {
      var a' := if a < i then a else a + 1;
      var b' := if b < i then b else b + 1;
      assert rest[a] == db.clientes[a'] && rest[b] == db.clientes[b'];
    }
    forall k | 0 <= k < |db.solicitudes| ensures Has(rest, db.solicitudes[k].val.clienteId) {
      RemoveKeepsHas(db.clientes, i, db.solicitudes[k].val.clienteId);
    }
  }

  lemma DestroyKeepsValid(db: Db, id: int)
    requires Valid(db)
    ensures Valid(DestroyOutcome(db, id).db)
  {
    var r := DestroyOutcome(db, id);
    if r.status == NoContent {
      var i := IndexOf(db.clientes, id);
      assert r.db == db.(clientes := Remove(db.clientes, i));
      RemovalKeepsValid(db, i);
    }
  }

  /** The controller action `store`. */
  method Store(d: Database, req: ClienteInput, caller: Option<string>, now: Moment) returns (status: Status)
    modifies d
    ensures d.State() == StoreOutcome(old(d.State()), req, caller, now).db
    ensures status == StoreOutcome(old(d.State()), req, caller, now).status
  {
    if !Acceptable(d.State(), req) {
      return Unprocessable;
    }
    d.clientes, d.nextCliente := d.clientes + [Row(d.nextCliente, NewCliente(req, caller, now))], d.nextCliente + 1;
    return Created;
  }

  /** The controller action `update`. */
  method Update(d: Database, id: int, patch: ClientePatch, caller: Option<string>) returns (status: Status)
    modifies d
    ensures d.State() == UpdateOutcome(old(d.State()), id, patch, caller).db
    ensures status == UpdateOutcome(old(d.State()), id, patch, caller).status
  {
    var i := IndexOf(d.clientes, id);
    if i < 0 {
      return NotFound;
    }
    if !PatchAcceptable(d.State(), id, patch) {
      return Unprocessable;
    }
    var c := d.clientes[i];
    d.clientes := d.clientes[i := Row(c.id, Patched(c.val, patch, caller))];
    return Ok;
  }

  /** The controller action `destroy`. */
  method Destroy(d: Database, id: int) returns (status: Status)
    modifies d
    ensures d.State() == DestroyOutcome(old(d.State()), id).db
    ensures status == DestroyOutcome(old(d.State()), id).status
  {
    var i := IndexOf(d.clientes, id);
    if i < 0 {
      return NotFound;
    }
    if HasApplications(d.solicitudes, id) {
      return ServerError;
    }
    d.clientes := Remove(d.clientes, i);
    return NoContent;
  }
}
