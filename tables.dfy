/** The relational store: four auto-increment tables, the database invariants the
    migrations declare (primary keys, unique dpi/nit, foreign keys), and the mutable
    `Database` object the controller actions update. */
module Tables {
  import opened Common
  import opened Records

  /** A table row: the primary key `id` and the record. */
  datatype Row<T> = Row(id: nat, val: T)

  /** Position of the row with primary key `id`, or -1 when there is none (`Model::find`). */
  function IndexOf<T>(rows: seq<Row<T>>, id: int): (r: int)
    ensures -1 <= r < |rows|
    ensures r >= 0 ==> rows[r].id == id && forall k :: 0 <= k < r ==> rows[k].id != id
    ensures r < 0 <==> forall k :: 0 <= k < |rows| ==> rows[k].id != id
  {
    if |rows| == 0 then -1
    else if rows[0].id == id then 0
    else
      var k := IndexOf(rows[1..], id);
      if k < 0 then -1 else k + 1
  }

  /** Some row has primary key `id` (the validator's `exists:` rule). */
  predicate Has<T>(rows: seq<Row<T>>, id: int) {
    exists k :: 0 <= k < |rows| && rows[k].id == id
  }

  /** Primary keys are strictly increasing in insertion order and below the next id. */
  ghost predicate Keyed<T>(rows: seq<Row<T>>, next: nat) {
    && (forall i, j :: 0 <= i < j < |rows| ==> rows[i].id < rows[j].id)
    && (forall i :: 0 <= i < |rows| ==> rows[i].id < next)
  }

  /** The table without its row at position `i` (`$model->delete()`). */
  function Remove<T>(rows: seq<Row<T>>, i: int): (r: seq<Row<T>>)
    requires 0 <= i < |rows|
    ensures |r| == |rows| - 1
    ensures forall k :: 0 <= k < i ==> r[k] == rows[k]
    ensures forall k :: i <= k < |r| ==> r[k] == rows[k + 1]
  {
    rows[..i] + rows[i + 1..]
  }

  lemma KeyedFinds<T>(rows: seq<Row<T>>, next: nat, k: int)
    requires Keyed(rows, next) && 0 <= k < |rows|
    ensures IndexOf(rows, rows[k].id) == k
  {
  }

  lemma KeyedRemove<T>(rows: seq<Row<T>>, next: nat, i: int)
    requires Keyed(rows, next) && 0 <= i < |rows|
    ensures Keyed(Remove(rows, i), next)
    ensures !Has(Remove(rows, i), rows[i].id)
  {
    var r := Remove(rows, i);
    forall a, b | 0 <= a < b < |r| ensures r[a].id < r[b].id {
      var a' := if a < i then a else a + 1;
      var b' := if b < i then b else b + 1;
      assert r[a] == rows[a'] && r[b] == rows[b'];
    }
    forall k | 0 <= k < |r| ensures r[k].id != rows[i].id {
      var k' := if k < i then k else k + 1;
      assert r[k] == rows[k'];
    }
  }

  /** A row other than the removed one is still there after the removal. */
  lemma RemoveKeepsHas<T>(rows: seq<Row<T>>, i: int, id: int)
    requires 0 <= i < |rows| && Has(rows, id) && id != rows[i].id
    ensures Has(Remove(rows, i), id)
  {
    var k :| 0 <= k < |rows| && rows[k].id == id;
    var k' := if k < i then k else k - 1;
    assert Remove(rows, i)[k'] == rows[k];
  }

  /** Appending a row keeps the older keys findable and makes the new one findable. */
  lemma Appended<T>(rows: seq<Row<T>>, next: nat, v: T)
    requires Keyed(rows, next)
    ensures Keyed(rows + [Row(next, v)], next + 1)
    ensures forall id :: Has(rows + [Row(next, v)], id) <==> Has(rows, id) || id == next
  {
    var r := rows + [Row(next, v)];
    forall id ensures Has(r, id) <==> Has(rows, id) || id == next {
      if Has(rows, id) {
        var k :| 0 <= k < |rows| && rows[k].id == id;
        assert r[k] == rows[k];
      }
      if id == next {
        assert r[|rows|].id == id;
      }
      if Has(r, id) && id != next {
        var k :| 0 <= k < |r| && r[k].id == id;
        assert k < |rows| && r[k] == rows[k];
      }
    }
  }

  /** Overwriting a row's record in place (`$model->update()`) keeps every key. */
  lemma Replaced<T>(rows: seq<Row<T>>, next: nat, i: int, v: T)
    requires 0 <= i < |rows|
    ensures Keyed(rows[i := Row(rows[i].id, v)], next) <==> Keyed(rows, next)
    ensures forall id :: Has(rows[i := Row(rows[i].id, v)], id) <==> Has(rows, id)
  {
    var r := rows[i := Row(rows[i].id, v)];
    assert forall k :: 0 <= k < |r| ==> r[k].id == rows[k].id;
    forall id ensures Has(r, id) <==> Has(rows, id) {
      if Has(rows, id) {
        var k :| 0 <= k < |rows| && rows[k].id == id;
        assert r[k].id == id;
      }
      if Has(r, id) {
        var k :| 0 <= k < |r| && r[k].id == id;
        assert rows[k].id == id;
      }
    }
  }

  /** The whole store. Each table has its own auto-increment counter. */
  datatype Db = Db(
    clientes: seq<Row<Cliente>>,
    solicitudes: seq<Row<Solicitud>>,
    prestamos: seq<Row<Prestamo>>,
    pagos: seq<Row<Pago>>,
    nextCliente: nat,
    nextSolicitud: nat,
    nextPrestamo: nat,
    nextPago: nat)

  /** What a state-changing controller action leaves behind: the store and the status. */
  datatype Outcome = Outcome(db: Db, status: Status)

  /** The freshly migrated, empty store; auto-increment starts at 1. */
  function Empty(): (db: Db)
    ensures Valid(db)
  {
    Db([], [], [], [], 1, 1, 1, 1)
  }

  /** No two clients share a `dpi` or a `nit` (the unique indexes of the clientes table). */
  ghost predicate DistinctIdentities(clientes: seq<Row<Cliente>>) {
    forall i, j :: 0 <= i < |clientes| && 0 <= j < |clientes| && i != j ==>
      clientes[i].val.dpi != clientes[j].val.dpi && clientes[i].val.nit != clientes[j].val.nit
  }

  /** Foreign key `solicitudes.cliente_id`. */
  ghost predicate SolicitudesOwned(solicitudes: seq<Row<Solicitud>>, clientes: seq<Row<Cliente>>) {
    forall k :: 0 <= k < |solicitudes| ==> Has(clientes, solicitudes[k].val.clienteId)
  }

  /** Foreign key `prestamos.solicitud_id`. */
  ghost predicate PrestamosOwned(prestamos: seq<Row<Prestamo>>, solicitudes: seq<Row<Solicitud>>) {
    forall k :: 0 <= k < |prestamos| ==> Has(solicitudes, prestamos[k].val.solicitudId)
  }

  /** Foreign key `pagos.prestamo_id`. */
  ghost predicate PagosOwned(pagos: seq<Row<Pago>>, prestamos: seq<Row<Prestamo>>) {
    forall k :: 0 <= k < |pagos| ==> Has(prestamos, pagos[k].val.prestamoId)
  }

  /** Every application has one of the three statuses the validators let through. */
  ghost predicate KnownEstados(solicitudes: seq<Row<Solicitud>>) {
    forall k :: 0 <= k < |solicitudes| ==> IsSolicitudEstado(solicitudes[k].val.estado)
  }

  /** Every payment is of at least 0.01 (`min:0.01`). */
  ghost predicate PositiveAmounts(pagos: seq<Row<Pago>>) {
    forall k :: 0 <= k < |pagos| ==> pagos[k].val.montoPagado >= 1
  }

  /** The invariants the schema and the validators maintain together. */
  ghost predicate Valid(db: Db) {
    && Keyed(db.clientes, db.nextCliente)
    && Keyed(db.solicitudes, db.nextSolicitud)
    && Keyed(db.prestamos, db.nextPrestamo)
    && Keyed(db.pagos, db.nextPago)
    && DistinctIdentities(db.clientes)
    && SolicitudesOwned(db.solicitudes, db.clientes)
    && PrestamosOwned(db.prestamos, db.solicitudes)
    && PagosOwned(db.pagos, db.prestamos)
    && KnownEstados(db.solicitudes)
    && PositiveAmounts(db.pagos)
  }

  /** The database the controllers share. Each controller action is one atomic update of
      these fields. */
  class Database {
    var clientes: seq<Row<Cliente>>
    var solicitudes: seq<Row<Solicitud>>
    var prestamos: seq<Row<Prestamo>>
    var pagos: seq<Row<Pago>>
    var nextCliente: nat
    var nextSolicitud: nat
    var nextPrestamo: nat
    var nextPago: nat

    /** The current contents of the store, as a value. */
    function State(): Db
      reads this
    {
      Db(clientes, solicitudes, prestamos, pagos, nextCliente, nextSolicitud, nextPrestamo, nextPago)
    }

    constructor ()
      ensures State() == Empty()
    {
      clientes, solicitudes, prestamos, pagos := [], [], [], [];
      nextCliente, nextSolicitud, nextPrestamo, nextPago := 1, 1, 1, 1;
    }
  }
}
