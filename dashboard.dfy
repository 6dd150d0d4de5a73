/** DashboardController: a read-only summary of the store — how many clients, how many
    active loans, the payments taken in the current month and the five newest loans with
    their client's name. */
module Dashboard {
  import opened Common
  import opened Records
  import opened Tables
  import Pagos
  import Prestamos

  /** How many loans `prestamos_recientes` lists at most. */
  const RECENT: nat := 5

  /** The number of loans whose status is ACTIVO. */
  function ActiveCount(prestamos: seq<Row<Prestamo>>): (n: nat)
    ensures n <= |prestamos|
  {
    if |prestamos| == 0 then 0
    else ActiveCount(prestamos[..|prestamos| - 1]) + (if prestamos[|prestamos| - 1].val.estado == ACTIVO then 1 else 0)
  }

  /** The sum of the payments created in calendar month `month`, in any year. */
  function MonthlyIncome(pagos: seq<Row<Pago>>, month: int): Cents {
    if |pagos| == 0 then 0
    else
      var last := pagos[|pagos| - 1];
      MonthlyIncome(pagos[..|pagos| - 1], month) + (if last.val.createdAt.month == month then last.val.montoPagado else 0)
  }

  /** Loans listed newest first by `created_at`. */
  predicate NewestFirst(s: seq<Row<Prestamo>>) {
    forall k :: 0 < k < |s| ==> NotAfter(s[k].val.createdAt, s[k - 1].val.createdAt)
  }

  lemma NotAfterTotal(a: Moment, b: Moment)
    ensures NotAfter(a, b) || NotAfter(b, a)
  {
  }

  lemma NotAfterTransitive(a: Moment, b: Moment, c: Moment)
    requires NotAfter(a, b) && NotAfter(b, c)
    ensures NotAfter(a, c)
  {
  }

  /** In a newest-first list every later loan is no newer than every earlier one. */
  lemma {:induction false} NewestFirstOrdered(s: seq<Row<Prestamo>>, i: int, j: int)
    requires NewestFirst(s) && 0 <= i <= j < |s|
    ensures NotAfter(s[j].val.createdAt, s[i].val.createdAt)
  {
    if i < j {
      NewestFirstOrdered(s, i, j - 1);
      NotAfterTransitive(s[j].val.createdAt, s[j - 1].val.createdAt, s[i].val.createdAt);
    }
  }

  /** `loan` put into a newest-first list, after the loans newer than it. */
  function Insert(loan: Row<Prestamo>, sorted: seq<Row<Prestamo>>): (r: seq<Row<Prestamo>>)
    requires NewestFirst(sorted)
    ensures NewestFirst(r)
    ensures multiset(r) == multiset(sorted) + multiset{loan}
    ensures |r| == |sorted| + 1
    ensures r[0] == loan || (|sorted| > 0 && r[0] == sorted[0])
  {
    if |sorted| == 0 then [loan]
    else if NotAfter(sorted[0].val.createdAt, loan.val.createdAt) then [loan] + sorted
    else
      NotAfterTotal(sorted[0].val.createdAt, loan.val.createdAt);
      assert sorted == [sorted[0]] + sorted[1..];
      [sorted[0]] + Insert(loan, sorted[1..])
  }

  /** `orderBy('created_at', 'desc')`: the loans rearranged newest first. Loans created at
      the same instant keep their storage order. */
  function SortNewest(loans: seq<Row<Prestamo>>): (r: seq<Row<Prestamo>>)
    ensures NewestFirst(r)
    ensures multiset(r) == multiset(loans)
    ensures |r| == |loans|
  {
    if |loans| == 0 then []
    else
      assert loans == [loans[0]] + loans[1..];
      Insert(loans[0], SortNewest(loans[1..]))
  }

  lemma PrefixOfNewestFirst(sorted: seq<Row<Prestamo>>, n: int)
    requires NewestFirst(sorted) && 0 <= n <= |sorted|
    ensures NewestFirst(sorted[..n])
    ensures multiset(sorted[..n]) + multiset(sorted[n..]) == multiset(sorted)
    ensures forall x, y :: x in sorted[n..] && y in sorted[..n] ==> NotAfter(x.val.createdAt, y.val.createdAt)
  {
    assert sorted == sorted[..n] + sorted[n..];
    forall x, y | x in sorted[n..] && y in sorted[..n] ensures NotAfter(x.val.createdAt, y.val.createdAt) {
      var a :| 0 <= a < |sorted[n..]| && sorted[n..][a] == x;
      var b :| 0 <= b < |sorted[..n]| && sorted[..n][b] == y;
      NewestFirstOrdered(sorted, b, n + a);
    }
  }

  /** `orderBy('created_at', 'desc')->take(5)`: at most five loans, newest first, all taken
      from the store, and no loan left out is newer than one shown. */
  function Latest(loans: seq<Row<Prestamo>>): (r: seq<Row<Prestamo>>)
    ensures |r| == if |loans| < RECENT then |loans| else RECENT
    ensures NewestFirst(r)
    ensures multiset(r) <= multiset(loans)
    ensures forall x :: x in r ==> x in loans
    ensures forall x, y :: x in multiset(loans) - multiset(r) && y in r ==> NotAfter(x.val.createdAt, y.val.createdAt)
  {
    var sorted := SortNewest(loans);
    var n := if |loans| < RECENT then |loans| else RECENT;
    PrefixOfNewestFirst(sorted, n);
    assert multiset(loans) - multiset(sorted[..n]) == multiset(sorted[n..]);
    assert forall x :: x in sorted[..n] ==> x in multiset(loans);
    sorted[..n]
  }

  /** One entry of `prestamos_recientes`. */
  datatype RecentLoan = RecentLoan(id: nat, montoAprobado: Cents, clienteNombre: string, estado: string, fechaAprobacion: Moment)

  /** The `data` object of a successful answer. */
  datatype Summary = Summary(clientes: nat, prestamosActivos: nat, ingresosMensuales: Cents, prestamosRecientes: seq<RecentLoan>)

  /** The answer of `GET /dashboard`: a summary with 200, or 500 when building it throws. */
  datatype Report = Report(status: Status, data: Option<Summary>)

  /** `cliente_nombre`: the owning client's first name and first surname, or "N/A" when the
      application has no client. `None` when the loan's application is missing, where
      reading through the null relation throws. */
  function ClienteNombre(db: Db, loan: Prestamo): (r: Option<string>)
    ensures r.None? <==> !Has(db.solicitudes, loan.solicitudId)
    ensures r.Some? ==>
      var owner := db.solicitudes[IndexOf(db.solicitudes, loan.solicitudId)].val.clienteId;
      && (!Has(db.clientes, owner) ==> r.value == "N/A")
      && (Has(db.clientes, owner) ==>
            var c := db.clientes[IndexOf(db.clientes, owner)].val;
            r.value == c.primerNombre + " " + c.primerApellido)
  {
    var s := IndexOf(db.solicitudes, loan.solicitudId);
    if s < 0 then None
    else
      var c := IndexOf(db.clientes, db.solicitudes[s].val.clienteId);
      if c < 0 then Some("N/A")
      else Some(db.clientes[c].val.primerNombre + " " + db.clientes[c].val.primerApellido)
  }

  /** The `map` over the recent loans; `None` as soon as one of them throws. */
  function Entries(db: Db, shown: seq<Row<Prestamo>>): (r: Option<seq<RecentLoan>>)
    ensures r.None? <==> exists k :: 0 <= k < |shown| && ClienteNombre(db, shown[k].val).None?
    ensures r.Some? ==> |r.value| == |shown|
    ensures r.Some? ==> forall k :: 0 <= k < |shown| ==>
      var loan := shown[k];
      r.value[k] == RecentLoan(loan.id, loan.val.montoAprobado, ClienteNombre(db, loan.val).value, loan.val.estado, loan.val.fechaAprobacion)
  {
    if |shown| == 0 then Some([])
    else
      var front := Entries(db, shown[..|shown| - 1]);
      var loan := shown[|shown| - 1];
      var nombre := ClienteNombre(db, loan.val);
      if front.None? || nombre.None? then None
      else Some(front.value + [RecentLoan(loan.id, loan.val.montoAprobado, nombre.value, loan.val.estado, loan.val.fechaAprobacion)])
  }

  /** `GET /dashboard` with the clock's current month `month`. */
  function Index(db: Db, month: int): (r: Report)
    ensures r.status == Ok || r.status == ServerError
    ensures r.status == Ok <==> r.data.Some?
    ensures r.status == ServerError <==>
      exists k :: 0 <= k < |Latest(db.prestamos)| && !Has(db.solicitudes, Latest(db.prestamos)[k].val.solicitudId)
    ensures r.status == Ok ==>
      var data := r.data.value;
      && data.clientes == |db.clientes|
      && data.prestamosActivos == ActiveCount(db.prestamos)
      && data.ingresosMensuales == MonthlyIncome(db.pagos, month)
      && |data.prestamosRecientes| == |Latest(db.prestamos)|
      // entry k is the k-th latest loan: its id, amount, owner's name, status and approval date
      && forall k :: 0 <= k < |data.prestamosRecientes| ==>
           var loan := Latest(db.prestamos)[k];
           data.prestamosRecientes[k]
             == RecentLoan(loan.id, loan.val.montoAprobado, ClienteNombre(db, loan.val).value, loan.val.estado, loan.val.fechaAprobacion)
  {
    var entries := Entries(db, Latest(db.prestamos));
    if entries.None? then Report(ServerError, None)
    else Report(Ok, Some(Summary(|db.clientes|, ActiveCount(db.prestamos), MonthlyIncome(db.pagos, month), entries.value)))
  }

  /** With the foreign key from the application to its client in place, the name shown is
      the owner's first name and first surname, never "N/A" (the name always holds a space). */
  lemma OwnerNamed(db: Db, loan: Prestamo)
    requires SolicitudesOwned(db.solicitudes, db.clientes) && Has(db.solicitudes, loan.solicitudId)
    ensures var s := IndexOf(db.solicitudes, loan.solicitudId);
      var c := IndexOf(db.clientes, db.solicitudes[s].val.clienteId);
      && 0 <= c
      && ClienteNombre(db, loan) == Some(db.clientes[c].val.primerNombre + " " + db.clientes[c].val.primerApellido)
    ensures ClienteNombre(db, loan).value != "N/A"
  {
    var s := IndexOf(db.solicitudes, loan.solicitudId);
    var c := IndexOf(db.clientes, db.solicitudes[s].val.clienteId);
    var nombre := db.clientes[c].val.primerNombre;
    assert ClienteNombre(db, loan).value[|nombre|] == ' ';
  }

  /** The loans the dashboard lists all come from the store, so under the foreign key each
      has its application. */
  lemma ShownLoansOwned(db: Db)
    requires PrestamosOwned(db.prestamos, db.solicitudes)
    ensures forall k :: 0 <= k < |Latest(db.prestamos)| ==> Has(db.solicitudes, Latest(db.prestamos)[k].val.solicitudId)
  {
    var shown := Latest(db.prestamos);
    forall k | 0 <= k < |shown| ensures Has(db.solicitudes, shown[k].val.solicitudId) {
      assert shown[k] in db.prestamos;
      var m :| 0 <= m < |db.prestamos| && db.prestamos[m] == shown[k];
    }
  }

  /** On a consistent store the dashboard always answers 200, and every recent loan is shown
      with its owner's first name and first surname, never "N/A". */
  lemma ConsistentStoreShowsNames(db: Db, month: int)
    requires Valid(db)
    ensures Index(db, month).status == Ok
    ensures forall k :: 0 <= k < |Index(db, month).data.value.prestamosRecientes| ==>
      var e := Index(db, month).data.value.prestamosRecientes[k];
      var s := IndexOf(db.solicitudes, Latest(db.prestamos)[k].val.solicitudId);
      var c := IndexOf(db.clientes, db.solicitudes[s].val.clienteId);
      && 0 <= s && 0 <= c
      && e.clienteNombre == db.clientes[c].val.primerNombre + " " + db.clientes[c].val.primerApellido
      && e.clienteNombre != "N/A"
  {
    var shown := Latest(db.prestamos);
    ShownLoansOwned(db);
    var entries := Entries(db, shown);
    assert entries.Some?;
    forall k | 0 <= k < |shown| ensures
      var s := IndexOf(db.solicitudes, shown[k].val.solicitudId);
      var c := IndexOf(db.clientes, db.solicitudes[s].val.clienteId);
      && 0 <= s && 0 <= c
      && entries.value[k].clienteNombre == db.clientes[c].val.primerNombre + " " + db.clientes[c].val.primerApellido
      && entries.value[k].clienteNombre != "N/A"
    {
      OwnerNamed(db, shown[k].val);
    }
  }

  lemma {:induction false} ActiveCountReplaced(prestamos: seq<Row<Prestamo>>, i: int, loan: Prestamo)
    requires 0 <= i < |prestamos|
    ensures ActiveCount(prestamos[i := Row(prestamos[i].id, loan)])
         == ActiveCount(prestamos) - (if prestamos[i].val.estado == ACTIVO then 1 else 0) + (if loan.estado == ACTIVO then 1 else 0)
  {
    var n := |prestamos|;
    var updated := prestamos[i := Row(prestamos[i].id, loan)];
    if i == n - 1 {
      assert updated[..n - 1] == prestamos[..n - 1];
    } else {
      assert updated[..n - 1] == prestamos[..n - 1][i := Row(prestamos[i].id, loan)];
      ActiveCountReplaced(prestamos[..n - 1], i, loan);
    }
  }

  lemma {:induction false} ActiveCountRemoved(prestamos: seq<Row<Prestamo>>, i: int)
    requires 0 <= i < |prestamos|
    ensures ActiveCount(Remove(prestamos, i)) == ActiveCount(prestamos) - (if prestamos[i].val.estado == ACTIVO then 1 else 0)
  {
    var n := |prestamos|;
    if i == n - 1 {
      assert Remove(prestamos, i) == prestamos[..n - 1];
    } else {
      assert Remove(prestamos, i)[..n - 2] == Remove(prestamos[..n - 1], i);
      ActiveCountRemoved(prestamos[..n - 1], i);
    }
  }

  /** A new loan starts ACTIVO, so the count grows by one. */
  lemma PromotionCountsActive(db: Db, req: Prestamos.PrestamoInput, now: Moment)
    requires Prestamos.StoreOutcome(db, req, now).status == Created
    ensures ActiveCount(Prestamos.StoreOutcome(db, req, now).db.prestamos) == ActiveCount(db.prestamos) + 1
  {
    var after := Prestamos.StoreOutcome(db, req, now).db.prestamos;
    assert after[..|db.prestamos|] == db.prestamos;
  }

  /** A payment takes a loan out of the count exactly when the loan was ACTIVO and the
      payment brings its balance to zero or below. */
  lemma PaymentCountsActive(db: Db, req: Pagos.PagoInput, now: Moment)
    requires Pagos.StoreOutcome(db, req, now).status == Created
    ensures var before := db.prestamos[IndexOf(db.prestamos, req.prestamoId.value)].val;
      ActiveCount(Pagos.StoreOutcome(db, req, now).db.prestamos)
      == ActiveCount(db.prestamos) - (if before.estado == ACTIVO && before.saldoActual - req.montoPagado.value <= 0 then 1 else 0)
  {
    var i := IndexOf(db.prestamos, req.prestamoId.value);
    var loan := db.prestamos[i];
    var after := Pagos.StoreOutcome(db, req, now).db.prestamos;
    assert after == db.prestamos[i := Row(loan.id, after[i].val)];
    ActiveCountReplaced(db.prestamos, i, after[i].val);
  }

  /** Withdrawing a payment makes its loan ACTIVO, so it enters the count unless it was in. */
  lemma ReversalCountsActive(db: Db, id: int)
    requires Pagos.DestroyOutcome(db, id).status == NoContent
    ensures var i := IndexOf(db.prestamos, db.pagos[IndexOf(db.pagos, id)].val.prestamoId);
      ActiveCount(Pagos.DestroyOutcome(db, id).db.prestamos)
      == ActiveCount(db.prestamos) + (if db.prestamos[i].val.estado == ACTIVO then 0 else 1)
  {
    var i := IndexOf(db.prestamos, db.pagos[IndexOf(db.pagos, id)].val.prestamoId);
    var after := Pagos.DestroyOutcome(db, id).db.prestamos;
    assert after == db.prestamos[i := Row(db.prestamos[i].id, after[i].val)];
    ActiveCountReplaced(db.prestamos, i, after[i].val);
  }

  /** Deleting a loan takes it out of the count if it was ACTIVO. */
  lemma LoanDeletionCountsActive(db: Db, id: int)
    requires Prestamos.DestroyOutcome(db, id).status == NoContent
    ensures var i := IndexOf(db.prestamos, id);
      ActiveCount(Prestamos.DestroyOutcome(db, id).db.prestamos)
      == ActiveCount(db.prestamos) - (if db.prestamos[i].val.estado == ACTIVO then 1 else 0)
  {
    ActiveCountRemoved(db.prestamos, IndexOf(db.prestamos, id));
  }

  lemma {:induction false} MonthlyIncomeConcat(a: seq<Row<Pago>>, b: seq<Row<Pago>>, month: int)
    ensures MonthlyIncome(a + b, month) == MonthlyIncome(a, month) + MonthlyIncome(b, month)
  {
    if |b| == 0 {
      assert a + b == a;
    } else {
      MonthlyIncomeConcat(a, b[..|b| - 1], month);
      assert (a + b)[..|a + b| - 1] == a + b[..|b| - 1];
    }
  }

  /** A payment recorded now adds its amount to the income of the current month and to no
      other month. */
  lemma PaymentCountsIncome(db: Db, req: Pagos.PagoInput, now: Moment, month: int)
    requires Pagos.StoreOutcome(db, req, now).status == Created
    ensures MonthlyIncome(Pagos.StoreOutcome(db, req, now).db.pagos, month)
         == MonthlyIncome(db.pagos, month) + (if now.month == month then req.montoPagado.value else 0)
  {
    var after := Pagos.StoreOutcome(db, req, now).db.pagos;
    assert after[..|db.pagos|] == db.pagos;
  }

  /** Deleting a payment takes its amount out of the income of the month it was created in. */
  lemma ReversalCountsIncome(db: Db, id: int, month: int)
    requires Pagos.DestroyOutcome(db, id).status == NoContent
    ensures var pago := db.pagos[IndexOf(db.pagos, id)].val;
      MonthlyIncome(Pagos.DestroyOutcome(db, id).db.pagos, month)
      == MonthlyIncome(db.pagos, month) - (if pago.createdAt.month == month then pago.montoPagado else 0)
  {
    var j := IndexOf(db.pagos, id);
    var front, back := db.pagos[..j], db.pagos[j + 1..];
    assert db.pagos == front + [db.pagos[j]] + back;
    assert Remove(db.pagos, j) == front + back;
    MonthlyIncomeConcat(front + [db.pagos[j]], back, month);
    MonthlyIncomeConcat(front, back, month);
    assert (front + [db.pagos[j]])[..|front|] == front;
  }
}
