/** The four record kinds of the store, as their migrations lay them out. The row id and
    the auto-increment are kept by the tables (module Tables), not by the records. */
module Records {
  import opened Common

  // Solicitud statuses accepted by the validator.
  const EN_PROCESO: string := "EN PROCESO"
  const APROBADO: string := "APROBADO"
  const RECHAZADO: string := "RECHAZADO"

  // Prestamo statuses named in the schema; MOROSO is never assigned by any controller.
  const ACTIVO: string := "ACTIVO"
  const PAGADO: string := "PAGADO"
  const MOROSO: string := "MOROSO"

  // Payment methods accepted by the validator.
  const EFECTIVO: string := "EFECTIVO"
  const TARJETA: string := "TARJETA"
  const TRANSFERENCIA: string := "TRANSFERENCIA"

  predicate IsSolicitudEstado(s: string) {
    s == EN_PROCESO || s == APROBADO || s == RECHAZADO
  }

  predicate IsMetodoPago(s: string) {
    s == EFECTIVO || s == TARJETA || s == TRANSFERENCIA
  }

  /** A client. `dpi` (national id) and `nit` (tax id) are unique columns. */
  datatype Cliente = Cliente(
    primerNombre: string,
    segundoNombre: Option<string>,
    primerApellido: string,
    segundoApellido: Option<string>,
    dpi: string,
    nit: string,
    fechaNacimiento: string,
    direccion: Option<string>,
    correo: Option<string>,
    telefono: Option<string>,
    usuarioCrea: Option<string>,
    usuarioActualiza: Option<string>,
    createdAt: Moment)

  /** A loan application. `tasaInteres` is decimal(5,2), counted in hundredths. */
  datatype Solicitud = Solicitud(
    clienteId: nat,
    montoSolicitado: Cents,
    plazoMeses: int,
    tasaInteres: int,
    estado: string,
    observaciones: Option<string>,
    fechaSolicitud: Moment,
    usuarioCrea: Option<string>,
    usuarioActualiza: Option<string>)

  /** An approved loan with its running balance `saldoActual`. */
  datatype Prestamo = Prestamo(
    solicitudId: nat,
    montoAprobado: Cents,
    fechaAprobacion: Moment,
    tasaInteres: int,
    plazoMeses: int,
    saldoActual: Cents,
    estado: string,
    createdAt: Moment)

  /** A payment applied against one loan. */
  datatype Pago = Pago(
    prestamoId: nat,
    fechaPago: Moment,
    montoPagado: Cents,
    metodoPago: string,
    observaciones: Option<string>,
    createdAt: Moment)

  /** The loan fields no controller action other than its creation ever writes. */
  predicate SameTerms(a: Prestamo, b: Prestamo) {
    && a.solicitudId == b.solicitudId
    && a.montoAprobado == b.montoAprobado
    && a.fechaAprobacion == b.fechaAprobacion
    && a.createdAt == b.createdAt
  }
}
