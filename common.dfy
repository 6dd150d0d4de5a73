/** Vocabulary shared by every controller of the loan back office: optional values,
    instants, the response codes the controllers return and the audit stamp. */
module Common {

  /** An optional value: a request field that is absent (or null), a nullable column. */
  datatype Option<+T> = None | Some(value: T) {
    function GetOr(default: T): T {
      match this
      case Some(v) => v
      case None => default
    }
  }

  /** Money columns are decimal(12,2); the model counts whole cents. */
  type Cents = int

  /** A timestamp as the database stores it. Only the calendar month and the order of
      instants matter to the controllers, so the clock value is kept broken down. */
  datatype Moment = Moment(year: int, month: int, day: int, second: int)

  /** `a` is not later than `b` (chronological order of timestamps). */
  predicate NotAfter(a: Moment, b: Moment) {
    a.year < b.year
    || (a.year == b.year && a.month < b.month)
    || (a.year == b.year && a.month == b.month && a.day < b.day)
    || (a.year == b.year && a.month == b.month && a.day == b.day && a.second <= b.second)
  }

  /** The HTTP status a controller action answers with: 201, 200, 204, 400, 404, 422 and
      500, in the order of the constructors. */
  datatype Status = Created | Ok | NoContent | BadRequest | NotFound | Unprocessable | ServerError

  /** The name stamped into `usuario_crea` / `usuario_actualiza`: the authenticated
      caller's name, or "sistema" when there is none. */
  function Actor(caller: Option<string>): string {
    caller.GetOr("sistema")
  }
}
