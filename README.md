# prestamos-api — loan lifecycle model

This Dafny project models the back office of a small lending API. It keeps four
tables: clients (`Cliente`), loan applications (`Solicitud`), loans (`Prestamo`) and
payments (`Pago`). The actions of five controllers work on them:

- `ClienteController`: register, show, edit and delete clients. The national id (`dpi`)
  and the tax id (`nit`) are unique.
- `SolicitudController`: file an application, which always starts `EN PROCESO`. Edit it,
  including approving or rejecting it. Delete it.
- `PrestamoController`: promote an `APROBADO` application to a loan. Overwrite the loan's
  balance, status, rate and term. Delete a loan that has no payments.
- `PagoController`: record a payment, which debits the loan's balance (no overpayment;
  `PAGADO` at zero). Delete a payment, which credits the amount back and sets `ACTIVO`.
- `DashboardController`: client count, number of ACTIVO loans, this month's income, and
  the five newest loans with their client's name.

## Layout

- `common.dfy` (`Common`): optional values, timestamps, response codes, and the audit
  stamp (`auth()->user()->name ?? 'sistema'`).
- `records.dfy` (`Records`): the four row types and the status and payment-method
  constants.
- `tables.dfy` (`Tables`): tables as sequences of id-tagged rows in id order. Also lookup
  by id (`find`), removal, the whole store `Db`, and its consistency invariant `Valid`.
  `Valid` requires increasing ids below the next auto-increment value, unique `dpi`/`nit`,
  the three foreign keys, known application statuses and positive payment amounts. The
  class `Database` is the mutable store that the controller methods update.
- `clientes.dfy`, `solicitudes.dfy`, `prestamos.dfy`, `pagos.dfy`: each action is
  specified by a pure function from the old store to an `Outcome`, which holds the new
  store and the response code. A `method` with the same name applies the action to a
  `Database` in place, and is proved to produce exactly that outcome. Each action is
  also proved to keep `Valid`.
- `ledger.dfy` (`Ledger`): the balance invariant
  `saldo_actual == monto_aprobado - Σ pagos`, and which actions keep it.
- `dashboard.dfy` (`Dashboard`): the dashboard aggregates as functions over the store.

Money is counted in whole cents, because the money columns are `decimal(12,2)`.
Interest rates are counted in hundredths, because the column is `decimal(5,2)`. So
`min:1` on the requested amount is 100 cents, and `min:0.01` on a payment is 1 cent.
A request is a record of optional fields: `None` stands for a field that is absent or
null. The clock (`now()`), the caller's name and the dashboard's current month are
parameters.

Where the code behaves differently from what its names, comments or messages suggest, the model follows the code:

- Deleting a client that still has applications, or an application that has a loan,
  answers 500. The controllers do not check for dependants, but the migrations declare
  foreign keys with no ON DELETE action, so the database refuses the delete, so no orphan row can arise. The model leaves the store unchanged in that case.
- After a payment that leaves money owed, the loan keeps its previous status. So "PAGADO
  exactly when the balance is zero" holds only for loans in good standing (`Ledger.PaidOffIff`).
- An application can be promoted to a loan more than once (`Prestamos.PromotingTwice`).
- A `prestamo_id`, `solicitud_id` or `cliente_id` that does not exist fails the
  `exists:` rule, so the answer is 422, not 404.

## Model

| member | source | states |
|---|---|---|
| Tables.IndexOf | app/Http/Controllers/Api/PagoController.php:145 | `find($id)`: the result is the first position whose row has that id, or -1 exactly when no row has it; that position is the only one when ids are distinct (`Tables.KeyedFinds`) |
| Tables.Database.constructor | database/migrations/2025_11_11_013535_create_clientes_table.php:13-29 | a fresh store is empty and consistent |
| Clientes.StoreOutcome | app/Http/Controllers/Api/ClienteController.php:90-113 | 201 if and only if the rules hold (five required fields, length limits, dpi and nit not already taken); the new row copies the request, is stamped with the caller or "sistema" and gets the next id; 422 changes nothing |
| Clientes.StoreKeepsValid | app/Http/Controllers/Api/ClienteController.php:97-98 | after any create, dpi and nit are still unique across clients, and the store stays consistent |
| Clientes.Show | app/Http/Controllers/Api/ClienteController.php:139-148 | 404 exactly when the id is missing; otherwise 200 with the stored row of that id |
| Clientes.UpdateOutcome | app/Http/Controllers/Api/ClienteController.php:168-194 | 404 (nothing changes) exactly when the id is missing, checked before validation; 422 exactly when a supplied field breaks a rule or the dpi/nit belongs to another client; on 200 every field is overwritten or kept as the request says, usuario_actualiza is stamped, creator and creation time are kept, other clients do not change |
| Clientes.KeepingOwnIdentity | app/Http/Controllers/Api/ClienteController.php:181-182 | sending back one's own dpi and nit is accepted, because the uniqueness check excludes the client being updated |
| Clientes.UpdateKeepsValid | app/Http/Controllers/Api/ClienteController.php:181-182 | an accepted update keeps dpi and nit unique across clients |
| Clientes.DestroyOutcome | app/Http/Controllers/Api/ClienteController.php:214-225 | 404 exactly when missing; 500 exactly when the client still has applications (foreign key); otherwise 204, and exactly that client is removed |
| Clientes.DestroyKeepsValid | database/migrations/2025_11_11_013637_create_solicituds_table.php:15 | deleting a client never leaves an application without its client |
| Clientes.Store | app/Http/Controllers/Api/ClienteController.php:90-113 | the in-place action has exactly the outcome of `StoreOutcome` |
| Clientes.Update | app/Http/Controllers/Api/ClienteController.php:168-194 | the in-place action has exactly the outcome of `UpdateOutcome` |
| Clientes.Destroy | app/Http/Controllers/Api/ClienteController.php:214-225 | the in-place action has exactly the outcome of `DestroyOutcome` |
| Solicitudes.StoreOutcome | app/Http/Controllers/Api/SolicitudController.php:86-105 | 201 if and only if the client exists, amount ≥ 1.00, term ≥ 1, rate ≥ 0 and notes ≤ 255 characters; the new application is EN PROCESO whatever the request says, copies the other fields and is stamped with the caller; 422 changes nothing |
| Solicitudes.UpdateOutcome | app/Http/Controllers/Api/SolicitudController.php:160-181 | 404 exactly when missing, checked before validation; 422 exactly when a supplied field breaks a rule or the status is not one of the three; on 200 the client, filing date and creator never change, the five editable fields are overwritten or kept, usuario_actualiza is stamped |
| Solicitudes.AnyStatusFollowsAny | app/Http/Controllers/Api/SolicitudController.php:172 | from any status, an update may set any of EN PROCESO, APROBADO, RECHAZADO; there is no transition graph |
| Solicitudes.DestroyOutcome | app/Http/Controllers/Api/SolicitudController.php:201-213 | 404 exactly when missing; 500 exactly when a loan was promoted from it (foreign key); otherwise 204, and exactly that application is removed |
| Solicitudes.StoreKeepsValid | database/migrations/2025_11_11_013637_create_solicituds_table.php:15-19 | a new application belongs to an existing client and has a known status |
| Solicitudes.UpdateKeepsValid | app/Http/Controllers/Api/SolicitudController.php:172 | an accepted update leaves the status within the three known ones |
| Solicitudes.DestroyKeepsValid | database/migrations/2025_11_11_013642_create_prestamos_table.php:15 | deleting an application never leaves a loan without its application |
| Solicitudes.Store | app/Http/Controllers/Api/SolicitudController.php:86-105 | the in-place action has exactly the outcome of `StoreOutcome` |
| Solicitudes.Update | app/Http/Controllers/Api/SolicitudController.php:160-181 | the in-place action has exactly the outcome of `UpdateOutcome` |
| Solicitudes.Destroy | app/Http/Controllers/Api/SolicitudController.php:201-213 | the in-place action has exactly the outcome of `DestroyOutcome` |
| Prestamos.StoreOutcome | app/Http/Controllers/Api/PrestamoController.php:59-91 | 422 exactly when the rules fail (existing application, amount ≥ 0, rate ≥ 0, term ≥ 1); then 201 if and only if the application is APROBADO, else 400 with nothing changed; the new loan has balance = approved amount, ACTIVO, the request's rate and term, and the next id; the application is not modified |
| Prestamos.PromotingTwice | app/Http/Controllers/Api/PrestamoController.php:68-85 | promoting the same approved application twice succeeds both times, giving two loans for one application |
| Prestamos.UpdateOutcome | app/Http/Controllers/Api/PrestamoController.php:135-146 | 404 exactly when missing; on 200 only balance, status, rate and term change, each overwritten or kept; application, approved amount, approval date and creation time are preserved; other loans unchanged |
| Prestamos.DestroyOutcome | app/Http/Controllers/Api/PrestamoController.php:162-179 | 404 exactly when missing; 400 exactly when the loan has payments, with nothing removed; otherwise 204, and exactly that loan is removed |
| Prestamos.StoreKeepsValid | database/migrations/2025_11_11_013642_create_prestamos_table.php:15 | a new loan references an existing application |
| Prestamos.UpdateKeepsValid | app/Http/Controllers/Api/PrestamoController.php:143 | overwriting loan fields keeps the store consistent |
| Prestamos.DestroyKeepsValid | app/Http/Controllers/Api/PrestamoController.php:170-177 | because a loan with payments cannot be deleted, no payment loses its loan |
| Prestamos.Store | app/Http/Controllers/Api/PrestamoController.php:59-91 | the in-place action has exactly the outcome of `StoreOutcome` |
| Prestamos.Update | app/Http/Controllers/Api/PrestamoController.php:135-146 | the in-place action has exactly the outcome of `UpdateOutcome` |
| Prestamos.Destroy | app/Http/Controllers/Api/PrestamoController.php:162-179 | the in-place action has exactly the outcome of `DestroyOutcome` |
| Pagos.StoreOutcome | app/Http/Controllers/Api/PagoController.php:60-99 | 422, nothing changed, exactly when the loan is missing, the amount is below 0.01 or the method is unknown; then 400, nothing changed, exactly when amount > balance (equality accepted); on 201 exactly one payment is appended, the balance drops by the amount and stays ≥ 0, the status becomes PAGADO at ≤ 0 and is kept otherwise, the loan's terms and all other rows are unchanged |
| Pagos.DestroyOutcome | app/Http/Controllers/Api/PagoController.php:143-162 | 404, nothing changed, exactly when missing; on a consistent store an existing payment always gives 204; then the payment is removed, its loan is credited with the amount and set ACTIVO unconditionally, and nothing else changes |
| Pagos.StoreKeepsValid | app/Http/Controllers/Api/PagoController.php:79-85 | the new payment takes the next id and references an existing loan |
| Pagos.DestroyKeepsValid | app/Http/Controllers/Api/PagoController.php:151-159 | removing a payment and crediting its loan keeps the store consistent |
| Pagos.Store | app/Http/Controllers/Api/PagoController.php:60-99 | the transaction applied in place has exactly the outcome of `StoreOutcome` |
| Pagos.Destroy | app/Http/Controllers/Api/PagoController.php:143-162 | the transaction applied in place has exactly the outcome of `DestroyOutcome` |
| Ledger.PaidConcat | app/Http/Controllers/Api/PagoController.php:79-85 | the payments of a loan over two lists are the sum over each |
| Ledger.PaidRemove | app/Http/Controllers/Api/PagoController.php:158 | removing one payment lowers its loan's total by exactly its amount and leaves other loans' totals alone |
| Ledger.PaymentKeepsBalanced | app/Http/Controllers/Api/PagoController.php:79-92 | recording a payment keeps balance = approved amount − payments for every loan |
| Ledger.ReversalKeepsBalanced | app/Http/Controllers/Api/PagoController.php:151-159 | deleting a payment keeps balance = approved amount − payments for every loan |
| Ledger.PromotionKeepsBalanced | app/Http/Controllers/Api/PrestamoController.php:77-85 | a new loan has no payments and starts at its approved amount, so the ledger stays balanced |
| Ledger.LoanDeletionKeepsBalanced | app/Http/Controllers/Api/PrestamoController.php:170-177 | deleting a loan without payments keeps the ledger balanced |
| Ledger.UpdateBalancedIff | app/Http/Controllers/Api/PrestamoController.php:143 | the unchecked overwrite keeps the ledger balanced if and only if it writes no balance, or the same balance |
| Ledger.ClienteStoreKeepsLedger | app/Http/Controllers/Api/ClienteController.php:90-113 | creating a client leaves the ledger untouched: balanced and in good standing after exactly when before |
| Ledger.ClienteUpdateKeepsLedger | app/Http/Controllers/Api/ClienteController.php:168-194 | updating a client leaves the ledger untouched: balanced and in good standing after exactly when before |
| Ledger.ClienteDestroyKeepsLedger | app/Http/Controllers/Api/ClienteController.php:214-225 | deleting a client (or the refused delete) leaves the ledger untouched: balanced and in good standing after exactly when before |
| Ledger.SolicitudStoreKeepsLedger | app/Http/Controllers/Api/SolicitudController.php:86-105 | creating an application leaves the ledger untouched: balanced and in good standing after exactly when before |
| Ledger.SolicitudUpdateKeepsLedger | app/Http/Controllers/Api/SolicitudController.php:160-181 | updating an application leaves the ledger untouched: balanced and in good standing after exactly when before |
| Ledger.SolicitudDestroyKeepsLedger | app/Http/Controllers/Api/SolicitudController.php:201-213 | deleting an application (or the refused delete) leaves the ledger untouched: balanced and in good standing after exactly when before |
| Ledger.PaymentKeepsStanding | app/Http/Controllers/Api/PagoController.php:71-91 | after a payment no loan has a negative balance, and a PAGADO loan owes nothing |
| Ledger.ReversalKeepsStanding | app/Http/Controllers/Api/PagoController.php:154-155 | deleting a payment keeps loans in good standing |
| Ledger.PromotionKeepsStanding | app/Http/Controllers/Api/PrestamoController.php:83-84 | a new loan is in good standing |
| Ledger.LoanDeletionKeepsStanding | app/Http/Controllers/Api/PrestamoController.php:177 | deleting a loan keeps the others in good standing |
| Ledger.UpdateStandingIff | app/Http/Controllers/Api/PrestamoController.php:143 | after an overwrite the loans are in good standing exactly when the overwritten one is; nothing prevents MOROSO, a negative balance or PAGADO with money owed |
| Ledger.PaidOffIff | app/Http/Controllers/Api/PagoController.php:88-91 | for loans in good standing, a payment makes the loan PAGADO if and only if its balance becomes exactly zero |
| Ledger.SettledLoanRefusesPayment | app/Http/Controllers/Api/PagoController.php:71-76 | a loan with nothing owed rejects every valid payment with 400 |
| Ledger.UndoPayment | app/Http/Controllers/Api/PagoController.php:151-158 | deleting the payment just appended for a loan answers 204, credits the loan back to its old balance as ACTIVO and drops the row |
| Ledger.StoreThenDestroy | app/Http/Controllers/Api/PagoController.php:88-158 | recording a payment and then deleting it gives back the store as it was, except that the loan is ACTIVO and the payment id is used up |
| Ledger.CompetingPayments | app/Http/Controllers/Api/PagoController.php:71-91 | two payments against one loan run in sequence: the first succeeds, and the second succeeds if and only if both fit in the original balance (else 400) |
| Dashboard.NewestFirstOrdered | app/Http/Controllers/Api/DashboardController.php:57 | in a list ordered newest first, every later loan is no newer than every earlier one |
| Dashboard.SortNewest | app/Http/Controllers/Api/DashboardController.php:57 | the result is ordered by created_at descending and is a permutation of the loans |
| Dashboard.Latest | app/Http/Controllers/Api/DashboardController.php:55-59 | min(5, number of loans) entries, newest first, all taken from the store, and no loan left out is newer than one shown |
| Dashboard.ClienteNombre | app/Http/Controllers/Api/DashboardController.php:64-66 | the name is missing (the request fails) exactly when the loan's application is missing; otherwise it is "N/A" when the owning client is missing and primer_nombre + " " + primer_apellido of that client when it exists |
| Dashboard.Entries | app/Http/Controllers/Api/DashboardController.php:60-70 | one entry per shown loan with its id, amount, status, approval date and client name; fails exactly when some name cannot be read |
| Dashboard.Index | app/Http/Controllers/Api/DashboardController.php:46-88 | 200 or 500, with 500 exactly when a listed loan's application is missing; on 200 clientes = number of clients, prestamos_activos = ActiveCount, ingresos_mensuales = MonthlyIncome of the given month, and entry k is the k-th latest loan with its id, approved amount, client name (`ClienteNombre`), status and approval date |
| Dashboard.OwnerNamed | app/Http/Controllers/Api/DashboardController.php:64-66 | when every application's client exists and the loan's application exists, the owner is found and the name is exactly primer_nombre + " " + primer_apellido of that client, never "N/A" |
| Dashboard.ShownLoansOwned | app/Http/Controllers/Api/DashboardController.php:55-66 | when every loan's application exists, so does the application of every loan the dashboard lists |
| Dashboard.ConsistentStoreShowsNames | app/Http/Controllers/Api/DashboardController.php:60-80 | on a consistent store the dashboard answers 200, and entry k shows exactly primer_nombre + " " + primer_apellido of the client owning the k-th latest loan's application, never "N/A" |
| Dashboard.ActiveCountReplaced | app/Http/Controllers/Api/DashboardController.php:51 | changing one loan's status moves the ACTIVO count by the difference |
| Dashboard.ActiveCountRemoved | app/Http/Controllers/Api/DashboardController.php:51 | removing a loan lowers the ACTIVO count by one exactly when it was ACTIVO |
| Dashboard.PromotionCountsActive | app/Http/Controllers/Api/DashboardController.php:51 | a new loan raises prestamos_activos by one |
| Dashboard.PaymentCountsActive | app/Http/Controllers/Api/DashboardController.php:51 | a payment lowers prestamos_activos by one exactly when it settles an ACTIVO loan |
| Dashboard.ReversalCountsActive | app/Http/Controllers/Api/DashboardController.php:51 | deleting a payment raises prestamos_activos by one exactly when the loan was not ACTIVO |
| Dashboard.LoanDeletionCountsActive | app/Http/Controllers/Api/DashboardController.php:51 | deleting a loan lowers prestamos_activos by one exactly when it was ACTIVO |
| Dashboard.MonthlyIncomeConcat | app/Http/Controllers/Api/DashboardController.php:52 | the month's income over two lists of payments is the sum over each |
| Dashboard.PaymentCountsIncome | app/Http/Controllers/Api/DashboardController.php:52 | a payment adds its amount to the income of its calendar month (in any year) and to no other month |
| Dashboard.ReversalCountsIncome | app/Http/Controllers/Api/DashboardController.php:52 | deleting a payment removes its amount from the income of the month it was created in |

## Left out

- Authentication, tokens and password reset (`AuthController`, `PasswordResetController`,
  the notification and its template): library calls. The caller's name is a parameter.
- Routing, OpenAPI annotations and configuration carry no behaviour.
- The `index` listings of all controllers, and `show` of applications, loans and
  payments, are plain reads: they return the table, or the row or 404, like
  `Clientes.Show`.
- `DB::transaction` and concurrency: each action is one atomic step. Payments that race
  are modelled only one after the other (`Ledger.CompetingPayments`).
- Timestamps: `now()` is a parameter, and `updated_at` is not modelled. Applications have
  no Eloquent timestamps, and their `fecha_crea`/`fecha_actualiza` columns are never written.
- `(float)` casts of amounts in the dashboard and JSON encoding: amounts stay exact cents.
- Amounts with more than two decimals, and values beyond the `decimal(12,2)` and
  `decimal(5,2)` ranges: amounts are whole cents, unbounded.
- The `date` and `email` format rules, string column widths the validator does not check
  (such as 255 characters for a payment's notes), and the framework's trimming of input
  strings.
- An explicit `null` sent on update for a NOT NULL column (for example `dpi`): validation
  passes and the database then rejects the write. The patches cannot express it.
- Case-insensitive comparison by the database collation. Uniqueness of `dpi`/`nit` and the
  `estado = 'ACTIVO'` filter of the dashboard count are both by exact string. A loan whose
  status `PUT /prestamos/{id}` sets to 'activo' is counted by the database but not by
  `Dashboard.ActiveCount`.
- Tie order in `orderBy('created_at', 'desc')`: SQL leaves it unspecified. The model keeps
  loans created at the same instant in storage order.
- A payment's `fecha_pago` and a loan's `fecha_aprobacion` come from the clock, like
  `created_at`. The model uses the same instant for both.
- The dashboard's 500 for a missing application and its "N/A" for a missing client
  cannot happen under the foreign keys. They are modelled, but only an inconsistent store
  reaches them.
