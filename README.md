# GestionLAB 2.0 — the table-state engine, in Dafny

GestionLAB 2.0 is a desktop application for running a computer laboratory. It
tracks equipment, a spare-parts inventory, fault reports, equipment
reservations, scheduled maintenance, users and an access history. These are
seven SQLite tables. Under the window code, each save, update or delete
handler works the same way: check the form fields, query the tables, write
rows, commit, then append one entry to the access history. The listing
handlers build a filtered, joined and ordered `SELECT`.

This project models that engine.

- `Laboratory.Lab` is a class. Its fields are the seven tables, as sequences of
  rows in rowid order, plus the AUTOINCREMENT counters. It has one method per
  handler and one per listing.
- Every write goes through `Confirmar`, the commit. Every handler keeps the
  invariant `Valid()`, which is `Integrity.Coherente` of the tables:
  - ids are positive, increasing and below their counter;
  - `equipos.serial`, `usuarios.email` and `usuarios.usuario` are unique;
  - a resolved report carries a solution.
- The stronger "a report carries a solution exactly when it is resolved" is
  not kept. The report detail window is not modal and fixes its buttons when
  it opens, so a second window left open on a report that has since been
  resolved can still mark it "En Progreso", and the solution stays
  (`Reports.StaleWindowUnresolves`).
- "No equipment is double-booked" (`Scheduler.SinSolapes`) is not part of
  `Valid()`, because `guardar_reserva` as written does not keep it (see
  Findings). Cancelling a booking and deleting equipment keep it. So does
  `Laboratory.Lab.GuardarReservaCorregida`, the booking handler with the
  corrected availability test.
- Each handler's `ensures` states, for every outcome, when it happens and what
  the tables become. A failure leaves them unchanged. A success gives the one
  write the handler performs, followed by the history entry.
- Each listing is proved against a reference definition of what its filter
  means. The result is ordered by the `ORDER BY` key, holds exactly the matching
  joined rows, and contains every match.
- The pure parts are functions in their own modules, with lemmas:
  - the overlap test and the "active" test of reservations (`Scheduler`);
  - the report lifecycle and search (`Reports`);
  - the maintenance classification (`Maintenance`);
  - the below-minimum flag (`Inventory`);
  - the history messages (`Audit`);
  - the cross-table rules and the cascading deletes (`Integrity`).
- `TextOrder` defines SQLite's comparison of TEXT values, which is plain
  code-point lexicographic order. All dates and timestamps are compared with it.
- `Query` defines the SQL shapes the handlers use: WHERE, UPDATE, SELECT with
  joins, `COUNT(*)` and ORDER BY.

Some consequences of the code as it stands:

- The serial entry is always stored as its text, so a blank serial is the
  string `""`, and two blank serials collide on the UNIQUE index. The same
  holds for emails.
- No handler checks that a reservation's end comes after its start; see
  `Scheduler.ReversedRowBlocksNothing`.
- Reservations are only ever written as "Confirmada" or "Cancelada". The
  filter also offers "Completada", which no handler writes.
- The availability query tests only whether the request's own endpoints fall
  within a confirmed booking; see Findings.
- The tables declare foreign keys, but the connection never enables them, so
  the model checks no references. Deleting a user, or a piece of equipment
  that has maintenance records, leaves rows that point at nothing. The
  listings' inner joins then hide those rows; see
  `Integrity.OrphanedMaintenanceHidden` and
  `Integrity.UserDeletionOrphansBookings`.

## Model

| member | source | states |
|---|---|---|
| Laboratory.Lab.constructor | GestionLAB2.0.py:103-199 | a new database holds seven empty tables with every counter at 1, and is coherent |
| Integrity.Vacia | GestionLAB2.0.py:103-199 | the freshly created database satisfies every cross-table rule |
| Schema.Lookup | GestionLAB2.0.py:111 | the scan for a UNIQUE value answers true exactly when another row (not the row being updated) already holds it |
| Query.CountWhere | GestionLAB2.0.py:1584-1589 | the `COUNT(*)` loop returns the number of rows the WHERE keeps, and is positive exactly when some row matches |
| Query.SelectSorted | GestionLAB2.0.py:330 | the result is ordered by the key (ascending or descending) and is a permutation of the rows the SELECT yields |
| Laboratory.Lab.RegistrarAcceso | GestionLAB2.0.py:2837-2856 | the history gains one entry when the INSERT goes through and nothing otherwise; no other table changes; the invariant is kept |
| Audit.Bitacora | GestionLAB2.0.py:2837-2856 | `registrar_acceso`: one entry with the next id appended to the history when the INSERT goes through, the database unchanged when it fails |
| Audit.Entrada | GestionLAB2.0.py:2840-2849 | an entry is recorded for user 1 at the given time, and its details default to the action text |
| Audit.BitacoraSoloAnade | GestionLAB2.0.py:2837-2856 | logging only extends the history: old entries stay as they were, the new one is last with the next id, and every other table is untouched |
| Integrity.BitacoraKeeps | GestionLAB2.0.py:2846-2850 | appending a history entry keeps the database coherent |
| Audit.MessagesNameTheirRecord | GestionLAB2.0.py:1900 | the id in the "ID: n" and "reporte n" messages reads back as the id of the record acted on |
| Audit.StatusMessagesDistinct | GestionLAB2.0.py:536 | status changes of two different reports leave different history texts |
| Scheduler.Choca | GestionLAB2.0.py:1851-1855 | the row the availability query counts: same equipment, confirmed, and the request's start or end BETWEEN its start and end, both ends inclusive |
| Scheduler.Ocupado | GestionLAB2.0.py:1851-1860 | the query's `COUNT(*)` is positive: some stored row is counted, and the request is refused |
| Scheduler.Activa | GestionLAB2.0.py:1763-1766 | the green highlighting: the current time lies between the booking's start and end, both inclusive, and the booking is confirmed |
| Scheduler.Solicitud | GestionLAB2.0.py:1863-1868 | the inserted booking carries the requested equipment, user, interval and purpose, is confirmed, and is stamped with the request time |
| Scheduler.ContainmentNotDetected | GestionLAB2.0.py:1851-1855 | a request whose interval strictly contains a confirmed booking is not counted as a clash |
| Scheduler.SharedEndpointConflicts | GestionLAB2.0.py:1851-1855 | BETWEEN is inclusive: starting when a confirmed booking ends, or ending when it starts, is a clash |
| Scheduler.ReversedRowBlocksNothing | GestionLAB2.0.py:1845-1855 | nothing checks end after start, and a stored booking with end before start blocks no request at all |
| Scheduler.CorrectedRejectsWhatCodeRejects | GestionLAB2.0.py:1851-1855 | for a request that ends after it starts, every clash the query finds is an intersection under the corrected test |
| Scheduler.CodeAdmitsDoubleBooking | GestionLAB2.0.py:1851-1869 | as written, a request containing a confirmed booking passes the test, and the table then holds two intersecting confirmed bookings |
| Scheduler.CodeAdmitsDoubleBookingExample | GestionLAB2.0.py:1851-1869 | concretely: with 10:00-12:00 booked, 09:00-13:00 on the same equipment passes the test and double-books it |
| Scheduler.CorrectedBookingKeepsNoOverlap | GestionLAB2.0.py:1851-1869 | with the corrected test, accepting a request never creates two intersecting confirmed bookings |
| Scheduler.Cancelar | GestionLAB2.0.py:1896 | the UPDATE sets the target booking to cancelled and leaves every other row as it was |
| Scheduler.CancelledNotConfirmed | GestionLAB2.0.py:1890-1896 | after the UPDATE the booking with that id is found cancelled, so the "confirmed only" test refuses cancelling it again |
| Scheduler.CancelKeepsNoOverlap | GestionLAB2.0.py:1896 | cancelling never creates an overlap |
| Scheduler.NoOverlapWhere | GestionLAB2.0.py:1606 | deleting bookings never creates an overlap |
| Scheduler.ActiveBlocksBookingNow | GestionLAB2.0.py:1763-1766 | a booking highlighted as active makes its equipment unavailable to any request starting now |
| Scheduler.ActiveBetween | GestionLAB2.0.py:1766 | a booking active at two instants is active at every instant between them |
| Scheduler.CondicionesMeanFiltro | GestionLAB2.0.py:1737-1750 | the `AND` conditions appended to the query hold exactly when the row meets every filter that is set |
| Scheduler.SeleccionEsListado | GestionLAB2.0.py:1729-1752 | the built query lists exactly the matching bookings whose equipment and user rows both exist |
| Integrity.InsertReservaKeeps | GestionLAB2.0.py:1864-1869 | inserting a booking with the next id keeps the database coherent, whatever its interval |
| Integrity.CancelKeeps | GestionLAB2.0.py:1896-1897 | cancelling keeps the database coherent |
| Laboratory.Lab.GuardarReserva | GestionLAB2.0.py:1837-1878 | a missing equipment, user or date fails with no change; otherwise the request is refused exactly when a confirmed booking of that equipment has the request's start or end between its bounds (`Scheduler.Ocupado`); when accepted, one confirmed row and one history entry are appended |
| Laboratory.Lab.GuardarReservaCorregida | GestionLAB2.0.py:1837-1878 | corrected: the same handler, refusing exactly when the requested interval meets a confirmed booking of that equipment; it never creates a double booking |
| Laboratory.Lab.Reservar | GestionLAB2.0.py:1862-1872 | the INSERT of the confirmed row with the next id, the commit and one history entry; nothing else changes |
| Laboratory.Lab.CancelarReserva | GestionLAB2.0.py:1880-1905 | only a confirmed booking can be cancelled, and only on confirmation; then exactly its status becomes cancelled, one entry is logged, and a second cancel of it is refused; otherwise nothing changes; it never creates a double booking |
| Laboratory.Lab.ListarReservas | GestionLAB2.0.py:1721-1771 | the listing is ordered by start time, holds each matching joined booking once, and its active flag is the active test |
| Reports.Nuevo | GestionLAB2.0.py:424-431 | a new report is open, filed by "admin", stamped now, and has no solution |
| Reports.Cambiar | GestionLAB2.0.py:532 | the UPDATE sets the status of the report with that id and leaves every other row alone |
| Reports.Solucionar | GestionLAB2.0.py:583-584 | resolving stores the solution and the resolved status together on that report only |
| Reports.Ofrecidas | GestionLAB2.0.py:514-524 | as written, both buttons are offered for an open report and none for any other status |
| Reports.CodeStrandsInProgress | GestionLAB2.0.py:514-524 | as written, a window opened on a report in progress offers no button, and through windows each opened on the current status an open report reaches "Resuelto" only by pressing "Resolver" at once; only a window left open from before the change can still resolve it |
| Reports.OfrecidasCorregidas | GestionLAB2.0.py:514-524 | corrected: "Marcar en Progreso" only from open; "Resolver" from open or in progress |
| Reports.CorrectedExtendsCode | GestionLAB2.0.py:514-524 | the corrected offer is the as-written offer plus exactly "Resolver" from "En Progreso" |
| Reports.CorrectedResolvable | GestionLAB2.0.py:514-524 | with the corrected offer, every open or in-progress report can be resolved, directly or through "En Progreso" |
| Reports.CorrectedMovesForward | GestionLAB2.0.py:514-524 | every corrected action moves a report strictly forward in the lifecycle, so no report is reopened and at most two actions apply |
| Reports.CorrectedActionsKeepSolution | GestionLAB2.0.py:576-585 | each action a corrected window opened on the current status offers keeps "a solution exactly when resolved" true of the report |
| Reports.ResueltoConSolucion | GestionLAB2.0.py:583-584 | the report rule the code keeps: a resolved report carries a solution |
| Reports.StaleWindowUnresolves | GestionLAB2.0.py:459-532 | two windows opened on one open report both offer both buttons; resolving in one and then marking in progress in the other leaves the report "En Progreso" with its solution |
| Reports.CondicionesMeanFiltro | GestionLAB2.0.py:305-328 | the conditions appended to the search hold exactly when type, status and priority match unless "Todos", and the date lies within the bounds given |
| Reports.RealceDe | GestionLAB2.0.py:340-348 | "Alta" is shown red, "Media" orange, and no other priority is highlighted |
| Reports.Fila | GestionLAB2.0.py:300-301 | every report yields a line (LEFT JOIN), and it names equipment exactly when the report refers to an existing equipment row |
| Reports.SeleccionEsListado | GestionLAB2.0.py:299-330 | the built search lists exactly the reports that meet the filter, one line each |
| Integrity.InsertReporteKeeps | GestionLAB2.0.py:428-432 | inserting a report that is not resolved without a solution keeps the database coherent |
| Integrity.MarcarKeeps | GestionLAB2.0.py:532-533 | marking any report in progress, whatever its status or whether it still exists, keeps the database coherent |
| Integrity.SolucionarKeeps | GestionLAB2.0.py:583-585 | resolving a report keeps the database coherent |
| Laboratory.Lab.GuardarReporte | GestionLAB2.0.py:418-441 | an empty description fails with no change; otherwise exactly one open report and one history entry are appended |
| Laboratory.Lab.AtenderReporte | GestionLAB2.0.py:453-595 | a button exists only when the status the window read on opening is "Abierto" (`Reports.Ofrecidas`); "Resolver" needs a non-empty solution; otherwise the UPDATE is applied to whatever the row is now (none if it was deleted) and one entry is logged; a refused button changes nothing |
| Laboratory.Lab.AtenderReporteCorregido | GestionLAB2.0.py:453-595 | corrected: the same window, offering "Resolver" also when it opened on "En Progreso" (`Reports.OfrecidasCorregidas`) |
| Laboratory.Lab.Aplicar | GestionLAB2.0.py:529-595 | a pressed button writes the new status, or the non-empty solution with "Resuelto", without checking the stored row, commits and logs one entry; an empty solution changes nothing |
| Laboratory.Lab.BuscarReportes | GestionLAB2.0.py:292-351 | the result is ordered newest first, every line meets the filter, and no matching report is omitted |
| Maintenance.Clasificar | GestionLAB2.0.py:2038-2050 | overdue iff pending and scheduled before today; to-do iff pending otherwise; done iff completed; unmarked iff neither |
| Maintenance.OverdueStaysOverdue | GestionLAB2.0.py:2042-2044 | a record overdue today is overdue on every later day |
| Maintenance.DueTodayNotOverdue | GestionLAB2.0.py:2042-2047 | a pending record scheduled for today is not yet overdue |
| Maintenance.TimeOfDayNotOverdue | GestionLAB2.0.py:2038-2047 | a record scheduled today with a time of day sorts after today's date, so it is not overdue |
| Maintenance.Completar | GestionLAB2.0.py:2225-2231 | the record with that id gets the performed date, the completed status, the real cost and the observations; every other row is unchanged |
| Maintenance.AnotarUltimo | GestionLAB2.0.py:2235-2236 | exactly the equipment with that id gets its last-maintenance date set |
| Maintenance.Registrable | GestionLAB2.0.py:2131-2136 | the registration window opens only for a record whose status is "Pendiente" |
| Maintenance.Realizada | GestionLAB2.0.py:2198 | Python's truth test on the performed date: given and not empty |
| Maintenance.CompletedNotRegistrable | GestionLAB2.0.py:2225-2231 | after the UPDATE the record with that id is found completed, so it is no longer registrable |
| Maintenance.Fila | GestionLAB2.0.py:2010-2014 | a record is listed exactly when its equipment row exists, and the line carries its classification |
| Maintenance.CondicionesMeanFiltro | GestionLAB2.0.py:2017-2025 | the appended conditions hold exactly when type and status match unless "Todos" |
| Maintenance.SeleccionEsListado | GestionLAB2.0.py:2010-2027 | the built query lists exactly the matching records whose equipment row exists |
| Integrity.InsertMantenimientoKeeps | GestionLAB2.0.py:2190-2195 | inserting a maintenance record keeps the database coherent |
| Integrity.CompletarKeeps | GestionLAB2.0.py:2225-2232 | recording a performed maintenance keeps the database coherent |
| Integrity.AnotarUltimoKeeps | GestionLAB2.0.py:2235-2237 | setting an equipment's last-maintenance date keeps the database coherent |
| Laboratory.Lab.GuardarMantenimiento | GestionLAB2.0.py:2179-2211 | a missing equipment or scheduled date fails with no change; otherwise one record is appended, the equipment's last-maintenance date is set when a performed date is given, and one entry is logged |
| Laboratory.Lab.ProgramarMantenimiento | GestionLAB2.0.py:2107-2118 | scheduling inserts a pending record with no performed date, and no equipment row changes |
| Laboratory.Lab.ActualizarMantenimientoDb | GestionLAB2.0.py:2213-2247 | an empty date or an unknown record changes nothing; otherwise the record is completed and its equipment's last-maintenance date becomes the performed date |
| Laboratory.Lab.RegistrarMantenimiento | GestionLAB2.0.py:2124-2136 | only a pending record can be registered; then the update above is applied, after which the record is no longer registrable; otherwise nothing changes |
| Laboratory.Lab.ListarMantenimientos | GestionLAB2.0.py:2002-2053 | the listing is ordered by scheduled date, holds each matching joined record once, and each line is coloured by its classification |
| Inventory.BajoMinimo | GestionLAB2.0.py:814 | the red highlighting: fewer units in stock than the minimum |
| Inventory.Fila | GestionLAB2.0.py:811-816 | a line is flagged exactly when its quantity is below its minimum |
| Inventory.CondicionesMeanFiltro | GestionLAB2.0.py:791-799 | the appended conditions hold exactly when type and location match unless "Todos" |
| Inventory.SeleccionEsListado | GestionLAB2.0.py:788-801 | the built query lists exactly the matching components, one line each |
| Integrity.InsertComponenteKeeps | GestionLAB2.0.py:894-899 | inserting a component keeps the database coherent |
| Integrity.ReemplazarComponenteKeeps | GestionLAB2.0.py:1003-1008 | rewriting a component row keeps the database coherent |
| Integrity.SinComponente | GestionLAB2.0.py:1034 | the DELETE removes exactly the component with that id and touches nothing else |
| Integrity.SinComponenteKeeps | GestionLAB2.0.py:1034-1035 | deleting a component keeps the database coherent |
| Laboratory.Lab.GuardarComponente | GestionLAB2.0.py:885-911 | an empty name fails with no change; otherwise one component stamped with the save time and one entry are appended |
| Laboratory.Lab.ActualizarComponente | GestionLAB2.0.py:994-1020 | an empty name fails with no change; otherwise every column of that row is rewritten, the update time included, and one entry is logged |
| Laboratory.Lab.EliminarComponente | GestionLAB2.0.py:1022-1044 | the component is deleted only on confirmation, with one entry; a refusal changes nothing |
| Laboratory.Lab.ListarInventario | GestionLAB2.0.py:780-819 | the listing is ordered by name, holds each matching component once, and flags the ones below minimum |
| Integrity.InsertEquipoKeeps | GestionLAB2.0.py:1412-1417 | inserting equipment with a serial no row holds keeps the database coherent |
| Integrity.ReemplazarEquipoKeeps | GestionLAB2.0.py:1553-1558 | rewriting an equipment row keeps the database coherent unless another row holds the new serial |
| Laboratory.Lab.GuardarEquipo | GestionLAB2.0.py:1405-1430 | an empty name fails; a serial already stored ("" included) fails as a duplicate; otherwise one row and one entry are appended; a failure changes nothing |
| Laboratory.Lab.ActualizarEquipo | GestionLAB2.0.py:1546-1571 | an empty name fails; the update is refused exactly when the row exists and another row holds the new serial; otherwise that row becomes the new values and one entry is logged |
| Integrity.Cascada | GestionLAB2.0.py:1602-1610 | the three DELETEs: the equipment's reports, its bookings and its row; maintenance records are not touched |
| Integrity.CascadeRemovesReferences | GestionLAB2.0.py:1602-1610 | after the deletes, no report or booking refers to the equipment and its row is gone; every other row of those tables stays, and no other table changes |
| Integrity.CascadeCounts | GestionLAB2.0.py:1584-1589 | the counts shown before deleting are exactly the numbers of reports and bookings the deletes remove |
| Integrity.NothingToCascade | GestionLAB2.0.py:1603-1607 | skipping a DELETE when its count is zero leaves the table as the DELETE would |
| Integrity.CascadeKeeps | GestionLAB2.0.py:1602-1611 | the cascade keeps the database coherent |
| Integrity.CascadeKeepsNoOverlap | GestionLAB2.0.py:1606 | deleting an equipment's bookings never double-books the remaining ones |
| Integrity.OrphanedMaintenanceHidden | GestionLAB2.0.py:1602-1610 | the deleted equipment's maintenance records stay in their table but drop out of the maintenance view |
| Laboratory.Lab.EliminarEquipo | GestionLAB2.0.py:1573-1620 | it returns the dependent counts; on confirmation the equipment, its reports and its bookings are deleted and one entry is logged; a refusal changes nothing; it never creates a double booking |
| Integrity.InsertUsuarioKeeps | GestionLAB2.0.py:2650-2654 | inserting a user whose email and login are both free keeps the database coherent |
| Integrity.EditarUsuario | GestionLAB2.0.py:2758-2771 | the UPDATE rewrites name, surname, email, role and status of that user; the password only when a new one is typed; login and registration date never change |
| Integrity.EditarUsuarioKeeps | GestionLAB2.0.py:2758-2773 | that update keeps the database coherent unless another user holds the new email |
| Integrity.SinUsuario | GestionLAB2.0.py:2804 | the DELETE removes exactly that user and touches no other table |
| Integrity.SinUsuarioKeeps | GestionLAB2.0.py:2804-2805 | deleting a user keeps the database coherent |
| Integrity.UserDeletionOrphansBookings | GestionLAB2.0.py:2804 | a deleted user's bookings are not cascaded: they stay, and drop out of the reservations view |
| Laboratory.Lab.GuardarUsuario | GestionLAB2.0.py:2641-2669 | a missing name, login or password fails; a taken login is reported before a taken email; otherwise one user and one entry are appended; a failure changes nothing |
| Laboratory.Lab.ActualizarUsuario | GestionLAB2.0.py:2751-2785 | an empty name fails; the update is refused exactly when the user exists and another user holds the new email; otherwise that user is edited and one entry is logged |
| Laboratory.Lab.EliminarUsuario | GestionLAB2.0.py:2787-2813 | user 1 is never deleted; any other user is deleted on confirmation, without cascade, with one entry; otherwise nothing changes |

## Left out

- Window building, message boxes, Treeview filling and colour tags are left out. Only the boolean tests behind the colours are kept (`Reports.RealceDe`, `Scheduler.Activa`, `Maintenance.Clasificar`, `Inventory.BajoMinimo`).
- Reading ids out of `"name (ID: n)"` combo entries is left out: handlers take the id, or `None` when nothing was selected. Form values arrive already converted, so cantidad and minimo are integers; the "must be whole numbers" error therefore never arises.
- Charts, spreadsheet export, the print preview, backup and restore, the configuration tab, and opening or closing the connection are left out. They are display or file I/O.
- The history tab's view (`actualizar_historial_accesos`, last 100 entries) is left out. It is display only.
- `datetime.now()` becomes a parameter: `ahora` for timestamps, `hoy` for today's date. The handler and its history entry share the same `ahora`.
- A confirmation dialog becomes the `confirmado` parameter. Whether the history INSERT succeeds becomes the `logOk` parameter; its failure is only printed.
- SQLite is left out: cursors, transactions and error strings. A UNIQUE violation is an explicit scan (`Schema.Lookup`), checked before the write, so a refused write leaves nothing behind. Other storage errors are not modelled, so neither is a second commit of a two-commit handler failing after the first.
- The REAL `costo` column is an uninterpreted type, `Schema.Cost`. It is stored and copied, never computed with.
- Foreign keys are not modelled, because the connection never enables them.
- Cancelling a booking and registering a maintenance read the status from the selected list line. The model reads the stored row instead, which assumes the list is up to date. A line whose row is gone gives `NoEncontrado`.
- Laboratory.Lab.ActualizarMantenimientoDb: when the record does not exist, the code fails on `fetchone()[0]` with an exception it does not catch, before writing anything. The model returns `Fallo(NoEncontrado)` with no change.
- Laboratory.Lab.EliminarUsuario: the check against id 1 assumes the list returns the id as an integer.
- Laboratory.Lab.GuardarUsuario: when both the email and the login are taken, the model reports the login. This assumes SQLite checks the UNIQUE index of `usuario`, declared after `email`, first, as it checks the newest index of a table first.
- Laboratory.Lab.AtenderReporte: the status the detail window read when it opened is the parameter `visto`. Opening the window on a report with no row fails at `reporte[0]` before any window exists, so that case has no button to model.
- The `detalles` argument of the history is always defaulted, because no handler passes one. `Audit.Entrada` still covers an explicit value.
- Rows that tie on the `ORDER BY` key have no specified order, so the listings promise sortedness and contents (as multisets), not a particular tie order.
- Laboratory.Lab.ListarReservas: the listing's "active" flag uses the `ahora` passed in, not a second clock reading.

## Findings

| source | as written | input that shows it | evidently intended | confidence | as-written member | corrected member |
|---|---|---|---|---|---|---|
| GestionLAB2.0.py:1851-1855 | a request clashes with a confirmed booking only if one of the request's own endpoints lies within that booking | booked 2024-03-01 10:00 to 12:00; request 09:00 to 13:00 on the same equipment: neither endpoint lies within 10:00-12:00, so the count is 0 and the request is confirmed, double-booking the equipment | refuse any request whose closed interval meets a confirmed booking of the same equipment | not executed | Scheduler.CodeAdmitsDoubleBookingExample | Scheduler.CorrectedBookingKeepsNoOverlap |
| GestionLAB2.0.py:514-524 | the detail window offers its buttons only when the report is "Abierto" | mark an open report "En Progreso"; every window opened on it from then on shows no button, and only a window left open from before the change can still resolve it | a report in progress can still be resolved | not executed | Reports.CodeStrandsInProgress | Reports.CorrectedResolvable |

The handlers `Laboratory.Lab.GuardarReserva` and `Laboratory.Lab.AtenderReporte`
model the code as written, with `Scheduler.Ocupado` and `Reports.Ofrecidas`.
The separately named `Laboratory.Lab.GuardarReservaCorregida` and
`Laboratory.Lab.AtenderReporteCorregido` are the same handlers with the
corrected tests, `Scheduler.OcupadoCorregido` and `Reports.OfrecidasCorregidas`.
