/**
 * The laboratory database as the application object holds it: the seven
 * tables, changed in place by one method per save, update or delete
 * handler, and read by one method per listing.
 *
 * Every handler takes the current timestamp `ahora` ("%Y-%m-%d %H:%M:%S")
 * in place of `datetime.now()`, `confirmado` in place of the yes/no dialog
 * where there is one, and `logOk`, whether the INSERT of `registrar_acceso`
 * goes through (its failure is swallowed, so the handler's own change stays).
 */
module Laboratory {
  import opened Common
  import opened TextOrder
  import opened Schema
  import opened Query
  import Scheduler
  import Reports
  import Maintenance
  import Inventory
  import Audit
  import Integrity

  class Lab {
    var equipos: seq<Equipo>
    var inventario: seq<Componente>
    var reportes: seq<Reporte>
    var reservas: seq<Reserva>
    var mantenimientos: seq<Mantenimiento>
    var usuarios: seq<Usuario>
    var accesos: seq<Acceso>
    var seqs: Counters

    /** The tables as one value. */
    function Estado(): Db
      reads this
    {
      Db(equipos, inventario, reportes, reservas, mantenimientos, usuarios, accesos, seqs)
    }

    ghost predicate Valid()
      reads this
    {
      Integrity.Coherente(Estado())
    }

    /** `crear_tablas` on a new database file. */
    constructor ()
      ensures Estado() == Integrity.Vacia()
      ensures Valid()
    {
      equipos, inventario, reportes, reservas := [], [], [], [];
      mantenimientos, usuarios, accesos := [], [], [];
      seqs := Counters(1, 1, 1, 1, 1, 1, 1);
    }

    /** `conn.commit()` of the handler's writes: the tables become db. */
    method Confirmar(db: Db)
      requires Integrity.Coherente(db)
      modifies this
      ensures Estado() == db
      ensures Valid()
    {
      equipos, inventario, reportes, reservas := db.equipos, db.inventario, db.reportes, db.reservas;
      mantenimientos, usuarios, accesos, seqs := db.mantenimientos, db.usuarios, db.accesos, db.seqs;
    }

    /** `registrar_acceso(accion)`: one entry for user 1, its details the action text. */
    method RegistrarAcceso(accion: string, ahora: string, logOk: bool)
      requires Valid()
      modifies this
      ensures Valid()
      ensures Estado() == Audit.Bitacora(old(Estado()), accion, ahora, logOk)
    {
      Integrity.BitacoraKeeps(Estado(), accion, ahora, logOk);
      Confirmar(Audit.Bitacora(Estado(), accion, ahora, logOk));
    }

    // ------------------------------------------------------------ reservas

    /**
     * `guardar_reserva`, with the availability query as written: a clash is
     * a confirmed row of the same equipment with either requested endpoint
     * BETWEEN its bounds (`Scheduler.Ocupado`).
     */
    method GuardarReserva(equipoId: Option<int>, usuarioId: Option<int>, inicio: string, fin: string,
                          proposito: string, ahora: string, logOk: bool) returns (res: Resultado)
      requires Valid()
      modifies this
      ensures Valid()
      ensures equipoId.None? ==> res == Fallo(Validacion("equipo"))
      ensures equipoId.Some? && usuarioId.None? ==> res == Fallo(Validacion("usuario"))
      ensures equipoId.Some? && usuarioId.Some? && (inicio == "" || fin == "") ==> res == Fallo(Validacion("fechas"))
      ensures res.Fallo? ==> Estado() == old(Estado())
      ensures equipoId.Some? && usuarioId.Some? && inicio != "" && fin != "" ==>
        var x := Scheduler.Solicitud(old(seqs.reservas), equipoId.value, usuarioId.value, inicio, fin, proposito, ahora);
        && (res == Fallo(Conflicto) <==> Scheduler.Ocupado(old(reservas), equipoId.value, inicio, fin))
        && (res == Hecho <==> !Scheduler.Ocupado(old(reservas), equipoId.value, inicio, fin))
        && (res == Hecho ==> Estado() == Audit.Bitacora(
              old(Estado()).(reservas := old(reservas) + [x], seqs := old(seqs).(reservas := old(seqs.reservas) + 1)),
              Audit.CreoReserva(equipoId.value), ahora, logOk))
    {
      if equipoId.None? { return Fallo(Validacion("equipo")); }
      if usuarioId.None? { return Fallo(Validacion("usuario")); }
      if inicio == "" || fin == "" { return Fallo(Validacion("fechas")); }
      var n := CountWhere(reservas, (r: Reserva) => Scheduler.Choca(r, equipoId.value, inicio, fin));
      if n > 0 { return Fallo(Conflicto); }
      var x := Scheduler.Solicitud(seqs.reservas, equipoId.value, usuarioId.value, inicio, fin, proposito, ahora);
      Reservar(x, ahora, logOk);
      res := Hecho;
    }

    /**
     * `guardar_reserva` with the corrected availability test
     * (`Scheduler.OcupadoCorregido`): any confirmed booking of the equipment
     * whose interval meets the requested one is a clash. Unlike the handler
     * as written, it never double-books.
     */
    method GuardarReservaCorregida(equipoId: Option<int>, usuarioId: Option<int>, inicio: string, fin: string,
                                   proposito: string, ahora: string, logOk: bool) returns (res: Resultado)
      requires Valid()
      modifies this
      ensures Valid()
      ensures Scheduler.SinSolapes(old(reservas)) ==> Scheduler.SinSolapes(reservas)
      ensures equipoId.None? ==> res == Fallo(Validacion("equipo"))
      ensures equipoId.Some? && usuarioId.None? ==> res == Fallo(Validacion("usuario"))
      ensures equipoId.Some? && usuarioId.Some? && (inicio == "" || fin == "") ==> res == Fallo(Validacion("fechas"))
      ensures res.Fallo? ==> Estado() == old(Estado())
      ensures equipoId.Some? && usuarioId.Some? && inicio != "" && fin != "" ==>
        var x := Scheduler.Solicitud(old(seqs.reservas), equipoId.value, usuarioId.value, inicio, fin, proposito, ahora);
        && (res == Fallo(Conflicto) <==> Scheduler.OcupadoCorregido(old(reservas), x))
        && (res == Hecho <==> !Scheduler.OcupadoCorregido(old(reservas), x))
        && (res == Hecho ==> Estado() == Audit.Bitacora(
              old(Estado()).(reservas := old(reservas) + [x], seqs := old(seqs).(reservas := old(seqs.reservas) + 1)),
              Audit.CreoReserva(equipoId.value), ahora, logOk))
    {
      if equipoId.None? { return Fallo(Validacion("equipo")); }
      if usuarioId.None? { return Fallo(Validacion("usuario")); }
      if inicio == "" || fin == "" { return Fallo(Validacion("fechas")); }
      var x := Scheduler.Solicitud(seqs.reservas, equipoId.value, usuarioId.value, inicio, fin, proposito, ahora);
      var n := CountWhere(reservas, (r: Reserva) => Scheduler.Intersecan(r, x));
      if n > 0 { return Fallo(Conflicto); }
      if Scheduler.SinSolapes(reservas) {
        Scheduler.CorrectedBookingKeepsNoOverlap(reservas, x);
      }
      Reservar(x, ahora, logOk);
      res := Hecho;
    }

    /** The INSERT, commit and history entry both booking handlers end with. */
    method Reservar(x: Reserva, ahora: string, logOk: bool)
      requires Valid() && x.id == seqs.reservas
      modifies this
      ensures Valid()
      ensures Estado() == Audit.Bitacora(
        old(Estado()).(reservas := old(reservas) + [x], seqs := old(seqs).(reservas := old(seqs.reservas) + 1)),
        Audit.CreoReserva(x.equipoId), ahora, logOk)
    {
      Integrity.InsertReservaKeeps(Estado(), x);
      Confirmar(Estado().(reservas := reservas + [x], seqs := seqs.(reservas := seqs.reservas + 1)));
      RegistrarAcceso(Audit.CreoReserva(x.equipoId), ahora, logOk);
    }

    /** `cancelar_reserva`: only a confirmed reservation, and only after confirmation. */
    method CancelarReserva(id: int, confirmado: bool, ahora: string, logOk: bool) returns (res: Resultado)
      requires Valid()
      modifies this
      ensures Valid()
      ensures res.Fallo? ==> Estado() == old(Estado())
      ensures res == Fallo(NoEncontrado) <==> FindBy(old(reservas), IdReserva, id).None?
      ensures res == Fallo(TransicionInvalida) <==>
                FindBy(old(reservas), IdReserva, id).Some? && FindBy(old(reservas), IdReserva, id).value.estado != Scheduler.Confirmada
      ensures res == Hecho <==>
                FindBy(old(reservas), IdReserva, id).Some? && FindBy(old(reservas), IdReserva, id).value.estado == Scheduler.Confirmada && confirmado
      ensures res == Hecho ==>
                Estado() == Audit.Bitacora(old(Estado()).(reservas := Scheduler.Cancelar(old(reservas), id)),
                                           Audit.CanceloReserva(id), ahora, logOk)
      ensures res == Hecho ==>
                FindBy(reservas, IdReserva, id).Some? && FindBy(reservas, IdReserva, id).value.estado == Scheduler.Cancelada
      ensures Scheduler.SinSolapes(old(reservas)) ==> Scheduler.SinSolapes(reservas)
    {
      var r := FindBy(reservas, IdReserva, id);
      if r.None? { return Fallo(NoEncontrado); }
      if r.value.estado != Scheduler.Confirmada { return Fallo(TransicionInvalida); }
      if !confirmado { return Fallo(Declinada); }
      Integrity.CancelKeeps(Estado(), id);
      Scheduler.CancelledNotConfirmed(reservas, id);
      if Scheduler.SinSolapes(reservas) {
        Scheduler.CancelKeepsNoOverlap(reservas, id);
      }
      Confirmar(Estado().(reservas := Scheduler.Cancelar(reservas, id)));
      RegistrarAcceso(Audit.CanceloReserva(id), ahora, logOk);
      res := Hecho;
    }

    // ------------------------------------------------------------ reportes

    /** `guardar_reporte`: a description is required; the report is filed open, by "admin". */
    method GuardarReporte(equipoId: Option<int>, tipo: string, descripcion: string, prioridad: string,
                          ahora: string, logOk: bool) returns (res: Resultado)
      requires Valid()
      modifies this
      ensures Valid()
      ensures res == Fallo(Validacion("descripcion")) <==> descripcion == ""
      ensures res.Fallo? ==> Estado() == old(Estado())
      ensures res == Hecho <==> descripcion != ""
      ensures res == Hecho ==>
        var x := Reports.Nuevo(old(seqs.reportes), equipoId, tipo, descripcion, prioridad, ahora);
        Estado() == Audit.Bitacora(
          old(Estado()).(reportes := old(reportes) + [x], seqs := old(seqs).(reportes := old(seqs.reportes) + 1)),
          Audit.CreoReporte(tipo, prioridad), ahora, logOk)
    {
      if descripcion == "" { return Fallo(Validacion("descripcion")); }
      var x := Reports.Nuevo(seqs.reportes, equipoId, tipo, descripcion, prioridad, ahora);
      Integrity.InsertReporteKeeps(Estado(), x);
      Confirmar(Estado().(reportes := reportes + [x], seqs := seqs.(reportes := seqs.reportes + 1)));
      RegistrarAcceso(Audit.CreoReporte(tipo, prioridad), ahora, logOk);
      res := Hecho;
    }

    /**
     * A button of the report's detail window (`ver_detalle_reporte`):
     * "Marcar en Progreso" runs `cambiar_estado_reporte(id, "En Progreso")`,
     * "Resolver" runs `guardar_solucion(id, solucion)`. The window is not
     * modal and builds its buttons once, from `visto`, the status it read
     * when it opened (`Reports.Ofrecidas`); the writes themselves check
     * nothing, so a window left open acts on whatever the row is by then.
     */
    method AtenderReporte(id: int, visto: string, accion: Reports.Accion, solucion: string, ahora: string, logOk: bool)
      returns (res: Resultado)
      requires Valid()
      modifies this
      ensures Valid()
      ensures res.Fallo? ==> Estado() == old(Estado())
      ensures res == Fallo(TransicionInvalida) <==> accion !in Reports.Ofrecidas(visto)
      ensures res == Fallo(Validacion("solucion")) <==>
        accion in Reports.Ofrecidas(visto) && accion == Reports.Resolver && solucion == ""
      ensures res == Hecho <==> visto == Reports.Abierto && (accion == Reports.Resolver ==> solucion != "")
      ensures res == Hecho && accion == Reports.MarcarEnProgreso ==>
        Estado() == Audit.Bitacora(old(Estado()).(reportes := Reports.Cambiar(old(reportes), id, Reports.EnProgreso)),
                                   Audit.CambioEstadoReporte(id, Reports.EnProgreso), ahora, logOk)
      ensures res == Hecho && accion == Reports.Resolver ==>
        Estado() == Audit.Bitacora(old(Estado()).(reportes := Reports.Solucionar(old(reportes), id, solucion)),
                                   Audit.ResolvioReporte(id), ahora, logOk)
    {
      if accion !in Reports.Ofrecidas(visto) { return Fallo(TransicionInvalida); }
      res := Aplicar(id, accion, solucion, ahora, logOk);
    }

    /**
     * The detail window with the corrected buttons (`Reports.OfrecidasCorregidas`):
     * a window opened on a report "En Progreso" still offers "Resolver".
     */
    method AtenderReporteCorregido(id: int, visto: string, accion: Reports.Accion, solucion: string, ahora: string, logOk: bool)
      returns (res: Resultado)
      requires Valid()
      modifies this
      ensures Valid()
      ensures res.Fallo? ==> Estado() == old(Estado())
      ensures res == Fallo(TransicionInvalida) <==> accion !in Reports.OfrecidasCorregidas(visto)
      ensures res == Fallo(Validacion("solucion")) <==>
        accion in Reports.OfrecidasCorregidas(visto) && accion == Reports.Resolver && solucion == ""
      ensures res == Hecho <==>
        accion in Reports.OfrecidasCorregidas(visto) && (accion == Reports.Resolver ==> solucion != "")
      ensures res == Hecho && accion == Reports.MarcarEnProgreso ==>
        Estado() == Audit.Bitacora(old(Estado()).(reportes := Reports.Cambiar(old(reportes), id, Reports.EnProgreso)),
                                   Audit.CambioEstadoReporte(id, Reports.EnProgreso), ahora, logOk)
      ensures res == Hecho && accion == Reports.Resolver ==>
        Estado() == Audit.Bitacora(old(Estado()).(reportes := Reports.Solucionar(old(reportes), id, solucion)),
                                   Audit.ResolvioReporte(id), ahora, logOk)
    {
      if accion !in Reports.OfrecidasCorregidas(visto) { return Fallo(TransicionInvalida); }
      res := Aplicar(id, accion, solucion, ahora, logOk);
    }

    /**
     * What a pressed button does, with no check of the stored row: the
     * status UPDATE, or the solution (required) with "Resuelto". A report
     * deleted meanwhile is updated nowhere, and the entry is still logged.
     */
    method Aplicar(id: int, accion: Reports.Accion, solucion: string, ahora: string, logOk: bool)
      returns (res: Resultado)
      requires Valid()
      modifies this
      ensures Valid()
      ensures res == Hecho || res == Fallo(Validacion("solucion"))
      ensures res.Fallo? ==> Estado() == old(Estado())
      ensures res == Hecho <==> (accion == Reports.Resolver ==> solucion != "")
      ensures res == Hecho && accion == Reports.MarcarEnProgreso ==>
        Estado() == Audit.Bitacora(old(Estado()).(reportes := Reports.Cambiar(old(reportes), id, Reports.EnProgreso)),
                                   Audit.CambioEstadoReporte(id, Reports.EnProgreso), ahora, logOk)
      ensures res == Hecho && accion == Reports.Resolver ==>
        Estado() == Audit.Bitacora(old(Estado()).(reportes := Reports.Solucionar(old(reportes), id, solucion)),
                                   Audit.ResolvioReporte(id), ahora, logOk)
    {
      if accion == Reports.MarcarEnProgreso {
        Integrity.MarcarKeeps(Estado(), id);
        Confirmar(Estado().(reportes := Reports.Cambiar(reportes, id, Reports.EnProgreso)));
        RegistrarAcceso(Audit.CambioEstadoReporte(id, Reports.EnProgreso), ahora, logOk);
      } else {
        if solucion == "" { return Fallo(Validacion("solucion")); }
        Integrity.SolucionarKeeps(Estado(), id, solucion);
        Confirmar(Estado().(reportes := Reports.Solucionar(reportes, id, solucion)));
        RegistrarAcceso(Audit.ResolvioReporte(id), ahora, logOk);
      }
      res := Hecho;
    }

    // ------------------------------------------------------------ equipos

    /** `guardar_equipo`: a name is required and the serial must be new ("" counts as a serial). */
    method GuardarEquipo(nombre: string, tipo: string, modelo: string, serial: string, estado: string,
                         ubicacion: string, fechaAdq: string, ultMant: string, obs: string,
                         ahora: string, logOk: bool) returns (res: Resultado)
      requires Valid()
      modifies this
      ensures Valid()
      ensures res.Fallo? ==> Estado() == old(Estado())
      ensures nombre == "" ==> res == Fallo(Validacion("nombre"))
      ensures res == Fallo(Duplicado("serial")) <==> nombre != "" && Taken(old(equipos), SerialDe, IdEquipo, serial, None)
      ensures res == Hecho <==> nombre != "" && !Taken(old(equipos), SerialDe, IdEquipo, serial, None)
      ensures res == Hecho ==>
        var x := Equipo(old(seqs.equipos), nombre, tipo, modelo, serial, estado, ubicacion, fechaAdq, ultMant, obs);
        Estado() == Audit.Bitacora(
          old(Estado()).(equipos := old(equipos) + [x], seqs := old(seqs).(equipos := old(seqs.equipos) + 1)),
          Audit.AgregoEquipo(nombre), ahora, logOk)
    {
      if nombre == "" { return Fallo(Validacion("nombre")); }
      var dup := Lookup(equipos, SerialDe, IdEquipo, serial, None);
      if dup { return Fallo(Duplicado("serial")); }
      var x := Equipo(seqs.equipos, nombre, tipo, modelo, serial, estado, ubicacion, fechaAdq, ultMant, obs);
      Integrity.InsertEquipoKeeps(Estado(), x);
      Confirmar(Estado().(equipos := equipos + [x], seqs := seqs.(equipos := seqs.equipos + 1)));
      RegistrarAcceso(Audit.AgregoEquipo(nombre), ahora, logOk);
      res := Hecho;
    }

    /**
     * `actualizar_equipo`: the UNIQUE index objects only when the row exists
     * and another row holds the new serial; an id with no row updates nothing
     * but is still logged.
     */
    method ActualizarEquipo(id: int, nombre: string, tipo: string, modelo: string, serial: string, estado: string,
                            ubicacion: string, fechaAdq: string, ultMant: string, obs: string,
                            ahora: string, logOk: bool) returns (res: Resultado)
      requires Valid()
      modifies this
      ensures Valid()
      ensures res.Fallo? ==> Estado() == old(Estado())
      ensures nombre == "" ==> res == Fallo(Validacion("nombre"))
      ensures res == Fallo(Duplicado("serial")) <==>
        nombre != "" && FindBy(old(equipos), IdEquipo, id).Some? && Taken(old(equipos), SerialDe, IdEquipo, serial, Some(id))
      ensures res == Hecho <==>
        nombre != "" && !(FindBy(old(equipos), IdEquipo, id).Some? && Taken(old(equipos), SerialDe, IdEquipo, serial, Some(id)))
      ensures res == Hecho ==>
        var x := Equipo(id, nombre, tipo, modelo, serial, estado, ubicacion, fechaAdq, ultMant, obs);
        Estado() == Audit.Bitacora(old(Estado()).(equipos := Reemplazar(old(equipos), IdEquipo, id, x)),
                                   Audit.ActualizoEquipo(nombre), ahora, logOk)
    {
      if nombre == "" { return Fallo(Validacion("nombre")); }
      var existe := FindBy(equipos, IdEquipo, id);
      var dup := Lookup(equipos, SerialDe, IdEquipo, serial, Some(id));
      if existe.Some? && dup { return Fallo(Duplicado("serial")); }
      var x := Equipo(id, nombre, tipo, modelo, serial, estado, ubicacion, fechaAdq, ultMant, obs);
      Integrity.ReemplazarEquipoKeeps(Estado(), id, x);
      Confirmar(Estado().(equipos := Reemplazar(equipos, IdEquipo, id, x)));
      RegistrarAcceso(Audit.ActualizoEquipo(nombre), ahora, logOk);
      res := Hecho;
    }

    /**
     * `eliminar_equipo`: count the dependent reports and reservations (the
     * counts the confirmation shows), then on confirmation delete them and
     * the equipment row. Maintenance records stay.
     */
    method EliminarEquipo(id: int, nombre: string, confirmado: bool, ahora: string, logOk: bool)
      returns (res: Resultado, nReportes: nat, nReservas: nat)
      requires Valid()
      modifies this
      ensures Valid()
      ensures nReportes == |Integrity.ReportesDe(old(reportes), id)|
      ensures nReservas == |Integrity.ReservasDe(old(reservas), id)|
      ensures res == Hecho <==> confirmado
      ensures !confirmado ==> res == Fallo(Declinada) && Estado() == old(Estado())
      ensures confirmado ==>
        Estado() == Audit.Bitacora(Integrity.Cascada(old(Estado()), id), Audit.EliminoEquipo(nombre), ahora, logOk)
      ensures Scheduler.SinSolapes(old(reservas)) ==> Scheduler.SinSolapes(reservas)
    {
      nReportes := CountWhere(reportes, (r: Reporte) => r.equipoId == Some(id));
      nReservas := CountWhere(reservas, (r: Reserva) => r.equipoId == id);
      if !confirmado { return Fallo(Declinada), nReportes, nReservas; }
      Integrity.NothingToCascade(Estado(), id);
      Integrity.CascadeKeeps(Estado(), id);
      if Scheduler.SinSolapes(reservas) {
        Integrity.CascadeKeepsNoOverlap(Estado(), id);
      }
      var cambios := Estado();
      if nReportes > 0 {
        cambios := cambios.(reportes := Integrity.SinReportesDe(reportes, id));
      }
      if nReservas > 0 {
        cambios := cambios.(reservas := Integrity.SinReservasDe(reservas, id));
      }
      cambios := cambios.(equipos := Integrity.SinEquipo(equipos, id));
      Confirmar(cambios);
      RegistrarAcceso(Audit.EliminoEquipo(nombre), ahora, logOk);
      res := Hecho;
    }

    // ----------------------------------------------------------- usuarios

    /**
     * `guardar_usuario`: name, login and password are required; a taken
     * login is reported before a taken email ("" counts as an email), as
     * SQLite checks the later-declared UNIQUE index first.
     */
    method GuardarUsuario(nombre: string, apellido: string, email: string, rol: string, usuario: string,
                          contrasena: string, estado: string, ahora: string, logOk: bool) returns (res: Resultado)
      requires Valid()
      modifies this
      ensures Valid()
      ensures res.Fallo? ==> Estado() == old(Estado())
      ensures res == Fallo(Validacion("nombre, usuario, contrasena")) <==> nombre == "" || usuario == "" || contrasena == ""
      ensures res == Fallo(Duplicado("usuario")) <==>
        nombre != "" && usuario != "" && contrasena != "" && Taken(old(usuarios), LoginDe, IdUsuario, usuario, None)
      ensures res == Fallo(Duplicado("email")) <==>
        && nombre != "" && usuario != "" && contrasena != ""
        && !Taken(old(usuarios), LoginDe, IdUsuario, usuario, None) && Taken(old(usuarios), EmailDe, IdUsuario, email, None)
      ensures res == Hecho ==>
        var x := Usuario(old(seqs.usuarios), nombre, apellido, email, rol, usuario, contrasena, ahora, estado);
        Estado() == Audit.Bitacora(
          old(Estado()).(usuarios := old(usuarios) + [x], seqs := old(seqs).(usuarios := old(seqs.usuarios) + 1)),
          Audit.AgregoUsuario(usuario), ahora, logOk)
    {
      if nombre == "" || usuario == "" || contrasena == "" { return Fallo(Validacion("nombre, usuario, contrasena")); }
      var dupLogin := Lookup(usuarios, LoginDe, IdUsuario, usuario, None);
      if dupLogin { return Fallo(Duplicado("usuario")); }
      var dupEmail := Lookup(usuarios, EmailDe, IdUsuario, email, None);
      if dupEmail { return Fallo(Duplicado("email")); }
      var x := Usuario(seqs.usuarios, nombre, apellido, email, rol, usuario, contrasena, ahora, estado);
      Integrity.InsertUsuarioKeeps(Estado(), x);
      Confirmar(Estado().(usuarios := usuarios + [x], seqs := seqs.(usuarios := seqs.usuarios + 1)));
      RegistrarAcceso(Audit.AgregoUsuario(usuario), ahora, logOk);
      res := Hecho;
    }

    /** `actualizar_usuario`: a name is required; only the email can collide, since the login is not updated. */
    method ActualizarUsuario(id: int, nombre: string, apellido: string, email: string, rol: string,
                             contrasena: string, estado: string, ahora: string, logOk: bool) returns (res: Resultado)
      requires Valid()
      modifies this
      ensures Valid()
      ensures res.Fallo? ==> Estado() == old(Estado())
      ensures nombre == "" ==> res == Fallo(Validacion("nombre"))
      ensures res == Fallo(Duplicado("email")) <==>
        nombre != "" && FindBy(old(usuarios), IdUsuario, id).Some? && Taken(old(usuarios), EmailDe, IdUsuario, email, Some(id))
      ensures res == Hecho <==>
        nombre != "" && !(FindBy(old(usuarios), IdUsuario, id).Some? && Taken(old(usuarios), EmailDe, IdUsuario, email, Some(id)))
      ensures res == Hecho ==>
        Estado() == Audit.Bitacora(
          old(Estado()).(usuarios := Integrity.EditarUsuario(old(usuarios), id, nombre, apellido, email, rol, contrasena, estado)),
          Audit.ActualizoUsuario(id), ahora, logOk)
    {
      if nombre == "" { return Fallo(Validacion("nombre")); }
      var existe := FindBy(usuarios, IdUsuario, id);
      var dup := Lookup(usuarios, EmailDe, IdUsuario, email, Some(id));
      if existe.Some? && dup { return Fallo(Duplicado("email")); }
      Integrity.EditarUsuarioKeeps(Estado(), id, nombre, apellido, email, rol, contrasena, estado);
      Confirmar(Estado().(usuarios := Integrity.EditarUsuario(usuarios, id, nombre, apellido, email, rol, contrasena, estado)));
      RegistrarAcceso(Audit.ActualizoUsuario(id), ahora, logOk);
      res := Hecho;
    }

    /** `eliminar_usuario`: user 1 is never deleted; any other is, without cascade, on confirmation. */
    method EliminarUsuario(id: int, nombre: string, confirmado: bool, ahora: string, logOk: bool) returns (res: Resultado)
      requires Valid()
      modifies this
      ensures Valid()
      ensures res.Fallo? ==> Estado() == old(Estado())
      ensures res == Fallo(Prohibido) <==> id == Integrity.AdministradorPrincipal
      ensures res == Hecho <==> id != Integrity.AdministradorPrincipal && confirmado
      ensures res == Hecho ==>
        Estado() == Audit.Bitacora(Integrity.SinUsuario(old(Estado()), id), Audit.EliminoUsuario(nombre), ahora, logOk)
    {
      if id == Integrity.AdministradorPrincipal { return Fallo(Prohibido); }
      if !confirmado { return Fallo(Declinada); }
      Integrity.SinUsuarioKeeps(Estado(), id);
      Confirmar(Integrity.SinUsuario(Estado(), id));
      RegistrarAcceso(Audit.EliminoUsuario(nombre), ahora, logOk);
      res := Hecho;
    }

    // --------------------------------------------------------- inventario

    /** `guardar_componente`: a name is required; the row is stamped with the time of the save. */
    method GuardarComponente(componente: string, tipo: string, cantidad: int, minimo: int, proveedor: string,
                             ubicacion: string, obs: string, ahora: string, logOk: bool) returns (res: Resultado)
      requires Valid()
      modifies this
      ensures Valid()
      ensures res.Fallo? ==> Estado() == old(Estado())
      ensures res == Fallo(Validacion("componente")) <==> componente == ""
      ensures res == Hecho <==> componente != ""
      ensures res == Hecho ==>
        var x := Componente(old(seqs.inventario), componente, tipo, cantidad, minimo, proveedor, ubicacion, ahora, obs);
        Estado() == Audit.Bitacora(
          old(Estado()).(inventario := old(inventario) + [x], seqs := old(seqs).(inventario := old(seqs.inventario) + 1)),
          Audit.AgregoComponente(componente), ahora, logOk)
    {
      if componente == "" { return Fallo(Validacion("componente")); }
      var x := Componente(seqs.inventario, componente, tipo, cantidad, minimo, proveedor, ubicacion, ahora, obs);
      Integrity.InsertComponenteKeeps(Estado(), x);
      Confirmar(Estado().(inventario := inventario + [x], seqs := seqs.(inventario := seqs.inventario + 1)));
      RegistrarAcceso(Audit.AgregoComponente(componente), ahora, logOk);
      res := Hecho;
    }

    /** `actualizar_componente`: every column of row id, the update time included; an id with no row changes nothing. */
    method ActualizarComponente(id: int, componente: string, tipo: string, cantidad: int, minimo: int,
                                proveedor: string, ubicacion: string, obs: string, ahora: string, logOk: bool)
      returns (res: Resultado)
      requires Valid()
      modifies this
      ensures Valid()
      ensures res.Fallo? ==> Estado() == old(Estado())
      ensures res == Fallo(Validacion("componente")) <==> componente == ""
      ensures res == Hecho <==> componente != ""
      ensures res == Hecho ==>
        var x := Componente(id, componente, tipo, cantidad, minimo, proveedor, ubicacion, ahora, obs);
        Estado() == Audit.Bitacora(old(Estado()).(inventario := Reemplazar(old(inventario), IdComponente, id, x)),
                                   Audit.ActualizoComponente(componente), ahora, logOk)
    {
      if componente == "" { return Fallo(Validacion("componente")); }
      var x := Componente(id, componente, tipo, cantidad, minimo, proveedor, ubicacion, ahora, obs);
      Integrity.ReemplazarComponenteKeeps(Estado(), id, x);
      Confirmar(Estado().(inventario := Reemplazar(inventario, IdComponente, id, x)));
      RegistrarAcceso(Audit.ActualizoComponente(componente), ahora, logOk);
      res := Hecho;
    }

    /** `eliminar_componente`: delete row id on confirmation. */
    method EliminarComponente(id: int, nombre: string, confirmado: bool, ahora: string, logOk: bool) returns (res: Resultado)
      requires Valid()
      modifies this
      ensures Valid()
      ensures res == Hecho <==> confirmado
      ensures !confirmado ==> res == Fallo(Declinada) && Estado() == old(Estado())
      ensures confirmado ==>
        Estado() == Audit.Bitacora(Integrity.SinComponente(old(Estado()), id), Audit.EliminoComponente(nombre), ahora, logOk)
    {
      if !confirmado { return Fallo(Declinada); }
      Integrity.SinComponenteKeeps(Estado(), id);
      Confirmar(Integrity.SinComponente(Estado(), id));
      RegistrarAcceso(Audit.EliminoComponente(nombre), ahora, logOk);
      res := Hecho;
    }

    // ------------------------------------------------------ mantenimientos

    /**
     * `guardar_mantenimiento`: an equipment and a scheduled date are
     * required. When a performed date is given (and not empty) the
     * equipment's last maintenance date is set to it, in a second commit.
     */
    method GuardarMantenimiento(equipoId: Option<int>, tipo: string, fechaProg: string, fechaReal: Option<string>,
                                descripcion: string, tecnico: string, estado: string, costo: Cost, obs: string,
                                ahora: string, logOk: bool) returns (res: Resultado)
      requires Valid()
      modifies this
      ensures Valid()
      ensures res.Fallo? ==> Estado() == old(Estado())
      ensures res == Fallo(Validacion("equipo")) <==> equipoId.None?
      ensures res == Fallo(Validacion("fecha_programada")) <==> equipoId.Some? && fechaProg == ""
      ensures res == Hecho <==> equipoId.Some? && fechaProg != ""
      ensures res == Hecho ==>
        var x := Mantenimiento(old(seqs.mantenimientos), equipoId.value, tipo, fechaProg, fechaReal,
                               descripcion, tecnico, estado, costo, obs);
        var insertado := old(Estado()).(mantenimientos := old(mantenimientos) + [x],
                                        seqs := old(seqs).(mantenimientos := old(seqs.mantenimientos) + 1));
        Estado() == Audit.Bitacora(
          if Maintenance.Realizada(fechaReal)
          then insertado.(equipos := Maintenance.AnotarUltimo(old(equipos), equipoId.value, fechaReal.value))
          else insertado,
          Audit.ProgramoMantenimiento(equipoId.value), ahora, logOk)
    {
      if equipoId.None? { return Fallo(Validacion("equipo")); }
      if fechaProg == "" { return Fallo(Validacion("fecha_programada")); }
      var x := Mantenimiento(seqs.mantenimientos, equipoId.value, tipo, fechaProg, fechaReal,
                             descripcion, tecnico, estado, costo, obs);
      Integrity.InsertMantenimientoKeeps(Estado(), x);
      Confirmar(Estado().(mantenimientos := mantenimientos + [x], seqs := seqs.(mantenimientos := seqs.mantenimientos + 1)));
      if Maintenance.Realizada(fechaReal) {
        Integrity.AnotarUltimoKeeps(Estado(), equipoId.value, fechaReal.value);
        Confirmar(Estado().(equipos := Maintenance.AnotarUltimo(equipos, equipoId.value, fechaReal.value)));
      }
      RegistrarAcceso(Audit.ProgramoMantenimiento(equipoId.value), ahora, logOk);
      res := Hecho;
    }

    /** The "Programar Mantenimiento" form's save: no performed date, status pending, no observations. */
    method ProgramarMantenimiento(equipoId: Option<int>, tipo: string, fechaProg: string, descripcion: string,
                                  tecnico: string, costo: Cost, ahora: string, logOk: bool) returns (res: Resultado)
      requires Valid()
      modifies this
      ensures Valid()
      ensures res.Fallo? ==> Estado() == old(Estado())
      ensures res == Hecho <==> equipoId.Some? && fechaProg != ""
      ensures res == Hecho ==>
        var x := Mantenimiento(old(seqs.mantenimientos), equipoId.value, tipo, fechaProg, None,
                               descripcion, tecnico, Maintenance.Pendiente, costo, "");
        Estado() == Audit.Bitacora(
          old(Estado()).(mantenimientos := old(mantenimientos) + [x],
                         seqs := old(seqs).(mantenimientos := old(seqs.mantenimientos) + 1)),
          Audit.ProgramoMantenimiento(equipoId.value), ahora, logOk)
    {
      res := GuardarMantenimiento(equipoId, tipo, fechaProg, None, descripcion, tecnico, Maintenance.Pendiente,
                                  costo, "", ahora, logOk);
    }

    /**
     * `actualizar_mantenimiento_db`: a performed date is required; the record
     * becomes completed with the real cost and observations, then its
     * equipment's last maintenance date is set, in a second commit. An id
     * with no record stops the handler before any write.
     */
    method ActualizarMantenimientoDb(id: int, fechaReal: string, costo: Cost, obs: string, ahora: string, logOk: bool)
      returns (res: Resultado)
      requires Valid()
      modifies this
      ensures Valid()
      ensures res.Fallo? ==> Estado() == old(Estado())
      ensures res == Fallo(Validacion("fecha_realizado")) <==> fechaReal == ""
      ensures res == Fallo(NoEncontrado) <==> fechaReal != "" && FindBy(old(mantenimientos), IdMantenimiento, id).None?
      ensures res == Hecho <==> fechaReal != "" && FindBy(old(mantenimientos), IdMantenimiento, id).Some?
      ensures res == Hecho ==>
        var m := FindBy(old(mantenimientos), IdMantenimiento, id).value;
        Estado() == Audit.Bitacora(
          old(Estado()).(mantenimientos := Maintenance.Completar(old(mantenimientos), id, fechaReal, costo, obs),
                         equipos := Maintenance.AnotarUltimo(old(equipos), m.equipoId, fechaReal)),
          Audit.RegistroMantenimiento(id), ahora, logOk)
      ensures res == Hecho ==>
        FindBy(mantenimientos, IdMantenimiento, id).Some? &&
        FindBy(mantenimientos, IdMantenimiento, id).value.estado == Maintenance.Completado
    {
      if fechaReal == "" { return Fallo(Validacion("fecha_realizado")); }
      var m := FindBy(mantenimientos, IdMantenimiento, id);
      if m.None? { return Fallo(NoEncontrado); }
      Maintenance.CompletedNotRegistrable(mantenimientos, id, fechaReal, costo, obs);
      Integrity.CompletarKeeps(Estado(), id, fechaReal, costo, obs);
      Confirmar(Estado().(mantenimientos := Maintenance.Completar(mantenimientos, id, fechaReal, costo, obs)));
      Integrity.AnotarUltimoKeeps(Estado(), m.value.equipoId, fechaReal);
      Confirmar(Estado().(equipos := Maintenance.AnotarUltimo(equipos, m.value.equipoId, fechaReal)));
      RegistrarAcceso(Audit.RegistroMantenimiento(id), ahora, logOk);
      res := Hecho;
    }

    /** `registrar_mantenimiento`: the "Registrar" window opens only for a pending record. */
    method RegistrarMantenimiento(id: int, fechaReal: string, costo: Cost, obs: string, ahora: string, logOk: bool)
      returns (res: Resultado)
      requires Valid()
      modifies this
      ensures Valid()
      ensures res.Fallo? ==> Estado() == old(Estado())
      ensures res == Fallo(NoEncontrado) <==> FindBy(old(mantenimientos), IdMantenimiento, id).None?
      ensures res == Fallo(TransicionInvalida) <==>
        FindBy(old(mantenimientos), IdMantenimiento, id).Some? &&
        !Maintenance.Registrable(FindBy(old(mantenimientos), IdMantenimiento, id).value)
      ensures res == Hecho <==>
        FindBy(old(mantenimientos), IdMantenimiento, id).Some? &&
        Maintenance.Registrable(FindBy(old(mantenimientos), IdMantenimiento, id).value) && fechaReal != ""
      ensures res == Hecho ==>
        var m := FindBy(old(mantenimientos), IdMantenimiento, id).value;
        Estado() == Audit.Bitacora(
          old(Estado()).(mantenimientos := Maintenance.Completar(old(mantenimientos), id, fechaReal, costo, obs),
                         equipos := Maintenance.AnotarUltimo(old(equipos), m.equipoId, fechaReal)),
          Audit.RegistroMantenimiento(id), ahora, logOk)
      ensures res == Hecho ==>
        FindBy(mantenimientos, IdMantenimiento, id).Some? &&
        !Maintenance.Registrable(FindBy(mantenimientos, IdMantenimiento, id).value)
    {
      var m := FindBy(mantenimientos, IdMantenimiento, id);
      if m.None? { return Fallo(NoEncontrado); }
      if !Maintenance.Registrable(m.value) { return Fallo(TransicionInvalida); }
      res := ActualizarMantenimientoDb(id, fechaReal, costo, obs, ahora, logOk);
    }

    // ------------------------------------------------------------ listings

    /** `buscar_reportes`: the reports the search widgets select, newest first. */
    method BuscarReportes(f: Reports.Filtro) returns (filas: seq<Reports.FilaReporte>)
      ensures SortedBy(filas, Reports.FechaDeFila, Desc)
      ensures multiset(filas) == multiset(Reports.Listado(reportes, f, equipos))
      ensures forall x :: x in filas <==>
        exists i :: 0 <= i < |reportes| && Reports.Coincide(reportes[i], f) && x == Reports.Fila(reportes[i], equipos)
    {
      var cs := Reports.Condiciones(f);
      var rs, eqs := reportes, equipos;
      filas := SelectSorted(rs, (r: Reporte) => Reports.Seleccionada(r, cs, eqs), Reports.FechaDeFila, Desc);
      Reports.SeleccionEsListado(rs, f, cs, eqs);
      forall x ensures x in filas <==> x in Reports.Listado(rs, f, eqs) {
        assert x in filas <==> x in multiset(filas);
      }
    }

    /** `actualizar_reservas`: the reservations the filter selects, joined with equipment and user, by start time. */
    method ListarReservas(f: Scheduler.Filtro, ahora: string) returns (filas: seq<Scheduler.FilaReserva>)
      ensures SortedBy(filas, Scheduler.InicioDeFila, Asc)
      ensures multiset(filas) == multiset(Scheduler.Listado(reservas, f, equipos, usuarios, ahora))
      ensures forall x :: x in filas <==>
        exists i :: 0 <= i < |reservas| && Scheduler.Coincide(reservas[i], f) &&
                    Scheduler.Fila(reservas[i], equipos, usuarios, ahora) == Some(x)
    {
      var cs := Scheduler.Condiciones(f);
      var rs, eqs, us := reservas, equipos, usuarios;
      filas := SelectSorted(rs, (r: Reserva) => Scheduler.Seleccionada(r, cs, eqs, us, ahora), Scheduler.InicioDeFila, Asc);
      Scheduler.SeleccionEsListado(rs, f, cs, eqs, us, ahora);
      forall x ensures x in filas <==> x in Scheduler.Listado(rs, f, eqs, us, ahora) {
        assert x in filas <==> x in multiset(filas);
      }
    }

    /** `actualizar_mantenimientos`: the records the filter selects, joined with equipment, by scheduled date. */
    method ListarMantenimientos(f: Maintenance.Filtro, hoy: string) returns (filas: seq<Maintenance.FilaMantenimiento>)
      ensures SortedBy(filas, Maintenance.ProgramadaDeFila, Asc)
      ensures multiset(filas) == multiset(Maintenance.Listado(mantenimientos, f, equipos, hoy))
      ensures forall x :: x in filas <==>
        exists i :: 0 <= i < |mantenimientos| && Maintenance.Coincide(mantenimientos[i], f) &&
                    Maintenance.Fila(mantenimientos[i], equipos, hoy) == Some(x)
    {
      var cs := Maintenance.Condiciones(f);
      var ms, eqs := mantenimientos, equipos;
      filas := SelectSorted(ms, (m: Mantenimiento) => Maintenance.Seleccionada(m, cs, eqs, hoy),
                            Maintenance.ProgramadaDeFila, Asc);
      Maintenance.SeleccionEsListado(ms, f, cs, eqs, hoy);
      forall x ensures x in filas <==> x in Maintenance.Listado(ms, f, eqs, hoy) {
        assert x in filas <==> x in multiset(filas);
      }
    }

    /** `actualizar_inventario`: the components the filter selects, by name. */
    method ListarInventario(f: Inventory.Filtro) returns (filas: seq<Inventory.FilaComponente>)
      ensures SortedBy(filas, Inventory.NombreDeFila, Asc)
      ensures multiset(filas) == multiset(Inventory.Listado(inventario, f))
      ensures forall x :: x in filas <==>
        exists i :: 0 <= i < |inventario| && Inventory.Coincide(inventario[i], f) && x == Inventory.Fila(inventario[i])
    {
      var cs := Inventory.Condiciones(f);
      var inv := inventario;
      filas := SelectSorted(inv, (c: Componente) => Inventory.Seleccionada(c, cs), Inventory.NombreDeFila, Asc);
      Inventory.SeleccionEsListado(inv, f, cs);
      forall x ensures x in filas <==> x in Inventory.Listado(inv, f) {
        assert x in filas <==> x in multiset(filas);
      }
    }
  }
}
