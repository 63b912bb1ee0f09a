/**
 * The rules that hold across tables: the AUTOINCREMENT keys, the UNIQUE
 * columns, the report invariant, and the deletes of
 * `eliminar_equipo`, `eliminar_usuario` and `eliminar_componente`.
 */
module Integrity {
  import opened Common
  import opened Schema
  import opened Query
  import Scheduler
  import Reports
  import Maintenance
  import Audit

  /** What every handler keeps true of the database. */
  ghost predicate Coherente(db: Db)
  {
    && Claves(db)
    && UniqueBy(db.equipos, SerialDe)
    && UniqueBy(db.usuarios, EmailDe)
    && UniqueBy(db.usuarios, LoginDe)
    && Reports.Coherentes(db.reportes)
  }

  /** Every table's ids are positive, increasing and below its counter. */
  ghost predicate Claves(db: Db)
  {
    && KeysBelow(db.equipos, IdEquipo, db.seqs.equipos) && db.seqs.equipos > 0
    && KeysBelow(db.inventario, IdComponente, db.seqs.inventario) && db.seqs.inventario > 0
    && KeysBelow(db.reportes, IdReporte, db.seqs.reportes) && db.seqs.reportes > 0
    && KeysBelow(db.reservas, IdReserva, db.seqs.reservas) && db.seqs.reservas > 0
    && KeysBelow(db.mantenimientos, IdMantenimiento, db.seqs.mantenimientos) && db.seqs.mantenimientos > 0
    && KeysBelow(db.usuarios, IdUsuario, db.seqs.usuarios) && db.seqs.usuarios > 0
    && KeysBelow(db.accesos, IdAcceso, db.seqs.accesos) && db.seqs.accesos > 0
  }

  /** The freshly created database: seven empty tables. */
  function Vacia(): (db: Db)
    ensures Coherente(db)
  {
    Db([], [], [], [], [], [], [], Counters(1, 1, 1, 1, 1, 1, 1))
  }

  /** Recording an access entry keeps the database coherent. */
  lemma BitacoraKeeps(db: Db, accion: string, ahora: string, aceptado: bool)
    requires Coherente(db)
    ensures Coherente(Audit.Bitacora(db, accion, ahora, aceptado))
  {
    if aceptado {
      KeysAppend(db.accesos, IdAcceso, db.seqs.accesos, Audit.Entrada(db.seqs.accesos, accion, None, ahora));
    }
  }

  // ------------------------------------------------------------- inserts

  lemma InsertReporteKeeps(db: Db, x: Reporte)
    requires Coherente(db) && x.id == db.seqs.reportes && Reports.ResueltoConSolucion(x)
    ensures Coherente(db.(reportes := db.reportes + [x], seqs := db.seqs.(reportes := db.seqs.reportes + 1)))
  {
    KeysAppend(db.reportes, IdReporte, db.seqs.reportes, x);
  }

  lemma InsertReservaKeeps(db: Db, x: Reserva)
    requires Coherente(db) && x.id == db.seqs.reservas
    ensures Coherente(db.(reservas := db.reservas + [x], seqs := db.seqs.(reservas := db.seqs.reservas + 1)))
  {
    KeysAppend(db.reservas, IdReserva, db.seqs.reservas, x);
  }

  lemma InsertEquipoKeeps(db: Db, x: Equipo)
    requires Coherente(db) && x.id == db.seqs.equipos && !Taken(db.equipos, SerialDe, IdEquipo, x.serial, None)
    ensures Coherente(db.(equipos := db.equipos + [x], seqs := db.seqs.(equipos := db.seqs.equipos + 1)))
  {
    KeysAppend(db.equipos, IdEquipo, db.seqs.equipos, x);
    UniqueAppend(db.equipos, SerialDe, IdEquipo, x);
  }

  lemma InsertUsuarioKeeps(db: Db, x: Usuario)
    requires Coherente(db) && x.id == db.seqs.usuarios
    requires !Taken(db.usuarios, EmailDe, IdUsuario, x.email, None)
    requires !Taken(db.usuarios, LoginDe, IdUsuario, x.usuario, None)
    ensures Coherente(db.(usuarios := db.usuarios + [x], seqs := db.seqs.(usuarios := db.seqs.usuarios + 1)))
  {
    KeysAppend(db.usuarios, IdUsuario, db.seqs.usuarios, x);
    UniqueAppend(db.usuarios, EmailDe, IdUsuario, x);
    UniqueAppend(db.usuarios, LoginDe, IdUsuario, x);
  }

  lemma InsertComponenteKeeps(db: Db, x: Componente)
    requires Coherente(db) && x.id == db.seqs.inventario
    ensures Coherente(db.(inventario := db.inventario + [x], seqs := db.seqs.(inventario := db.seqs.inventario + 1)))
  {
    KeysAppend(db.inventario, IdComponente, db.seqs.inventario, x);
  }

  lemma InsertMantenimientoKeeps(db: Db, x: Mantenimiento)
    requires Coherente(db) && x.id == db.seqs.mantenimientos
    ensures Coherente(db.(mantenimientos := db.mantenimientos + [x], seqs := db.seqs.(mantenimientos := db.seqs.mantenimientos + 1)))
  {
    KeysAppend(db.mantenimientos, IdMantenimiento, db.seqs.mantenimientos, x);
  }

  // ------------------------------------------------------------- updates

  lemma CancelKeeps(db: Db, id: int)
    requires Coherente(db)
    ensures Coherente(db.(reservas := Scheduler.Cancelar(db.reservas, id)))
  {
    KeysPointwise(db.reservas, Scheduler.Cancelar(db.reservas, id), IdReserva, db.seqs.reservas);
  }

  /** An UPDATE of equipos that keeps every id and, unless the UNIQUE index objects, every other serial. */
  lemma UpdateEquiposKeeps(db: Db, eqs: seq<Equipo>, k: int, v: string)
    requires Coherente(db) && |eqs| == |db.equipos|
    requires forall i :: 0 <= i < |eqs| ==> eqs[i].id == db.equipos[i].id
    requires forall i :: 0 <= i < |eqs| ==> if db.equipos[i].id == k then eqs[i].serial == v else eqs[i].serial == db.equipos[i].serial
    requires (exists i :: 0 <= i < |eqs| && db.equipos[i].id == k) ==> !Taken(db.equipos, SerialDe, IdEquipo, v, Some(k))
    ensures Coherente(db.(equipos := eqs))
  {
    KeysPointwise(db.equipos, eqs, IdEquipo, db.seqs.equipos);
    if exists i :: 0 <= i < |eqs| && db.equipos[i].id == k {
      forall i, j | 0 <= i < j < |eqs| ensures eqs[i].serial != eqs[j].serial {
        if db.equipos[i].id == k && db.equipos[j].id == k {
          KeysUnique(db.equipos, IdEquipo, db.seqs.equipos, i, j);
        } else if db.equipos[i].id == k {
          assert SerialDe(db.equipos[j]) != v;
        } else if db.equipos[j].id == k {
          assert SerialDe(db.equipos[i]) != v;
        } else {
          assert SerialDe(db.equipos[i]) != SerialDe(db.equipos[j]);
        }
      }
    } else {
      UniquePointwise(db.equipos, eqs, SerialDe);
    }
  }

  /** An UPDATE of usuarios that keeps ids and logins and, unless the UNIQUE index objects, other emails. */
  lemma UpdateUsuariosKeeps(db: Db, us: seq<Usuario>, k: int, v: string)
    requires Coherente(db) && |us| == |db.usuarios|
    requires forall i :: 0 <= i < |us| ==> us[i].id == db.usuarios[i].id && us[i].usuario == db.usuarios[i].usuario
    requires forall i :: 0 <= i < |us| ==> if db.usuarios[i].id == k then us[i].email == v else us[i].email == db.usuarios[i].email
    requires (exists i :: 0 <= i < |us| && db.usuarios[i].id == k) ==> !Taken(db.usuarios, EmailDe, IdUsuario, v, Some(k))
    ensures Coherente(db.(usuarios := us))
  {
    KeysPointwise(db.usuarios, us, IdUsuario, db.seqs.usuarios);
    UniquePointwise(db.usuarios, us, LoginDe);
    if exists i :: 0 <= i < |us| && db.usuarios[i].id == k {
      forall i, j | 0 <= i < j < |us| ensures us[i].email != us[j].email {
        if db.usuarios[i].id == k && db.usuarios[j].id == k {
          KeysUnique(db.usuarios, IdUsuario, db.seqs.usuarios, i, j);
        } else if db.usuarios[i].id == k {
          assert EmailDe(db.usuarios[j]) != v;
        } else if db.usuarios[j].id == k {
          assert EmailDe(db.usuarios[i]) != v;
        } else {
          assert EmailDe(db.usuarios[i]) != EmailDe(db.usuarios[j]);
        }
      }
    } else {
      UniquePointwise(db.usuarios, us, EmailDe);
    }
  }

  /** `actualizar_equipo`'s UPDATE of row id keeps the database coherent unless the UNIQUE index objects. */
  lemma ReemplazarEquipoKeeps(db: Db, id: int, x: Equipo)
    requires Coherente(db) && x.id == id
    requires FindBy(db.equipos, IdEquipo, id).Some? ==> !Taken(db.equipos, SerialDe, IdEquipo, x.serial, Some(id))
    ensures Coherente(db.(equipos := Reemplazar(db.equipos, IdEquipo, id, x)))
  {
    UpdateEquiposKeeps(db, Reemplazar(db.equipos, IdEquipo, id, x), id, x.serial);
  }

  /** `actualizar_usuario`'s UPDATE of row id keeps the database coherent unless the UNIQUE index objects. */
  lemma EditarUsuarioKeeps(db: Db, id: int, nombre: string, apellido: string, email: string,
                           rol: string, contrasena: string, estado: string)
    requires Coherente(db)
    requires FindBy(db.usuarios, IdUsuario, id).Some? ==> !Taken(db.usuarios, EmailDe, IdUsuario, email, Some(id))
    ensures Coherente(db.(usuarios := EditarUsuario(db.usuarios, id, nombre, apellido, email, rol, contrasena, estado)))
  {
    UpdateUsuariosKeeps(db, EditarUsuario(db.usuarios, id, nombre, apellido, email, rol, contrasena, estado), id, email);
  }

  /** An UPDATE of equipos that leaves ids and serials alone. */
  lemma EquiposSameKeys(db: Db, eqs: seq<Equipo>)
    requires Coherente(db) && |eqs| == |db.equipos|
    requires forall i :: 0 <= i < |eqs| ==> eqs[i].id == db.equipos[i].id && eqs[i].serial == db.equipos[i].serial
    ensures Coherente(db.(equipos := eqs))
  {
    KeysPointwise(db.equipos, eqs, IdEquipo, db.seqs.equipos);
    UniquePointwise(db.equipos, eqs, SerialDe);
  }

  lemma MantenimientosSameKeys(db: Db, ms: seq<Mantenimiento>)
    requires Coherente(db) && |ms| == |db.mantenimientos|
    requires forall i :: 0 <= i < |ms| ==> ms[i].id == db.mantenimientos[i].id
    ensures Coherente(db.(mantenimientos := ms))
  {
    KeysPointwise(db.mantenimientos, ms, IdMantenimiento, db.seqs.mantenimientos);
  }

  lemma InventarioSameKeys(db: Db, cs: seq<Componente>)
    requires Coherente(db) && |cs| == |db.inventario|
    requires forall i :: 0 <= i < |cs| ==> cs[i].id == db.inventario[i].id
    ensures Coherente(db.(inventario := cs))
  {
    KeysPointwise(db.inventario, cs, IdComponente, db.seqs.inventario);
  }

  /** `actualizar_componente`'s UPDATE of row id keeps the database coherent. */
  lemma ReemplazarComponenteKeeps(db: Db, id: int, x: Componente)
    requires Coherente(db) && x.id == id
    ensures Coherente(db.(inventario := Reemplazar(db.inventario, IdComponente, id, x)))
  {
    InventarioSameKeys(db, Reemplazar(db.inventario, IdComponente, id, x));
  }

  /** Recording a performed maintenance keeps the database coherent. */
  lemma CompletarKeeps(db: Db, id: int, fecha: string, costo: Cost, obs: string)
    requires Coherente(db)
    ensures Coherente(db.(mantenimientos := Maintenance.Completar(db.mantenimientos, id, fecha, costo, obs)))
  {
    MantenimientosSameKeys(db, Maintenance.Completar(db.mantenimientos, id, fecha, costo, obs));
  }

  /** Stamping an equipment's last maintenance date keeps the database coherent. */
  lemma AnotarUltimoKeeps(db: Db, id: int, fecha: string)
    requires Coherente(db)
    ensures Coherente(db.(equipos := Maintenance.AnotarUltimo(db.equipos, id, fecha)))
  {
    EquiposSameKeys(db, Maintenance.AnotarUltimo(db.equipos, id, fecha));
  }

  /**
   * `actualizar_usuario`: every column but the login handle and the
   * registration date; the password only when a new one is typed.
   */
  function EditarUsuario(us: seq<Usuario>, id: int, nombre: string, apellido: string, email: string,
                         rol: string, contrasena: string, estado: string): (r: seq<Usuario>)
    ensures |r| == |us|
    ensures forall i :: 0 <= i < |us| ==> r[i] == (if us[i].id == id then
      us[i].(nombre := nombre, apellido := apellido, email := email, rol := rol, estado := estado,
             contrasena := if contrasena != "" then contrasena else us[i].contrasena)
      else us[i])
  {
    Update(us, (u: Usuario) => u.id == id,
           (u: Usuario) => u.(nombre := nombre, apellido := apellido, email := email, rol := rol, estado := estado,
                              contrasena := if contrasena != "" then contrasena else u.contrasena))
  }

  /** Marking any report in progress, whatever its status, never yields a resolved report without a solution. */
  lemma MarcarKeeps(db: Db, id: int)
    requires Coherente(db)
    ensures Coherente(db.(reportes := Reports.Cambiar(db.reportes, id, Reports.EnProgreso)))
  {
    var rs := db.reportes;
    var nuevo := Reports.Cambiar(rs, id, Reports.EnProgreso);
    KeysPointwise(rs, nuevo, IdReporte, db.seqs.reportes);
    forall x | x in nuevo ensures Reports.ResueltoConSolucion(x) {
      var i :| 0 <= i < |nuevo| && nuevo[i] == x;
      assert rs[i] in rs;
    }
  }

  /** Resolving a report gives it a solution together with the resolved status. */
  lemma SolucionarKeeps(db: Db, id: int, solucion: string)
    requires Coherente(db)
    ensures Coherente(db.(reportes := Reports.Solucionar(db.reportes, id, solucion)))
  {
    var rs := db.reportes;
    var nuevo := Reports.Solucionar(rs, id, solucion);
    KeysPointwise(rs, nuevo, IdReporte, db.seqs.reportes);
    forall x | x in nuevo ensures Reports.ResueltoConSolucion(x) {
      var i :| 0 <= i < |nuevo| && nuevo[i] == x;
      assert rs[i] in rs;
    }
  }

  // ----------------------------------------------------- eliminar_equipo

  function ReportesDe(rs: seq<Reporte>, id: int): seq<Reporte>
  {
    Where(rs, (r: Reporte) => r.equipoId == Some(id))
  }

  function ReservasDe(rs: seq<Reserva>, id: int): seq<Reserva>
  {
    Where(rs, (r: Reserva) => r.equipoId == id)
  }

  function SinReportesDe(rs: seq<Reporte>, id: int): seq<Reporte>
  {
    Where(rs, (r: Reporte) => r.equipoId != Some(id))
  }

  function SinReservasDe(rs: seq<Reserva>, id: int): seq<Reserva>
  {
    Where(rs, (r: Reserva) => r.equipoId != id)
  }

  function SinEquipo(eqs: seq<Equipo>, id: int): seq<Equipo>
  {
    Where(eqs, (e: Equipo) => e.id != id)
  }

  /**
   * The three deletes of `eliminar_equipo`: the equipment's reports, its
   * reservations, then the equipment row. Maintenance records are left.
   */
  function Cascada(db: Db, id: int): Db
  {
    db.(reportes := SinReportesDe(db.reportes, id),
        reservas := SinReservasDe(db.reservas, id),
        equipos := SinEquipo(db.equipos, id))
  }

  /**
   * After the cascade nothing refers to the equipment, every other row of
   * the three tables is still there, and no other table has changed.
   */
  lemma CascadeRemovesReferences(db: Db, id: int)
    ensures forall x :: x in Cascada(db, id).reportes <==> x in db.reportes && x.equipoId != Some(id)
    ensures forall x :: x in Cascada(db, id).reservas <==> x in db.reservas && x.equipoId != id
    ensures forall x :: x in Cascada(db, id).equipos <==> x in db.equipos && x.id != id
    ensures Cascada(db, id).(reportes := db.reportes, reservas := db.reservas, equipos := db.equipos) == db
  {
  }

  /** The counts shown in the confirmation are exactly the rows the cascade removes. */
  lemma CascadeCounts(db: Db, id: int)
    ensures |ReportesDe(db.reportes, id)| + |Cascada(db, id).reportes| == |db.reportes|
    ensures |ReservasDe(db.reservas, id)| + |Cascada(db, id).reservas| == |db.reservas|
  {
    WhereSplit(db.reportes, (r: Reporte) => r.equipoId == Some(id), (r: Reporte) => r.equipoId != Some(id));
    WhereSplit(db.reservas, (r: Reserva) => r.equipoId == id, (r: Reserva) => r.equipoId != id);
  }

  /** With no dependent rows, the skipped DELETE leaves the table as the cascade would. */
  lemma NothingToCascade(db: Db, id: int)
    ensures |ReportesDe(db.reportes, id)| == 0 ==> Cascada(db, id).reportes == db.reportes
    ensures |ReservasDe(db.reservas, id)| == 0 ==> Cascada(db, id).reservas == db.reservas
  {
    if |ReportesDe(db.reportes, id)| == 0 {
      WhereNone(db.reportes, (r: Reporte) => r.equipoId == Some(id));
      WhereAll(db.reportes, (r: Reporte) => r.equipoId != Some(id));
      assert SinReportesDe(db.reportes, id) == db.reportes;
    }
    if |ReservasDe(db.reservas, id)| == 0 {
      WhereNone(db.reservas, (r: Reserva) => r.equipoId == id);
      WhereAll(db.reservas, (r: Reserva) => r.equipoId != id);
      assert SinReservasDe(db.reservas, id) == db.reservas;
    }
  }

  lemma CascadeKeeps(db: Db, id: int)
    requires Coherente(db)
    ensures Coherente(Cascada(db, id))
  {
    KeysWhere(db.reportes, IdReporte, db.seqs.reportes, (r: Reporte) => r.equipoId != Some(id));
    KeysWhere(db.reservas, IdReserva, db.seqs.reservas, (r: Reserva) => r.equipoId != id);
    KeysWhere(db.equipos, IdEquipo, db.seqs.equipos, (e: Equipo) => e.id != id);
    UniqueWhere(db.equipos, SerialDe, (e: Equipo) => e.id != id);
  }

  /** Deleting an equipment's reservations never double-books the others. */
  lemma CascadeKeepsNoOverlap(db: Db, id: int)
    requires Scheduler.SinSolapes(db.reservas)
    ensures Scheduler.SinSolapes(Cascada(db, id).reservas)
  {
    Scheduler.NoOverlapWhere(db.reservas, (r: Reserva) => r.equipoId != id);
  }

  /**
   * The maintenance records of a deleted equipment stay in their table, but
   * the maintenance view joins on equipos, so they are no longer listed.
   */
  lemma OrphanedMaintenanceHidden(db: Db, id: int, m: Mantenimiento, hoy: string)
    requires m in db.mantenimientos && m.equipoId == id
    ensures m in Cascada(db, id).mantenimientos
    ensures Maintenance.Fila(m, Cascada(db, id).equipos, hoy).None?
  {
    CascadeRemovesReferences(db, id);
  }

  // ---------------------------------------------- eliminar_usuario / _componente

  /** The account `eliminar_usuario` refuses to delete. */
  const AdministradorPrincipal := 1

  function SinUsuario(db: Db, id: int): (r: Db)
    ensures forall u :: u in r.usuarios <==> u in db.usuarios && u.id != id
    ensures r.(usuarios := db.usuarios) == db
  {
    db.(usuarios := Where(db.usuarios, (u: Usuario) => u.id != id))
  }

  lemma SinUsuarioKeeps(db: Db, id: int)
    requires Coherente(db)
    ensures Coherente(SinUsuario(db, id))
  {
    KeysWhere(db.usuarios, IdUsuario, db.seqs.usuarios, (u: Usuario) => u.id != id);
    UniqueWhere(db.usuarios, EmailDe, (u: Usuario) => u.id != id);
    UniqueWhere(db.usuarios, LoginDe, (u: Usuario) => u.id != id);
  }

  /** A deleted user's reservations are not cascaded: they stay, and drop out of the reservations view. */
  lemma UserDeletionOrphansBookings(db: Db, id: int, r: Reserva, ahora: string)
    requires r in db.reservas && r.usuarioId == id
    ensures r in SinUsuario(db, id).reservas
    ensures Scheduler.Fila(r, db.equipos, SinUsuario(db, id).usuarios, ahora).None?
  {
  }

  function SinComponente(db: Db, id: int): (r: Db)
    ensures forall c :: c in r.inventario <==> c in db.inventario && c.id != id
    ensures r.(inventario := db.inventario) == db
  {
    db.(inventario := Where(db.inventario, (c: Componente) => c.id != id))
  }

  lemma SinComponenteKeeps(db: Db, id: int)
    requires Coherente(db)
    ensures Coherente(SinComponente(db, id))
  {
    KeysWhere(db.inventario, IdComponente, db.seqs.inventario, (c: Componente) => c.id != id);
  }
}
