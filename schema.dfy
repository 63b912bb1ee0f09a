/**
 * The seven tables `crear_tablas` creates, one row datatype each. Columns
 * keep their SQL names. A column the application can leave NULL is an
 * `Option`; the others are always written with a value by the handlers.
 * Dates and timestamps are TEXT (compared with `TextOrder.LexLe`); the REAL
 * `costo` column is carried as an uninterpreted `Cost`.
 */
module Schema {
  import opened Common
  import opened Query

  /** A REAL cost: stored and copied, never computed with. */
  type Cost(==)

  datatype Equipo = Equipo(
    id: int,
    nombre: string,
    tipo: string,
    modelo: string,
    serial: string,                 // UNIQUE; the form stores the raw entry text, "" included
    estado: string,
    ubicacion: string,
    fechaAdquisicion: string,
    ultimoMantenimiento: string,
    observaciones: string)

  datatype Componente = Componente(
    id: int,
    componente: string,
    tipo: string,
    cantidad: int,
    minimo: int,
    proveedor: string,
    ubicacion: string,
    fechaActualizacion: string,
    observaciones: string)

  datatype Reporte = Reporte(
    id: int,
    equipoId: Option<int>,          // NULL when no equipment was selected
    tipo: string,
    descripcion: string,
    fecha: string,
    estado: string,
    solucion: Option<string>,       // NULL until the report is resolved
    usuario: string,
    prioridad: string)

  datatype Reserva = Reserva(
    id: int,
    equipoId: int,
    usuarioId: int,
    fechaInicio: string,
    fechaFin: string,
    proposito: string,
    estado: string,
    fechaSolicitud: string)

  datatype Mantenimiento = Mantenimiento(
    id: int,
    equipoId: int,
    tipo: string,
    fechaProgramada: string,
    fechaRealizado: Option<string>, // NULL until the maintenance is performed
    descripcion: string,
    tecnico: string,
    estado: string,
    costo: Cost,
    observaciones: string)

  datatype Usuario = Usuario(
    id: int,
    nombre: string,
    apellido: string,
    email: string,                  // UNIQUE
    rol: string,
    usuario: string,                // UNIQUE login handle
    contrasena: string,
    fechaRegistro: string,
    estado: string)

  datatype Acceso = Acceso(
    id: int,
    usuarioId: int,
    fechaHora: string,
    accion: string,
    detalles: string)

  /** SQLite's `sqlite_sequence`: the id the next INSERT into each AUTOINCREMENT table receives. */
  datatype Counters = Counters(
    equipos: int,
    inventario: int,
    reportes: int,
    reservas: int,
    mantenimientos: int,
    usuarios: int,
    accesos: int)

  /** The whole database: the seven tables in rowid order and their counters. */
  datatype Db = Db(
    equipos: seq<Equipo>,
    inventario: seq<Componente>,
    reportes: seq<Reporte>,
    reservas: seq<Reserva>,
    mantenimientos: seq<Mantenimiento>,
    usuarios: seq<Usuario>,
    accesos: seq<Acceso>,
    seqs: Counters)

  /** Row ids of a table: positive, below the table's counter and increasing in rowid order. */
  ghost predicate KeysBelow<T>(rows: seq<T>, key: T -> int, next: int)
  {
    && (forall i :: 0 <= i < |rows| ==> 0 < key(rows[i]) < next)
    && (forall i, j :: 0 <= i < j < |rows| ==> key(rows[i]) < key(rows[j]))
  }

  /** A UNIQUE column: no two rows of the table share the value. */
  ghost predicate UniqueBy<T>(rows: seq<T>, col: T -> string)
  {
    forall i, j :: 0 <= i < j < |rows| ==> col(rows[i]) != col(rows[j])
  }

  /** What the UNIQUE index answers before an INSERT or an UPDATE of row self: is v held by another row? */
  predicate Taken<T>(rows: seq<T>, col: T -> string, key: T -> int, v: string, self: Option<int>)
  {
    exists i :: 0 <= i < |rows| && col(rows[i]) == v && Some(key(rows[i])) != self
  }

  /** The UNIQUE index lookup: scan the table for another row holding v. */
  method Lookup<T>(rows: seq<T>, col: T -> string, key: T -> int, v: string, self: Option<int>) returns (found: bool)
    ensures found <==> Taken(rows, col, key, v, self)
  {
    found := false;
    var i := 0;
    while i < |rows| && !found
      invariant 0 <= i <= |rows|
      invariant found <==> exists j :: 0 <= j < i && col(rows[j]) == v && Some(key(rows[j])) != self
    {
      found := col(rows[i]) == v && Some(key(rows[i])) != self;
      i := i + 1;
    }
  }

  // Column accessors, passed as values to the generic constraint predicates.
  function IdEquipo(e: Equipo): int { e.id }
  function IdComponente(c: Componente): int { c.id }
  function IdReporte(r: Reporte): int { r.id }
  function IdReserva(r: Reserva): int { r.id }
  function IdMantenimiento(m: Mantenimiento): int { m.id }
  function IdUsuario(u: Usuario): int { u.id }
  function IdAcceso(a: Acceso): int { a.id }
  function SerialDe(e: Equipo): string { e.serial }
  function EmailDe(u: Usuario): string { u.email }
  function LoginDe(u: Usuario): string { u.usuario }

  // ------------------------------------------------- keeping the constraints

  /** An INSERT that takes the counter's id keeps the keys in order and advances the counter. */
  lemma KeysAppend<T>(rows: seq<T>, key: T -> int, next: int, x: T)
    requires KeysBelow(rows, key, next) && key(x) == next && 0 < next
    ensures KeysBelow(rows + [x], key, next + 1)
  {
  }

  /** A row whose key exceeds every key already present may follow them. */
  lemma KeysSnoc<T>(rows: seq<T>, key: T -> int, next: int, x: T)
    requires KeysBelow(rows, key, next) && 0 < key(x) < next
    requires forall y :: y in rows ==> key(y) < key(x)
    ensures KeysBelow(rows + [x], key, next)
  {
    forall i, j | 0 <= i < j < |rows + [x]| ensures key((rows + [x])[i]) < key((rows + [x])[j]) {
      if j == |rows| {
        assert rows[i] in rows;
      }
    }
  }

  /** The rows a DELETE leaves keep their keys in order. */
  lemma {:induction false} KeysWhere<T(!new)>(rows: seq<T>, key: T -> int, next: int, keep: T -> bool)
    requires KeysBelow(rows, key, next)
    ensures KeysBelow(Where(rows, keep), key, next)
    decreases |rows|
  {
    if rows != [] {
      var init, last := rows[..|rows| - 1], rows[|rows| - 1];
      assert rows == init + [last];
      WhereStep(init, last, keep);
      assert KeysBelow(init, key, next);
      KeysWhere(init, key, next, keep);
      if keep(last) {
        forall y | y in Where(init, keep) ensures key(y) < key(last) {
          var i :| 0 <= i < |init| && init[i] == y;
          assert rows[i] == y;
        }
        KeysSnoc(Where(init, keep), key, next, last);
      }
    }
  }

  /** An UPDATE that leaves every key as it was keeps the keys in order. */
  lemma KeysPointwise<T>(a: seq<T>, b: seq<T>, key: T -> int, next: int)
    requires KeysBelow(a, key, next)
    requires |a| == |b| && forall i :: 0 <= i < |a| ==> key(b[i]) == key(a[i])
    ensures KeysBelow(b, key, next)
  {
  }

  /** Increasing keys are unique keys: at most one row answers `WHERE id = k`. */
  lemma KeysUnique<T>(rows: seq<T>, key: T -> int, next: int, i: int, j: int)
    requires KeysBelow(rows, key, next)
    requires 0 <= i < |rows| && 0 <= j < |rows| && key(rows[i]) == key(rows[j])
    ensures i == j
  {
  }

  lemma UniqueAppend<T>(rows: seq<T>, col: T -> string, key: T -> int, x: T)
    requires UniqueBy(rows, col) && !Taken(rows, col, key, col(x), None)
    ensures UniqueBy(rows + [x], col)
  {
    forall i, j | 0 <= i < j < |rows + [x]| ensures col((rows + [x])[i]) != col((rows + [x])[j]) {
      if j == |rows| {
        assert Some(key(rows[i])) != None;
      }
    }
  }

  lemma {:induction false} UniqueWhere<T(!new)>(rows: seq<T>, col: T -> string, keep: T -> bool)
    requires UniqueBy(rows, col)
    ensures UniqueBy(Where(rows, keep), col)
    decreases |rows|
  {
    if rows != [] {
      var init, last := rows[..|rows| - 1], rows[|rows| - 1];
      UniqueWhere(init, col, keep);
      forall x | x in Where(init, keep) ensures col(x) != col(last) {
        var i :| 0 <= i < |init| && init[i] == x;
        assert rows[i] == x;
      }
    }
  }

  /** An UPDATE that does not touch the column keeps it unique. */
  lemma UniquePointwise<T>(a: seq<T>, b: seq<T>, col: T -> string)
    requires UniqueBy(a, col)
    requires |a| == |b| && forall i :: 0 <= i < |a| ==> col(b[i]) == col(a[i])
    ensures UniqueBy(b, col)
  {
  }
}
