/**
 * Maintenance planner: the status classification and listing of
 * `actualizar_mantenimientos`, and the "pending only" gate of
 * `registrar_mantenimiento`.
 */
module Maintenance {
  import opened Common
  import opened TextOrder
  import opened Schema
  import opened Query

  const Pendiente := "Pendiente"
  const Completado := "Completado"

  /** The row colours of the maintenance view. */
  datatype Marca = Atrasado | PorHacer | Terminado | SinMarca

  /** Classification of one row against today's date "%Y-%m-%d". */
  function Clasificar(m: Mantenimiento, hoy: string): (k: Marca)
    ensures k == Atrasado <==> m.estado == Pendiente && LexLt(m.fechaProgramada, hoy)
    ensures k == PorHacer <==> m.estado == Pendiente && !LexLt(m.fechaProgramada, hoy)
    ensures k == Terminado <==> m.estado == Completado
    ensures k == SinMarca <==> m.estado != Pendiente && m.estado != Completado
  {
    if m.estado == Pendiente && LexLt(m.fechaProgramada, hoy) then Atrasado
    else if m.estado == Pendiente then PorHacer
    else if m.estado == Completado then Terminado
    else SinMarca
  }

  /** A pending record that is overdue today is still overdue on every later day. */
  lemma OverdueStaysOverdue(m: Mantenimiento, hoy: string, despues: string)
    requires Clasificar(m, hoy) == Atrasado && LexLe(hoy, despues)
    ensures Clasificar(m, despues) == Atrasado
  {
    LexLtTransLe(m.fechaProgramada, hoy, despues);
  }

  /** A record scheduled for today is not yet overdue: the comparison is strict. */
  lemma DueTodayNotOverdue(m: Mantenimiento)
    requires m.estado == Pendiente
    ensures Clasificar(m, m.fechaProgramada) == PorHacer
  {
    LexLeRefl(m.fechaProgramada);
  }

  /**
   * Today's date has no time part, so a record scheduled for today with a
   * time ("2024-03-01 09:00" on "2024-03-01") sorts after it and is still
   * only pending.
   */
  lemma TimeOfDayNotOverdue(m: Mantenimiento, hoy: string)
    requires m.estado == Pendiente && |hoy| < |m.fechaProgramada| && m.fechaProgramada[..|hoy|] == hoy
    ensures Clasificar(m, hoy) == PorHacer
  {
    PrefixIsLess(hoy, m.fechaProgramada);
    LexLtIffNotLe(m.fechaProgramada, hoy);
  }

  /** Python's truth test on the optional date: given and not empty. */
  predicate Realizada(fecha: Option<string>)
  {
    fecha.Some? && fecha.value != ""
  }

  /** `UPDATE mantenimientos SET fecha_realizado = ?, estado = 'Completado', costo = ?, observaciones = ? WHERE id = ?` */
  function Completar(ms: seq<Mantenimiento>, id: int, fecha: string, costo: Cost, obs: string): (r: seq<Mantenimiento>)
    ensures |r| == |ms|
    ensures forall i :: 0 <= i < |ms| ==>
      r[i] == (if ms[i].id == id then ms[i].(fechaRealizado := Some(fecha), estado := Completado, costo := costo, observaciones := obs) else ms[i])
  {
    Update(ms, (m: Mantenimiento) => m.id == id,
           (m: Mantenimiento) => m.(fechaRealizado := Some(fecha), estado := Completado, costo := costo, observaciones := obs))
  }

  /** `UPDATE equipos SET ultimo_mantenimiento = ? WHERE id = ?` */
  function AnotarUltimo(eqs: seq<Equipo>, id: int, fecha: string): (r: seq<Equipo>)
    ensures |r| == |eqs|
    ensures forall i :: 0 <= i < |eqs| ==>
      r[i] == (if eqs[i].id == id then eqs[i].(ultimoMantenimiento := fecha) else eqs[i])
  {
    Update(eqs, (e: Equipo) => e.id == id, (e: Equipo) => e.(ultimoMantenimiento := fecha))
  }

  /** The "Registrar Mantenimiento" window opens only for a pending record. */
  predicate Registrable(m: Mantenimiento)
  {
    m.estado == Pendiente
  }

  /** After the UPDATE the record with that id is completed, so `registrar_mantenimiento` refuses it from then on. */
  lemma CompletedNotRegistrable(ms: seq<Mantenimiento>, id: int, fecha: string, costo: Cost, obs: string)
    requires FindBy(ms, IdMantenimiento, id).Some?
    ensures FindBy(Completar(ms, id, fecha, costo, obs), IdMantenimiento, id).Some?
    ensures FindBy(Completar(ms, id, fecha, costo, obs), IdMantenimiento, id).value.estado == Completado
    ensures !Registrable(FindBy(Completar(ms, id, fecha, costo, obs), IdMantenimiento, id).value)
  {
    var c := Completar(ms, id, fecha, costo, obs);
    var k :| 0 <= k < |ms| && ms[k] == FindBy(ms, IdMantenimiento, id).value;
    assert IdMantenimiento(c[k]) == id;
    var found := FindBy(c, IdMantenimiento, id);
    assert found.Some? && IdMantenimiento(found.value) == id;
    var i :| 0 <= i < |c| && c[i] == found.value;
    assert c[i].id == ms[i].id;
  }

  // ------------------------------------------------------- listing

  datatype Filtro = Filtro(tipo: string, estado: string)

  datatype Condicion = TipoEs(tipo: string) | EstadoEs(estado: string)

  predicate Se(m: Mantenimiento, c: Condicion)
  {
    match c
    case TipoEs(t) => m.tipo == t
    case EstadoEs(e) => m.estado == e
  }

  function Condiciones(f: Filtro): seq<Condicion>
  {
    var c0: seq<Condicion> := [];
    var c1 := if f.tipo != "Todos" then c0 + [TipoEs(f.tipo)] else c0;
    if f.estado != "Todos" then c1 + [EstadoEs(f.estado)] else c1
  }

  predicate Coincide(m: Mantenimiento, f: Filtro)
  {
    (f.tipo == "Todos" || m.tipo == f.tipo) && (f.estado == "Todos" || m.estado == f.estado)
  }

  lemma CondicionesMeanFiltro(m: Mantenimiento, f: Filtro)
    ensures AllHold(m, Condiciones(f), Se) <==> Coincide(m, f)
  {
    var c0: seq<Condicion> := [];
    var c1 := if f.tipo != "Todos" then c0 + [TipoEs(f.tipo)] else c0;
    if f.tipo != "Todos" { AllHoldAppend(m, c0, TipoEs(f.tipo), Se); }
    if f.estado != "Todos" { AllHoldAppend(m, c1, EstadoEs(f.estado), Se); }
  }

  /** One line of the maintenance view, with its colour. */
  datatype FilaMantenimiento = FilaMantenimiento(
    id: int, equipo: string, tipo: string, fechaProgramada: string,
    fechaRealizado: Option<string>, tecnico: string, estado: string, marca: Marca)

  function ProgramadaDeFila(x: FilaMantenimiento): string { x.fechaProgramada }

  /** `JOIN equipos e ON m.equipo_id = e.id`: a record whose equipment row is gone is not listed. */
  function Fila(m: Mantenimiento, eqs: seq<Equipo>, hoy: string): (r: Option<FilaMantenimiento>)
    ensures r.Some? <==> exists i :: 0 <= i < |eqs| && eqs[i].id == m.equipoId
    ensures r.Some? ==> r.value.id == m.id && r.value.estado == m.estado && r.value.marca == Clasificar(m, hoy)
  {
    match FindBy(eqs, IdEquipo, m.equipoId)
    case Some(e) =>
      Some(FilaMantenimiento(m.id, e.nombre, m.tipo, m.fechaProgramada, m.fechaRealizado, m.tecnico, m.estado, Clasificar(m, hoy)))
    case None => None
  }

  function Listada(m: Mantenimiento, f: Filtro, eqs: seq<Equipo>, hoy: string): Option<FilaMantenimiento>
  {
    if Coincide(m, f) then Fila(m, eqs, hoy) else None
  }

  function Seleccionada(m: Mantenimiento, cs: seq<Condicion>, eqs: seq<Equipo>, hoy: string): Option<FilaMantenimiento>
  {
    if AllHold(m, cs, Se) then Fila(m, eqs, hoy) else None
  }

  /** The result rows, before `ORDER BY m.fecha_programada`. */
  function Listado(ms: seq<Mantenimiento>, f: Filtro, eqs: seq<Equipo>, hoy: string): seq<FilaMantenimiento>
  {
    Pick(ms, (m: Mantenimiento) => Listada(m, f, eqs, hoy))
  }

  /** The query built from the conditions lists exactly what the filter means, joined rows only. */
  lemma SeleccionEsListado(ms: seq<Mantenimiento>, f: Filtro, cs: seq<Condicion>, eqs: seq<Equipo>, hoy: string)
    requires cs == Condiciones(f)
    ensures Pick(ms, (m: Mantenimiento) => Seleccionada(m, cs, eqs, hoy)) == Listado(ms, f, eqs, hoy)
    ensures forall x :: x in Listado(ms, f, eqs, hoy) <==>
      exists i :: 0 <= i < |ms| && Coincide(ms[i], f) && Fila(ms[i], eqs, hoy) == Some(x)
  {
    forall i | 0 <= i < |ms| ensures Seleccionada(ms[i], cs, eqs, hoy) == Listada(ms[i], f, eqs, hoy) {
      CondicionesMeanFiltro(ms[i], f);
    }
    PickExt(ms, (m: Mantenimiento) => Seleccionada(m, cs, eqs, hoy), (m: Mantenimiento) => Listada(m, f, eqs, hoy));
    PickMembers(ms, (m: Mantenimiento) => Listada(m, f, eqs, hoy));
  }
}
