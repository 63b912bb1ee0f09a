/**
 * Fault reports: the three statuses, the actions the detail window offers
 * for each (`ver_detalle_reporte`), and the search of `buscar_reportes`.
 */
module Reports {
  import opened Common
  import opened TextOrder
  import opened Schema
  import opened Query

  const Abierto := "Abierto"
  const EnProgreso := "En Progreso"
  const Resuelto := "Resuelto"

  /** The row `guardar_reporte` inserts: open, filed by "admin", no solution yet. */
  function Nuevo(id: int, equipoId: Option<int>, tipo: string, descripcion: string, prioridad: string, ahora: string): (r: Reporte)
    ensures r.id == id && r.equipoId == equipoId && r.tipo == tipo && r.descripcion == descripcion
    ensures r.prioridad == prioridad && r.fecha == ahora
    ensures r.estado == Abierto && r.usuario == "admin" && r.solucion.None?
  {
    Reporte(id, equipoId, tipo, descripcion, ahora, Abierto, None, "admin", prioridad)
  }

  /** `UPDATE reportes SET estado = ? WHERE id = ?` */
  function Cambiar(rs: seq<Reporte>, id: int, estado: string): (r: seq<Reporte>)
    ensures |r| == |rs|
    ensures forall i :: 0 <= i < |rs| ==> r[i] == (if rs[i].id == id then rs[i].(estado := estado) else rs[i])
  {
    Update(rs, (x: Reporte) => x.id == id, (x: Reporte) => x.(estado := estado))
  }

  /** `UPDATE reportes SET solucion = ?, estado = 'Resuelto' WHERE id = ?` */
  function Solucionar(rs: seq<Reporte>, id: int, solucion: string): (r: seq<Reporte>)
    ensures |r| == |rs|
    ensures forall i :: 0 <= i < |rs| ==>
      r[i] == (if rs[i].id == id then rs[i].(solucion := Some(solucion), estado := Resuelto) else rs[i])
  {
    Update(rs, (x: Reporte) => x.id == id, (x: Reporte) => x.(solucion := Some(solucion), estado := Resuelto))
  }

  /** The two buttons of the detail window. */
  datatype Accion = MarcarEnProgreso | Resolver

  /** The status each button writes. */
  function Destino(a: Accion): string
  {
    match a
    case MarcarEnProgreso => EnProgreso
    case Resolver => Resuelto
  }

  /** As written: both buttons are shown when the report is "Abierto", and none otherwise. */
  function Ofrecidas(estado: string): (r: set<Accion>)
    ensures r == {} <==> estado != Abierto
    ensures estado == Abierto ==> r == {MarcarEnProgreso, Resolver}
  {
    if estado == Abierto then {MarcarEnProgreso, Resolver} else {}
  }

  /** Corrected: a report in progress can still be resolved, and nothing goes back. */
  function OfrecidasCorregidas(estado: string): (r: set<Accion>)
    ensures MarcarEnProgreso in r <==> estado == Abierto
    ensures Resolver in r <==> estado == Abierto || estado == EnProgreso
  {
    if estado == Abierto then {MarcarEnProgreso, Resolver}
    else if estado == EnProgreso then {Resolver}
    else {}
  }

  /** Pressing the buttons acts in order from status e; None as soon as one is not on offer. */
  function Recorrer(e: string, acts: seq<Accion>, gate: string -> set<Accion>): Option<string>
    decreases |acts|
  {
    if acts == [] then Some(e)
    else if acts[0] in gate(e) then Recorrer(Destino(acts[0]), acts[1..], gate)
    else None
  }

  /** The position of a status in the lifecycle; anything else comes after it. */
  function Rango(e: string): nat
  {
    if e == Abierto then 0 else if e == EnProgreso then 1 else if e == Resuelto then 2 else 3
  }

  /**
   * As written, a window opened on a report "En Progreso" offers no button,
   * and through windows each opened on the current status a report reaches
   * "Resuelto" from "Abierto" only by pressing "Resolver" at once. Only a
   * window left open from before the change can still resolve it.
   */
  lemma CodeStrandsInProgress(acts: seq<Accion>)
    ensures Recorrer(EnProgreso, acts, Ofrecidas) == (if acts == [] then Some(EnProgreso) else None)
    ensures Recorrer(Abierto, acts, Ofrecidas) == Some(Resuelto) <==> acts == [Resolver]
  {
    if acts != [] && acts[0] == Resolver && acts[1..] != [] {
      assert Recorrer(Resuelto, acts[1..], Ofrecidas) == None;
    }
  }

  /** With the corrected offer, every open or in-progress report can be resolved. */
  lemma CorrectedResolvable(e: string)
    requires e == Abierto || e == EnProgreso
    ensures Recorrer(e, [Resolver], OfrecidasCorregidas) == Some(Resuelto)
    ensures e == Abierto ==> Recorrer(e, [MarcarEnProgreso, Resolver], OfrecidasCorregidas) == Some(Resuelto)
  {
    if e == Abierto {
      assert [MarcarEnProgreso, Resolver][1..] == [Resolver];
    }
  }

  /** Every corrected action moves strictly forward, so no report is reopened and at most two actions apply. */
  lemma {:induction false} CorrectedMovesForward(e: string, acts: seq<Accion>, f: string)
    requires Recorrer(e, acts, OfrecidasCorregidas) == Some(f)
    ensures Rango(f) >= Rango(e) + |acts|
    ensures acts != [] ==> f == Resuelto || f == EnProgreso
    ensures |acts| <= 2
    decreases |acts|
  {
    if acts != [] {
      CorrectedMovesForward(Destino(acts[0]), acts[1..], f);
    }
  }

  /** Each corrected offer is an as-written offer or the missing one: "Resolver" from "En Progreso". */
  lemma CorrectedExtendsCode(e: string, a: Accion)
    ensures a in Ofrecidas(e) ==> a in OfrecidasCorregidas(e)
    ensures a in OfrecidasCorregidas(e) && a !in Ofrecidas(e) <==> e == EnProgreso && a == Resolver
  {
  }

  /** A report carries a solution exactly when it is resolved. */
  predicate ConSolucionSiResuelto(r: Reporte)
  {
    r.solucion.Some? <==> r.estado == Resuelto
  }

  /** A resolved report carries a solution: the only write of "Resuelto" stores one with it. */
  predicate ResueltoConSolucion(r: Reporte)
  {
    r.estado == Resuelto ==> r.solucion.Some?
  }

  ghost predicate Coherentes(rs: seq<Reporte>)
  {
    forall r :: r in rs ==> ResueltoConSolucion(r)
  }

  /**
   * Two detail windows opened on the same open report: one resolves it, then
   * the other, still showing "Abierto", marks it in progress. The report
   * keeps its solution without being resolved, so "a solution exactly when
   * resolved" is not kept by the code.
   */
  lemma StaleWindowUnresolves(rs: seq<Reporte>, id: int, solucion: string)
    requires FindBy(rs, IdReporte, id).Some?
    ensures MarcarEnProgreso in Ofrecidas(Abierto) && Resolver in Ofrecidas(Abierto)
    ensures var t := Cambiar(Solucionar(rs, id, solucion), id, EnProgreso);
      && FindBy(t, IdReporte, id).Some?
      && FindBy(t, IdReporte, id).value.estado == EnProgreso
      && FindBy(t, IdReporte, id).value.solucion == Some(solucion)
      && !ConSolucionSiResuelto(FindBy(t, IdReporte, id).value)
  {
    var t := Cambiar(Solucionar(rs, id, solucion), id, EnProgreso);
    var k :| 0 <= k < |rs| && rs[k] == FindBy(rs, IdReporte, id).value;
    assert IdReporte(t[k]) == id;
    var found := FindBy(t, IdReporte, id);
    assert found.Some? && IdReporte(found.value) == id;
    var i :| 0 <= i < |t| && t[i] == found.value;
    assert t[i].id == rs[i].id;
  }

  /** The changes a corrected window opened on the current status can make keep a solution exactly on resolved reports. */
  lemma CorrectedActionsKeepSolution(r: Reporte, a: Accion, solucion: string)
    requires ConSolucionSiResuelto(r) && a in OfrecidasCorregidas(r.estado)
    ensures a == MarcarEnProgreso ==> ConSolucionSiResuelto(r.(estado := Destino(a)))
    ensures a == Resolver ==> ConSolucionSiResuelto(r.(estado := Destino(a), solucion := Some(solucion)))
  {
  }

  // ------------------------------------------------------- buscar_reportes

  /** The search widgets: "Todos" and an empty date mean no restriction. */
  datatype Filtro = Filtro(tipo: string, estado: string, prioridad: string, desde: string, hasta: string)

  datatype Condicion =
    | TipoEs(tipo: string)
    | EstadoEs(estado: string)
    | PrioridadEs(prioridad: string)
    | FechaDesde(desde: string)
    | FechaHasta(hasta: string)

  predicate Se(r: Reporte, c: Condicion)
  {
    match c
    case TipoEs(t) => r.tipo == t
    case EstadoEs(e) => r.estado == e
    case PrioridadEs(p) => r.prioridad == p
    case FechaDesde(d) => LexLe(d, r.fecha)
    case FechaHasta(h) => LexLe(r.fecha, h)
  }

  /** The `AND ...` conditions, appended in the order the query builds them. */
  function Condiciones(f: Filtro): seq<Condicion>
  {
    var c0: seq<Condicion> := [];
    var c1 := if f.tipo != "Todos" then c0 + [TipoEs(f.tipo)] else c0;
    var c2 := if f.estado != "Todos" then c1 + [EstadoEs(f.estado)] else c1;
    var c3 := if f.prioridad != "Todos" then c2 + [PrioridadEs(f.prioridad)] else c2;
    var c4 := if f.desde != "" then c3 + [FechaDesde(f.desde)] else c3;
    if f.hasta != "" then c4 + [FechaHasta(f.hasta)] else c4
  }

  /** What the filter means, field by field. */
  predicate Coincide(r: Reporte, f: Filtro)
  {
    && (f.tipo == "Todos" || r.tipo == f.tipo)
    && (f.estado == "Todos" || r.estado == f.estado)
    && (f.prioridad == "Todos" || r.prioridad == f.prioridad)
    && (f.desde == "" || LexLe(f.desde, r.fecha))
    && (f.hasta == "" || LexLe(r.fecha, f.hasta))
  }

  lemma CondicionesMeanFiltro(r: Reporte, f: Filtro)
    ensures AllHold(r, Condiciones(f), Se) <==> Coincide(r, f)
  {
    var c0: seq<Condicion> := [];
    var c1 := if f.tipo != "Todos" then c0 + [TipoEs(f.tipo)] else c0;
    var c2 := if f.estado != "Todos" then c1 + [EstadoEs(f.estado)] else c1;
    var c3 := if f.prioridad != "Todos" then c2 + [PrioridadEs(f.prioridad)] else c2;
    var c4 := if f.desde != "" then c3 + [FechaDesde(f.desde)] else c3;
    if f.tipo != "Todos" { AllHoldAppend(r, c0, TipoEs(f.tipo), Se); }
    if f.estado != "Todos" { AllHoldAppend(r, c1, EstadoEs(f.estado), Se); }
    if f.prioridad != "Todos" { AllHoldAppend(r, c2, PrioridadEs(f.prioridad), Se); }
    if f.desde != "" { AllHoldAppend(r, c3, FechaDesde(f.desde), Se); }
    if f.hasta != "" { AllHoldAppend(r, c4, FechaHasta(f.hasta), Se); }
  }

  /** The colour test behind the listing: "Alta" is shown red, "Media" orange. */
  datatype Realce = Rojo | Naranja | Ninguno

  function RealceDe(prioridad: string): (r: Realce)
    ensures r == Rojo <==> prioridad == "Alta"
    ensures r == Naranja <==> prioridad == "Media"
  {
    if prioridad == "Alta" then Rojo else if prioridad == "Media" then Naranja else Ninguno
  }

  /** One line of the reports view; equipo is the LEFT JOIN's equipment name (NULL when there is none). */
  datatype FilaReporte = FilaReporte(
    id: int, equipo: Option<string>, tipo: string, descripcion: string,
    fecha: string, estado: string, prioridad: string, realce: Realce)

  function FechaDeFila(x: FilaReporte): string { x.fecha }

  /** `FROM reportes r LEFT JOIN equipos e ON r.equipo_id = e.id`: every report yields a line. */
  function Fila(r: Reporte, eqs: seq<Equipo>): (x: FilaReporte)
    ensures x.id == r.id && x.fecha == r.fecha && x.estado == r.estado && x.prioridad == r.prioridad
    ensures x.equipo.Some? <==> r.equipoId.Some? && exists i :: 0 <= i < |eqs| && eqs[i].id == r.equipoId.value
  {
    var nombre :=
      match r.equipoId
      case None => None
      case Some(k) => (match FindBy(eqs, IdEquipo, k) case Some(e) => Some(e.nombre) case None => None);
    FilaReporte(r.id, nombre, r.tipo, r.descripcion, r.fecha, r.estado, r.prioridad, RealceDe(r.prioridad))
  }

  function Listada(r: Reporte, f: Filtro, eqs: seq<Equipo>): Option<FilaReporte>
  {
    if Coincide(r, f) then Some(Fila(r, eqs)) else None
  }

  function Seleccionada(r: Reporte, cs: seq<Condicion>, eqs: seq<Equipo>): Option<FilaReporte>
  {
    if AllHold(r, cs, Se) then Some(Fila(r, eqs)) else None
  }

  /** The result rows of the search, before `ORDER BY r.fecha DESC`. */
  function Listado(rs: seq<Reporte>, f: Filtro, eqs: seq<Equipo>): seq<FilaReporte>
  {
    Pick(rs, (r: Reporte) => Listada(r, f, eqs))
  }

  /** The query built from the conditions lists exactly what the filter means, one line per matching report. */
  lemma SeleccionEsListado(rs: seq<Reporte>, f: Filtro, cs: seq<Condicion>, eqs: seq<Equipo>)
    requires cs == Condiciones(f)
    ensures Pick(rs, (r: Reporte) => Seleccionada(r, cs, eqs)) == Listado(rs, f, eqs)
    ensures forall x :: x in Listado(rs, f, eqs) <==> exists i :: 0 <= i < |rs| && Coincide(rs[i], f) && x == Fila(rs[i], eqs)
  {
    forall i | 0 <= i < |rs| ensures Seleccionada(rs[i], cs, eqs) == Listada(rs[i], f, eqs) {
      CondicionesMeanFiltro(rs[i], f);
    }
    PickExt(rs, (r: Reporte) => Seleccionada(r, cs, eqs), (r: Reporte) => Listada(r, f, eqs));
    PickMembers(rs, (r: Reporte) => Listada(r, f, eqs));
  }
}
