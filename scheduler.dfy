/**
 * Reservation scheduler: the availability test of `guardar_reserva`, the
 * status change of `cancelar_reserva`, and the listing and "active"
 * highlighting of `actualizar_reservas`.
 */
module Scheduler {
  import opened Common
  import opened TextOrder
  import opened Schema
  import opened Query

  const Confirmada := "Confirmada"
  const Cancelada := "Cancelada"

  /**
   * A row the availability query counts against a booking of equipoId from
   * inicio to fin: same equipment, confirmed, and
   * `(inicio BETWEEN fecha_inicio AND fecha_fin) OR (fin BETWEEN fecha_inicio AND fecha_fin)`.
   */
  predicate Choca(r: Reserva, equipoId: int, inicio: string, fin: string)
  {
    && r.equipoId == equipoId
    && r.estado == Confirmada
    && (Between(inicio, r.fechaInicio, r.fechaFin) || Between(fin, r.fechaInicio, r.fechaFin))
  }

  /** The `COUNT(*)` of the availability query is positive. */
  predicate Ocupado(rs: seq<Reserva>, equipoId: int, inicio: string, fin: string)
  {
    exists i :: 0 <= i < |rs| && Choca(rs[i], equipoId, inicio, fin)
  }

  /** The row `guardar_reserva` inserts: confirmed, requested now. */
  function Solicitud(id: int, equipoId: int, usuarioId: int, inicio: string, fin: string, proposito: string, ahora: string): (r: Reserva)
    ensures r.id == id && r.equipoId == equipoId && r.usuarioId == usuarioId
    ensures r.fechaInicio == inicio && r.fechaFin == fin && r.proposito == proposito
    ensures r.estado == Confirmada && r.fechaSolicitud == ahora
  {
    Reserva(id, equipoId, usuarioId, inicio, fin, proposito, Confirmada, ahora)
  }

  /** `UPDATE reservas SET estado = 'Cancelada' WHERE id = ?` */
  function Cancelar(rs: seq<Reserva>, id: int): (r: seq<Reserva>)
    ensures |r| == |rs|
    ensures forall i :: 0 <= i < |rs| ==> r[i] == (if rs[i].id == id then rs[i].(estado := Cancelada) else rs[i])
  {
    Update(rs, (x: Reserva) => x.id == id, (x: Reserva) => x.(estado := Cancelada))
  }

  /** The green highlighting of `actualizar_reservas`: `fecha_inicio <= ahora <= fecha_fin` and confirmed. */
  predicate Activa(r: Reserva, ahora: string)
  {
    LexLe(r.fechaInicio, ahora) && LexLe(ahora, r.fechaFin) && r.estado == Confirmada
  }

  // ------------------------------------------------------------ properties

  /** A booking whose interval strictly contains a confirmed one has neither endpoint inside it, so it is accepted. */
  lemma ContainmentNotDetected(r: Reserva, inicio: string, fin: string)
    requires r.estado == Confirmada
    requires LexLt(inicio, r.fechaInicio) && LexLt(r.fechaFin, fin)
    ensures !Choca(r, r.equipoId, inicio, fin)
  {
    LexLtIffNotLe(inicio, r.fechaInicio);
    LexLtIffNotLe(r.fechaFin, fin);
  }

  /** BETWEEN is inclusive: a booking that starts when a confirmed one ends, or ends when it starts, is rejected. */
  lemma SharedEndpointConflicts(r: Reserva, inicio: string, fin: string)
    requires r.estado == Confirmada && LexLe(r.fechaInicio, r.fechaFin)
    requires inicio == r.fechaFin || fin == r.fechaInicio
    ensures Choca(r, r.equipoId, inicio, fin)
  {
    LexLeRefl(r.fechaFin);
    LexLeRefl(r.fechaInicio);
  }

  /** Nothing checks that a booking ends after it starts; a stored row with fin < inicio then blocks no booking at all. */
  lemma ReversedRowBlocksNothing(r: Reserva, equipoId: int, inicio: string, fin: string)
    requires LexLt(r.fechaFin, r.fechaInicio)
    ensures !Choca(r, equipoId, inicio, fin)
  {
    LexLtIffNotLe(r.fechaFin, r.fechaInicio);
    if Between(inicio, r.fechaInicio, r.fechaFin) {
      LexLeTrans(r.fechaInicio, inicio, r.fechaFin);
    }
    if Between(fin, r.fechaInicio, r.fechaFin) {
      LexLeTrans(r.fechaInicio, fin, r.fechaFin);
    }
  }

  /** A reservation active now makes the equipment unavailable for any booking that starts now. */
  lemma ActiveBlocksBookingNow(r: Reserva, ahora: string, fin: string)
    requires Activa(r, ahora)
    ensures Choca(r, r.equipoId, ahora, fin)
  {
  }

  /** Activity is an interval of time: active at t1 and t3 means active at every t2 between them. */
  lemma ActiveBetween(r: Reserva, t1: string, t2: string, t3: string)
    requires Activa(r, t1) && Activa(r, t3) && LexLe(t1, t2) && LexLe(t2, t3)
    ensures Activa(r, t2)
  {
    LexLeTrans(r.fechaInicio, t1, t2);
    LexLeTrans(t2, t3, r.fechaFin);
  }

  /** After the UPDATE the booking with that id is cancelled, so `cancelar_reserva` refuses it from then on. */
  lemma CancelledNotConfirmed(rs: seq<Reserva>, id: int)
    requires FindBy(rs, IdReserva, id).Some?
    ensures FindBy(Cancelar(rs, id), IdReserva, id).Some?
    ensures FindBy(Cancelar(rs, id), IdReserva, id).value.estado == Cancelada
  {
    var c := Cancelar(rs, id);
    var k :| 0 <= k < |rs| && rs[k] == FindBy(rs, IdReserva, id).value;
    assert IdReserva(c[k]) == id;
    var found := FindBy(c, IdReserva, id);
    assert found.Some? && IdReserva(found.value) == id;
    var i :| 0 <= i < |c| && c[i] == found.value;
    assert c[i].id == rs[i].id;
  }

  // ------------------------------------- the intended no-double-booking rule

  /** Two confirmed bookings of the same equipment whose closed intervals share an instant. */
  predicate Intersecan(a: Reserva, b: Reserva)
  {
    && a.equipoId == b.equipoId
    && a.estado == Confirmada && b.estado == Confirmada
    && LexLe(a.fechaInicio, b.fechaFin) && LexLe(b.fechaInicio, a.fechaFin)
  }

  /** No equipment is double-booked. */
  ghost predicate SinSolapes(rs: seq<Reserva>)
  {
    forall i, j :: 0 <= i < j < |rs| ==> !Intersecan(rs[i], rs[j])
  }

  /** Corrected availability test: reject whenever the closed intervals meet. */
  predicate OcupadoCorregido(rs: seq<Reserva>, x: Reserva)
  {
    exists i :: 0 <= i < |rs| && Intersecan(rs[i], x)
  }

  /** Cancelling only takes bookings out of the confirmed set, so it never creates an overlap. */
  lemma CancelKeepsNoOverlap(rs: seq<Reserva>, id: int)
    requires SinSolapes(rs)
    ensures SinSolapes(Cancelar(rs, id))
  {
    var c := Cancelar(rs, id);
    forall i, j | 0 <= i < j < |c| ensures !Intersecan(c[i], c[j]) {
      assert !Intersecan(rs[i], rs[j]);
    }
  }

  /** Deleting bookings never creates an overlap. */
  lemma {:induction false} NoOverlapWhere(rs: seq<Reserva>, keep: Reserva -> bool)
    requires SinSolapes(rs)
    ensures SinSolapes(Where(rs, keep))
    decreases |rs|
  {
    if rs != [] {
      var init, last := rs[..|rs| - 1], rs[|rs| - 1];
      assert rs == init + [last];
      WhereStep(init, last, keep);
      assert SinSolapes(init);
      NoOverlapWhere(init, keep);
      if keep(last) {
        var w := Where(init, keep);
        forall i, j | 0 <= i < j < |w + [last]| ensures !Intersecan((w + [last])[i], (w + [last])[j]) {
          if j == |w| {
            assert w[i] in w;
            var k :| 0 <= k < |init| && init[k] == w[i];
            assert rs[k] == w[i];
          }
        }
      }
    }
  }

  /** With the corrected test, accepting a booking never double-books. */
  lemma CorrectedBookingKeepsNoOverlap(rs: seq<Reserva>, x: Reserva)
    requires SinSolapes(rs) && !OcupadoCorregido(rs, x)
    ensures SinSolapes(rs + [x])
  {
    forall i, j | 0 <= i < j < |rs + [x]| ensures !Intersecan((rs + [x])[i], (rs + [x])[j]) {
      if j == |rs| {
        assert (rs + [x])[j] == x && (rs + [x])[i] == rs[i];
      }
    }
  }

  /** The corrected test rejects every well-formed booking the code as written rejects. */
  lemma CorrectedRejectsWhatCodeRejects(r: Reserva, x: Reserva)
    requires x.estado == Confirmada && LexLe(x.fechaInicio, x.fechaFin)
    requires Choca(r, x.equipoId, x.fechaInicio, x.fechaFin)
    ensures Intersecan(r, x)
  {
    if Between(x.fechaInicio, r.fechaInicio, r.fechaFin) {
      LexLeTrans(r.fechaInicio, x.fechaInicio, x.fechaFin);
    } else {
      LexLeTrans(x.fechaInicio, x.fechaFin, r.fechaFin);
    }
  }

  /**
   * As written, the availability test lets a booking that contains a
   * confirmed one through, and the table then holds two intersecting
   * confirmed bookings of the same equipment.
   */
  lemma CodeAdmitsDoubleBooking(r: Reserva, x: Reserva)
    requires r.estado == Confirmada && x.estado == Confirmada && r.equipoId == x.equipoId
    requires LexLt(x.fechaInicio, r.fechaInicio) && LexLe(r.fechaInicio, r.fechaFin) && LexLt(r.fechaFin, x.fechaFin)
    ensures !Ocupado([r], x.equipoId, x.fechaInicio, x.fechaFin)
    ensures SinSolapes([r]) && !SinSolapes([r] + [x])
  {
    ContainmentNotDetected(r, x.fechaInicio, x.fechaFin);
    LexLeTrans(x.fechaInicio, r.fechaInicio, r.fechaFin);
    LexLeTrans(r.fechaInicio, r.fechaFin, x.fechaFin);
    assert Intersecan(([r] + [x])[0], ([r] + [x])[1]);
  }

  /** A confirmed booking of equipment 7 from 10:00 to 12:00 ... */
  const Reservada := Reserva(1, 7, 2, "2024-03-01 10:00", "2024-03-01 12:00", "", Confirmada, "2024-02-20 08:00:00")
  /** ... and a request for the same equipment from 09:00 to 13:00. */
  const Solicitada := Reserva(2, 7, 3, "2024-03-01 09:00", "2024-03-01 13:00", "", Confirmada, "2024-02-21 08:00:00")

  // The three comparisons the example needs, one per lemma to keep each unrolling small.
  lemma SolicitadaStartsFirst()
    ensures LexLt(Solicitada.fechaInicio, Reservada.fechaInicio)
  {
    FirstDifference(Solicitada.fechaInicio, Reservada.fechaInicio, 11);
  }

  lemma ReservadaWellFormed()
    ensures LexLt(Reservada.fechaInicio, Reservada.fechaFin)
  {
    FirstDifference(Reservada.fechaInicio, Reservada.fechaFin, 12);
  }

  lemma SolicitadaEndsLast()
    ensures LexLt(Reservada.fechaFin, Solicitada.fechaFin)
  {
    FirstDifference(Reservada.fechaFin, Solicitada.fechaFin, 12);
  }

  /** The request is accepted, and the table then holds two overlapping confirmed bookings. */
  lemma CodeAdmitsDoubleBookingExample()
    ensures !Ocupado([Reservada], 7, Solicitada.fechaInicio, Solicitada.fechaFin)
    ensures !SinSolapes([Reservada] + [Solicitada])
  {
    SolicitadaStartsFirst();
    ReservadaWellFormed();
    SolicitadaEndsLast();
    CodeAdmitsDoubleBooking(Reservada, Solicitada);
  }

  // ------------------------------------------------ listing (actualizar_reservas)

  /** The filter widgets: "Todos" and the empty entry mean no restriction. */
  datatype Filtro = Filtro(estado: string, desde: string, hasta: string)

  datatype Condicion = EstadoEs(estado: string) | InicioDesde(desde: string) | FinHasta(hasta: string)

  predicate Se(r: Reserva, c: Condicion)
  {
    match c
    case EstadoEs(e) => r.estado == e
    case InicioDesde(d) => LexLe(d, r.fechaInicio)
    case FinHasta(h) => LexLe(r.fechaFin, h)
  }

  /** The `AND ...` conditions appended one by one to the query. */
  function Condiciones(f: Filtro): seq<Condicion>
  {
    var c0: seq<Condicion> := [];
    var c1 := if f.estado != "Todos" then c0 + [EstadoEs(f.estado)] else c0;
    var c2 := if f.desde != "" then c1 + [InicioDesde(f.desde)] else c1;
    if f.hasta != "" then c2 + [FinHasta(f.hasta)] else c2
  }

  /** What the filter means, field by field. */
  predicate Coincide(r: Reserva, f: Filtro)
  {
    && (f.estado == "Todos" || r.estado == f.estado)
    && (f.desde == "" || LexLe(f.desde, r.fechaInicio))
    && (f.hasta == "" || LexLe(r.fechaFin, f.hasta))
  }

  lemma CondicionesMeanFiltro(r: Reserva, f: Filtro)
    ensures AllHold(r, Condiciones(f), Se) <==> Coincide(r, f)
  {
    var c0: seq<Condicion> := [];
    var c1 := if f.estado != "Todos" then c0 + [EstadoEs(f.estado)] else c0;
    var c2 := if f.desde != "" then c1 + [InicioDesde(f.desde)] else c1;
    if f.estado != "Todos" { AllHoldAppend(r, c0, EstadoEs(f.estado), Se); }
    if f.desde != "" { AllHoldAppend(r, c1, InicioDesde(f.desde), Se); }
    if f.hasta != "" { AllHoldAppend(r, c2, FinHasta(f.hasta), Se); }
  }

  /** One line of the reservations view, with its "active" highlighting. */
  datatype FilaReserva = FilaReserva(
    id: int, equipo: string, usuario: string, fechaInicio: string, fechaFin: string,
    proposito: string, estado: string, activa: bool)

  function InicioDeFila(x: FilaReserva): string { x.fechaInicio }

  /** `JOIN equipos ... JOIN usuarios ...`: a reservation whose equipment or user row is gone is not listed. */
  function Fila(r: Reserva, eqs: seq<Equipo>, us: seq<Usuario>, ahora: string): Option<FilaReserva>
  {
    match (FindBy(eqs, IdEquipo, r.equipoId), FindBy(us, IdUsuario, r.usuarioId))
    case (Some(e), Some(u)) =>
      Some(FilaReserva(r.id, e.nombre, u.nombre, r.fechaInicio, r.fechaFin, r.proposito, r.estado, Activa(r, ahora)))
    case _ => None
  }

  /** The listing as specified by the filter's meaning. */
  function Listada(r: Reserva, f: Filtro, eqs: seq<Equipo>, us: seq<Usuario>, ahora: string): Option<FilaReserva>
  {
    if Coincide(r, f) then Fila(r, eqs, us, ahora) else None
  }

  /** The listing as the query built from the conditions selects it. */
  function Seleccionada(r: Reserva, cs: seq<Condicion>, eqs: seq<Equipo>, us: seq<Usuario>, ahora: string): Option<FilaReserva>
  {
    if AllHold(r, cs, Se) then Fila(r, eqs, us, ahora) else None
  }

  /** The rows of the listing, before `ORDER BY r.fecha_inicio`. */
  function Listado(rs: seq<Reserva>, f: Filtro, eqs: seq<Equipo>, us: seq<Usuario>, ahora: string): seq<FilaReserva>
  {
    Pick(rs, (r: Reserva) => Listada(r, f, eqs, us, ahora))
  }

  /** The query built from the conditions lists exactly what the filter means, joined rows only. */
  lemma SeleccionEsListado(rs: seq<Reserva>, f: Filtro, cs: seq<Condicion>, eqs: seq<Equipo>, us: seq<Usuario>, ahora: string)
    requires cs == Condiciones(f)
    ensures Pick(rs, (r: Reserva) => Seleccionada(r, cs, eqs, us, ahora)) == Listado(rs, f, eqs, us, ahora)
    ensures forall x :: x in Listado(rs, f, eqs, us, ahora) <==>
      exists i :: 0 <= i < |rs| && Coincide(rs[i], f) && Fila(rs[i], eqs, us, ahora) == Some(x)
  {
    forall i | 0 <= i < |rs| ensures Seleccionada(rs[i], cs, eqs, us, ahora) == Listada(rs[i], f, eqs, us, ahora) {
      CondicionesMeanFiltro(rs[i], f);
    }
    PickExt(rs, (r: Reserva) => Seleccionada(r, cs, eqs, us, ahora), (r: Reserva) => Listada(r, f, eqs, us, ahora));
    PickMembers(rs, (r: Reserva) => Listada(r, f, eqs, us, ahora));
  }
}
