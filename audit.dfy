/**
 * The access history (`registrar_acceso`): the row each handler appends and
 * the action texts the handlers write into it.
 */
module Audit {
  import opened Common
  import opened Schema

  /** Every entry is recorded for user 1, the only actor of the application. */
  const Actor := 1

  /** The row an INSERT of `registrar_acceso(accion, detalles)` writes with the given id and timestamp. */
  function Entrada(id: int, accion: string, detalles: Option<string>, ahora: string): (a: Acceso)
    ensures a.id == id && a.usuarioId == Actor && a.fechaHora == ahora && a.accion == accion
    ensures detalles.None? ==> a.detalles == accion
    ensures detalles.Some? ==> a.detalles == detalles.value
  {
    Acceso(id, Actor, ahora, accion, detalles.GetOr(accion))
  }

  /**
   * What `registrar_acceso(accion)` leaves in the database: one new entry
   * when the INSERT goes through, nothing when it fails (the error is only
   * printed). No other table is touched.
   */
  function Bitacora(db: Db, accion: string, ahora: string, aceptado: bool): Db
  {
    if aceptado then
      db.(accesos := db.accesos + [Entrada(db.seqs.accesos, accion, None, ahora)],
          seqs := db.seqs.(accesos := db.seqs.accesos + 1))
    else db
  }

  lemma BitacoraSoloAnade(db: Db, accion: string, ahora: string, aceptado: bool)
    ensures var r := Bitacora(db, accion, ahora, aceptado);
      && Extiende(db.accesos, r.accesos)
      && |r.accesos| == |db.accesos| + (if aceptado then 1 else 0)
      && (aceptado ==> r.accesos[|db.accesos|] == Entrada(db.seqs.accesos, accion, None, ahora))
      && (aceptado ==> r.seqs == db.seqs.(accesos := db.seqs.accesos + 1))
      && (!aceptado ==> r == db)
      && r.(accesos := db.accesos, seqs := db.seqs) == db
  {
  }

  /** Entries are never rewritten: a history is only ever extended. */
  ghost predicate Extiende(antes: seq<Acceso>, despues: seq<Acceso>)
  {
    |antes| <= |despues| && despues[..|antes|] == antes
  }

  lemma ExtiendeTrans(a: seq<Acceso>, b: seq<Acceso>, c: seq<Acceso>)
    requires Extiende(a, b) && Extiende(b, c)
    ensures Extiende(a, c)
  {
    assert c[..|a|] == c[..|b|][..|a|];
  }

  // The action texts, one per handler.
  function CreoReporte(tipo: string, prioridad: string): string
  { "Creó reporte de " + tipo + " (Prioridad: " + prioridad + ")" }

  function CambioEstadoReporte(id: int, estado: string): string
  { "Cambió estado de reporte " + IntText(id) + " a " + estado }

  function ResolvioReporte(id: int): string
  { "Resolvió reporte " + IntText(id) }

  function AgregoComponente(componente: string): string
  { "Agregó componente al inventario: " + componente }

  function ActualizoComponente(componente: string): string
  { "Actualizó componente en inventario: " + componente }

  function EliminoComponente(componente: string): string
  { "Eliminó componente del inventario: " + componente }

  function AgregoEquipo(nombre: string): string
  { "Agregó nuevo equipo: " + nombre }

  function ActualizoEquipo(nombre: string): string
  { "Actualizó equipo: " + nombre }

  function EliminoEquipo(nombre: string): string
  { "Eliminó equipo: " + nombre }

  function CreoReserva(equipoId: int): string
  { "Creó reserva para equipo ID: " + IntText(equipoId) }

  function CanceloReserva(id: int): string
  { "Canceló reserva ID: " + IntText(id) }

  function ProgramoMantenimiento(equipoId: int): string
  { "Programó mantenimiento para equipo ID: " + IntText(equipoId) }

  function RegistroMantenimiento(id: int): string
  { "Registró mantenimiento ID: " + IntText(id) }

  function AgregoUsuario(usuario: string): string
  { "Agregó nuevo usuario: " + usuario }

  function ActualizoUsuario(id: int): string
  { "Actualizó usuario ID: " + IntText(id) }

  function EliminoUsuario(nombre: string): string
  { "Eliminó usuario: " + nombre }

  /** The id at the end of a "... ID: n" or "... reporte n" message. */
  function IdAlFinal(prefijo: string, msg: string): int
  {
    if |prefijo| <= |msg| then ParseInt(msg[|prefijo|..]) else 0
  }

  /** The record an id-carrying entry speaks of can be read back from its text. */
  lemma MessagesNameTheirRecord(id: int)
    ensures IdAlFinal("Canceló reserva ID: ", CanceloReserva(id)) == id
    ensures IdAlFinal("Registró mantenimiento ID: ", RegistroMantenimiento(id)) == id
    ensures IdAlFinal("Resolvió reporte ", ResolvioReporte(id)) == id
    ensures IdAlFinal("Actualizó usuario ID: ", ActualizoUsuario(id)) == id
    ensures IdAlFinal("Creó reserva para equipo ID: ", CreoReserva(id)) == id
    ensures IdAlFinal("Programó mantenimiento para equipo ID: ", ProgramoMantenimiento(id)) == id
  {
    ParseIntText(id);
    SuffixAfter("Canceló reserva ID: ", IntText(id));
    SuffixAfter("Registró mantenimiento ID: ", IntText(id));
    SuffixAfter("Resolvió reporte ", IntText(id));
    SuffixAfter("Actualizó usuario ID: ", IntText(id));
    SuffixAfter("Creó reserva para equipo ID: ", IntText(id));
    SuffixAfter("Programó mantenimiento para equipo ID: ", IntText(id));
  }

  lemma SuffixAfter(p: string, s: string)
    ensures (p + s)[|p|..] == s
  {
  }

  /** Two different reports' status changes leave different texts. */
  lemma StatusMessagesDistinct(a: int, b: int, e: string)
    requires a != b
    ensures CambioEstadoReporte(a, e) != CambioEstadoReporte(b, e)
  {
    var p := "Cambió estado de reporte ";
    if CambioEstadoReporte(a, e) == CambioEstadoReporte(b, e) {
      var ta, tb := IntText(a), IntText(b);
      assert (p + ta + " a " + e) == (p + tb + " a " + e);
      assert ta + " a " + e == tb + " a " + e by {
        assert (p + ta + " a " + e)[|p|..] == ta + " a " + e;
        assert (p + tb + " a " + e)[|p|..] == tb + " a " + e;
      }
      assert ta + " a " == tb + " a " by {
        assert (ta + " a " + e)[..|ta| + 3] == ta + " a ";
        assert (tb + " a " + e)[..|tb| + 3] == tb + " a ";
      }
      assert ta == tb by {
        assert (ta + " a ")[..|ta|] == ta;
        assert (tb + " a ")[..|tb|] == tb;
      }
      IntTextInjective(a, b);
    }
  }
}
