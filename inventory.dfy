/** Spare-parts inventory: the below-minimum flag and the listing of `actualizar_inventario`. */
module Inventory {
  import opened Common
  import opened TextOrder
  import opened Schema
  import opened Query

  /** The red highlighting of the inventory view: fewer units in stock than the minimum. */
  predicate BajoMinimo(c: Componente)
  {
    c.cantidad < c.minimo
  }

  datatype Filtro = Filtro(tipo: string, ubicacion: string)

  datatype Condicion = TipoEs(tipo: string) | UbicacionEs(ubicacion: string)

  predicate Se(c: Componente, k: Condicion)
  {
    match k
    case TipoEs(t) => c.tipo == t
    case UbicacionEs(u) => c.ubicacion == u
  }

  function Condiciones(f: Filtro): seq<Condicion>
  {
    var c0: seq<Condicion> := [];
    var c1 := if f.tipo != "Todos" then c0 + [TipoEs(f.tipo)] else c0;
    if f.ubicacion != "Todos" then c1 + [UbicacionEs(f.ubicacion)] else c1
  }

  predicate Coincide(c: Componente, f: Filtro)
  {
    (f.tipo == "Todos" || c.tipo == f.tipo) && (f.ubicacion == "Todos" || c.ubicacion == f.ubicacion)
  }

  lemma CondicionesMeanFiltro(c: Componente, f: Filtro)
    ensures AllHold(c, Condiciones(f), Se) <==> Coincide(c, f)
  {
    var c0: seq<Condicion> := [];
    var c1 := if f.tipo != "Todos" then c0 + [TipoEs(f.tipo)] else c0;
    if f.tipo != "Todos" { AllHoldAppend(c, c0, TipoEs(f.tipo), Se); }
    if f.ubicacion != "Todos" { AllHoldAppend(c, c1, UbicacionEs(f.ubicacion), Se); }
  }

  /** One line of the inventory view, with its below-minimum flag. */
  datatype FilaComponente = FilaComponente(
    id: int, componente: string, tipo: string, cantidad: int, minimo: int,
    proveedor: string, ubicacion: string, fechaActualizacion: string, bajo: bool)

  function NombreDeFila(x: FilaComponente): string { x.componente }

  function Fila(c: Componente): (x: FilaComponente)
    ensures x.bajo <==> x.cantidad < x.minimo
  {
    FilaComponente(c.id, c.componente, c.tipo, c.cantidad, c.minimo, c.proveedor, c.ubicacion,
                   c.fechaActualizacion, BajoMinimo(c))
  }

  function Listada(c: Componente, f: Filtro): Option<FilaComponente>
  {
    if Coincide(c, f) then Some(Fila(c)) else None
  }

  function Seleccionada(c: Componente, cs: seq<Condicion>): Option<FilaComponente>
  {
    if AllHold(c, cs, Se) then Some(Fila(c)) else None
  }

  /** The result rows, before `ORDER BY componente`. */
  function Listado(cs: seq<Componente>, f: Filtro): seq<FilaComponente>
  {
    Pick(cs, (c: Componente) => Listada(c, f))
  }

  /** The query built from the conditions lists exactly what the filter means, one line per matching component. */
  lemma SeleccionEsListado(inv: seq<Componente>, f: Filtro, cs: seq<Condicion>)
    requires cs == Condiciones(f)
    ensures Pick(inv, (c: Componente) => Seleccionada(c, cs)) == Listado(inv, f)
    ensures forall x :: x in Listado(inv, f) <==> exists i :: 0 <= i < |inv| && Coincide(inv[i], f) && x == Fila(inv[i])
  {
    forall i | 0 <= i < |inv| ensures Seleccionada(inv[i], cs) == Listada(inv[i], f) {
      CondicionesMeanFiltro(inv[i], f);
    }
    PickExt(inv, (c: Componente) => Seleccionada(c, cs), (c: Componente) => Listada(c, f));
    PickMembers(inv, (c: Componente) => Listada(c, f));
  }
}
