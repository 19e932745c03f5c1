/** The pending-request query of the request repository: for one course
    code, each pending request on a section of that course, paired with the
    form that holds it. */
module SolicitudRepositorio {
  import opened Comisiones
  import opened Inscripciones

  /** The request's section is a section of course `codigo` (the join on the section table). */
  predicate DeLaMateria(s: SolicitudSobrecupo, codigo: string, comisiones: seq<Comision>)
  {
    exists c :: c in comisiones && c.id == s.comision && c.materia == codigo
  }

  /** The request is selected by the WHERE clause. */
  predicate Seleccionada(s: SolicitudSobrecupo, codigo: string, comisiones: seq<Comision>)
  {
    s.estado == PENDIENTE && DeLaMateria(s, codigo, comisiones)
  }

  /** The rows of one request: one per form that holds it (the join table). */
  function FilasDe(s: SolicitudSobrecupo, formularios: seq<Formulario>): (r: seq<(nat, nat)>)
    ensures forall p :: p in r ==> p.0 == s.id && exists f :: f in formularios && f.id == p.1 && s.id in f.solicitudes
    ensures forall f :: f in formularios && s.id in f.solicitudes ==> (s.id, f.id) in r
    ensures |r| <= |formularios|
  {
    if |formularios| == 0 then []
    else
      var resto := FilasDe(s, formularios[1..]);
      assert forall f :: f in formularios <==> f == formularios[0] || f in formularios[1..];
      if s.id in formularios[0].solicitudes then [(s.id, formularios[0].id)] + resto else resto
  }

  /** findByMateria(codigo): pairs (request id, form id). */
  function PorMateria(codigo: string, solicitudes: seq<SolicitudSobrecupo>, comisiones: seq<Comision>, formularios: seq<Formulario>): (r: seq<(nat, nat)>)
    ensures forall p :: p in r ==> exists s :: s in solicitudes && s.id == p.0 && Seleccionada(s, codigo, comisiones)
    ensures forall p :: p in r ==> exists f :: f in formularios && f.id == p.1 && p.0 in f.solicitudes
    ensures forall s, f :: s in solicitudes && f in formularios && Seleccionada(s, codigo, comisiones) && s.id in f.solicitudes ==>
      (s.id, f.id) in r
  {
    if |solicitudes| == 0 then []
    else
      var s := solicitudes[0];
      var resto := PorMateria(codigo, solicitudes[1..], comisiones, formularios);
      assert forall x :: x in solicitudes <==> x == s || x in solicitudes[1..];
      if Seleccionada(s, codigo, comisiones) then FilasDe(s, formularios) + resto else resto
  }

  /** A request that no form holds is never reported, whatever its state. */
  lemma SinFormularioNoAparece(codigo: string, solicitudes: seq<SolicitudSobrecupo>, comisiones: seq<Comision>, formularios: seq<Formulario>, id: nat)
    requires forall f :: f in formularios ==> id !in f.solicitudes
    ensures forall p :: p in PorMateria(codigo, solicitudes, comisiones, formularios) ==> p.0 != id
  {
  }

  /** With request ids unique, a request that is not pending, or whose
      section belongs to another course, is never reported. */
  lemma NoSeleccionadaNoAparece(codigo: string, solicitudes: seq<SolicitudSobrecupo>, comisiones: seq<Comision>, formularios: seq<Formulario>, s: SolicitudSobrecupo)
    requires s in solicitudes && !Seleccionada(s, codigo, comisiones)
    requires forall a, b :: a in solicitudes && b in solicitudes && a.id == b.id ==> a == b
    ensures forall p :: p in PorMateria(codigo, solicitudes, comisiones, formularios) ==> p.0 != s.id
  {
  }
}
