/** A course section (`Comision`): its identity (course, number, term), its
    weekly schedule and its overflow-seat counter. */
module Comisiones {
  import opened Resultados
  import opened Errores
  import opened Catalogo

  datatype Dia = LUNES | MARTES | MIERCOLES | JUEVES | VIERNES | SABADO

  /** A weekly schedule block; times of day in minutes. */
  datatype Horario = Horario(dia: Dia, inicio: int, fin: int)

  datatype Modalidad = PRESENCIAL | VIRTUAL | SEMIPRESENCIAL

  /** A section. `materia` is the course code and `cuatrimestre` the term the
      section belongs to; `sobrecuposOcupados` is the only mutable counter. */
  datatype Comision = Comision(
    id: nat,
    materia: string,
    numero: int,
    cuatrimestre: Periodo,
    horarios: seq<Horario>,
    cuposTotales: int,
    sobrecuposTotales: int,
    modalidad: Modalidad,
    sobrecuposOcupados: int)

  /** The counter invariant: never negative, never above the overflow total. */
  predicate CuentaValida(c: Comision)
  {
    0 <= c.sobrecuposOcupados <= c.sobrecuposTotales
  }

  /** A freshly built section: no overflow seat is taken yet. */
  function NuevaComision(
    id: nat, materia: string, numero: int, cuatrimestre: Periodo, horarios: seq<Horario>,
    cuposTotales: int, sobrecuposTotales: int, modalidad: Modalidad): (c: Comision)
    ensures SobrecuposDisponibles(c) == sobrecuposTotales
    ensures sobrecuposTotales >= 0 ==> CuentaValida(c)
    ensures c.id == id && c.materia == materia && c.numero == numero && c.cuatrimestre == cuatrimestre
    ensures c.horarios == horarios && c.cuposTotales == cuposTotales && c.sobrecuposTotales == sobrecuposTotales
    ensures c.modalidad == modalidad
  {
    Comision(id, materia, numero, cuatrimestre, horarios, cuposTotales, sobrecuposTotales, modalidad, 0)
  }

  function SobrecuposDisponibles(c: Comision): (r: int)
    ensures CuentaValida(c) ==> 0 <= r <= c.sobrecuposTotales
    ensures CuentaValida(c) ==> (r == 0 <==> c.sobrecuposOcupados == c.sobrecuposTotales)
    ensures CuentaValida(c) ==> (r == c.sobrecuposTotales <==> c.sobrecuposOcupados == 0)
  {
    c.sobrecuposTotales - c.sobrecuposOcupados
  }

  /** Takes one overflow seat; fails, leaving the section as it was, when none is free. */
  function AsignarSobrecupo(c: Comision): (r: Result<Comision, Error>)
    ensures r.Ok? <==> SobrecuposDisponibles(c) > 0
    ensures r.Err? ==> r.error == SinSobrecuposDisponibles
    ensures r.Ok? ==> r.value.sobrecuposOcupados == c.sobrecuposOcupados + 1
    ensures r.Ok? ==> SobrecuposDisponibles(r.value) == SobrecuposDisponibles(c) - 1
    ensures r.Ok? ==> EsLaComision(r.value, c) && r.value.horarios == c.horarios && r.value.id == c.id && r.value.modalidad == c.modalidad
    ensures r.Ok? ==> r.value.sobrecuposTotales == c.sobrecuposTotales && r.value.cuposTotales == c.cuposTotales
    ensures CuentaValida(c) && r.Ok? ==> CuentaValida(r.value)
  {
    if SobrecuposDisponibles(c) > 0 then Ok(c.(sobrecuposOcupados := c.sobrecuposOcupados + 1))
    else Err(SinSobrecuposDisponibles)
  }

  /** Gives one overflow seat back; fails, leaving the section as it was, when none is taken. */
  function QuitarSobrecupo(c: Comision): (r: Result<Comision, Error>)
    ensures r.Ok? <==> c.sobrecuposOcupados > 0
    ensures r.Err? ==> r.error == SinSobrecuposOcupados
    ensures r.Ok? ==> r.value.sobrecuposOcupados == c.sobrecuposOcupados - 1
    ensures r.Ok? ==> SobrecuposDisponibles(r.value) == SobrecuposDisponibles(c) + 1
    ensures r.Ok? ==> EsLaComision(r.value, c) && r.value.horarios == c.horarios && r.value.id == c.id && r.value.modalidad == c.modalidad
    ensures r.Ok? ==> r.value.sobrecuposTotales == c.sobrecuposTotales && r.value.cuposTotales == c.cuposTotales
    ensures CuentaValida(c) && r.Ok? ==> CuentaValida(r.value)
  {
    if c.sobrecuposOcupados > 0 then Ok(c.(sobrecuposOcupados := c.sobrecuposOcupados - 1))
    else Err(SinSobrecuposOcupados)
  }

  /** Taking a seat and giving it back restores the section exactly. */
  lemma AsignarLuegoQuitar(c: Comision)
    requires CuentaValida(c) && SobrecuposDisponibles(c) > 0
    ensures AsignarSobrecupo(c).Ok?
    ensures QuitarSobrecupo(AsignarSobrecupo(c).value) == Ok(c)
    ensures SobrecuposDisponibles(QuitarSobrecupo(AsignarSobrecupo(c).value).value) == SobrecuposDisponibles(c)
  {
    var tomada := AsignarSobrecupo(c).value;
    assert tomada.(sobrecuposOcupados := c.sobrecuposOcupados) == c;
  }

  /** Giving a seat back and taking it again restores the section exactly. */
  lemma QuitarLuegoAsignar(c: Comision)
    requires CuentaValida(c) && c.sobrecuposOcupados > 0
    ensures QuitarSobrecupo(c).Ok?
    ensures AsignarSobrecupo(QuitarSobrecupo(c).value) == Ok(c)
  {
  }

  /** With one free seat, of two allocations in a row exactly the first succeeds. */
  lemma UltimoSobrecupo(c: Comision)
    requires SobrecuposDisponibles(c) == 1
    ensures AsignarSobrecupo(c).Ok?
    ensures AsignarSobrecupo(AsignarSobrecupo(c).value) == Err(SinSobrecuposDisponibles)
  {
  }

  /** From a valid counter, any run of allocations and releases keeps it valid
      and never takes more seats than the overflow total. */
  function Aplicar(c: Comision, pasos: seq<bool>): (r: Result<Comision, Error>)
    requires CuentaValida(c)
    ensures r.Ok? ==> CuentaValida(r.value) && r.value.sobrecuposTotales == c.sobrecuposTotales
    ensures r.Ok? ==> EsLaComision(r.value, c)
    decreases |pasos|
  {
    if |pasos| == 0 then Ok(c)
    else
      var paso := if pasos[0] then AsignarSobrecupo(c) else QuitarSobrecupo(c);
      match paso
      case Err(e) => Err(e)
      case Ok(c') =>
        var r := Aplicar(c', pasos[1..]);
        EsLaComisionEsEquivalencia(c, c', if r.Ok? then r.value else c');
        r
  }

  /** Replaces the schedule wholesale; identity, seats and counter stay. */
  function ModificarHorarios(c: Comision, nuevosHorarios: seq<Horario>): (r: Comision)
    ensures r.horarios == nuevosHorarios
    ensures EsLaComision(r, c) && r.id == c.id
    ensures r.cuposTotales == c.cuposTotales && r.sobrecuposTotales == c.sobrecuposTotales
    ensures r.sobrecuposOcupados == c.sobrecuposOcupados && r.modalidad == c.modalidad
  {
    c.(horarios := nuevosHorarios)
  }

  /** Only the last schedule replacement counts. */
  lemma UltimoHorarioGana(c: Comision, a: seq<Horario>, b: seq<Horario>)
    ensures ModificarHorarios(ModificarHorarios(c, a), b) == ModificarHorarios(c, b)
    ensures ModificarHorarios(c, c.horarios) == c
  {
  }

  /** Materia.esLaMateria: the same course code. */
  predicate EsLaMateria(a: string, b: string) { a == b }

  /** Cuatrimestre.esElCuatrimestre: the same year and half. */
  predicate EsElCuatrimestre(a: Periodo, b: Periodo) { a.anio == b.anio && a.semestre == b.semestre }

  predicate CoincideEn(c: Comision, materia: string, numero: int)
  {
    EsLaMateria(c.materia, materia) && c.numero == numero
  }

  /** Two sections are the same when term, course and number coincide. */
  predicate EsLaComision(c: Comision, otra: Comision)
    ensures EsLaComision(c, otra) <==>
      c.cuatrimestre == otra.cuatrimestre && c.materia == otra.materia && c.numero == otra.numero
  {
    EsElCuatrimestre(c.cuatrimestre, otra.cuatrimestre) && CoincideEn(c, otra.materia, otra.numero)
  }

  lemma EsLaComisionEsEquivalencia(a: Comision, b: Comision, c: Comision)
    ensures EsLaComision(a, a)
    ensures EsLaComision(a, b) ==> EsLaComision(b, a)
    ensures EsLaComision(a, b) && EsLaComision(b, c) ==> EsLaComision(a, c)
  {
  }

  /** Some block of `c`'s schedule overlaps `otra`; the block-level test
      (Horario.tieneSuperposicionCon) is a parameter. */
  function TieneSuperposicionHoraria(c: Comision, otra: Comision, seSuperpone: (Horario, Comision) -> bool): (r: bool)
    ensures r <==> exists i :: 0 <= i < |c.horarios| && seSuperpone(c.horarios[i], otra)
    ensures |c.horarios| == 0 ==> !r
  {
    AlgunoSeSuperpone(c.horarios, otra, seSuperpone)
  }

  function AlgunoSeSuperpone(hs: seq<Horario>, otra: Comision, seSuperpone: (Horario, Comision) -> bool): (r: bool)
    ensures r <==> exists i :: 0 <= i < |hs| && seSuperpone(hs[i], otra)
  {
    if |hs| == 0 then false
    else if seSuperpone(hs[0], otra) then true
    else
      var r := AlgunoSeSuperpone(hs[1..], otra, seSuperpone);
      assert forall i :: 1 <= i < |hs| ==> hs[i] == hs[1..][i - 1];
      r
  }

  /** A section whose schedule was cleared overlaps nothing. */
  lemma SinHorariosNoSeSuperpone(c: Comision, otra: Comision, seSuperpone: (Horario, Comision) -> bool)
    ensures !TieneSuperposicionHoraria(ModificarHorarios(c, []), otra, seSuperpone)
  {
  }
}
