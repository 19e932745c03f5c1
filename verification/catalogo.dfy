/** The catalogue the services work on: courses (`Materia`), their programs
    (`Carrera`) and the academic terms (`Cuatrimestre`), together with the
    look-ups the course repository offers. The course table is a sequence of
    rows in table order; a look-up returning one entity yields the first row
    that matches. */
module Catalogo {
  import opened Resultados
  import opened Texto

  datatype Carrera = TPI | LICENCIATURA | SIMULTANEIDAD

  /** A course; its prerequisites are held by course code. */
  datatype Materia = Materia(codigo: string, nombre: string, correlativas: seq<string>, carrera: Carrera)

  datatype Semestre = S1 | S2

  /** The identity of a term: year and half. */
  datatype Periodo = Periodo(anio: int, semestre: Semestre)

  /** A term with its enrolment window (timestamps as integers). */
  datatype Cuatrimestre = Cuatrimestre(anio: int, semestre: Semestre, inicioInscripciones: int, finInscripciones: int)
  {
    function Clave(): Periodo { Periodo(anio, semestre) }
  }

  function Codigos(ms: seq<Materia>): (r: seq<string>)
    ensures |r| == |ms|
    ensures forall i :: 0 <= i < |ms| ==> r[i] == ms[i].codigo
  {
    seq(|ms|, i requires 0 <= i < |ms| => ms[i].codigo)
  }

  predicate ExisteCodigo(materias: seq<Materia>, codigo: string)
  {
    exists i :: 0 <= i < |materias| && materias[i].codigo == codigo
  }

  /** No two rows share a code (the table's primary key). */
  predicate CodigosUnicos(materias: seq<Materia>)
  {
    forall i, j :: 0 <= i < j < |materias| ==> materias[i].codigo != materias[j].codigo
  }

  /** A course named `nombre` with code `codigo` would collide with `m`. */
  predicate Colisiona(m: Materia, nombre: string, codigo: string)
  {
    IgualesIgnorandoCaso(m.nombre, nombre) || IgualesIgnorandoCaso(m.codigo, codigo)
  }

  /** No two rows collide, by name or by code, ignoring case: the rule course
      creation enforces. */
  predicate SinColisiones(materias: seq<Materia>)
  {
    forall i, j :: 0 <= i < j < |materias| ==> !Colisiona(materias[i], materias[j].nombre, materias[j].codigo)
  }

  /** Every prerequisite of every course names a course of the table. */
  predicate CorrelativasExistentes(materias: seq<Materia>)
  {
    forall i, k :: 0 <= i < |materias| && 0 <= k < |materias[i].correlativas| ==>
      ExisteCodigo(materias, materias[i].correlativas[k])
  }

  lemma CodigoDistintoDelPrimero(materias: seq<Materia>, m: Materia)
    requires CodigosUnicos(materias)
    requires |materias| > 0 && m in materias[1..]
    ensures m.codigo != materias[0].codigo
  {
    var k :| 0 <= k < |materias[1..]| && materias[1..][k] == m;
    assert materias[k + 1] == m;
  }

  /** Appending a course that collides with no row keeps the table free of
      collisions. */
  lemma AgregarSinColisiones(materias: seq<Materia>, nueva: Materia)
    requires SinColisiones(materias)
    requires forall i :: 0 <= i < |materias| ==> !Colisiona(materias[i], nueva.nombre, nueva.codigo)
    ensures SinColisiones(materias + [nueva])
  {
    var ms := materias + [nueva];
    forall i, j | 0 <= i < j < |ms| ensures !Colisiona(ms[i], ms[j].nombre, ms[j].codigo) {
      assert ms[i] == materias[i];
      if j < |materias| {
        assert ms[j] == materias[j];
      }
    }
  }

  /** Appending a course whose prerequisites all exist keeps every
      prerequisite pointing into the table. */
  lemma AgregarCorrelativasExistentes(materias: seq<Materia>, nueva: Materia)
    requires CorrelativasExistentes(materias)
    requires forall k :: k in nueva.correlativas ==> ExisteCodigo(materias, k)
    ensures CorrelativasExistentes(materias + [nueva])
  {
    var ms := materias + [nueva];
    forall i, k | 0 <= i < |ms| && 0 <= k < |ms[i].correlativas|
      ensures ExisteCodigo(ms, ms[i].correlativas[k])
    {
      var x := ms[i].correlativas[k];
      if i < |materias| {
        assert ms[i] == materias[i];
      } else {
        assert x in nueva.correlativas;
      }
      var j :| 0 <= j < |materias| && materias[j].codigo == x;
      assert ms[j] == materias[j];
    }
  }

  /** findMateriaByCodigo / findById. */
  function BuscarPorCodigo(materias: seq<Materia>, codigo: string): (r: Option<Materia>)
    ensures r.Some? <==> ExisteCodigo(materias, codigo)
    ensures r.Some? ==> r.value in materias && r.value.codigo == codigo
  {
    match Primero(materias, (m: Materia) => m.codigo == codigo)
    case None => None
    case Some(i) => Some(materias[i])
  }

  /** findByNombreIgnoringCase. */
  /** Position of the first course whose name equals `nombre` ignoring case. */
  function IndicePorNombre(materias: seq<Materia>, nombre: string): (r: Option<nat>)
    ensures r.Some? <==> exists i :: 0 <= i < |materias| && IgualesIgnorandoCaso(materias[i].nombre, nombre)
    ensures r.Some? ==> r.value < |materias| && IgualesIgnorandoCaso(materias[r.value].nombre, nombre)
    ensures r.Some? ==> forall j :: 0 <= j < r.value ==> !IgualesIgnorandoCaso(materias[j].nombre, nombre)
  {
    Primero(materias, (m: Materia) => IgualesIgnorandoCaso(m.nombre, nombre))
  }

  function BuscarPorNombre(materias: seq<Materia>, nombre: string): (r: Option<Materia>)
    ensures r.Some? <==> exists i :: 0 <= i < |materias| && IgualesIgnorandoCaso(materias[i].nombre, nombre)
    ensures r.Some? ==> r.value in materias && IgualesIgnorandoCaso(r.value.nombre, nombre)
  {
    match IndicePorNombre(materias, nombre)
    case None => None
    case Some(i) => Some(materias[i])
  }

  /** The course found by name is the first one with that name. */
  lemma BuscarPorNombreEsLaPrimera(materias: seq<Materia>, nombre: string)
    requires BuscarPorNombre(materias, nombre).Some?
    ensures IndicePorNombre(materias, nombre).Some?
    ensures BuscarPorNombre(materias, nombre).value == materias[IndicePorNombre(materias, nombre).value]
  {
  }

  /** findByNombreIgnoringCaseOrCodigoIgnoringCase. */
  function BuscarColision(materias: seq<Materia>, nombre: string, codigo: string): (r: Option<Materia>)
    ensures r.Some? <==> exists i :: 0 <= i < |materias| && Colisiona(materias[i], nombre, codigo)
    ensures r.Some? ==> r.value in materias && Colisiona(r.value, nombre, codigo)
  {
    match Primero(materias, (m: Materia) => Colisiona(m, nombre, codigo))
    case None => None
    case Some(i) => Some(materias[i])
  }

  /** findAllByCodigoIn: the rows whose code is listed, in table order. */
  function TodasPorCodigoEn(materias: seq<Materia>, codigos: seq<string>): (r: seq<Materia>)
    ensures forall m :: m in r <==> m in materias && m.codigo in codigos
  {
    if |materias| == 0 then []
    else
      var resto := TodasPorCodigoEn(materias[1..], codigos);
      assert forall m :: m in materias <==> m == materias[0] || m in materias[1..];
      if materias[0].codigo in codigos then [materias[0]] + resto else resto
  }

  /** CrudRepository.save for a course: the row with the same code is
      replaced in place, otherwise the course is appended. */
  function Guardar(materias: seq<Materia>, m: Materia): (r: seq<Materia>)
    ensures ExisteCodigo(materias, m.codigo) ==> |r| == |materias|
    ensures !ExisteCodigo(materias, m.codigo) ==> r == materias + [m]
    ensures m in r
    ensures forall x :: x in r ==> x in materias || x == m
    ensures forall i :: 0 <= i < |materias| && materias[i].codigo == m.codigo && (forall j :: 0 <= j < i ==> materias[j].codigo != m.codigo) ==> r[i] == m
    ensures forall i :: 0 <= i < |materias| && materias[i].codigo != m.codigo ==> i < |r| && r[i] == materias[i]
    ensures |materias| <= |r| && forall i :: 0 <= i < |materias| ==> r[i] == materias[i] || r[i] == m
  {
    match Primero(materias, (x: Materia) => x.codigo == m.codigo)
    case None => materias + [m]
    case Some(i) =>
      var r := materias[i := m];
      assert r[i] == m;
      assert forall x :: x in r ==> exists j :: 0 <= j < |r| && r[j] == x;
      r
  }

  /** saveAll: the courses saved one after the other. */
  function GuardarTodas(materias: seq<Materia>, nuevas: seq<Materia>): (r: seq<Materia>)
    ensures forall x :: x in r ==> x in materias || x in nuevas
    ensures |nuevas| > 0 ==> nuevas[|nuevas| - 1] in r
    ensures |materias| <= |r|
    decreases |nuevas|
  {
    if |nuevas| == 0 then materias
    else
      var r := GuardarTodas(Guardar(materias, nuevas[0]), nuevas[1..]);
      assert forall m :: m in nuevas[1..] ==> m in nuevas;
      r
  }

  /** Saving in turn keeps every row in its place, either as it was or
      replaced by a saved course with its code, and leaves every saved code
      in the table. */
  lemma {:induction false} GuardarTodasConserva(materias: seq<Materia>, nuevas: seq<Materia>)
    ensures forall i :: 0 <= i < |materias| ==>
      GuardarTodas(materias, nuevas)[i] == materias[i] ||
      (GuardarTodas(materias, nuevas)[i] in nuevas && GuardarTodas(materias, nuevas)[i].codigo == materias[i].codigo)
    ensures forall n :: n in nuevas ==> ExisteCodigo(GuardarTodas(materias, nuevas), n.codigo)
    decreases |nuevas|
  {
    if |nuevas| > 0 {
      var g := Guardar(materias, nuevas[0]);
      var r := GuardarTodas(g, nuevas[1..]);
      assert r == GuardarTodas(materias, nuevas);
      GuardarTodasConserva(g, nuevas[1..]);
      assert forall m :: m in nuevas[1..] ==> m in nuevas;
      assert forall i :: 0 <= i < |materias| && g[i] != materias[i] ==> g[i] == nuevas[0] && materias[i].codigo == nuevas[0].codigo;
      assert ExisteCodigo(r, nuevas[0].codigo) by {
        var i :| 0 <= i < |g| && g[i] == nuevas[0];
        assert r[i].codigo == nuevas[0].codigo;
      }
      assert forall n :: n in nuevas ==> n == nuevas[0] || n in nuevas[1..];
    }
  }


}
