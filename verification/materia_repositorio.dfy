/** The two reporting queries of the course repository, as functions over
    the course, section and request tables:
    - the courses a student may request in a term, each paired with one of
      its sections in that term;
    - per course offered in a term, how many overflow requests it has in
      all and in a given state, most pending first. */
module MateriaRepositorio {
  import opened Resultados
  import opened Catalogo
  import opened Comisiones
  import opened Inscripciones
  import opened Texto

  /** A row of the availability query: course code, course name, section. */
  datatype FilaDisponible = FilaDisponible(codigo: string, nombre: string, comision: Comision)

  /** Every prerequisite is among the approved codes (vacuous without prerequisites). */
  predicate CorrelativasCumplidas(m: Materia, aprobadas: seq<string>)
  {
    forall k :: 0 <= k < |m.correlativas| ==> m.correlativas[k] in aprobadas
  }

  predicate DeSuCarrera(m: Materia, carrera: Carrera)
  {
    m.carrera == carrera || m.carrera == SIMULTANEIDAD
  }

  /** The availability rule for one course, independent of sections. */
  predicate Cursable(m: Materia, aprobadas: seq<string>, carrera: Carrera)
  {
    m.codigo !in aprobadas && CorrelativasCumplidas(m, aprobadas) && DeSuCarrera(m, carrera)
  }

  predicate EsSeccionDe(c: Comision, codigo: string, periodo: Periodo)
  {
    c.materia == codigo && c.cuatrimestre == periodo
  }

  /** The rows for one course: one per section of it in the term, none if
      the course fails the rule. */
  function FilasDe(m: Materia, comisiones: seq<Comision>, aprobadas: seq<string>, carrera: Carrera, periodo: Periodo): (r: seq<FilaDisponible>)
    ensures forall f :: f in r ==> f.codigo == m.codigo && f.nombre == m.nombre && Cursable(m, aprobadas, carrera)
    ensures forall f :: f in r ==> f.comision in comisiones && EsSeccionDe(f.comision, m.codigo, periodo)
    ensures forall c :: c in comisiones && EsSeccionDe(c, m.codigo, periodo) && Cursable(m, aprobadas, carrera) ==>
      FilaDisponible(m.codigo, m.nombre, c) in r
  {
    if |comisiones| == 0 then []
    else
      var resto := FilasDe(m, comisiones[1..], aprobadas, carrera, periodo);
      assert forall c :: c in comisiones ==> c == comisiones[0] || c in comisiones[1..];
      if Cursable(m, aprobadas, carrera) && EsSeccionDe(comisiones[0], m.codigo, periodo)
      then [FilaDisponible(m.codigo, m.nombre, comisiones[0])] + resto
      else resto
  }

  /** findMateriasDisponibles(aprobadas, carrera, anio, semestre). */
  function MateriasDisponibles(materias: seq<Materia>, comisiones: seq<Comision>, aprobadas: seq<string>, carrera: Carrera, periodo: Periodo): (r: seq<FilaDisponible>)
    ensures forall f :: f in r ==> f.codigo !in aprobadas
    ensures forall f :: f in r ==> exists m :: m in materias && m.codigo == f.codigo && m.nombre == f.nombre && Cursable(m, aprobadas, carrera)
    ensures forall f :: f in r ==> f.comision in comisiones && EsSeccionDe(f.comision, f.codigo, periodo)
    ensures forall m, c :: m in materias && c in comisiones && EsSeccionDe(c, m.codigo, periodo) && Cursable(m, aprobadas, carrera) ==>
      FilaDisponible(m.codigo, m.nombre, c) in r
  {
    if |materias| == 0 then []
    else
      var r := FilasDe(materias[0], comisiones, aprobadas, carrera, periodo) + MateriasDisponibles(materias[1..], comisiones, aprobadas, carrera, periodo);
      assert forall m :: m in materias ==> m == materias[0] || m in materias[1..];
      assert forall m :: m in materias[1..] ==> m in materias;
      r
  }

  /** A course with no section in the term never appears. */
  lemma SinSeccionNoDisponible(materias: seq<Materia>, comisiones: seq<Comision>, aprobadas: seq<string>, carrera: Carrera, periodo: Periodo, codigo: string)
    requires forall c :: c in comisiones ==> !EsSeccionDe(c, codigo, periodo)
    ensures forall f :: f in MateriasDisponibles(materias, comisiones, aprobadas, carrera, periodo) ==> f.codigo != codigo
  {
  }

  /** Approving more courses never hides a course that is still not approved. */
  lemma {:induction false} DisponibilidadMonotona(materias: seq<Materia>, comisiones: seq<Comision>, aprobadas: seq<string>, mas: seq<string>, carrera: Carrera, periodo: Periodo, f: FilaDisponible)
    requires forall k :: k in aprobadas ==> k in mas
    requires f in MateriasDisponibles(materias, comisiones, aprobadas, carrera, periodo)
    requires f.codigo !in mas
    ensures f in MateriasDisponibles(materias, comisiones, mas, carrera, periodo)
  {
    var m :| m in materias && m.codigo == f.codigo && m.nombre == f.nombre && Cursable(m, aprobadas, carrera);
    assert Cursable(m, mas, carrera);
    assert f == FilaDisponible(m.codigo, m.nombre, f.comision);
  }

  /** A course that requires another is offered to a student of its program
      once that other course is approved, and not before. */
  lemma CorrelativaHabilita(logica: Materia, algoritmos: Materia, c: Comision, carrera: Carrera, periodo: Periodo)
    requires logica.correlativas == [algoritmos.codigo] && DeSuCarrera(logica, carrera)
    requires logica.codigo != algoritmos.codigo
    requires EsSeccionDe(c, logica.codigo, periodo)
    ensures forall f :: f in MateriasDisponibles([algoritmos, logica], [c], [], carrera, periodo) ==> f.codigo != logica.codigo
    ensures FilaDisponible(logica.codigo, logica.nombre, c) in MateriasDisponibles([algoritmos, logica], [c], [algoritmos.codigo], carrera, periodo)
  {
    assert !Cursable(logica, [], carrera) by {
      assert logica.correlativas[0] !in [];
    }
    assert logica in [algoritmos, logica];
  }

  // ---------------------------------------------------------------------
  // Requests per course

  /** A row of the request-count query. */
  datatype FilaSolicitudes = FilaSolicitudes(codigo: string, nombre: string, totalSolicitudes: nat, totalPendientes: nat)

  /** Requests on section `comision`, optionally only those in state `estado`. */
  function Contar(solicitudes: seq<SolicitudSobrecupo>, comision: nat, estado: Option<EstadoSolicitud>): (n: nat)
    ensures n <= |solicitudes|
  {
    if |solicitudes| == 0 then 0
    else
      var s := solicitudes[0];
      var cuenta := if s.comision == comision && (estado.None? || s.estado == estado.value) then 1 else 0;
      cuenta + Contar(solicitudes[1..], comision, estado)
  }

  /** Join rows of one course's sections with their requests, summed over
      the sections (`count(s)` / `count(s_pendientes)`). */
  function Total(secciones: seq<Comision>, solicitudes: seq<SolicitudSobrecupo>, estado: Option<EstadoSolicitud>): nat
  {
    if |secciones| == 0 then 0
    else Contar(solicitudes, secciones[0].id, estado) + Total(secciones[1..], solicitudes, estado)
  }

  lemma {:induction false} ContarFiltradoAcotado(solicitudes: seq<SolicitudSobrecupo>, comision: nat, e: EstadoSolicitud)
    ensures Contar(solicitudes, comision, Some(e)) <= Contar(solicitudes, comision, None)
    decreases |solicitudes|
  {
    if |solicitudes| > 0 {
      ContarFiltradoAcotado(solicitudes[1..], comision, e);
    }
  }

  /** Counting only the requests in one state never exceeds counting them all. */
  lemma {:induction false} PendientesAcotadas(secciones: seq<Comision>, solicitudes: seq<SolicitudSobrecupo>, e: EstadoSolicitud)
    ensures Total(secciones, solicitudes, Some(e)) <= Total(secciones, solicitudes, None)
    decreases |secciones|
  {
    if |secciones| > 0 {
      ContarFiltradoAcotado(solicitudes, secciones[0].id, e);
      PendientesAcotadas(secciones[1..], solicitudes, e);
    }
  }

  /** The sections of course `codigo` in the term, in table order. */
  function SeccionesEn(comisiones: seq<Comision>, codigo: string, periodo: Periodo): (r: seq<Comision>)
    ensures forall c :: c in r <==> c in comisiones && EsSeccionDe(c, codigo, periodo)
  {
    if |comisiones| == 0 then []
    else
      var resto := SeccionesEn(comisiones[1..], codigo, periodo);
      assert forall c :: c in comisiones <==> c == comisiones[0] || c in comisiones[1..];
      if EsSeccionDe(comisiones[0], codigo, periodo) then [comisiones[0]] + resto else resto
  }

  /** The request is on section `comision` and, when a state is given, in that state. */
  predicate Cuenta(s: SolicitudSobrecupo, comision: nat, estado: Option<EstadoSolicitud>)
  {
    s.comision == comision && (estado.None? || s.estado == estado.value)
  }

  /** One more request adds one to a section's count exactly when it is on
      that section and in the state counted. */
  lemma {:induction false} ContarAnexar(solicitudes: seq<SolicitudSobrecupo>, s: SolicitudSobrecupo, comision: nat, estado: Option<EstadoSolicitud>)
    ensures Contar(solicitudes + [s], comision, estado) == Contar(solicitudes, comision, estado) + (if Cuenta(s, comision, estado) then 1 else 0)
    decreases |solicitudes|
  {
    if |solicitudes| == 0 {
      assert solicitudes + [s] == [s];
      assert [s][1..] == [];
    } else {
      assert (solicitudes + [s])[0] == solicitudes[0];
      assert (solicitudes + [s])[1..] == solicitudes[1..] + [s];
      ContarAnexar(solicitudes[1..], s, comision, estado);
    }
  }

  /** Section ids are the table's primary key. */
  predicate IdsDistintos(secciones: seq<Comision>)
  {
    forall i, j :: 0 <= i < j < |secciones| ==> secciones[i].id != secciones[j].id
  }

  /** With no requests every count is zero. */
  lemma {:induction false} TotalSinSolicitudes(secciones: seq<Comision>, estado: Option<EstadoSolicitud>)
    ensures Total(secciones, [], estado) == 0
    decreases |secciones|
  {
    if |secciones| > 0 {
      TotalSinSolicitudes(secciones[1..], estado);
    }
  }

  /** With distinct section ids, one more request adds one to the summed count
      exactly when it is on one of the sections and in the state counted. */
  lemma {:induction false} TotalAnexar(secciones: seq<Comision>, solicitudes: seq<SolicitudSobrecupo>, s: SolicitudSobrecupo, estado: Option<EstadoSolicitud>)
    requires IdsDistintos(secciones)
    ensures Total(secciones, solicitudes + [s], estado) ==
      Total(secciones, solicitudes, estado) +
      (if (exists c :: c in secciones && c.id == s.comision) && (estado.None? || s.estado == estado.value) then 1 else 0)
    decreases |secciones|
  {
    if |secciones| > 0 {
      ContarAnexar(solicitudes, s, secciones[0].id, estado);
      assert IdsDistintos(secciones[1..]) by {
        assert forall i :: 0 <= i < |secciones[1..]| ==> secciones[1..][i] == secciones[i + 1];
      }
      TotalAnexar(secciones[1..], solicitudes, s, estado);
      assert forall c :: c in secciones <==> c == secciones[0] || c in secciones[1..];
      if secciones[0].id == s.comision {
        forall c | c in secciones[1..] ensures c.id != s.comision {
          var i :| 0 <= i < |secciones[1..]| && secciones[1..][i] == c;
          assert c == secciones[i + 1];
        }
      }
    }
  }

  /** A course is reported when it has a section in the term and its
      upper-cased name contains the pattern. */
  predicate Reportada(m: Materia, comisiones: seq<Comision>, periodo: Periodo, patron: string)
  {
    (exists c :: c in comisiones && EsSeccionDe(c, m.codigo, periodo)) && Contiene(Mayusculas(m.nombre), patron)
  }

  function FilaDe(m: Materia, comisiones: seq<Comision>, solicitudes: seq<SolicitudSobrecupo>, periodo: Periodo, estado: EstadoSolicitud): (f: FilaSolicitudes)
    ensures f.codigo == m.codigo && f.nombre == m.nombre
    ensures f.totalPendientes <= f.totalSolicitudes
  {
    var secciones := SeccionesEn(comisiones, m.codigo, periodo);
    PendientesAcotadas(secciones, solicitudes, estado);
    FilaSolicitudes(m.codigo, m.nombre, Total(secciones, solicitudes, None), Total(secciones, solicitudes, Some(estado)))
  }

  /** The sections of a course in a term keep the table's distinct ids. */
  lemma {:induction false} SeccionesEnIdsDistintos(comisiones: seq<Comision>, codigo: string, periodo: Periodo)
    requires IdsDistintos(comisiones)
    ensures IdsDistintos(SeccionesEn(comisiones, codigo, periodo))
    decreases |comisiones|
  {
    if |comisiones| > 0 {
      assert IdsDistintos(comisiones[1..]) by {
        assert forall i :: 0 <= i < |comisiones[1..]| ==> comisiones[1..][i] == comisiones[i + 1];
      }
      SeccionesEnIdsDistintos(comisiones[1..], codigo, periodo);
      var resto := SeccionesEn(comisiones[1..], codigo, periodo);
      if EsSeccionDe(comisiones[0], codigo, periodo) {
        var r := [comisiones[0]] + resto;
        forall i, j | 0 <= i < j < |r| ensures r[i].id != r[j].id {
          if i == 0 {
            assert r[j] == resto[j - 1] && resto[j - 1] in comisiones[1..];
            var k :| 0 <= k < |comisiones[1..]| && comisiones[1..][k] == r[j];
            assert r[j] == comisiones[k + 1];
          } else {
            assert r[i] == resto[i - 1] && r[j] == resto[j - 1];
          }
        }
      }
    }
  }

  /** With no requests a course's row counts nothing. */
  lemma FilaDeSinSolicitudes(m: Materia, comisiones: seq<Comision>, periodo: Periodo, estado: EstadoSolicitud)
    ensures FilaDe(m, comisiones, [], periodo, estado).totalSolicitudes == 0
    ensures FilaDe(m, comisiones, [], periodo, estado).totalPendientes == 0
  {
    TotalSinSolicitudes(SeccionesEn(comisiones, m.codigo, periodo), None);
    TotalSinSolicitudes(SeccionesEn(comisiones, m.codigo, periodo), Some(estado));
  }

  /** With distinct section ids, one more request adds one to a course's
      total exactly when it is on one of the course's sections in the term,
      and one to its pending count exactly when it is also in the counted state. */
  lemma FilaDeAnexar(m: Materia, comisiones: seq<Comision>, solicitudes: seq<SolicitudSobrecupo>, s: SolicitudSobrecupo, periodo: Periodo, estado: EstadoSolicitud)
    requires IdsDistintos(comisiones)
    ensures var enCurso := exists c :: c in comisiones && EsSeccionDe(c, m.codigo, periodo) && c.id == s.comision;
      && FilaDe(m, comisiones, solicitudes + [s], periodo, estado).totalSolicitudes ==
           FilaDe(m, comisiones, solicitudes, periodo, estado).totalSolicitudes + (if enCurso then 1 else 0)
      && FilaDe(m, comisiones, solicitudes + [s], periodo, estado).totalPendientes ==
           FilaDe(m, comisiones, solicitudes, periodo, estado).totalPendientes + (if enCurso && s.estado == estado then 1 else 0)
  {
    var secciones := SeccionesEn(comisiones, m.codigo, periodo);
    SeccionesEnIdsDistintos(comisiones, m.codigo, periodo);
    TotalAnexar(secciones, solicitudes, s, None);
    TotalAnexar(secciones, solicitudes, s, Some(estado));
  }

  /** The grouped rows before ordering: one per reported course, in table order. */
  function Agrupar(materias: seq<Materia>, comisiones: seq<Comision>, solicitudes: seq<SolicitudSobrecupo>, periodo: Periodo, estado: EstadoSolicitud, patron: string): (r: seq<FilaSolicitudes>)
    ensures |r| <= |materias|
    ensures forall f :: f in r ==> f.totalPendientes <= f.totalSolicitudes
    ensures forall f :: f in r ==> exists m :: m in materias && Reportada(m, comisiones, periodo, patron) && f == FilaDe(m, comisiones, solicitudes, periodo, estado)
    ensures forall m :: m in materias && Reportada(m, comisiones, periodo, patron) ==> FilaDe(m, comisiones, solicitudes, periodo, estado) in r
  {
    if |materias| == 0 then []
    else
      var resto := Agrupar(materias[1..], comisiones, solicitudes, periodo, estado, patron);
      assert forall m :: m in materias <==> m == materias[0] || m in materias[1..];
      if Reportada(materias[0], comisiones, periodo, patron)
      then [FilaDe(materias[0], comisiones, solicitudes, periodo, estado)] + resto
      else resto
  }

  /** No code appears in two rows of the report. */
  predicate FilasConCodigosDistintos(filas: seq<FilaSolicitudes>)
  {
    forall i, j :: 0 <= i < j < |filas| ==> filas[i].codigo != filas[j].codigo
  }

  lemma AnteponerFila(f: FilaSolicitudes, filas: seq<FilaSolicitudes>)
    requires FilasConCodigosDistintos(filas)
    requires forall g :: g in filas ==> g.codigo != f.codigo
    ensures FilasConCodigosDistintos([f] + filas)
  {
    var r := [f] + filas;
    forall i, j | 0 <= i < j < |r| ensures r[i].codigo != r[j].codigo {
      assert r[j] == filas[j - 1] && filas[j - 1] in filas;
      if i > 0 {
        assert r[i] == filas[i - 1];
      }
    }
  }

  /** With unique course codes, no code is reported twice. */
  lemma {:induction false} AgruparCodigosUnicos(materias: seq<Materia>, comisiones: seq<Comision>, solicitudes: seq<SolicitudSobrecupo>, periodo: Periodo, estado: EstadoSolicitud, patron: string)
    requires CodigosUnicos(materias)
    ensures FilasConCodigosDistintos(Agrupar(materias, comisiones, solicitudes, periodo, estado, patron))
    decreases |materias|
  {
    if |materias| > 0 {
      var resto := Agrupar(materias[1..], comisiones, solicitudes, periodo, estado, patron);
      assert CodigosUnicos(materias[1..]);
      AgruparCodigosUnicos(materias[1..], comisiones, solicitudes, periodo, estado, patron);
      if Reportada(materias[0], comisiones, periodo, patron) {
        var f := FilaDe(materias[0], comisiones, solicitudes, periodo, estado);
        forall g | g in resto ensures g.codigo != f.codigo {
          var m :| m in materias[1..] && Reportada(m, comisiones, periodo, patron) && g == FilaDe(m, comisiones, solicitudes, periodo, estado);
          CodigoDistintoDelPrimero(materias, m);
        }
        AnteponerFila(f, resto);
      }
    }
  }

  predicate OrdenadasPorPendientes(filas: seq<FilaSolicitudes>)
  {
    forall i, j :: 0 <= i < j < |filas| ==> filas[i].totalPendientes >= filas[j].totalPendientes
  }

  function Insertar(f: FilaSolicitudes, filas: seq<FilaSolicitudes>): (r: seq<FilaSolicitudes>)
    requires OrdenadasPorPendientes(filas)
    ensures OrdenadasPorPendientes(r)
    ensures multiset(r) == multiset(filas) + multiset{f}
  {
    if |filas| == 0 then [f]
    else if f.totalPendientes >= filas[0].totalPendientes then [f] + filas
    else
      var resto := Insertar(f, filas[1..]);
      assert filas == [filas[0]] + filas[1..];
      assert forall g :: g in resto ==> g.totalPendientes <= filas[0].totalPendientes by {
        forall g | g in resto ensures g.totalPendientes <= filas[0].totalPendientes {
          assert g in multiset(resto);
        }
      }
      [filas[0]] + resto
  }

  /** ORDER BY total_pendientes DESC (ties keep table order). */
  function Ordenar(filas: seq<FilaSolicitudes>): (r: seq<FilaSolicitudes>)
    ensures OrdenadasPorPendientes(r)
    ensures multiset(r) == multiset(filas)
  {
    if |filas| == 0 then []
    else
      assert filas == [filas[0]] + filas[1..];
      Insertar(filas[0], Ordenar(filas[1..]))
  }

  /** findByCuatrimestreAnioAndCuatrimestreSemestreOrderByCountSolicitudesPendientes(anio, semestre, estado, nombre). */
  function MateriasPorSolicitudes(materias: seq<Materia>, comisiones: seq<Comision>, solicitudes: seq<SolicitudSobrecupo>, anio: int, semestre: Semestre, estado: EstadoSolicitud, patron: string): (r: seq<FilaSolicitudes>)
    ensures OrdenadasPorPendientes(r)
    ensures multiset(r) == multiset(Agrupar(materias, comisiones, solicitudes, Periodo(anio, semestre), estado, patron))
    ensures forall f :: f in r ==> f.totalPendientes <= f.totalSolicitudes
    ensures forall f :: f in r ==> exists m :: m in materias && m.codigo == f.codigo && Reportada(m, comisiones, Periodo(anio, semestre), patron)
    ensures forall m :: m in materias && Reportada(m, comisiones, Periodo(anio, semestre), patron) ==> exists f :: f in r && f.codigo == m.codigo
  {
    var agrupadas := Agrupar(materias, comisiones, solicitudes, Periodo(anio, semestre), estado, patron);
    var r := Ordenar(agrupadas);
    assert forall f :: f in r <==> f in agrupadas by {
      forall f ensures f in r <==> f in agrupadas {
        assert f in r <==> f in multiset(r);
        assert f in agrupadas <==> f in multiset(agrupadas);
      }
    }
    r
  }
}
