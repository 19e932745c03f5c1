/** ComisionService: loading a term's academic offer with a conflict report
    per rejected entry, schedule updates, the offer listing, and section
    creation, look-up and deletion. The repositories are the tables of a
    `Base`; every operation returns the tables it leaves behind. */
module ComisionServicio {
  import opened Resultados
  import opened Texto
  import opened Catalogo
  import opened Errores
  import opened Comisiones
  import opened Inscripciones

  /** The tables the service reads and writes. `siguienteId` is the next
      value the section table's identity column hands out. */
  datatype Base = Base(
    materias: seq<Materia>,
    cuatrimestres: seq<Cuatrimestre>,
    comisiones: seq<Comision>,
    siguienteId: nat,
    formularios: seq<Formulario>)

  // ---------------------------------------------------------------------
  // Table invariants

  /** Every stored section id was handed out before. */
  predicate IdsFrescos(db: Base)
  {
    forall i :: 0 <= i < |db.comisiones| ==> db.comisiones[i].id < db.siguienteId
  }

  /** No two stored sections share course, number and term. */
  predicate ComisionesUnicas(cs: seq<Comision>)
  {
    forall i, j :: 0 <= i < j < |cs| ==> !EsLaComision(cs[i], cs[j])
  }

  /** Every stored section belongs to a catalogued course. */
  predicate MateriasConocidas(db: Base)
  {
    forall i :: 0 <= i < |db.comisiones| ==> ExisteCodigo(db.materias, db.comisiones[i].materia)
  }

  /** No two stored terms share year and half. */
  predicate CuatrimestresUnicos(cuatrimestres: seq<Cuatrimestre>)
  {
    forall i, j :: 0 <= i < j < |cuatrimestres| ==> cuatrimestres[i].Clave() != cuatrimestres[j].Clave()
  }

  predicate Invariante(db: Base)
  {
    IdsFrescos(db) && ComisionesUnicas(db.comisiones) && MateriasConocidas(db)
  }

  // ---------------------------------------------------------------------
  // Look-ups

  predicate ExistePeriodo(cuatrimestres: seq<Cuatrimestre>, periodo: Periodo)
  {
    exists i :: 0 <= i < |cuatrimestres| && EsElCuatrimestre(cuatrimestres[i].Clave(), periodo)
  }

  /** findByAnioAndSemestre: index of the first term with that year and half. */
  function IndiceCuatrimestre(cuatrimestres: seq<Cuatrimestre>, periodo: Periodo): (r: Option<nat>)
    ensures r.Some? <==> ExistePeriodo(cuatrimestres, periodo)
    ensures r.Some? ==> r.value < |cuatrimestres| && cuatrimestres[r.value].Clave() == periodo
  {
    Primero(cuatrimestres, (c: Cuatrimestre) => EsElCuatrimestre(c.Clave(), periodo))
  }

  /** The section with course `codigo` and number `numero` in the term. */
  predicate EnSeccion(c: Comision, codigo: string, numero: int, periodo: Periodo)
  {
    CoincideEn(c, codigo, numero) && EsElCuatrimestre(c.cuatrimestre, periodo)
  }

  predicate ExisteSeccion(cs: seq<Comision>, codigo: string, numero: int, periodo: Periodo)
  {
    exists i :: 0 <= i < |cs| && EnSeccion(cs[i], codigo, numero, periodo)
  }

  /** findByNumeroAndMateriaAndCuatrimestre: index of the first such section. */
  function IndiceSeccion(cs: seq<Comision>, codigo: string, numero: int, periodo: Periodo): (r: Option<nat>)
    ensures r.Some? <==> ExisteSeccion(cs, codigo, numero, periodo)
    ensures r.Some? ==> r.value < |cs| && EnSeccion(cs[r.value], codigo, numero, periodo)
  {
    Primero(cs, (c: Comision) => EnSeccion(c, codigo, numero, periodo))
  }

  /** CrudRepository.save of a new section: it takes the next id and is appended. */
  function AltaDeComision(
    db: Base, materia: string, numero: int, periodo: Periodo, horarios: seq<Horario>,
    cuposTotales: int, sobrecuposTotales: int, modalidad: Modalidad): (r: Base)
    ensures r.materias == db.materias && r.cuatrimestres == db.cuatrimestres && r.formularios == db.formularios
    ensures |r.comisiones| == |db.comisiones| + 1 && db.comisiones <= r.comisiones
    ensures r.siguienteId == db.siguienteId + 1
    ensures var c := r.comisiones[|db.comisiones|];
      && c.id == db.siguienteId && c.materia == materia && c.numero == numero && c.cuatrimestre == periodo
      && c.horarios == horarios && c.cuposTotales == cuposTotales && c.sobrecuposTotales == sobrecuposTotales
      && c.modalidad == modalidad && c.sobrecuposOcupados == 0
  {
    var c := NuevaComision(db.siguienteId, materia, numero, periodo, horarios, cuposTotales, sobrecuposTotales, modalidad);
    db.(comisiones := db.comisiones + [c], siguienteId := db.siguienteId + 1)
  }

  /** Appending a section with a fresh id, a known course and an identity no
      stored section has keeps the table invariant. */
  lemma AltaPreservaInvariante(
    db: Base, materia: string, numero: int, periodo: Periodo, horarios: seq<Horario>,
    cuposTotales: int, sobrecuposTotales: int, modalidad: Modalidad)
    requires Invariante(db)
    requires ExisteCodigo(db.materias, materia)
    requires !ExisteSeccion(db.comisiones, materia, numero, periodo)
    ensures Invariante(AltaDeComision(db, materia, numero, periodo, horarios, cuposTotales, sobrecuposTotales, modalidad))
  {
    var r := AltaDeComision(db, materia, numero, periodo, horarios, cuposTotales, sobrecuposTotales, modalidad);
    var n := |db.comisiones|;
    assert forall i :: 0 <= i < n ==> r.comisiones[i] == db.comisiones[i];
    forall i | 0 <= i < n
      ensures !EsLaComision(r.comisiones[i], r.comisiones[n])
    {
      assert !EnSeccion(db.comisiones[i], materia, numero, periodo);
    }
  }

  // ---------------------------------------------------------------------
  // Academic-offer loading

  /** One line of the offer to load: the course by name and the section's seats. */
  datatype ComisionACrear = ComisionACrear(nombreMateria: string, numeroComision: int, cuposTotales: int, sobrecuposTotales: int)

  /** A rejected line of the offer and why. */
  datatype ConflictoComision = ConflictoComision(nombreMateria: string, numeroComision: int, mensaje: string)

  function SinMateria(e: ComisionACrear): ConflictoComision
  {
    ConflictoComision(e.nombreMateria, e.numeroComision, "No existe la materia " + e.nombreMateria)
  }

  function YaExiste(e: ComisionACrear): ConflictoComision
  {
    ConflictoComision(e.nombreMateria, e.numeroComision, "Ya existe esta comision")
  }

  /** The conflict reports the line, for one of the two reasons. */
  predicate Reporta(c: ConflictoComision, e: ComisionACrear)
  {
    c == SinMateria(e) || c == YaExiste(e)
  }

  lemma ConflictosDistintos(e: ComisionACrear)
    ensures SinMateria(e) != YaExiste(e)
  {
    assert SinMateria(e).mensaje[0] == 'N';
  }

  /** The course a line names, found by name ignoring case. */
  predicate Conocida(db: Base, e: ComisionACrear)
  {
    BuscarPorNombre(db.materias, e.nombreMateria).Some?
  }

  /** A line of a known course whose section already exists in the term. */
  predicate Repetida(db: Base, e: ComisionACrear, periodo: Periodo)
  {
    Conocida(db, e) && ExisteSeccion(db.comisiones, BuscarPorNombre(db.materias, e.nombreMateria).value.codigo, e.numeroComision, periodo)
  }

  /** One line of the offer: an unknown course or an existing section is a
      conflict and changes nothing; otherwise a new section with no schedule,
      the line's seats and the default modality is stored. */
  function CargarUna(e: ComisionACrear, periodo: Periodo, db: Base): (r: (Option<ConflictoComision>, Base))
    ensures r.0 == Some(SinMateria(e)) <==> !Conocida(db, e)
    ensures r.0 == Some(YaExiste(e)) <==> Repetida(db, e, periodo)
    ensures r.0.Some? ==> r.1 == db
    ensures r.1.materias == db.materias
    ensures r.0.None? ==> Conocida(db, e) && !Repetida(db, e, periodo)
    ensures r.0.None? ==> r.1 == AltaDeComision(db, BuscarPorNombre(db.materias, e.nombreMateria).value.codigo,
                                                e.numeroComision, periodo, [], e.cuposTotales, e.sobrecuposTotales, PRESENCIAL)
  {
    ConflictosDistintos(e);
    match BuscarPorNombre(db.materias, e.nombreMateria)
    case None => (Some(SinMateria(e)), db)
    case Some(m) =>
      if IndiceSeccion(db.comisiones, m.codigo, e.numeroComision, periodo).Some? then (Some(YaExiste(e)), db)
      else (None, AltaDeComision(db, m.codigo, e.numeroComision, periodo, [], e.cuposTotales, e.sobrecuposTotales, PRESENCIAL))
  }

  /** A section the loader stored: the id handed out, the term, no schedule,
      no overflow seat taken, the default modality. */
  predicate SeccionCargada(c: Comision, id: nat, periodo: Periodo)
  {
    c.id == id && c.cuatrimestre == periodo && c.horarios == [] && c.sobrecuposOcupados == 0 && c.modalidad == PRESENCIAL
  }

  /** guardarComisionesBuscandoConflictos: the lines in order, each against
      the tables the previous ones left. */
  function Cargar(entradas: seq<ComisionACrear>, periodo: Periodo, db: Base): (r: (seq<ConflictoComision>, Base))
    ensures r.1.materias == db.materias && r.1.cuatrimestres == db.cuatrimestres && r.1.formularios == db.formularios
    ensures db.comisiones <= r.1.comisiones
    ensures |r.0| + (|r.1.comisiones| - |db.comisiones|) == |entradas|
    ensures r.1.siguienteId == db.siguienteId + (|r.1.comisiones| - |db.comisiones|)
    ensures forall k :: |db.comisiones| <= k < |r.1.comisiones| ==>
      SeccionCargada(r.1.comisiones[k], db.siguienteId + (k - |db.comisiones|), periodo)
    decreases |entradas|
  {
    if |entradas| == 0 then ([], db)
    else
      var (conflicto, db1) := CargarUna(entradas[0], periodo, db);
      var (resto, db2) := Cargar(entradas[1..], periodo, db1);
      (if conflicto.Some? then [conflicto.value] + resto else resto, db2)
  }

  /** Loading keeps the table invariant: fresh ids, one section per course,
      number and term, and only catalogued courses. */
  lemma {:induction false} CargarPreservaInvariante(entradas: seq<ComisionACrear>, periodo: Periodo, db: Base)
    requires Invariante(db)
    ensures Invariante(Cargar(entradas, periodo, db).1)
    decreases |entradas|
  {
    if |entradas| > 0 {
      var e := entradas[0];
      var (conflicto, db1) := CargarUna(e, periodo, db);
      if conflicto.None? {
        var m := BuscarPorNombre(db.materias, e.nombreMateria).value;
        assert ExisteCodigo(db.materias, m.codigo) by {
          var i :| 0 <= i < |db.materias| && db.materias[i] == m;
        }
        AltaPreservaInvariante(db, m.codigo, e.numeroComision, periodo, [], e.cuposTotales, e.sobrecuposTotales, PRESENCIAL);
      }
      CargarPreservaInvariante(entradas[1..], periodo, db1);
    }
  }

  /** `s` with every element one larger. */
  function Desplazar(s: seq<nat>): (r: seq<nat>)
    ensures |r| == |s| && forall k :: 0 <= k < |s| ==> r[k] == s[k] + 1
  {
    if |s| == 0 then [] else [s[0] + 1] + Desplazar(s[1..])
  }

  /** For each conflict of a load, the position of the line it reports. */
  ghost function Origen(entradas: seq<ComisionACrear>, periodo: Periodo, db: Base): (r: seq<nat>)
    ensures |r| == |Cargar(entradas, periodo, db).0|
    decreases |entradas|
  {
    if |entradas| == 0 then []
    else
      var paso := CargarUna(entradas[0], periodo, db);
      var resto := Desplazar(Origen(entradas[1..], periodo, paso.1));
      if paso.0.Some? then [0] + resto else resto
  }

  /** One step of a load: the first line's conflict, if any, heads the rest's. */
  lemma PasoCargar(entradas: seq<ComisionACrear>, periodo: Periodo, db: Base)
    requires |entradas| > 0
    ensures var paso := CargarUna(entradas[0], periodo, db);
      && Cargar(entradas, periodo, db).0 == (if paso.0.Some? then [paso.0.value] else []) + Cargar(entradas[1..], periodo, paso.1).0
      && Cargar(entradas, periodo, db).1 == Cargar(entradas[1..], periodo, paso.1).1
      && Origen(entradas, periodo, db) == (if paso.0.Some? then [0] else []) + Desplazar(Origen(entradas[1..], periodo, paso.1))
  {
  }

  /** The k-th conflict reports the line `origen[k]`, for one of the two reasons. */
  predicate Corresponden(conflictos: seq<ConflictoComision>, origen: seq<nat>, entradas: seq<ComisionACrear>)
  {
    |origen| == |conflictos| && forall k :: 0 <= k < |origen| ==> origen[k] < |entradas| && Reporta(conflictos[k], entradas[origen[k]])
  }

  lemma CorrespondenDesplazado(
    conflicto: Option<ConflictoComision>, conflictos: seq<ConflictoComision>, origen: seq<nat>, entradas: seq<ComisionACrear>)
    requires |entradas| > 0 && Corresponden(conflictos, origen, entradas[1..])
    requires conflicto.Some? ==> Reporta(conflicto.value, entradas[0])
    ensures Corresponden((if conflicto.Some? then [conflicto.value] else []) + conflictos,
                         (if conflicto.Some? then [0] else []) + Desplazar(origen), entradas)
  {
    var d := if conflicto.Some? then 1 else 0;
    var cs := (if conflicto.Some? then [conflicto.value] else []) + conflictos;
    var os := (if conflicto.Some? then [0] else []) + Desplazar(origen);
    forall k | d <= k < |os| ensures os[k] < |entradas| && Reporta(cs[k], entradas[os[k]]) {
      assert os[k] == origen[k - d] + 1 && cs[k] == conflictos[k - d];
      assert entradas[os[k]] == entradas[1..][origen[k - d]];
    }
  }

  /** Each conflict of a load reports the line at its `Origen` position. */
  lemma {:induction false} ConflictosCorresponden(entradas: seq<ComisionACrear>, periodo: Periodo, db: Base)
    ensures Corresponden(Cargar(entradas, periodo, db).0, Origen(entradas, periodo, db), entradas)
    decreases |entradas|
  {
    if |entradas| > 0 {
      var paso := CargarUna(entradas[0], periodo, db);
      PasoCargar(entradas, periodo, db);
      ConflictosCorresponden(entradas[1..], periodo, paso.1);
      CorrespondenDesplazado(paso.0, Cargar(entradas[1..], periodo, paso.1).0, Origen(entradas[1..], periodo, paso.1), entradas);
    }
  }

  predicate Creciente(s: seq<nat>)
  {
    forall k, l :: 0 <= k < l < |s| ==> s[k] < s[l]
  }

  lemma CrecienteDesplazado(cero: bool, origen: seq<nat>)
    requires Creciente(origen)
    ensures Creciente((if cero then [0] else []) + Desplazar(origen))
  {
    var d := if cero then 1 else 0;
    var os := (if cero then [0] else []) + Desplazar(origen);
    forall k, l | 0 <= k < l < |os| ensures os[k] < os[l] {
      assert os[l] == origen[l - d] + 1;
      if k >= d {
        assert os[k] == origen[k - d] + 1;
      }
    }
  }

  /** Conflicts come in input order: the reported positions strictly increase. */
  lemma {:induction false} ConflictosEnOrden(entradas: seq<ComisionACrear>, periodo: Periodo, db: Base)
    ensures Creciente(Origen(entradas, periodo, db))
    decreases |entradas|
  {
    if |entradas| > 0 {
      var paso := CargarUna(entradas[0], periodo, db);
      PasoCargar(entradas, periodo, db);
      ConflictosEnOrden(entradas[1..], periodo, paso.1);
      CrecienteDesplazado(paso.0.Some?, Origen(entradas[1..], periodo, paso.1));
    }
  }

  /** The k-th conflict has position i and is `c`. */
  predicate ReportadoEn(conflictos: seq<ConflictoComision>, origen: seq<nat>, i: nat, c: ConflictoComision)
  {
    exists k :: 0 <= k < |origen| && k < |conflictos| && origen[k] == i && conflictos[k] == c
  }

  /** Every line of an unknown course is reported, at its own position, with
      the "No existe la materia" message. */
  lemma SinMateriaReportada(entradas: seq<ComisionACrear>, periodo: Periodo, db: Base, i: nat)
    requires i < |entradas| && !Conocida(db, entradas[i])
    ensures ReportadoEn(Cargar(entradas, periodo, db).0, Origen(entradas, periodo, db), i, SinMateria(entradas[i]))
  {
    var k := PosicionSinMateria(entradas, periodo, db, i);
  }

  /** The `k`-th conflict of a report is `c` and stems from line `i`. */
  predicate EnPosicion(conflictos: seq<ConflictoComision>, origen: seq<nat>, k: nat, i: nat, c: ConflictoComision)
  {
    k < |origen| && k < |conflictos| && origen[k] == i && conflictos[k] == c
  }

  /** The position, in the report, of the conflict of an unknown-course line. */
  lemma {:induction false} PosicionSinMateria(entradas: seq<ComisionACrear>, periodo: Periodo, db: Base, i: nat) returns (k: nat)
    requires i < |entradas| && !Conocida(db, entradas[i])
    ensures EnPosicion(Cargar(entradas, periodo, db).0, Origen(entradas, periodo, db), k, i, SinMateria(entradas[i]))
    decreases |entradas|
  {
    if i == 0 {
      k := 0;
      PrimeraSinMateria(entradas, periodo, db);
    } else {
      PasoSinMateria(entradas, periodo, db, i);
      var resto := PosicionSinMateria(entradas[1..], periodo, CargarUna(entradas[0], periodo, db).1, i - 1);
      k := PasoPosicionSinMateria(entradas, periodo, db, i, resto);
    }
  }

  /** The position of line `i` in the whole report, from that of line
      `i - 1` in the report of the lines after the first. */
  lemma PasoPosicionSinMateria(entradas: seq<ComisionACrear>, periodo: Periodo, db: Base, i: nat, resto: nat) returns (k: nat)
    requires 0 < i < |entradas|
    requires var paso := CargarUna(entradas[0], periodo, db);
      EnPosicion(Cargar(entradas[1..], periodo, paso.1).0, Origen(entradas[1..], periodo, paso.1), resto, i - 1, SinMateria(entradas[i]))
    ensures EnPosicion(Cargar(entradas, periodo, db).0, Origen(entradas, periodo, db), k, i, SinMateria(entradas[i]))
  {
    var paso := CargarUna(entradas[0], periodo, db);
    PasoCargar(entradas, periodo, db);
    k := PosicionTrasPaso(paso.0, Cargar(entradas[1..], periodo, paso.1).0, Origen(entradas[1..], periodo, paso.1),
                          resto, i, SinMateria(entradas[i]));
  }

  /** An unknown course on the first line is the report's first conflict. */
  lemma PrimeraSinMateria(entradas: seq<ComisionACrear>, periodo: Periodo, db: Base)
    requires |entradas| > 0 && !Conocida(db, entradas[0])
    ensures EnPosicion(Cargar(entradas, periodo, db).0, Origen(entradas, periodo, db), 0, 0, SinMateria(entradas[0]))
  {
    PasoCargar(entradas, periodo, db);
  }

  /** A conflict at position `k` of the rest of a load, reporting line `i - 1`
      of it, moves past the first line's conflict and reports line `i`. */
  lemma PosicionTrasPaso(conflicto: Option<ConflictoComision>, conflictos: seq<ConflictoComision>, origen: seq<nat>,
                         k: nat, i: nat, c: ConflictoComision) returns (k': nat)
    requires i > 0 && EnPosicion(conflictos, origen, k, i - 1, c)
    ensures EnPosicion((if conflicto.Some? then [conflicto.value] else []) + conflictos,
                       (if conflicto.Some? then [0] else []) + Desplazar(origen), k', i, c)
  {
    k' := if conflicto.Some? then k + 1 else k;
  }



  /** One step for a line of an unknown course: it is the conflict now, or
      it is still unknown to the rest of the load. */
  lemma PasoSinMateria(entradas: seq<ComisionACrear>, periodo: Periodo, db: Base, i: nat)
    requires i < |entradas| && !Conocida(db, entradas[i])
    ensures var paso := CargarUna(entradas[0], periodo, db);
      && (i == 0 ==> paso.0 == Some(SinMateria(entradas[i])))
      && (i > 0 ==> entradas[1..][i - 1] == entradas[i] && !Conocida(paso.1, entradas[1..][i - 1]))
  {
  }


  /** After loading, every line of a known course has its section in the
      term: the one that was already there or the one the line created. */
  lemma {:induction false} EntradaConocidaQuedaCargada(entradas: seq<ComisionACrear>, periodo: Periodo, db: Base, i: nat)
    requires i < |entradas| && Conocida(db, entradas[i])
    ensures ExisteSeccion(Cargar(entradas, periodo, db).1.comisiones,
                          BuscarPorNombre(db.materias, entradas[i].nombreMateria).value.codigo,
                          entradas[i].numeroComision, periodo)
    decreases |entradas|
  {
    var paso := CargarUna(entradas[0], periodo, db);
    PasoCargar(entradas, periodo, db);
    if i == 0 {
      CargarUnaDejaSeccion(entradas[0], periodo, db);
      PrefijoConservaSeccion(paso.1.comisiones, Cargar(entradas[1..], periodo, paso.1).1.comisiones,
                             BuscarPorNombre(db.materias, entradas[0].nombreMateria).value.codigo, entradas[0].numeroComision, periodo);
    } else {
      assert entradas[1..][i - 1] == entradas[i];
      EntradaConocidaQuedaCargada(entradas[1..], periodo, paso.1, i - 1);
    }
  }

  /** After one line of a known course, its section is in the table: it was
      there already or it has just been stored. */
  lemma CargarUnaDejaSeccion(e: ComisionACrear, periodo: Periodo, db: Base)
    requires Conocida(db, e)
    ensures CargarUna(e, periodo, db).1.materias == db.materias
    ensures ExisteSeccion(CargarUna(e, periodo, db).1.comisiones,
                          BuscarPorNombre(db.materias, e.nombreMateria).value.codigo, e.numeroComision, periodo)
  {
    var r := CargarUna(e, periodo, db);
    if r.0.None? {
      assert EnSeccion(r.1.comisiones[|db.comisiones|], BuscarPorNombre(db.materias, e.nombreMateria).value.codigo, e.numeroComision, periodo);
    }
  }

  lemma PrefijoConservaSeccion(cs: seq<Comision>, ds: seq<Comision>, codigo: string, numero: int, periodo: Periodo)
    requires cs <= ds && ExisteSeccion(cs, codigo, numero, periodo)
    ensures ExisteSeccion(ds, codigo, numero, periodo)
  {
    var j :| 0 <= j < |cs| && EnSeccion(cs[j], codigo, numero, periodo);
    assert ds[j] == cs[j];
  }

  /** Cuatrimestre.actualizarFechas, abstracted: the new enrolment window of
      a stored term given the requested start and end. */
  type ActualizarFechas = (Cuatrimestre, Option<int>, Option<int>) -> (int, int)

  /** The term upsert of actualizarOfertaAcademica: a stored term with the
      same year and half gets its window updated in place; otherwise the
      requested term is appended. The first result is the term obtained. */
  function GuardarCuatrimestre(
    cuatrimestres: seq<Cuatrimestre>, miCuatrimestre: Cuatrimestre,
    inicio: Option<int>, fin: Option<int>, actualizarFechas: ActualizarFechas): (r: (Cuatrimestre, seq<Cuatrimestre>))
    ensures r.0.Clave() == miCuatrimestre.Clave() && r.0 in r.1
    ensures ExistePeriodo(cuatrimestres, miCuatrimestre.Clave()) ==>
      && |r.1| == |cuatrimestres|
      && (forall j :: 0 <= j < |cuatrimestres| ==> r.1[j].Clave() == cuatrimestres[j].Clave())
      && (r.0.inicioInscripciones, r.0.finInscripciones)
           == actualizarFechas(cuatrimestres[IndiceCuatrimestre(cuatrimestres, miCuatrimestre.Clave()).value], inicio, fin)
      && r.1[IndiceCuatrimestre(cuatrimestres, miCuatrimestre.Clave()).value] == r.0
      && (forall j :: 0 <= j < |cuatrimestres| && j != IndiceCuatrimestre(cuatrimestres, miCuatrimestre.Clave()).value ==>
            r.1[j] == cuatrimestres[j])
    ensures !ExistePeriodo(cuatrimestres, miCuatrimestre.Clave()) ==> r.0 == miCuatrimestre && r.1 == cuatrimestres + [miCuatrimestre]
    ensures CuatrimestresUnicos(cuatrimestres) ==> CuatrimestresUnicos(r.1)
  {
    match IndiceCuatrimestre(cuatrimestres, miCuatrimestre.Clave())
    case Some(i) =>
      var (desde, hasta) := actualizarFechas(cuatrimestres[i], inicio, fin);
      var obtenido := cuatrimestres[i].(inicioInscripciones := desde, finInscripciones := hasta);
      var r := cuatrimestres[i := obtenido];
      assert r[i] == obtenido;
      (obtenido, r)
    case None =>
      var r := cuatrimestres + [miCuatrimestre];
      assert r[|cuatrimestres|] == miCuatrimestre;
      (miCuatrimestre, r)
  }

  /** actualizarOfertaAcademica: the term is the one given or, failing that,
      the current one with the requested window (`actualConFechas`); it is
      upserted, then the lines are loaded into it. */
  function ActualizarOfertaAcademica(
    entradas: seq<ComisionACrear>, inicio: Option<int>, fin: Option<int>, cuatrimestre: Option<Cuatrimestre>,
    actualConFechas: Cuatrimestre, actualizarFechas: ActualizarFechas, db: Base): (r: (seq<ConflictoComision>, Base))
    ensures var periodo := if cuatrimestre.Some? then cuatrimestre.value.Clave() else actualConFechas.Clave();
      && ExistePeriodo(r.1.cuatrimestres, periodo)
      && (ExistePeriodo(db.cuatrimestres, periodo) ==> |r.1.cuatrimestres| == |db.cuatrimestres|)
      && (!ExistePeriodo(db.cuatrimestres, periodo) ==> |r.1.cuatrimestres| == |db.cuatrimestres| + 1)
      && (forall k :: |db.comisiones| <= k < |r.1.comisiones| ==> r.1.comisiones[k].cuatrimestre == periodo)
    ensures CuatrimestresUnicos(db.cuatrimestres) ==> CuatrimestresUnicos(r.1.cuatrimestres)
    ensures db.comisiones <= r.1.comisiones && r.1.materias == db.materias && r.1.formularios == db.formularios
    ensures |r.0| + (|r.1.comisiones| - |db.comisiones|) == |entradas|
  {
    var miCuatrimestre := if cuatrimestre.Some? then cuatrimestre.value else actualConFechas;
    var guardado := GuardarCuatrimestre(db.cuatrimestres, miCuatrimestre, inicio, fin, actualizarFechas);
    var conTermino := db.(cuatrimestres := guardado.1);
    assert ExistePeriodo(guardado.1, guardado.0.Clave()) by {
      var i :| 0 <= i < |guardado.1| && guardado.1[i] == guardado.0;
    }
    Cargar(entradas, guardado.0.Clave(), conTermino)
  }

  /** Updating the offer keeps the section-table invariant. */
  lemma ActualizarOfertaPreservaInvariante(
    entradas: seq<ComisionACrear>, inicio: Option<int>, fin: Option<int>, cuatrimestre: Option<Cuatrimestre>,
    actualConFechas: Cuatrimestre, actualizarFechas: ActualizarFechas, db: Base)
    requires Invariante(db)
    ensures Invariante(ActualizarOfertaAcademica(entradas, inicio, fin, cuatrimestre, actualConFechas, actualizarFechas, db).1)
  {
    var miCuatrimestre := if cuatrimestre.Some? then cuatrimestre.value else actualConFechas;
    var guardado := GuardarCuatrimestre(db.cuatrimestres, miCuatrimestre, inicio, fin, actualizarFechas);
    CargarPreservaInvariante(entradas, guardado.0.Clave(), db.(cuatrimestres := guardado.1));
  }

  // ---------------------------------------------------------------------
  // Schedule updates

  /** One schedule update: the section by number, the course by code. */
  datatype ComisionConHorarios = ComisionConHorarios(comision: int, materia: string, horarios: seq<Horario>)

  /** A schedule update that named no course or no section. */
  datatype ConflictoHorarios = ConflictoHorarios(comision: int, materia: string, mensaje: string)

  function SinMateriaHorarios(it: ComisionConHorarios): ConflictoHorarios
  {
    ConflictoHorarios(it.comision, it.materia, "No se encontró la materia")
  }

  function SinComisionHorarios(it: ComisionConHorarios): ConflictoHorarios
  {
    ConflictoHorarios(it.comision, it.materia, "No se encontró la comision")
  }

  /** The conflict reports the update, for one of the two reasons. */
  predicate ReportaHorario(c: ConflictoHorarios, it: ComisionConHorarios)
  {
    c == SinMateriaHorarios(it) || c == SinComisionHorarios(it)
  }

  /** Same sections in the same places; only schedules may differ. */
  predicate SoloHorariosCambian(a: seq<Comision>, b: seq<Comision>)
  {
    |a| == |b| && forall j :: 0 <= j < |a| ==> b[j] == a[j].(horarios := b[j].horarios)
  }

  /** The update names the section `c`. */
  predicate Nombra(it: ComisionConHorarios, c: Comision, periodo: Periodo)
  {
    EnSeccion(c, it.materia, it.comision, periodo)
  }

  /** One update: an unknown course or section is a conflict; otherwise the
      first matching section gets the new schedule and nothing else changes. */
  function ModificarUna(it: ComisionConHorarios, periodo: Periodo, materias: seq<Materia>, cs: seq<Comision>): (r: (Option<ConflictoHorarios>, seq<Comision>))
    ensures r.0 == Some(SinMateriaHorarios(it)) <==> !ExisteCodigo(materias, it.materia)
    ensures r.0 == Some(SinComisionHorarios(it)) <==> ExisteCodigo(materias, it.materia) && !ExisteSeccion(cs, it.materia, it.comision, periodo)
    ensures r.0.Some? ==> r.1 == cs
    ensures SoloHorariosCambian(cs, r.1)
    ensures forall j :: 0 <= j < |cs| && !Nombra(it, cs[j], periodo) ==> r.1[j] == cs[j]
    ensures r.0.None? ==> exists j :: 0 <= j < |cs| && Nombra(it, cs[j], periodo) && r.1[j].horarios == it.horarios
  {
    assert SinMateriaHorarios(it).mensaje[21] != SinComisionHorarios(it).mensaje[21];
    match BuscarPorCodigo(materias, it.materia)
    case None => (Some(SinMateriaHorarios(it)), cs)
    case Some(m) =>
      match IndiceSeccion(cs, m.codigo, it.comision, periodo)
      case None => (Some(SinComisionHorarios(it)), cs)
      case Some(i) =>
        var r := cs[i := ModificarHorarios(cs[i], it.horarios)];
        assert r[i].horarios == it.horarios;
        (None, r)
  }

  /** The updates in order, each on the sections the previous ones left. */
  function ModificarTodas(items: seq<ComisionConHorarios>, periodo: Periodo, materias: seq<Materia>, cs: seq<Comision>): (r: (seq<ConflictoHorarios>, seq<Comision>))
    ensures |r.0| <= |items| && |r.1| == |cs|
    decreases |items|
  {
    if |items| == 0 then ([], cs)
    else
      var (conflicto, cs1) := ModificarUna(items[0], periodo, materias, cs);
      var (resto, cs2) := ModificarTodas(items[1..], periodo, materias, cs1);
      (if conflicto.Some? then [conflicto.value] + resto else resto, cs2)
  }

  lemma SoloHorariosTransitivo(a: seq<Comision>, b: seq<Comision>, c: seq<Comision>)
    requires SoloHorariosCambian(a, b) && SoloHorariosCambian(b, c)
    ensures SoloHorariosCambian(a, c)
  {
    forall j | 0 <= j < |a| ensures c[j] == a[j].(horarios := c[j].horarios) {
      assert b[j] == a[j].(horarios := b[j].horarios);
    }
  }

  /** A run of updates changes schedules only, and leaves every section that
      no update names exactly as it was. */
  lemma {:induction false} ModificarTodasSoloHorarios(items: seq<ComisionConHorarios>, periodo: Periodo, materias: seq<Materia>, cs: seq<Comision>)
    ensures SoloHorariosCambian(cs, ModificarTodas(items, periodo, materias, cs).1)
    ensures forall j :: 0 <= j < |cs| && (forall k :: 0 <= k < |items| ==> !Nombra(items[k], cs[j], periodo)) ==>
      ModificarTodas(items, periodo, materias, cs).1[j] == cs[j]
    decreases |items|
  {
    if |items| > 0 {
      var (conflicto, cs1) := ModificarUna(items[0], periodo, materias, cs);
      var final := ModificarTodas(items, periodo, materias, cs).1;
      ModificarTodasSoloHorarios(items[1..], periodo, materias, cs1);
      SoloHorariosTransitivo(cs, cs1, final);
      forall j | 0 <= j < |cs| && (forall k :: 0 <= k < |items| ==> !Nombra(items[k], cs[j], periodo))
        ensures final[j] == cs[j]
      {
        assert !Nombra(items[0], cs[j], periodo);
        assert cs1[j] == cs[j];
        forall k | 0 <= k < |items[1..]| ensures !Nombra(items[1..][k], cs1[j], periodo) {
          assert items[1..][k] == items[k + 1];
        }
      }
    }
  }

  /** Every conflict reports one of the updates. */
  predicate ReportanAlgunItem(conflictos: seq<ConflictoHorarios>, items: seq<ComisionConHorarios>)
  {
    forall c :: c in conflictos ==> exists it :: it in items && ReportaHorario(c, it)
  }

  lemma ReportanDesplazado(conflicto: Option<ConflictoHorarios>, conflictos: seq<ConflictoHorarios>, items: seq<ComisionConHorarios>)
    requires |items| > 0 && ReportanAlgunItem(conflictos, items[1..])
    requires conflicto.Some? ==> ReportaHorario(conflicto.value, items[0])
    ensures ReportanAlgunItem((if conflicto.Some? then [conflicto.value] else []) + conflictos, items)
  {
    assert forall it :: it in items[1..] ==> it in items;
    assert items[0] in items;
  }

  lemma PasoModificar(items: seq<ComisionConHorarios>, periodo: Periodo, materias: seq<Materia>, cs: seq<Comision>)
    requires |items| > 0
    ensures var paso := ModificarUna(items[0], periodo, materias, cs);
      && ModificarTodas(items, periodo, materias, cs).0
           == (if paso.0.Some? then [paso.0.value] else []) + ModificarTodas(items[1..], periodo, materias, paso.1).0
      && ModificarTodas(items, periodo, materias, cs).1 == ModificarTodas(items[1..], periodo, materias, paso.1).1
  {
  }

  /** Every schedule conflict reports one of the updates, with one of the two messages. */
  lemma {:induction false} ConflictosDeHorarios(items: seq<ComisionConHorarios>, periodo: Periodo, materias: seq<Materia>, cs: seq<Comision>)
    ensures ReportanAlgunItem(ModificarTodas(items, periodo, materias, cs).0, items)
    decreases |items|
  {
    if |items| > 0 {
      var paso := ModificarUna(items[0], periodo, materias, cs);
      PasoModificar(items, periodo, materias, cs);
      ConflictosDeHorarios(items[1..], periodo, materias, paso.1);
      ReportanDesplazado(paso.0, ModificarTodas(items[1..], periodo, materias, paso.1).0, items);
    }
  }

  /** Changing schedules only keeps every section findable by course, number and term. */
  lemma SoloHorariosMismasSecciones(a: seq<Comision>, b: seq<Comision>, codigo: string, numero: int, periodo: Periodo)
    requires SoloHorariosCambian(a, b)
    ensures ExisteSeccion(a, codigo, numero, periodo) <==> ExisteSeccion(b, codigo, numero, periodo)
  {
    assert forall j :: 0 <= j < |a| ==> (EnSeccion(a[j], codigo, numero, periodo) <==> EnSeccion(b[j], codigo, numero, periodo));
  }

  /** The conflict, if any, of one update against the sections as stored
      before the run: an unknown course, else a section that does not exist. */
  function ConflictoEsperado(it: ComisionConHorarios, periodo: Periodo, materias: seq<Materia>, cs: seq<Comision>): seq<ConflictoHorarios>
  {
    if !ExisteCodigo(materias, it.materia) then [SinMateriaHorarios(it)]
    else if !ExisteSeccion(cs, it.materia, it.comision, periodo) then [SinComisionHorarios(it)]
    else []
  }

  /** The report a run of updates should produce: one conflict per failing
      update, in input order, judged against the stored sections. */
  function ConflictosEsperados(items: seq<ComisionConHorarios>, periodo: Periodo, materias: seq<Materia>, cs: seq<Comision>): (r: seq<ConflictoHorarios>)
    ensures |r| <= |items|
    decreases |items|
  {
    if |items| == 0 then []
    else ConflictoEsperado(items[0], periodo, materias, cs) + ConflictosEsperados(items[1..], periodo, materias, cs)
  }

  lemma {:induction false} ConflictosEsperadosSoloHorarios(items: seq<ComisionConHorarios>, periodo: Periodo, materias: seq<Materia>, a: seq<Comision>, b: seq<Comision>)
    requires SoloHorariosCambian(a, b)
    ensures ConflictosEsperados(items, periodo, materias, a) == ConflictosEsperados(items, periodo, materias, b)
    decreases |items|
  {
    if |items| > 0 {
      SoloHorariosMismasSecciones(a, b, items[0].materia, items[0].comision, periodo);
      ConflictosEsperadosSoloHorarios(items[1..], periodo, materias, a, b);
    }
  }

  /** The report of a run is exactly the expected one: an update yields a
      conflict iff its course is unknown or its section is not stored, with
      the matching message, in input order; updates that name a stored
      course and section yield none. */
  lemma {:induction false} ModificarTodasConflictos(items: seq<ComisionConHorarios>, periodo: Periodo, materias: seq<Materia>, cs: seq<Comision>)
    ensures ModificarTodas(items, periodo, materias, cs).0 == ConflictosEsperados(items, periodo, materias, cs)
    decreases |items|
  {
    if |items| > 0 {
      var paso := ModificarUna(items[0], periodo, materias, cs);
      PasoModificar(items, periodo, materias, cs);
      ModificarTodasConflictos(items[1..], periodo, materias, paso.1);
      ConflictosEsperadosSoloHorarios(items[1..], periodo, materias, cs, paso.1);
      assert (if paso.0.Some? then [paso.0.value] else []) == ConflictoEsperado(items[0], periodo, materias, cs);
    }
  }

  /** The update names `c` and its course is catalogued, so it applies to `c`
      when `c` is the first stored section with that identity. */
  predicate Aplica(it: ComisionConHorarios, materias: seq<Materia>, c: Comision, periodo: Periodo)
  {
    ExisteCodigo(materias, it.materia) && Nombra(it, c, periodo)
  }

  /** No earlier section has the same course, number and term. */
  predicate PrimeraDeSuIdentidad(cs: seq<Comision>, j: nat)
    requires j < |cs|
  {
    forall i :: 0 <= i < j ==> !EsLaComision(cs[i], cs[j])
  }

  /** The schedule `c` ends with, starting from `h`: that of the last update
      that applies to it. */
  function HorarioFinal(items: seq<ComisionConHorarios>, materias: seq<Materia>, periodo: Periodo, c: Comision, h: seq<Horario>): seq<Horario>
    decreases |items|
  {
    if |items| == 0 then h
    else HorarioFinal(items[1..], materias, periodo, c, if Aplica(items[0], materias, c, periodo) then items[0].horarios else h)
  }

  /** With no update applying to `c`, its schedule stays `h`. */
  lemma {:induction false} HorarioFinalNinguna(items: seq<ComisionConHorarios>, materias: seq<Materia>, periodo: Periodo, c: Comision, h: seq<Horario>)
    requires forall l :: 0 <= l < |items| ==> !Aplica(items[l], materias, c, periodo)
    ensures HorarioFinal(items, materias, periodo, c, h) == h
    decreases |items|
  {
    if |items| > 0 {
      assert !Aplica(items[0], materias, c, periodo);
      assert forall l :: 0 <= l < |items[1..]| ==> items[1..][l] == items[l + 1];
      HorarioFinalNinguna(items[1..], materias, periodo, c, h);
    }
  }

  /** The schedule `c` ends with is that of the last update applying to it. */
  lemma {:induction false} HorarioFinalUltima(items: seq<ComisionConHorarios>, materias: seq<Materia>, periodo: Periodo, c: Comision, h: seq<Horario>, k: nat)
    requires k < |items| && Aplica(items[k], materias, c, periodo)
    requires forall l :: k < l < |items| ==> !Aplica(items[l], materias, c, periodo)
    ensures HorarioFinal(items, materias, periodo, c, h) == items[k].horarios
    decreases |items|
  {
    assert forall l :: 0 <= l < |items[1..]| ==> items[1..][l] == items[l + 1];
    if k == 0 {
      HorarioFinalNinguna(items[1..], materias, periodo, c, items[0].horarios);
    } else {
      HorarioFinalUltima(items[1..], materias, periodo, c,
        if Aplica(items[0], materias, c, periodo) then items[0].horarios else h, k - 1);
    }
  }

  /** The schedule the j-th stored section should end with: only the first
      section of each identity is ever found by the look-up. */
  function HorarioEsperado(items: seq<ComisionConHorarios>, periodo: Periodo, materias: seq<Materia>, cs: seq<Comision>, j: nat): seq<Horario>
    requires j < |cs|
  {
    if PrimeraDeSuIdentidad(cs, j) then HorarioFinal(items, materias, periodo, cs[j], cs[j].horarios) else cs[j].horarios
  }

  lemma {:induction false} HorarioFinalSoloIdentidad(items: seq<ComisionConHorarios>, materias: seq<Materia>, periodo: Periodo, c: Comision, d: Comision, h: seq<Horario>)
    requires d == c.(horarios := d.horarios)
    ensures HorarioFinal(items, materias, periodo, c, h) == HorarioFinal(items, materias, periodo, d, h)
    decreases |items|
  {
    if |items| > 0 {
      assert Aplica(items[0], materias, c, periodo) == Aplica(items[0], materias, d, periodo);
      HorarioFinalSoloIdentidad(items[1..], materias, periodo, c, d,
        if Aplica(items[0], materias, c, periodo) then items[0].horarios else h);
    }
  }

  /** One update sets the schedule of the j-th section exactly when it applies
      to it and the section is the first of its identity. */
  lemma ModificarUnaHorario(it: ComisionConHorarios, periodo: Periodo, materias: seq<Materia>, cs: seq<Comision>, j: nat)
    requires j < |cs|
    ensures ModificarUna(it, periodo, materias, cs).1[j].horarios
      == if PrimeraDeSuIdentidad(cs, j) && Aplica(it, materias, cs[j], periodo) then it.horarios else cs[j].horarios
  {
    var r := ModificarUna(it, periodo, materias, cs);
    if Aplica(it, materias, cs[j], periodo) {
      assert ExisteSeccion(cs, it.materia, it.comision, periodo) by { assert EnSeccion(cs[j], it.materia, it.comision, periodo); }
      var i := IndiceSeccion(cs, it.materia, it.comision, periodo).value;
      assert r.1 == cs[i := ModificarHorarios(cs[i], it.horarios)];
      if i < j {
        assert EsLaComision(cs[i], cs[j]);
      } else if i > j {
        assert false;
      }
    }
  }

  /** After a run, every stored section carries the schedule of the last
      update that applies to it, if it is the first of its identity, and
      keeps its own otherwise. */
  lemma {:induction false} ModificarTodasHorarios(items: seq<ComisionConHorarios>, periodo: Periodo, materias: seq<Materia>, cs: seq<Comision>, j: nat)
    requires j < |cs|
    ensures ModificarTodas(items, periodo, materias, cs).1[j].horarios == HorarioEsperado(items, periodo, materias, cs, j)
    decreases |items|
  {
    if |items| > 0 {
      var paso := ModificarUna(items[0], periodo, materias, cs);
      PasoModificar(items, periodo, materias, cs);
      ModificarUnaHorario(items[0], periodo, materias, cs, j);
      ModificarTodasHorarios(items[1..], periodo, materias, paso.1, j);
      assert PrimeraDeSuIdentidad(paso.1, j) == PrimeraDeSuIdentidad(cs, j) by {
        assert forall i :: 0 <= i < |cs| ==> paso.1[i] == cs[i].(horarios := paso.1[i].horarios);
      }
      HorarioFinalSoloIdentidad(items[1..], materias, periodo, cs[j], paso.1[j], paso.1[j].horarios);
    }
  }

  /** The last update that applies to a section the look-up finds decides its
      schedule; a section no update applies to keeps its own. */
  lemma ModificarTodasUltimaGana(items: seq<ComisionConHorarios>, periodo: Periodo, materias: seq<Materia>, cs: seq<Comision>, j: nat, k: nat)
    requires j < |cs| && PrimeraDeSuIdentidad(cs, j)
    requires k < |items| && Aplica(items[k], materias, cs[j], periodo)
    requires forall l :: k < l < |items| ==> !Aplica(items[l], materias, cs[j], periodo)
    ensures ModificarTodas(items, periodo, materias, cs).1[j].horarios == items[k].horarios
  {
    ModificarTodasHorarios(items, periodo, materias, cs, j);
    HorarioFinalUltima(items, materias, periodo, cs[j], cs[j].horarios, k);
  }

  /** modificarHorarios: fails when the term is not stored; otherwise the
      updates run against it and only the section table changes. */
  function ModificarHorariosDe(items: seq<ComisionConHorarios>, periodo: Periodo, db: Base): (r: Result<(seq<ConflictoHorarios>, Base), Error>)
    ensures r.Ok? <==> ExistePeriodo(db.cuatrimestres, periodo)
    ensures r.Err? ==> r.error == CuatrimestreNoEncontrado
    ensures r.Ok? ==> r.value.1 == db.(comisiones := r.value.1.comisiones)
    ensures r.Ok? ==> |r.value.0| <= |items| && SoloHorariosCambian(db.comisiones, r.value.1.comisiones)
    ensures r.Ok? && Invariante(db) ==> Invariante(r.value.1)
    ensures r.Ok? ==> r.value.0 == ConflictosEsperados(items, periodo, db.materias, db.comisiones)
    ensures r.Ok? ==> forall j :: 0 <= j < |db.comisiones| ==>
      r.value.1.comisiones[j].horarios == HorarioEsperado(items, periodo, db.materias, db.comisiones, j)
  {
    match IndiceCuatrimestre(db.cuatrimestres, periodo)
    case None => Err(CuatrimestreNoEncontrado)
    case Some(i) =>
      assert db.cuatrimestres[i].Clave() == periodo;
      var (conflictos, cs) := ModificarTodas(items, periodo, db.materias, db.comisiones);
      ModificarTodasSoloHorarios(items, periodo, db.materias, db.comisiones);
      ModificarTodasConflictos(items, periodo, db.materias, db.comisiones);
      assert forall j :: 0 <= j < |db.comisiones| ==> cs[j].horarios == HorarioEsperado(items, periodo, db.materias, db.comisiones, j) by {
        forall j | 0 <= j < |db.comisiones| ensures cs[j].horarios == HorarioEsperado(items, periodo, db.materias, db.comisiones, j) {
          ModificarTodasHorarios(items, periodo, db.materias, db.comisiones, j);
        }
      }
      var r := db.(comisiones := cs);
      assert forall j :: 0 <= j < |cs| ==> (cs[j].id == db.comisiones[j].id && EsLaComision(cs[j], db.comisiones[j]));
      Ok((conflictos, r))
  }

  /** A single update of an existing section replaces its schedule and reports nothing. */
  lemma UnaActualizacionReemplaza(it: ComisionConHorarios, periodo: Periodo, db: Base)
    requires ExistePeriodo(db.cuatrimestres, periodo)
    requires ExisteCodigo(db.materias, it.materia) && ExisteSeccion(db.comisiones, it.materia, it.comision, periodo)
    ensures var r := ModificarHorariosDe([it], periodo, db);
      && r.Ok? && r.value.0 == []
      && exists j :: 0 <= j < |db.comisiones| && Nombra(it, db.comisiones[j], periodo)
           && r.value.1.comisiones[j].horarios == it.horarios
  {
    var i := IndiceCuatrimestre(db.cuatrimestres, periodo).value;
    var (conflicto, cs1) := ModificarUna(it, db.cuatrimestres[i].Clave(), db.materias, db.comisiones);
    assert ModificarTodas([it], periodo, db.materias, db.comisiones) == ([], cs1) by {
      assert [it][1..] == [];
    }
  }

  // ---------------------------------------------------------------------
  // Queries

  /** The section belongs to the term and its course's name contains the pattern, ignoring case. */
  predicate EnOferta(c: Comision, materias: seq<Materia>, patron: string, periodo: Periodo)
  {
    && EsElCuatrimestre(c.cuatrimestre, periodo)
    && exists i :: 0 <= i < |materias| && materias[i].codigo == c.materia && ContieneIgnorandoCaso(materias[i].nombre, patron)
  }

  /** findByCuatrimestreAnioAndCuatrimestreSemestreAndMateriaNombreIgnoreCaseContaining. */
  function FiltrarOferta(cs: seq<Comision>, materias: seq<Materia>, patron: string, periodo: Periodo): (r: seq<Comision>)
    ensures forall c :: c in r <==> c in cs && EnOferta(c, materias, patron, periodo)
    ensures |r| <= |cs|
  {
    if |cs| == 0 then []
    else
      var resto := FiltrarOferta(cs[1..], materias, patron, periodo);
      assert forall c :: c in cs <==> c == cs[0] || c in cs[1..];
      if EnOferta(cs[0], materias, patron, periodo) then [cs[0]] + resto else resto
  }

  /** ofertaDelCuatrimestre with chequearSiHayOferta: the matching sections,
      or an error naming the term when there is none. */
  function OfertaDelCuatrimestre(patron: string, periodo: Periodo, db: Base): (r: Result<seq<Comision>, Error>)
    ensures r.Err? <==> forall c :: c in db.comisiones ==> !EnOferta(c, db.materias, patron, periodo)
    ensures r.Err? ==> r.error == SinOfertaRegistrada(periodo.anio, periodo.semestre)
    ensures r.Ok? ==> |r.value| > 0 && forall c :: c in r.value <==> c in db.comisiones && EnOferta(c, db.materias, patron, periodo)
  {
    var oferta := FiltrarOferta(db.comisiones, db.materias, patron, periodo);
    if |oferta| == 0 then Err(SinOfertaRegistrada(periodo.anio, periodo.semestre))
    else
      assert oferta[0] in oferta;
      Ok(oferta)
  }

  /** With every section's course catalogued, the unfiltered offer fails
      exactly when the term has no section. */
  lemma OfertaSinFiltro(periodo: Periodo, db: Base)
    requires MateriasConocidas(db)
    ensures OfertaDelCuatrimestre("", periodo, db).Err? <==>
      forall j :: 0 <= j < |db.comisiones| ==> !EsElCuatrimestre(db.comisiones[j].cuatrimestre, periodo)
  {
    forall j | 0 <= j < |db.comisiones| && EsElCuatrimestre(db.comisiones[j].cuatrimestre, periodo)
      ensures EnOferta(db.comisiones[j], db.materias, "", periodo)
    {
      var i :| 0 <= i < |db.materias| && db.materias[i].codigo == db.comisiones[j].materia;
      PatronVacio(db.materias[i].nombre);
    }
  }

  /** obtener(id): the section with that id. */
  function Obtener(id: nat, db: Base): (r: Result<Comision, Error>)
    ensures r.Ok? <==> exists j :: 0 <= j < |db.comisiones| && db.comisiones[j].id == id
    ensures r.Ok? ==> r.value in db.comisiones && r.value.id == id
    ensures r.Err? ==> r.error == NoSeEncuentraLaComision
  {
    match Primero(db.comisiones, (c: Comision) => c.id == id)
    case None => Err(NoSeEncuentraLaComision)
    case Some(j) => Ok(db.comisiones[j])
  }

  /** findAllByMateriaAndCuatrimestreAnioAndCuatrimestreSemestre. */
  function DeMateriaEnPeriodo(cs: seq<Comision>, codigo: string, periodo: Periodo): (r: seq<Comision>)
    ensures forall c :: c in r <==> c in cs && EsLaMateria(c.materia, codigo) && EsElCuatrimestre(c.cuatrimestre, periodo)
  {
    if |cs| == 0 then []
    else
      var resto := DeMateriaEnPeriodo(cs[1..], codigo, periodo);
      assert forall c :: c in cs <==> c == cs[0] || c in cs[1..];
      if EsLaMateria(cs[0].materia, codigo) && EsElCuatrimestre(cs[0].cuatrimestre, periodo) then [cs[0]] + resto else resto
  }

  /** obtenerComisionesMateria: the term is checked first, then the course. */
  function ObtenerComisionesMateria(codigo: string, periodo: Periodo, db: Base): (r: Result<seq<Comision>, Error>)
    ensures !ExistePeriodo(db.cuatrimestres, periodo) ==> r == Err(NoExisteElCuatrimestre)
    ensures ExistePeriodo(db.cuatrimestres, periodo) && !ExisteCodigo(db.materias, codigo) ==> r == Err(NoSeEncuentraLaMateria)
    ensures r.Ok? <==> ExistePeriodo(db.cuatrimestres, periodo) && ExisteCodigo(db.materias, codigo)
    ensures r.Ok? ==> forall c :: c in r.value <==> c in db.comisiones && c.materia == codigo && c.cuatrimestre == periodo
  {
    match IndiceCuatrimestre(db.cuatrimestres, periodo)
    case None => Err(NoExisteElCuatrimestre)
    case Some(i) =>
      match BuscarPorCodigo(db.materias, codigo)
      case None => Err(NoSeEncuentraLaMateria)
      case Some(m) => Ok(DeMateriaEnPeriodo(db.comisiones, m.codigo, db.cuatrimestres[i].Clave()))
  }

  // ---------------------------------------------------------------------
  // Deletion

  /** Formulario.quitarInscripcionDe, abstracted: the form without the enrolment. */
  type QuitarInscripcion = (Formulario, nat) -> Formulario

  /** findByComisionesInscriptoId and quitarInscripcionDe on each form found. */
  function QuitarDeFormularios(fs: seq<Formulario>, id: nat, quitar: QuitarInscripcion): (r: seq<Formulario>)
    ensures |r| == |fs|
    ensures forall i :: 0 <= i < |fs| && id !in fs[i].comisionesInscripto ==> r[i] == fs[i]
    ensures forall i :: 0 <= i < |fs| && id in fs[i].comisionesInscripto ==> r[i] == quitar(fs[i], id)
  {
    if |fs| == 0 then []
    else
      var primero := if id in fs[0].comisionesInscripto then quitar(fs[0], id) else fs[0];
      var resto := QuitarDeFormularios(fs[1..], id, quitar);
      assert forall i :: 1 <= i < |fs| ==> fs[i] == fs[1..][i - 1] && ([primero] + resto)[i] == resto[i - 1];
      [primero] + resto
  }

  /** deleteById: the rows with that id go, the rest stay in order. */
  function SinComision(cs: seq<Comision>, id: nat): (r: seq<Comision>)
    ensures forall c :: c in r <==> c in cs && c.id != id
    ensures |r| <= |cs|
  {
    if |cs| == 0 then []
    else
      var resto := SinComision(cs[1..], id);
      assert forall c :: c in cs <==> c == cs[0] || c in cs[1..];
      if cs[0].id == id then resto else [cs[0]] + resto
  }

  /** borrarComision: forms enrolled in the section drop it, then the section is deleted. */
  function BorrarComision(id: nat, quitar: QuitarInscripcion, db: Base): (r: Base)
    ensures r.materias == db.materias && r.cuatrimestres == db.cuatrimestres && r.siguienteId == db.siguienteId
    ensures forall c :: c in r.comisiones <==> c in db.comisiones && c.id != id
    ensures |r.formularios| == |db.formularios|
    ensures forall i :: 0 <= i < |db.formularios| && id !in db.formularios[i].comisionesInscripto ==> r.formularios[i] == db.formularios[i]
  {
    db.(formularios := QuitarDeFormularios(db.formularios, id, quitar), comisiones := SinComision(db.comisiones, id))
  }

  /** When quitarInscripcionDe does drop the enrolment, no form refers to the
      deleted section afterwards, and no section with that id remains. */
  lemma BorrarNoDejaReferencias(id: nat, quitar: QuitarInscripcion, db: Base)
    requires forall f: Formulario :: id !in quitar(f, id).comisionesInscripto
    ensures var r := BorrarComision(id, quitar, db);
      && (forall i :: 0 <= i < |r.formularios| ==> id !in r.formularios[i].comisionesInscripto)
      && (forall j :: 0 <= j < |r.comisiones| ==> r.comisiones[j].id != id)
  {
    var r := BorrarComision(id, quitar, db);
    forall i | 0 <= i < |r.formularios| ensures id !in r.formularios[i].comisionesInscripto {
      if id in db.formularios[i].comisionesInscripto {
        assert r.formularios[i] == quitar(db.formularios[i], id);
      }
    }
    forall j | 0 <= j < |r.comisiones| ensures r.comisiones[j].id != id {
      assert r.comisiones[j] in r.comisiones;
    }
  }

  /** Deleting keeps the table invariant. */
  lemma BorrarPreservaInvariante(id: nat, quitar: QuitarInscripcion, db: Base)
    requires IdsFrescos(db) && MateriasConocidas(db)
    ensures IdsFrescos(BorrarComision(id, quitar, db)) && MateriasConocidas(BorrarComision(id, quitar, db))
  {
    var r := BorrarComision(id, quitar, db);
    forall j | 0 <= j < |r.comisiones|
      ensures r.comisiones[j].id < r.siguienteId && ExisteCodigo(r.materias, r.comisiones[j].materia)
    {
      assert r.comisiones[j] in db.comisiones;
      var k :| 0 <= k < |db.comisiones| && db.comisiones[k] == r.comisiones[j];
    }
  }

  // ---------------------------------------------------------------------
  // Single creation

  /** The form that creates one section. */
  datatype FormularioComision = FormularioComision(
    codigoMateria: string, numero: int, anio: int, semestre: Semestre, horarios: seq<Horario>,
    cuposTotales: int, sobreCuposTotales: int, modalidad: Modalidad)

  /** crear(formularioComision): the course must exist (MateriaNoEncontrada)
      and so must the term (`Optional.get()` on an empty result); no check
      for an existing section with the same identity is made. */
  function CrearComision(f: FormularioComision, db: Base): (r: Result<(Comision, Base), Error>)
    ensures !ExisteCodigo(db.materias, f.codigoMateria) ==> r == Err(MateriaNoEncontrada)
    ensures ExisteCodigo(db.materias, f.codigoMateria) && !ExistePeriodo(db.cuatrimestres, Periodo(f.anio, f.semestre)) ==> r == Err(SinElemento)
    ensures r.Ok? <==> ExisteCodigo(db.materias, f.codigoMateria) && ExistePeriodo(db.cuatrimestres, Periodo(f.anio, f.semestre))
    ensures r.Ok? ==> var (c, b) := r.value;
      && b.comisiones == db.comisiones + [c] && b.siguienteId == db.siguienteId + 1
      && b.materias == db.materias && b.cuatrimestres == db.cuatrimestres && b.formularios == db.formularios
      && c.id == db.siguienteId && c.materia == f.codigoMateria && c.numero == f.numero
      && c.cuatrimestre == Periodo(f.anio, f.semestre) && c.horarios == f.horarios
      && c.cuposTotales == f.cuposTotales && c.sobrecuposTotales == f.sobreCuposTotales
      && c.modalidad == f.modalidad && SobrecuposDisponibles(c) == f.sobreCuposTotales
    ensures r.Ok? && IdsFrescos(db) && MateriasConocidas(db) ==> IdsFrescos(r.value.1) && MateriasConocidas(r.value.1)
  {
    match BuscarPorCodigo(db.materias, f.codigoMateria)
    case None => Err(MateriaNoEncontrada)
    case Some(m) =>
      match IndiceCuatrimestre(db.cuatrimestres, Periodo(f.anio, f.semestre))
      case None => Err(SinElemento)
      case Some(i) =>
        var b := AltaDeComision(db, m.codigo, f.numero, db.cuatrimestres[i].Clave(), f.horarios,
                                f.cuposTotales, f.sobreCuposTotales, f.modalidad);
        Ok((b.comisiones[|db.comisiones|], b))
  }

  /** Unlike the offer loader, single creation lets a second section with the
      same course, number and term in. */
  lemma CrearComisionAdmiteDuplicado(f: FormularioComision, db: Base, i: nat)
    requires ExisteCodigo(db.materias, f.codigoMateria) && ExistePeriodo(db.cuatrimestres, Periodo(f.anio, f.semestre))
    requires i < |db.comisiones|
    requires db.comisiones[i].materia == f.codigoMateria && db.comisiones[i].numero == f.numero
    requires db.comisiones[i].cuatrimestre == Periodo(f.anio, f.semestre)
    ensures CrearComision(f, db).Ok?
    ensures EsLaComision(db.comisiones[i], CrearComision(f, db).value.0)
    ensures !ComisionesUnicas(CrearComision(f, db).value.1.comisiones)
  {
    var r := CrearComision(f, db).value;
    assert r.1.comisiones[i] == db.comisiones[i] && r.1.comisiones[|db.comisiones|] == r.0;
  }

}
