/** The course service: creating courses one at a time or in a batch,
    replacing prerequisite lists, and fetching a course by code. The course
    table is passed in and, on success, handed back updated; on failure the
    transaction stores nothing, so the caller keeps the table it had. */
module MateriaServicio {
  import opened Resultados
  import opened Errores
  import opened Catalogo
  import opened Texto

  lemma CodigosEncontrados(materias: seq<Materia>, correlativas: seq<string>, k: string)
    ensures k in Codigos(TodasPorCodigoEn(materias, correlativas)) <==> k in correlativas && ExisteCodigo(materias, k)
  {
    var encontradas := TodasPorCodigoEn(materias, correlativas);
    if k in Codigos(encontradas) {
      var i :| 0 <= i < |encontradas| && Codigos(encontradas)[i] == k;
      assert encontradas[i] in materias;
      var j :| 0 <= j < |materias| && materias[j] == encontradas[i];
    }
    if k in correlativas && ExisteCodigo(materias, k) {
      var j :| 0 <= j < |materias| && materias[j].codigo == k;
      assert materias[j] in encontradas;
      var i :| 0 <= i < |encontradas| && encontradas[i] == materias[j];
      assert Codigos(encontradas)[i] == k;
    }
  }

  /** crear(nombre, codigo, correlativas, carrera): the new course and the table after saving it. */
  function Crear(nombre: string, codigo: string, correlativas: seq<string>, carrera: Carrera, materias: seq<Materia>): (r: Result<(Materia, seq<Materia>), Error>)
    ensures r.Err? && r.error.ConflictoConMateria? <==> exists i :: 0 <= i < |materias| && Colisiona(materias[i], nombre, codigo)
    ensures r.Err? && r.error.ConflictoConMateria? ==>
      r.error.nombre == nombre && r.error.codigo == codigo &&
      exists m :: m in materias && Colisiona(m, nombre, codigo) && m.nombre == r.error.nombreExistente && m.codigo == r.error.codigoExistente
    ensures r.Err? && r.error.NoExisteMateriaConCodigo? ==>
      exists i :: 0 <= i < |correlativas| && correlativas[i] == r.error.codigo && !ExisteCodigo(materias, correlativas[i]) &&
        forall j :: 0 <= j < i ==> ExisteCodigo(materias, correlativas[j])
    ensures r.Err? ==> r.error.ConflictoConMateria? || r.error.NoExisteMateriaConCodigo?
    ensures r.Ok? <==> (forall i :: 0 <= i < |materias| ==> !Colisiona(materias[i], nombre, codigo)) &&
                       (forall k :: k in correlativas ==> ExisteCodigo(materias, k))
    ensures r.Ok? ==> r.value.1 == materias + [r.value.0]
    ensures r.Ok? ==> r.value.0.codigo == codigo && r.value.0.nombre == nombre && r.value.0.carrera == carrera
    ensures r.Ok? ==> forall k :: k in r.value.0.correlativas <==> k in correlativas
    ensures r.Ok? && SinColisiones(materias) ==> SinColisiones(r.value.1)
    ensures r.Ok? && CorrelativasExistentes(materias) ==> CorrelativasExistentes(r.value.1)
  {
    match BuscarColision(materias, nombre, codigo)
    case Some(existente) => Err(ConflictoConMateria(nombre, codigo, existente.nombre, existente.codigo))
    case None =>
      var encontradas := Codigos(TodasPorCodigoEn(materias, correlativas));
      assert forall k :: k in encontradas <==> k in correlativas && ExisteCodigo(materias, k) by {
        forall k ensures k in encontradas <==> k in correlativas && ExisteCodigo(materias, k) {
          CodigosEncontrados(materias, correlativas, k);
        }
      }
      match Primero(correlativas, (k: string) => k !in encontradas)
      case Some(i) => Err(NoExisteMateriaConCodigo(correlativas[i]))
      case None =>
        var nueva := Materia(codigo, nombre, encontradas, carrera);
        assert !ExisteCodigo(materias, codigo);
        var ms := Guardar(materias, nueva);
        assert CorrelativasExistentes(materias) ==> CorrelativasExistentes(ms) by {
          if CorrelativasExistentes(materias) {
            AgregarCorrelativasExistentes(materias, nueva);
          }
        }
        assert SinColisiones(materias) ==> SinColisiones(ms) by {
          if SinColisiones(materias) {
            AgregarSinColisiones(materias, nueva);
          }
        }
        Ok((nueva, ms))
  }

  // ---------------------------------------------------------------------
  // Batch creation

  /** The form of one course of a batch. */
  datatype FormularioMateria = FormularioMateria(nombre: string, codigo: string, carrera: Carrera)

  /** The course a batch form creates: always without prerequisites. */
  function NuevaDe(f: FormularioMateria): (m: Materia)
    ensures m.correlativas == []
    ensures m.codigo == f.codigo && m.nombre == f.nombre && m.carrera == f.carrera
  {
    Materia(f.codigo, f.nombre, [], f.carrera)
  }

  function NuevasDe(forms: seq<FormularioMateria>): (r: seq<Materia>)
    ensures |r| == |forms|
    ensures forall i :: 0 <= i < |forms| ==> r[i] == NuevaDe(forms[i])
  {
    seq(|forms|, i requires 0 <= i < |forms| => NuevaDe(forms[i]))
  }

  /** The form collides with no row of the table. */
  predicate SinColision(f: FormularioMateria, tabla: seq<Materia>)
  {
    forall m :: m in tabla ==> !Colisiona(m, f.nombre, f.codigo)
  }

  /** The error is the conflict of this form: it names the form's name and
      code, and the name and code of a row of the table the form collides with. */
  predicate ConflictoNombra(f: FormularioMateria, tabla: seq<Materia>, e: Error)
  {
    && e.ConflictoConMateria?
    && e.nombre == f.nombre && e.codigo == f.codigo
    && exists m :: m in tabla && Colisiona(m, f.nombre, f.codigo) && m.nombre == e.nombreExistente && m.codigo == e.codigoExistente
  }

  /** Form `i` is the first form of the batch that collides with the table,
      and the error is its conflict. */
  predicate ConflictoEnTabla(forms: seq<FormularioMateria>, materias: seq<Materia>, i: nat, e: Error)
  {
    i < |forms| && ConflictoNombra(forms[i], materias, e) &&
    forall k :: 0 <= k < i ==> SinColision(forms[k], materias)
  }

  /** A conflict found after a first form that collides with nothing sits one
      position further on. */
  lemma ConflictoEnTablaDesplazado(forms: seq<FormularioMateria>, materias: seq<Materia>, j: nat, e: Error)
    requires |forms| > 0 && SinColision(forms[0], materias)
    requires ConflictoEnTabla(forms[1..], materias, j, e)
    ensures ConflictoEnTabla(forms, materias, j + 1, e)
  {
    assert forms[1..][j] == forms[j + 1];
    forall k | 1 <= k < j + 1 ensures SinColision(forms[k], materias) {
      assert forms[1..][k - 1] == forms[k];
    }
  }

  /** The batch checks as the source performs them: each form against the
      table as it was before the batch, the first collision aborting. */
  function PrimerConflicto(forms: seq<FormularioMateria>, materias: seq<Materia>): (r: Option<Error>)
    ensures r.None? <==> forall i, j :: 0 <= i < |forms| && 0 <= j < |materias| ==> !Colisiona(materias[j], forms[i].nombre, forms[i].codigo)
    ensures r.Some? ==> r.value.ConflictoConMateria?
    ensures r.Some? ==> exists i: nat :: ConflictoEnTabla(forms, materias, i, r.value)
  {
    if |forms| == 0 then None
    else
      match BuscarColision(materias, forms[0].nombre, forms[0].codigo)
      case Some(e) =>
        var r := ConflictoConMateria(forms[0].nombre, forms[0].codigo, e.nombre, e.codigo);
        assert ConflictoEnTabla(forms, materias, 0, r);
        Some(r)
      case None =>
        var r := PrimerConflicto(forms[1..], materias);
        assert forall i :: 1 <= i < |forms| ==> forms[i] == forms[1..][i - 1];
        if r.None? then r
        else
          var j: nat :| ConflictoEnTabla(forms[1..], materias, j, r.value);
          ConflictoEnTablaDesplazado(forms, materias, j, r.value);
          r
  }

  /** crear(formulariosMaterias) as written: all checks, then saveAll. The
      created courses and the table after saving them. */
  function CrearLoteTalCualEscrito(forms: seq<FormularioMateria>, materias: seq<Materia>): (r: Result<(seq<Materia>, seq<Materia>), Error>)
    ensures r.Err? <==> exists i, j :: 0 <= i < |forms| && 0 <= j < |materias| && Colisiona(materias[j], forms[i].nombre, forms[i].codigo)
    ensures r.Err? ==> r.error.ConflictoConMateria?
    ensures r.Err? ==> exists i: nat :: ConflictoEnTabla(forms, materias, i, r.error)
    ensures r.Ok? ==> r.value.0 == NuevasDe(forms)
    ensures r.Ok? ==> forall m :: m in r.value.0 ==> m.correlativas == []
    ensures r.Ok? ==> forall m :: m in r.value.1 ==> m in materias || m in r.value.0
    ensures r.Ok? ==> |materias| <= |r.value.1| && r.value.1[..|materias|] == materias
    ensures r.Ok? ==> forall f :: f in forms ==> ExisteCodigo(r.value.1, f.codigo)
  {
    match PrimerConflicto(forms, materias)
    case Some(e) => Err(e)
    case None =>
      var nuevas := NuevasDe(forms);
      var guardadas := GuardarTodas(materias, nuevas);
      GuardarTodasConserva(materias, nuevas);
      assert guardadas[..|materias|] == materias;
      assert forall f :: f in forms ==> NuevaDe(f) in nuevas;
      Ok((nuevas, guardadas))
  }

  /** Two courses of one batch whose names coincide ignoring case are both
      stored, although a single creation would reject the second. */
  lemma CrearLoteTalCualEscritoAdmiteColision()
    ensures var forms := [FormularioMateria("a", "X", TPI), FormularioMateria("A", "Y", TPI)];
            var r := CrearLoteTalCualEscrito(forms, []);
            SinColisiones([]) && r.Ok? && !SinColisiones(r.value.1)
  {
    var forms := [FormularioMateria("a", "X", TPI), FormularioMateria("A", "Y", TPI)];
    var nuevas := NuevasDe(forms);
    assert nuevas == [Materia("X", "a", [], TPI), Materia("Y", "A", [], TPI)];
    GuardarDosSinCodigoComun(nuevas[0], nuevas[1]);
    MinusculaColisionaConMayuscula();
  }

  /** Saving two courses with different codes into an empty table stores both. */
  lemma GuardarDosSinCodigoComun(x: Materia, y: Materia)
    requires x.codigo != y.codigo
    ensures GuardarTodas([], [x, y]) == [x, y]
  {
    assert Guardar([], x) == [x];
    assert Guardar([x], y) == [x, y] by {
      assert !ExisteCodigo([x], y.codigo);
    }
    assert [x, y][1..] == [y] && [y][1..] == [];
    assert GuardarTodas([], [x, y]) == GuardarTodas([x], [y]);
    assert GuardarTodas([x], [y]) == GuardarTodas([x, y], []);
  }

  /** "a" and "A" are the same name ignoring case. */
  lemma MinusculaColisionaConMayuscula()
    ensures Colisiona(Materia("X", "a", [], TPI), "A", "Y")
  {
    assert Mayusculas("a") == Mayusculas("A") by {
      assert Mayusculas("a")[0] == 'A';
      assert Mayusculas("A")[0] == 'A';
    }
  }

  /** Rows `desde` onward collide with no earlier row. */
  predicate SinColisionesDesde(ms: seq<Materia>, desde: nat)
  {
    forall i, j :: 0 <= i < j < |ms| && desde <= j ==> !Colisiona(ms[i], ms[j].nombre, ms[j].codigo)
  }

  /** Checking from row `|materias|` on is checking the new row against the
      old ones and then the rows after it. */
  lemma SinColisionesDesdePaso(materias: seq<Materia>, nueva: Materia, resto: seq<Materia>)
    ensures var todas := (materias + [nueva]) + resto;
      SinColisionesDesde(todas, |materias|) <==>
        (forall i :: 0 <= i < |materias| ==> !Colisiona(materias[i], nueva.nombre, nueva.codigo)) &&
        SinColisionesDesde(todas, |materias| + 1)
  {
    var todas := (materias + [nueva]) + resto;
    assert todas[|materias|] == nueva;
    assert forall i :: 0 <= i < |materias| ==> todas[i] == materias[i];
  }

  lemma NuevasDePaso(forms: seq<FormularioMateria>, materias: seq<Materia>)
    requires |forms| > 0
    ensures NuevasDe(forms) == [NuevaDe(forms[0])] + NuevasDe(forms[1..])
    ensures materias + NuevasDe(forms) == (materias + [NuevaDe(forms[0])]) + NuevasDe(forms[1..])
  {
    var a := NuevasDe(forms);
    var b := [NuevaDe(forms[0])] + NuevasDe(forms[1..]);
    forall i | 0 <= i < |forms| ensures a[i] == b[i] {
      if i > 0 {
        assert b[i] == NuevasDe(forms[1..])[i - 1] && forms[1..][i - 1] == forms[i];
      }
    }
    assert a == b;
  }

  /** The table the corrected batch checks form `j + 1` against: the stored
      courses, the first form's course, and the batch courses in between. */
  lemma TablaDePaso(forms: seq<FormularioMateria>, materias: seq<Materia>, j: nat)
    requires j < |forms| - 1
    ensures (materias + [NuevaDe(forms[0])]) + NuevasDe(forms[1..][..j]) == materias + NuevasDe(forms[..j + 1])
    ensures forms[1..][j] == forms[j + 1]
  {
    NuevasDePaso(forms[..j + 1], materias);
    assert forms[..j + 1][1..] == forms[1..][..j];
  }

  /** Form `i` is the first form of the batch that collides with the stored
      courses or with an earlier form's course, and the error is its conflict. */
  predicate ConflictoEnLote(forms: seq<FormularioMateria>, materias: seq<Materia>, i: nat, e: Error)
  {
    i < |forms| && ConflictoNombra(forms[i], materias + NuevasDe(forms[..i]), e) &&
    forall k :: 0 <= k < i ==> SinColision(forms[k], materias + NuevasDe(forms[..k]))
  }

  /** A conflict the rest of the batch finds, once the first course is
      stored, is a conflict of the whole batch one position further on. */
  lemma ConflictoEnLoteDesplazado(forms: seq<FormularioMateria>, materias: seq<Materia>, j: nat, e: Error)
    requires |forms| > 0 && SinColision(forms[0], materias)
    requires ConflictoEnLote(forms[1..], materias + [NuevaDe(forms[0])], j, e)
    ensures ConflictoEnLote(forms, materias, j + 1, e)
  {
    TablaDePaso(forms, materias, j);
    assert materias + NuevasDe(forms[..0]) == materias;
    forall k | 1 <= k < j + 1 ensures SinColision(forms[k], materias + NuevasDe(forms[..k])) {
      TablaDePaso(forms, materias, k - 1);
    }
  }

  /** crear(formulariosMaterias) as evidently intended: each form is checked
      against the table and against the courses of the batch before it, and
      nothing is stored unless every form passes. */
  function CrearLote(forms: seq<FormularioMateria>, materias: seq<Materia>): (r: Result<(seq<Materia>, seq<Materia>), Error>)
    ensures r.Ok? <==> SinColisionesDesde(materias + NuevasDe(forms), |materias|)
    ensures r.Err? ==> r.error.ConflictoConMateria?
    ensures r.Err? ==> exists i: nat :: ConflictoEnLote(forms, materias, i, r.error)
    ensures r.Ok? ==> r.value.0 == NuevasDe(forms) && r.value.1 == materias + r.value.0
    decreases |forms|
  {
    if |forms| == 0 then
      assert materias + NuevasDe(forms) == materias;
      Ok(([], materias))
    else
      var f := forms[0];
      var nueva := NuevaDe(f);
      NuevasDePaso(forms, materias);
      SinColisionesDesdePaso(materias, nueva, NuevasDe(forms[1..]));
      assert materias + NuevasDe(forms[..0]) == materias;
      match BuscarColision(materias, f.nombre, f.codigo)
      case Some(e) =>
        var r := ConflictoConMateria(f.nombre, f.codigo, e.nombre, e.codigo);
        assert ConflictoEnLote(forms, materias, 0, r);
        Err(r)
      case None =>
        match CrearLote(forms[1..], materias + [nueva])
        case Err(e) =>
          var j: nat :| ConflictoEnLote(forms[1..], materias + [nueva], j, e);
          ConflictoEnLoteDesplazado(forms, materias, j, e);
          Err(e)
        case Ok((creadas, ms)) =>
          Ok(([nueva] + creadas, ms))
  }

  /** The corrected batch keeps the table free of collisions. */
  lemma CrearLoteSinColisiones(forms: seq<FormularioMateria>, materias: seq<Materia>)
    requires SinColisiones(materias)
    requires CrearLote(forms, materias).Ok?
    ensures SinColisiones(CrearLote(forms, materias).value.1)
    ensures forall m :: m in CrearLote(forms, materias).value.0 ==> m.correlativas == []
  {
  }

  /** The corrected batch rejects the input the source lets through. */
  lemma CrearLoteRechazaColision()
    ensures CrearLote([FormularioMateria("a", "X", TPI), FormularioMateria("A", "Y", TPI)], []).Err?
  {
    var forms := [FormularioMateria("a", "X", TPI), FormularioMateria("A", "Y", TPI)];
    var todas := [] + NuevasDe(forms);
    assert todas[0] == Materia("X", "a", [], TPI) && todas[1] == Materia("Y", "A", [], TPI);
    assert Mayusculas("a") == Mayusculas("A") by {
      assert Mayusculas("a")[0] == 'A';
      assert Mayusculas("A")[0] == 'A';
    }
    assert Colisiona(todas[0], todas[1].nombre, todas[1].codigo);
  }

  // ---------------------------------------------------------------------
  // Prerequisite update

  /** One entry of a prerequisite update: the course and its new
      prerequisites, all given by name. */
  datatype MateriaConCorrelativas = MateriaConCorrelativas(nombre: string, correlativas: seq<string>)

  predicate NombreConocido(materias: seq<Materia>, nombre: string)
  {
    exists i :: 0 <= i < |materias| && IgualesIgnorandoCaso(materias[i].nombre, nombre)
  }

  /** The entry names a known course and only known prerequisites. */
  predicate EntradaValida(materias: seq<Materia>, it: MateriaConCorrelativas)
  {
    NombreConocido(materias, it.nombre) && forall k :: 0 <= k < |it.correlativas| ==> NombreConocido(materias, it.correlativas[k])
  }

  /** Same rows in the same places; only prerequisite lists may differ. */
  predicate SoloCorrelativasCambian(a: seq<Materia>, b: seq<Materia>)
  {
    |a| == |b| && forall j :: 0 <= j < |a| ==> b[j] == a[j].(correlativas := b[j].correlativas)
  }

  lemma MismosNombres(a: seq<Materia>, b: seq<Materia>)
    requires SoloCorrelativasCambian(a, b)
    ensures forall n :: NombreConocido(a, n) <==> NombreConocido(b, n)
    ensures forall it :: EntradaValida(a, it) <==> EntradaValida(b, it)
    ensures CodigosUnicos(a) <==> CodigosUnicos(b)
  {
    assert forall j :: 0 <= j < |a| ==> a[j].nombre == b[j].nombre && a[j].codigo == b[j].codigo;
  }

  /** Each name looked up in order; the first unknown name aborts. */
  function BuscarTodasPorNombre(materias: seq<Materia>, nombres: seq<string>): (r: Result<seq<Materia>, Error>)
    ensures r.Ok? <==> forall k :: 0 <= k < |nombres| ==> NombreConocido(materias, nombres[k])
    ensures r.Ok? ==> |r.value| == |nombres|
    ensures r.Ok? ==> NombradasPor(materias, r.value, nombres)
    ensures r.Err? ==> PrimerNombreDesconocido(materias, nombres, r.error)
  {
    if |nombres| == 0 then Ok([])
    else
      match BuscarPorNombre(materias, nombres[0])
      case None => Err(NoExisteMateriaConNombre(nombres[0]))
      case Some(m) =>
        var resto := BuscarTodasPorNombre(materias, nombres[1..]);
        DesplazarNombres(materias, nombres);
        match resto
        case Err(e) => Err(e)
        case Ok(ms) =>
          AnteponerNombrada(materias, m, ms, nombres);
          Ok([m] + ms)
  }

  /** Each of `ms` is a row of `materias` named, ignoring case, by the name at
      the same position of `nombres`. */
  predicate NombradasPor(materias: seq<Materia>, ms: seq<Materia>, nombres: seq<string>)
  {
    |ms| == |nombres| &&
    forall k :: 0 <= k < |nombres| ==> ms[k] in materias && IgualesIgnorandoCaso(ms[k].nombre, nombres[k])
  }

  lemma AnteponerNombrada(materias: seq<Materia>, m: Materia, ms: seq<Materia>, nombres: seq<string>)
    requires |nombres| > 0 && m in materias && IgualesIgnorandoCaso(m.nombre, nombres[0])
    requires NombradasPor(materias, ms, nombres[1..])
    ensures NombradasPor(materias, [m] + ms, nombres)
  {
    forall k | 0 <= k < |nombres|
      ensures ([m] + ms)[k] in materias && IgualesIgnorandoCaso(([m] + ms)[k].nombre, nombres[k])
    {
      if k > 0 {
        assert ([m] + ms)[k] == ms[k - 1] && nombres[k] == nombres[1..][k - 1];
      }
    }
  }

  /** `e` names the first of `nombres` that is not a known course. */
  predicate PrimerNombreDesconocido(materias: seq<Materia>, nombres: seq<string>, e: Error)
  {
    exists k :: 0 <= k < |nombres| && !NombreConocido(materias, nombres[k]) && e == NoExisteMateriaConNombre(nombres[k]) &&
      (forall j :: 0 <= j < k ==> NombreConocido(materias, nombres[j]))
  }

  lemma DesplazarNombres(materias: seq<Materia>, nombres: seq<string>)
    requires |nombres| > 0 && NombreConocido(materias, nombres[0])
    ensures (forall k :: 0 <= k < |nombres| ==> NombreConocido(materias, nombres[k])) <==>
            (forall k :: 0 <= k < |nombres[1..]| ==> NombreConocido(materias, nombres[1..][k]))
    ensures forall e :: PrimerNombreDesconocido(materias, nombres[1..], e) ==> PrimerNombreDesconocido(materias, nombres, e)
  {
    assert forall k :: 1 <= k < |nombres| ==> nombres[k] == nombres[1..][k - 1];
    forall e | PrimerNombreDesconocido(materias, nombres[1..], e)
      ensures PrimerNombreDesconocido(materias, nombres, e)
    {
      var k :| 0 <= k < |nombres[1..]| && !NombreConocido(materias, nombres[1..][k]) && e == NoExisteMateriaConNombre(nombres[1..][k]) &&
        (forall j :: 0 <= j < k ==> NombreConocido(materias, nombres[1..][j]));
      assert nombres[k + 1] == nombres[1..][k];
    }
  }

  lemma MismosDesconocidos(a: seq<Materia>, b: seq<Materia>, nombres: seq<string>, e: Error)
    requires SoloCorrelativasCambian(a, b)
    ensures PrimerNombreDesconocido(a, nombres, e) <==> PrimerNombreDesconocido(b, nombres, e)
  {
    MismosNombres(a, b);
  }

  /** Materia.actualizarCorrelativas, taken as replacing the prerequisite list. */
  function ConCorrelativas(m: Materia, correlativas: seq<Materia>): (r: Materia)
    ensures r.correlativas == Codigos(correlativas)
    ensures r == m.(correlativas := r.correlativas)
  {
    m.(correlativas := Codigos(correlativas))
  }

  lemma GuardarActualizada(materias: seq<Materia>, m: Materia, correlativas: seq<Materia>)
    requires CodigosUnicos(materias) && m in materias
    ensures var b := Guardar(materias, ConCorrelativas(m, correlativas));
      && SoloCorrelativasCambian(materias, b)
      && CodigosUnicos(b)
      && (forall j :: 0 <= j < |materias| && materias[j] != m ==> b[j] == materias[j])
  {
    var nueva := ConCorrelativas(m, correlativas);
    var b := Guardar(materias, nueva);
    var i :| 0 <= i < |materias| && materias[i] == m;
    assert ExisteCodigo(materias, nueva.codigo);
    assert b[i] == nueva;
    MismosNombres(materias, b);
  }

  /** One entry of the update: look the course up by name, look its new
      prerequisites up by name, replace its list and save it. */
  function ActualizarUna(it: MateriaConCorrelativas, materias: seq<Materia>): (r: Result<(Materia, seq<Materia>), Error>)
    ensures r.Ok? <==> EntradaValida(materias, it)
    ensures r.Err? ==> (r.error == MateriaNoEncontrada <==> !NombreConocido(materias, it.nombre))
    ensures r.Err? ==> r.error == MateriaNoEncontrada || r.error.NoExisteMateriaConNombre?
    ensures r.Err? && NombreConocido(materias, it.nombre) ==> PrimerNombreDesconocido(materias, it.correlativas, r.error)
    ensures r.Ok? ==> |r.value.1| == |materias|
  {
    match BuscarPorNombre(materias, it.nombre)
    case None => Err(MateriaNoEncontrada)
    case Some(m) =>
      match BuscarTodasPorNombre(materias, it.correlativas)
      case Err(e) => Err(e)
      case Ok(cs) =>
        var actualizada := ConCorrelativas(m, cs);
        assert ExisteCodigo(materias, actualizada.codigo) by {
          var i :| 0 <= i < |materias| && materias[i] == m;
        }
        Ok((actualizada, Guardar(materias, actualizada)))
  }

  /** The updated course keeps its name, is stored, and its new list holds,
      in order, the codes of courses whose names match the given ones. */
  lemma ActualizarUnaContenido(it: MateriaConCorrelativas, materias: seq<Materia>)
    requires EntradaValida(materias, it)
    ensures var (m, b) := ActualizarUna(it, materias).value;
      && m in b
      && IgualesIgnorandoCaso(m.nombre, it.nombre)
      && |m.correlativas| == |it.correlativas|
      && forall k :: 0 <= k < |it.correlativas| ==>
           exists c :: c in materias && c.codigo == m.correlativas[k] && IgualesIgnorandoCaso(c.nombre, it.correlativas[k])
  {
    var m := BuscarPorNombre(materias, it.nombre).value;
    var cs := BuscarTodasPorNombre(materias, it.correlativas).value;
    forall k | 0 <= k < |it.correlativas|
      ensures exists c :: c in materias && c.codigo == ConCorrelativas(m, cs).correlativas[k] && IgualesIgnorandoCaso(c.nombre, it.correlativas[k])
    {
      assert cs[k] in materias && IgualesIgnorandoCaso(cs[k].nombre, it.correlativas[k]);
    }
  }

  /** With course codes unique, one entry changes only prerequisite lists,
      and only of the course it names. */
  lemma ActualizarUnaSoloCorrelativas(it: MateriaConCorrelativas, materias: seq<Materia>)
    requires CodigosUnicos(materias)
    requires EntradaValida(materias, it)
    ensures var b := ActualizarUna(it, materias).value.1;
      && SoloCorrelativasCambian(materias, b)
      && CodigosUnicos(b)
      && forall j :: 0 <= j < |materias| && !IgualesIgnorandoCaso(materias[j].nombre, it.nombre) ==> b[j] == materias[j]
  {
    var m := BuscarPorNombre(materias, it.nombre).value;
    var cs := BuscarTodasPorNombre(materias, it.correlativas).value;
    GuardarActualizada(materias, m, cs);
  }

  /** actualizarCorrelativas(materiasConCorrelativas): the updated courses in
      input order and the table after saving them one by one. */
  function ActualizarCorrelativas(items: seq<MateriaConCorrelativas>, materias: seq<Materia>): (r: Result<(seq<Materia>, seq<Materia>), Error>)
    ensures r.Ok? ==> |r.value.0| == |items| && |r.value.1| == |materias|
    ensures r.Err? ==> r.error == MateriaNoEncontrada || r.error.NoExisteMateriaConNombre?
    decreases |items|
  {
    if |items| == 0 then Ok(([], materias))
    else
      match ActualizarUna(items[0], materias)
      case Err(e) => Err(e)
      case Ok((actualizada, siguiente)) =>
        match ActualizarCorrelativas(items[1..], siguiente)
        case Err(e) => Err(e)
        case Ok((actualizadas, ms)) => Ok(([actualizada] + actualizadas, ms))
  }

  /** Entry `k` is the first entry that names an unknown course or
      prerequisite, and `e` is the error it raises. */
  predicate InvalidaEn(materias: seq<Materia>, items: seq<MateriaConCorrelativas>, e: Error, k: nat)
  {
    k < |items| && !EntradaValida(materias, items[k]) &&
    (forall j :: 0 <= j < k ==> EntradaValida(materias, items[j])) &&
    (e == MateriaNoEncontrada <==> !NombreConocido(materias, items[k].nombre)) &&
    (NombreConocido(materias, items[k].nombre) ==> PrimerNombreDesconocido(materias, items[k].correlativas, e))
  }

  /** The first entry that names an unknown course or prerequisite decides the error. */
  predicate PrimeraEntradaInvalida(materias: seq<Materia>, items: seq<MateriaConCorrelativas>, e: Error)
  {
    exists k: nat :: k < |items| && InvalidaEn(materias, items, e, k)
  }

  lemma DesplazarEntradas(materias: seq<Materia>, siguiente: seq<Materia>, items: seq<MateriaConCorrelativas>, e: Error)
    requires SoloCorrelativasCambian(materias, siguiente)
    requires |items| > 0 && EntradaValida(materias, items[0])
    requires PrimeraEntradaInvalida(siguiente, items[1..], e)
    ensures PrimeraEntradaInvalida(materias, items, e)
  {
    var k: nat :| k < |items[1..]| && InvalidaEn(siguiente, items[1..], e, k);
    DesplazarInvalida(materias, siguiente, items, e, k);
  }

  lemma DesplazarInvalida(materias: seq<Materia>, siguiente: seq<Materia>, items: seq<MateriaConCorrelativas>, e: Error, k: nat)
    requires SoloCorrelativasCambian(materias, siguiente)
    requires |items| > 0 && EntradaValida(materias, items[0])
    requires InvalidaEn(siguiente, items[1..], e, k)
    ensures InvalidaEn(materias, items, e, k + 1)
  {
    MismosNombres(materias, siguiente);
    assert items[k + 1] == items[1..][k];
    MismosDesconocidos(materias, siguiente, items[k + 1].correlativas, e);
    forall j | 0 <= j < k + 1 ensures EntradaValida(materias, items[j]) {
      if j > 0 {
        assert items[j] == items[1..][j - 1];
      }
    }
  }

  /** Every entry names a known course and only known prerequisites. */
  predicate TodasValidas(materias: seq<Materia>, items: seq<MateriaConCorrelativas>)
  {
    forall k :: 0 <= k < |items| ==> EntradaValida(materias, items[k])
  }

  lemma TodasValidasDesplazado(materias: seq<Materia>, siguiente: seq<Materia>, items: seq<MateriaConCorrelativas>)
    requires SoloCorrelativasCambian(materias, siguiente)
    requires |items| > 0 && EntradaValida(materias, items[0])
    ensures TodasValidas(materias, items) <==> TodasValidas(siguiente, items[1..])
  {
    MismosNombres(materias, siguiente);
    assert forall k :: 1 <= k < |items| ==> items[k] == items[1..][k - 1];
  }

  /** One step of the update: the first entry, then the rest against the
      table it left. */
  lemma PasoActualizar(items: seq<MateriaConCorrelativas>, materias: seq<Materia>)
    requires |items| > 0
    ensures var u := ActualizarUna(items[0], materias);
      ActualizarCorrelativas(items, materias).Ok? <==> u.Ok? && ActualizarCorrelativas(items[1..], u.value.1).Ok?
  {
  }

  /** With course codes unique, the update fails exactly when some entry
      names an unknown course or prerequisite. */
  lemma {:induction false} ActualizarCorrelativasFalla(items: seq<MateriaConCorrelativas>, materias: seq<Materia>)
    requires CodigosUnicos(materias)
    ensures ActualizarCorrelativas(items, materias).Ok? <==> TodasValidas(materias, items)
    decreases |items|
  {
    if |items| > 0 {
      PasoActualizar(items, materias);
      if EntradaValida(materias, items[0]) {
        var siguiente := ActualizarUna(items[0], materias).value.1;
        ActualizarUnaSoloCorrelativas(items[0], materias);
        ActualizarCorrelativasFalla(items[1..], siguiente);
        TodasValidasDesplazado(materias, siguiente, items);
      }
    }
  }

  /** With course codes unique, the first entry that names an unknown
      course or prerequisite decides the error. */
  lemma {:induction false} ActualizarCorrelativasPrimerError(items: seq<MateriaConCorrelativas>, materias: seq<Materia>)
    requires CodigosUnicos(materias)
    requires !TodasValidas(materias, items)
    ensures ActualizarCorrelativas(items, materias).Err?
    ensures PrimeraEntradaInvalida(materias, items, ActualizarCorrelativas(items, materias).error)
    decreases |items|
  {
    ActualizarCorrelativasFalla(items, materias);
    if !EntradaValida(materias, items[0]) {
      assert InvalidaEn(materias, items, ActualizarCorrelativas(items, materias).error, 0);
    } else {
      var siguiente := ActualizarUna(items[0], materias).value.1;
      ActualizarUnaSoloCorrelativas(items[0], materias);
      TodasValidasDesplazado(materias, siguiente, items);
      ActualizarCorrelativasPrimerError(items[1..], siguiente);
      DesplazarEntradas(materias, siguiente, items, ActualizarCorrelativas(items, materias).error);
    }
  }

  lemma SoloCorrelativasTransitivo(a: seq<Materia>, b: seq<Materia>, c: seq<Materia>)
    requires SoloCorrelativasCambian(a, b) && SoloCorrelativasCambian(b, c)
    ensures SoloCorrelativasCambian(a, c)
  {
    forall j | 0 <= j < |a| ensures c[j] == a[j].(correlativas := c[j].correlativas) {
      assert b[j] == a[j].(correlativas := b[j].correlativas);
    }
  }

  /** With course codes unique, a successful update changes nothing but
      prerequisite lists. */
  lemma {:induction false} ActualizarCorrelativasSoloCorrelativas(items: seq<MateriaConCorrelativas>, materias: seq<Materia>)
    requires CodigosUnicos(materias)
    requires TodasValidas(materias, items)
    ensures ActualizarCorrelativas(items, materias).Ok?
    ensures SoloCorrelativasCambian(materias, ActualizarCorrelativas(items, materias).value.1)
    decreases |items|
  {
    ActualizarCorrelativasFalla(items, materias);
    if |items| > 0 {
      var siguiente := ActualizarUna(items[0], materias).value.1;
      ActualizarUnaSoloCorrelativas(items[0], materias);
      TodasValidasDesplazado(materias, siguiente, items);
      ActualizarCorrelativasSoloCorrelativas(items[1..], siguiente);
      SoloCorrelativasTransitivo(materias, siguiente, ActualizarCorrelativas(items, materias).value.1);
    }
  }

  /** The code of the course a name designates: the first row whose name
      matches it ignoring case. */
  function CodigoDeNombre(materias: seq<Materia>, nombre: string): (r: string)
    requires NombreConocido(materias, nombre)
    ensures exists i :: 0 <= i < |materias| && materias[i].codigo == r && IgualesIgnorandoCaso(materias[i].nombre, nombre)
  {
    materias[IndicePorNombre(materias, nombre).value].codigo
  }

  /** The codes the names designate, in the order of the names. */
  function CodigosDeNombres(materias: seq<Materia>, nombres: seq<string>): (r: seq<string>)
    requires forall k :: 0 <= k < |nombres| ==> NombreConocido(materias, nombres[k])
    ensures |r| == |nombres| && forall k :: 0 <= k < |nombres| ==> r[k] == CodigoDeNombre(materias, nombres[k])
  {
    seq(|nombres|, k requires 0 <= k < |nombres| => CodigoDeNombre(materias, nombres[k]))
  }

  /** Looking the names up one by one finds the courses they designate. */
  lemma {:induction false} BuscarTodasCodigos(materias: seq<Materia>, nombres: seq<string>)
    requires forall k :: 0 <= k < |nombres| ==> NombreConocido(materias, nombres[k])
    ensures BuscarTodasPorNombre(materias, nombres).Ok?
    ensures Codigos(BuscarTodasPorNombre(materias, nombres).value) == CodigosDeNombres(materias, nombres)
    decreases |nombres|
  {
    if |nombres| > 0 {
      BuscarPorNombreEsLaPrimera(materias, nombres[0]);
      assert forall k :: 0 <= k < |nombres[1..]| ==> nombres[1..][k] == nombres[k + 1];
      BuscarTodasCodigos(materias, nombres[1..]);
      var ms := BuscarTodasPorNombre(materias, nombres[1..]).value;
      var todas := BuscarTodasPorNombre(materias, nombres).value;
      assert todas == [BuscarPorNombre(materias, nombres[0]).value] + ms;
      forall k | 0 <= k < |nombres| ensures Codigos(todas)[k] == CodigosDeNombres(materias, nombres)[k] {
        if k > 0 {
          assert todas[k] == ms[k - 1];
          assert Codigos(ms)[k - 1] == CodigosDeNombres(materias, nombres[1..])[k - 1];
        }
      }
    }
  }

  /** Rows keep their names when only prerequisites change, so every name
      designates the same row. */
  lemma MismoIndicePorNombre(a: seq<Materia>, b: seq<Materia>, nombre: string)
    requires SoloCorrelativasCambian(a, b)
    ensures IndicePorNombre(a, nombre) == IndicePorNombre(b, nombre)
  {
    assert forall j :: 0 <= j < |a| ==> a[j].nombre == b[j].nombre;
  }

  lemma MismosCodigosDeNombres(a: seq<Materia>, b: seq<Materia>, nombres: seq<string>)
    requires SoloCorrelativasCambian(a, b)
    requires forall k :: 0 <= k < |nombres| ==> NombreConocido(a, nombres[k])
    ensures forall k :: 0 <= k < |nombres| ==> NombreConocido(b, nombres[k])
    ensures CodigosDeNombres(a, nombres) == CodigosDeNombres(b, nombres)
  {
    MismosNombres(a, b);
    forall k | 0 <= k < |nombres| ensures CodigoDeNombre(a, nombres[k]) == CodigoDeNombre(b, nombres[k]) {
      MismoIndicePorNombre(a, b, nombres[k]);
    }
  }

  /** The entry updates row `j`: the first row its name matches. */
  predicate Designa(materias: seq<Materia>, it: MateriaConCorrelativas, j: nat)
  {
    IndicePorNombre(materias, it.nombre) == Some(j)
  }

  /** With course codes unique, a valid entry gives the row it designates the
      codes of its prerequisites' names, and leaves every other row as it was. */
  lemma ActualizarUnaDesigna(it: MateriaConCorrelativas, materias: seq<Materia>, j: nat)
    requires CodigosUnicos(materias) && EntradaValida(materias, it) && j < |materias|
    ensures ActualizarUna(it, materias).Ok?
    ensures ActualizarUna(it, materias).value.1[j] ==
      if Designa(materias, it, j) then materias[j].(correlativas := CodigosDeNombres(materias, it.correlativas)) else materias[j]
  {
    BuscarPorNombreEsLaPrimera(materias, it.nombre);
    BuscarTodasCodigos(materias, it.correlativas);
    var i := IndicePorNombre(materias, it.nombre).value;
    var nueva := ConCorrelativas(materias[i], BuscarTodasPorNombre(materias, it.correlativas).value);
    var b := Guardar(materias, nueva);
    assert ActualizarUna(it, materias).value.1 == b;
    if j == i {
      assert forall l :: 0 <= l < i ==> materias[l].codigo != nueva.codigo;
    } else {
      assert materias[j].codigo != nueva.codigo;
    }
  }

  /** The prerequisite codes row `j` ends with after the entries: those of
      the last entry that designates it, or `actuales` when none does. */
  function CorrelativasFinales(items: seq<MateriaConCorrelativas>, materias: seq<Materia>, j: nat, actuales: seq<string>): seq<string>
    requires TodasValidas(materias, items)
    decreases |items|
  {
    if |items| == 0 then actuales
    else
      assert TodasValidas(materias, items[1..]) by {
        assert forall k :: 0 <= k < |items[1..]| ==> items[1..][k] == items[k + 1];
      }
      CorrelativasFinales(items[1..], materias, j, if Designa(materias, items[0], j) then CodigosDeNombres(materias, items[0].correlativas) else actuales)
  }

  /** One step of the fold: the first entry, then the rest. */
  lemma PasoCorrelativasFinales(items: seq<MateriaConCorrelativas>, materias: seq<Materia>, j: nat, actuales: seq<string>)
    requires |items| > 0 && TodasValidas(materias, items)
    ensures TodasValidas(materias, items[1..])
    ensures EntradaValida(materias, items[0])
    ensures CorrelativasFinales(items, materias, j, actuales) ==
      CorrelativasFinales(items[1..], materias, j, if Designa(materias, items[0], j) then CodigosDeNombres(materias, items[0].correlativas) else actuales)
  {
    assert forall k :: 0 <= k < |items[1..]| ==> items[1..][k] == items[k + 1];
  }

  lemma {:induction false} CorrelativasFinalesNinguna(items: seq<MateriaConCorrelativas>, materias: seq<Materia>, j: nat, actuales: seq<string>)
    requires TodasValidas(materias, items)
    requires forall k :: 0 <= k < |items| ==> !Designa(materias, items[k], j)
    ensures CorrelativasFinales(items, materias, j, actuales) == actuales
    decreases |items|
  {
    if |items| > 0 {
      PasoCorrelativasFinales(items, materias, j, actuales);
      assert forall k :: 0 <= k < |items[1..]| ==> items[1..][k] == items[k + 1];
      CorrelativasFinalesNinguna(items[1..], materias, j, actuales);
    }
  }

  lemma {:induction false} CorrelativasFinalesUltima(items: seq<MateriaConCorrelativas>, materias: seq<Materia>, j: nat, actuales: seq<string>, k: nat)
    requires TodasValidas(materias, items)
    requires k < |items| && Designa(materias, items[k], j)
    requires forall l :: k < l < |items| ==> !Designa(materias, items[l], j)
    ensures CorrelativasFinales(items, materias, j, actuales) == CodigosDeNombres(materias, items[k].correlativas)
    decreases |items|
  {
    PasoCorrelativasFinales(items, materias, j, actuales);
    assert forall l :: 0 <= l < |items[1..]| ==> items[1..][l] == items[l + 1];
    if k == 0 {
      CorrelativasFinalesNinguna(items[1..], materias, j, CodigosDeNombres(materias, items[0].correlativas));
    } else {
      var siguientes := if Designa(materias, items[0], j) then CodigosDeNombres(materias, items[0].correlativas) else actuales;
      CorrelativasFinalesUltima(items[1..], materias, j, siguientes, k - 1);
    }
  }

  lemma {:induction false} CorrelativasFinalesSoloCorrelativas(
    items: seq<MateriaConCorrelativas>, a: seq<Materia>, b: seq<Materia>, j: nat, actuales: seq<string>)
    requires SoloCorrelativasCambian(a, b) && TodasValidas(a, items)
    ensures TodasValidas(b, items)
    ensures CorrelativasFinales(items, a, j, actuales) == CorrelativasFinales(items, b, j, actuales)
    decreases |items|
  {
    MismosNombres(a, b);
    if |items| > 0 {
      MismoIndicePorNombre(a, b, items[0].nombre);
      PasoCorrelativasFinales(items, a, j, actuales);
      MismosCodigosDeNombres(a, b, items[0].correlativas);
      var siguientes := if Designa(a, items[0], j) then CodigosDeNombres(a, items[0].correlativas) else actuales;
      CorrelativasFinalesSoloCorrelativas(items[1..], a, b, j, siguientes);
      assert TodasValidas(b, items) by {
        assert forall l :: 1 <= l < |items| ==> items[l] == items[1..][l - 1];
      }
      PasoCorrelativasFinales(items, b, j, actuales);
    }
  }

  /** One successful step of the update: the rest runs on the table the first
      entry left. */
  lemma PasoActualizarTabla(items: seq<MateriaConCorrelativas>, materias: seq<Materia>)
    requires |items| > 0 && ActualizarUna(items[0], materias).Ok?
    requires ActualizarCorrelativas(items[1..], ActualizarUna(items[0], materias).value.1).Ok?
    ensures ActualizarCorrelativas(items, materias).Ok?
    ensures ActualizarCorrelativas(items, materias).value.1 ==
      ActualizarCorrelativas(items[1..], ActualizarUna(items[0], materias).value.1).value.1
  {
  }

  /** With course codes unique, after a successful update every row is as it
      was except for its prerequisites, which are those of the last entry
      that designates it. */
  lemma {:induction false} ActualizarCorrelativasFila(items: seq<MateriaConCorrelativas>, materias: seq<Materia>, j: nat)
    requires CodigosUnicos(materias) && TodasValidas(materias, items) && j < |materias|
    ensures ActualizarCorrelativas(items, materias).Ok?
    ensures ActualizarCorrelativas(items, materias).value.1[j] ==
      materias[j].(correlativas := CorrelativasFinales(items, materias, j, materias[j].correlativas))
    decreases |items|
  {
    ActualizarCorrelativasFalla(items, materias);
    if |items| > 0 {
      var siguiente := ActualizarUna(items[0], materias).value.1;
      ActualizarUnaSoloCorrelativas(items[0], materias);
      ActualizarUnaDesigna(items[0], materias, j);
      TodasValidasDesplazado(materias, siguiente, items);
      ActualizarCorrelativasFila(items[1..], siguiente, j);
      PasoActualizarTabla(items, materias);
      var siguientes := if Designa(materias, items[0], j) then CodigosDeNombres(materias, items[0].correlativas) else materias[j].correlativas;
      assert siguiente[j] == materias[j].(correlativas := siguientes);
      PasoCorrelativasFinales(items, materias, j, materias[j].correlativas);
      CorrelativasFinalesSoloCorrelativas(items[1..], materias, siguiente, j, siguientes);
    }
  }

  /** With course codes unique, a successful update leaves every row that no
      entry designates exactly as it was. */
  lemma ActualizarCorrelativasNoNombradas(items: seq<MateriaConCorrelativas>, materias: seq<Materia>, j: nat)
    requires CodigosUnicos(materias)
    requires TodasValidas(materias, items)
    requires j < |materias|
    requires forall k :: 0 <= k < |items| ==> !Designa(materias, items[k], j)
    ensures ActualizarCorrelativas(items, materias).Ok?
    ensures ActualizarCorrelativas(items, materias).value.1[j] == materias[j]
  {
    ActualizarCorrelativasFila(items, materias, j);
    CorrelativasFinalesNinguna(items, materias, j, materias[j].correlativas);
  }

  /** With course codes unique, the last entry that designates a row decides
      its prerequisites: the codes of the courses its names designate. */
  lemma ActualizarCorrelativasUltimaGana(items: seq<MateriaConCorrelativas>, materias: seq<Materia>, j: nat, k: nat)
    requires CodigosUnicos(materias)
    requires TodasValidas(materias, items)
    requires j < |materias| && k < |items| && Designa(materias, items[k], j)
    requires forall l :: k < l < |items| ==> !Designa(materias, items[l], j)
    ensures ActualizarCorrelativas(items, materias).Ok?
    ensures ActualizarCorrelativas(items, materias).value.1[j].correlativas == CodigosDeNombres(materias, items[k].correlativas)
  {
    ActualizarCorrelativasFila(items, materias, j);
    CorrelativasFinalesUltima(items, materias, j, materias[j].correlativas, k);
  }

  /** obtener(codigo). */
  function Obtener(codigo: string, materias: seq<Materia>): (r: Result<Materia, Error>)
    ensures r.Ok? <==> ExisteCodigo(materias, codigo)
    ensures r.Ok? ==> r.value in materias && r.value.codigo == codigo
    ensures r.Err? ==> r.error == MateriaNoEncontrada
  {
    match BuscarPorCodigo(materias, codigo)
    case None => Err(MateriaNoEncontrada)
    case Some(m) => Ok(m)
  }
}
