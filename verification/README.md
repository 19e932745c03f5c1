# Overflow-seat enrolment core, modelled in Dafny

This project models the core of a university's post-enrolment back end. After regular enrolment closes, students request overflow seats ("sobrecupos") in course sections ("comisiones"). The modelled pieces are:

- **the section entity** (`Comision`): an overflow-seat counter with guarded allocate and release, a derived "available" count, wholesale schedule replacement, identity by term, course and number, and schedule overlap;
- **the academic-record entry** (`MateriaCursada`): its defaults and its status change;
- **the course repository's two reporting queries**:
  - the courses a student may still request in a term;
  - per course, the total and pending request counts, most pending first;
- **the request repository's pending-request query**, paired with the owning forms;
- **the course service**: creation, one at a time or in a batch, prerequisite update, and look-up;
- **the section service**:
  - loading a term's academic offer, with one conflict report per rejected line;
  - the term upsert;
  - schedule updates with per-item conflicts;
  - the offer listing and the "no offer" error;
  - look-up, listing by course, deletion and single creation.

Tables are sequences of rows in table order. A repository look-up that returns one entity yields the first matching row. Every service operation takes the tables and returns the tables it leaves behind. A thrown exception is an `Err` of a structured `Error` (module `Errores`), with one constructor per message. Because a failed transaction stores nothing, an `Err` carries no tables.

Files and modules:

- `resultados.dfy` (`Resultados`): `Option`, `Result`, and the first-match search.
- `texto.dfy` (`Texto`): case-insensitive comparison and the `LIKE '%p%'` test.
- `catalogo.dfy` (`Catalogo`): courses, terms, and the derived look-ups of the course repository.
- `errores.dfy` (`Errores`): the error constructors.
- `comision.dfy` (`Comisiones`): the section entity.
- `materia_cursada.dfy` (`HistoriaAcademica`): the record entry.
- `inscripciones.dfy` (`Inscripciones`): requests and forms, as far as the queries read them.
- `materia_repositorio.dfy` (`MateriaRepositorio`): the two course queries.
- `solicitud_repositorio.dfy` (`SolicitudRepositorio`): the pending-request query.
- `materia_servicio.dfy` (`MateriaServicio`): the course service.
- `comision_servicio.dfy` (`ComisionServicio`): the section service.

## Model

| member | source | states |
|---|---|---|
| Comisiones.NuevaComision | src/main/kotlin/ar/edu/unq/postinscripciones/model/comision/Comision.kt:12-38 | A new section keeps the given course, number, term, schedule, seats and modality, and has no overflow seat taken. So its available count equals its overflow total, and the counter invariant holds whenever that total is not negative. |
| Comisiones.SobrecuposDisponibles | src/main/kotlin/ar/edu/unq/postinscripciones/model/comision/Comision.kt:38 | Under the invariant 0 <= occupied <= total, the available count lies in [0, total]. It is 0 exactly when every seat is taken and equals the total exactly when none is. |
| Comisiones.AsignarSobrecupo | src/main/kotlin/ar/edu/unq/postinscripciones/model/comision/Comision.kt:45-52 | Succeeds iff a seat is free. Then occupied rises by exactly one and available falls by one, while id, identity, schedule, modality and totals stay the same and the invariant is preserved. Otherwise it fails with "No hay sobrecupos disponibles". |
| Comisiones.QuitarSobrecupo | src/main/kotlin/ar/edu/unq/postinscripciones/model/comision/Comision.kt:54-61 | Succeeds iff a seat is taken. Then occupied falls by exactly one and available rises by one, while id, identity, schedule, modality and totals stay the same and the invariant is preserved. Otherwise it fails with "No hay sobrecupos ocupados". |
| Comisiones.AsignarLuegoQuitar | src/main/kotlin/ar/edu/unq/postinscripciones/model/comision/Comision.kt:45-61 | Taking a free seat and giving it back returns the identical section, so the available count is restored. |
| Comisiones.QuitarLuegoAsignar | src/main/kotlin/ar/edu/unq/postinscripciones/model/comision/Comision.kt:45-61 | Giving a taken seat back and taking it again returns the identical section. |
| Comisiones.UltimoSobrecupo | src/main/kotlin/ar/edu/unq/postinscripciones/model/comision/Comision.kt:45-52 | With exactly one free seat, the first allocation succeeds and the second fails with "No hay sobrecupos disponibles". |
| Comisiones.Aplicar | src/main/kotlin/ar/edu/unq/postinscripciones/model/comision/Comision.kt:45-61 | Any run of allocations and releases from a valid counter keeps it valid, so seats never go negative or above the overflow total, and keeps the section's identity. |
| Comisiones.ModificarHorarios | src/main/kotlin/ar/edu/unq/postinscripciones/model/comision/Comision.kt:40-43 | The schedule becomes exactly the new list. Id, course, number, term, seats, counter and modality are untouched. |
| Comisiones.UltimoHorarioGana | src/main/kotlin/ar/edu/unq/postinscripciones/model/comision/Comision.kt:40-43 | Only the last schedule replacement counts, and replacing a schedule with a list equal to it changes nothing. |
| Comisiones.EsLaComision | src/main/kotlin/ar/edu/unq/postinscripciones/model/comision/Comision.kt:63-69 | Two sections are the same iff their term, course and number all coincide. |
| Comisiones.EsLaComisionEsEquivalencia | src/main/kotlin/ar/edu/unq/postinscripciones/model/comision/Comision.kt:63-69 | Section identity is reflexive, symmetric and transitive. |
| Comisiones.TieneSuperposicionHoraria | src/main/kotlin/ar/edu/unq/postinscripciones/model/comision/Comision.kt:71-73 | A section overlaps another iff some block of its schedule overlaps it. A section without blocks overlaps nothing. |
| Comisiones.SinHorariosNoSeSuperpone | src/main/kotlin/ar/edu/unq/postinscripciones/model/comision/Comision.kt:71-73 | After its schedule is cleared, a section overlaps no other. |
| HistoriaAcademica.NuevaMateriaCursada | src/main/kotlin/ar/edu/unq/postinscripciones/model/MateriaCursada.kt:7-13 | A new record entry is pending approval (PA), dated today, and refers to the given course. |
| HistoriaAcademica.CambiarEstado | src/main/kotlin/ar/edu/unq/postinscripciones/model/MateriaCursada.kt:20-23 | A status change sets the status to exactly the new one, stamps today's date, and keeps the course. |
| HistoriaAcademica.CambiarEstadoOlvidaLoAnterior | src/main/kotlin/ar/edu/unq/postinscripciones/model/MateriaCursada.kt:20-23 | After a status change nothing of the previous status or date survives. Two entries of one course become equal. |
| HistoriaAcademica.UltimoEstadoGana | src/main/kotlin/ar/edu/unq/postinscripciones/model/MateriaCursada.kt:20-23 | Of two status changes only the last counts, whether the entry started with the defaults or not. |
| Catalogo.BuscarPorCodigo | src/main/kotlin/ar/edu/unq/postinscripciones/persistence/MateriaRepository.kt:16 | Finds a course iff one has that code. The course found is in the table and has that code. |
| Catalogo.IndicePorNombre | src/main/kotlin/ar/edu/unq/postinscripciones/persistence/MateriaRepository.kt:18 | The look-up by name finds a row iff some name matches ignoring case, and then it finds the first such row. |
| Catalogo.BuscarPorNombre | src/main/kotlin/ar/edu/unq/postinscripciones/persistence/MateriaRepository.kt:18 | Finds a course iff one has that name, ignoring case. The course found is in the table and its name matches. |
| Catalogo.BuscarColision | src/main/kotlin/ar/edu/unq/postinscripciones/persistence/MateriaRepository.kt:17 | Finds a course iff one has the name or the code, each ignoring case. The course found collides. |
| Catalogo.TodasPorCodigoEn | src/main/kotlin/ar/edu/unq/postinscripciones/persistence/MateriaRepository.kt:19 | A course is returned iff it is in the table and its code is listed. |
| Catalogo.Guardar | src/main/kotlin/ar/edu/unq/postinscripciones/persistence/MateriaRepository.kt:14 | Saving replaces the first row with the course's code in place and leaves rows with other codes alone. A course with a new code is appended. The saved course is always in the result, and every old row either stays as it was or becomes the saved course. |
| Catalogo.GuardarTodas | src/main/kotlin/ar/edu/unq/postinscripciones/service/MateriaService.kt:53 | After saving a list, every row comes from the table or the list, the table does not shrink, and the last course saved is present. |
| Catalogo.GuardarTodasConserva | src/main/kotlin/ar/edu/unq/postinscripciones/service/MateriaService.kt:53 | After saving a list, every old row is still at its place, either as it was or replaced by a saved course with its code. Every saved course's code is in the table. |
| MateriaRepositorio.FilasDe | src/main/kotlin/ar/edu/unq/postinscripciones/persistence/MateriaRepository.kt:20-27 | One course's rows: a row for each of its sections in the term when it passes the availability rule, and none otherwise. |
| MateriaRepositorio.MateriasDisponibles | src/main/kotlin/ar/edu/unq/postinscripciones/persistence/MateriaRepository.kt:20-29 | Sound: no returned course is approved; each returned course has all its prerequisites approved, belongs to the student's program or to SIMULTANEIDAD, and is paired with one of its own sections in the term. Complete: every such (course, section) pair is returned. |
| MateriaRepositorio.SinSeccionNoDisponible | src/main/kotlin/ar/edu/unq/postinscripciones/persistence/MateriaRepository.kt:23-27 | A course with no section in the term is never returned. |
| MateriaRepositorio.DisponibilidadMonotona | src/main/kotlin/ar/edu/unq/postinscripciones/persistence/MateriaRepository.kt:24-26 | Approving more courses never hides a row whose course is still not approved. |
| MateriaRepositorio.CorrelativaHabilita | src/main/kotlin/ar/edu/unq/postinscripciones/persistence/MateriaRepository.kt:25 | A course whose only prerequisite is another course is not offered before that course is approved, and is offered after. |
| MateriaRepositorio.ContarFiltradoAcotado | src/main/kotlin/ar/edu/unq/postinscripciones/persistence/MateriaRepository.kt:36-39 | On one section, the requests in a given state never outnumber all requests. |
| MateriaRepositorio.PendientesAcotadas | src/main/kotlin/ar/edu/unq/postinscripciones/persistence/MateriaRepository.kt:31-39 | Summed over a course's sections, the requests in a given state never outnumber all requests. |
| MateriaRepositorio.SeccionesEn | src/main/kotlin/ar/edu/unq/postinscripciones/persistence/MateriaRepository.kt:34-41 | A section is listed iff it belongs to the course and the term. |
| MateriaRepositorio.FilaDe | src/main/kotlin/ar/edu/unq/postinscripciones/persistence/MateriaRepository.kt:31-39 | A course's count row carries the course's code and name, and its pending count never exceeds its total. |
| MateriaRepositorio.ContarAnexar | src/main/kotlin/ar/edu/unq/postinscripciones/persistence/MateriaRepository.kt:32-39 | One more request adds one to a section's count exactly when it is on that section and, if a state is counted, in that state. |
| MateriaRepositorio.TotalAnexar | src/main/kotlin/ar/edu/unq/postinscripciones/persistence/MateriaRepository.kt:32-39 | With distinct section ids, one more request adds one to the count summed over sections exactly when it is on one of them and in the counted state. |
| MateriaRepositorio.SeccionesEnIdsDistintos | src/main/kotlin/ar/edu/unq/postinscripciones/persistence/MateriaRepository.kt:33-40 | Selecting a course's sections in a term keeps the section ids distinct. |
| MateriaRepositorio.FilaDeSinSolicitudes | src/main/kotlin/ar/edu/unq/postinscripciones/persistence/MateriaRepository.kt:32-39 | With no requests, a course's total and pending counts are both zero. |
| MateriaRepositorio.FilaDeAnexar | src/main/kotlin/ar/edu/unq/postinscripciones/persistence/MateriaRepository.kt:32-39 | With distinct section ids, one more request adds one to a course's total exactly when it is on one of the course's sections in the term, and one to its pending count exactly when it is also in the counted state. With the empty case, this fixes both counts for every request list. |
| MateriaRepositorio.Agrupar | src/main/kotlin/ar/edu/unq/postinscripciones/persistence/MateriaRepository.kt:31-43 | Sound and complete: one row for each course that has a section in the term and whose upper-cased name contains the pattern. |
| MateriaRepositorio.AgruparCodigosUnicos | src/main/kotlin/ar/edu/unq/postinscripciones/persistence/MateriaRepository.kt:31-43 | The query groups by course code, so when codes are unique no code appears in two rows. |
| MateriaRepositorio.Ordenar | src/main/kotlin/ar/edu/unq/postinscripciones/persistence/MateriaRepository.kt:44 | The result is a permutation of the input, ordered by pending count, descending. |
| MateriaRepositorio.MateriasPorSolicitudes | src/main/kotlin/ar/edu/unq/postinscripciones/persistence/MateriaRepository.kt:31-51 | The rows are a permutation of the grouped rows, ordered by pending count descending, with pending <= total. A row is returned for a course iff it has a section in the term and its upper-cased name contains the pattern. |
| SolicitudRepositorio.FilasDe | src/main/kotlin/ar/edu/unq/postinscripciones/persistence/SolicitudSobrecupoRepository.kt:14-17 | A request's pairs each name the request and a form that holds it. Every form that holds it contributes its pair, and there are no more pairs than forms. |
| SolicitudRepositorio.PorMateria | src/main/kotlin/ar/edu/unq/postinscripciones/persistence/SolicitudSobrecupoRepository.kt:13-21 | Every pair names a pending request on a section of the course and a form that holds it. Every such request and form pair is returned. |
| SolicitudRepositorio.SinFormularioNoAparece | src/main/kotlin/ar/edu/unq/postinscripciones/persistence/SolicitudSobrecupoRepository.kt:17 | A request that no form holds is never returned. |
| SolicitudRepositorio.NoSeleccionadaNoAparece | src/main/kotlin/ar/edu/unq/postinscripciones/persistence/SolicitudSobrecupoRepository.kt:16-18 | A request that is not pending, or whose section belongs to another course, is never returned. |
| MateriaServicio.CodigosEncontrados | src/main/kotlin/ar/edu/unq/postinscripciones/service/MateriaService.kt:30-31 | A listed prerequisite code is among the codes found iff a course has it. |
| MateriaServicio.Crear | src/main/kotlin/ar/edu/unq/postinscripciones/service/MateriaService.kt:24-37 | Fails with the collision error iff a course has the name or code, ignoring case, and names that course. Otherwise fails on the first listed prerequisite code that no course has. Succeeds iff neither happens; then the course is appended with the given code, name, program and exactly the listed prerequisites. Absence of collisions and existence of prerequisites are preserved. |
| MateriaServicio.NuevaDe | src/main/kotlin/ar/edu/unq/postinscripciones/service/MateriaService.kt:50 | A course created by a batch has the form's code, name and program and no prerequisites. |
| MateriaServicio.PrimerConflicto | src/main/kotlin/ar/edu/unq/postinscripciones/service/MateriaService.kt:41-48 | The batch check finds a conflict iff some form collides with a stored course. The conflict is that of the first such form in list order: it names that form's name and code and the name and code of a stored course the form collides with. |
| MateriaServicio.CrearLoteTalCualEscrito | src/main/kotlin/ar/edu/unq/postinscripciones/service/MateriaService.kt:40-55 | As written: fails iff some form collides with a stored course. The error then names the first such form in list order and a stored course it collides with. Otherwise it creates one course per form, each without prerequisites. The old table survives unchanged as a prefix, every form's code is stored, and no row other than an old one or a created one appears. |
| MateriaServicio.CrearLoteTalCualEscritoAdmiteColision | src/main/kotlin/ar/edu/unq/postinscripciones/service/MateriaService.kt:41-53 | Two forms of one batch whose names differ only in case are both stored, leaving a colliding pair in the table. |
| MateriaServicio.CrearLote | src/main/kotlin/ar/edu/unq/postinscripciones/service/MateriaService.kt:40-55 | Corrected batch: succeeds iff no created course collides with a stored one or with an earlier one of the batch. Otherwise the error names the first colliding form and a course it collides with, stored or created earlier in the batch. Then the courses, without prerequisites, are appended in order. |
| MateriaServicio.CrearLoteSinColisiones | src/main/kotlin/ar/edu/unq/postinscripciones/service/MateriaService.kt:40-55 | The corrected batch keeps a collision-free table collision-free. |
| MateriaServicio.CrearLoteRechazaColision | src/main/kotlin/ar/edu/unq/postinscripciones/service/MateriaService.kt:41-48 | The corrected batch rejects the input that the batch as written lets through. |
| MateriaServicio.BuscarTodasPorNombre | src/main/kotlin/ar/edu/unq/postinscripciones/service/MateriaService.kt:68-72 | Succeeds iff every prerequisite name is known, returning matching courses in order. Otherwise it fails naming the first unknown name. |
| MateriaServicio.ActualizarUna | src/main/kotlin/ar/edu/unq/postinscripciones/service/MateriaService.kt:65-76 | One entry succeeds iff its course and all its prerequisite names are known. It fails with "course not found" exactly when the course is unknown, and otherwise names the first unknown prerequisite name. The table keeps its length. |
| MateriaServicio.ActualizarUnaContenido | src/main/kotlin/ar/edu/unq/postinscripciones/service/MateriaService.kt:66-74 | For an entry naming only known courses, the updated course has the entry's name, ignoring case, and is stored. Its new list has, position by position, the code of a course named by the entry. |
| MateriaServicio.ActualizarUnaSoloCorrelativas | src/main/kotlin/ar/edu/unq/postinscripciones/service/MateriaService.kt:74-76 | With unique codes, a valid entry changes only prerequisite lists, and only of the course it names. |
| MateriaServicio.ActualizarCorrelativas | src/main/kotlin/ar/edu/unq/postinscripciones/service/MateriaService.kt:64-78 | On success, one updated course per entry is returned and the table keeps its length. On failure, the error is "course not found" or an unknown prerequisite name. |
| MateriaServicio.ActualizarCorrelativasFalla | src/main/kotlin/ar/edu/unq/postinscripciones/service/MateriaService.kt:64-78 | With unique codes, the update succeeds iff every entry names a known course and known prerequisites. |
| MateriaServicio.ActualizarCorrelativasPrimerError | src/main/kotlin/ar/edu/unq/postinscripciones/service/MateriaService.kt:65-72 | With unique codes and some invalid entry, the update fails and the first invalid entry decides the error: "course not found" iff its course is unknown, and otherwise its first unknown prerequisite name. |
| MateriaServicio.ActualizarCorrelativasSoloCorrelativas | src/main/kotlin/ar/edu/unq/postinscripciones/service/MateriaService.kt:74-76 | With unique codes and every entry valid, the update succeeds and changes nothing but prerequisite lists. |
| MateriaServicio.ActualizarCorrelativasNoNombradas | src/main/kotlin/ar/edu/unq/postinscripciones/service/MateriaService.kt:64-78 | With unique codes and every entry valid, the update succeeds and a row that no entry designates is left exactly as it was. An entry designates the first row whose name matches its name ignoring case. |
| MateriaServicio.BuscarTodasCodigos | src/main/kotlin/ar/edu/unq/postinscripciones/service/MateriaService.kt:68-72 | When every name is known, the look-ups succeed and their codes are, in order, the codes of the first rows the names match. |
| MateriaServicio.MismoIndicePorNombre | src/main/kotlin/ar/edu/unq/postinscripciones/service/MateriaService.kt:66 | When only prerequisite lists change, every name designates the same row as before. |
| MateriaServicio.ActualizarUnaDesigna | src/main/kotlin/ar/edu/unq/postinscripciones/service/MateriaService.kt:65-76 | With unique codes, a valid entry gives the row it designates the codes of its prerequisite names, in order, and leaves every other row as it was. |
| MateriaServicio.ActualizarCorrelativasFila | src/main/kotlin/ar/edu/unq/postinscripciones/service/MateriaService.kt:64-78 | With unique codes and every entry valid, the update succeeds, and each row ends as it was except for its prerequisites, which come from the last entry designating it, or stay if none does. The entries run in order. |
| MateriaServicio.ActualizarCorrelativasUltimaGana | src/main/kotlin/ar/edu/unq/postinscripciones/service/MateriaService.kt:64-78 | With unique codes and every entry valid, the row designated by entry k, and by no later entry, ends with the codes of entry k's prerequisite names. |
| MateriaServicio.Obtener | src/main/kotlin/ar/edu/unq/postinscripciones/service/MateriaService.kt:80-85 | Finds a course iff one has the code. Otherwise it fails with "course not found". |
| ComisionServicio.AltaDeComision | src/main/kotlin/ar/edu/unq/postinscripciones/service/ComisionService.kt:162-177 | Saving a new section appends it with the next id and no overflow seat taken, and leaves the other tables alone. |
| ComisionServicio.AltaPreservaInvariante | src/main/kotlin/ar/edu/unq/postinscripciones/service/ComisionService.kt:108-114 | Appending a section of a known course whose identity is not yet stored keeps the invariant: fresh ids, one section per course, number and term, and only catalogued courses. |
| ComisionServicio.CargarUna | src/main/kotlin/ar/edu/unq/postinscripciones/service/ComisionService.kt:102-116 | A line whose course name is unknown yields "No existe la materia <name>" and changes nothing. A line whose section already exists yields "Ya existe esta comision" and changes nothing. Any other line stores a section of that course in the term, with no schedule, the line's seats and the default modality. |
| ComisionServicio.Cargar | src/main/kotlin/ar/edu/unq/postinscripciones/service/ComisionService.kt:97-119 | Existing sections stay as a prefix. Conflicts plus new sections equal the number of lines. New sections get consecutive fresh ids, the term, no schedule, no seat taken and the default modality. |
| ComisionServicio.CargarPreservaInvariante | src/main/kotlin/ar/edu/unq/postinscripciones/service/ComisionService.kt:97-119 | Loading an offer keeps the section-table invariant, so no section is duplicated. |
| ComisionServicio.ConflictosCorresponden | src/main/kotlin/ar/edu/unq/postinscripciones/service/ComisionService.kt:101-118 | Each conflict reports the line at its recorded position, for one of the two reasons. |
| ComisionServicio.ConflictosEnOrden | src/main/kotlin/ar/edu/unq/postinscripciones/service/ComisionService.kt:101-118 | The recorded positions strictly increase, so conflicts come in input order, at most one per line. |
| ComisionServicio.SinMateriaReportada | src/main/kotlin/ar/edu/unq/postinscripciones/service/ComisionService.kt:103-106 | Every line of an unknown course is reported, at its own position, with "No existe la materia <name>". |
| ComisionServicio.EntradaConocidaQuedaCargada | src/main/kotlin/ar/edu/unq/postinscripciones/service/ComisionService.kt:108-115 | After loading, every line of a known course has its section in the term, either the one already there or the one it created. |
| ComisionServicio.GuardarCuatrimestre | src/main/kotlin/ar/edu/unq/postinscripciones/service/ComisionService.kt:43-50 | A stored term with the same year and half has its window updated in place, and no term is added. Otherwise the requested term is appended. Either way the obtained term has the requested year and half, every other stored term is left as it was, and uniqueness of terms is preserved. |
| ComisionServicio.ActualizarOfertaAcademica | src/main/kotlin/ar/edu/unq/postinscripciones/service/ComisionService.kt:35-53 | Afterwards the term exists; the term table grows only if the term was absent. New sections belong to that term. Existing sections, courses and forms are kept. |
| ComisionServicio.ActualizarOfertaPreservaInvariante | src/main/kotlin/ar/edu/unq/postinscripciones/service/ComisionService.kt:35-53 | Updating the offer keeps section ids fresh, sections unique per course, number and term, and every section's course catalogued. |
| ComisionServicio.ModificarUna | src/main/kotlin/ar/edu/unq/postinscripciones/service/ComisionService.kt:126-141 | "No se encontró la materia" iff the course code is unknown, and "No se encontró la comision" iff the course is known but the section is not. Otherwise a section it names gets the new schedule. Only schedules change, and only of named sections. |
| ComisionServicio.ModificarTodas | src/main/kotlin/ar/edu/unq/postinscripciones/service/ComisionService.kt:126-141 | The updates run in input order against the table the previous ones left. There is at most one conflict per update, and the section table keeps its length. |
| ComisionServicio.ModificarTodasSoloHorarios | src/main/kotlin/ar/edu/unq/postinscripciones/service/ComisionService.kt:126-141 | A run of updates changes schedules only, and a section named by no update is left exactly as it was. |
| ComisionServicio.ConflictosDeHorarios | src/main/kotlin/ar/edu/unq/postinscripciones/service/ComisionService.kt:136-139 | Every schedule conflict reports one of the updates, with one of the two messages. |
| ComisionServicio.ModificarTodasConflictos | src/main/kotlin/ar/edu/unq/postinscripciones/service/ComisionService.kt:126-141 | The conflicts are, in input order, one per update: "No se encontró la materia" when its course code is unknown, "No se encontró la comision" when the course is known and no section of that number is in the term, and none otherwise. |
| ComisionServicio.ModificarTodasHorarios | src/main/kotlin/ar/edu/unq/postinscripciones/service/ComisionService.kt:126-141 | Every section ends with the schedule of the last update that applies to it, or keeps its own when none does. Only the first stored section of each identity is ever found, so a later one keeps its schedule. |
| ComisionServicio.ModificarTodasUltimaGana | src/main/kotlin/ar/edu/unq/postinscripciones/service/ComisionService.kt:126-141 | When update k applies to a section the look-up finds, and no later update does, the section ends with update k's schedule. |
| ComisionServicio.ModificarHorariosDe | src/main/kotlin/ar/edu/unq/postinscripciones/service/ComisionService.kt:121-144 | Fails with "Cuatrimestre no encontrado" iff the term is not stored. Otherwise only section schedules change and the invariant is preserved. The conflicts are exactly those of ComisionServicio.ModificarTodasConflictos, and every section ends with the schedule ComisionServicio.ModificarTodasHorarios gives it. |
| ComisionServicio.UnaActualizacionReemplaza | src/main/kotlin/ar/edu/unq/postinscripciones/service/ComisionService.kt:127-134 | An update of an existing section in a stored term reports nothing and gives that section the new schedule. |
| ComisionServicio.FiltrarOferta | src/main/kotlin/ar/edu/unq/postinscripciones/service/ComisionService.kt:57-61 | A section is listed iff it is in the term and its course's name contains the pattern, ignoring case. |
| ComisionServicio.OfertaDelCuatrimestre | src/main/kotlin/ar/edu/unq/postinscripciones/service/ComisionService.kt:55-64 | Returns the matching sections, never an empty list. When none matches, it fails with the "no offer" error naming the year and half (chequearSiHayOferta). |
| ComisionServicio.OfertaSinFiltro | src/main/kotlin/ar/edu/unq/postinscripciones/service/ComisionService.kt:55-62 | With every section's course catalogued, the unfiltered offer fails exactly when the term has no section. |
| ComisionServicio.Obtener | src/main/kotlin/ar/edu/unq/postinscripciones/service/ComisionService.kt:71-75 | Finds a section iff one has the id. Otherwise it fails with "No se encuentra la comision". |
| ComisionServicio.DeMateriaEnPeriodo | src/main/kotlin/ar/edu/unq/postinscripciones/service/ComisionService.kt:92 | A section is listed iff it is of the course and in the term. |
| ComisionServicio.ObtenerComisionesMateria | src/main/kotlin/ar/edu/unq/postinscripciones/service/ComisionService.kt:86-95 | An unknown term fails first, with "No existe el cuatrimestre". An unknown course code fails next, with "No se encuentra la materia". Otherwise exactly the course's sections in the term are returned. |
| ComisionServicio.QuitarDeFormularios | src/main/kotlin/ar/edu/unq/postinscripciones/service/ComisionService.kt:79-82 | Forms enrolled in the section go through quitarInscripcionDe, and the others stay unchanged. |
| ComisionServicio.SinComision | src/main/kotlin/ar/edu/unq/postinscripciones/service/ComisionService.kt:83 | After deleteById, exactly the sections with another id remain. |
| ComisionServicio.BorrarComision | src/main/kotlin/ar/edu/unq/postinscripciones/service/ComisionService.kt:77-84 | Deleting a section removes it from the table and leaves courses, terms and unrelated forms alone. |
| ComisionServicio.BorrarNoDejaReferencias | src/main/kotlin/ar/edu/unq/postinscripciones/service/ComisionService.kt:77-84 | When quitarInscripcionDe drops the enrolment, no form refers to the deleted section afterwards. |
| ComisionServicio.BorrarPreservaInvariante | src/main/kotlin/ar/edu/unq/postinscripciones/service/ComisionService.kt:77-84 | Deleting keeps ids fresh and every remaining section's course catalogued. |
| ComisionServicio.CrearComision | src/main/kotlin/ar/edu/unq/postinscripciones/service/ComisionService.kt:179-195 | An unknown course fails with "course not found", then an unknown term fails with NoSuchElement. Succeeds iff both exist; then a section with the form's data, the next id and all overflow seats available is appended. |
| ComisionServicio.CrearComisionAdmiteDuplicado | src/main/kotlin/ar/edu/unq/postinscripciones/service/ComisionService.kt:179-195 | Single creation does not check identity: whenever the course and term exist and a stored section already has the form's course, number and term, creation succeeds and the table stops having unique sections. |

## Left out

- Clocks: `LocalDate.now()`, `Cuatrimestre.actual()` and `Cuatrimestre.actualConFechas` become explicit parameters (`hoy`, `periodo`, `actualConFechas`). Dates are integers.
- Code outside this model becomes parameters, because its source is not part of this model:
  - `Cuatrimestre.actualizarFechas` is a function giving the new enrolment window;
  - `Horario.tieneSuperposicionCon` is a block-overlap predicate;
  - `Formulario.quitarInscripcionDe` is a form transformer.
- Assumed meanings of code not in this model:
  - `Materia.esLaMateria` is taken as equality of course codes.
  - `Cuatrimestre.esElCuatrimestre` is taken as equality of year and half.
  - `Materia.actualizarCorrelativas` is taken as replacing the whole prerequisite list.
- Enum values not visible in these files are assumed: `DESAPROBADO`, `S2`, `VIRTUAL`, `SEMIPRESENCIAL`, and the weekdays other than Monday and Thursday.
- Case folding covers ASCII letters only. Unicode case mapping is not modelled.
- DTO conversion is not modelled, because it is field copying. Results are the entities themselves. This covers `ComisionDTO.desdeModelo`, `MateriaDTO.desdeModelo`, and the tuple rows, which become datatypes.
- Persistence concerns are not modelled:
  - JPA cascades and orphan removal;
  - transaction rollback beyond "an error stores nothing";
  - Swagger annotations;
  - concurrent updates of the seat counter.
- Repository edge cases, modelled as stated:
  - A single-result derived query that matches several rows throws in Spring Data; the model takes the first row in table order.
  - ComisionServicio.BorrarComision: on an absent id, `deleteById` throws `EmptyResultDataAccessException` in the Spring Data JPA version the source builds on (it uses `javax.persistence`, Comision.kt:9), so `borrarComision` fails and rolls back. The model succeeds and removes no section; forms enrolled in that id, which a consistent database does not have, would still lose the enrolment.
  - An empty `IN` list is treated as an empty set.
- The `coeficiente` field is left out. It is a floating-point value that is only ever carried through.
- `MateriaService.materiasPorSolicitudes` (MateriaService.kt:87-95) is left out. It calls a repository method that the course repository does not declare, so there is no definition to model. The declared request-count query is modelled (`MateriaRepositorio.MateriasPorSolicitudes`).
- `MateriaService.todas` is left out. It returns the course table unchanged.
- `findByCorrelativasCodigo` is left out. No modelled operation uses it.
- The student-side lifecycle (forms, requests, enrolment windows, adjudication) belongs to services that are not part of this model. Forms and requests carry only the fields the queries and the deletion read.
- Comisiones.UltimoHorarioGana: sections are values, so a schedule list cannot be shared. The source clears the schedule and then copies the new list in (Comision.kt:41-42). Passing a section its own list object would therefore leave it empty. No modelled caller does this: the service always passes a freshly mapped list (ComisionService.kt:133).
- MateriaRepositorio.FilaDeAnexar: assumes the section ids are distinct. They are the table's primary key, and the model's section table is a plain list, so this is stated as a precondition.
- MateriaRepositorio.MateriasPorSolicitudes: the pattern is matched as literal text. The query inserts it unescaped into `LIKE %?4%` (MateriaRepository.kt:42), so a `%` or `_` in the pattern acts as a wildcard there. A pattern containing either character may therefore select more courses than the model does.
- Comisiones.TieneSuperposicionHoraria: the block-level overlap test is a parameter, so the contract says which blocks decide the answer, not which times overlap.
- MateriaServicio.ActualizarCorrelativasFalla, MateriaServicio.ActualizarCorrelativasPrimerError, MateriaServicio.ActualizarCorrelativasSoloCorrelativas, MateriaServicio.ActualizarCorrelativasNoNombradas, MateriaServicio.ActualizarCorrelativasFila and MateriaServicio.ActualizarCorrelativasUltimaGana assume unique course codes. Code is the course table's primary key.
- ComisionServicio.ConflictosDeHorarios states only that every schedule conflict reports one of the updates. The exact report, in input order, is stated by ComisionServicio.ModificarTodasConflictos.
- ComisionServicio.SinMateriaReportada proves completeness of the report only for lines of unknown courses. For "Ya existe esta comision" lines, completeness and soundness are given by ComisionServicio.CargarUna one line at a time, and by the order lemmas.
- ComisionServicio.ActualizarOfertaAcademica does not state the new window of an existing term. That is ComisionServicio.GuardarCuatrimestre's contract, in terms of the `actualizarFechas` parameter.

## Findings

| source | as written | input that shows it | evidently intended | confidence | as-written member | corrected member |
|---|---|---|---|---|---|---|
| src/main/kotlin/ar/edu/unq/postinscripciones/service/MateriaService.kt:40-55 | Batch creation checks each form only against the stored courses, never against the other forms of the same batch, then saves them all | On an empty table, the forms (name "a", code "X") and (name "A", code "Y"): both are stored although their names coincide ignoring case | A batch course must not collide with a stored course or with an earlier course of the batch, just as single creation rejects it | medium, not executed | MateriaServicio.CrearLoteTalCualEscritoAdmiteColision | MateriaServicio.CrearLote |

Single section creation (ComisionService.kt:179-195) does not check for an existing section with the same course, number and term, while the offer loader does. This is shown by `ComisionServicio.CrearComisionAdmiteDuplicado`. Whether it is intended cannot be told from the source, so it is not listed as a finding.
