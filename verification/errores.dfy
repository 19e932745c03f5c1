/** The failures the core reports: one constructor per exception the
    services and the section entity throw, carrying the data their message
    names. */
module Errores {
  import opened Catalogo

  datatype Error =
    /** ExcepcionUNQUE: no overflow seat of the section is free. */
    | SinSobrecuposDisponibles
    /** ExcepcionUNQUE: no overflow seat of the section is taken. */
    | SinSobrecuposOcupados
    /** ExcepcionUNQUE: the course to create (nombre, codigo) collides with an existing one. */
    | ConflictoConMateria(nombre: string, codigo: string, nombreExistente: string, codigoExistente: string)
    /** ExcepcionUNQUE: a listed prerequisite code names no course. */
    | NoExisteMateriaConCodigo(codigo: string)
    /** ExcepcionUNQUE: a listed prerequisite name names no course. */
    | NoExisteMateriaConNombre(nombre: string)
    /** MateriaNoEncontradaExcepcion. */
    | MateriaNoEncontrada
    /** ExcepcionUNQUE raised by the schedule update for an unknown term. */
    | CuatrimestreNoEncontrado
    /** ExcepcionUNQUE raised by the section listing of a course for an unknown term. */
    | NoExisteElCuatrimestre
    /** ExcepcionUNQUE: no section has the requested id. */
    | NoSeEncuentraLaComision
    /** ExcepcionUNQUE raised by the section listing of a course for an unknown code. */
    | NoSeEncuentraLaMateria
    /** ExcepcionUNQUE: the term has no section matching the name filter. */
    | SinOfertaRegistrada(anio: int, semestre: Semestre)
    /** NoSuchElementException from `Optional.get()` on an empty result. */
    | SinElemento
}
