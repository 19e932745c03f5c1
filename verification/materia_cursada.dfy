/** An entry of a student's academic record (`MateriaCursada`): the course
    taken, its status and the date the status was recorded. */
module HistoriaAcademica {

  /** Passed, failed, or pending approval. */
  datatype EstadoMateria = APROBADO | DESAPROBADO | PA

  /** `materia` is the course code; `fechaDeCarga` a day number. */
  datatype MateriaCursada = MateriaCursada(materia: string, estado: EstadoMateria, fechaDeCarga: int)

  /** A record entry built with the defaults: pending approval, stamped with
      today's date (the clock is the parameter `hoy`). */
  function NuevaMateriaCursada(materia: string, hoy: int): (mc: MateriaCursada)
    ensures mc.estado == PA
    ensures mc.fechaDeCarga == hoy
    ensures mc.materia == materia
  {
    MateriaCursada(materia, PA, hoy)
  }

  /** Sets the status and re-stamps the date; the course never changes. */
  function CambiarEstado(mc: MateriaCursada, nuevoEstado: EstadoMateria, hoy: int): (r: MateriaCursada)
    ensures r.estado == nuevoEstado
    ensures r.fechaDeCarga == hoy
    ensures r.materia == mc.materia
  {
    mc.(estado := nuevoEstado, fechaDeCarga := hoy)
  }

  /** After a status change nothing of the previous status or date survives:
      two entries of the same course end up identical. */
  lemma CambiarEstadoOlvidaLoAnterior(a: MateriaCursada, b: MateriaCursada, e: EstadoMateria, hoy: int)
    requires a.materia == b.materia
    ensures CambiarEstado(a, e, hoy) == CambiarEstado(b, e, hoy)
  {
  }

  /** Of two status changes only the last one counts. */
  lemma UltimoEstadoGana(mc: MateriaCursada, e1: EstadoMateria, d1: int, e2: EstadoMateria, d2: int)
    ensures CambiarEstado(CambiarEstado(mc, e1, d1), e2, d2) == CambiarEstado(mc, e2, d2)
    ensures CambiarEstado(NuevaMateriaCursada(mc.materia, d1), e2, d2) == CambiarEstado(mc, e2, d2)
  {
  }
}
