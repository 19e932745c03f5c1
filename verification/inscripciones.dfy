/** The enrolment records the repository queries read: overflow-seat
    requests and the forms that hold them. Only the fields the queries and
    the section deletion touch are modelled. */
module Inscripciones {

  datatype EstadoSolicitud = PENDIENTE | APROBADO | RECHAZADO

  /** A request for an overflow seat in the section with id `comision`. */
  datatype SolicitudSobrecupo = SolicitudSobrecupo(id: nat, comision: nat, estado: EstadoSolicitud)

  /** A student's form: the ids of its requests (the `formulario_solicitudes`
      join table) and of the sections the student is enrolled in. */
  datatype Formulario = Formulario(id: nat, solicitudes: seq<nat>, comisionesInscripto: seq<nat>)
}
