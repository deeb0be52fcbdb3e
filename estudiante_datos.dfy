/** The student entity, its transfer object and the two conversions between them. */
module EstudianteDatos {
  import opened Wrappers
  import opened Tipos

  /** A student row: the `Persona` fields, then those of `Estudiante`. Every field is a
      possibly null reference; `materias` is the list of the ids of its courses. */
  datatype Estudiante = Estudiante(
    id: Option<Id>,
    nombre: Option<string>,
    apellido: Option<string>,
    email: Option<string>,
    fechaNacimiento: Option<Fecha>,
    numeroInscripcion: Option<string>,
    estado: Option<string>,
    usuarioAlta: Option<string>,
    fechaAlta: Option<Fecha>,
    usuarioModificacion: Option<string>,
    fechaModificacion: Option<Fecha>,
    usuarioBaja: Option<string>,
    fechaBaja: Option<Fecha>,
    motivoBaja: Option<string>,
    materias: seq<Id>)

  datatype EstudianteDTO = EstudianteDTO(
    id: Option<Id>,
    nombre: Option<string>,
    apellido: Option<string>,
    email: Option<string>,
    fechaNacimiento: Option<Fecha>,
    numeroInscripcion: Option<string>,
    estado: Option<string>,
    usuarioAlta: Option<string>,
    fechaAlta: Option<Fecha>,
    usuarioModificacion: Option<string>,
    fechaModificacion: Option<Fecha>,
    usuarioBaja: Option<string>,
    fechaBaja: Option<Fecha>,
    motivoBaja: Option<string>)

  /** `convertToDTO`: the builder is never given `fechaModificacion`, so it stays null. */
  function ConvertToDTO(e: Estudiante): EstudianteDTO {
    EstudianteDTO(e.id, e.nombre, e.apellido, e.email, e.fechaNacimiento, e.numeroInscripcion,
      e.estado, e.usuarioAlta, e.fechaAlta, e.usuarioModificacion, None,
      e.usuarioBaja, e.fechaBaja, e.motivoBaja)
  }

  /** `convertToEntity`: every DTO field is copied; the course list is left unset, and a
      collection that was never set is stored, and read back, as an empty one. */
  function ConvertToEntity(d: EstudianteDTO): Estudiante {
    Estudiante(d.id, d.nombre, d.apellido, d.email, d.fechaNacimiento, d.numeroInscripcion,
      d.estado, d.usuarioAlta, d.fechaAlta, d.usuarioModificacion, d.fechaModificacion,
      d.usuarioBaja, d.fechaBaja, d.motivoBaja, [])
  }

  /** DTO to entity and back loses exactly `fechaModificacion`. */
  lemma RoundTripDTO(d: EstudianteDTO)
    ensures ConvertToDTO(ConvertToEntity(d)) == d.(fechaModificacion := None)
    ensures d.fechaModificacion.Some? ==> ConvertToDTO(ConvertToEntity(d)) != d
  {
  }

  /** Entity to DTO and back loses exactly `fechaModificacion` and the course list. */
  lemma RoundTripEntidad(e: Estudiante)
    ensures ConvertToEntity(ConvertToDTO(e)) == e.(fechaModificacion := None, materias := [])
  {
  }
}
