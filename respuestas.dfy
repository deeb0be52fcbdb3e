/** What a client sees when a service call fails: the service's exception passed through
    the exception handler. */
module Respuestas {
  import opened Wrappers
  import opened Excepciones
  import opened EstudianteDatos
  import opened Validacion
  import opened Inscripciones
  import opened ManejoErrores

  /** Both business refusals of `crear` are plain `RuntimeException`s, so they answer
      500 with the generic text and the reason is not shown. */
  lemma RechazosDeCrearSon500()
    ensures Manejar(Runtime(YaInscrito)) == Generico()
    ensures Manejar(Runtime(SinPrerequisitos)) == Generico()
    ensures Manejar(EntityNotFound(EstudianteNoEncontrado)).status == NotFound
  {
  }

  /** A student refused by the validator gets 400 with the validator's own message,
      except when the e-mail is null: the domain check then dereferences it and the
      answer is the generic 500. */
  lemma RechazoDeValidacion(d: EstudianteDTO, existentes: set<string>)
    requires ValidacionCompletaEstudiante(d, existentes).Fail?
    ensures var e := ValidacionCompletaEstudiante(d, existentes).error;
      if e.NullPointer? then Manejar(e) == Generico() && d.email.None?
      else e.IllegalArgument? && Manejar(e) == ApiError(BadRequest, MensajeValidacion, Texto(Some(e.mensaje)))
  {
  }
}
