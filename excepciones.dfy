/** The exceptions the core throws or its error handler receives, each reduced to the
    data the handler reads from it. */
module Excepciones {
  import opened Wrappers

  /** One entry of a binding result: a field error names its field, an object-level
      (global) error does not. */
  datatype ErrorValidacion =
    | ErrorCampo(campo: string, mensajePorDefecto: string)
    | ErrorObjeto(mensajePorDefecto: string)

  /** One constraint violation: its property path, rendered as a string, and its message. */
  datatype Violacion = Violacion(ruta: string, mensaje: string)

  datatype Excepcion =
      /** `MethodArgumentNotValidException`, with the binding result's errors in order. */
    | MethodArgumentNotValid(errores: seq<ErrorValidacion>)
      /** `MethodArgumentTypeMismatchException`: parameter name, simple name of the
          required type (null when unknown) and the rejected value's `toString`. */
    | MethodArgumentTypeMismatch(nombre: string, tipoRequerido: Option<string>, valor: Option<string>)
      /** `ConstraintViolationException`, with its violations in iteration order. */
    | ConstraintViolation(violaciones: seq<Violacion>)
    | EntityNotFound(mensaje: string)
    | RecursoNoDisponible(mensaje: string)
    | NoHandlerFound(metodoHttp: string, url: string)
      /** `HttpMessageNotReadableException`: the message of its most specific cause. */
    | HttpMessageNotReadable(causa: Option<string>)
      /** `DataIntegrityViolationException`: the message of its most specific cause. */
    | DataIntegrityViolation(causa: Option<string>)
    | IllegalArgument(mensaje: string)
      /** A plain `RuntimeException` thrown by a service. */
    | Runtime(mensaje: string)
    | NullPointer
      /** Spring Data's `IncorrectResultSizeDataAccessException`: a single-result query matched several rows. */
    | IncorrectResultSize
    | UsernameNotFound(mensaje: string)
}
