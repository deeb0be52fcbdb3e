/** `GlobalExceptionHandler`: the `ApiError` each handler builds, and the choice of
    handler by exception class. */
module ManejoErrores {
  import opened Wrappers
  import opened Excepciones
  import opened JavaStrings

  /** The `detalles` of an `ApiError`: a (possibly null) text or a field-to-message map. */
  datatype Detalles = Texto(texto: Option<string>) | Mapa(errores: map<string, string>)

  /** `ApiError` without its timestamp. */
  datatype ApiError = ApiError(status: int, mensaje: string, detalles: Detalles)

  const BadRequest := 400
  const NotFound := 404
  const Conflict := 409
  const InternalServerError := 500

  const MensajeValidacion := "Error de validación en los datos de entrada"
  const MensajeTipo := "Error de tipo de datos"
  const MensajeParametros := "Error de validación en los parámetros"
  const MensajeNoEncontrado := "Recurso no encontrado"
  const MensajeNoDisponible := "Recurso no disponible"
  const MensajeEndpoint := "Endpoint no encontrado"
  const MensajeInterno := "Error interno del servidor"
  const DetalleInterno := "Ocurrió un error inesperado. Por favor contacte al administrador si el problema persiste."
  const MensajeFormato := "Error en el formato de los datos enviados."
  const MensajeFechaNula := "El campo de fecha obligatoria no puede ser nulo y debe tener formato yyyy-MM-dd."
  const MensajeFechaFormato := "El campo de fecha debe tener formato yyyy-MM-dd."
  const MensajeIntegridad := "Violación de restricción de datos. Puede que algún valor ya exista o no cumpla una restricción única."
  const MensajeEmailDuplicado := "El email ya está registrado. Debe ingresar un email único."

  /** The index of the last pair whose key is `k`, or -1 when there is none. */
  function UltimaPosicion(pares: seq<(string, string)>, k: string): (r: int)
    ensures -1 <= r < |pares|
    ensures r == -1 <==> forall j :: 0 <= j < |pares| ==> pares[j].0 != k
    ensures r >= 0 ==> pares[r].0 == k && forall j :: r < j < |pares| ==> pares[j].0 != k
  {
    if pares == [] then -1
    else if pares[|pares| - 1].0 == k then |pares| - 1
    else UltimaPosicion(pares[..|pares| - 1], k)
  }

  /** `Collectors.toMap` with the merge `(e1, e2) -> e2`: the keys are those of the pairs,
      and each keeps the value of its last occurrence. */
  function UltimoGana(pares: seq<(string, string)>): (m: map<string, string>)
    ensures forall k :: k in m <==> UltimaPosicion(pares, k) >= 0
    ensures forall k :: k in m ==> m[k] == pares[UltimaPosicion(pares, k)].1
  {
    if pares == [] then map[]
    else
      var n := |pares| - 1;
      var previo := UltimoGana(pares[..n]);
      previo[pares[n].0 := pares[n].1]
  }

  /** The field errors of a binding result, in order, as (field, default message) pairs;
      object-level errors are dropped. */
  function ErroresDeCampo(errores: seq<ErrorValidacion>): (r: seq<(string, string)>)
    ensures |r| <= |errores|
    ensures forall p :: p in r <==> ErrorCampo(p.0, p.1) in errores
  {
    if errores == [] then []
    else
      var resto := ErroresDeCampo(errores[1..]);
      assert forall e :: e in errores <==> e == errores[0] || e in errores[1..];
      match errores[0]
      case ErrorCampo(c, msg) => [(c, msg)] + resto
      case ErrorObjeto(_) => resto
  }

  /** The violations as (property path, message) pairs, in iteration order. */
  function ParesDeViolaciones(vs: seq<Violacion>): (r: seq<(string, string)>)
    ensures |r| == |vs|
    ensures forall i :: 0 <= i < |vs| ==> r[i] == (vs[i].ruta, vs[i].mensaje)
  {
    if vs == [] then [] else [(vs[0].ruta, vs[0].mensaje)] + ParesDeViolaciones(vs[1..])
  }

  /** A Jackson message about a `LocalDate` it could not build. */
  predicate EsErrorDeFecha(detalles: string) {
    Contains(detalles, "Cannot deserialize value of type") && Contains(detalles, "java.time.LocalDate")
  }

  /** `handleHttpMessageNotReadable`'s choice of message from the cause's message. */
  function MensajeNoLegible(detalles: Option<string>): (m: string)
    ensures m == MensajeFechaNula <==> (detalles.Some? && EsErrorDeFecha(detalles.value)
      && Contains(detalles.value, "from Null value"))
    ensures m == MensajeFechaFormato <==> (detalles.Some? && EsErrorDeFecha(detalles.value)
      && !Contains(detalles.value, "from Null value"))
    ensures m == MensajeFormato <==> !(detalles.Some? && EsErrorDeFecha(detalles.value))
  {
    if detalles.Some? && EsErrorDeFecha(detalles.value) then
      if Contains(detalles.value, "from Null value") then MensajeFechaNula else MensajeFechaFormato
    else MensajeFormato
  }

  /** `handleDataIntegrityViolation`'s choice of message. */
  function MensajeIntegridadDe(detalles: Option<string>): (m: string)
    ensures m == MensajeEmailDuplicado <==>
      detalles.Some? && Contains(detalles.value, "duplicate key value") && Contains(detalles.value, "email")
    ensures m != MensajeEmailDuplicado ==> m == MensajeIntegridad
  {
    if detalles.Some? && Contains(detalles.value, "duplicate key value") && Contains(detalles.value, "email")
    then MensajeEmailDuplicado
    else MensajeIntegridad
  }

  /** The fixed pieces of the type-mismatch message, in order. */
  const AntesNombre := "El parámetro '"
  const AntesTipo := "' debería ser de tipo '"
  const AntesValor := "', pero se recibió: '"

  /** The type a mismatch reports: the required type's simple name, or "desconocido". */
  function TipoMostrado(tipoRequerido: Option<string>): string {
    if tipoRequerido.Some? then tipoRequerido.value else "desconocido"
  }

  /** `handleTypeMismatch`'s `String.format`: the parameter's name, the type and the
      received value each sit in their own quoted slot, and a null value prints as "null". */
  function MensajeTipoDe(nombre: string, tipoRequerido: Option<string>, valor: Option<string>): (m: string)
    ensures var tipo, i := TipoMostrado(tipoRequerido), |AntesNombre|;
      var j := i + |nombre| + |AntesTipo|;
      && |m| == j + |tipo| + |AntesValor| + |Show(valor)| + 1
      && m[..i] == AntesNombre
      && m[i..i + |nombre|] == nombre
      && m[i + |nombre|..j] == AntesTipo
      && m[j..j + |tipo|] == tipo
      && m[j + |tipo|..j + |tipo| + |AntesValor|] == AntesValor
      && m[|m| - |Show(valor)| - 1..] == Show(valor) + "'"
  {
    var fin := Show(valor) + "'";
    Trozos(AntesNombre, nombre, AntesTipo, TipoMostrado(tipoRequerido), AntesValor, fin);
    AntesNombre + nombre + AntesTipo + TipoMostrado(tipoRequerido) + AntesValor + fin
  }

  /** Where each of six concatenated pieces sits; used by `MensajeTipoDe`. */
  lemma Trozos<T>(a: seq<T>, b: seq<T>, c: seq<T>, d: seq<T>, e: seq<T>, f: seq<T>)
    ensures var m, i := a + b + c + d + e + f, |a|;
      var j := i + |b| + |c|;
      && |m| == j + |d| + |e| + |f|
      && m[..i] == a && m[i..i + |b|] == b && m[i + |b|..j] == c
      && m[j..j + |d|] == d && m[j + |d|..j + |d| + |e|] == e && m[|m| - |f|..] == f
  {
  }

  /** The message cannot tell an unknown required type from one whose simple name is
      "desconocido", and for every other name the two messages differ. */
  lemma TipoDesconocido(nombre: string, tipo: string, valor: Option<string>)
    ensures MensajeTipoDe(nombre, None, valor) == MensajeTipoDe(nombre, Some(tipo), valor) <==> tipo == "desconocido"
  {
    var a, b := MensajeTipoDe(nombre, None, valor), MensajeTipoDe(nombre, Some(tipo), valor);
    if a == b {
      var i := |AntesNombre| + |nombre| + |AntesTipo|;
      assert |tipo| == |"desconocido"|;
      assert a[i..i + |tipo|] == "desconocido" && b[i..i + |tipo|] == tipo;
    }
  }

  /** The handler Spring picks for each exception class. Exceptions without a handler of
      their own (a plain `RuntimeException`, a null dereference, a finder that matched
      several rows, a failed user lookup) reach the generic `Exception` handler. */
  function Manejar(ex: Excepcion): (e: ApiError)
    ensures e.status in {BadRequest, NotFound, Conflict, InternalServerError}
    ensures e.status == InternalServerError <==> e == Generico()
  {
    match ex
    case MethodArgumentNotValid(errores) =>
      ApiError(BadRequest, MensajeValidacion, Mapa(UltimoGana(ErroresDeCampo(errores))))
    case MethodArgumentTypeMismatch(nombre, tipo, valor) =>
      ApiError(BadRequest, MensajeTipo, Texto(Some(MensajeTipoDe(nombre, tipo, valor))))
    case ConstraintViolation(vs) =>
      ApiError(BadRequest, MensajeParametros, Mapa(UltimoGana(ParesDeViolaciones(vs))))
    case EntityNotFound(msg) => ApiError(NotFound, MensajeNoEncontrado, Texto(Some(msg)))
    case RecursoNoDisponible(msg) => ApiError(Conflict, MensajeNoDisponible, Texto(Some(msg)))
    case NoHandlerFound(metodo, url) =>
      ApiError(NotFound, MensajeEndpoint, Texto(Some("No se encontró un controlador para " + metodo + " " + url)))
    case HttpMessageNotReadable(causa) => ApiError(BadRequest, MensajeNoLegible(causa), Texto(causa))
    case DataIntegrityViolation(causa) => ApiError(Conflict, MensajeIntegridadDe(causa), Texto(causa))
    case IllegalArgument(msg) => ApiError(BadRequest, MensajeValidacion, Texto(Some(msg)))
    case Runtime(_) => Generico()
    case NullPointer => Generico()
    case IncorrectResultSize => Generico()
    case UsernameNotFound(_) => Generico()
  }

  /** `handleGenericException`: fixed text, never the exception's own. */
  function Generico(): (e: ApiError)
    ensures e.status == InternalServerError
  {
    ApiError(InternalServerError, MensajeInterno, Texto(Some(DetalleInterno)))
  }

  /** The status of each kind of exception. */
  lemma StatusPorTipo(ex: Excepcion)
    ensures ex.EntityNotFound? || ex.NoHandlerFound? ==> Manejar(ex).status == NotFound
    ensures ex.RecursoNoDisponible? || ex.DataIntegrityViolation? ==> Manejar(ex).status == Conflict
    ensures (ex.IllegalArgument? || ex.MethodArgumentNotValid? || ex.MethodArgumentTypeMismatch?
      || ex.ConstraintViolation? || ex.HttpMessageNotReadable?) ==> Manejar(ex).status == BadRequest
    ensures ex.Runtime? || ex.NullPointer? || ex.IncorrectResultSize? || ex.UsernameNotFound? ==>
      Manejar(ex).status == InternalServerError
  {
  }

  /** The generic response depends on nothing the exception carries, and the
      exception's own text never reaches it. */
  lemma GenericoSinTexto(a: string, b: string)
    ensures Manejar(Runtime(a)) == Manejar(Runtime(b)) == Manejar(NullPointer) == Manejar(IncorrectResultSize)
    ensures Manejar(Runtime(a)).detalles == Texto(Some(DetalleInterno))
  {
  }

  /** Bean-validation errors: the map's keys are exactly the fields that have a field
      error; object-level errors leave no trace. */
  lemma CamposDelMapa(errores: seq<ErrorValidacion>, k: string)
    ensures k in UltimoGana(ErroresDeCampo(errores)) <==> exists m :: ErrorCampo(k, m) in errores
  {
    var pares := ErroresDeCampo(errores);
    if k in UltimoGana(pares) {
      var j := UltimaPosicion(pares, k);
      assert pares[j] in pares;
      assert ErrorCampo(k, pares[j].1) in errores;
    }
    if exists m :: ErrorCampo(k, m) in errores {
      var m :| ErrorCampo(k, m) in errores;
      assert (k, m) in pares;
      var j :| 0 <= j < |pares| && pares[j] == (k, m);
      assert pares[j].0 == k;
    }
  }

  /** The field errors keep the binding result's order: those of a concatenation are
      those of its first part followed by those of its second. */
  lemma {:induction false} ErroresDeCampoConcatena(a: seq<ErrorValidacion>, b: seq<ErrorValidacion>)
    ensures ErroresDeCampo(a + b) == ErroresDeCampo(a) + ErroresDeCampo(b)
    decreases |a|
  {
    if a == [] {
      assert a + b == b;
    } else {
      assert (a + b)[0] == a[0];
      assert (a + b)[1..] == a[1..] + b;
      ErroresDeCampoConcatena(a[1..], b);
    }
  }

  /** The last pair with a key is the one after which no pair has that key. */
  lemma UltimaPosicionTras(p: seq<(string, string)>, x: (string, string), q: seq<(string, string)>)
    requires forall j :: 0 <= j < |q| ==> q[j].0 != x.0
    ensures UltimaPosicion(p + [x] + q, x.0) == |p|
  {
    var pares := p + [x] + q;
    assert |pares| == |p| + 1 + |q|;
    assert pares[|p|].0 == x.0;
    forall j | |p| < j < |pares|
      ensures pares[j].0 != x.0
    {
      assert pares[j] == q[j - |p| - 1];
    }
    var r := UltimaPosicion(pares, x.0);
    assert r >= |p|;
  }

  /** Last wins, for every binding result: a field's entry in the map is the message of
      the last field error on that field, whatever comes before it. */
  lemma UltimoCampoGana(antes: seq<ErrorValidacion>, campo: string, m: string, despues: seq<ErrorValidacion>)
    requires forall x :: ErrorCampo(campo, x) !in despues
    ensures var mapa := UltimoGana(ErroresDeCampo(antes + [ErrorCampo(campo, m)] + despues));
      campo in mapa && mapa[campo] == m
  {
    var p := ErroresDeCampo(antes);
    var q := ErroresDeCampo(despues);
    assert ErroresDeCampo([ErrorCampo(campo, m)]) == [(campo, m)] by {
      assert [ErrorCampo(campo, m)][1..] == [];
    }
    ErroresDeCampoConcatena(antes, [ErrorCampo(campo, m)]);
    ErroresDeCampoConcatena(antes + [ErrorCampo(campo, m)], despues);
    forall j | 0 <= j < |q|
      ensures q[j].0 != campo
    {
      assert q[j] in q;
    }
    UltimaPosicionTras(p, (campo, m), q);
  }

  /** A repeated field keeps its last message, and an object-level error in between is dropped. */
  lemma ValidacionUltimoGana(campo: string, m1: string, m2: string, g: string)
    ensures Manejar(MethodArgumentNotValid([ErrorCampo(campo, m1), ErrorObjeto(g), ErrorCampo(campo, m2)]))
      == ApiError(BadRequest, MensajeValidacion, Mapa(map[campo := m2]))
  {
    var errores := [ErrorCampo(campo, m1), ErrorObjeto(g), ErrorCampo(campo, m2)];
    assert errores[1..] == [ErrorObjeto(g), ErrorCampo(campo, m2)];
    assert errores[1..][1..] == [ErrorCampo(campo, m2)];
    assert errores[1..][1..][1..] == [];
    assert ErroresDeCampo(errores[1..][1..]) == [(campo, m2)];
    assert ErroresDeCampo(errores[1..]) == [(campo, m2)];
    var pares := [(campo, m1), (campo, m2)];
    assert ErroresDeCampo(errores) == pares;
    var m := UltimoGana(pares);
    assert UltimaPosicion(pares, campo) == 1;
    forall k
      ensures k in m <==> k == campo
    {
      if k != campo {
        assert pares[..1] == [(campo, m1)];
        assert pares[..1][..0] == [];
        assert UltimaPosicion(pares, k) == -1;
      }
    }
    assert m == map[campo := m2];
  }
}
