/** The student service: list reads over the stored rows, the validated creation, the
    field-exact update and the logical delete. The table is kept in `findAll` order. */
module Estudiantes {
  import opened Wrappers
  import opened Tipos
  import opened Excepciones
  import opened JavaStrings
  import opened EstudianteDatos
  import opened Validacion

  const MensajeNoEncontrado := "Estudiante no encontrado"
  const UsuarioAdmin := "admin"
  const EstadoInactivo := "inactivo"

  /** The filter of `obtenerEstudianteActivo`: `"activo".equalsIgnoreCase(estado)`, which
      is false for a null `estado`. */
  predicate IsActivo(e: Estudiante) {
    e.estado.Some? && EqualsIgnoreCase("activo", e.estado.value)
  }

  /** Where `findById(id)` finds its row: the first row with that id, or -1. */
  function Posicion(filas: seq<Estudiante>, id: Id): (k: int)
    ensures -1 <= k < |filas|
    ensures k == -1 <==> forall i :: 0 <= i < |filas| ==> filas[i].id != Some(id)
    ensures k >= 0 ==> filas[k].id == Some(id) && forall i :: 0 <= i < k ==> filas[i].id != Some(id)
  {
    if filas == [] then -1
    else if filas[0].id == Some(id) then 0
    else
      var k := Posicion(filas[1..], id);
      if k == -1 then -1 else k + 1
  }

  /** The stream `filter` of `obtenerEstudianteActivo`: the active rows, in their order. */
  function FiltrarActivos(filas: seq<Estudiante>): (r: seq<Estudiante>)
    ensures |r| <= |filas|
    ensures forall e :: e in r <==> e in filas && IsActivo(e)
  {
    if filas == [] then []
    else if IsActivo(filas[0]) then [filas[0]] + FiltrarActivos(filas[1..])
    else FiltrarActivos(filas[1..])
  }

  /** The filter keeps store order: filtering a concatenation concatenates the filtered parts. */
  lemma {:induction false} FiltrarConcatena(a: seq<Estudiante>, b: seq<Estudiante>)
    ensures FiltrarActivos(a + b) == FiltrarActivos(a) + FiltrarActivos(b)
    decreases |a|
  {
    if a == [] {
      assert a + b == b;
    } else {
      assert (a + b)[1..] == a[1..] + b;
      FiltrarConcatena(a[1..], b);
    }
  }

  /** A row that is not active is dropped wherever it stands. */
  lemma FiltrarQuitaInactivo(a: seq<Estudiante>, e: Estudiante, b: seq<Estudiante>)
    requires !IsActivo(e)
    ensures FiltrarActivos(a + [e] + b) == FiltrarActivos(a) + FiltrarActivos(b)
  {
    assert FiltrarActivos([e]) == [] by {
      assert [e][1..] == [];
    }
    FiltrarConcatena(a, [e]);
    FiltrarConcatena(a + [e], b);
  }

  /** The stream `map(convertToDTO)`: one DTO per row, in the same order. */
  function ADTOs(filas: seq<Estudiante>): (r: seq<EstudianteDTO>)
    ensures |r| == |filas|
    ensures forall i :: 0 <= i < |filas| ==> r[i] == ConvertToDTO(filas[i])
  {
    if filas == [] then [] else [ConvertToDTO(filas[0])] + ADTOs(filas[1..])
  }

  /** The rows `findByNumeroInscripcion` matches; a null number is an `IS NULL` test. */
  function ConNumero(filas: seq<Estudiante>, numero: Option<string>): (r: seq<Estudiante>)
    ensures forall e :: e in r <==> e in filas && e.numeroInscripcion == numero
    ensures |r| <= |filas|
  {
    if filas == [] then []
    else if filas[0].numeroInscripcion == numero then [filas[0]] + ConNumero(filas[1..], numero)
    else ConNumero(filas[1..], numero)
  }

  /** `obtenerEstudiantePorNumeroInscripcion`: no match makes the finder return null and
      `convertToDTO` dereference it; more than one match makes the single-result finder throw. */
  function BuscarPorNumero(filas: seq<Estudiante>, numero: Option<string>): (r: Result<EstudianteDTO, Excepcion>)
    ensures r == Failure(NullPointer) <==> forall i :: 0 <= i < |filas| ==> filas[i].numeroInscripcion != numero
    ensures r.Success? ==> exists e :: e in filas && e.numeroInscripcion == numero && r.value == ConvertToDTO(e)
    ensures r.Success? ==> forall e, f :: (e in filas && f in filas && e.numeroInscripcion == numero
      && f.numeroInscripcion == numero) ==> e == f
    ensures |ConNumero(filas, numero)| == 1 ==> r == Success(ConvertToDTO(ConNumero(filas, numero)[0]))
    ensures |ConNumero(filas, numero)| > 1 ==> r == Failure(IncorrectResultSize)
  {
    var coinciden := ConNumero(filas, numero);
    if |coinciden| == 0 then
      assert forall i :: 0 <= i < |filas| ==> filas[i] !in coinciden;
      Failure(NullPointer)
    else if |coinciden| == 1 then
      assert coinciden[0] in coinciden;
      Success(ConvertToDTO(coinciden[0]))
    else
      assert coinciden[0] in coinciden;
      Failure(IncorrectResultSize)
  }

  /** `actualizarEstudiante`'s setters: the five personal fields from the DTO, then the
      modification audit fields. */
  function ConCambios(e: Estudiante, d: EstudianteDTO, hoy: Fecha): (r: Estudiante)
    ensures r.nombre == d.nombre && r.apellido == d.apellido && r.email == d.email
    ensures r.fechaNacimiento == d.fechaNacimiento && r.numeroInscripcion == d.numeroInscripcion
    ensures r.usuarioModificacion == Some(UsuarioAdmin) && r.fechaModificacion == Some(hoy)
    ensures r.(nombre := e.nombre, apellido := e.apellido, email := e.email,
      fechaNacimiento := e.fechaNacimiento, numeroInscripcion := e.numeroInscripcion,
      usuarioModificacion := e.usuarioModificacion, fechaModificacion := e.fechaModificacion) == e
  {
    e.(nombre := d.nombre, apellido := d.apellido, email := d.email,
       fechaNacimiento := d.fechaNacimiento, numeroInscripcion := d.numeroInscripcion,
       usuarioModificacion := Some(UsuarioAdmin), fechaModificacion := Some(hoy))
  }

  /** An update never changes whether a student is active, nor its id. */
  lemma ConCambiosConservaEstado(e: Estudiante, d: EstudianteDTO, hoy: Fecha)
    ensures IsActivo(ConCambios(e, d, hoy)) == IsActivo(e)
    ensures ConCambios(e, d, hoy).id == e.id
  {
  }

  /** Repeating an update with the same DTO on the same day changes nothing more. */
  lemma ConCambiosIdempotente(e: Estudiante, d: EstudianteDTO, hoy: Fecha)
    ensures ConCambios(ConCambios(e, d, hoy), d, hoy) == ConCambios(e, d, hoy)
  {
  }

  /** `eliminarEstudiante`'s setters: the logical delete. */
  function DeBaja(e: Estudiante, d: EstudianteDTO, hoy: Fecha): (r: Estudiante)
    ensures r.estado == Some(EstadoInactivo) && r.usuarioBaja == Some(UsuarioAdmin)
    ensures r.fechaBaja == Some(hoy) && r.motivoBaja == d.motivoBaja
    ensures r.(estado := e.estado, usuarioBaja := e.usuarioBaja, fechaBaja := e.fechaBaja,
      motivoBaja := e.motivoBaja) == e
  {
    e.(estado := Some(EstadoInactivo), usuarioBaja := Some(UsuarioAdmin), fechaBaja := Some(hoy),
       motivoBaja := d.motivoBaja)
  }

  /** A deleted student is no longer active, whatever its previous state. */
  lemma DeBajaNoActivo(e: Estudiante, d: EstudianteDTO, hoy: Fecha)
    ensures !IsActivo(DeBaja(e, d, hoy))
  {
  }

  /** Deleting twice with the same DTO on the same day is deleting once. */
  lemma DeBajaIdempotente(e: Estudiante, d: EstudianteDTO, hoy: Fecha)
    ensures DeBaja(DeBaja(e, d, hoy), d, hoy) == DeBaja(e, d, hoy)
  {
  }

  /** Every stored row has an id, below the next identity value, and no two rows share one. */
  ghost predicate TablaValida(filas: seq<Estudiante>, siguienteId: Id) {
    && (forall i :: 0 <= i < |filas| ==> filas[i].id.Some? && filas[i].id.value < siguienteId)
    && (forall i, j :: 0 <= i < j < |filas| ==> filas[i].id != filas[j].id)
  }

  /** Saving a row under the next identity value keeps the table valid. */
  lemma AnadirConservaTabla(filas: seq<Estudiante>, siguienteId: Id, e: Estudiante)
    requires TablaValida(filas, siguienteId) && e.id == Some(siguienteId)
    ensures TablaValida(filas + [e], siguienteId + 1)
  {
  }

  /** Replacing a row by one with the same id keeps the table valid. */
  lemma ReemplazarConservaTabla(filas: seq<Estudiante>, siguienteId: Id, k: int, e: Estudiante)
    requires TablaValida(filas, siguienteId) && 0 <= k < |filas| && e.id == filas[k].id
    ensures TablaValida(filas[k := e], siguienteId)
  {
  }

  /** Some stored row has the e-mail `x`. */
  predicate EmailGuardado(filas: seq<Estudiante>, x: string) {
    exists i :: 0 <= i < |filas| && filas[i].email == Some(x)
  }

  /** The non-null e-mails of the rows. */
  function EmailsDe(filas: seq<Estudiante>): (r: set<string>)
    ensures forall x :: x in r <==> EmailGuardado(filas, x)
  {
    if filas == [] then {}
    else
      var resto := EmailsDe(filas[1..]);
      assert forall x :: EmailGuardado(filas, x) <==> filas[0].email == Some(x) || EmailGuardado(filas[1..], x) by {
        forall x
          ensures EmailGuardado(filas, x) ==> filas[0].email == Some(x) || EmailGuardado(filas[1..], x)
        {
          if EmailGuardado(filas, x) && filas[0].email != Some(x) {
            var i :| 0 <= i < |filas| && filas[i].email == Some(x);
            assert filas[1..][i - 1] == filas[i];
          }
        }
        forall x | EmailGuardado(filas[1..], x)
          ensures EmailGuardado(filas, x)
        {
          var i :| 0 <= i < |filas[1..]| && filas[1..][i].email == Some(x);
          assert filas[i + 1] == filas[1..][i];
        }
      }
      if filas[0].email.Some? then {filas[0].email.value} + resto else resto
  }

  /** `EstudianteServiceImpl` over the student table. `siguienteId` is the next value of
      the identity column. */
  class EstudianteService {
    var filas: seq<Estudiante>
    var siguienteId: Id

    ghost predicate Valid()
      reads this
    {
      TablaValida(filas, siguienteId)
    }

    constructor ()
      ensures Valid() && filas == [] && siguienteId == 1
    {
      filas := [];
      siguienteId := 1;
    }

    /** The stored e-mails, against which `validaEmailUnico` checks. */
    function Emails(): (r: set<string>)
      reads this
      ensures forall x :: x in r <==> EmailGuardado(filas, x)
    {
      EmailsDe(filas)
    }

    /** `obtenerTodosLosEstudiantes`: one DTO per stored student, in store order. */
    function ObtenerTodosLosEstudiantes(): (r: seq<EstudianteDTO>)
      reads this
      ensures |r| == |filas|
      ensures forall i :: 0 <= i < |filas| ==> r[i] == ConvertToDTO(filas[i])
    {
      ADTOs(filas)
    }

    /** `obtenerEstudianteActivo`: the DTOs of exactly the active students, in store order. */
    function ObtenerEstudianteActivo(): (r: seq<EstudianteDTO>)
      reads this
      ensures |r| <= |filas|
      ensures forall i :: 0 <= i < |filas| && IsActivo(filas[i]) ==> ConvertToDTO(filas[i]) in r
      ensures forall d :: d in r ==> exists e :: e in filas && IsActivo(e) && d == ConvertToDTO(e)
    {
      var activos := FiltrarActivos(filas);
      var r := ADTOs(activos);
      assert forall i :: 0 <= i < |filas| && IsActivo(filas[i]) ==> filas[i] in activos;
      assert forall d :: d in r ==> exists k :: 0 <= k < |activos| && d == ConvertToDTO(activos[k]);
      r
    }

    /** `obtenerEstudiantePorNumeroInscripcion`. */
    function ObtenerEstudiantePorNumeroInscripcion(numero: Option<string>): (r: Result<EstudianteDTO, Excepcion>)
      reads this
      ensures r == Failure(NullPointer) <==> forall i :: 0 <= i < |filas| ==> filas[i].numeroInscripcion != numero
      ensures r.Success? ==> exists e :: e in filas && e.numeroInscripcion == numero && r.value == ConvertToDTO(e)
      ensures |ConNumero(filas, numero)| == 1 ==> r == Success(ConvertToDTO(ConNumero(filas, numero)[0]))
      ensures |ConNumero(filas, numero)| > 1 ==> r == Failure(IncorrectResultSize)
    {
      BuscarPorNumero(filas, numero)
    }

    /** `obtenerMateriasDeEstudiante`: the stored course list of the student, unchanged. */
    function ObtenerMateriasDeEstudiante(id: Id): (r: Result<seq<Id>, Excepcion>)
      reads this
      ensures r.Failure? <==> forall i :: 0 <= i < |filas| ==> filas[i].id != Some(id)
      ensures r.Failure? ==> r.error == Runtime(MensajeNoEncontrado)
      ensures r.Success? ==> exists i :: 0 <= i < |filas| && filas[i].id == Some(id) && r.value == filas[i].materias
    {
      var k := Posicion(filas, id);
      if k == -1 then Failure(Runtime(MensajeNoEncontrado)) else Success(filas[k].materias)
    }

    /** `crearEstudiante`: the complete validation against the stored e-mails; then `save`.
        The converted entity's `@Version` is null, so `save` persists it as new; the
        identity column then gives it the next identity value, and an id the DTO carried
        is discarded. The saved entity is returned as a DTO. */
    method CrearEstudiante(d: EstudianteDTO) returns (r: Result<EstudianteDTO, Excepcion>)
      requires Valid()
      modifies this
      ensures Valid()
      ensures var v := ValidacionCompletaEstudiante(d, old(Emails()));
        if v.Fail? then
          r == Failure(v.error) && filas == old(filas) && siguienteId == old(siguienteId)
        else
          && filas == old(filas) + [ConvertToEntity(d).(id := Some(old(siguienteId)))]
          && siguienteId == old(siguienteId) + 1
          && r == Success(ConvertToDTO(filas[|filas| - 1]))
    {
      var v := ValidacionCompletaEstudiante(d, Emails());
      if v.Fail? {
        return Failure(v.error);
      }
      var guardado := Guardar(ConvertToEntity(d));
      r := Success(ConvertToDTO(guardado));
    }

    /** `save` of a new entity: it is stored at the end of the table under the next
        identity value, and the stored entity is returned. */
    method Guardar(e: Estudiante) returns (g: Estudiante)
      requires Valid()
      modifies this
      ensures Valid()
      ensures g == e.(id := Some(old(siguienteId)))
      ensures filas == old(filas) + [g] && siguienteId == old(siguienteId) + 1
    {
      g := e.(id := Some(siguienteId));
      AnadirConservaTabla(filas, siguienteId, g);
      filas := filas + [g];
      siguienteId := siguienteId + 1;
    }

    /** `actualizarEstudiante`: the found row gets `ConCambios`; every other row stays. */
    method ActualizarEstudiante(id: Id, d: EstudianteDTO, hoy: Fecha) returns (r: Result<EstudianteDTO, Excepcion>)
      requires Valid()
      modifies this
      ensures Valid() && siguienteId == old(siguienteId) && |filas| == |old(filas)|
      ensures Posicion(old(filas), id) == -1 ==> r == Failure(Runtime(MensajeNoEncontrado)) && filas == old(filas)
      ensures Posicion(old(filas), id) >= 0 ==>
        var k := Posicion(old(filas), id);
        && filas == old(filas)[k := ConCambios(old(filas)[k], d, hoy)]
        && r == Success(ConvertToDTO(filas[k]))
    {
      var k := Posicion(filas, id);
      if k == -1 {
        return Failure(Runtime(MensajeNoEncontrado));
      }
      var nuevo := ConCambios(filas[k], d, hoy);
      ReemplazarConservaTabla(filas, siguienteId, k, nuevo);
      filas := filas[k := nuevo];
      r := Success(ConvertToDTO(nuevo));
    }

    /** `eliminarEstudiante`: a logical delete; no row is removed and the found one gets `DeBaja`. */
    method EliminarEstudiante(id: Id, d: EstudianteDTO, hoy: Fecha) returns (r: Result<EstudianteDTO, Excepcion>)
      requires Valid()
      modifies this
      ensures Valid() && siguienteId == old(siguienteId) && |filas| == |old(filas)|
      ensures Posicion(old(filas), id) == -1 ==> r == Failure(Runtime(MensajeNoEncontrado)) && filas == old(filas)
      ensures Posicion(old(filas), id) >= 0 ==>
        var k := Posicion(old(filas), id);
        && filas == old(filas)[k := DeBaja(old(filas)[k], d, hoy)]
        && r == Success(ConvertToDTO(filas[k]))
        && FiltrarActivos(filas) == FiltrarActivos(old(filas)[..k]) + FiltrarActivos(old(filas)[k + 1..])
    {
      var k := Posicion(filas, id);
      if k == -1 {
        return Failure(Runtime(MensajeNoEncontrado));
      }
      var nuevo := DeBaja(filas[k], d, hoy);
      ReemplazarConservaTabla(filas, siguienteId, k, nuevo);
      assert filas[k := nuevo] == filas[..k] + [nuevo] + filas[k + 1..];
      FiltrarQuitaInactivo(filas[..k], nuevo, filas[k + 1..]);
      filas := filas[k := nuevo];
      r := Success(ConvertToDTO(nuevo));
    }
  }
}
