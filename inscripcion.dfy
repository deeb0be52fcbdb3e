/** Enrollments: the stored record, the repository queries as functions over the store,
    the three state changes as functions over the store, and the service as a class
    whose methods replace the store by the changed one. */
module Inscripciones {
  import opened Wrappers
  import opened Tipos
  import opened Excepciones
  import opened JavaStrings
  import opened EstudianteDatos

  datatype EstadoInscripcion = PENDIENTE | APROBADA | RECHAZADA | CANCELADA

  /** A stored enrollment; the student and the course are referenced by id. */
  datatype Inscripcion = Inscripcion(
    id: Id,
    estudianteId: Id,
    materiaId: Id,
    fechaInscripcion: Fecha,
    estado: EstadoInscripcion,
    activo: bool)

  /** What the service reads of a stored course: its name and the ids of its
      direct prerequisites (a loaded entity's list is never null). */
  datatype MateriaFila = MateriaFila(nombreMateria: Option<string>, prerequisitos: seq<Id>)

  datatype InscripcionDTO = InscripcionDTO(
    id: Option<Id>,
    estudianteId: Option<Id>,
    estudianteNombre: Option<string>,
    materiaId: Option<Id>,
    materiaNombre: Option<string>,
    fechaInscripcion: Option<Fecha>,
    estado: Option<EstadoInscripcion>,
    activo: Option<bool>)

  /** The enrollment table, by id. */
  type Almacen = map<Id, Inscripcion>

  const EstudianteNoEncontrado := "Estudiante no encontrado o inactivo"
  const MateriaNoEncontrada := "Materia no encontrada o inactiva"
  const YaInscrito := "El estudiante ya está inscrito en esta materia"
  const SinPrerequisitos := "No cumple con los prerequisitos necesarios"
  const InscripcionNoEncontrada := "Inscripcion no encontrada"
  const InscripcionNoEncontradaAcento := "Inscripción no encontrada"
  const InscripcionInactiva := "No se puede modificar una inscripción inactiva"
  const InscripcionAprobada := "No se puede cancelar una inscripción aprobada"

  // ----- Repository queries -----

  /** `findByEstudianteId`: the JPQL selects the student's enrollments whose `activo` is true. */
  function FindByEstudianteId(s: Almacen, estudianteId: Id): (r: Almacen)
    ensures forall k :: k in r <==> k in s && s[k].estudianteId == estudianteId && s[k].activo
    ensures forall k :: k in r ==> r[k] == s[k]
  {
    map k | k in s && s[k].estudianteId == estudianteId && s[k].activo :: s[k]
  }

  /** `findByIdAndActivoTrue`. */
  function FindByIdAndActivoTrue(s: Almacen, id: Id): (r: Option<Inscripcion>)
    ensures r.Some? <==> id in s && s[id].activo
    ensures r.Some? ==> r.value == s[id]
  {
    if id in s && s[id].activo then Some(s[id]) else None
  }

  /** An active enrollment of that student in that course. */
  predicate EsActivaDelPar(i: Inscripcion, estudianteId: Id, materiaId: Id) {
    i.activo && i.estudianteId == estudianteId && i.materiaId == materiaId
  }

  /** `existsByEstudianteIdAndMateriaIdAndActivoTrue`. */
  predicate ExistsActivo(s: Almacen, estudianteId: Id, materiaId: Id) {
    exists k :: k in s && EsActivaDelPar(s[k], estudianteId, materiaId)
  }

  /** The duplicate test agrees with the student's listing: an active enrollment in the
      course exists exactly when the listing holds one for that course. */
  lemma ExistsActivoSiListada(s: Almacen, estudianteId: Id, materiaId: Id)
    ensures ExistsActivo(s, estudianteId, materiaId) <==>
      exists k :: k in FindByEstudianteId(s, estudianteId) && FindByEstudianteId(s, estudianteId)[k].materiaId == materiaId
  {
    var l := FindByEstudianteId(s, estudianteId);
    if ExistsActivo(s, estudianteId, materiaId) {
      var k :| k in s && EsActivaDelPar(s[k], estudianteId, materiaId);
      assert k in l && l[k].materiaId == materiaId;
    }
    if exists k :: k in l && l[k].materiaId == materiaId {
      var k :| k in l && l[k].materiaId == materiaId;
      assert k in s && EsActivaDelPar(s[k], estudianteId, materiaId);
    }
  }

  /** The direct prerequisites of a course, as the JPQL sub-select yields them: none for a
      course that is not stored. */
  function PrerequisitosDe(materias: map<Id, MateriaFila>, materiaId: Id): (r: seq<Id>)
    ensures materiaId in materias ==> r == materias[materiaId].prerequisitos
    ensures materiaId !in materias ==> r == []
  {
    if materiaId in materias then materias[materiaId].prerequisitos else []
  }

  /** An APROBADA enrollment of the student, active or not, in one of the courses `ps`. */
  predicate AprobadaEnAlguna(i: Inscripcion, estudianteId: Id, ps: seq<Id>) {
    i.estudianteId == estudianteId && i.estado == APROBADA && i.materiaId in ps
  }

  /** `verificarPrerequisitosCompletos`: COUNT > 0 of that select. */
  predicate VerificarPrerequisitosCompletos(s: Almacen, materias: map<Id, MateriaFila>, estudianteId: Id, materiaId: Id) {
    exists k :: k in s && AprobadaEnAlguna(s[k], estudianteId, PrerequisitosDe(materias, materiaId))
  }

  /** One approved prerequisite is enough; the others need not be approved. */
  lemma UnPrerequisitoBasta(s: Almacen, materias: map<Id, MateriaFila>, estudianteId: Id, materiaId: Id, k: Id)
    requires materiaId in materias && k in s
    requires s[k].estudianteId == estudianteId && s[k].estado == APROBADA
    requires s[k].materiaId in materias[materiaId].prerequisitos
    ensures VerificarPrerequisitosCompletos(s, materias, estudianteId, materiaId)
  {
    assert AprobadaEnAlguna(s[k], estudianteId, PrerequisitosDe(materias, materiaId));
  }

  /** A course without prerequisites can never be passed by that query. */
  lemma SinPrerequisitosNuncaVerifica(s: Almacen, materias: map<Id, MateriaFila>, estudianteId: Id, materiaId: Id)
    requires PrerequisitosDe(materias, materiaId) == []
    ensures !VerificarPrerequisitosCompletos(s, materias, estudianteId, materiaId)
  {
  }

  // ----- Invariants of the table -----

  /** At most one active enrollment per (student, course) pair. */
  ghost predicate UnaActivaPorPar(s: Almacen) {
    forall a, b :: a in s && b in s && s[a].activo && s[b].activo
      && s[a].estudianteId == s[b].estudianteId && s[a].materiaId == s[b].materiaId
      ==> a == b
  }

  /** An inactive enrollment has been cancelled. */
  ghost predicate InactivaEsCancelada(s: Almacen) {
    forall k :: k in s && !s[k].activo ==> s[k].estado == CANCELADA
  }

  ghost predicate Invariantes(s: Almacen) {
    UnaActivaPorPar(s) && InactivaEsCancelada(s)
  }

  /** Under the invariant an APROBADA enrollment is active, so "active or not" in the
      prerequisite query changes nothing: it may as well read the student's listing. */
  lemma PrerequisitoSoloActivas(s: Almacen, materias: map<Id, MateriaFila>, estudianteId: Id, materiaId: Id)
    requires InactivaEsCancelada(s)
    ensures VerificarPrerequisitosCompletos(s, materias, estudianteId, materiaId) <==>
      exists k :: k in FindByEstudianteId(s, estudianteId)
        && AprobadaEnAlguna(FindByEstudianteId(s, estudianteId)[k], estudianteId, PrerequisitosDe(materias, materiaId))
  {
    var l := FindByEstudianteId(s, estudianteId);
    var ps := PrerequisitosDe(materias, materiaId);
    if VerificarPrerequisitosCompletos(s, materias, estudianteId, materiaId) {
      var k :| k in s && AprobadaEnAlguna(s[k], estudianteId, ps);
      assert s[k].activo;
      assert k in l && AprobadaEnAlguna(l[k], estudianteId, ps);
    }
    if exists k :: k in l && AprobadaEnAlguna(l[k], estudianteId, ps) {
      var k :| k in l && AprobadaEnAlguna(l[k], estudianteId, ps);
      assert k in s && AprobadaEnAlguna(s[k], estudianteId, ps);
    }
  }

  // ----- The three changes to the table -----

  /** The record `crear` builds: PENDIENTE, active, the requested date. */
  function Nueva(id: Id, estudianteId: Id, materiaId: Id, fecha: Fecha): (i: Inscripcion)
    ensures i.estado == PENDIENTE && i.activo
    ensures i.id == id && i.estudianteId == estudianteId && i.materiaId == materiaId && i.fechaInscripcion == fecha
  {
    Inscripcion(id, estudianteId, materiaId, fecha, PENDIENTE, true)
  }

  /** `setEstado(estado)` on one enrollment. */
  function ConEstado(s: Almacen, id: Id, estado: EstadoInscripcion): (r: Almacen)
    requires id in s
    ensures r.Keys == s.Keys && r[id] == s[id].(estado := estado)
    ensures forall k :: k in s && k != id ==> r[k] == s[k]
  {
    s[id := s[id].(estado := estado)]
  }

  /** `setEstado(CANCELADA)` then `setActivo(false)` on one enrollment. */
  function Cancelada(s: Almacen, id: Id): (r: Almacen)
    requires id in s
    ensures r.Keys == s.Keys && r[id] == s[id].(estado := CANCELADA, activo := false)
    ensures forall k :: k in s && k != id ==> r[k] == s[k]
  {
    s[id := s[id].(estado := CANCELADA, activo := false)]
  }

  /** Adding an enrollment for a pair that has no active one keeps both invariants. */
  lemma {:induction false} AltaConserva(s: Almacen, i: Inscripcion)
    requires Invariantes(s) && i.id !in s && i.activo
    requires !ExistsActivo(s, i.estudianteId, i.materiaId)
    ensures Invariantes(s[i.id := i])
  {
    var t := s[i.id := i];
    forall a, b | a in t && b in t && t[a].activo && t[b].activo
      && t[a].estudianteId == t[b].estudianteId && t[a].materiaId == t[b].materiaId
      ensures a == b
    {
      if a == i.id && b != i.id {
        assert b in s && EsActivaDelPar(s[b], i.estudianteId, i.materiaId);
      } else if b == i.id && a != i.id {
        assert a in s && EsActivaDelPar(s[a], i.estudianteId, i.materiaId);
      }
    }
  }

  /** Re-statusing an active enrollment keeps both invariants: the flag does not move. */
  lemma ConEstadoConserva(s: Almacen, id: Id, estado: EstadoInscripcion)
    requires Invariantes(s) && id in s && s[id].activo
    ensures Invariantes(ConEstado(s, id, estado))
  {
    var t := ConEstado(s, id, estado);
    assert forall k :: k in t ==>
      t[k].activo == s[k].activo && t[k].estudianteId == s[k].estudianteId && t[k].materiaId == s[k].materiaId;
  }

  /** Cancelling keeps both invariants: one fewer active enrollment, and it is CANCELADA. */
  lemma CanceladaConserva(s: Almacen, id: Id)
    requires Invariantes(s) && id in s
    ensures Invariantes(Cancelada(s, id))
  {
  }

  /** Once the pair's active enrollment is cancelled the pair has none left, so it may enrol again. */
  lemma CanceladaLiberaPar(s: Almacen, id: Id)
    requires UnaActivaPorPar(s) && id in s && s[id].activo
    ensures !ExistsActivo(Cancelada(s, id), s[id].estudianteId, s[id].materiaId)
  {
    var t := Cancelada(s, id);
    forall k | k in t
      ensures !EsActivaDelPar(t[k], s[id].estudianteId, s[id].materiaId)
    {
      if k != id {
        assert t[k] == s[k];
      }
    }
  }

  /** Cancelling twice is cancelling once, and a cancelled, inactive enrollment is left as it is. */
  lemma CanceladaIdempotente(s: Almacen, id: Id)
    requires id in s
    ensures Cancelada(Cancelada(s, id), id) == Cancelada(s, id)
    ensures s[id].estado == CANCELADA && !s[id].activo ==> Cancelada(s, id) == s
  {
    if s[id].estado == CANCELADA && !s[id].activo {
      assert s[id].(estado := CANCELADA, activo := false) == s[id];
    }
  }

  // ----- The service -----

  /** `convertToDTO`; Java's string concatenation writes a null name as "null". */
  function ADTO(i: Inscripcion, estudiantes: map<Id, Estudiante>, materias: map<Id, MateriaFila>): (d: InscripcionDTO)
    requires i.estudianteId in estudiantes && i.materiaId in materias
    ensures d.id == Some(i.id) && d.estudianteId == Some(i.estudianteId) && d.materiaId == Some(i.materiaId)
    ensures d.fechaInscripcion == Some(i.fechaInscripcion) && d.estado == Some(i.estado) && d.activo == Some(i.activo)
    ensures d.materiaNombre == materias[i.materiaId].nombreMateria
    ensures d.estudianteNombre == Some(Show(estudiantes[i.estudianteId].nombre) + " "
      + Show(estudiantes[i.estudianteId].apellido))
  {
    var e := estudiantes[i.estudianteId];
    InscripcionDTO(Some(i.id), Some(i.estudianteId), Some(Show(e.nombre) + " " + Show(e.apellido)),
      Some(i.materiaId), materias[i.materiaId].nombreMateria, Some(i.fechaInscripcion), Some(i.estado),
      Some(i.activo))
  }

  /** An example of the student name: a missing last name is written "null". */
  lemma NombreCompleto(i: Inscripcion, estudiantes: map<Id, Estudiante>, materias: map<Id, MateriaFila>)
    requires i.estudianteId in estudiantes && i.materiaId in materias
    requires estudiantes[i.estudianteId].nombre == Some("Ana") && estudiantes[i.estudianteId].apellido.None?
    ensures ADTO(i, estudiantes, materias).estudianteNombre == Some("Ana null")
  {
    assert "Ana" + " " + "null" == "Ana null";
  }

  /** Every enrollment has its own id as key, below the next identity value, and refers to
      a stored student and a stored course; both invariants hold. */
  ghost predicate AlmacenValido(s: Almacen, siguienteId: Id, estudiantes: map<Id, Estudiante>, materias: map<Id, MateriaFila>) {
    && (forall k :: k in s ==> s[k].id == k && k < siguienteId)
    && (forall k :: k in s ==> s[k].estudianteId in estudiantes && s[k].materiaId in materias)
    && Invariantes(s)
  }

  /** `InscripcionServiceImpl`. The student and course tables are read-only here. */
  class InscripcionService {
    var inscripciones: Almacen
    var siguienteId: Id
    const estudiantes: map<Id, Estudiante>
    const materias: map<Id, MateriaFila>

    ghost predicate Valid()
      reads this
    {
      AlmacenValido(inscripciones, siguienteId, estudiantes, materias)
    }

    constructor (estudiantes: map<Id, Estudiante>, materias: map<Id, MateriaFila>)
      ensures Valid() && inscripciones == map[] && siguienteId == 1
      ensures this.estudiantes == estudiantes && this.materias == materias
    {
      this.estudiantes := estudiantes;
      this.materias := materias;
      inscripciones := map[];
      siguienteId := 1;
    }

    /** `obtenerInscripcionesPorEstudiante`: the DTOs of the student's active enrollments,
        by id (the query has no ORDER BY). */
    function ObtenerInscripcionesPorEstudiante(estudianteId: Id): (r: map<Id, InscripcionDTO>)
      requires Valid()
      reads this
      ensures forall k :: k in r <==> k in inscripciones && inscripciones[k].estudianteId == estudianteId && inscripciones[k].activo
      ensures forall k :: k in r ==> r[k] == ADTO(inscripciones[k], estudiantes, materias)
      ensures forall k :: k in r ==> r[k].id == Some(k) && r[k].estudianteId == Some(estudianteId) && r[k].activo == Some(true)
    {
      var l := FindByEstudianteId(inscripciones, estudianteId);
      map k | k in l :: ADTO(l[k], estudiantes, materias)
    }

    /** `obtenerPorId`: a cancelled enrollment is not found. */
    function ObtenerPorId(id: Id): (r: Result<InscripcionDTO, Excepcion>)
      requires Valid()
      reads this
      ensures r.Success? <==> id in inscripciones && inscripciones[id].activo
      ensures r.Failure? ==> r.error == EntityNotFound(InscripcionNoEncontrada)
      ensures r.Success? ==> r.value == ADTO(inscripciones[id], estudiantes, materias)
    {
      match FindByIdAndActivoTrue(inscripciones, id)
      case None => Failure(EntityNotFound(InscripcionNoEncontrada))
      case Some(i) => Success(ADTO(i, estudiantes, materias))
    }

    /** `crear`. The DTO has passed bean validation, so its two ids and its date are set;
        its other fields are ignored. The checks run in the source's order and the first
        that fails decides; only a request passing all four saves anything. */
    method Crear(dto: InscripcionDTO) returns (r: Result<InscripcionDTO, Excepcion>)
      requires Valid()
      requires dto.estudianteId.Some? && dto.materiaId.Some? && dto.fechaInscripcion.Some?
      modifies this
      ensures Valid()
      ensures r.Failure? ==> inscripciones == old(inscripciones) && siguienteId == old(siguienteId)
      ensures dto.estudianteId.value !in estudiantes ==> r == Failure(EntityNotFound(EstudianteNoEncontrado))
      ensures dto.estudianteId.value in estudiantes && dto.materiaId.value !in materias ==>
        r == Failure(EntityNotFound(MateriaNoEncontrada))
      ensures (dto.estudianteId.value in estudiantes && dto.materiaId.value in materias
        && ExistsActivo(old(inscripciones), dto.estudianteId.value, dto.materiaId.value)) ==>
        r == Failure(Runtime(YaInscrito))
      ensures (dto.estudianteId.value in estudiantes && dto.materiaId.value in materias
        && !ExistsActivo(old(inscripciones), dto.estudianteId.value, dto.materiaId.value)
        && |materias[dto.materiaId.value].prerequisitos| > 0
        && !VerificarPrerequisitosCompletos(old(inscripciones), materias, dto.estudianteId.value, dto.materiaId.value)) ==>
        r == Failure(Runtime(SinPrerequisitos))
      ensures r.Success? <==>
        && dto.estudianteId.value in estudiantes && dto.materiaId.value in materias
        && !ExistsActivo(old(inscripciones), dto.estudianteId.value, dto.materiaId.value)
        && (|materias[dto.materiaId.value].prerequisitos| == 0
            || VerificarPrerequisitosCompletos(old(inscripciones), materias, dto.estudianteId.value, dto.materiaId.value))
      ensures r.Success? ==>
        var i := Nueva(old(siguienteId), dto.estudianteId.value, dto.materiaId.value, dto.fechaInscripcion.value);
        && old(siguienteId) !in old(inscripciones)
        && inscripciones == old(inscripciones)[old(siguienteId) := i]
        && siguienteId == old(siguienteId) + 1
        && r.value == ADTO(i, estudiantes, materias)
        && r.value.estudianteNombre == Some(Show(estudiantes[i.estudianteId].nombre) + " " + Show(estudiantes[i.estudianteId].apellido))
    {
      var estudianteId := dto.estudianteId.value;
      var materiaId := dto.materiaId.value;
      if estudianteId !in estudiantes {
        return Failure(EntityNotFound(EstudianteNoEncontrado));
      }
      if materiaId !in materias {
        return Failure(EntityNotFound(MateriaNoEncontrada));
      }
      if ExistsActivo(inscripciones, estudianteId, materiaId) {
        return Failure(Runtime(YaInscrito));
      }
      if |materias[materiaId].prerequisitos| != 0
        && !VerificarPrerequisitosCompletos(inscripciones, materias, estudianteId, materiaId)
      {
        return Failure(Runtime(SinPrerequisitos));
      }
      var i := Nueva(siguienteId, estudianteId, materiaId, dto.fechaInscripcion.value);
      AltaConserva(inscripciones, i);
      inscripciones := inscripciones[siguienteId := i];
      siguienteId := siguienteId + 1;
      r := Success(ADTO(i, estudiantes, materias));
    }

    /** `actualizarEstado`: any status may be set on an active enrollment, and nothing else changes. */
    method ActualizarEstado(id: Id, estado: EstadoInscripcion) returns (r: Result<InscripcionDTO, Excepcion>)
      requires Valid()
      modifies this
      ensures Valid() && siguienteId == old(siguienteId)
      ensures id !in old(inscripciones) ==>
        r == Failure(EntityNotFound(InscripcionNoEncontradaAcento)) && inscripciones == old(inscripciones)
      ensures id in old(inscripciones) && !old(inscripciones)[id].activo ==>
        r == Failure(Runtime(InscripcionInactiva)) && inscripciones == old(inscripciones)
      ensures id in old(inscripciones) && old(inscripciones)[id].activo ==>
        && inscripciones == ConEstado(old(inscripciones), id, estado)
        && r == Success(ADTO(inscripciones[id], estudiantes, materias))
    {
      if id !in inscripciones {
        return Failure(EntityNotFound(InscripcionNoEncontradaAcento));
      }
      if !inscripciones[id].activo {
        return Failure(Runtime(InscripcionInactiva));
      }
      ConEstadoConserva(inscripciones, id, estado);
      inscripciones := ConEstado(inscripciones, id, estado);
      r := Success(ADTO(inscripciones[id], estudiantes, materias));
    }

    /** `cancelarInscripcion`: anything but an APROBADA enrollment becomes CANCELADA and
        inactive, whatever its flag was. */
    method CancelarInscripcion(id: Id) returns (r: Outcome<Excepcion>)
      requires Valid()
      modifies this
      ensures Valid() && siguienteId == old(siguienteId)
      ensures id !in old(inscripciones) ==>
        r == Fail(EntityNotFound(InscripcionNoEncontradaAcento)) && inscripciones == old(inscripciones)
      ensures id in old(inscripciones) && old(inscripciones)[id].estado == APROBADA ==>
        r == Fail(Runtime(InscripcionAprobada)) && inscripciones == old(inscripciones)
      ensures id in old(inscripciones) && old(inscripciones)[id].estado != APROBADA ==>
        r == Pass && inscripciones == Cancelada(old(inscripciones), id)
    {
      if id !in inscripciones {
        return Fail(EntityNotFound(InscripcionNoEncontradaAcento));
      }
      if inscripciones[id].estado == APROBADA {
        return Fail(Runtime(InscripcionAprobada));
      }
      CanceladaConserva(inscripciones, id);
      inscripciones := Cancelada(inscripciones, id);
      r := Pass;
    }
  }

  /** Cancelling the same enrollment twice succeeds both times and leaves the state of one
      cancellation; afterwards the pair can be enrolled again. */
  method CancelarDosVeces(svc: InscripcionService, id: Id)
    requires svc.Valid() && id in svc.inscripciones && svc.inscripciones[id].activo
    requires svc.inscripciones[id].estado != APROBADA
    modifies svc
    ensures svc.Valid() && svc.inscripciones == Cancelada(old(svc.inscripciones), id)
    ensures !ExistsActivo(svc.inscripciones, old(svc.inscripciones)[id].estudianteId, old(svc.inscripciones)[id].materiaId)
  {
    ghost var antes := svc.inscripciones;
    var r1 := svc.CancelarInscripcion(id);
    ghost var despues := svc.inscripciones;
    var r2 := svc.CancelarInscripcion(id);
    assert r1 == Pass && r2 == Pass;
    CanceladaIdempotente(antes, id);
    assert svc.inscripciones == despues;
    CanceladaLiberaPar(antes, id);
    assert !ExistsActivo(svc.inscripciones, antes[id].estudianteId, antes[id].materiaId);
  }
}
