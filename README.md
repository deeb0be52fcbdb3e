# University enrollment system — a Dafny model

This project models the core of a Spring Boot university back end and proves properties of that model. The back end keeps students, courses, enrollments ("inscripciones") and users.

The main subsystem modelled is enrollment. An enrollment links a student to a course. It has a status (PENDIENTE, APROBADA, RECHAZADA, CANCELADA) and an `activo` flag. Enrollments are created, re-statused and cancelled. No student may hold two active enrollments in the same course, and an inactive enrollment is always one that was cancelled.

The smaller rules around enrollment are modelled too:
- the prerequisite cycle check of a course, and the constraints on a course's code and credits;
- the student service:
  - its list reads, creation, field-exact update and logical delete;
  - its conversions between entity and transfer object;
- the manual student validator;
- sign-up:
  - the duplicate checks;
  - resolving role strings to roles;
  - building the user;
- how a stored user is loaded for authentication, with its `ROL_` → `ROLE_` authorities;
- how the bearer token is extracted from the Authorization header;
- how the global exception handler turns each exception into an HTTP status, a message and details.

Modules:
- `Wrappers`: the `Option`, `Result` and `Outcome` types.
- `JavaStrings`: the `java.lang.String` semantics the code relies on, such as `trim`, `indexOf`, `startsWith`, `contains`, `replace`, `equalsIgnoreCase` and `hasText`.
- `Excepciones`: one constructor per exception class the core throws or handles. A Java method that throws is modelled as returning `Result`; a void one as returning `Outcome`.
- `Tipos`: ids and dates.
- `Materias`: the course entity and its cycle check.
- `EstudianteDatos`, `Validacion`, `Estudiantes`: the student entity, its validator and its service.
- `Inscripciones`: the repository queries as functions over a map from id to enrollment, and the service as a class whose methods replace that map.
- `Registro`, `DetallesUsuario`, `FiltroJwt`: sign-up, user loading and header parsing.
- `ManejoErrores`, `Respuestas`: the exception handler, and what a client sees when a service call fails.

How state is modelled:
- Every service whose methods save or change rows is a `class`. It has a `Valid()` invariant that each method preserves, and each method's `ensures` states the whole new state.
- The cycle check is a method with loops. It is proved against a reachability specification.

Facts about the code that the model keeps:
- A duplicate active enrollment throws a plain `RuntimeException`. That reaches the generic handler, so the answer is 500, not 409. The same holds for an unmet prerequisite (`Respuestas.RechazosDeCrearSon500`).
- The text "Estudiante no encontrado o inactivo" suggests inactive students are refused. In fact `crear` looks the student up with a plain `findById`, so an inactive student can still enrol.
- `cancelarInscripcion` does not read `activo`, so cancelling an already-cancelled enrollment succeeds again. It is idempotent (`Inscripciones.CancelarDosVeces`).
- The sign-up body's constraints are imported from `javax.validation`, which the application's Jakarta validator does not read. So `registerUser` can receive null or blank fields and null role strings, and the model takes them as they come.

## Model

Source paths are relative to the repository root, under `src/main/java/com/universidad/`.

| member | source | states |
|---|---|---|
| Inscripciones.FindByEstudianteId | src/main/java/com/universidad/repository/InscripcionRepository.java:20-21 | the result holds exactly the enrollments of that student whose `activo` is true, each unchanged |
| Inscripciones.ExistsActivo | src/main/java/com/universidad/repository/InscripcionRepository.java:26 | the derived exists-query: some stored enrollment is active and has that student and that course |
| Inscripciones.VerificarPrerequisitosCompletos | src/main/java/com/universidad/repository/InscripcionRepository.java:27-31 | the JPQL COUNT > 0: some enrollment of the student, active or not, is APROBADA in a direct prerequisite of the course |
| Inscripciones.FindByIdAndActivoTrue | src/main/java/com/universidad/repository/InscripcionRepository.java:23-24 | a value comes back iff the id is stored and that enrollment is active, and it is the stored one |
| Inscripciones.ExistsActivoSiListada | src/main/java/com/universidad/repository/InscripcionRepository.java:26 | the derived exists-query is true iff the student's active listing holds an enrollment in that course |
| Inscripciones.PrerequisitosDe | src/main/java/com/universidad/repository/InscripcionRepository.java:29 | the sub-select yields the stored course's direct prerequisites, and none for a course that is not stored |
| Inscripciones.UnPrerequisitoBasta | src/main/java/com/universidad/repository/InscripcionRepository.java:27-31 | one APROBADA enrollment of the student in any one direct prerequisite makes the query true; the others need not be approved |
| Inscripciones.SinPrerequisitosNuncaVerifica | src/main/java/com/universidad/repository/InscripcionRepository.java:27-31 | with no prerequisites the COUNT is 0, so the query is false |
| Inscripciones.PrerequisitoSoloActivas | src/main/java/com/universidad/repository/InscripcionRepository.java:27-31 | the query also counts inactive enrollments; under the invariant "inactive means cancelled", that equals searching only the active listing |
| Inscripciones.Nueva | src/main/java/com/universidad/service/impl/InscripcionServiceImpl.java:78-84 | the built record is PENDIENTE and active, with the requested student, course and date |
| Inscripciones.ConEstado | src/main/java/com/universidad/service/impl/InscripcionServiceImpl.java:101 | only the status of that enrollment changes; every other enrollment and every other field stays |
| Inscripciones.Cancelada | src/main/java/com/universidad/service/impl/InscripcionServiceImpl.java:115-116 | that enrollment becomes CANCELADA and inactive whatever its flag was; every other enrollment stays |
| Inscripciones.AltaConserva | src/main/java/com/universidad/service/impl/InscripcionServiceImpl.java:66-87 | adding an active enrollment under a fresh id, for a pair with no active enrollment, keeps "one active per pair" and "inactive means cancelled" |
| Inscripciones.ConEstadoConserva | src/main/java/com/universidad/service/impl/InscripcionServiceImpl.java:97-101 | re-statusing an active enrollment keeps both invariants |
| Inscripciones.CanceladaConserva | src/main/java/com/universidad/service/impl/InscripcionServiceImpl.java:115-116 | cancelling keeps both invariants |
| Inscripciones.CanceladaLiberaPar | src/main/java/com/universidad/service/impl/InscripcionServiceImpl.java:115-116 | after an active enrollment is cancelled its (student, course) pair has no active enrollment left |
| Inscripciones.CanceladaIdempotente | src/main/java/com/universidad/service/impl/InscripcionServiceImpl.java:107-118 | cancelling twice equals cancelling once, and an already cancelled, inactive enrollment is left as it is |
| Inscripciones.ADTO | src/main/java/com/universidad/service/impl/InscripcionServiceImpl.java:120-131 | the DTO copies id, student id, course id, date, status and flag; the course name comes from the course; the student name is first name, a space and last name, each rendered as Java concatenation renders it |
| Inscripciones.NombreCompleto | src/main/java/com/universidad/service/impl/InscripcionServiceImpl.java:124 | an example: a student "Ana" without a last name is listed as "Ana null" |
| Inscripciones.InscripcionService.ObtenerInscripcionesPorEstudiante | src/main/java/com/universidad/service/impl/InscripcionServiceImpl.java:40-44 | one DTO per active enrollment of the student, keyed by its id; each is the converted DTO of that enrollment, so it carries that student and `activo = true` |
| Inscripciones.InscripcionService.ObtenerPorId | src/main/java/com/universidad/service/impl/InscripcionServiceImpl.java:48-52 | success iff the enrollment exists and is active, so a cancelled one is "Inscripcion no encontrada" (not found); on success the result is its DTO |
| Inscripciones.InscripcionService.Crear | src/main/java/com/universidad/service/impl/InscripcionServiceImpl.java:56-88 | failures come in this order: student missing, then course missing (not found), then duplicate active pair, then prerequisites unmet; any failure leaves the store unchanged; success holds iff all four checks pass, adds exactly one PENDIENTE active enrollment under a fresh id with every existing one unchanged, keeps the invariants, and returns its DTO with `nombre + " " + apellido` |
| Inscripciones.InscripcionService.ActualizarEstado | src/main/java/com/universidad/service/impl/InscripcionServiceImpl.java:93-103 | an absent id is not found; an inactive enrollment fails and nothing changes; otherwise any status may be set (RECHAZADA to PENDIENTE included), nothing else changes, and the invariants hold |
| Inscripciones.InscripcionService.CancelarInscripcion | src/main/java/com/universidad/service/impl/InscripcionServiceImpl.java:107-118 | an absent id is not found; an APROBADA enrollment fails and nothing changes; otherwise the enrollment becomes CANCELADA and inactive, and the invariants hold |
| Inscripciones.CancelarDosVeces | src/main/java/com/universidad/service/impl/InscripcionServiceImpl.java:107-118 | cancelling the same enrollment twice succeeds both times, leaves the state of one cancellation, and frees the pair for a new enrollment |
| Materias.NuevaMateria | src/main/java/com/universidad/model/Materia.java:30-34 | the three-argument constructor sets id, name and code; the credits and the prerequisite list stay null |
| Materias.CodigoValido | src/main/java/com/universidad/model/Materia.java:47-48 | a non-null code of exactly six chars: three letters A-Z, then three ASCII digits |
| Materias.CreditosValidos | src/main/java/com/universidad/model/Materia.java:53-54 | the credits are non-null and at least 1 |
| Materias.MateriaValida | src/main/java/com/universidad/model/Materia.java:47-57 | a course is valid iff its code and its credits both are |
| Materias.FormatoCodigoValido | src/main/java/com/universidad/model/Materia.java:47-48 | three upper-case letters followed by a number below 1000, written as three digits, match `[A-Z]{3}\d{3}` |
| Materias.CodigoValidoSeDescompone | src/main/java/com/universidad/model/Materia.java:47-48 | every matching code is its three letters followed by its three-digit number, so the pattern admits exactly those codes |
| Materias.NumeroDe | src/main/java/com/universidad/model/Materia.java:48 | the three digits of a valid code spell a number below 1000, so it can be written back out (what it means is `CodigoValidoSeDescompone`) |
| Materias.AlcanzableReflexivo | src/main/java/com/universidad/model/Materia.java:95 | every id reaches itself, which is why equal ids answer true |
| Materias.PasoExtiende | src/main/java/com/universidad/model/Materia.java:98-106 | one step followed by a path is a path |
| Materias.CaminoEnCerrado | src/main/java/com/universidad/model/Materia.java:96-111 | a path that starts inside a step-closed set of visited ids stays inside it |
| Materias.NoAlcanzableFueraDeCerrado | src/main/java/com/universidad/model/Materia.java:96-111 | nothing outside a step-closed set is reachable from inside it, so a false answer is complete |
| Materias.CerradoUnion | src/main/java/com/universidad/model/Materia.java:102-107 | the closure facts of two successive recursive calls combine |
| Materias.FormariaCirculoRecursivo | src/main/java/com/universidad/model/Materia.java:93-112 | a null id answers false; equal ids answer true before the visited test; an already visited id answers false; a null list answers false; the visited set only grows; true means the target is reachable from the current id by steps that rescan the root's own list; false means the newly visited ids are closed under those steps; a failure is the null-pointer exception of a null sub-prerequisite |
| Materias.FormariaCirculo | src/main/java/com/universidad/model/Materia.java:88-90 | apart from a null sub-prerequisite reference (which throws), the answer is true iff both ids are non-null and the course's own id is reachable from the candidate; a non-null id equal to the candidate answers true; a null list never throws |
| Materias.NuevaMateriaSinPasos | src/main/java/com/universidad/model/Materia.java:30-34 | a course built with the three-argument constructor has a null prerequisite list, so the search takes no step and meets no null reference |
| Materias.FormariaCirculoMateriaNueva | src/main/java/com/universidad/model/Materia.java:88-97 | on such a course the check answers true exactly when both ids are non-null and equal |
| EstudianteDatos.ConvertToDTO | src/main/java/com/universidad/service/impl/EstudianteServiceImpl.java:134-150 | every field is copied except `fechaModificacion`, which the builder is never given and so stays null |
| EstudianteDatos.ConvertToEntity | src/main/java/com/universidad/service/impl/EstudianteServiceImpl.java:153-170 | every DTO field is copied; the course list is left unset, so empty |
| EstudianteDatos.RoundTripDTO | src/main/java/com/universidad/service/impl/EstudianteServiceImpl.java:134-170 | DTO to entity and back preserves every DTO field except `fechaModificacion`, which comes back null |
| EstudianteDatos.RoundTripEntidad | src/main/java/com/universidad/service/impl/EstudianteServiceImpl.java:134-170 | entity to DTO and back loses exactly `fechaModificacion` and the course list |
| Validacion.ValidaEmailUnico | src/main/java/com/universidad/validation/EstudianteValidator.java:20-24 | rejects iff the e-mail is in the set of stored e-mails, with "Ya existe un usuario con este email" |
| Validacion.Dominio | src/main/java/com/universidad/validation/EstudianteValidator.java:27 | the domain is what follows the first '@', or the whole address when there is none |
| Validacion.ValidaDominioEmail | src/main/java/com/universidad/validation/EstudianteValidator.java:26-33 | a null e-mail throws a null-pointer exception; otherwise rejects iff the domain is "dominiobloqueado.com" or "spam.com" |
| Validacion.NuloOBlancoSiSoloBlancos | src/main/java/com/universidad/validation/EstudianteValidator.java:37 | "null or empty after `trim`" holds iff `s` is null or all its chars are at most U+0020 |
| Validacion.ValidaNombreEstudiante | src/main/java/com/universidad/validation/EstudianteValidator.java:36-40 | rejects exactly a null name and one made only of chars at most U+0020, with the name message |
| Validacion.ValidaApellidoEstudiante | src/main/java/com/universidad/validation/EstudianteValidator.java:43-47 | the same for the last name, with the last-name message |
| Validacion.ValidacionCompletaEstudiante | src/main/java/com/universidad/validation/EstudianteValidator.java:49-55 | passes iff all four checks pass; otherwise the error of the first failing check, in the order e-mail unique, domain, name, last name |
| Validacion.SinArrobaTodoEsDominio | src/main/java/com/universidad/validation/EstudianteValidator.java:27-31 | without an '@', "spam.com" is itself the domain and is rejected |
| Validacion.SoloCuentaLaPrimeraArroba | src/main/java/com/universidad/validation/EstudianteValidator.java:27-31 | only the first '@' counts: "a@b@spam.com" has domain "b@spam.com" and passes |
| JavaStrings.Show | src/main/java/com/universidad/service/impl/InscripcionServiceImpl.java:124 | string concatenation writes a null reference as "null" |
| JavaStrings.Replace | src/main/java/com/universidad/registro/service/UserDetailsServiceImpl.java:41 | `String.replace`: every occurrence of the target, left to right and without overlap, becomes the replacement |
| JavaStrings.StartsWith | src/main/java/com/universidad/registro/security/JwtAuthenticationFilter.java:84 | `startsWith`: the string's first chars are the prefix |
| JavaStrings.HasText | src/main/java/com/universidad/registro/security/JwtAuthenticationFilter.java:84 | `StringUtils.hasText`: not null and holding a char that is not whitespace |
| JavaStrings.Contains | src/main/java/com/universidad/validation/GlobalExceptionHandler.java:165-187 | `contains`: the text occurs as a contiguous block |
| JavaStrings.EqualsIgnoreCase | src/main/java/com/universidad/service/impl/EstudianteServiceImpl.java:61 | equal length and equal chars once ASCII letters are upper-cased |
| JavaStrings.Trim | src/main/java/com/universidad/validation/EstudianteValidator.java:37 | `trim` is empty iff every char is at most U+0020; otherwise its ends are not trimmable |
| JavaStrings.IndexOf | src/main/java/com/universidad/validation/EstudianteValidator.java:27 | -1 iff the char is absent; otherwise the index of its first occurrence |
| Estudiantes.Posicion | src/main/java/com/universidad/service/impl/EstudianteServiceImpl.java:94-95 | `findById` finds the first row with that id, or reports that no row has it |
| Estudiantes.FiltrarActivos | src/main/java/com/universidad/service/impl/EstudianteServiceImpl.java:60-61 | keeps exactly the rows whose `estado` equals "activo" ignoring case; a null `estado` is dropped |
| Estudiantes.FiltrarConcatena | src/main/java/com/universidad/service/impl/EstudianteServiceImpl.java:60-63 | the filter keeps store order: filtering a concatenation concatenates the filtered parts |
| Estudiantes.FiltrarQuitaInactivo | src/main/java/com/universidad/service/impl/EstudianteServiceImpl.java:60-63 | a row that is not active is dropped wherever it stands, and the rows around it keep their order |
| Estudiantes.ADTOs | src/main/java/com/universidad/service/impl/EstudianteServiceImpl.java:43-45 | one DTO per row, position by position |
| Estudiantes.ConNumero | src/main/java/com/universidad/service/impl/EstudianteServiceImpl.java:52 | the rows matched are exactly those with that enrollment number |
| Estudiantes.BuscarPorNumero | src/main/java/com/universidad/service/impl/EstudianteServiceImpl.java:50-54 | an unknown number fails with a null-pointer exception (the finder returns null and the converter dereferences it), and only then; a number held by exactly one row succeeds with that row's DTO; a number held by several rows makes the finder throw |
| Estudiantes.ConCambios | src/main/java/com/universidad/service/impl/EstudianteServiceImpl.java:96-102 | exactly `nombre`, `apellido`, `email`, `fechaNacimiento` and `numeroInscripcion` come from the DTO; `usuarioModificacion` becomes "admin" and `fechaModificacion` today; every other field is unchanged |
| Estudiantes.ConCambiosConservaEstado | src/main/java/com/universidad/service/impl/EstudianteServiceImpl.java:96-102 | an update changes neither the id nor whether the student is active |
| Estudiantes.ConCambiosIdempotente | src/main/java/com/universidad/service/impl/EstudianteServiceImpl.java:96-102 | repeating the same update on the same day changes nothing more |
| Estudiantes.DeBaja | src/main/java/com/universidad/service/impl/EstudianteServiceImpl.java:113-116 | `estado` becomes "inactivo", `usuarioBaja` "admin", `fechaBaja` today and `motivoBaja` the DTO's; every other field is unchanged |
| Estudiantes.DeBajaNoActivo | src/main/java/com/universidad/service/impl/EstudianteServiceImpl.java:113 | a deleted student is no longer listed as active |
| Estudiantes.DeBajaIdempotente | src/main/java/com/universidad/service/impl/EstudianteServiceImpl.java:113-116 | deleting twice with the same DTO on the same day is deleting once |
| Estudiantes.AnadirConservaTabla | src/main/java/com/universidad/service/impl/EstudianteServiceImpl.java:85 | saving under the next identity value keeps ids present and unique |
| Estudiantes.ReemplazarConservaTabla | src/main/java/com/universidad/service/impl/EstudianteServiceImpl.java:104 | saving a row back under its own id keeps ids present and unique |
| Estudiantes.EmailsDe | src/main/java/com/universidad/validation/EstudianteValidator.java:21 | an e-mail is in the set iff some row holds it, non-null |
| Estudiantes.EstudianteService.Guardar | src/main/java/com/universidad/service/impl/EstudianteServiceImpl.java:85 | `save` of a new entity stores it at the end of the table under the next identity value, returns it, and keeps ids present and unique |
| Estudiantes.EstudianteService.Emails | src/main/java/com/universidad/validation/EstudianteValidator.java:21 | exactly the non-null stored e-mails |
| Estudiantes.EstudianteService.ObtenerTodosLosEstudiantes | src/main/java/com/universidad/service/impl/EstudianteServiceImpl.java:41-46 | one DTO per stored student, in store order |
| Estudiantes.EstudianteService.ObtenerEstudianteActivo | src/main/java/com/universidad/service/impl/EstudianteServiceImpl.java:58-64 | the DTOs of exactly the active students, in store order, no more of them than there are rows |
| Estudiantes.EstudianteService.ObtenerEstudiantePorNumeroInscripcion | src/main/java/com/universidad/service/impl/EstudianteServiceImpl.java:50-54 | an unknown number fails with a null-pointer exception; a number held by exactly one stored row returns that row's DTO; several rows make the finder throw |
| Estudiantes.EstudianteService.ObtenerMateriasDeEstudiante | src/main/java/com/universidad/service/impl/EstudianteServiceImpl.java:69-74 | fails with "Estudiante no encontrado" iff no row has the id; otherwise it is that row's stored course list, unchanged |
| Estudiantes.EstudianteService.CrearEstudiante | src/main/java/com/universidad/service/impl/EstudianteServiceImpl.java:79-87 | a validation failure is returned and nothing is saved; otherwise exactly one row is appended, the converted DTO under the next identity value (an id the DTO carried is discarded), and its DTO returned |
| Estudiantes.EstudianteService.ActualizarEstudiante | src/main/java/com/universidad/service/impl/EstudianteServiceImpl.java:92-106 | an absent id fails and nothing changes; otherwise only the found row changes, to `ConCambios` of it, and its DTO is returned |
| Estudiantes.EstudianteService.EliminarEstudiante | src/main/java/com/universidad/service/impl/EstudianteServiceImpl.java:110-120 | an absent id fails and nothing changes; otherwise no row is removed, only the found row changes, to `DeBaja` of it, and the active listing loses exactly that row |
| Registro.NombreDeRol | src/main/java/com/universidad/registro/controller/AuthController.java:148-163 | case-sensitive: "admin" gives ROL_ADMIN, "docente" gives ROL_DOCENTE, anything else gives ROL_ESTUDIANTE (each an iff) |
| Registro.NombresPedidos | src/main/java/com/universidad/registro/controller/AuthController.java:142-164 | a null set asks for exactly {ROL_ESTUDIANTE}; otherwise the names asked for are the image of the set's non-null strings |
| Registro.SinRolesPedidos | src/main/java/com/universidad/registro/controller/AuthController.java:146-165 | a non-null empty set asks for no role |
| Registro.HayRolNulo | src/main/java/com/universidad/registro/controller/AuthController.java:147-148 | the request's set holds a null string, on which the `switch` throws |
| Registro.FaltaRol | src/main/java/com/universidad/registro/controller/AuthController.java:142-164 | some role name the request asks for is not stored, so its `findByNombre(...).orElseThrow` throws |
| Registro.RolesDe | src/main/java/com/universidad/registro/controller/AuthController.java:147-164 | the stored roles found for the request's non-null strings, one lookup per string |
| Registro.RolesDeEsImagen | src/main/java/com/universidad/registro/controller/AuthController.java:147-164 | the roles gathered one string at a time are the stored roles of the requested names |
| Registro.UsernameTomado | src/main/java/com/universidad/registro/controller/AuthController.java:113 | `existsByUsername`: a null username matches no stored user; otherwise some stored user has it |
| Registro.EmailTomado | src/main/java/com/universidad/registro/controller/AuthController.java:121 | `existsByEmail`, with the same reading of a null e-mail |
| Registro.AltaUsuarioConserva | src/main/java/com/universidad/registro/controller/AuthController.java:113-125 | saving a user whose username and e-mail are both new keeps both unique in the table |
| Registro.AuthService.ResolverRoles | src/main/java/com/universidad/registro/controller/AuthController.java:142-165 | a null set gives the stored ROL_ESTUDIANTE; otherwise exactly the stored roles of the requested names. A null string throws a null-pointer exception and a name whose role is not stored throws "Error: Rol no encontrado."; which one, when both occur, depends on the set's iteration order, and each is thrown only when its cause is present |
| Registro.AuthService.RegisterUser | src/main/java/com/universidad/registro/controller/AuthController.java:112-173 | failures in source order, none saving anything: a taken username is a bad request, checked before the e-mail; a taken e-mail is a bad request; a null password makes the encoder throw; a null role string throws a null-pointer exception and a role that is not stored throws "Error: Rol no encontrado." (which of the two, when both occur, depends on the set's iteration order); a null username or e-mail is refused by `save`. Otherwise exactly one user is saved, with the request's fields, the encoded password, active, and the resolved roles |
| DetallesUsuario.ReplaceCabeza | src/main/java/com/universidad/registro/service/UserDetailsServiceImpl.java:41 | `replace` rewrites an occurrence at the head and scans on |
| DetallesUsuario.ReplaceSinPrimera | src/main/java/com/universidad/registro/service/UserDetailsServiceImpl.java:41 | a string without the target's first char is left as it is |
| DetallesUsuario.NombreEnum | src/main/java/com/universidad/registro/service/UserDetailsServiceImpl.java:39 | `name()` of each role enum constant |
| DetallesUsuario.Authority | src/main/java/com/universidad/registro/service/UserDetailsServiceImpl.java:39-41 | the enum name with "ROL_" replaced by "ROLE_" |
| DetallesUsuario.NombreEnumPartes | src/main/java/com/universidad/registro/service/UserDetailsServiceImpl.java:39 | each enum name is "ROL_" followed by a part without an 'R' |
| DetallesUsuario.AuthorityRenombra | src/main/java/com/universidad/registro/service/UserDetailsServiceImpl.java:39-42 | each role name `ROL_X` becomes the authority `ROLE_X` |
| DetallesUsuario.AuthoritiesConocidas | src/main/java/com/universidad/registro/service/UserDetailsServiceImpl.java:40-41 | the three authorities are ROLE_ADMIN, ROLE_DOCENTE and ROLE_ESTUDIANTE |
| DetallesUsuario.AuthorityInyectiva | src/main/java/com/universidad/registro/service/UserDetailsServiceImpl.java:39-42 | distinct role names give distinct authorities |
| DetallesUsuario.Authorities | src/main/java/com/universidad/registro/service/UserDetailsServiceImpl.java:37-44 | the authorities are exactly the renamed names of the user's roles |
| DetallesUsuario.UnaAuthorityPorRol | src/main/java/com/universidad/registro/service/UserDetailsServiceImpl.java:37-44 | there are as many authorities as stored role names |
| DetallesUsuario.ImagenInyectiva | src/main/java/com/universidad/registro/service/UserDetailsServiceImpl.java:37-44 | renaming a set of role names keeps its size |
| DetallesUsuario.ConUsername | src/main/java/com/universidad/registro/service/UserDetailsServiceImpl.java:32 | the users matched are exactly those with that username; none iff the username is not stored |
| DetallesUsuario.DetallesDe | src/main/java/com/universidad/registro/service/UserDetailsServiceImpl.java:48-49 | the `User` built from a stored user: its username and password, `enabled` equal to its `activo`, the other three account flags true, and its authorities |
| DetallesUsuario.LoadUserByUsername | src/main/java/com/universidad/registro/service/UserDetailsServiceImpl.java:31-50 | an unknown username throws "Usuario no encontrado con username: " + username, and only then; one match gives that user's details, except that an empty username makes the `User` constructor throw; several matches make the finder throw; success is never for the empty username |
| DetallesUsuario.UsernameUnicoCarga | src/main/java/com/universidad/registro/service/UserDetailsServiceImpl.java:32-49 | with usernames unique, as sign-up keeps them, every stored non-empty username loads as that user's details, and a stored empty username (which sign-up can store) fails with the constructor's exception |
| DetallesUsuario.UnaCoincidencia | src/main/java/com/universidad/registro/service/UserDetailsServiceImpl.java:32 | unique usernames give at most one match |
| FiltroJwt.ParseJwt | src/main/java/com/universidad/registro/security/JwtAuthenticationFilter.java:78-90 | a token comes out only from a header that is "Bearer " followed by that token; an absent header gives none |
| FiltroJwt.ParseJwtRecupera | src/main/java/com/universidad/registro/security/JwtAuthenticationFilter.java:85 | `parseJwt("Bearer " + t) == t` for every t, the empty one included |
| FiltroJwt.ParseJwtSiSolo | src/main/java/com/universidad/registro/security/JwtAuthenticationFilter.java:84-85 | t comes out iff the header is "Bearer " + t, so the has-text test adds nothing to the prefix test |
| FiltroJwt.ParseJwtRechaza | src/main/java/com/universidad/registro/security/JwtAuthenticationFilter.java:84-89 | a null or empty header, "bearer " + t and "Bearer" without the space all give null |
| ManejoErrores.UltimaPosicion | src/main/java/com/universidad/validation/GlobalExceptionHandler.java:35-40 | the index of the last pair with that key, or -1 when there is none |
| ManejoErrores.UltimoGana | src/main/java/com/universidad/validation/GlobalExceptionHandler.java:35-40 | `toMap` with merge `(e1, e2) -> e2`: the keys are those of the pairs, and each takes the value of its last occurrence |
| ManejoErrores.ErroresDeCampo | src/main/java/com/universidad/validation/GlobalExceptionHandler.java:28-33 | exactly the field errors, as (field, message) pairs; object-level errors are dropped |
| ManejoErrores.ErroresDeCampoConcatena | src/main/java/com/universidad/validation/GlobalExceptionHandler.java:28-33 | the field errors keep the binding result's order: those of a concatenation are those of the first part, then those of the second |
| ManejoErrores.UltimaPosicionTras | src/main/java/com/universidad/validation/GlobalExceptionHandler.java:35-40 | a pair followed only by pairs with other keys is the last one with its key |
| ManejoErrores.UltimoCampoGana | src/main/java/com/universidad/validation/GlobalExceptionHandler.java:28-40 | for every binding result, a field's entry in the map is the message of the last field error on that field |
| ManejoErrores.ParesDeViolaciones | src/main/java/com/universidad/validation/GlobalExceptionHandler.java:74-78 | one (property path, message) pair per violation, in order |
| ManejoErrores.MensajeNoLegible | src/main/java/com/universidad/validation/GlobalExceptionHandler.java:162-171 | the null-date message iff the detail names a LocalDate deserialization and "from Null value"; the date-format message iff it names one without it; otherwise the default message |
| ManejoErrores.MensajeIntegridadDe | src/main/java/com/universidad/validation/GlobalExceptionHandler.java:184-189 | the e-mail message iff the detail contains both "duplicate key value" and "email"; otherwise the generic integrity message |
| ManejoErrores.MensajeTipoDe | src/main/java/com/universidad/validation/GlobalExceptionHandler.java:55-59 | the formatted type-mismatch message: the parameter's name, then the required type's simple name (or "desconocido" when there is none), then the received value, each in its own quoted slot between the fixed texts, with a null value printed as "null" |
| ManejoErrores.TipoDesconocido | src/main/java/com/universidad/validation/GlobalExceptionHandler.java:56-59 | the message for an absent required type equals the one for a type named "desconocido", and differs from the one for every other type name |
| ManejoErrores.Manejar | src/main/java/com/universidad/validation/GlobalExceptionHandler.java:25-209 | every exception gets one of 400, 404, 409, 500 |
| ManejoErrores.Generico | src/main/java/com/universidad/validation/GlobalExceptionHandler.java:142-156 | the generic handler answers 500 |
| ManejoErrores.StatusPorTipo | src/main/java/com/universidad/validation/GlobalExceptionHandler.java:94-139 | not found and no handler give 404; unavailable and integrity give 409; illegal argument, bean validation, type mismatch, constraint and unreadable give 400; everything else gives 500 |
| ManejoErrores.GenericoSinTexto | src/main/java/com/universidad/validation/GlobalExceptionHandler.java:145-150 | the generic answer is the same for every exception and never shows the exception's text |
| ManejoErrores.CamposDelMapa | src/main/java/com/universidad/validation/GlobalExceptionHandler.java:28-40 | the map's keys are exactly the fields that have a field error |
| ManejoErrores.ValidacionUltimoGana | src/main/java/com/universidad/validation/GlobalExceptionHandler.java:28-49 | a repeated field keeps its later message, an object error in between leaves no trace, and the status is 400 |
| Respuestas.RechazosDeCrearSon500 | src/main/java/com/universidad/service/impl/InscripcionServiceImpl.java:66-76 | the duplicate and prerequisite refusals of `crear` answer 500 with the generic text; a missing student answers 404 |
| Respuestas.RechazoDeValidacion | src/main/java/com/universidad/validation/EstudianteValidator.java:49-55 | a refused student gets 400 with the validator's own message, except for a null e-mail, which dereferences and gets the generic 500 |

## Left out

- Caching (`@Cacheable`, `@CachePut`, `@CacheEvict`) is not modelled. Caching is switched off in the application, so it changes no result.
- Locks are not modelled: `obtenerEstudianteConBloqueo` (a sleep plus a row lock) and the `PESSIMISTIC_WRITE` lock on `findByIdAndActivoTrue`, which is modelled as a plain lookup. These exist only for concurrency.
- Other framework and I/O code is not modelled: JWT signing and validation (`JwtUtils`), the security configuration, `doFilterInternal`, login, logout and session info, the REST controllers, `DatabaseInitializer`, the teacher-evaluation service, and course CRUD (only its interface is in the repository).
- The password encoder is salted, so it is not a function. `RegisterUser` takes the encoded password as a parameter. `LocalDate.now()` is the parameter `hoy`. The `ApiError` timestamp is dropped.
- `printStackTrace` is not modelled, because it has no effect on the response.
- Database behaviour is mostly not modelled. Apart from the refusal below, `save` always succeeds. The model checks neither NOT NULL or unique columns in general nor entity-level bean validation at persist time.
- Registro.AuthService.RegisterUser: a null username or e-mail is refused at `save` by the NOT NULL columns, and the model only says that the result is a `DataIntegrityViolationException`; the database's own message, which becomes the response's detail, is not modelled.
- Validation done before the service runs is not modelled:
  - The controller's `@Valid` check on `EstudianteDTO` is not modelled. The one on `SignupRequest` has no effect, because its constraints are `javax` ones.
  - `InscripcionService.Crear` requires the ids and the date to be non-null, because `@NotNull` on `InscripcionDTO` guarantees that before the service runs.
  - `@FutureOrPresent` on the date is not modelled.
- Estudiantes.EstudianteService.CrearEstudiante: a DTO that already carries an id is saved like one without, under the next identity value. The converted entity's `@Version` is null, so `save` persists it as new. Treating it as transient and letting the identity column replace the id is the persistence provider's reading, which the repository's code does not show; a provider that refuses such an entity is not modelled.
- Estudiantes.EstudianteService.ObtenerEstudianteActivo: its `ensures` states membership both ways; the order is stated by `FiltrarConcatena` and `FiltrarQuitaInactivo` about the filter it applies.
- JavaStrings.EqualsIgnoreCase folds ASCII letters only. The letters whose case folding is special in Unicode are not modelled.
- Stream order:
  - `getConstraintViolations()` is a set; the model takes it in one iteration order, as a sequence.
  - The enrollment listing has no ORDER BY, so it is modelled as a map from id to DTO.
- ManejoErrores.UltimoGana: assumes every message is non-null; `toMap` throws on a null value, and that is not modelled.
- The "required type" of a type mismatch is modelled as its simple name, given as a string.
- Materias.FormariaCirculoRecursivo: the shared `HashSet` of visited ids is passed in and returned, not updated in place. Only the membership and growth of the set are observable, and both are stated.
- Role lookup is a map from role name to role, so names are unique. The first matching row of a duplicated name is not modelled.
- `UsernameNotFoundException` is handled by Spring Security's authentication flow, not by the global exception handler. In the model it falls through to the generic case of `Manejar`.
- The entity's `esPrerequisitoDe`, docente, version and `activo` fields are not read by the core, so they are not modelled.
- Long ids are unbounded integers. Overflow of the identity sequence is not modelled.
