/** Sign-up: the users and roles it stores and `registerUser`'s duplicate checks, role
    resolution and user construction. */
module Registro {
  import opened Wrappers
  import opened Tipos
  import opened Excepciones

  datatype NombreRol = ROL_ESTUDIANTE | ROL_DOCENTE | ROL_ADMIN

  datatype Rol = Rol(id: Id, nombre: NombreRol)

  datatype Usuario = Usuario(
    id: Id,
    username: string,
    password: string,
    email: string,
    nombre: Option<string>,
    apellido: Option<string>,
    activo: bool,
    roles: set<Rol>)

  /** The sign-up body as it reaches `registerUser`. The body's `@NotBlank`/`@Size`
      annotations come from `javax.validation`, which the application's Jakarta validator
      does not read, so every field may be null, blank or of any length, and the role set
      may hold a null string. */
  datatype SignupRequest = SignupRequest(
    username: Option<string>,
    email: Option<string>,
    password: Option<string>,
    nombre: Option<string>,
    apellido: Option<string>,
    roles: Option<set<Option<string>>>)

  /** The two response shapes of `registerUser`, each carrying a `MessageResponse`. */
  datatype Respuesta = BadRequest(mensaje: string) | Ok(mensaje: string)

  const UsernameEnUso := "Error: El nombre de usuario ya está en uso."
  const EmailEnUso := "Error: El email ya está en uso."
  const RolNoEncontrado := "Error: Rol no encontrado."
  const Registrado := "Usuario registrado exitosamente!"
  /** What the password encoder throws for a null password. */
  const ClaveNula := "rawPassword cannot be null"

  /** The `switch` on one requested role string; it is case-sensitive. */
  function NombreDeRol(role: string): (n: NombreRol)
    ensures n == ROL_ADMIN <==> role == "admin"
    ensures n == ROL_DOCENTE <==> role == "docente"
    ensures n == ROL_ESTUDIANTE <==> role != "admin" && role != "docente"
  {
    if role == "admin" then ROL_ADMIN
    else if role == "docente" then ROL_DOCENTE
    else ROL_ESTUDIANTE
  }

  /** The role names a request asks for: ROL_ESTUDIANTE alone when it gives no set,
      otherwise the image of its non-null strings under the `switch`. */
  function NombresPedidos(roles: Option<set<Option<string>>>): (r: set<NombreRol>)
    ensures roles.None? ==> r == {ROL_ESTUDIANTE}
    ensures roles.Some? ==> forall s :: Some(s) in roles.value ==> NombreDeRol(s) in r
    ensures roles.Some? ==> forall n :: n in r ==> exists s :: Some(s) in roles.value && NombreDeRol(s) == n
  {
    if roles.None? then {ROL_ESTUDIANTE}
    else set o | o in roles.value && o.Some? :: NombreDeRol(o.value)
  }

  /** A non-null empty set asks for no role at all. */
  lemma SinRolesPedidos()
    ensures NombresPedidos(Some({})) == {}
  {
  }

  /** The request's set holds a null string, on which the `switch` throws. */
  predicate HayRolNulo(roles: Option<set<Option<string>>>) {
    roles.Some? && None in roles.value
  }

  /** Some role the request asks for is not stored, and its lookup throws. */
  predicate FaltaRol(roles: Option<set<Option<string>>>, repo: map<NombreRol, Rol>) {
    !(NombresPedidos(roles) <= repo.Keys)
  }

  /** The roles stored for the requested strings, one `findByNombre` per non-null string. */
  function RolesDe(pedidos: set<Option<string>>, repo: map<NombreRol, Rol>): set<Rol> {
    set o | o in pedidos && o.Some? && NombreDeRol(o.value) in repo :: repo[NombreDeRol(o.value)]
  }

  /** When every name is stored, the roles given to the user are exactly the stored roles
      of the requested names. */
  lemma RolesDeEsImagen(pedidos: set<Option<string>>, repo: map<NombreRol, Rol>)
    requires NombresPedidos(Some(pedidos)) <= repo.Keys
    ensures RolesDe(pedidos, repo) == set n | n in NombresPedidos(Some(pedidos)) :: repo[n]
  {
    var nombres := NombresPedidos(Some(pedidos));
    forall x | x in set n | n in nombres :: repo[n]
      ensures x in RolesDe(pedidos, repo)
    {
      var n :| n in nombres && x == repo[n];
      var s :| Some(s) in pedidos && NombreDeRol(s) == n;
      assert x == repo[NombreDeRol(Some(s).value)];
    }
  }

  /** Where `findByUsername`/`existsByUsername` look: the users, in table order. */
  predicate ExisteUsername(usuarios: seq<Usuario>, username: string) {
    exists i :: 0 <= i < |usuarios| && usuarios[i].username == username
  }

  predicate ExisteEmail(usuarios: seq<Usuario>, email: string) {
    exists i :: 0 <= i < |usuarios| && usuarios[i].email == email
  }

  /** `existsByUsername`: a null argument becomes an `IS NULL` test, and no stored
      username is null. */
  predicate UsernameTomado(usuarios: seq<Usuario>, username: Option<string>) {
    username.Some? && ExisteUsername(usuarios, username.value)
  }

  /** `existsByEmail`, with the same reading of a null argument. */
  predicate EmailTomado(usuarios: seq<Usuario>, email: Option<string>) {
    email.Some? && ExisteEmail(usuarios, email.value)
  }

  /** No two stored users share a username or an e-mail. */
  ghost predicate UsuariosValidos(usuarios: seq<Usuario>, siguienteId: Id) {
    && (forall i :: 0 <= i < |usuarios| ==> usuarios[i].id < siguienteId)
    && (forall i, j :: 0 <= i < j < |usuarios| ==> usuarios[i].id != usuarios[j].id)
    && (forall i, j :: 0 <= i < j < |usuarios| ==> usuarios[i].username != usuarios[j].username)
    && (forall i, j :: 0 <= i < j < |usuarios| ==> usuarios[i].email != usuarios[j].email)
  }

  /** Saving a user whose username and e-mail are both new keeps the table valid. */
  lemma AltaUsuarioConserva(usuarios: seq<Usuario>, siguienteId: Id, u: Usuario)
    requires UsuariosValidos(usuarios, siguienteId) && u.id == siguienteId
    requires !ExisteUsername(usuarios, u.username) && !ExisteEmail(usuarios, u.email)
    ensures UsuariosValidos(usuarios + [u], siguienteId + 1)
  {
    var t := usuarios + [u];
    forall i, j | 0 <= i < j < |t|
      ensures t[i].username != t[j].username && t[i].email != t[j].email
    {
      if j == |usuarios| {
        assert t[i] == usuarios[i];
      }
    }
  }

  /** `AuthController` with the user and role repositories. The password encoder is
      salted, so the encoded password comes in as a parameter. */
  class AuthService {
    var usuarios: seq<Usuario>
    var siguienteId: Id
    const roles: map<NombreRol, Rol>

    ghost predicate Valid()
      reads this
    {
      UsuariosValidos(usuarios, siguienteId)
    }

    constructor (roles: map<NombreRol, Rol>)
      ensures Valid() && usuarios == [] && this.roles == roles
    {
      this.roles := roles;
      usuarios := [];
      siguienteId := 1;
    }

    /** The role part of `registerUser`: ROL_ESTUDIANTE when no set is given, otherwise
        one `switch` and one `findByNombre` per string, in the set's iteration order,
        stopping at the first string that is null or whose role is not stored. */
    method ResolverRoles(pedidos: Option<set<Option<string>>>) returns (r: Result<set<Rol>, Excepcion>)
      ensures !HayRolNulo(pedidos) && !FaltaRol(pedidos, roles) ==>
        r == Success(set n | n in NombresPedidos(pedidos) :: roles[n])
      ensures HayRolNulo(pedidos) || FaltaRol(pedidos, roles) ==>
        && (r == Failure(NullPointer) || r == Failure(Runtime(RolNoEncontrado)))
        && (r == Failure(NullPointer) ==> HayRolNulo(pedidos))
        && (r == Failure(Runtime(RolNoEncontrado)) ==> FaltaRol(pedidos, roles))
    {
      if pedidos.None? {
        if ROL_ESTUDIANTE !in roles {
          return Failure(Runtime(RolNoEncontrado));
        }
        r := Success({roles[ROL_ESTUDIANTE]});
        assert r.value == set n | n in NombresPedidos(pedidos) :: roles[n];
        return;
      }
      var todos := pedidos.value;
      var restantes := todos;
      var asignados: set<Rol> := {};
      while restantes != {}
        invariant restantes <= todos
        invariant forall o :: o in todos - restantes ==> o.Some? && NombreDeRol(o.value) in roles
        invariant asignados == RolesDe(todos - restantes, roles)
        decreases |restantes|
      {
        var role :| role in restantes;
        if role.None? {
          return Failure(NullPointer);
        }
        var nombre := NombreDeRol(role.value);
        if nombre !in roles {
          assert nombre in NombresPedidos(pedidos);
          return Failure(Runtime(RolNoEncontrado));
        }
        ghost var hechos := todos - restantes;
        asignados := asignados + {roles[nombre]};
        restantes := restantes - {role};
        assert todos - restantes == hechos + {role};
        assert asignados == RolesDe(hechos + {role}, roles);
      }
      assert todos - restantes == todos;
      assert NombresPedidos(pedidos) <= roles.Keys;
      RolesDeEsImagen(todos, roles);
      r := Success(asignados);
    }

    /** `registerUser`: the username, then the e-mail, must be free; then the password is
        encoded, which throws on a null one; then the roles are resolved; last, `save`
        refuses a null username or e-mail, whose columns are NOT NULL. */
    method RegisterUser(req: SignupRequest, claveCodificada: string) returns (r: Result<Respuesta, Excepcion>)
      requires Valid()
      modifies this
      ensures Valid()
      ensures !(r.Success? && r.value.Ok?) ==> usuarios == old(usuarios) && siguienteId == old(siguienteId)
      ensures UsernameTomado(old(usuarios), req.username) ==> r == Success(BadRequest(UsernameEnUso))
      ensures !UsernameTomado(old(usuarios), req.username) && EmailTomado(old(usuarios), req.email) ==>
        r == Success(BadRequest(EmailEnUso))
      ensures !UsernameTomado(old(usuarios), req.username) && !EmailTomado(old(usuarios), req.email) ==>
        if req.password.None? then
          r == Failure(IllegalArgument(ClaveNula))
        else if HayRolNulo(req.roles) || FaltaRol(req.roles, roles) then
          && (r == Failure(NullPointer) || r == Failure(Runtime(RolNoEncontrado)))
          && (r == Failure(NullPointer) ==> HayRolNulo(req.roles))
          && (r == Failure(Runtime(RolNoEncontrado)) ==> FaltaRol(req.roles, roles))
        else if req.username.None? || req.email.None? then
          r.Failure? && r.error.DataIntegrityViolation?
        else
          && r == Success(Ok(Registrado))
          && usuarios == old(usuarios) + [Usuario(old(siguienteId), req.username.value, claveCodificada,
               req.email.value, req.nombre, req.apellido, true,
               set n | n in NombresPedidos(req.roles) :: roles[n])]
          && siguienteId == old(siguienteId) + 1
    {
      if UsernameTomado(usuarios, req.username) {
        return Success(BadRequest(UsernameEnUso));
      }
      if EmailTomado(usuarios, req.email) {
        return Success(BadRequest(EmailEnUso));
      }
      if req.password.None? {
        return Failure(IllegalArgument(ClaveNula));
      }
      var asignados := ResolverRoles(req.roles);
      if asignados.Failure? {
        return Failure(asignados.error);
      }
      if req.username.None? || req.email.None? {
        return Failure(DataIntegrityViolation(None));
      }
      var u := Usuario(siguienteId, req.username.value, claveCodificada, req.email.value, req.nombre,
        req.apellido, true, asignados.value);
      AltaUsuarioConserva(usuarios, siguienteId, u);
      usuarios := usuarios + [u];
      siguienteId := siguienteId + 1;
      r := Success(Ok(Registrado));
    }
  }
}
