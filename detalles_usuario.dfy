/** `loadUserByUsername`: the lookup, the role-to-authority renaming and the account flags. */
module DetallesUsuario {
  import opened Wrappers
  import opened Excepciones
  import opened JavaStrings
  import opened Registro

  /** Spring Security's `User`; it keeps its authorities as a sorted set, so a set. */
  datatype UserDetails = UserDetails(
    username: string,
    password: string,
    enabled: bool,
    accountNonExpired: bool,
    credentialsNonExpired: bool,
    accountNonLocked: bool,
    authorities: set<string>)

  const PrefijoNoEncontrado := "Usuario no encontrado con username: "
  /** What Spring Security's `User` constructor throws for an empty username. */
  const ValoresVacios := "Cannot pass null or empty values to constructor"

  /** `NombreRol.name()`. */
  function NombreEnum(n: NombreRol): string {
    match n
    case ROL_ESTUDIANTE => "ROL_ESTUDIANTE"
    case ROL_DOCENTE => "ROL_DOCENTE"
    case ROL_ADMIN => "ROL_ADMIN"
  }

  /** `enumName.replace("ROL_", "ROLE_")`. */
  function Authority(n: NombreRol): string {
    Replace(NombreEnum(n), "ROL_", "ROLE_")
  }

  /** Replacing at the head: a string that starts with the target gets the replacement,
      and the rest is scanned on. */
  lemma ReplaceCabeza(t: string, x: string, rep: string)
    requires t != []
    ensures Replace(t + x, t, rep) == rep + Replace(x, t, rep)
  {
    assert (t + x)[..|t|] == t;
    assert (t + x)[|t|..] == x;
  }

  /** A string none of whose chars is the target's first one is left as it is. */
  lemma {:induction false} ReplaceSinPrimera(x: string, t: string, rep: string)
    requires t != [] && t[0] !in x
    ensures Replace(x, t, rep) == x
    decreases |x|
  {
    if |x| < |t| {
    } else {
      assert x[..|t|][0] == x[0];
      assert x[..|t|] != t;
      assert x == [x[0]] + x[1..];
      ReplaceSinPrimera(x[1..], t, rep);
    }
  }

  /** The part of a role name after `ROL_`; none of its chars is an 'R'. */
  lemma NombreEnumPartes(n: NombreRol)
    ensures NombreEnum(n) == "ROL_" + NombreEnum(n)[4..]
    ensures 'R' !in NombreEnum(n)[4..]
  {
    match n
    case ROL_ESTUDIANTE => assert NombreEnum(n)[4..] == "ESTUDIANTE";
    case ROL_DOCENTE => assert NombreEnum(n)[4..] == "DOCENTE";
    case ROL_ADMIN => assert NombreEnum(n)[4..] == "ADMIN";
  }

  /** Each role name `ROL_X` becomes the authority `ROLE_X`. */
  lemma AuthorityRenombra(n: NombreRol)
    ensures Authority(n) == "ROLE_" + NombreEnum(n)[4..]
  {
    var resto := NombreEnum(n)[4..];
    NombreEnumPartes(n);
    ReplaceCabeza("ROL_", resto, "ROLE_");
    ReplaceSinPrimera(resto, "ROL_", "ROLE_");
  }

  /** The three authorities Spring Security sees. */
  lemma AuthoritiesConocidas()
    ensures Authority(ROL_ADMIN) == "ROLE_ADMIN"
    ensures Authority(ROL_DOCENTE) == "ROLE_DOCENTE"
    ensures Authority(ROL_ESTUDIANTE) == "ROLE_ESTUDIANTE"
  {
    AuthorityRenombra(ROL_ADMIN);
    AuthorityRenombra(ROL_DOCENTE);
    AuthorityRenombra(ROL_ESTUDIANTE);
    assert NombreEnum(ROL_ADMIN)[4..] == "ADMIN";
    assert NombreEnum(ROL_DOCENTE)[4..] == "DOCENTE";
    assert NombreEnum(ROL_ESTUDIANTE)[4..] == "ESTUDIANTE";
  }

  /** Distinct role names give distinct authorities. */
  lemma AuthorityInyectiva(a: NombreRol, b: NombreRol)
    ensures Authority(a) == Authority(b) ==> a == b
  {
    AuthorityRenombra(a);
    AuthorityRenombra(b);
    if Authority(a) == Authority(b) {
      assert NombreEnum(a)[4..] == Authority(a)[5..];
      assert NombreEnum(b)[4..] == Authority(b)[5..];
      NombreEnumPartes(a);
      NombreEnumPartes(b);
    }
  }

  /** The stream `map` over the user's roles. */
  function Authorities(roles: set<Rol>): (r: set<string>)
    ensures forall x :: x in r <==> exists rol :: rol in roles && x == Authority(rol.nombre)
  {
    set rol | rol in roles :: Authority(rol.nombre)
  }

  /** One authority per stored role name: the renaming loses no role. */
  lemma UnaAuthorityPorRol(roles: set<Rol>)
    ensures |Authorities(roles)| == |set rol | rol in roles :: rol.nombre|
  {
    var nombres := set rol | rol in roles :: rol.nombre;
    var auths := Authorities(roles);
    assert auths == set n | n in nombres :: Authority(n);
    ImagenInyectiva(nombres);
  }

  /** The image of a set of role names under `Authority` has as many elements as the set. */
  lemma {:induction false} ImagenInyectiva(nombres: set<NombreRol>)
    ensures |set n | n in nombres :: Authority(n)| == |nombres|
    decreases |nombres|
  {
    if nombres != {} {
      var n :| n in nombres;
      var resto := nombres - {n};
      ImagenInyectiva(resto);
      var img := set m | m in nombres :: Authority(m);
      var imgResto := set m | m in resto :: Authority(m);
      assert img == imgResto + {Authority(n)};
      forall m | m in resto
        ensures Authority(m) != Authority(n)
      {
        AuthorityInyectiva(m, n);
      }
      assert Authority(n) !in imgResto;
    }
  }

  /** The users `findByUsername` matches, in table order. */
  function ConUsername(usuarios: seq<Usuario>, username: string): (r: seq<Usuario>)
    ensures forall u :: u in r <==> u in usuarios && u.username == username
    ensures |r| == 0 <==> !ExisteUsername(usuarios, username)
    ensures |r| <= |usuarios|
  {
    if usuarios == [] then []
    else if usuarios[0].username == username then [usuarios[0]] + ConUsername(usuarios[1..], username)
    else ConUsername(usuarios[1..], username)
  }

  /** The `User` built from a stored user: `enabled` is its `activo`, the three other
      account flags are true. */
  function DetallesDe(u: Usuario): UserDetails {
    UserDetails(u.username, u.password, u.activo, true, true, true, Authorities(u.roles))
  }

  /** `loadUserByUsername`. An unknown username throws `UsernameNotFoundException`; more
      than one match makes the `Optional` finder throw; a matched empty username makes
      the `User` constructor throw. */
  function LoadUserByUsername(usuarios: seq<Usuario>, username: string): (r: Result<UserDetails, Excepcion>)
    ensures r == Failure(UsernameNotFound(PrefijoNoEncontrado + username)) <==> !ExisteUsername(usuarios, username)
    ensures |ConUsername(usuarios, username)| == 1 ==>
      r == (if username == "" then Failure(IllegalArgument(ValoresVacios))
            else Success(DetallesDe(ConUsername(usuarios, username)[0])))
    ensures |ConUsername(usuarios, username)| > 1 ==> r == Failure(IncorrectResultSize)
    ensures r.Success? ==> username != "" && exists u :: u in usuarios && u.username == username && r.value == DetallesDe(u)
  {
    var coinciden := ConUsername(usuarios, username);
    if |coinciden| == 0 then
      Failure(UsernameNotFound(PrefijoNoEncontrado + username))
    else if |coinciden| == 1 then
      var u := coinciden[0];
      assert u in coinciden;
      if u.username == "" then Failure(IllegalArgument(ValoresVacios)) else Success(DetallesDe(u))
    else
      assert coinciden[0] in coinciden;
      Failure(IncorrectResultSize)
  }

  /** With usernames unique, as sign-up keeps them, a stored username loads as its own
      user, unless it is empty, which the `User` constructor refuses. */
  lemma {:induction false} UsernameUnicoCarga(usuarios: seq<Usuario>, i: int)
    requires forall i, j :: 0 <= i < j < |usuarios| ==> usuarios[i].username != usuarios[j].username
    requires 0 <= i < |usuarios|
    ensures usuarios[i].username != "" ==>
      LoadUserByUsername(usuarios, usuarios[i].username) == Success(DetallesDe(usuarios[i]))
    ensures usuarios[i].username == "" ==>
      LoadUserByUsername(usuarios, usuarios[i].username) == Failure(IllegalArgument(ValoresVacios))
  {
    var username := usuarios[i].username;
    var c := ConUsername(usuarios, username);
    UnaCoincidencia(usuarios, username);
    assert usuarios[i] in c;
    assert c == [c[0]];
  }
  /** Unique usernames give at most one match. */
  lemma {:induction false} UnaCoincidencia(usuarios: seq<Usuario>, username: string)
    requires forall i, j :: 0 <= i < j < |usuarios| ==> usuarios[i].username != usuarios[j].username
    ensures |ConUsername(usuarios, username)| <= 1
    decreases |usuarios|
  {
    if usuarios != [] {
      var resto := usuarios[1..];
      assert forall i, j :: 0 <= i < j < |resto| ==>
        resto[i].username == usuarios[i + 1].username && resto[j].username == usuarios[j + 1].username;
      UnaCoincidencia(resto, username);
      if usuarios[0].username == username {
        forall j | 0 <= j < |resto|
          ensures resto[j].username != username
        {
          assert usuarios[j + 1] == resto[j];
        }
      }
    }
  }
}
