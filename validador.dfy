/** The manual checks run on a student before it is created. Each check either passes
    or fails with the exception the source throws. */
module Validacion {
  import opened Wrappers
  import opened Excepciones
  import opened JavaStrings
  import opened EstudianteDatos

  const DominiosBloqueados: seq<string> := ["dominiobloqueado.com", "spam.com"]

  const MensajeEmailRepetido := "Ya existe un usuario con este email"
  const MensajeDominio := "El dominio de email no está permitido"
  const MensajeNombre := "El nombre no puede estar vacío o nulo."
  const MensajeApellido := "El apellido es obligatorio y no puede estar vacío."

  /** `validaEmailUnico`: `existentes` are the stored e-mails. The repository's
      `existsByEmail` over a null e-mail looks for a null column, and the column is
      NOT NULL, so a null e-mail is never taken. */
  function ValidaEmailUnico(email: Option<string>, existentes: set<string>): (r: Outcome<Excepcion>)
    ensures r.Fail? <==> email.Some? && email.value in existentes
    ensures r.Fail? ==> r.error == IllegalArgument(MensajeEmailRepetido)
  {
    if email.Some? && email.value in existentes then Fail(IllegalArgument(MensajeEmailRepetido)) else Pass
  }

  /** `email.substring(email.indexOf('@') + 1)`: what follows the first '@', or the whole
      string when there is none (`indexOf` gives -1). */
  function Dominio(email: string): (d: string)
    ensures '@' !in email ==> d == email
    ensures '@' in email ==> exists k :: 0 <= k < |email| && email[k] == '@' && '@' !in email[..k] && d == email[k + 1..]
  {
    email[IndexOf(email, '@') + 1..]
  }

  /** `validaDominioEmail`: a null e-mail throws on `indexOf`. */
  function ValidaDominioEmail(email: Option<string>): (r: Outcome<Excepcion>)
    ensures email.None? ==> r == Fail(NullPointer)
    ensures email.Some? ==> (r.Fail? <==> Dominio(email.value) in DominiosBloqueados)
    ensures email.Some? && r.Fail? ==> r.error == IllegalArgument(MensajeDominio)
  {
    if email.None? then Fail(NullPointer)
    else if Dominio(email.value) in DominiosBloqueados then Fail(IllegalArgument(MensajeDominio))
    else Pass
  }

  /** `s == null || s.trim().isEmpty()`. */
  predicate NuloOBlanco(s: Option<string>) {
    s.None? || Trim(s.value) == []
  }

  /** A value is rejected exactly when it is null or every char of it is at most U+0020. */
  lemma NuloOBlancoSiSoloBlancos(s: Option<string>)
    ensures NuloOBlanco(s) <==> s.None? || forall i :: 0 <= i < |s.value| ==> s.value[i] <= ' '
  {
  }

  function ValidaNombreEstudiante(nombre: Option<string>): (r: Outcome<Excepcion>)
    ensures r.Fail? <==> nombre.None? || forall i :: 0 <= i < |nombre.value| ==> nombre.value[i] <= ' '
    ensures r.Fail? ==> r.error == IllegalArgument(MensajeNombre)
  {
    if NuloOBlanco(nombre) then Fail(IllegalArgument(MensajeNombre)) else Pass
  }

  function ValidaApellidoEstudiante(apellido: Option<string>): (r: Outcome<Excepcion>)
    ensures r.Fail? <==> apellido.None? || forall i :: 0 <= i < |apellido.value| ==> apellido.value[i] <= ' '
    ensures r.Fail? ==> r.error == IllegalArgument(MensajeApellido)
  {
    if NuloOBlanco(apellido) then Fail(IllegalArgument(MensajeApellido)) else Pass
  }

  /** `validacionCompletaEstudiante`: the four checks in order; the first failure is thrown. */
  function ValidacionCompletaEstudiante(d: EstudianteDTO, existentes: set<string>): (r: Outcome<Excepcion>)
    ensures r.Pass? <==>
      && ValidaEmailUnico(d.email, existentes).Pass?
      && ValidaDominioEmail(d.email).Pass?
      && ValidaNombreEstudiante(d.nombre).Pass?
      && ValidaApellidoEstudiante(d.apellido).Pass?
    ensures ValidaEmailUnico(d.email, existentes).Fail? ==> r == ValidaEmailUnico(d.email, existentes)
    ensures ValidaEmailUnico(d.email, existentes).Pass? && ValidaDominioEmail(d.email).Fail? ==>
      r == ValidaDominioEmail(d.email)
    ensures (ValidaEmailUnico(d.email, existentes).Pass? && ValidaDominioEmail(d.email).Pass?
      && ValidaNombreEstudiante(d.nombre).Fail?) ==> r == ValidaNombreEstudiante(d.nombre)
    ensures (ValidaEmailUnico(d.email, existentes).Pass? && ValidaDominioEmail(d.email).Pass?
      && ValidaNombreEstudiante(d.nombre).Pass?) ==> r == ValidaApellidoEstudiante(d.apellido)
  {
    if ValidaEmailUnico(d.email, existentes).Fail? then ValidaEmailUnico(d.email, existentes)
    else if ValidaDominioEmail(d.email).Fail? then ValidaDominioEmail(d.email)
    else if ValidaNombreEstudiante(d.nombre).Fail? then ValidaNombreEstudiante(d.nombre)
    else ValidaApellidoEstudiante(d.apellido)
  }

  /** Without an '@' the whole address is the domain, so the bare "spam.com" is refused. */
  lemma SinArrobaTodoEsDominio()
    ensures ValidaDominioEmail(Some("spam.com")) == Fail(IllegalArgument(MensajeDominio))
  {
    assert Dominio("spam.com") == "spam.com";
  }

  /** Only the first '@' counts: "a@b@spam.com" has domain "b@spam.com" and passes. */
  lemma SoloCuentaLaPrimeraArroba()
    ensures Dominio("a@b@spam.com") == "b@spam.com"
    ensures ValidaDominioEmail(Some("a@b@spam.com")) == Pass
  {
    assert IndexOf("a@b@spam.com", '@') == 1;
  }
}
