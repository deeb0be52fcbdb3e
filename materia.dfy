/** The course entity, its field constraints and its prerequisite cycle check. */
module Materias {
  import opened Wrappers
  import opened Excepciones
  import opened Tipos

  /** A course as an object graph: every reference, and the prerequisite list itself,
      may be null. Only the fields the core reads are kept. */
  datatype Materia = Materia(
    id: Option<Id>,
    nombreMateria: Option<string>,
    codigoUnico: Option<string>,
    creditos: Option<int>,
    prerequisitos: Option<seq<Option<Materia>>>)

  /** The three-argument constructor: every field it does not set stays null. */
  function NuevaMateria(id: Option<Id>, nombreMateria: Option<string>, codigoUnico: Option<string>): Materia {
    Materia(id, nombreMateria, codigoUnico, None, None)
  }

  // ---------------------------------------------------------------------------
  // Field constraints

  predicate EsMayuscula(c: char) { 'A' <= c <= 'Z' }

  predicate EsDigito(c: char) { '0' <= c <= '9' }

  /** `@NotBlank` plus `@Pattern("[A-Z]{3}\\d{3}")` matched against the whole code
      (Java's `\d` is the ASCII digits only). A matching code is never blank. */
  predicate CodigoValido(codigo: Option<string>) {
    && codigo.Some?
    && |codigo.value| == 6
    && (forall i :: 0 <= i < 3 ==> EsMayuscula(codigo.value[i]))
    && (forall i :: 3 <= i < 6 ==> EsDigito(codigo.value[i]))
  }

  /** `@NotNull` plus `@Min(1)` on the credits. */
  predicate CreditosValidos(creditos: Option<int>) {
    creditos.Some? && creditos.value >= 1
  }

  predicate MateriaValida(m: Materia) {
    CodigoValido(m.codigoUnico) && CreditosValidos(m.creditos)
  }

  function Digito(n: nat): char
    requires n < 10
  {
    ('0' as int + n) as char
  }

  function ValorDigito(c: char): nat
    requires EsDigito(c)
  {
    c as int - '0' as int
  }

  /** A code written out from three letters and a number below 1000 ("MAT" and 101 give "MAT101"). */
  function FormatoCodigo(letras: string, numero: nat): string
    requires numero < 1000
  {
    letras + [Digito(numero / 100), Digito(numero / 10 % 10), Digito(numero % 10)]
  }

  /** The number the three digits of a valid code spell. Its bound only makes it a valid
      argument of `FormatoCodigo`; that the code is its letters followed by this number
      written out is `CodigoValidoSeDescompone`. */
  function NumeroDe(codigo: string): (n: nat)
    requires CodigoValido(Some(codigo))
    ensures n < 1000
  {
    100 * ValorDigito(codigo[3]) + 10 * ValorDigito(codigo[4]) + ValorDigito(codigo[5])
  }

  /** Every three upper-case letters followed by a number below 1000 form a valid code. */
  lemma FormatoCodigoValido(letras: string, numero: nat)
    requires numero < 1000
    requires |letras| == 3 && forall i :: 0 <= i < 3 ==> EsMayuscula(letras[i])
    ensures CodigoValido(Some(FormatoCodigo(letras, numero)))
  {
  }

  /** ... and every valid code is one of those, so the pattern admits exactly them. */
  lemma {:induction false} CodigoValidoSeDescompone(codigo: string)
    requires CodigoValido(Some(codigo))
    ensures FormatoCodigo(codigo[..3], NumeroDe(codigo)) == codigo
  {
    var d3, d4, d5 := ValorDigito(codigo[3]), ValorDigito(codigo[4]), ValorDigito(codigo[5]);
    CifrasDe(d3, d4, d5);
    assert Digito(d3) == codigo[3] && Digito(d4) == codigo[4] && Digito(d5) == codigo[5];
  }

  /** The three digits of a number below 1000 are recovered by division and remainder.
      An arithmetic step of `CodigoValidoSeDescompone`, and nothing else. */
  lemma CifrasDe(a: nat, b: nat, c: nat)
    requires a < 10 && b < 10 && c < 10
    ensures (100 * a + 10 * b + c) / 100 == a
    ensures (100 * a + 10 * b + c) / 10 % 10 == b
    ensures (100 * a + 10 * b + c) % 10 == c
  {
    var n := 100 * a + 10 * b + c;
    assert n == 100 * a + (10 * b + c) && 0 <= 10 * b + c < 100;
    assert n == 10 * (10 * a + b) + c;
    assert n / 10 == 10 * a + b;
  }

  // ---------------------------------------------------------------------------
  // What the cycle check explores

  /** The root's own prerequisite list; a null list is explored as an empty one. */
  function Lista(m: Materia): seq<Option<Materia>> {
    if m.prerequisitos.Some? then m.prerequisitos.value else []
  }

  /** The id behind a reference, null when the reference is null. */
  function IdDe(e: Option<Materia>): Option<Id> {
    if e.Some? then e.value.id else None
  }

  /** The prerequisite list of a referenced course; null references and null lists give []. */
  function SubLista(e: Option<Materia>): seq<Option<Materia>> {
    if e.Some? && e.value.prerequisitos.Some? then e.value.prerequisitos.value else []
  }

  function Ids(o: Option<Id>): set<Id> {
    if o.Some? then {o.value} else {}
  }

  /** One step of the search: an entry of the ROOT's list has id `x` and itself lists a
      course with id `y`. The search never looks at the lists of the courses it
      reaches, only at those of the root's direct entries. */
  ghost predicate Paso(m: Materia, x: Id, y: Id) {
    exists i, j ::
      && 0 <= i < |Lista(m)|
      && IdDe(Lista(m)[i]) == Some(x)
      && 0 <= j < |SubLista(Lista(m)[i])|
      && IdDe(SubLista(Lista(m)[i])[j]) == Some(y)
  }

  /** A sequence of ids each of which steps to the next. */
  ghost predicate Camino(m: Materia, p: seq<Id>) {
    |p| > 0 && forall k :: 0 <= k < |p| - 1 ==> Paso(m, p[k], p[k + 1])
  }

  ghost predicate Alcanzable(m: Materia, desde: Id, hasta: Id) {
    exists p :: Camino(m, p) && p[0] == desde && p[|p| - 1] == hasta
  }

  /** Every step out of `s` lands in `v`. */
  ghost predicate Cerrado(m: Materia, s: set<Id>, v: set<Id>) {
    forall x, y :: x in s && Paso(m, x, y) ==> y in v
  }

  /** An entry with an id lists a null reference: dereferencing it throws. */
  ghost predicate HayReferenciaNula(m: Materia) {
    exists i, j ::
      && 0 <= i < |Lista(m)|
      && IdDe(Lista(m)[i]).Some?
      && 0 <= j < |SubLista(Lista(m)[i])|
      && SubLista(Lista(m)[i])[j].None?
  }

  /** Every id the search can descend to. */
  ghost function Universo(m: Materia): set<Id> {
    set i, j | 0 <= i < |Lista(m)| && 0 <= j < |SubLista(Lista(m)[i])| && IdDe(SubLista(Lista(m)[i])[j]).Some?
      :: IdDe(SubLista(Lista(m)[i])[j]).value
  }

  lemma AlcanzableReflexivo(m: Materia, x: Id)
    ensures Alcanzable(m, x, x)
  {
    assert Camino(m, [x]);
  }

  lemma {:induction false} PasoExtiende(m: Materia, x: Id, y: Id, z: Id)
    requires Paso(m, x, y) && Alcanzable(m, y, z)
    ensures Alcanzable(m, x, z)
  {
    var p :| Camino(m, p) && p[0] == y && p[|p| - 1] == z;
    var q := [x] + p;
    assert forall k :: 1 <= k < |q| - 1 ==> q[k] == p[k - 1] && q[k + 1] == p[k];
    assert Camino(m, q);
  }

  /** A path that starts inside a set closed under steps never leaves it. */
  lemma {:induction false} CaminoEnCerrado(m: Materia, v: set<Id>, p: seq<Id>)
    requires Cerrado(m, v, v) && Camino(m, p) && p[0] in v
    ensures p[|p| - 1] in v
    decreases |p|
  {
    if |p| > 1 {
      assert Paso(m, p[0], p[1]);
      var q := p[1..];
      forall k | 0 <= k < |q| - 1
        ensures Paso(m, q[k], q[k + 1])
      {
        assert q[k] == p[k + 1] && q[k + 1] == p[k + 2];
      }
      assert Camino(m, q);
      CaminoEnCerrado(m, v, q);
    }
  }

  /** Completeness of the search: nothing outside a closed set is reachable from inside it. */
  lemma NoAlcanzableFueraDeCerrado(m: Materia, v: set<Id>, desde: Id, hasta: Id)
    requires Cerrado(m, v, v) && desde in v && hasta !in v
    ensures !Alcanzable(m, desde, hasta)
  {
    if p :| Camino(m, p) && p[0] == desde && p[|p| - 1] == hasta {
      CaminoEnCerrado(m, v, p);
    }
  }

  lemma CerradoUnion(m: Materia, s1: set<Id>, v1: set<Id>, s2: set<Id>, v2: set<Id>)
    requires Cerrado(m, s1, v1) && Cerrado(m, s2, v2) && v1 <= v2
    ensures Cerrado(m, s1 + s2, v2)
  {
  }

  // ---------------------------------------------------------------------------
  // The cycle check

  /** `formariaCirculoRecursivo`: `visitados` is the shared `HashSet`, passed in and
      returned instead of updated in place. A `Failure` is the `NullPointerException`
      thrown when a scanned sub-prerequisite reference is null. */
  method FormariaCirculoRecursivo(m: Materia, objetivo: Option<Id>, actual: Option<Id>, visitados: set<Id>)
    returns (r: Result<bool, Excepcion>, visitadosDespues: set<Id>)
    requires objetivo.Some? ==> objetivo.value !in visitados
    ensures visitados <= visitadosDespues
    ensures objetivo.Some? ==> objetivo.value !in visitadosDespues
    ensures objetivo.None? || actual.None? ==> r == Success(false) && visitadosDespues == visitados
    ensures objetivo.Some? && actual == objetivo ==> r == Success(true) && visitadosDespues == visitados
    ensures actual.Some? && actual != objetivo && actual.value in visitados ==>
      r == Success(false) && visitadosDespues == visitados
    ensures actual.Some? && actual != objetivo && m.prerequisitos.None? ==> r == Success(false)
    ensures r.Failure? ==> r.error == NullPointer && HayReferenciaNula(m)
    ensures r == Success(true) ==> objetivo.Some? && actual.Some? && Alcanzable(m, actual.value, objetivo.value)
    ensures r == Success(false) ==>
      && Cerrado(m, visitadosDespues - visitados, visitadosDespues)
      && (objetivo.Some? && actual.Some? ==> actual.value in visitadosDespues)
    decreases (Universo(m) + Ids(actual)) - visitados
  {
    if objetivo.None? || actual.None? {
      return Success(false), visitados;
    }
    var t, a := objetivo.value, actual.value;
    if t == a {
      AlcanzableReflexivo(m, a);
      return Success(true), visitados;
    }
    if a in visitados {
      return Success(false), visitados;
    }
    var v := visitados + {a};
    if m.prerequisitos.None? {
      return Success(false), v;
    }
    var lista := m.prerequisitos.value;
    assert lista == Lista(m);
    var i := 0;
    while i < |lista|
      invariant 0 <= i <= |lista|
      invariant visitados + {a} <= v && t !in v
      invariant Cerrado(m, v - visitados - {a}, v)
      invariant forall k, j :: 0 <= k < i && IdDe(lista[k]) == Some(a) && 0 <= j < |SubLista(lista[k])| ==>
        SubLista(lista[k])[j].Some? && (IdDe(SubLista(lista[k])[j]).Some? ==> IdDe(SubLista(lista[k])[j]).value in v)
    {
      var prereq := lista[i];
      if prereq.Some? && prereq.value.id.Some? && prereq.value.id.value == a && prereq.value.prerequisitos.Some? {
        var subs := prereq.value.prerequisitos.value;
        assert subs == SubLista(lista[i]);
        var j := 0;
        while j < |subs|
          invariant 0 <= j <= |subs|
          invariant visitados + {a} <= v && t !in v
          invariant Cerrado(m, v - visitados - {a}, v)
          invariant forall k, jj :: 0 <= k < i && IdDe(lista[k]) == Some(a) && 0 <= jj < |SubLista(lista[k])| ==>
            SubLista(lista[k])[jj].Some? && (IdDe(SubLista(lista[k])[jj]).Some? ==> IdDe(SubLista(lista[k])[jj]).value in v)
          invariant forall jj :: 0 <= jj < j ==>
            subs[jj].Some? && (IdDe(subs[jj]).Some? ==> IdDe(subs[jj]).value in v)
        {
          if subs[j].None? {
            assert IdDe(lista[i]).Some? && SubLista(lista[i])[j].None?;
            return Failure(NullPointer), v;
          }
          if IdDe(subs[j]).Some? {
            assert 0 <= i < |Lista(m)| && 0 <= j < |SubLista(Lista(m)[i])| && IdDe(SubLista(Lista(m)[i])[j]).Some?;
            assert IdDe(subs[j]).value in Universo(m);
          }
          var c, v2 := FormariaCirculoRecursivo(m, objetivo, subs[j].value.id, v);
          if c.Failure? {
            return c, v2;
          }
          if c.value {
            assert Paso(m, a, subs[j].value.id.value) by {
              assert IdDe(lista[i]) == Some(a) && IdDe(SubLista(lista[i])[j]) == subs[j].value.id;
            }
            PasoExtiende(m, a, subs[j].value.id.value, t);
            return Success(true), v2;
          }
          CerradoUnion(m, v - visitados - {a}, v, v2 - v, v2);
          assert (v - visitados - {a}) + (v2 - v) == v2 - visitados - {a};
          v := v2;
          j := j + 1;
        }
      }
      i := i + 1;
    }
    forall y | Paso(m, a, y)
      ensures y in v
    {
      var k, j :| 0 <= k < |Lista(m)| && IdDe(Lista(m)[k]) == Some(a)
        && 0 <= j < |SubLista(Lista(m)[k])| && IdDe(SubLista(Lista(m)[k])[j]) == Some(y);
    }
    assert v - visitados == (v - visitados - {a}) + {a};
    return Success(false), v;
  }

  /** `formariaCirculo`: would adding `prerequisitoId` as a prerequisite of `m` close a
      cycle? It answers whether `m`'s own id is reachable from `prerequisitoId` by the
      steps `Paso` allows, unless a null sub-prerequisite reference is met first. */
  method FormariaCirculo(m: Materia, prerequisitoId: Option<Id>) returns (r: Result<bool, Excepcion>)
    ensures m.id.Some? && prerequisitoId == m.id ==> r == Success(true)
    ensures m.prerequisitos.None? ==> r.Success?
    ensures r.Failure? ==> r.error == NullPointer && HayReferenciaNula(m)
    ensures r.Success? ==>
      (r.value <==> m.id.Some? && prerequisitoId.Some? && Alcanzable(m, prerequisitoId.value, m.id.value))
  {
    var v;
    r, v := FormariaCirculoRecursivo(m, m.id, prerequisitoId, {});
    if r == Success(false) && m.id.Some? && prerequisitoId.Some? {
      assert v - {} == v;
      NoAlcanzableFueraDeCerrado(m, v, prerequisitoId.value, m.id.value);
    }
  }

  /** A course built with the three-argument constructor has a null prerequisite list:
      its search takes no step and meets no null reference. */
  lemma {:induction false} NuevaMateriaSinPasos(id: Option<Id>, nombre: Option<string>, codigo: Option<string>, desde: Id, hasta: Id)
    ensures !HayReferenciaNula(NuevaMateria(id, nombre, codigo))
    ensures Alcanzable(NuevaMateria(id, nombre, codigo), desde, hasta) <==> desde == hasta
  {
    var m := NuevaMateria(id, nombre, codigo);
    assert Lista(m) == [];
    if desde == hasta {
      AlcanzableReflexivo(m, desde);
    } else if p :| Camino(m, p) && p[0] == desde && p[|p| - 1] == hasta {
      assert Paso(m, p[0], p[1]);
    }
  }

  /** The check on a course built with the three-argument constructor, as the cycle
      endpoint runs it: true exactly when both ids are non-null and equal. */
  method FormariaCirculoMateriaNueva(id: Option<Id>, nombre: Option<string>, codigo: Option<string>, prerequisitoId: Option<Id>)
    returns (r: Result<bool, Excepcion>)
    ensures r == Success(id.Some? && prerequisitoId.Some? && id == prerequisitoId)
  {
    var m := NuevaMateria(id, nombre, codigo);
    r := FormariaCirculo(m, prerequisitoId);
    if id.Some? && prerequisitoId.Some? {
      NuevaMateriaSinPasos(id, nombre, codigo, prerequisitoId.value, id.value);
    } else {
      NuevaMateriaSinPasos(id, nombre, codigo, 0, 0);
    }
  }
}
