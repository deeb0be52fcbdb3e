/** `JwtAuthenticationFilter.parseJwt`: the token is what follows "Bearer " in the
    Authorization header; any other header gives null. */
module FiltroJwt {
  import opened Wrappers
  import opened JavaStrings

  const Prefijo := "Bearer "

  /** `parseJwt` on the value of the Authorization header (`None` when it is absent). */
  function ParseJwt(header: Option<string>): (r: Option<string>)
    ensures r.Some? ==> header == Some(Prefijo + r.value)
    ensures header.None? ==> r.None?
  {
    if HasText(header) && StartsWith(header.value, Prefijo) then
      assert header.value == Prefijo + header.value[|Prefijo|..];
      Some(header.value[|Prefijo|..])
    else None
  }

  /** A header built from "Bearer " and any token, the empty one included, gives the token back. */
  lemma ParseJwtRecupera(t: string)
    ensures ParseJwt(Some(Prefijo + t)) == Some(t)
  {
    var h := Prefijo + t;
    assert h[0] == 'B' && !IsWhitespace(h[0]);
    assert h[..|Prefijo|] == Prefijo;
    assert h[|Prefijo|..] == t;
  }

  /** A token comes out exactly when the header is "Bearer " followed by that token: the
      has-text test adds nothing to the prefix test. */
  lemma ParseJwtSiSolo(header: Option<string>, t: string)
    ensures ParseJwt(header) == Some(t) <==> header == Some(Prefijo + t)
  {
    if header == Some(Prefijo + t) {
      ParseJwtRecupera(t);
    }
  }

  /** A missing or empty header, a lower-case scheme and a scheme without its space are all rejected. */
  lemma ParseJwtRechaza(t: string)
    ensures ParseJwt(None) == None
    ensures ParseJwt(Some("")) == None
    ensures ParseJwt(Some("bearer " + t)) == None
    ensures ParseJwt(Some("Bearer")) == None
  {
    assert ("bearer " + t)[0] == 'b';
    assert Prefijo[0] == 'B';
  }
}
