/**
 * The subject of a JWT as every authentication path reads it. JWT signatures,
 * expiry and the secret belong to the JWT library and are not modelled: a token is
 * seen only through the outcome of decoding it.
 */
module Tokens {
  import opened Wrappers
  import opened PyText

  /** The outcome of `jwt.decode(token, ...)`: decoding failed (`JWTError`), or it
      gave a payload whose `sub` claim is the given value (`None` when absent). */
  datatype Decoded = BadToken | Claims(sub: Option<Json>)

  /** What `decode_token` does with that outcome: both generations' `decode_token`
      raise when decoding fails, raise again when `sub` is falsy, and otherwise return
      the payload, whose `sub` is then truthy. */
  datatype DecodeOutcome = JwtFailure | NoSubject | Payload(sub: Json)

  function DecodeToken(d: Decoded): (r: DecodeOutcome)
    ensures r.Payload? <==> d.Claims? && d.sub.Some? && Truthy(d.sub.value)
    ensures r.Payload? ==> r.sub == d.sub.value && r.sub != JNull
    ensures r.JwtFailure? <==> d.BadToken?
  {
    match d
    case BadToken => JwtFailure
    case Claims(None) => NoSubject
    case Claims(Some(j)) => if Truthy(j) then Payload(j) else NoSubject
  }

  /** `int(j)`: `None` where Python raises `ValueError`. `int(None)` raises
      `TypeError` instead; no caller reaches it, since a decoded subject is never
      `None`. */
  function PyInt(j: Json): Option<int>
  {
    match j
    case JInt(i) => Some(i)
    case JStr(s) => ParseInt(s)
    case JBool(b) => Some(if b then 1 else 0)
    case JNull => None
  }

  /** `int(decode_token(token)["sub"])`: the user id the token names, or `None` where
      either step raises. */
  function SubjectId(d: Decoded): (r: Option<int>)
    ensures r.Some? ==> d.Claims? && d.sub.Some? && Truthy(d.sub.value)
  {
    match DecodeToken(d)
    case Payload(j) => PyInt(j)
    case _ => None
  }

  /** Tokens are minted with `{"sub": str(user.id)}`; such a token names that user
      again, whatever the id (also 0 and negative ids, since the string is never
      empty). */
  lemma SubjectOfMinted(n: int)
    ensures SubjectId(Claims(Some(JStr(Render(n))))) == Some(n)
  {
    ParseRender(n);
    RenderNatDigits(if n < 0 then -n else n);
  }

  /** A falsy subject is refused even where `int()` would accept it: the integer 0 and
      `False` name nobody, unlike the string "0". */
  lemma FalsySubjectRefused(j: Json)
    requires !Truthy(j)
    ensures SubjectId(Claims(Some(j))).None?
  {
  }
}
