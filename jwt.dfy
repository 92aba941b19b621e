/** Token claims as the middleware reads them, and what the JWT library
    reports about a token string.  Decoding and RSA signature checking are
    foreign code: a token string is described by a `TokenReport`, the values
    `jwt.ParseUnverified` and `jwt.Parse` would produce for it. */
module Jwt {

  datatype Option<+T> = None | Some(value: T)

  /** A decoded JSON value in a `jwt.MapClaims`.  JSON numbers are floats in
      the source; they are integers here. */
  datatype ClaimValue = Str(text: string) | Num(num: int) | OtherValue

  type Claims = map<string, ClaimValue>

  /** The comma-ok assertion `claims[name].(string)`: the string stored under
      `name`, or "" when the claim is absent or not a string. */
  function StringClaim(c: Claims, name: string): (r: string)
    ensures r != "" ==> name in c && c[name] == Str(r)
    ensures name in c && c[name].Str? ==> r == c[name].text
  {
    if name in c && c[name].Str? then c[name].text else ""
  }

  /** The comma-ok assertion `claims[name].(float64)` converted to an
      integer: 0 when the claim is absent or not a number. */
  function NumericClaim(c: Claims, name: string): (r: int)
    ensures r != 0 ==> name in c && c[name] == Num(r)
    ensures name in c && c[name].Num? ==> r == c[name].num
  {
    if name in c && c[name].Num? then c[name].num else 0
  }

  function Jti(c: Claims): string { StringClaim(c, "jti") }
  function Exp(c: Claims): int { NumericClaim(c, "exp") }
  function Role(c: Claims): string { StringClaim(c, "role") }
  function Sub(c: Claims): string { StringClaim(c, "sub") }

  /** What `jwt.Parse` returns once the key function has handed it the
      public key: an error, a token marked valid, or (the library's corner
      case) no error and a token not marked valid. */
  datatype ParseResult = ValidToken | ParseError | InvalidNoError

  /** What the JWT library says about one token string: the claims
      `ParseUnverified` decodes (None when it fails), whether the header
      names an RSA signing method, and what `Parse` reports when given the
      public key. */
  datatype TokenReport = TokenReport(unverified: Option<Claims>, rsaMethod: bool, signature: ParseResult)

  /** `jwt.Parse` with the middleware's key function: a token whose signing
      method is not RSA is refused by the key function before any signature
      check, whatever its signature. */
  function Verify(t: TokenReport): (v: ParseResult)
    ensures !t.rsaMethod ==> v == ParseError
    ensures v == ValidToken <==> t.rsaMethod && t.signature == ValidToken
    ensures t.rsaMethod ==> v == t.signature
  {
    if !t.rsaMethod then ParseError else t.signature
  }
}
