/**
 * Key validation, and the cryptographic primitives as uninterpreted functions: signature
 * and token verification and the digest are fields of a value that every handler is given.
 */
module Crypto {
  import opened Basics
  import opened Model
  import Base64Url

  type Digest = d: seq<Base64Url.byte> | |d| == 32 witness seq(32, _ => 0)

  /** The protected header members a token handler reads; None where the member is absent. */
  datatype JwsHeader = JwsHeader(typ: string, alg: string, jwk: Option<Jwk>)

  datatype Primitives = Primitives(
    ecdsa: (Jwk, Base64Url.Bytes, string) -> bool,        // crypto.subtle.verify, P-256 with SHA-256
    importable: Jwk -> bool,                              // crypto.subtle.importKey succeeds
    sha256: Base64Url.Bytes -> Digest,
    decodeHeader: string -> Option<JwsHeader>,            // jose decodeProtectedHeader
    importJwk: (Jwk, string) -> bool,                     // jose importJWK succeeds
    jwtVerify: (string, Jwk) -> Option<Option<string>>)   // jose jwtVerify: the jti claim, if a string

  const DBSC_TYPE := "dbsc+jwt"
  const MIN_RSA_BITS := 2048

  predicate SupportedAlg(alg: string) {
    alg == "ES256" || alg == "RS256"
  }

  // ---------------------------------------------------------------- keys

  /** validateJwk: None when the key is accepted. */
  method ValidateJwk(jwk: Jwk) returns (e: Option<ErrorCode>)
    ensures e == if JwkAcceptable(jwk) then None else Some(InvalidJwk)
  {
    if jwk.kty == "EC" {
      if jwk.crv != "P-256" || jwk.x == "" || jwk.y == "" {
        return Some(InvalidJwk);
      }
      return None;
    }
    if jwk.kty == "RSA" {
      if jwk.n == "" {
        return Some(InvalidJwk);
      }
      var bits := Base64Url.Base64UrlBits(jwk.n);
      return if bits < MIN_RSA_BITS then Some(InvalidJwk) else None;
    }
    return Some(InvalidJwk);
  }

  predicate JwkAcceptable(jwk: Jwk) {
    || (jwk.kty == "EC" && jwk.crv == "P-256" && jwk.x != "" && jwk.y != "")
    || (jwk.kty == "RSA" && jwk.n != "" && Base64Url.TrimmedLength(jwk.n) * 3 / 4 * 8 >= MIN_RSA_BITS)
  }

  function DetectAlgorithm(jwk: Jwk): Option<Algorithm> {
    if jwk.kty == "EC" && jwk.crv == "P-256" then Some(ES256)
    else if jwk.kty == "RSA" then Some(RS256)
    else None
  }

  /** The RSA floor is exactly 256 modulus bytes, whatever padding the encoding carries. */
  lemma RsaFloor(jwk: Jwk, modulus: Base64Url.Bytes, pad: string)
    requires jwk.kty == "RSA" && jwk.n == Base64Url.Encode(modulus) + pad && Base64Url.AllAre(pad, '=')
    ensures JwkAcceptable(jwk) <==> |modulus| >= 256
  {
    Base64Url.EncodedBits(modulus, pad);
    Base64Url.EncodeUrlSafe(modulus);
  }

  /** A key that passes validation always has a detectable algorithm. */
  lemma AcceptableIsDetectable(jwk: Jwk)
    requires JwkAcceptable(jwk)
    ensures DetectAlgorithm(jwk).Some?
  {}

  // ---------------------------------------------------------------- signatures

  /** verifyP256Signature: a key that does not import and a signature that does not decode both throw. */
  function VerifyP256(c: Primitives, jwk: Jwk, signature: string, message: string): Result<bool, ErrorCode> {
    if !c.importable(jwk) then Failure(InvalidJwk)
    else
      match Base64Url.Decode(signature)
      case None => Failure(InvalidCharacter)
      case Some(bytes) => Success(c.ecdsa(jwk, bytes, message))
  }

  /** None for a signature that verifies, and the error a handler throws otherwise. */
  function SignatureError(verified: Result<bool, ErrorCode>): Option<ErrorCode> {
    match verified
    case Failure(e) => Some(e)
    case Success(ok) => if ok then None else Some(SignatureInvalid)
  }

  /** base64url(sha256(body)), the same text on both sides of the wire. */
  function BodyHash(c: Primitives, body: Base64Url.Bytes): string {
    Base64Url.Encode(c.sha256(body))
  }

  // ---------------------------------------------------------------- what a token must carry

  /** A header that decodes, of the one type and with one of the two algorithms. */
  predicate TokenHeader(c: Primitives, token: string) {
    && c.decodeHeader(token).Some?
    && c.decodeHeader(token).value.typ == "dbsc+jwt"
    && (c.decodeHeader(token).value.alg == "ES256" || c.decodeHeader(token).value.alg == "RS256")
  }

  /** The token is in order and can be checked under the key. */
  predicate Checkable(c: Primitives, token: string, jwk: Jwk) {
    TokenHeader(c, token) && c.importJwk(jwk, c.decodeHeader(token).value.alg)
  }

  /** The token verifies under the key and says the nonce. */
  predicate Says(c: Primitives, token: string, jwk: Jwk, jti: string) {
    c.jwtVerify(token, jwk) == Some(Some(jti))
  }

  /** A P-256 key with both coordinates for ES256, an RSA key above the floor for RS256. */
  predicate FitsAlgorithm(jwk: Jwk, alg: string) {
    || (alg == "ES256" && jwk.kty == "EC" && jwk.crv == "P-256" && jwk.x != "" && jwk.y != "")
    || (alg == "RS256" && jwk.kty == "RSA" && jwk.n != "" && Base64Url.TrimmedLength(jwk.n) * 3 / 4 * 8 >= 2048)
  }

  /** The header carries a key that fits its algorithm and that the token can be checked under. */
  predicate CarriesKey(c: Primitives, token: string) {
    && TokenHeader(c, token)
    && var h := c.decodeHeader(token).value;
    && h.jwk.Some? && FitsAlgorithm(h.jwk.value, h.alg) && Checkable(c, token, h.jwk.value)
  }

  function CarriedKey(c: Primitives, token: string): Jwk
    requires CarriesKey(c, token)
  {
    c.decodeHeader(token).value.jwk.value
  }

  /** The signature verifies under the key for the text. */
  predicate Signed(c: Primitives, jwk: Jwk, signature: string, text: string) {
    && c.importable(jwk) && Base64Url.Decode(signature).Some?
    && c.ecdsa(jwk, Base64Url.Decode(signature).value, text)
  }

  /** The signature can be checked under the key, and is not by it or not for the text. */
  predicate Missigned(c: Primitives, jwk: Jwk, signature: string, text: string) {
    && c.importable(jwk) && Base64Url.Decode(signature).Some?
    && !c.ecdsa(jwk, Base64Url.Decode(signature).value, text)
  }

  // ---------------------------------------------------------------- tokens

  /** verifyDbscJws: None when the token verifies under the stored key and carries the jti. */
  function VerifyDbscJws(c: Primitives, token: string, stored: Jwk, expectedJti: string): Option<ErrorCode> {
    match c.decodeHeader(token)
    case None => Some(MalformedJws)
    case Some(h) =>
      if h.typ != DBSC_TYPE then Some(MalformedJws)
      else if !SupportedAlg(h.alg) then Some(UnknownAlgorithm)
      else if !c.importJwk(stored, h.alg) then Some(InvalidJwk)
      else
        match c.jwtVerify(token, stored)
        case None => Some(SignatureInvalid)
        case Some(None) => Some(MalformedJws)
        case Some(Some(jti)) => if jti != expectedJti then Some(JtiMismatch) else None
  }

  datatype RegistrationJws = RegistrationJws(jti: Option<string>, jwk: Jwk, algorithm: Algorithm)

  /** parseRegistrationJws: the self-signed key and the jti claim. */
  function ParseRegistrationJws(c: Primitives, token: string): Result<RegistrationJws, ErrorCode> {
    match c.decodeHeader(token)
    case None => Failure(MalformedJws)
    case Some(h) =>
      if h.typ != DBSC_TYPE then Failure(MalformedJws)
      else if !SupportedAlg(h.alg) then Failure(UnknownAlgorithm)
      else if h.jwk.None? then Failure(MalformedJws)
      else if !JwkAcceptable(h.jwk.value) then Failure(InvalidJwk)
      else if DetectAlgorithm(h.jwk.value) != Some(if h.alg == "ES256" then ES256 else RS256) then
        Failure(UnknownAlgorithm)
      else if !c.importJwk(h.jwk.value, h.alg) then Failure(InvalidJwk)
      else
        match c.jwtVerify(token, h.jwk.value)
        case None => Failure(SignatureInvalid)
        case Some(jti) => Success(RegistrationJws(jti, h.jwk.value, if h.alg == "ES256" then ES256 else RS256))
  }
}
