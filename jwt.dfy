/**
 * JSON Web Tokens as `jsonwebtoken`'s `sign`/`verify` use them here: a
 * token carries the claims `{userId, email}`, its issue time `iat` and its
 * expiry `exp = iat + ttl` (seconds), and is signed with a secret. The
 * token's text is a length-prefixed stand-in for the compact serialisation;
 * its signature is ideal: it verifies under exactly the secret that signed
 * it. The clock `now` is an input.
 */
module Jwt {
  import opened Wrappers
  import Numerals

  datatype Claims = Claims(userId: nat, email: string)

  datatype Payload = Payload(claims: Claims, iat: nat, exp: nat)

  /** `expiresIn: '24h'`, in seconds. */
  const Ttl24h: nat := 24 * 60 * 60

  /** `expiresIn: '7d'`, in seconds. */
  const Ttl7d: nat := 7 * 24 * 60 * 60

  /** The fallback signing secret of both authentication controllers and of the Next.js post controller. */
  const DefaultSecret := "your-secret-key"

  /**
   * `process.env.JWT_SECRET || fallback`: an unset or empty variable
   * selects the fallback.
   */
  function SecretFrom(env: Option<string>, fallback: string): (secret: string)
    ensures env.Some? && env.value != [] ==> secret == env.value
    ensures env.None? || env.value == [] ==> secret == fallback
  {
    if env.Some? && env.value != [] then env.value else fallback
  }

  // ----- token text -----

  function NatField(n: nat): string {
    Numerals.Decimal(n) + "."
  }

  function TextField(s: string): string {
    Numerals.Decimal(|s|) + ":" + s
  }

  function PayloadText(p: Payload): string {
    NatField(p.claims.userId) + TextField(p.claims.email) + NatField(p.iat) + NatField(p.exp)
  }

  /** The signature part: ideal, determined by the secret alone. */
  function SignatureText(secret: string): string {
    TextField(secret)
  }

  /** `jwt.sign(claims, secret, { expiresIn: ttl })` at time `now`. */
  function Sign(claims: Claims, secret: string, now: nat, ttl: nat): string {
    PayloadText(Payload(claims, now, now + ttl)) + SignatureText(secret)
  }

  function ReadNat(s: string): Option<(nat, string)> {
    var k := Numerals.DigitSpan(s, 10);
    if 0 < k < |s| && s[k] == '.' then Some((Numerals.Value(s[..k], 10), s[k + 1..])) else None
  }

  function ReadText(s: string): Option<(string, string)> {
    var k := Numerals.DigitSpan(s, 10);
    if 0 < k < |s| && s[k] == ':' then
      var n := Numerals.Value(s[..k], 10);
      var rest := s[k + 1..];
      if n <= |rest| then Some((rest[..n], rest[n..])) else None
    else None
  }

  /** The payload a token text carries and the secret its signature is valid for, if it is well formed. */
  function Decode(token: string): Option<(Payload, string)> {
    var userId := ReadNat(token);
    if userId.None? then None else
    var email := ReadText(userId.value.1);
    if email.None? then None else
    var iat := ReadNat(email.value.1);
    if iat.None? then None else
    var exp := ReadNat(iat.value.1);
    if exp.None? then None else
    var key := ReadText(exp.value.1);
    if key.None? || key.value.1 != [] then None
    else Some((Payload(Claims(userId.value.0, email.value.0), iat.value.0, exp.value.0), key.value.0))
  }

  /**
   * `jwt.verify(token, secret)` at time `now`: the claims of a well-formed
   * token signed with `secret` whose expiry has not been reached; `None`
   * stands for the error it throws otherwise (malformed, bad signature or
   * expired, all alike).
   */
  function Verify(token: string, secret: string, now: nat): Option<Claims> {
    match Decode(token)
    case None => None
    case Some((payload, key)) => if key == secret && now < payload.exp then Some(payload.claims) else None
  }

  lemma ReadNatField(n: nat, rest: string)
    ensures ReadNat(NatField(n) + rest) == Some((n, rest))
  {
    var d := Numerals.Decimal(n);
    var s := NatField(n) + rest;
    assert s == d + ("." + rest);
    Numerals.DigitSpanOf(d, "." + rest, 10);
    assert s[..|d|] == d;
    assert s[|d| + 1..] == rest;
    Numerals.DecimalValue(n);
  }

  lemma ReadTextField(t: string, rest: string)
    ensures ReadText(TextField(t) + rest) == Some((t, rest))
  {
    var d := Numerals.Decimal(|t|);
    var s := TextField(t) + rest;
    assert s == d + (":" + t + rest);
    Numerals.DigitSpanOf(d, ":" + t + rest, 10);
    assert s[..|d|] == d;
    assert s[|d| + 1..] == t + rest;
    Numerals.DecimalValue(|t|);
    assert (t + rest)[..|t|] == t;
    assert (t + rest)[|t|..] == rest;
  }

  /** Decoding a signed token recovers its payload and the secret that signed it. */
  lemma DecodeSigned(p: Payload, secret: string)
    ensures Decode(PayloadText(p) + SignatureText(secret)) == Some((p, secret))
  {
    var e := TextField(secret);
    var de := NatField(p.exp) + e;
    var cde := NatField(p.iat) + de;
    var bcde := TextField(p.claims.email) + cde;
    assert PayloadText(p) + SignatureText(secret) == NatField(p.claims.userId) + bcde;
    ReadNatField(p.claims.userId, bcde);
    ReadTextField(p.claims.email, cde);
    ReadNatField(p.iat, de);
    ReadNatField(p.exp, e);
    assert e == e + [];
    ReadTextField(secret, []);
  }

  /** A token verifies, under the secret that signed it, to its claims until it expires. */
  lemma VerifySigned(claims: Claims, secret: string, issued: nat, ttl: nat, now: nat)
    requires now < issued + ttl
    ensures Verify(Sign(claims, secret, issued, ttl), secret, now) == Some(claims)
  {
    DecodeSigned(Payload(claims, issued, issued + ttl), secret);
  }

  /** Verification under any other secret rejects the token. */
  lemma VerifyOtherSecret(claims: Claims, secret: string, other: string, issued: nat, ttl: nat, now: nat)
    requires other != secret
    ensures Verify(Sign(claims, secret, issued, ttl), other, now) == None
  {
    DecodeSigned(Payload(claims, issued, issued + ttl), secret);
  }

  /** Once the expiry is reached the token is rejected even under the right secret. */
  lemma VerifyExpired(claims: Claims, secret: string, issued: nat, ttl: nat, now: nat)
    requires issued + ttl <= now
    ensures Verify(Sign(claims, secret, issued, ttl), secret, now) == None
  {
    DecodeSigned(Payload(claims, issued, issued + ttl), secret);
  }

  /** A token that verifies was valid at that time: it is well formed, names the secret and is not expired. */
  lemma VerifiedMeansSigned(token: string, secret: string, now: nat)
    requires Verify(token, secret, now).Some?
    ensures Decode(token).Some? && Decode(token).value.1 == secret
    ensures now < Decode(token).value.0.exp
    ensures Verify(token, secret, now) == Some(Decode(token).value.0.claims)
  {
  }
}
