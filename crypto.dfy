/**
 * Stand-ins for the two foreign cryptographic libraries the core calls:
 * the bcrypt password context (hash / verify) and the JWT codec (encode / decode).
 * They are concrete so that every member has a body; the rest of the model uses
 * them only through the facts proved here.
 */
module Crypto {
  import opened Common

  // ---------------------------------------------------------------------------
  // Password hashing

  /** A salted password digest. The salt is chosen at random on every hash. */
  datatype Digest = Bcrypt(salt: nat, secret: string)

  /** Hashing a password: the digest verifies against that password. */
  function Hash(password: string, salt: nat): (d: Digest)
    ensures Verify(password, d)
    ensures d.salt == salt
  {
    Bcrypt(salt, password)
  }

  /** The verification half of the password context. */
  predicate Verify(password: string, d: Digest) {
    d.secret == password
  }

  /** Only the password that was hashed verifies, whatever the salt. */
  lemma VerifyOnlyHashedPassword(password: string, attempt: string, salt: nat)
    ensures Verify(attempt, Hash(password, salt)) <==> attempt == password
  {
  }

  // ---------------------------------------------------------------------------
  // Signed session tokens

  /** A claim value: a string, or a timestamp in seconds. */
  datatype Claim = Text(text: string) | Instant(time: int)

  type Claims = map<string, Claim>

  /**
   * A bearer token as presented by a client: either a token signed with some key
   * and algorithm over some claims, or a string that is not a token at all.
   */
  datatype Jwt = Signed(alg: string, claims: Claims, key: string) | Garbled(raw: string)

  /** The ways decoding fails; every one of them is an InvalidTokenError. */
  datatype TokenError = Malformed | DisallowedAlgorithm | BadSignature | Expired | InvalidSubject

  function Encode(claims: Claims, key: string, alg: string): (t: Jwt)
    ensures t.Signed? && t.claims == claims
  {
    Signed(alg, claims, key)
  }

  /**
   * Decoding with one allowed algorithm and expiry verification on: the algorithm
   * must be the allowed one, the signature must be made with `key`, an `exp` claim
   * must be a timestamp later than `now`, and a `sub` claim must be a string.
   */
  function Decode(t: Jwt, key: string, alg: string, now: int): (r: Result<Claims, TokenError>)
    ensures r.Ok? ==> t == Encode(r.value, key, alg)
    ensures r.Ok? && "exp" in r.value ==> r.value["exp"].Instant? && now < r.value["exp"].time
    ensures r.Ok? && "sub" in r.value ==> r.value["sub"].Text?
  {
    match t
    case Garbled(_) => Err(Malformed)
    case Signed(a, c, k) =>
      if a != alg then Err(DisallowedAlgorithm)
      else if k != key then Err(BadSignature)
      else if "exp" in c && !c["exp"].Instant? then Err(Malformed)
      else if "exp" in c && c["exp"].time <= now then Err(Expired)
      else if "sub" in c && !c["sub"].Text? then Err(InvalidSubject)
      else Ok(c)
  }

  /** Round trip: a token decodes to its claims before its expiry and fails as expired from then on. */
  lemma DecodeEncode(c: Claims, key: string, alg: string, now: int)
    requires "exp" in c && c["exp"].Instant?
    requires "sub" in c ==> c["sub"].Text?
    ensures Decode(Encode(c, key, alg), key, alg, now)
         == if now < c["exp"].time then Ok(c) else Err(Expired)
  {
  }

  /** A token signed with any other key, or any other algorithm, never decodes. */
  lemma ForgeryRejected(c: Claims, key: string, alg: string, otherKey: string, otherAlg: string, now: int)
    requires otherKey != key || otherAlg != alg
    ensures Decode(Encode(c, otherKey, otherAlg), key, alg, now).Err?
  {
  }
}
