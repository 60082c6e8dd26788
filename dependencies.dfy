/**
 * The session guard and token issuance: password authentication, access-token
 * creation, and the chain that turns a bearer token into the current (active) user.
 * The clock is passed in as `now`, in seconds; the process settings are a value.
 */
module Dependencies {
  import opened Common
  import opened Crypto
  import opened Security
  import opened Users

  /** The process configuration the guard reads: signing key, algorithm, login token lifetime. */
  datatype Settings = Settings(secretKey: string, algorithm: string, accessTokenExpireMinutes: int)

  /** The token lifetime, in minutes, when the caller gives no (or a zero) lifetime. */
  const DefaultTokenMinutes := 15

  const InactiveUser := HttpError(BadRequest, "Inactive user")
  const CredentialsError := HttpError(Unauthorized, "Could not validate credentials")
  const RevokedError := HttpError(Unauthorized, "Token has been revoked")

  /** The rejection of a disabled user, if any. */
  function CheckIfActive(user: User): (rejection: Option<HttpError>)
    ensures rejection.Some? <==> user.disabled
    ensures rejection.Some? ==> rejection.value.status == BadRequest
  {
    if user.disabled then Some(InactiveUser) else None
  }

  // ---------------------------------------------------------------------------
  // Looking a user up by email

  /** What an email lookup yields when the lookup function it calls does not exist. */
  datatype Lookup = Found(user: User) | NotFound | AttributeError

  /**
   * The lookup as written: when the email is registered it calls a lookup-by-email
   * operation that the user table does not define, which fails with an attribute
   * error; so it never finds anybody.
   */
  function GetUserAsWritten(rows: map<int, User>, email: string): (r: Lookup)
    ensures !r.Found?
    ensures r.AttributeError? <==> exists id :: id in rows && rows[id].email == email
  {
    if exists id :: id in rows && rows[id].email == email then AttributeError else NotFound
  }

  /** A registered email always makes the lookup as written fail. */
  lemma RegisteredEmailCrashesLookup(rows: map<int, User>, id: int)
    requires id in rows
    ensures GetUserAsWritten(rows, rows[id].email) == AttributeError
  {
  }

  /** The row with this email, if there is one (the lookup the guard relies on). */
  function GetUser(rows: map<int, User>, email: string): (r: Option<User>)
    requires UniqueEmails(rows)
    ensures r.Some? <==> exists id :: id in rows && rows[id].email == email
    ensures r.Some? ==> r.value in rows.Values && r.value.email == email
  {
    if exists id :: id in rows && rows[id].email == email then
      var id :| id in rows && rows[id].email == email;
      Some(rows[id])
    else
      None
  }

  /** Under the unique-email constraint the lookup finds exactly the row that holds the email. */
  lemma GetUserFindsTheRow(rows: map<int, User>, id: int)
    requires UniqueEmails(rows) && id in rows
    ensures GetUser(rows, rows[id].email) == Some(rows[id])
  {
    var found := GetUser(rows, rows[id].email).value;
    var j :| j in rows && rows[j] == found;
    assert rows[j].email == rows[id].email;
  }

  // ---------------------------------------------------------------------------
  // Password authentication

  /**
   * The user with this email whose stored digest verifies the password. An unknown
   * email and a wrong password give the same None.
   */
  function AuthenticateUser(rows: map<int, User>, email: string, password: string): (r: Option<User>)
    requires UniqueEmails(rows)
    ensures r.Some? <==> exists id :: id in rows && rows[id].email == email
                                      && Verify(password, rows[id].hashedPassword)
    ensures r.Some? ==> r.value in rows.Values && r.value.email == email
                        && Verify(password, r.value.hashedPassword)
  {
    var user := GetUser(rows, email);
    if user.None? then None
    else if !Verify(password, user.value.hashedPassword) then None
    else user
  }

  /** A user whose password was hashed and stored authenticates with that password and no other. */
  lemma AuthenticateStoredPassword(rows: map<int, User>, id: int, password: string, salt: nat, attempt: string)
    requires UniqueEmails(rows) && id in rows
    requires rows[id].hashedPassword == Hash(password, salt)
    ensures AuthenticateUser(rows, rows[id].email, attempt) == if attempt == password then Some(rows[id]) else None
  {
    GetUserFindsTheRow(rows, id);
    VerifyOnlyHashedPassword(password, attempt, salt);
  }

  // ---------------------------------------------------------------------------
  // Token issuance

  /** The expiry instant: `now` plus the lifetime when it is given and non-zero, else plus 15 minutes. */
  function ExpiryInstant(expiresDelta: Option<int>, now: int): int {
    if expiresDelta.Some? && expiresDelta.value != 0 then now + expiresDelta.value
    else now + DefaultTokenMinutes * SecondsPerMinute
  }

  /** A zero lifetime is falsy, so it gets the same 15 minutes as no lifetime at all. */
  lemma ZeroDeltaIsDefault(now: int)
    ensures ExpiryInstant(Some(0), now) == ExpiryInstant(None, now) == now + 900
  {
  }

  /**
   * A token signed with the configured key and algorithm over the caller's claims
   * plus an `exp` claim; every other claim is kept as given.
   */
  function CreateAccessToken(data: Claims, expiresDelta: Option<int>, now: int, settings: Settings): (t: Jwt)
    ensures t.Signed? && t == Encode(t.claims, settings.secretKey, settings.algorithm)
    ensures t.claims.Keys == data.Keys + {"exp"}
    ensures t.claims["exp"] == Instant(ExpiryInstant(expiresDelta, now))
    ensures forall k :: k in data && k != "exp" ==> t.claims[k] == data[k]
  {
    Encode(data["exp" := Instant(ExpiryInstant(expiresDelta, now))], settings.secretKey, settings.algorithm)
  }

  /**
   * An issued token decodes, with the same settings, to its claims at every instant
   * before its expiry and is rejected as expired from then on.
   */
  lemma IssuedTokenLifetime(data: Claims, expiresDelta: Option<int>, issued: int, settings: Settings, now: int)
    requires "sub" in data ==> data["sub"].Text?
    ensures var t := CreateAccessToken(data, expiresDelta, issued, settings);
      Decode(t, settings.secretKey, settings.algorithm, now)
        == if now < ExpiryInstant(expiresDelta, issued) then Ok(t.claims) else Err(Expired)
  {
    var t := CreateAccessToken(data, expiresDelta, issued, settings);
    DecodeEncode(t.claims, settings.secretKey, settings.algorithm, now);
  }

  // ---------------------------------------------------------------------------
  // The guard

  /**
   * The outcome of the current-user guard, given whether the registry reports the
   * token revoked: revoked first, then a token that does not decode, then a missing
   * subject, then a subject that names no user.
   */
  function ResolveSession(revoked: bool, token: Jwt, rows: map<int, User>, now: int, settings: Settings)
    : (r: Result<User, HttpError>)
    requires UniqueEmails(rows)
    ensures revoked ==> r == Err(RevokedError)
    ensures r.Err? ==> r.error == RevokedError || r.error == CredentialsError
    ensures r.Ok? ==>
      var payload := Decode(token, settings.secretKey, settings.algorithm, now);
      && !revoked && payload.Ok? && "sub" in payload.value
      && payload.value["sub"] == Text(r.value.email)
      && r.value in rows.Values
  {
    if revoked then Err(RevokedError)
    else
      match Decode(token, settings.secretKey, settings.algorithm, now)
      case Err(_) => Err(CredentialsError)
      case Ok(payload) =>
        if "sub" !in payload then Err(CredentialsError)
        else
          match GetUser(rows, payload["sub"].text)
          case None => Err(CredentialsError)
          case Some(user) => Ok(user)
  }

  /**
   * Every way a non-revoked token fails (undecodable, expired, forged, without a
   * subject, or naming nobody) is the same 401 credentials error; and a token that
   * decodes with a subject naming a user yields that user.
   */
  lemma GuardOutcomes(token: Jwt, rows: map<int, User>, now: int, settings: Settings)
    requires UniqueEmails(rows)
    ensures var payload := Decode(token, settings.secretKey, settings.algorithm, now);
      && (payload.Err? ==> ResolveSession(false, token, rows, now, settings) == Err(CredentialsError))
      && (payload.Ok? && "sub" !in payload.value ==>
            ResolveSession(false, token, rows, now, settings) == Err(CredentialsError))
      && (payload.Ok? && "sub" in payload.value ==>
            ResolveSession(false, token, rows, now, settings)
              == match GetUser(rows, payload.value["sub"].text)
                 case None => Err(CredentialsError)
                 case Some(u) => Ok(u))
  {
  }

  /** The active-user check applied to the guard's outcome. */
  function ActiveOnly(current: Result<User, HttpError>): (r: Result<User, HttpError>)
    ensures r.Ok? ==> r == current && !r.value.disabled
    ensures current.Ok? && current.value.disabled ==> r == Err(InactiveUser)
    ensures current.Err? || !current.value.disabled ==> r == current
  {
    match current
    case Err(_) => current
    case Ok(user) =>
      match CheckIfActive(user)
      case Some(e) => Err(e)
      case None => current
  }

  /**
   * The current-user guard: asks the registry (which prunes it) whether the token
   * is revoked, then resolves the token to a user.
   */
  method GetCurrentUser(blacklist: TokenBlacklist, users: UserTable, token: Jwt, now: int, settings: Settings)
    returns (r: Result<User, HttpError>)
    requires users.Valid()
    modifies blacklist
    ensures blacklist.entries == Live(old(blacklist.entries), now)
    ensures r == ResolveSession(Listed(blacklist.entries, token), token, users.rows, now, settings)
  {
    var revoked := blacklist.IsBlacklisted(token, now);
    if revoked {
      return Err(RevokedError);
    }
    var payload := Decode(token, settings.secretKey, settings.algorithm, now);
    if payload.Err? {
      return Err(CredentialsError);
    }
    if "sub" !in payload.value {
      return Err(CredentialsError);
    }
    var user := GetUser(users.rows, payload.value["sub"].text);
    if user.None? {
      return Err(CredentialsError);
    }
    return Ok(user.value);
  }

  /** The current-user guard followed by the active-user check. */
  method GetCurrentActiveUser(blacklist: TokenBlacklist, users: UserTable, token: Jwt, now: int, settings: Settings)
    returns (r: Result<User, HttpError>)
    requires users.Valid()
    modifies blacklist
    ensures blacklist.entries == Live(old(blacklist.entries), now)
    ensures r == ActiveOnly(ResolveSession(Listed(blacklist.entries, token), token, users.rows, now, settings))
    ensures r.Ok? ==> !r.value.disabled
  {
    var current := GetCurrentUser(blacklist, users, token, now, settings);
    if current.Ok? {
      var rejection := CheckIfActive(current.value);
      if rejection.Some? {
        return Err(rejection.value);
      }
    }
    return current;
  }

  /**
   * A disabled user is never the active user, whatever the token: a revoked or
   * invalid token fails with 401 first, and a valid token of a disabled user with 400.
   */
  lemma DisabledNeverActive(revoked: bool, token: Jwt, rows: map<int, User>, now: int, settings: Settings)
    requires UniqueEmails(rows)
    ensures var current := ResolveSession(revoked, token, rows, now, settings);
      && (current.Ok? && current.value.disabled ==> ActiveOnly(current) == Err(InactiveUser))
      && (current.Err? ==> ActiveOnly(current).error.status == Unauthorized)
      && (ActiveOnly(current).Ok? ==> !ActiveOnly(current).value.disabled)
  {
  }
}
