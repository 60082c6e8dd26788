/**
 * The two authentication endpoints that connect token issuance, the guard and the
 * revocation registry: login (issue a token for a password) and logout (revoke the
 * presented token). Each comes as written and corrected; the corrected versions
 * are the ones the properties below are proved about.
 */
module Auth {
  import opened Common
  import opened Crypto
  import opened Security
  import opened Users
  import opened Dependencies
  import opened Permission

  const IncorrectLogin := HttpError(Unauthorized, "Incorrect username or password")

  /** The lifetime, in seconds, a login token is issued with. */
  function LoginLifetime(settings: Settings): Option<int> {
    Some(settings.accessTokenExpireMinutes * SecondsPerMinute)
  }

  /** The token issued at `now` for a signed-in account, naming `subject`. */
  function SessionToken(subject: string, now: int, settings: Settings): Jwt {
    CreateAccessToken(map["sub" := Text(subject)], LoginLifetime(settings), now, settings)
  }

  // ---------------------------------------------------------------------------
  // Login

  /**
   * Login as written: the form's username field is checked as an email, and the
   * token issued on success names the account's username.
   */
  function LoginAsWritten(rows: map<int, User>, formUsername: string, password: string, now: int, settings: Settings)
    : (r: Result<Jwt, HttpError>)
    requires UniqueEmails(rows)
    ensures r.Err? <==> AuthenticateUser(rows, formUsername, password).None?
    ensures r.Err? ==> r.error == IncorrectLogin
    ensures r.Ok? ==> r.value == SessionToken(AuthenticateUser(rows, formUsername, password).value.username, now, settings)
  {
    match AuthenticateUser(rows, formUsername, password)
    case None => Err(IncorrectLogin)
    case Some(user) => Ok(SessionToken(user.username, now, settings))
  }

  /**
   * A token issued by the login as written is never accepted by the guard when the
   * account's username is nobody's email: the guard looks the subject up as an email.
   */
  lemma LoginAsWrittenTokenRejected(rows: map<int, User>, email: string, password: string,
                                    issued: int, later: int, settings: Settings)
    requires UniqueEmails(rows)
    requires LoginAsWritten(rows, email, password, issued, settings).Ok?
    requires forall id :: id in rows ==> rows[id].email != AuthenticateUser(rows, email, password).value.username
    ensures ResolveSession(false, LoginAsWritten(rows, email, password, issued, settings).value, rows, later, settings)
         == Err(CredentialsError)
  {
    var name := AuthenticateUser(rows, email, password).value.username;
    var t := SessionToken(name, issued, settings);
    var payload := Decode(t, settings.secretKey, settings.algorithm, later);
    if payload.Ok? {
      assert payload.value["sub"] == Text(name);
      assert GetUser(rows, name).None?;
    }
  }

  /** One account for which this happens: username "alice", email "alice@example.com". */
  lemma LoginAsWrittenCounterexample(settings: Settings, salt: nat)
    requires settings.accessTokenExpireMinutes > 0
    ensures var alice := User(1, "alice", Hash("s3cret!A", salt), "alice@example.com",
                              "Alice", "A", "", "+000000000000", "", false, "user");
      var rows := map[1 := alice];
      var login := LoginAsWritten(rows, "alice@example.com", "s3cret!A", 0, settings);
      && login.Ok?
      && Decode(login.value, settings.secretKey, settings.algorithm, 1).Ok?
      && ResolveSession(false, login.value, rows, 1, settings) == Err(CredentialsError)
  {
    var alice := User(1, "alice", Hash("s3cret!A", salt), "alice@example.com",
                      "Alice", "A", "", "+000000000000", "", false, "user");
    var rows := map[1 := alice];
    AuthenticateStoredPassword(rows, 1, "s3cret!A", salt, "s3cret!A");
    IssuedTokenLifetime(map["sub" := Text("alice")], LoginLifetime(settings), 0, settings, 1);
    LoginAsWrittenTokenRejected(rows, "alice@example.com", "s3cret!A", 0, 1, settings);
  }

  /**
   * The bootstrap administrator is the exception: its username and its email are
   * both "admin", so its token from the login as written is resolved by the guard
   * to that account until the token expires.
   */
  lemma LoginAsWrittenAdminAccepted(rows: map<int, User>, id: int, salt: nat,
                                    issued: int, later: int, settings: Settings)
    requires UniqueEmails(rows) && id in rows && rows[id] == FirstAdmin(id, salt)
    requires later < ExpiryInstant(LoginLifetime(settings), issued)
    ensures LoginAsWritten(rows, "admin", DefaultAdminPassword, issued, settings).Ok?
    ensures ResolveSession(false, LoginAsWritten(rows, "admin", DefaultAdminPassword, issued, settings).value,
                           rows, later, settings) == Ok(rows[id])
  {
    BootstrapAdminAuthenticates(rows, id, salt, DefaultAdminPassword);
    GetUserFindsTheRow(rows, id);
    IssuedTokenLifetime(map["sub" := Text("admin")], LoginLifetime(settings), issued, settings, later);
  }

  /** Login: the token issued on success names the account's email, which is what the guard resolves. */
  function Login(rows: map<int, User>, formUsername: string, password: string, now: int, settings: Settings)
    : (r: Result<Jwt, HttpError>)
    requires UniqueEmails(rows)
    ensures r.Err? <==> AuthenticateUser(rows, formUsername, password).None?
    ensures r.Err? ==> r.error == IncorrectLogin
    ensures r.Ok? ==> r.value == SessionToken(formUsername, now, settings)
  {
    match AuthenticateUser(rows, formUsername, password)
    case None => Err(IncorrectLogin)
    case Some(user) => Ok(SessionToken(user.email, now, settings))
  }

  /**
   * Round trip: a token from a successful login is resolved by the guard, while it
   * is not revoked and before its expiry, to exactly the account that signed in;
   * from its expiry on it is rejected.
   */
  lemma LoginThenGuard(rows: map<int, User>, email: string, password: string,
                       issued: int, later: int, settings: Settings)
    requires UniqueEmails(rows)
    requires Login(rows, email, password, issued, settings).Ok?
    ensures var r := ResolveSession(false, Login(rows, email, password, issued, settings).value, rows, later, settings);
      && (later < ExpiryInstant(LoginLifetime(settings), issued) ==> r == Ok(AuthenticateUser(rows, email, password).value))
      && (later >= ExpiryInstant(LoginLifetime(settings), issued) ==> r == Err(CredentialsError))
  {
    var user := AuthenticateUser(rows, email, password).value;
    var id :| id in rows && rows[id] == user;
    GetUserFindsTheRow(rows, id);
    IssuedTokenLifetime(map["sub" := Text(email)], LoginLifetime(settings), issued, settings, later);
  }

  // ---------------------------------------------------------------------------
  // Logout

  /** How long logout revokes the token, as written. */
  const LogoutMinutesAsWritten := 15
  /** How long the logout response says the token will be rejected. */
  const AnnouncedLogoutMinutes := 30

  /** The registry after a logout call at `now` that passed the gate: the gate's query, then the revocation. */
  function AfterLogout(entries: set<Entry>, token: Jwt, now: int, minutes: int): set<Entry> {
    Step(Step(entries, Query(token, now)), Add(token, now, minutes))
  }

  /**
   * Logout: the gate (account, logout), then the presented token is revoked for
   * `minutes`. Only the registry changes.
   */
  method LogoutFor(minutes: int, blacklist: TokenBlacklist, users: UserTable, token: Jwt, now: int, settings: Settings)
    returns (r: Result<User, HttpError>)
    requires users.Valid()
    modifies blacklist
    ensures r == Authorize(ActiveOnly(ResolveSession(Listed(Live(old(blacklist.entries), now), token),
                                                     token, users.rows, now, settings)),
                           "account", "logout")
    ensures r.Ok? ==> blacklist.entries == AfterLogout(old(blacklist.entries), token, now, minutes)
    ensures r.Err? ==> blacklist.entries == Step(old(blacklist.entries), Query(token, now))
  {
    r := RequirePermission("account", "logout", blacklist, users, token, now, settings);
    if r.Ok? {
      blacklist.AddToken(token, now, minutes);
    }
  }

  /** Logout as written: the (account, logout) gate, then the token is revoked for 15 minutes. */
  method LogoutAsWritten(blacklist: TokenBlacklist, users: UserTable, token: Jwt, now: int, settings: Settings)
    returns (r: Result<User, HttpError>)
    requires users.Valid()
    modifies blacklist
    ensures r == Authorize(ActiveOnly(ResolveSession(Listed(Live(old(blacklist.entries), now), token),
                                                     token, users.rows, now, settings)),
                           "account", "logout")
    ensures r.Ok? ==> blacklist.entries == AfterLogout(old(blacklist.entries), token, now, LogoutMinutesAsWritten)
    ensures r.Err? ==> blacklist.entries == Step(old(blacklist.entries), Query(token, now))
  {
    r := LogoutFor(LogoutMinutesAsWritten, blacklist, users, token, now, settings);
  }

  /**
   * Logout as written forgets the token before the announced 30 minutes: a token not
   * otherwise revoked is, 20 minutes after logout, not reported revoked, so the
   * guard treats it like any unrevoked token.
   */
  lemma LogoutAsWrittenForgetsEarly(entries: set<Entry>, token: Jwt, s: int, rows: map<int, User>, settings: Settings)
    requires UniqueEmails(rows)
    requires forall e :: e in entries ==> e.0 != token
    ensures var after := AfterLogout(entries, token, s, LogoutMinutesAsWritten);
      var u := s + 20 * SecondsPerMinute;
      && u < s + AnnouncedLogoutMinutes * SecondsPerMinute
      && !Answer(after, Query(token, u))
      && ResolveSession(Answer(after, Query(token, u)), token, rows, u, settings)
         == ResolveSession(false, token, rows, u, settings)
  {
  }

  /** Logout: the (account, logout) gate, then the token is revoked for the 30 minutes the response announces. */
  method Logout(blacklist: TokenBlacklist, users: UserTable, token: Jwt, now: int, settings: Settings)
    returns (r: Result<User, HttpError>)
    requires users.Valid()
    modifies blacklist
    ensures r == Authorize(ActiveOnly(ResolveSession(Listed(Live(old(blacklist.entries), now), token),
                                                     token, users.rows, now, settings)),
                           "account", "logout")
    ensures r.Ok? ==> blacklist.entries == AfterLogout(old(blacklist.entries), token, now, AnnouncedLogoutMinutes)
    ensures r.Err? ==> blacklist.entries == Step(old(blacklist.entries), Query(token, now))
  {
    r := LogoutFor(AnnouncedLogoutMinutes, blacklist, users, token, now, settings);
  }

  /** The token carries an expiry claim no later than `instant`. */
  predicate ExpiresBy(token: Jwt, instant: int) {
    token.Signed? && "exp" in token.claims && token.claims["exp"].Instant? && token.claims["exp"].time <= instant
  }

  lemma ReplaySnoc(start: set<Entry>, calls: seq<Call>, c: Call)
    ensures Replay(start, calls + [c]) == Step(Replay(start, calls), c)
  {
    assert (calls + [c])[..|calls|] == calls;
  }

  /** The entry a logout inserts survives every call made before it expires, and answers the next query. */
  lemma LogoutEntryInForce(entries: set<Entry>, token: Jwt, s: int, later: seq<Call>, u: int)
    requires forall i :: 0 <= i < |later| ==> later[i].at <= u
    requires u < s + AnnouncedLogoutMinutes * SecondsPerMinute
    ensures Answer(Replay(AfterLogout(entries, token, s, AnnouncedLogoutMinutes), later), Query(token, u))
  {
    var start := AfterLogout(entries, token, s, AnnouncedLogoutMinutes);
    var c := Add(token, s, AnnouncedLogoutMinutes);
    var e := Inserted(c);
    AddInserts(Step(entries, Query(token, s)), c);
    var all := later + [Query(token, u)];
    forall i | 0 <= i < |all| ensures all[i].at < e.1 {
      if i < |later| {
        assert all[i] == later[i];
      }
    }
    EntrySurvives(start, all, e);
    ReplaySnoc(start, later, Query(token, u));
  }

  /**
   * After a logout at instant s, whatever calls follow, the guard rejects the token
   * at every instant u before s + 30 minutes as revoked; and when the token's own
   * expiry is no later than s + 30 minutes, it is rejected at every later instant too.
   */
  lemma LoggedOutTokenRejected(entries: set<Entry>, token: Jwt, s: int, later: seq<Call>, u: int,
                               rows: map<int, User>, settings: Settings)
    requires UniqueEmails(rows)
    requires forall i :: 0 <= i < |later| ==> later[i].at <= u
    ensures var registry := Replay(AfterLogout(entries, token, s, AnnouncedLogoutMinutes), later);
      var r := ResolveSession(Answer(registry, Query(token, u)), token, rows, u, settings);
      && (u < s + AnnouncedLogoutMinutes * SecondsPerMinute ==> r == Err(RevokedError))
      && (ExpiresBy(token, s + AnnouncedLogoutMinutes * SecondsPerMinute) ==> r.Err?)
  {
    if u < s + AnnouncedLogoutMinutes * SecondsPerMinute {
      LogoutEntryInForce(entries, token, s, later, u);
    }
  }
}
