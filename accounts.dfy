/**
 * The account records of the authentication service and, for each of its
 * five operations, the change it makes to the store of records, the mail it
 * attempts and the result it returns.
 */
module Accounts {
  import opened Common
  import opened Text

  /** The outcome of `PasswordHasher.VerifyHashedPassword`. */
  datatype Verification = Failed | Success | SuccessRehashNeeded

  /** The library code the service calls and this model does not look into. */
  datatype Collaborators = Collaborators(
    /** `EmailAddressAttribute.IsValid`, applied to the address as the caller gave it. */
    isValidEmail: string -> bool,
    /** `PasswordHasher.HashPassword`, given the random salt it would draw and the password. */
    hashPassword: (string, string) -> string,
    /** `PasswordHasher.VerifyHashedPassword`, given the stored hash and a password. */
    verifyPassword: (string, string) -> Verification)

  /** One account record. */
  datatype User = User(
    id: Guid,
    email: string,
    passwordHash: string,
    role: string,
    isEmailConfirmed: bool,
    emailConfirmationToken: Option<string>,
    emailConfirmationTokenExpires: Option<Time>,
    refreshToken: Option<string>,
    refreshTokenExpiry: Option<Time>)

  /** The store of records, keyed by the stored e-mail address. */
  type Users = map<string, User>

  const DefaultRole: string := "User"
  const ConfirmationTokenLifetime: int := 24 * Hour
  const RefreshTokenLifetime: int := 7 * Day
  const AccessTokenLifetime: int := 15 * Minute

  const ConfirmSubject: string := "Confirm your email"
  const ResendSubject: string := "Resend: Confirm your email"

  /** A confirmation mail: its recipient, its subject and the token its link carries. */
  datatype Mail = Mail(to: string, subject: string, token: string)

  /** What an operation leaves behind: the store, the mail it attempted (if any) and its result. */
  datatype Step<R> = Step(users: Users, mail: Option<Mail>, result: R)

  /** The claims of the JWT access token: subject id, e-mail, role and expiry. */
  datatype AccessToken = AccessToken(userId: Guid, email: string, role: string, expires: Time)

  /** `AuthResponse`: the access token and the refresh token handed to the client. */
  datatype AuthResponse = AuthResponse(accessToken: AccessToken, refreshToken: string)

  datatype RegisterResult =
    | InvalidEmailFormat   // "Invalid email format."
    | UserAlreadyExists    // "User already exists."
    | UserRegistered       // "User registered successfully."
    | RegisterMailFailed   // the mail sender threw after the user was saved

  datatype ConfirmResult =
    | InvalidTokenOrEmail  // "Invalid token or email."
    | TokenExpired         // "Token has expired. Please request a new confirmation email."
    | EmailConfirmed       // "Email confirmed successfully."

  datatype ResendResult =
    | NotFound             // "Not found"
    | AlreadyConfirmed     // "Already confirmed"
    | Sent                 // "Sent"
    | ResendMailFailed     // the mail sender threw after the new token was saved

  /** The key Register and ResendConfirmation look users up by: trimmed, then lower-cased. */
  function Normalize(email: string): string
  {
    ToLower(Trim(email))
  }

  /** The key Login and RefreshToken look users up by: lower-cased only. */
  function LoginKey(email: string): string
  {
    ToLower(email)
  }

  /** The key ConfirmEmail looks users up by: unescaped, trimmed, lower-cased. */
  function ConfirmKey(email: string): string
  {
    Normalize(Unescape(email))
  }

  /** A normalized address is its own normalization and its own lower-case form. */
  lemma NormalizeIdempotent(email: string)
    ensures Normalize(Normalize(email)) == Normalize(email)
    ensures ToLower(Normalize(email)) == Normalize(email)
  {
    var t := Trim(email);
    TrimToLowerCommute(t);
    TrimIdempotent(email);
    ToLowerIdempotent(t);
  }

  /** A DateTime? that is set and lies strictly before `now` (C#'s lifted `<` is false on null). */
  predicate Expired(expiry: Option<Time>, now: Time)
  {
    expiry.Some? && expiry.value < now
  }

  /** What every stored record satisfies, under the key it is stored by. */
  predicate WellFormed(key: string, u: User)
  {
    && u.email == key
    && Normalize(key) == key
    && (u.emailConfirmationToken.Some? <==> u.emailConfirmationTokenExpires.Some?)
    && (u.refreshToken.Some? <==> u.refreshTokenExpiry.Some?)
    && (u.isEmailConfirmed <==> u.emailConfirmationToken.None?)
  }

  /** The store invariant: every record is well formed. */
  predicate Invariant(users: Users)
  {
    forall key | key in users :: WellFormed(key, users[key])
  }

  /** The record `SingleOrDefault(u => u.Email.ToLower() == key)` selects. */
  function Find(users: Users, key: string): Option<User>
  {
    if key in users then Some(users[key]) else None
  }

  /** The stored records whose lower-cased address equals `key`. */
  ghost function Matching(users: Users, key: string): set<User>
  {
    set k | k in users && ToLower(users[k].email) == key :: users[k]
  }

  /**
   * Under the invariant the services' queries select at most one record, so
   * `SingleOrDefault` never throws and `AnyAsync` holds exactly when `Find`
   * finds a record; `Find` returns that record.
   */
  lemma FindMatchesQuery(users: Users, key: string)
    requires Invariant(users)
    ensures Find(users, key).None? <==> Matching(users, key) == {}
    ensures Find(users, key).Some? ==> Matching(users, key) == {Find(users, key).value}
  {
    forall k | k in users
      ensures ToLower(users[k].email) == k
    {
      NormalizeIdempotent(k);
    }
    if key in users {
      assert users[key] in Matching(users, key);
    }
  }

  /** `GenerateJwtToken`: the claims of the signed access token for `u`. */
  function IssueAccessToken(u: User, now: Time): AccessToken
  {
    AccessToken(u.id, u.email, u.role, now + AccessTokenLifetime)
  }

  /** The record `RegisterAsync` creates: unconfirmed, with a confirmation token valid for 24 hours. */
  function NewUser(id: Guid, email: string, passwordHash: string, role: string, token: string, now: Time): User
  {
    User(id, email, passwordHash, if role == "" then DefaultRole else role,
         false, Some(token), Some(now + ConfirmationTokenLifetime), None, None)
  }

  /** `RegisterAsync`. */
  function Register(env: Collaborators, users: Users, email: string, password: string, role: string,
                    id: Guid, token: string, salt: string, now: Time, delivered: bool): (r: Step<RegisterResult>)
    ensures r.result == InvalidEmailFormat <==> !env.isValidEmail(email)
    ensures r.result == UserAlreadyExists <==> env.isValidEmail(email) && Normalize(email) in users
    ensures r.result in {InvalidEmailFormat, UserAlreadyExists} ==> r.users == users && r.mail == None
    ensures r.result in {UserRegistered, RegisterMailFailed} ==>
              var key := Normalize(email);
              && key !in users
              && r.users.Keys == users.Keys + {key}
              && (forall k | k in users :: r.users[k] == users[k])
              && r.users[key].email == key
              && r.users[key].id == id
              && r.users[key].passwordHash == env.hashPassword(salt, password)
              && r.users[key].role == (if role == "" then DefaultRole else role)
              && !r.users[key].isEmailConfirmed
              && r.users[key].emailConfirmationToken == Some(token)
              && r.users[key].emailConfirmationTokenExpires == Some(now + ConfirmationTokenLifetime)
              && r.users[key].refreshToken.None? && r.users[key].refreshTokenExpiry.None?
              && r.mail == Some(Mail(key, ConfirmSubject, token))
              && (r.result == UserRegistered <==> delivered)
    ensures Invariant(users) ==> Invariant(r.users)
  {
    if !env.isValidEmail(email) then Step(users, None, InvalidEmailFormat)
    else
      var key := Normalize(email);
      if Find(users, key).Some? then Step(users, None, UserAlreadyExists)
      else
        NormalizeIdempotent(email);
        var user := NewUser(id, key, env.hashPassword(salt, password), role, token, now);
        Step(users[key := user], Some(Mail(key, ConfirmSubject, token)),
             if delivered then UserRegistered else RegisterMailFailed)
  }

  /** `LoginAsync`. */
  function Login(env: Collaborators, users: Users, email: string, password: string,
                 newRefreshToken: string, now: Time): (r: Step<Option<AuthResponse>>)
    ensures r.mail == None
    ensures r.result.None? <==>
              var key := LoginKey(email);
              || key !in users
              || !users[key].isEmailConfirmed
              || env.verifyPassword(users[key].passwordHash, password) != Success
    ensures r.result.None? ==> r.users == users
    ensures r.result.Some? ==>
              var key := LoginKey(email);
              var u := users[key];
              && r.users == users[key := u.(refreshToken := Some(newRefreshToken),
                                            refreshTokenExpiry := Some(now + RefreshTokenLifetime))]
              && r.result.value.refreshToken == newRefreshToken
              && r.result.value.accessToken == IssueAccessToken(u, now)
    ensures Invariant(users) ==> Invariant(r.users)
  {
    var key := LoginKey(email);
    match Find(users, key)
    case None => Step(users, None, None)
    case Some(u) =>
      if !u.isEmailConfirmed then Step(users, None, None)
      else if env.verifyPassword(u.passwordHash, password) != Success then Step(users, None, None)
      else
        var accessToken := IssueAccessToken(u, now);
        var u' := u.(refreshToken := Some(newRefreshToken), refreshTokenExpiry := Some(now + RefreshTokenLifetime));
        Step(users[key := u'], None, Some(AuthResponse(accessToken, newRefreshToken)))
  }

  /** `RefreshTokenAsync`. */
  function RefreshToken(users: Users, email: string, refreshToken: string,
                        newRefreshToken: string, now: Time): (r: Step<Option<AuthResponse>>)
    ensures r.mail == None
    ensures r.result.None? <==>
              var key := LoginKey(email);
              || key !in users
              || users[key].refreshToken != Some(refreshToken)
              || Expired(users[key].refreshTokenExpiry, now)
    ensures r.result.None? ==> r.users == users
    ensures r.result.Some? ==>
              var key := LoginKey(email);
              var u := users[key];
              && r.users == users[key := u.(refreshToken := Some(newRefreshToken),
                                            refreshTokenExpiry := Some(now + RefreshTokenLifetime))]
              && r.result.value.refreshToken == newRefreshToken
              && r.result.value.accessToken == IssueAccessToken(u, now)
    ensures Invariant(users) ==> Invariant(r.users)
  {
    var key := LoginKey(email);
    match Find(users, key)
    case None => Step(users, None, None)
    case Some(u) =>
      if u.refreshToken != Some(refreshToken) || Expired(u.refreshTokenExpiry, now) then Step(users, None, None)
      else
        var accessToken := IssueAccessToken(u, now);
        var u' := u.(refreshToken := Some(newRefreshToken), refreshTokenExpiry := Some(now + RefreshTokenLifetime));
        Step(users[key := u'], None, Some(AuthResponse(accessToken, newRefreshToken)))
  }

  /** `ConfirmEmailAsync`. */
  function ConfirmEmail(users: Users, email: string, token: string, now: Time): (r: Step<ConfirmResult>)
    ensures r.mail == None
    ensures r.result == InvalidTokenOrEmail <==>
              var key := ConfirmKey(email);
              key !in users || users[key].emailConfirmationToken != Some(token)
    ensures r.result == TokenExpired <==>
              var key := ConfirmKey(email);
              && key in users
              && users[key].emailConfirmationToken == Some(token)
              && Expired(users[key].emailConfirmationTokenExpires, now)
    ensures r.result != EmailConfirmed ==> r.users == users
    ensures r.result == EmailConfirmed ==>
              var key := ConfirmKey(email);
              r.users == users[key := users[key].(isEmailConfirmed := true,
                                                  emailConfirmationToken := None,
                                                  emailConfirmationTokenExpires := None)]
    ensures Invariant(users) ==> Invariant(r.users)
  {
    var key := ConfirmKey(email);
    match Find(users, key)
    case None => Step(users, None, InvalidTokenOrEmail)
    case Some(u) =>
      if u.emailConfirmationToken != Some(token) then Step(users, None, InvalidTokenOrEmail)
      else if Expired(u.emailConfirmationTokenExpires, now) then Step(users, None, TokenExpired)
      else
        var u' := u.(isEmailConfirmed := true, emailConfirmationToken := None, emailConfirmationTokenExpires := None);
        Step(users[key := u'], None, EmailConfirmed)
  }

  /** `ResendConfirmationEmailAsync`. */
  function ResendConfirmation(users: Users, email: string, token: string, now: Time,
                              delivered: bool): (r: Step<ResendResult>)
    ensures r.result == NotFound <==> Normalize(email) !in users
    ensures r.result == AlreadyConfirmed <==>
              Normalize(email) in users && users[Normalize(email)].isEmailConfirmed
    ensures r.result in {NotFound, AlreadyConfirmed} ==> r.users == users && r.mail == None
    ensures r.result in {Sent, ResendMailFailed} ==>
              var key := Normalize(email);
              var u := users[key];
              && r.users == users[key := u.(emailConfirmationToken := Some(token),
                                            emailConfirmationTokenExpires := Some(now + ConfirmationTokenLifetime))]
              && r.mail == Some(Mail(u.email, ResendSubject, token))
              && (r.result == Sent <==> delivered)
    ensures Invariant(users) ==> Invariant(r.users)
  {
    var key := Normalize(email);
    match Find(users, key)
    case None => Step(users, None, NotFound)
    case Some(u) =>
      if u.isEmailConfirmed then Step(users, None, AlreadyConfirmed)
      else
        var u' := u.(emailConfirmationToken := Some(token),
                     emailConfirmationTokenExpires := Some(now + ConfirmationTokenLifetime));
        Step(users[key := u'], Some(Mail(u.email, ResendSubject, token)),
             if delivered then Sent else ResendMailFailed)
  }
}
