/**
 * Properties of sequences of account operations: what one operation
 * guarantees about the operations that follow it.
 */
module AccountProperties {
  import opened Common
  import opened Text
  import opened Accounts

  /** Addresses that differ only in letter case share their normalized key. */
  lemma {:induction false} CaseVariantsNormalizeAlike(e1: string, e2: string)
    requires ToLower(e1) == ToLower(e2)
    ensures Normalize(e1) == Normalize(e2)
  {
    TrimToLowerCommute(e1);
    TrimToLowerCommute(e2);
  }

  /**
   * Once an address is registered, registering any address with the same
   * normalized key (any case or whitespace variant) is refused and changes nothing.
   */
  lemma SecondRegistrationConflicts(env: Collaborators, users: Users,
                                    email: string, password: string, role: string, id: Guid,
                                    token: string, salt: string, now: Time, delivered: bool,
                                    email2: string, password2: string, role2: string, id2: Guid,
                                    token2: string, salt2: string, now2: Time, delivered2: bool)
    requires Register(env, users, email, password, role, id, token, salt, now, delivered).result
             in {UserRegistered, RegisterMailFailed}
    requires env.isValidEmail(email2) && Normalize(email2) == Normalize(email)
    ensures var after := Register(env, users, email, password, role, id, token, salt, now, delivered).users;
            var r := Register(env, after, email2, password2, role2, id2, token2, salt2, now2, delivered2);
            r.result == UserAlreadyExists && r.users == after && r.mail == None
  {
  }

  /** A freshly registered user cannot log in, even with the right password. */
  lemma NewUserCannotLogIn(env: Collaborators, users: Users,
                           email: string, password: string, role: string, id: Guid,
                           token: string, salt: string, now: Time, delivered: bool,
                           loginEmail: string, refresh: string, now2: Time)
    requires Register(env, users, email, password, role, id, token, salt, now, delivered).result
             in {UserRegistered, RegisterMailFailed}
    requires LoginKey(loginEmail) == Normalize(email)
    ensures var after := Register(env, users, email, password, role, id, token, salt, now, delivered).users;
            Login(env, after, loginEmail, password, refresh, now2).result.None?
  {
  }

  /**
   * Login and RefreshToken lower-case but do not trim: an address with
   * leading whitespace never finds a stored record.
   */
  lemma PaddedAddressNeverLogsIn(env: Collaborators, users: Users, email: string, password: string,
                                 presented: string, refresh: string, now: Time)
    requires Invariant(users)
    requires |email| > 0 && IsWhiteSpace(email[0])
    ensures Login(env, users, email, password, refresh, now) == Step(users, None, None)
    ensures RefreshToken(users, email, presented, refresh, now) == Step(users, None, None)
  {
    var key := LoginKey(email);
    assert IsWhiteSpace(key[0]);
    if key in users {
      assert WellFormed(key, users[key]);
      StoredKeyHasNoLeadingSpace(key);
    }
  }

  /** A normalized address does not start with whitespace. */
  lemma StoredKeyHasNoLeadingSpace(key: string)
    requires Normalize(key) == key && key != []
    ensures !IsWhiteSpace(key[0])
  {
    TrimSpec(key);
    assert Normalize(key)[0] == LowerChar(Trim(key)[0]);
  }

  /** The address a confirmation link carries leads ConfirmEmail back to the same record, if it has no `%`. */
  lemma {:induction false} LinkAddressFindsRecord(key: string)
    requires Normalize(key) == key && '%' !in key
    ensures ConfirmKey(key) == key
  {
    UnescapeWithoutPercent(key);
  }

  /**
   * The token a registration issues confirms the address up to and including
   * 24 hours later, and is reported expired after that.
   */
  lemma ConfirmationWindow(env: Collaborators, users: Users,
                           email: string, password: string, role: string, id: Guid,
                           token: string, salt: string, now: Time, delivered: bool, later: Time)
    requires Register(env, users, email, password, role, id, token, salt, now, delivered).result
             in {UserRegistered, RegisterMailFailed}
    requires '%' !in Normalize(email)
    ensures var after := Register(env, users, email, password, role, id, token, salt, now, delivered).users;
            ConfirmEmail(after, Normalize(email), token, later).result
            == if later <= now + ConfirmationTokenLifetime then EmailConfirmed else TokenExpired
  {
    NormalizeIdempotent(email);
    LinkAddressFindsRecord(Normalize(email));
  }

  /** A confirmation token works once: repeating a successful ConfirmEmail fails. */
  lemma ConfirmTwiceFails(users: Users, email: string, token: string, now: Time, later: Time)
    requires ConfirmEmail(users, email, token, now).result == EmailConfirmed
    ensures var after := ConfirmEmail(users, email, token, now).users;
            ConfirmEmail(after, email, token, later) == Step(after, None, InvalidTokenOrEmail)
  {
  }

  /**
   * After ResendConfirmation the earlier token no longer confirms, and the
   * new one does within 24 hours.
   */
  lemma ResendReplacesToken(users: Users, email: string, oldToken: string, newToken: string,
                            now: Time, delivered: bool, later: Time)
    requires Invariant(users)
    requires ResendConfirmation(users, email, newToken, now, delivered).result in {Sent, ResendMailFailed}
    requires '%' !in Normalize(email) && oldToken != newToken
    ensures var after := ResendConfirmation(users, email, newToken, now, delivered).users;
            && ConfirmEmail(after, Normalize(email), oldToken, later).result == InvalidTokenOrEmail
            && (later <= now + ConfirmationTokenLifetime ==>
                  ConfirmEmail(after, Normalize(email), newToken, later).result == EmailConfirmed)
  {
    NormalizeIdempotent(email);
    LinkAddressFindsRecord(Normalize(email));
  }

  /**
   * The refresh token Login hands out is accepted by RefreshToken exactly
   * until its expiry, 7 days later (an expiry equal to the current time still passes).
   */
  lemma LoginThenRefresh(env: Collaborators, users: Users, email: string, password: string,
                         refresh: string, now: Time, email2: string, refresh2: string, later: Time)
    requires Login(env, users, email, password, refresh, now).result.Some?
    requires LoginKey(email2) == LoginKey(email)
    ensures var after := Login(env, users, email, password, refresh, now).users;
            var response := Login(env, users, email, password, refresh, now).result.value;
            RefreshToken(after, email2, response.refreshToken, refresh2, later).result.Some?
            <==> later <= now + RefreshTokenLifetime
  {
  }

  /**
   * Rotation: after a successful RefreshToken the presented token is dead,
   * and the new one is the only one the record accepts.
   */
  lemma RotationInvalidatesPrevious(users: Users, email: string, presented: string, refresh: string,
                                    now: Time, email2: string, token2: string, refresh2: string, later: Time)
    requires RefreshToken(users, email, presented, refresh, now).result.Some?
    requires LoginKey(email2) == LoginKey(email)
    ensures var after := RefreshToken(users, email, presented, refresh, now).users;
            var r := RefreshToken(after, email2, token2, refresh2, later);
            r.result.Some? <==> token2 == refresh && later <= now + RefreshTokenLifetime
  {
  }

  /** Records are never removed, and a confirmed record stays confirmed, whatever operation runs. */
  ghost predicate KeepsConfirmed(before: Users, after: Users)
  {
    && before.Keys <= after.Keys
    && forall k | k in before && before[k].isEmailConfirmed :: after[k].isEmailConfirmed
  }

  lemma RegisterKeepsConfirmed(env: Collaborators, users: Users, email: string, password: string,
                               role: string, id: Guid, token: string, salt: string, now: Time, delivered: bool)
    ensures KeepsConfirmed(users, Register(env, users, email, password, role, id, token, salt, now, delivered).users)
  {
  }

  lemma LoginKeepsConfirmed(env: Collaborators, users: Users, email: string, password: string,
                            refresh: string, now: Time)
    ensures KeepsConfirmed(users, Login(env, users, email, password, refresh, now).users)
  {
  }

  lemma RefreshKeepsConfirmed(users: Users, email: string, presented: string, refresh: string, now: Time)
    ensures KeepsConfirmed(users, RefreshToken(users, email, presented, refresh, now).users)
  {
  }

  lemma ConfirmKeepsConfirmed(users: Users, email: string, token: string, now: Time)
    ensures KeepsConfirmed(users, ConfirmEmail(users, email, token, now).users)
  {
  }

  lemma ResendKeepsConfirmed(users: Users, email: string, token: string, now: Time, delivered: bool)
    ensures KeepsConfirmed(users, ResendConfirmation(users, email, token, now, delivered).users)
  {
  }
}
