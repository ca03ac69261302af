/**
 * `AuthenticationService`: the store of account records, updated in place by
 * the five operations, and the mails it has attempted to send.
 */
module AuthService {
  import opened Common
  import opened Text
  import opened Accounts

  class AuthenticationService {
    /** Address validation and password hashing. */
    const env: Collaborators
    /** `_context.Users`, keyed by the stored (normalized) address. */
    var users: Users
    /** Every `SendEmailAsync` call made so far, oldest first. */
    var outbox: seq<Mail>

    ghost predicate Valid()
      reads this
    {
      Invariant(users)
    }

    /** A service over a `Users` table that already holds `initial`. */
    constructor (env: Collaborators, initial: Users)
      requires Invariant(initial)
      ensures Valid()
      ensures this.env == env && users == initial && outbox == []
    {
      this.env := env;
      users := initial;
      outbox := [];
    }

    /**
     * `RegisterAsync`, with the fresh Guid token, the hasher's salt, the clock
     * and the outcome of the mail send supplied by the caller.
     */
    method RegisterAsync(email: string, password: string, role: string,
                         id: Guid, token: string, salt: string, now: Time, delivered: bool)
      returns (result: RegisterResult)
      requires Valid()
      modifies this
      ensures Valid()
      ensures var step := Register(env, old(users), email, password, role, id, token, salt, now, delivered);
              && users == step.users && result == step.result
              && outbox == if step.mail.Some? then old(outbox) + [step.mail.value] else old(outbox)
    {
      if !env.isValidEmail(email) {
        result := InvalidEmailFormat;
      } else {
        var normalizedEmail := Normalize(email);
        if Find(users, normalizedEmail).Some? {
          result := UserAlreadyExists;
        } else {
          var user := NewUser(id, normalizedEmail, env.hashPassword(salt, password), role, token, now);
          users := users[normalizedEmail := user];
          outbox := outbox + [Mail(normalizedEmail, ConfirmSubject, token)];
          NormalizeIdempotent(email);
          result := if delivered then UserRegistered else RegisterMailFailed;
        }
      }
    }

    /** `LoginAsync`, with the fresh refresh token and the clock supplied by the caller. */
    method LoginAsync(email: string, password: string, newRefreshToken: string, now: Time)
      returns (response: Option<AuthResponse>)
      requires Valid()
      modifies this
      ensures Valid()
      ensures var step := Login(env, old(users), email, password, newRefreshToken, now);
              users == step.users && response == step.result && outbox == old(outbox)
    {
      var key := LoginKey(email);
      var found := Find(users, key);
      if found.None? {
        return None;
      }
      var user := found.value;
      if !user.isEmailConfirmed {
        return None;
      }
      if env.verifyPassword(user.passwordHash, password) != Success {
        return None;
      }
      var accessToken := IssueAccessToken(user, now);
      user := user.(refreshToken := Some(newRefreshToken));
      user := user.(refreshTokenExpiry := Some(now + RefreshTokenLifetime));
      users := users[key := user];
      return Some(AuthResponse(accessToken, newRefreshToken));
    }

    /** `RefreshTokenAsync`, with the fresh refresh token and the clock supplied by the caller. */
    method RefreshTokenAsync(email: string, refreshToken: string, newRefreshToken: string, now: Time)
      returns (response: Option<AuthResponse>)
      requires Valid()
      modifies this
      ensures Valid()
      ensures var step := Accounts.RefreshToken(old(users), email, refreshToken, newRefreshToken, now);
              users == step.users && response == step.result && outbox == old(outbox)
    {
      var key := LoginKey(email);
      var found := Find(users, key);
      if found.None? || found.value.refreshToken != Some(refreshToken)
         || Expired(found.value.refreshTokenExpiry, now) {
        return None;
      }
      var user := found.value;
      var newAccessToken := IssueAccessToken(user, now);
      user := user.(refreshToken := Some(newRefreshToken), refreshTokenExpiry := Some(now + RefreshTokenLifetime));
      users := users[key := user];
      return Some(AuthResponse(newAccessToken, newRefreshToken));
    }

    /** `ConfirmEmailAsync`, with the clock supplied by the caller. */
    method ConfirmEmailAsync(email: string, token: string, now: Time) returns (result: ConfirmResult)
      requires Valid()
      modifies this
      ensures Valid()
      ensures var step := ConfirmEmail(old(users), email, token, now);
              users == step.users && result == step.result && outbox == old(outbox)
    {
      var normalizedEmail := ConfirmKey(email);
      var found := Find(users, normalizedEmail);
      if found.None? || found.value.emailConfirmationToken != Some(token) {
        return InvalidTokenOrEmail;
      }
      var user := found.value;
      if Expired(user.emailConfirmationTokenExpires, now) {
        return TokenExpired;
      }
      user := user.(isEmailConfirmed := true);
      user := user.(emailConfirmationToken := None);
      user := user.(emailConfirmationTokenExpires := None);
      users := users[normalizedEmail := user];
      return EmailConfirmed;
    }

    /**
     * `ResendConfirmationEmailAsync`, with the fresh Guid token, the clock and
     * the outcome of the mail send supplied by the caller.
     */
    method ResendConfirmationEmailAsync(email: string, token: string, now: Time, delivered: bool)
      returns (result: ResendResult)
      requires Valid()
      modifies this
      ensures Valid()
      ensures var step := ResendConfirmation(old(users), email, token, now, delivered);
              && users == step.users && result == step.result
              && outbox == if step.mail.Some? then old(outbox) + [step.mail.value] else old(outbox)
    {
      var normalizedEmail := Normalize(email);
      var found := Find(users, normalizedEmail);
      if found.None? {
        result := NotFound;
      } else if found.value.isEmailConfirmed {
        result := AlreadyConfirmed;
      } else {
        var user := found.value;
        user := user.(emailConfirmationToken := Some(token));
        user := user.(emailConfirmationTokenExpires := Some(now + ConfirmationTokenLifetime));
        users := users[normalizedEmail := user];
        outbox := outbox + [Mail(user.email, ResendSubject, token)];
        result := if delivered then Sent else ResendMailFailed;
      }
    }
  }
}
