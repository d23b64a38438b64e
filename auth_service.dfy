/** OAuth login (`AuthService.validateOAuthLogin`): look the profile's email
    up in the user table, create a record only when none has it, and sign a
    token naming the resulting user. */
module Auth {
  import opened Wrappers
  import opened Users

  /** One `{ value }` entry of a profile's `emails` or `photos` list. */
  datatype ProfileValue = ProfileValue(value: string)

  /** The normalised profile a provider hands over after sign-in. */
  datatype OAuthProfile = OAuthProfile(
    id: string,
    emails: seq<ProfileValue>,
    displayName: string,
    photos: Option<seq<ProfileValue>>)

  /** What is signed into the session token. */
  datatype TokenPayload = TokenPayload(userId: string, email: Option<string>)

  datatype LoginResult = LoginResult(token: string, user: User)

  /** `profile.emails?.[0]?.value`: the first listed email, or `None` when the
      list is empty. */
  function ProfileEmail(profile: OAuthProfile): (r: Option<string>)
    ensures r.Some? <==> |profile.emails| > 0
    ensures r.Some? ==> r.value == profile.emails[0].value
  {
    if |profile.emails| == 0 then None else Some(profile.emails[0].value)
  }

  /** The payload handed to `jwtService.sign`: `{ userId, email }` of the user. */
  function Payload(user: User): TokenPayload {
    TokenPayload(user.id, user.email)
  }

  /** The user table after one login and the user that login returns. */
  function LoginOutcome(users: seq<User>, provider: string, profile: OAuthProfile, now: nat): (out: (seq<User>, User))
    // the returned user carries the extracted email and is stored
    ensures out.1.email == ProfileEmail(profile) && out.1 in out.0
    // a known email: the earliest such record comes back and nothing is added
    ensures HasEmail(users, ProfileEmail(profile)) ==>
      out.0 == users &&
      exists i :: IsFirstWithEmail(users, ProfileEmail(profile), i) && users[i] == out.1
    // an unknown email: exactly one record is appended, built from the profile
    ensures !HasEmail(users, ProfileEmail(profile)) ==>
      out.0 == users + [out.1] &&
      out.1 == User(NumberToString(now), ProfileEmail(profile), profile.displayName, provider, Some(profile.id))
  {
    var email := ProfileEmail(profile);
    match Find(users, email)
    case Some(u) => (users, u)
    case None =>
      var u := NewUser(CreateOAuthUserData(email, profile.displayName, provider, profile.id), now);
      (users + [u], u)
  }

  class AuthService {
    const usersService: UsersService
    /** `JwtService.sign`: the token for a payload signed at the given clock
        reading (the library stamps the signing time into the token), or
        `None` when signing throws, for instance because no secret is set. */
    const sign: (TokenPayload, nat) -> Option<string>

    constructor (usersService: UsersService, sign: (TokenPayload, nat) -> Option<string>)
      ensures this.usersService == usersService && this.sign == sign
    {
      this.usersService := usersService;
      this.sign := sign;
    }

    /** Logs in with `profile` from `provider`. `now` is the clock reading a
        new record would take its id from and `signedAt` the one at signing.
        The result is `None` when signing throws; the lookup-or-create has
        then already happened, so a new record stays stored. */
    method ValidateOAuthLogin(provider: string, profile: OAuthProfile, now: nat, signedAt: nat)
      returns (r: Option<LoginResult>)
      modifies usersService
      ensures usersService.users == LoginOutcome(old(usersService.users), provider, profile, now).0
      ensures var user := LoginOutcome(old(usersService.users), provider, profile, now).1;
        match sign(Payload(user), signedAt)
        case None => r.None?
        case Some(token) => r == Some(LoginResult(token, user))
    {
      var email := ProfileEmail(profile);
      var name := profile.displayName;

      var user := usersService.FindByEmail(email);

      if user.None? {
        var createdUser := usersService.CreateOAuthUser(
          CreateOAuthUserData(email, name, provider, profile.id), now);
        // `String(createdUser.id)`: the id already is a string
        user := Some(createdUser);
      }

      var token := sign(Payload(user.value), signedAt);
      if token.None? {
        return None;
      }
      r := Some(LoginResult(token.value, user.value));
    }
  }
}
