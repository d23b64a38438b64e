# OAuth find-or-create user store (Hidamari backend)

This project models the login core of the Hidamari NestJS backend in Dafny.

`UsersService` keeps the application's users in a private in-memory list.
- `findByEmail` returns the first record whose email equals the query.
- `createOAuthUser` builds a record and appends it to the list. The id is the decimal string of the current millisecond clock.

`AuthService.validateOAuthLogin` takes the first email of a provider's profile and looks it up. It creates a record only when none has that email. It then signs a token whose payload is `{ userId, email }` of the resulting user.

Files:
- `wrappers.dfy`: `Option`. `None` stands for JavaScript's `undefined`.
- `users_service.dfy` (module `Users`) holds these parts:
  - the `User` record;
  - the class `UsersService`, whose `users` field is a `seq<User>` that `CreateOAuthUser` reassigns;
  - the specification functions `FirstIndex` and `Find`, which state what `Array.prototype.find` returns;
  - the decimal id `NumberToString` and its inverse `DecimalValue`;
  - per-email counting and the "no two records share an email" invariant.
- `auth_service.dfy` (module `Auth`) holds these parts:
  - the profile type;
  - the email extraction;
  - `LoginOutcome`, which specifies one login over the list of records;
  - the class `AuthService`, whose `ValidateOAuthLogin` method performs the lookup-or-create on the shared `UsersService`.
- `login_properties.dfy` (module `LoginProperties`) covers sequences of logins, made one after another. It states what they do to the per-email record count and to the uniqueness invariant.

Modelling choices, in the system's own terms:
- A profile whose `emails` list is empty yields the email `undefined`. That value is passed to `findByEmail` and stored in the new record. JavaScript's `undefined === undefined` holds, so a later email-less login finds that record. `User.email` is therefore an `Option<string>`. `LoginIdempotent` shows the consequence: every email-less profile, from any provider, logs into the same account.
- The declared `User` type (Backend/src/auth/auth.service.ts:6-11) has no `providerId`. `createOAuthUser` writes one anyway (Backend/src/users/users.service.ts:25), so the model's `User` carries it as an optional field.
- `Date.now()` becomes the parameter `now: nat`. The record id is `NumberToString(now)`. `IdsCollideIffSameClock` proves that two ids are equal exactly when the two clock readings are equal, so ids are not unique.
- `JwtService.sign` becomes the field `sign`. It is an arbitrary function of the payload `{ userId, email }` (`Payload`) and of the clock reading at signing, because the library stamps the signing time into the token. It returns `None` when signing throws, for instance when no secret is configured.
- `String(createdUser.id)` is applied to a value that is already a string. The model therefore returns the created record as it is.

## Model

| member | source | states |
|---|---|---|
| `Users.UsersService.constructor` | Backend/src/users/users.service.ts:13 | the user list starts empty |
| `Users.FirstIndex` | Backend/src/users/users.service.ts:16 | no position is returned exactly when no record has the email; a returned position holds the email and no earlier record has it |
| `Users.Find` | Backend/src/users/users.service.ts:16 | `undefined` exactly when no record has the email; otherwise the earliest record with that email, in insertion order |
| `Users.UsersService.FindByEmail` | Backend/src/users/users.service.ts:15-17 | the in-order scan returns nothing exactly when no record has the email; otherwise it returns the first match; it changes no state (no modifies clause) |
| `Users.NumberToString` | Backend/src/users/users.service.ts:21 | the id is a non-empty string of decimal digits with no leading zero |
| `Users.DecimalRoundTrip` | Backend/src/users/users.service.ts:21 | reading the id's digits back yields the clock reading it was made from |
| `Users.IdsCollideIffSameClock` | Backend/src/users/users.service.ts:21 | two ids are equal if and only if the clock readings are equal |
| `Users.UsersService.CreateOAuthUser` | Backend/src/users/users.service.ts:19-30 | the record (`NewUser`) has the argument's email, name, provider and providerId, and its id is the clock's decimal form; the list grows by exactly that record, appended last after all earlier records unchanged and in order; the returned record is the appended one |
| `Users.CountEmailAppend` | Backend/src/users/users.service.ts:28 | appending a record adds one to the count of its email and leaves every other email's count unchanged |
| `Users.CountEmailZeroIff` | Backend/src/users/users.service.ts:16 | an email's record count is zero exactly when `find` would return `undefined` for it |
| `Users.CreateTwiceAddsTwo` | Backend/src/users/users.service.ts:19-30 | there is no duplicate check: two creations with one email add two records for it |
| `Auth.ProfileEmail` | Backend/src/auth/auth.service.ts:21 | the email is present exactly when the profile lists one, and it is then the first listed |
| `Auth.LoginOutcome` | Backend/src/auth/auth.service.ts:20-38 | the returned user has the extracted email and is in the list. For a known email, the list is unchanged and the earliest matching record is returned. For an unknown email, exactly one record is appended and returned. Its id is the clock's decimal form, and its email, name, provider and providerId are the extracted email, `displayName`, the provider argument and the profile id |
| `Auth.AuthService.constructor` | Backend/src/auth/auth.service.ts:15-18 | the service holds the given user store and signer |
| `Auth.AuthService.ValidateOAuthLogin` | Backend/src/auth/auth.service.ts:20-39 | the new list is that of `LoginOutcome` on the old list, whether or not signing succeeds, so a record created before a throwing signer stays stored; when the signer fails the call fails; otherwise it returns `LoginOutcome`'s user and the token the signer gives, at the signing time, for exactly `{ userId: user.id, email: user.email }` of that user (`Payload`) |
| `LoginProperties.LoginCountEmail` | Backend/src/auth/auth.service.ts:24-34 | a login adds one record for its own email only when that email had none; every other email's count is unchanged |
| `LoginProperties.RepeatedLoginsSameEmail` | Backend/src/auth/auth.service.ts:24-34 | after one or more sequential logins with one email, that email has exactly one record if it had none, and otherwise the same count as before |
| `LoginProperties.NoSecondRecord` | Backend/src/auth/auth.service.ts:24-34 | sequential logins with one email never raise its record count above one if it started at most one |
| `LoginProperties.LoginPreservesUniqueEmails` | Backend/src/auth/auth.service.ts:24-34 | one login keeps "no two records share an email" |
| `LoginProperties.LoginsPreserveUniqueEmails` | Backend/src/auth/auth.service.ts:24-34 | any sequence of logins, with any emails, keeps "no two records share an email" |
| `LoginProperties.LoginIdempotent` | Backend/src/auth/auth.service.ts:21-38 | a second login with the same extracted email returns the first login's user and changes nothing, whatever its provider or profile id; this includes two profiles that both lack an email |

## Left out

- Users.NumberToString: always gives plain decimal digits. JavaScript's `toString` switches to exponent notation from 10^21 on, and a millisecond clock never reaches that value.
- JWT signing, its secret and its seven-day expiry (Backend/src/auth/auth.module.ts:13-16): a foreign library. It is modelled as an arbitrary, possibly failing function of the payload and the signing time. The model does not say what the token contains (`iat`, `exp`) nor that two signings at different times differ.
- `Date.now()` and the signing clock: clock reads. They are replaced by the parameters `now` and `signedAt`.
- `async`/`await` and the unsynchronised race on the user list: the model covers sequential calls only. Two concurrent logins for the same unseen email can both miss in `findByEmail` and create two records; nothing here captures that interleaving.
- Object identity: in the create branch the returned user is a fresh copy of the stored object, while in the found branch it is the stored object itself. Records are values here, so this aliasing difference is not represented.
- The `photos` field of a profile is carried but never read, as in the source.
- Passport strategies and Nest module wiring (Backend/src/auth/strategies/github.strategy.ts, Backend/src/auth/auth.module.ts): framework configuration and environment reads.
- Headless-browser routes (app/api/leads/route.ts, app/controllers/ScrapeLeads.ts): browser I/O. Their only decision is a substring test on the resulting URL.
- The commented-out lead-fetching code in app/api/leads/route.ts: dead code doing network I/O.
- app/api/getCookies/route.ts: a database write through an undeclared client.
- app/Components/AuthButtons.tsx: declarative UI that delegates to a hosted sign-in widget.
- The generated REST client for the scraping platform: mechanical HTTP calls. It is not part of this model.
