/** The in-memory user table behind OAuth login (`UsersService`): a list of
    records that is scanned by email and appended to, never updated or
    shrunk. */
module Users {
  import opened Wrappers

  /** A stored account. `email` is `None` when the account was created from a
      profile that carried no email (the value JavaScript sees is `undefined`).
      `providerId` is written by every creation even though the declared
      `User` type does not list it; it is optional here for that reason. */
  datatype User = User(
    id: string,
    email: Option<string>,
    name: string,
    provider: string,
    providerId: Option<string>)

  /** The argument of `createOAuthUser`. */
  datatype CreateOAuthUserData = CreateOAuthUserData(
    email: Option<string>,
    name: string,
    provider: string,
    providerId: string)

  // ---------------------------------------------------------------------
  // Record ids: the decimal form of a millisecond clock reading
  // ---------------------------------------------------------------------

  predicate IsDigit(c: char) {
    '0' <= c <= '9'
  }

  predicate AllDigits(s: string) {
    forall i :: 0 <= i < |s| ==> IsDigit(s[i])
  }

  function DigitChar(d: nat): (c: char)
    requires d < 10
    ensures IsDigit(c) && c as int - '0' as int == d
  {
    ('0' as int + d) as char
  }

  /** `n.toString()` for a non-negative integer: its decimal digits, most
      significant first, with no leading zero. */
  function NumberToString(n: nat): (s: string)
    ensures |s| > 0 && AllDigits(s)
    ensures s[0] == '0' ==> n == 0
  {
    if n < 10 then [DigitChar(n)]
    else NumberToString(n / 10) + [DigitChar(n % 10)]
  }

  /** The number a string of decimal digits denotes. */
  function DecimalValue(s: string): nat
    requires AllDigits(s)
  {
    if s == [] then 0
    else 10 * DecimalValue(s[..|s| - 1]) + (s[|s| - 1] as int - '0' as int)
  }

  /** Reading the digits back gives the clock value that produced them. */
  lemma {:induction false} DecimalRoundTrip(n: nat)
    ensures DecimalValue(NumberToString(n)) == n
  {
    if n >= 10 {
      var s := NumberToString(n / 10);
      DecimalRoundTrip(n / 10);
      assert (s + [DigitChar(n % 10)])[..|s|] == s;
    }
  }

  /** Two records get the same id exactly when they were created at the same
      clock reading: ids are not unique. */
  lemma IdsCollideIffSameClock(a: nat, b: nat)
    ensures NumberToString(a) == NumberToString(b) <==> a == b
  {
    if NumberToString(a) == NumberToString(b) {
      DecimalRoundTrip(a);
      DecimalRoundTrip(b);
    }
  }

  /** The record `createOAuthUser` builds from its argument at clock `now`. */
  function NewUser(data: CreateOAuthUserData, now: nat): User {
    User(NumberToString(now), data.email, data.name, data.provider, Some(data.providerId))
  }

  // ---------------------------------------------------------------------
  // Lookup by email
  // ---------------------------------------------------------------------

  ghost predicate HasEmail(users: seq<User>, email: Option<string>) {
    exists i :: 0 <= i < |users| && users[i].email == email
  }

  /** `i` is the position of the earliest record with this email. */
  ghost predicate IsFirstWithEmail(users: seq<User>, email: Option<string>, i: int) {
    0 <= i < |users| && users[i].email == email &&
    forall j :: 0 <= j < i ==> users[j].email != email
  }

  /** The position `Array.prototype.find` stops at, if any. */
  function FirstIndex(users: seq<User>, email: Option<string>): (r: Option<nat>)
    ensures r.None? <==> !HasEmail(users, email)
    ensures r.Some? ==> IsFirstWithEmail(users, email, r.value)
  {
    if users == [] then None
    else if users[0].email == email then Some(0)
    else
      match FirstIndex(users[1..], email)
      case None =>
        assert forall i :: 1 <= i < |users| ==> users[i] == users[1..][i - 1];
        None
      case Some(k) =>
        assert forall j :: 1 <= j < k + 1 ==> users[j] == users[1..][j - 1];
        Some(k + 1)
  }

  /** `users.find(u => u.email === email)`: the earliest record with that
      email, or `None` when there is none. */
  function Find(users: seq<User>, email: Option<string>): (r: Option<User>)
    ensures r.None? <==> !HasEmail(users, email)
    ensures r.Some? ==> exists i :: IsFirstWithEmail(users, email, i) && users[i] == r.value
  {
    match FirstIndex(users, email)
    case None => None
    case Some(i) => Some(users[i])
  }

  // ---------------------------------------------------------------------
  // Counting records per email
  // ---------------------------------------------------------------------

  function CountEmail(users: seq<User>, email: Option<string>): nat {
    if users == [] then 0
    else CountEmail(users[..|users| - 1], email) + (if users[|users| - 1].email == email then 1 else 0)
  }

  lemma CountEmailAppend(users: seq<User>, u: User, email: Option<string>)
    ensures CountEmail(users + [u], email) == CountEmail(users, email) + (if u.email == email then 1 else 0)
  {
  }

  lemma {:induction false} CountEmailZeroIff(users: seq<User>, email: Option<string>)
    ensures CountEmail(users, email) == 0 <==> !HasEmail(users, email)
  {
    if users != [] {
      var init := users[..|users| - 1];
      CountEmailZeroIff(init, email);
      assert forall i :: 0 <= i < |init| ==> init[i] == users[i];
      if HasEmail(init, email) {
        var i :| 0 <= i < |init| && init[i].email == email;
        assert users[i].email == email;
      }
    }
  }

  /** The invariant the login flow is meant to keep: no two records share an
      email. */
  ghost predicate UniqueEmails(users: seq<User>) {
    forall i, j :: 0 <= i < j < |users| ==> users[i].email != users[j].email
  }

  /** `createOAuthUser` does no duplicate check: creating twice with one
      email leaves two more records with that email. */
  lemma CreateTwiceAddsTwo(users: seq<User>, d1: CreateOAuthUserData, n1: nat, d2: CreateOAuthUserData, n2: nat)
    requires d1.email == d2.email
    ensures CountEmail(users + [NewUser(d1, n1)] + [NewUser(d2, n2)], d1.email) == CountEmail(users, d1.email) + 2
  {
  }

  // ---------------------------------------------------------------------
  // The service object
  // ---------------------------------------------------------------------

  class UsersService {
    /** The private `users` array, in insertion order. */
    var users: seq<User>

    constructor ()
      ensures users == []
    {
      users := [];
    }

    /** Scans the records in order and returns the first whose email equals
        `email`; changes nothing. */
    method FindByEmail(email: Option<string>) returns (r: Option<User>)
      ensures r.None? <==> !HasEmail(users, email)
      ensures r.Some? ==> exists i :: IsFirstWithEmail(users, email, i) && r.value == users[i]
      ensures r == Find(users, email)
    {
      var i := 0;
      while i < |users|
        invariant 0 <= i <= |users|
        invariant forall j :: 0 <= j < i ==> users[j].email != email
      {
        if users[i].email == email {
          assert IsFirstWithEmail(users, email, i);
          return Some(users[i]);
        }
        i := i + 1;
      }
      return None;
    }

    /** Builds a record from `data`, with the decimal form of the clock reading
        `now` as its id, and appends it unconditionally. */
    method CreateOAuthUser(data: CreateOAuthUserData, now: nat) returns (user: User)
      modifies this
      ensures user.id == NumberToString(now)
      ensures user.email == data.email && user.name == data.name
      ensures user.provider == data.provider && user.providerId == Some(data.providerId)
      ensures users == old(users) + [user]
    {
      user := NewUser(data, now);
      users := users + [user];
    }
  }
}
