/** What sequential logins do to the user table as a whole. */
module LoginProperties {
  import opened Wrappers
  import opened Users
  import opened Auth

  /** The arguments of one `validateOAuthLogin` call, with its clock reading. */
  datatype LoginCall = LoginCall(provider: string, profile: OAuthProfile, now: nat)

  /** The user table after the calls, made one after another. */
  function StoreAfter(users: seq<User>, calls: seq<LoginCall>): seq<User>
    decreases |calls|
  {
    if calls == [] then users
    else
      var c := calls[0];
      StoreAfter(LoginOutcome(users, c.provider, c.profile, c.now).0, calls[1..])
  }

  /** One login adds a record for its own email only when there was none, and
      leaves the number of records of every other email as it was. */
  lemma LoginCountEmail(users: seq<User>, c: LoginCall, e: Option<string>)
    ensures CountEmail(LoginOutcome(users, c.provider, c.profile, c.now).0, e) ==
      CountEmail(users, e) +
      (if e == ProfileEmail(c.profile) && CountEmail(users, e) == 0 then 1 else 0)
  {
    var email := ProfileEmail(c.profile);
    var out := LoginOutcome(users, c.provider, c.profile, c.now);
    CountEmailZeroIff(users, email);
    if !HasEmail(users, email) {
      CountEmailAppend(users, out.1, e);
      if e != email {
        CountEmailZeroIff(users, e);
      }
    }
  }

  /** Any number of sequential logins with one email leave exactly one record
      for it if there was none, and the same number as before otherwise. */
  lemma {:induction false} RepeatedLoginsSameEmail(users: seq<User>, calls: seq<LoginCall>, e: Option<string>)
    requires forall i :: 0 <= i < |calls| ==> ProfileEmail(calls[i].profile) == e
    ensures CountEmail(StoreAfter(users, calls), e) ==
      if calls != [] && CountEmail(users, e) == 0 then 1 else CountEmail(users, e)
    decreases |calls|
  {
    if calls != [] {
      var c := calls[0];
      var next := LoginOutcome(users, c.provider, c.profile, c.now).0;
      LoginCountEmail(users, c, e);
      RepeatedLoginsSameEmail(next, calls[1..], e);
    }
  }

  /** Sequential logins never create a second record for an email that had
      at most one. */
  lemma NoSecondRecord(users: seq<User>, calls: seq<LoginCall>, e: Option<string>)
    requires forall i :: 0 <= i < |calls| ==> ProfileEmail(calls[i].profile) == e
    requires CountEmail(users, e) <= 1
    ensures CountEmail(StoreAfter(users, calls), e) <= 1
  {
    RepeatedLoginsSameEmail(users, calls, e);
  }

  /** One login keeps "no two records share an email". */
  lemma LoginPreservesUniqueEmails(users: seq<User>, c: LoginCall)
    requires UniqueEmails(users)
    ensures UniqueEmails(LoginOutcome(users, c.provider, c.profile, c.now).0)
  {
  }

  /** Logins of any emails, made one after another, keep "no two records
      share an email". */
  lemma {:induction false} LoginsPreserveUniqueEmails(users: seq<User>, calls: seq<LoginCall>)
    requires UniqueEmails(users)
    ensures UniqueEmails(StoreAfter(users, calls))
    decreases |calls|
  {
    if calls != [] {
      var c := calls[0];
      LoginPreservesUniqueEmails(users, c);
      LoginsPreserveUniqueEmails(LoginOutcome(users, c.provider, c.profile, c.now).0, calls[1..]);
    }
  }

  /** A second login with the same email, from any provider and with any
      profile id, returns the user of the first and adds nothing. Profiles
      without an email all share one account this way. */
  lemma LoginIdempotent(users: seq<User>, c1: LoginCall, c2: LoginCall)
    requires ProfileEmail(c1.profile) == ProfileEmail(c2.profile)
    ensures var first := LoginOutcome(users, c1.provider, c1.profile, c1.now);
      LoginOutcome(first.0, c2.provider, c2.profile, c2.now) == first
  {
  }
}
