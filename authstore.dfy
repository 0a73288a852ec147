/** The auth service's repository over its two collections: revoked
    tokens and login attempts. Both live in the database, so every usecase
    built over the same repository sees the others' writes. A failed
    database call is the `fault` argument of the call. */
module AuthStore {
  import opened Wrappers
  import opened Domain

  /** Some record of the tokenRevoke collection has this token. */
  predicate IsRevoked(revocations: seq<Revocation>, token: string)
  {
    exists i :: 0 <= i < |revocations| && revocations[i].token == token
  }

  /** The loginAttempts collection after RecordLoginAttempt's upsert: one
      more attempt for the email, counted from 0 when it has no record, and
      the time of this one. */
  function Recorded(attempts: map<string, LoginAttempt>, email: string, now: int): (after: map<string, LoginAttempt>)
    ensures after.Keys == attempts.Keys + {email}
    ensures after[email].lastTry == now
    ensures email in attempts ==> after[email].attempts == attempts[email].attempts + 1
    ensures email !in attempts ==> after[email].attempts == 1
    ensures forall k :: k in attempts && k != email ==> after[k] == attempts[k]
  {
    var prior := if email in attempts then attempts[email].attempts else 0;
    attempts[email := LoginAttempt(prior + 1, now)]
  }

  /** A revocation is never undone: adding records keeps it. */
  lemma {:induction false} RevokedStaysRevoked(revocations: seq<Revocation>, more: seq<Revocation>, token: string)
    requires IsRevoked(revocations, token)
    ensures IsRevoked(revocations + more, token)
  {
    var i :| 0 <= i < |revocations| && revocations[i].token == token;
    assert (revocations + more)[i] == revocations[i];
  }

  /** A reset removes the record whatever attempts were recorded before. */
  lemma ResetForgetsAttempts(attempts: map<string, LoginAttempt>, email: string, now: int)
    ensures Recorded(attempts, email, now) - {email} == attempts - {email}
  {
  }

  class AuthRepository {
    /** The tokenRevoke collection, in insertion order. */
    var revocations: seq<Revocation>
    /** The loginAttempts collection, by email. */
    var loginAttempts: map<string, LoginAttempt>

    /** NewAuthRepository over the records already in the database. */
    constructor (revocations: seq<Revocation>, loginAttempts: map<string, LoginAttempt>)
      ensures this.revocations == revocations && this.loginAttempts == loginAttempts
    {
      this.revocations := revocations;
      this.loginAttempts := loginAttempts;
    }

    /** RevokeToken: insert a record for the token, stamped `now`. */
    method RevokeToken(token: string, userId: string, now: int, fault: Option<string>) returns (r: Outcome<Error>)
      modifies this
      ensures loginAttempts == old(loginAttempts)
      ensures fault.Some? ==> r == Fail(StoreError(fault.value)) && revocations == old(revocations)
      ensures fault.None? ==> r == Pass && revocations == old(revocations) + [Revocation(token, userId, now)]
      ensures r == Pass ==> IsRevoked(revocations, token)
    {
      if fault.Some? {
        return Fail(StoreError(fault.value));
      }
      revocations := revocations + [Revocation(token, userId, now)];
      assert revocations[|revocations| - 1].token == token;
      return Pass;
    }

    /** IsTokenRevoked: a lookup by token; no document means not revoked,
        any other failure is passed on. */
    function IsTokenRevoked(token: string, fault: Option<string>): (r: Result<bool, Error>)
      reads this
      ensures fault.Some? ==> r == Failure(StoreError(fault.value))
      ensures fault.None? ==> r.Success? && (r.value <==> exists i :: 0 <= i < |revocations| && revocations[i].token == token)
    {
      if fault.Some? then Failure(StoreError(fault.value)) else Success(IsRevoked(revocations, token))
    }

    /** RecordLoginAttempt: the upsert on the email's record. */
    method RecordLoginAttempt(email: string, now: int, fault: Option<string>) returns (r: Outcome<Error>)
      modifies this
      ensures revocations == old(revocations)
      ensures fault.Some? ==> r == Fail(StoreError(fault.value)) && loginAttempts == old(loginAttempts)
      ensures fault.None? ==> r == Pass && loginAttempts == Recorded(old(loginAttempts), email, now)
    {
      if fault.Some? {
        return Fail(StoreError(fault.value));
      }
      loginAttempts := Recorded(loginAttempts, email, now);
      return Pass;
    }

    /** ResetLoginAttempts: delete the email's record, if any. */
    method ResetLoginAttempts(email: string, fault: Option<string>) returns (r: Outcome<Error>)
      modifies this
      ensures revocations == old(revocations)
      ensures fault.Some? ==> r == Fail(StoreError(fault.value)) && loginAttempts == old(loginAttempts)
      ensures fault.None? ==> r == Pass && loginAttempts == old(loginAttempts) - {email}
    {
      if fault.Some? {
        return Fail(StoreError(fault.value));
      }
      loginAttempts := loginAttempts - {email};
      return Pass;
    }
  }
}
