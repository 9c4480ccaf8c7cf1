/** Sign-in and session checks in terms of the columns of the users table and the fields of the profile. */
module SignInRows {
  import opened Prelude
  import opened Encryption
  import opened Tables
  import opened Recovery
  import opened SignIn
  import opened Custody
  import opened LifeCycle
  import opened Invariants
  import opened Steps
  import opened Runs
  import opened RecoveryTheorems
  import opened RecoveryRows

  ghost predicate NobodyHas(users: map<UserId, User>, identity: string) {
    forall v :: v in users ==> users[v].workosUserId != Some(identity)
  }

  /**
   * The profile reaches account u: u already carries its identity, or nobody does and the profile is verified, with
   * u's own address, and u carries no identity yet.
   */
  ghost predicate Reaches(users: map<UserId, User>, profile: Profile, u: UserId) {
    && u in users
    && (|| users[u].workosUserId == Some(profile.workosUserId)
        || (NobodyHas(users, profile.workosUserId) && users[u].email == profile.email && profile.emailVerified && users[u].workosUserId.None?))
  }

  /** The whole effect of a login as account u: the identity is bound, the verification kept or gained, and open recoveries end. */
  ghost predicate LoggedIn(db: Db, db': Db, now: Time, u: UserId, row: User) {
    && db'.users == db.users[u := row]
    && db'.guardians == db.guardians && db'.wallets == db.wallets
    && db'.requests.Keys == db.requests.Keys && db'.approvals.Keys == db.approvals.Keys
    && (forall r :: r in db.requests ==>
          db'.requests[r] == if db.requests[r].oldUserId == u && Stoppable(db.requests[r].status)
                             then db.requests[r].(status := Cancelled, closedAt := Some(now), closedReason := Some(OwnerSignedIn)) else db.requests[r])
    && (forall b :: b in db.approvals ==>
          db'.approvals[b] == if b.requestId in db.requests && db.requests[b.requestId].oldUserId == u && Stoppable(db.requests[b.requestId].status)
                              then db.approvals[b].(tokenHash := None) else db.approvals[b])
  }

  /**
   * A WorkOS login signs in as an existing account exactly when the account is not locked and the profile reaches
   * it, and then does just what a login does; the token names the account and the second it was issued in.
   */
  lemma SignsInAsIff(db: Db, now: Time, profile: Profile, newId: Option<UserId>, u: UserId)
    requires DistinctIdentities(db.users) && DistinctEmails(db.users) && (newId.Some? ==> newId.value !in db.users) && u in db.users
    ensures var (db', reply) := LoginWithWorkOs(db, now, profile, newId);
            && (reply.SignedIn? && reply.user == u <==> db.users[u].lockedAt.None? && Reaches(db.users, profile, u))
            && (reply.SignedIn? && reply.user == u ==>
                  && reply.token == Jwt(u, now / 1000)
                  && LoggedIn(db, db', now, u, db.users[u].(workosUserId := Some(profile.workosUserId),
                                                            emailVerified := db.users[u].emailVerified || profile.emailVerified)))
            && (!reply.SignedIn? ==> db' == db)
  {
    MatchedIff(db.users, profile, u);
    SignedInRows(db.(users := db.users[u := SignedInUser(db.users[u], profile)]), now, u);
  }

  /** Identity first, then a verified address. */
  lemma MatchedIff(users: map<UserId, User>, profile: Profile, u: UserId)
    requires DistinctIdentities(users) && DistinctEmails(users) && u in users
    ensures MatchProfile(users, profile) == Existing(u) <==> users[u].lockedAt.None? && Reaches(users, profile, u)
  {
    if users[u].workosUserId == Some(profile.workosUserId) {
      assert IsLinked(users, profile.workosUserId, u);
      forall v | IsLinked(users, profile.workosUserId, v) ensures v == u {
      }
    } else if exists v :: IsLinked(users, profile.workosUserId, v) {
      var v :| IsLinked(users, profile.workosUserId, v);
      assert !NobodyHas(users, profile.workosUserId);
    } else {
      assert NobodyHas(users, profile.workosUserId) by {
        forall v | v in users ensures users[v].workosUserId != Some(profile.workosUserId) {
          assert !IsLinked(users, profile.workosUserId, v);
        }
      }
      if users[u].email == profile.email {
        assert HasEmail(users, profile.email, u);
        forall v | HasEmail(users, profile.email, v) ensures v == u {
        }
      }
    }
  }

  /** Why a login is refused, when an account has the identity or the address. */
  lemma RefusedBecause(db: Db, now: Time, profile: Profile, newId: Option<UserId>, u: UserId)
    requires DistinctIdentities(db.users) && DistinctEmails(db.users) && u in db.users
    requires db.users[u].workosUserId == Some(profile.workosUserId) || (NobodyHas(db.users, profile.workosUserId) && db.users[u].email == profile.email)
    ensures var reply := LoginWithWorkOs(db, now, profile, newId).1; var row := db.users[u];
            if row.workosUserId == Some(profile.workosUserId) then (reply == AccountLocked <==> row.lockedAt.Some?)
            else
              && (reply == UnverifiedEmail <==> !profile.emailVerified)
              && (reply == LinkedElsewhere <==> profile.emailVerified && row.workosUserId.Some?)
              && (reply == AccountLocked <==> profile.emailVerified && row.workosUserId.None? && row.lockedAt.Some?)
  {
    if db.users[u].workosUserId == Some(profile.workosUserId) {
      assert IsLinked(db.users, profile.workosUserId, u);
      forall v | IsLinked(db.users, profile.workosUserId, v) ensures v == u {
      }
    } else {
      assert forall v :: !IsLinked(db.users, profile.workosUserId, v);
      assert HasEmail(db.users, profile.email, u);
      forall v | HasEmail(db.users, profile.email, v) ensures v == u {
      }
    }
  }

  /** A profile that no account has by identity or address makes a new account, if the database gives it an id. */
  lemma NewAccountRows(db: Db, now: Time, profile: Profile, newId: Option<UserId>)
    requires newId.Some? && newId.value !in db.users
    requires NobodyHas(db.users, profile.workosUserId) && forall v :: v in db.users ==> db.users[v].email != profile.email
    ensures var (db', reply) := LoginWithWorkOs(db, now, profile, newId);
            && reply == SignedIn(newId.value, Jwt(newId.value, now / 1000))
            && LoggedIn(db, db', now, newId.value, User(profile.email, Some(profile.workosUserId), profile.emailVerified, None, None))
  {
    assert forall u :: !IsLinked(db.users, profile.workosUserId, u) && !HasEmail(db.users, profile.email, u);
    SignedInRows(db.(users := db.users[newId.value := NewUser(profile)]), now, newId.value);
  }

  /** The password path signs in exactly when the account exists and is not locked; the user row stays as it is. */
  lemma PasswordRows(db: Db, now: Time, u: UserId)
    ensures var (db', reply) := LoginWithPassword(db, now, u);
            if u in db.users && db.users[u].lockedAt.None?
            then reply == SignedIn(u, Jwt(u, now / 1000)) && LoggedIn(db, db', now, u, db.users[u])
            else db' == db && reply == if u in db.users then AccountLocked else UnknownUser
  {
    SignedInRows(db, now, u);
    if u in db.users { assert db.users[u := db.users[u]] == db.users; }
  }

  /** A token is accepted exactly while its account exists, is not locked, and did not end its sessions after the token's second. */
  lemma AcceptedIff(users: map<UserId, User>, token: Jwt)
    ensures Accepts(users, token) <==>
              && token.sub in users && users[token.sub].lockedAt == None
              && (users[token.sub].sessionsValidAfter == None
                  || exists t :: users[token.sub].sessionsValidAfter == Some(t) && t <= 1000 * token.iat)
  {
  }

  /**
   * Over every run, an existing account is bound to an identity only by a login whose profile was verified and had the
   * account's own address, when the account carried no identity, nobody carried that one, and the account was open.
   */
  lemma BoundOnlyByVerifiedOwner(cfg: Config, run: Run, i: nat, u: UserId)
    requires IsRun(cfg, run) && i < |run.events| && u in run.states[i].db.users && u in run.states[i + 1].db.users
    requires run.states[i + 1].db.users[u].workosUserId != run.states[i].db.users[u].workosUserId
    ensures var e, users := run.events[i], run.states[i].db.users;
            && e.WorkOsSignIn? && e.profile.emailVerified && users[u].email == e.profile.email
            && users[u].workosUserId.None? && users[u].lockedAt.None? && NobodyHas(users, e.profile.workosUserId)
            && run.states[i + 1].db.users[u].workosUserId == Some(e.profile.workosUserId)
  {
    assert IsStep(cfg, run, i);
    var s, e := run.states[i], run.events[i];
    if e.WorkOsSignIn? {
      BindingLogin(s.db, s.now, e.profile, e.newId, u);
    } else if e.CommitTx? && CanCommit(s, e.worker, e.ring) {
      LockKeepsIdentity(s.db.users, s.WorkerAt(e.worker).request.oldUserId, s.now, u);
    } else {
      OthersLeaveUsers(cfg, s, e);
    }
  }

  lemma LockKeepsIdentity(users: map<UserId, User>, user: UserId, now: Time, u: UserId)
    requires u in users
    ensures u in LockUser(users, user, now) && LockUser(users, user, now)[u].workosUserId == users[u].workosUserId
  {
  }

  lemma BindingLogin(db: Db, now: Time, profile: Profile, newId: Option<UserId>, u: UserId)
    requires u in db.users && (newId.Some? ==> newId.value !in db.users)
    requires var users' := LoginWithWorkOs(db, now, profile, newId).0.users; u in users' && users'[u].workosUserId != db.users[u].workosUserId
    ensures profile.emailVerified && db.users[u].email == profile.email && db.users[u].workosUserId.None? && db.users[u].lockedAt.None?
    ensures NobodyHas(db.users, profile.workosUserId)
    ensures LoginWithWorkOs(db, now, profile, newId).0.users[u].workosUserId == Some(profile.workosUserId)
  {
    forall v | v in db.users ensures db.users[v].workosUserId != Some(profile.workosUserId) {
      assert !IsLinked(db.users, profile.workosUserId, v);
    }
  }
}
