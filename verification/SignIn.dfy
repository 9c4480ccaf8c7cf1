/** WorkOS and password sign-in, the session tokens they mint, and the check every request passes. */
module SignIn {
  import opened Prelude
  import opened Encryption
  import opened Tables
  import opened Recovery

  datatype Profile = Profile(workosUserId: string, email: string, emailVerified: bool)

  datatype Jwt = Jwt(sub: UserId, iat: nat)

  datatype LoginReply = UnverifiedEmail | LinkedElsewhere | AccountLocked | UnknownUser | NoIdAssigned | SignedIn(user: UserId, token: Jwt)

  ghost predicate IsLinked(users: map<UserId, User>, identity: string, u: UserId) {
    u in users && users[u].workosUserId == Some(identity)
  }

  ghost predicate HasEmail(users: map<UserId, User>, email: string, u: UserId) {
    u in users && users[u].email == email
  }

  datatype Match = Existing(user: UserId) | NewAccount | Rejected(reply: LoginReply)

  /** Identity first, then e-mail, and an e-mail match only links a verified address to an unlinked account. */
  ghost function MatchProfile(users: map<UserId, User>, profile: Profile): Match {
    if exists u :: IsLinked(users, profile.workosUserId, u) then
      var u :| IsLinked(users, profile.workosUserId, u);
      if users[u].lockedAt.Some? then Rejected(AccountLocked) else Existing(u)
    else if exists u :: HasEmail(users, profile.email, u) then
      var u :| HasEmail(users, profile.email, u);
      if !profile.emailVerified then Rejected(UnverifiedEmail)
      else if users[u].workosUserId.Some? && users[u].workosUserId.value != profile.workosUserId then Rejected(LinkedElsewhere)
      else if users[u].lockedAt.Some? then Rejected(AccountLocked)
      else Existing(u)
    else NewAccount
  }

  function SignedInUser(user: User, profile: Profile): User {
    user.(workosUserId := Some(profile.workosUserId), emailVerified := user.emailVerified || profile.emailVerified)
  }

  function NewUser(profile: Profile): User {
    User(profile.email, Some(profile.workosUserId), profile.emailVerified, None, None)
  }

  function Mint(user: UserId, now: Time): Jwt { Jwt(user, now / 1000) }

  /**
   * `newId` is the id the database gives to a row inserted without one. The users table declares neither a
   * generator nor a default, so the shipped schema gives none, and then the insert is refused.
   */
  ghost function LoginWithWorkOs(db: Db, now: Time, profile: Profile, newId: Option<UserId>): (Db, LoginReply) {
    match MatchProfile(db.users, profile)
    case Rejected(reply) => (db, reply)
    case Existing(u) =>
      if u !in db.users then (db, UnknownUser) else
      (SavedLogin(db, now, u, db.users[u], profile), SignedIn(u, Mint(u, now)))
    case NewAccount =>
      if newId.None? then (db, NoIdAssigned) else
      (CancelForSignIn(db.(users := db.users[newId.value := NewUser(profile)]), now, newId.value), SignedIn(newId.value, Mint(newId.value, now)))
  }

  /** The second half of a login: the row that was loaded is saved whole, then open recoveries end. */
  function SavedLogin(db: Db, now: Time, u: UserId, loaded: User, profile: Profile): Db {
    CancelForSignIn(db.(users := db.users[u := SignedInUser(loaded, profile)]), now, u)
  }

  /** A profile that matches no account can sign in exactly when the database supplies an id; otherwise nothing changes. */
  lemma NewIdentityNeedsId(db: Db, now: Time, profile: Profile, newId: Option<UserId>)
    requires forall u :: u in db.users ==> db.users[u].workosUserId != Some(profile.workosUserId) && db.users[u].email != profile.email
    ensures var (db', reply) := LoginWithWorkOs(db, now, profile, newId);
            if newId.None? then reply == NoIdAssigned && db' == db
            else reply == SignedIn(newId.value, Mint(newId.value, now)) && newId.value in db'.users && db'.users[newId.value] == NewUser(profile)
  {
    assert forall u :: !IsLinked(db.users, profile.workosUserId, u) && !HasEmail(db.users, profile.email, u);
    assert MatchProfile(db.users, profile) == NewAccount;
  }

  /** The password path, once the identity provider has vouched for `user`. */
  function LoginWithPassword(db: Db, now: Time, user: UserId): (Db, LoginReply) {
    if user !in db.users then (db, UnknownUser)
    else if db.users[user].lockedAt.Some? then (db, AccountLocked)
    else (CancelForSignIn(db, now, user), SignedIn(user, Mint(user, now)))
  }

  /** JwtStrategy.validate */
  predicate Accepts(users: map<UserId, User>, token: Jwt) {
    && token.sub in users
    && users[token.sub].lockedAt.None?
    && (users[token.sub].sessionsValidAfter.Some? ==> token.iat * 1000 >= users[token.sub].sessionsValidAfter.value)
  }
}
