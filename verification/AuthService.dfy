/** The auth service over the shared tables: sign-in updates the user row in place, then stops open recoveries. */
module AuthServices {
  import opened Prelude
  import opened Encryption
  import opened Tables
  import opened Recovery
  import opened SignIn
  import opened Custody
  import opened RecoveryServices

  class AuthService {
    const users: DataSource
    const recoveryService: RecoveryService

    constructor (recoveryService: RecoveryService)
      ensures this.recoveryService == recoveryService && users == recoveryService.dataSource
    {
      this.recoveryService := recoveryService;
      this.users := recoveryService.dataSource;
    }

    method FindByIdentity(identity: string) returns (found: Option<UserId>)
      ensures match found
              case Some(u) => IsLinked(users.users, identity, u)
              case None => forall u :: !IsLinked(users.users, identity, u)
    {
      if u :| u in users.users && users.users[u].workosUserId == Some(identity) {
        return Some(u);
      }
      return None;
    }

    method FindByEmail(email: string) returns (found: Option<UserId>)
      ensures match found
              case Some(u) => HasEmail(users.users, email, u)
              case None => forall u :: !HasEmail(users.users, email, u)
    {
      if u :| u in users.users && users.users[u].email == email {
        return Some(u);
      }
      return None;
    }

    /** Which account the profile belongs to; `user` is the row to save, already linked. */
    method Match(profile: Profile) returns (matched: Match)
      requires DistinctIdentities(users.users) && DistinctEmails(users.users)
      ensures matched == MatchProfile(users.users, profile)
    {
      var user := FindByIdentity(profile.workosUserId);
      if user.None? {
        var byEmail := FindByEmail(profile.email);
        if byEmail.Some? {
          var row := users.users[byEmail.value];
          if !profile.emailVerified {
            return Rejected(UnverifiedEmail);
          }
          if row.workosUserId.Some? && row.workosUserId.value != profile.workosUserId {
            return Rejected(LinkedElsewhere);
          }
          user := byEmail;
        }
      }
      if user.None? {
        return NewAccount;
      }
      if users.users[user.value].lockedAt.Some? {
        return Rejected(AccountLocked);
      }
      return Existing(user.value);
    }

    method LoginWithWorkOs(now: Time, profile: Profile, newId: Option<UserId>) returns (reply: LoginReply)
      requires recoveryService.dataSource == users
      requires DistinctIdentities(users.users) && DistinctEmails(users.users)
      modifies users
      ensures (users.Contents(), reply) == SignIn.LoginWithWorkOs(old(users.Contents()), now, profile, newId)
    {
      var matched := Match(profile);
      if matched.Rejected? {
        return matched.reply;
      }
      if matched.NewAccount? && newId.None? {
        return NoIdAssigned;
      }
      var id := if matched.NewAccount? then newId.value else matched.user;
      var row;
      if matched.NewAccount? {
        row := User(profile.email, Some(profile.workosUserId), profile.emailVerified, None, None);
      } else {
        row := users.users[id].(workosUserId := Some(profile.workosUserId));
        row := row.(emailVerified := row.emailVerified || profile.emailVerified);
      }
      users.users := users.users[id := row];
      recoveryService.CancelForSignIn(now, id);
      return SignedIn(id, Mint(id, now));
    }

    /** The password path, after the identity provider accepted the password of account `id`. */
    method Login(now: Time, id: UserId) returns (reply: LoginReply)
      requires recoveryService.dataSource == users
      modifies users
      ensures (users.Contents(), reply) == SignIn.LoginWithPassword(old(users.Contents()), now, id)
    {
      if id !in users.users {
        return UnknownUser;
      }
      if users.users[id].lockedAt.Some? {
        return AccountLocked;
      }
      recoveryService.CancelForSignIn(now, id);
      return SignedIn(id, Mint(id, now));
    }
  }
}
