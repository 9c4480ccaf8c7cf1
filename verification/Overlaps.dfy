/**
 * Rows that are loaded in one step and saved whole in a later one: setRecoveryEmail saves a wallet, a WorkOS login
 * saves a user. Runs in which no such save overlaps a change of its row are runs of the step system; a save that
 * does overlap one is described exactly.
 */
module Overlaps {
  import opened Prelude
  import opened Encryption
  import opened Tables
  import opened Recovery
  import opened SignIn
  import opened Custody
  import opened LifeCycle
  import opened Invariants
  import opened Runs
  import opened RecoveryTheorems
  import opened WalletAccess

  /** A step of the system, or a save of what was loaded at an earlier state. */
  datatype Action =
    | Step(event: Event)
    | SaveWallet(loadedAt: nat, wallet: WalletId)
    | SaveLogin(loadedAt: nat, profile: Profile)

  datatype Trace = Trace(states: seq<State>, actions: seq<Action>)

  ghost predicate IsTrace(cfg: Config, t: Trace) {
    && |t.states| == |t.actions| + 1
    && Init(cfg, t.states[0])
    && forall i :: 0 <= i < |t.actions| ==> Acts(cfg, t, i)
  }

  ghost predicate Acts(cfg: Config, t: Trace, i: nat)
    requires i < |t.actions| && |t.states| == |t.actions| + 1
  {
    var s, s' := t.states[i], t.states[i + 1];
    match t.actions[i]
    case Step(e) => Enabled(cfg, s, e) && s' == Next(cfg, s, e)
    case SaveWallet(k, w) =>
      && k <= i && w in t.states[k].db.wallets && w in s.db.wallets
      && s' == s.(db := s.db.(wallets := Saved(s.db.wallets, w, t.states[k].db.wallets[w])))
    case SaveLogin(k, profile) =>
      && k <= i
      && var matched := MatchProfile(t.states[k].db.users, profile);
         && matched.Existing? && matched.user in t.states[k].db.users
         && s' == s.(db := SavedLogin(s.db, s.now, matched.user, t.states[k].db.users[matched.user], profile))
  }

  /** The save at i finds its row, or for a login its match, other than it was when loaded. */
  ghost predicate OverlapsAt(t: Trace, i: nat)
    requires i < |t.actions| < |t.states|
  {
    match t.actions[i]
    case Step(_) => false
    case SaveWallet(k, w) =>
      k <= i && w in t.states[k].db.wallets && w in t.states[i].db.wallets && t.states[i].db.wallets[w] != t.states[k].db.wallets[w]
    case SaveLogin(k, profile) =>
      && k <= i
      && var matched := MatchProfile(t.states[k].db.users, profile);
         matched.Existing? && matched.user in t.states[k].db.users
         && !(MatchProfile(t.states[i].db.users, profile) == matched
              && matched.user in t.states[i].db.users && t.states[i].db.users[matched.user] == t.states[k].db.users[matched.user])
  }

  /** The same trace with every save replaced: a wallet save by a tick of no time, a login save by the one-step login. */
  ghost function Plain(t: Trace): seq<Event>
    requires |t.states| == |t.actions| + 1
  {
    seq(|t.actions|, i requires 0 <= i < |t.actions| =>
      match t.actions[i]
      case Step(e) => e
      case SaveWallet(_, _) => Tick(t.states[i].now)
      case SaveLogin(_, profile) => WorkOsSignIn(profile, None))
  }

  /** With no overlap the states are those of a run of the step system, so every theorem about runs holds of them. */
  lemma OverlapFreeTracesAreRuns(cfg: Config, t: Trace)
    requires IsTrace(cfg, t) && forall i :: 0 <= i < |t.actions| ==> !OverlapsAt(t, i)
    ensures IsRun(cfg, Run(t.states, Plain(t)))
  {
    var run := Run(t.states, Plain(t));
    forall i | 0 <= i < |run.events|
      ensures IsStep(cfg, run, i)
    {
      assert Acts(cfg, t, i) && !OverlapsAt(t, i);
      match t.actions[i]
      case Step(_) =>
      case SaveWallet(k, w) => SameSaveIsTick(cfg, t.states[i], w);
      case SaveLogin(k, profile) => SameLoginIsOneStep(cfg, t.states[i], profile);
    }
  }

  lemma SameSaveIsTick(cfg: Config, s: State, w: WalletId)
    requires w in s.db.wallets
    ensures Next(cfg, s, Tick(s.now)) == s
    ensures s.(db := s.db.(wallets := Saved(s.db.wallets, w, s.db.wallets[w]))) == s
  {
    assert Saved(s.db.wallets, w, s.db.wallets[w]) == s.db.wallets;
  }

  lemma SameLoginIsOneStep(cfg: Config, s: State, profile: Profile)
    requires MatchProfile(s.db.users, profile).Existing? && MatchProfile(s.db.users, profile).user in s.db.users
    ensures var u := MatchProfile(s.db.users, profile).user;
            Next(cfg, s, WorkOsSignIn(profile, None)) == s.(db := SavedLogin(s.db, s.now, u, s.db.users[u], profile))
  {
  }

  // ------------------------------------------------------------------ a login across a recovery

  /** A recovery of account u commits between two states. */
  ghost predicate RecoveredBetween(run: Run, k: nat, i: nat, u: UserId)
    requires i <= |run.events| < |run.states|
  {
    exists m: nat, r: RequestId :: k <= m < i && CommitsAgainst(run, m, r, u)
  }

  ghost predicate CommitsAgainst(run: Run, m: nat, r: RequestId, u: UserId)
    requires m < |run.events| < |run.states|
  {
    CommitsAt(run, m, r) && r in run.states[m].db.requests && run.states[m].db.requests[r].oldUserId == u
  }

  /**
   * A login that found the account open at k and saves its row at i leaves a locked account open again if and only
   * if a recovery of that account committed in between; otherwise there is no lock to lose.
   */
  lemma LoginReopensIff(cfg: Config, run: Run, k: nat, i: nat, u: UserId, profile: Profile)
    requires IsRun(cfg, run) && k <= i <= |run.events|
    requires u in run.states[k].db.users && !IsLocked(run.states[k].db.users, u)
    ensures u in run.states[i].db.users
    ensures var saved := SavedLogin(run.states[i].db, run.states[i].now, u, run.states[k].db.users[u], profile);
            && (IsLocked(run.states[i].db.users, u) && !IsLocked(saved.users, u) <==> RecoveredBetween(run, k, i, u))
            && (IsLocked(run.states[i].db.users, u) <==> RecoveredBetween(run, k, i, u))
  {
    UserForever(cfg, run, k, i, u);
    if IsLocked(run.states[i].db.users, u) {
      var m, r := LockedByCommit(cfg, run, k, i, u);
      assert CommitsAgainst(run, m, r, u);
    }
    if RecoveredBetween(run, k, i, u) {
      var m: nat, r: RequestId :| k <= m < i && CommitsAgainst(run, m, r, u);
      CommitLocksFor(cfg, run, m, i, r);
    }
  }

  lemma CommitLocksFor(cfg: Config, run: Run, m: nat, i: nat, r: RequestId)
    requires IsRun(cfg, run) && m < i < |run.states| && CommitsAt(run, m, r)
    ensures r in run.states[m].db.requests && IsLocked(run.states[i].db.users, run.states[m].db.requests[r].oldUserId)
  {
    CommitIsClaimed(cfg, run, m, r);
    CommitCompletes(cfg, run, m, r);
    RequestIdentity(cfg, run, m, m + 1, r);
    var u := run.states[m].db.requests[r].oldUserId;
    assert IsLocked(run.states[m + 1].db.users, u) by { Reachable(cfg, run, m + 1); }
    UserForever(cfg, run, m + 1, i, u);
  }

  lemma {:induction false} LockedByCommit(cfg: Config, run: Run, k: nat, i: nat, u: UserId) returns (m: nat, r: RequestId)
    requires IsRun(cfg, run) && k <= i < |run.states|
    requires u in run.states[k].db.users && !IsLocked(run.states[k].db.users, u) && IsLocked(run.states[i].db.users, u)
    ensures k <= m < i && CommitsAgainst(run, m, r, u)
  {
    if IsLocked(run.states[i - 1].db.users, u) {
      m, r := LockedByCommit(cfg, run, k, i - 1, u);
    } else {
      UserForever(cfg, run, k, i - 1, u);
      m := i - 1;
      r := LockStep(cfg, run, m, u);
    }
  }

  lemma LockStep(cfg: Config, run: Run, m: nat, u: UserId) returns (r: RequestId)
    requires IsRun(cfg, run) && m < |run.events| && u in run.states[m].db.users
    requires !IsLocked(run.states[m].db.users, u) && IsLocked(run.states[m + 1].db.users, u)
    ensures CommitsAgainst(run, m, r, u)
  {
    if forall q :: !CommitsAt(run, m, q) {
      NothingElseMoves(cfg, run, m);
      assert false;
    }
    r :| CommitsAt(run, m, r);
    CommitIsClaimed(cfg, run, m, r);
    CommitUsers(cfg, run, m, r);
  }

  lemma CommitUsers(cfg: Config, run: Run, m: nat, r: RequestId)
    requires IsRun(cfg, run) && m < |run.events| && CommitsAt(run, m, r)
    ensures run.states[m + 1].db.users
         == LockUser(run.states[m].db.users, run.states[m].WorkerAt(run.events[m].worker).request.oldUserId, run.states[m].now)
  {
    assert IsStep(cfg, run, m);
  }
}
