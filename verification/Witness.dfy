/**
 * One whole recovery, step by step: three invitations, three confirmations, a request, two approvals, the time
 * lock, the claim, the load and the commit. The runs that the theorems speak of exist, and the failing cases
 * are reached from it.
 */
module Witness {
  import opened Prelude
  import opened Encryption
  import opened Tables
  import opened Recovery
  import opened SignIn
  import opened Custody
  import opened Invariants
  import opened Runs
  import opened RecoveryTheorems
  import opened WalletAccess
  import opened LeftBehind
  import opened Overlaps

  const MASTER: MasterKey := [
    1, 2, 3, 4, 5, 6, 7, 8, 9, 10, 11, 12, 13, 14, 15, 16,
    17, 18, 19, 20, 21, 22, 23, 24, 25, 26, 27, 28, 29, 30, 31, 32]
  const RING := Keyring(MASTER, [])
  const CFG := Config(48 * HOUR, {MASTER})
  const OLD: UserId := "old"
  const NEW: UserId := "new"

  function Tok(c: char): Token { seq(43, _ => c) }

  lemma TokShape(c: char)
    requires IsBase64UrlChar(c)
    ensures IsBase64Url43(Tok(c))
  {
  }

  lemma TokDiffer(c: char, d: char)
    ensures Tok(c) == Tok(d) <==> c == d
  {
    assert Tok(c)[0] == c && Tok(d)[0] == d;
  }

  // ------------------------------------------------------------------ the tables on the way

  const USERS := map[OLD := User("o", None, true, None, None), NEW := User("n", None, true, None, None)]

  function Asked(email: string, t: char): Guardian {
    Guardian(OLD, email, PendingInvite, Some(Sha256(Tok(t))), Some(INVITE_TTL_MS), None)
  }

  function Confirmed(email: string): Guardian { Guardian(OLD, email, Active, None, Some(INVITE_TTL_MS), Some(0)) }

  function Circle3(a: Guardian, b: Guardian, c: Guardian): map<GuardianId, Guardian> { map[0 := a, 1 := b, 2 := c] }

  function Sent(t: char): Approval { Approval(Some(Sha256(Tok(t))), Pending, None) }

  const YES := Approval(None, Approved, Some(0))

  function Ballots(a: Approval, b: Approval, c: Approval): map<Ballot, Approval> {
    map[Ballot(0, 0) := a, Ballot(0, 1) := b, Ballot(0, 2) := c]
  }

  function Row(status: Status, unlocksAt: Option<Time>): Request {
    Request(OLD, NEW, status, 2, Sha256(Tok('z')), APPROVAL_WINDOW_MS, unlocksAt, None, None, 0)
  }

  function Key(user: UserId, iv: Iv): Wallet {
    Wallet(user, Derived(Evm, "k"), "ethereum", Software, Some(Sealed(UserKey(MASTER, user), iv, "k")), Some(KeyIdOf(MASTER)))
  }

  function Custodial(guardians: map<GuardianId, Guardian>, requests: map<RequestId, Request>, approvals: map<Ballot, Approval>): Db {
    Db(USERS, guardians, requests, approvals, map[0 := Key(OLD, 0)])
  }

  function At(now: Time, db: Db, workers: map<WorkerId, Worker>): State { State(now, db, {0}, workers, map[]) }

  const LATER := 48 * HOUR
  const ALL := Circle3(Confirmed("a"), Confirmed("b"), Confirmed("c"))
  const VOTES := Ballots(YES, YES, Sent('f'))
  const CLAIMED := Row(Completing, Some(LATER))

  const S0 := At(0, Custodial(map[], map[], map[]), map[])
  const S1 := At(0, Custodial(map[0 := Asked("a", 'a')], map[], map[]), map[])
  const S2 := At(0, Custodial(map[0 := Asked("a", 'a'), 1 := Asked("b", 'b')], map[], map[]), map[])
  const S3 := At(0, Custodial(Circle3(Asked("a", 'a'), Asked("b", 'b'), Asked("c", 'c')), map[], map[]), map[])
  const S4 := At(0, Custodial(Circle3(Confirmed("a"), Asked("b", 'b'), Asked("c", 'c')), map[], map[]), map[])
  const S5 := At(0, Custodial(Circle3(Confirmed("a"), Confirmed("b"), Asked("c", 'c')), map[], map[]), map[])
  const S6 := At(0, Custodial(ALL, map[], map[]), map[])
  const S7 := At(0, Custodial(ALL, map[0 := Row(AwaitingApprovals, None)], Ballots(Sent('d'), Sent('e'), Sent('f'))), map[])
  const S8 := At(0, Custodial(ALL, map[0 := Row(AwaitingApprovals, None)], Ballots(YES, Sent('e'), Sent('f'))), map[])
  const S9 := At(0, Custodial(ALL, map[0 := Row(TimeLocked, Some(LATER))], VOTES), map[])
  const S10 := At(LATER, Custodial(ALL, map[0 := Row(TimeLocked, Some(LATER))], VOTES), map[])
  const S11 := At(LATER, Custodial(ALL, map[0 := CLAIMED], VOTES), map[0 := Claimed(0)])
  const S12 := At(LATER, Custodial(ALL, map[0 := CLAIMED], VOTES), map[0 := Loaded(0, CLAIMED, map[0 := Key(OLD, 0)])])
  ghost const S13 := Next(CFG, S12, CommitEvent())

  function Nonces(w: WalletId): Iv { 1 }

  function CommitEvent(): Event { CommitTx(0, RING, Nonces, true) }

  function Tokens(g: GuardianId): Token { Tok(if g == 0 then 'd' else if g == 1 then 'e' else 'f') }

  function StartEvent(): Event { Start(NEW, "o", Some(OLD), 0, Tok('z'), Tokens) }

  // ------------------------------------------------------------------ the steps

  ghost predicate Leads(s: State, e: Event, s': State) { Enabled(CFG, s, e) && Next(CFG, s, e) == s' }

  lemma Plain1(c: char)
    requires 'a' <= c <= 'z'
    ensures Lower(Trim([c])) == [c] && Lower([c]) == [c]
  {
  }

  lemma Invites()
    ensures Leads(S0, Invite(OLD, "a", 0, Tok('a')), S1)
    ensures Leads(S1, Invite(OLD, "b", 1, Tok('b')), S2)
    ensures Leads(S2, Invite(OLD, "c", 2, Tok('c')), S3)
  {
    TokDiffer('a', 'b');
    TokDiffer('a', 'c');
    TokDiffer('b', 'c');
    InviteStep(S0, 0, 'a', {});
    InviteStep(S1, 1, 'b', {0});
    InviteStep(S2, 2, 'c', {0, 1});
  }

  /** An invitation to a fresh one-letter address by a circle of fewer than five. */
  lemma InviteStep(s: State, g: GuardianId, c: char, circle: set<GuardianId>)
    requires s.now == 0 && s.db.users == USERS && 'a' <= c < 'n' && g !in s.db.guardians && |circle| < MAX_GUARDIANS
    requires Circle(s.db.guardians, OLD) == circle && forall h :: h in s.db.guardians ==>
               s.db.guardians[h].email != [c] && s.db.guardians[h].inviteTokenHash != Some(Sha256(Tok(c)))
    ensures Leads(s, Invite(OLD, [c], g, Tok(c)), s.(db := s.db.(guardians := s.db.guardians[g := Asked([c], c)])))
  {
    Plain1(c);
    Plain1('o');
  }

  /** A confirmation of the only invitation with this token. */
  lemma ConfirmStep(s: State, g: GuardianId, c: char)
    requires s.now == 0 && g in s.db.guardians && s.db.guardians[g] == Asked([c], c) && 'a' <= c < 'n'
    requires forall h :: h in s.db.guardians && h != g ==> s.db.guardians[h].inviteTokenHash != Some(Sha256(Tok(c)))
    ensures Leads(s, Confirm(Tok(c)), s.(db := s.db.(guardians := s.db.guardians[g := Confirmed([c])])))
  {
    TokShape(c);
    assert IsInvite(s.db.guardians, Tok(c), g);
    assert FindInvite(s.db, 0, Tok(c)) == Some(g);
  }

  lemma ConfirmA()
    ensures Leads(S3, Confirm(Tok('a')), S4)
  {
    TokDiffer('a', 'b');
    TokDiffer('a', 'c');
    ConfirmStep(S3, 0, 'a');
  }

  lemma ConfirmB()
    ensures Leads(S4, Confirm(Tok('b')), S5)
  {
    TokDiffer('b', 'c');
    ConfirmStep(S4, 1, 'b');
  }

  lemma ConfirmC()
    ensures Leads(S5, Confirm(Tok('c')), S6)
  {
    ConfirmStep(S5, 2, 'c');
  }

  lemma StartIsAccepted()
    ensures StartRequestReply(S6.db, 0, NEW, Some(OLD)) == Started(OLD, {0, 1, 2}, 2)
  {
    Plain1('n');
    assert ActiveGuardians(ALL, OLD) == {0, 1, 2};
    assert Voters(S6.db, OLD, NEW) == {0, 1, 2};
  }

  lemma ThreeBallots()
    ensures NewBallots(0, {0, 1, 2}, Tokens) == Ballots(Sent('d'), Sent('e'), Sent('f'))
  {
    assert (set g | g in {0, 1, 2} :: Ballot(0, g)) == {Ballot(0, 0), Ballot(0, 1), Ballot(0, 2)};
  }

  lemma TokensDiffer(g: GuardianId, h: GuardianId)
    requires g in ALL && h in ALL && g != h
    ensures Tokens(g) != Tokens(h)
  {
    TokDiffer('d', 'e');
    TokDiffer('d', 'f');
    TokDiffer('e', 'f');
  }

  lemma StartIsEnabled()
    ensures Enabled(CFG, S6, StartEvent())
  {
    Plain1('o');
    forall g, h | g in ALL && h in ALL && g != h ensures Tokens(g) != Tokens(h) { TokensDiffer(g, h); }
  }

  lemma Starts()
    ensures Leads(S6, StartEvent(), S7)
  {
    StartIsEnabled();
    StartIsAccepted();
    ThreeBallots();
  }

  lemma FirstVote()
    ensures Leads(S7, CastVote(Tok('d'), Approve, true), S8)
  {
    TokShape('d');
    TokDiffer('d', 'e');
    TokDiffer('d', 'f');
    var b := Ballot(0, 0);
    assert IsBallot(S7.db.approvals, Tok('d'), b);
    assert FindOpenApproval(S7.db, 0, Tok('d')) == OpenBallot(b);
    assert Cast(S7.db, b, Approved, 0).approvals == S8.db.approvals;
    assert ApprovedBallots(S8.db.approvals, 0) == {b};
  }

  lemma SecondVote()
    ensures Leads(S8, CastVote(Tok('e'), Approve, true), S9)
  {
    TokShape('e');
    TokDiffer('e', 'f');
    var b := Ballot(0, 1);
    assert FindOpenApproval(S8.db, 0, Tok('e')) == OpenBallot(b) by { assert IsBallot(S8.db.approvals, Tok('e'), b); }
    SecondCount();
  }

  lemma SecondCount()
    ensures Cast(S8.db, Ballot(0, 1), Approved, 0).approvals == VOTES
    ensures |ApprovedBallots(VOTES, 0)| == 2
  {
    assert ApprovedBallots(VOTES, 0) == {Ballot(0, 0), Ballot(0, 1)};
  }

  lemma TimePasses()
    ensures Leads(S9, Tick(LATER), S10)
  {
  }

  lemma Claims()
    ensures Leads(S10, TakeClaim(0, 0), S11)
  {
  }

  lemma Loads()
    ensures Leads(S11, LoadWallets(0), S12)
  {
    assert WalletsOf(S11.db, OLD) == map[0 := Key(OLD, 0)];
  }

  lemma CanBeCommitted()
    ensures Enabled(CFG, S12, CommitEvent()) && CanCommit(S12, 0, RING)
  {
    assert IsMovable(RING, Key(OLD, 0), OLD) by { assert Lower("ethereum") == "ethereum"; }
  }

  // ------------------------------------------------------------------ the run

  /** A run that stands at s. */
  ghost predicate Ends(run: Run, s: State) {
    IsRun(CFG, run) && run.states[|run.events|] == s
  }

  ghost function Longer(run: Run, e: Event, s': State): Run { Run(run.states + [s'], run.events + [e]) }

  lemma Grow(run: Run, s: State, e: Event, s': State) returns (longer: Run)
    requires Ends(run, s) && Leads(s, e, s')
    ensures longer == Longer(run, e, s') && Ends(longer, s')
  {
    Extends(CFG, run, e);
    longer := Longer(run, e, s');
  }

  lemma Begins() returns (run: Run)
    ensures Ends(run, S0)
  {
    run := Run([S0], []);
  }

  lemma RunToInvited() returns (run: Run)
    ensures Ends(run, S3)
  {
    run := Begins();
    Invites();
    run := Grow(run, S0, Invite(OLD, "a", 0, Tok('a')), S1);
    run := Grow(run, S1, Invite(OLD, "b", 1, Tok('b')), S2);
    run := Grow(run, S2, Invite(OLD, "c", 2, Tok('c')), S3);
  }

  lemma RunToConfirmed() returns (run: Run)
    ensures Ends(run, S6)
  {
    run := RunToInvited();
    ConfirmA();
    run := Grow(run, S3, Confirm(Tok('a')), S4);
    ConfirmB();
    run := Grow(run, S4, Confirm(Tok('b')), S5);
    ConfirmC();
    run := Grow(run, S5, Confirm(Tok('c')), S6);
  }

  lemma RunToStarted() returns (run: Run)
    ensures Ends(run, S7)
  {
    run := RunToConfirmed();
    Starts();
    run := Grow(run, S6, StartEvent(), S7);
  }

  lemma RunToLocked() returns (run: Run)
    ensures Ends(run, S9)
  {
    run := RunToStarted();
    FirstVote();
    run := Grow(run, S7, CastVote(Tok('d'), Approve, true), S8);
    SecondVote();
    run := Grow(run, S8, CastVote(Tok('e'), Approve, true), S9);
  }

  lemma RunToClaimed() returns (run: Run)
    ensures Ends(run, S11)
  {
    run := RunToLocked();
    TimePasses();
    run := Grow(run, S9, Tick(LATER), S10);
    Claims();
    run := Grow(run, S10, TakeClaim(0, 0), S11);
  }

  /** Three guardians confirm, two approve, the lock runs out and a worker loads the wallets. */
  lemma RunToLoaded() returns (run: Run)
    ensures Ends(run, S12) && CanCommit(S12, 0, RING)
  {
    run := RunToClaimed();
    Loads();
    run := Grow(run, S11, LoadWallets(0), S12);
    CanBeCommitted();
  }

  /**
   * And then the recovery commits: the wallet changes owner with its key, and the old account is locked. The
   * commit is the step before the last state.
   */
  lemma RecoveryHappens() returns (run: Run, n: nat)
    ensures IsRun(CFG, run) && n + 1 == |run.events| && CommitsAt(run, n, 0)
    ensures run.states[n].db.users == USERS && run.states[n].db.wallets == map[0 := Key(OLD, 0)]
    ensures run.states[n + 1].db.wallets == map[0 := Key(NEW, 1)] && IsLocked(run.states[n + 1].db.users, OLD)
  {
    run := RunToLoaded();
    n := |run.events|;
    CanBeCommitted();
    MovesTheKey();
    run := Grow(run, S12, CommitEvent(), S13);
  }

  lemma MovesTheKey()
    requires CanCommit(S12, 0, RING)
    ensures S13.db.wallets == map[0 := Key(NEW, 1)] && IsLocked(S13.db.users, OLD)
  {
    assert MovedWallets(RING, map[0 := Key(OLD, 0)], CLAIMED, Nonces) == map[0 := Key(NEW, 1)];
  }

  // ------------------------------------------------------------------ the failing cases, reached

  /** A wallet that the old account creates between that load and the commit stays with the locked account. */
  lemma WalletIsLeftBehind() returns (run: Run)
    ensures IsRun(CFG, run) && |run.events| >= 1 && run.events[|run.events| - 1] == CommitEvent()
    ensures var db := run.states[|run.events|].db;
            1 in db.wallets && db.wallets[1].userId == OLD && IsLocked(db.users, OLD)
  {
    var loaded := RunToLoaded();
    WalletLeftBehind(CFG, loaded, 0, RING, Nonces, 2, 1);
    var late := LateWallet(OLD, RING, 2, 1);
    var s1 := Next(CFG, S12, late);
    run := Run(loaded.states + [s1, Next(CFG, s1, CommitEvent())], loaded.events + [late, CommitEvent()]);
  }

  /** Saving the row as it was loaded before this recovery gives the wallet back to the locked account. */
  lemma StaleSaveHappens() returns (run: Run, n: nat)
    ensures IsRun(CFG, run) && n + 1 == |run.events| && CommitsAt(run, n, 0)
    ensures 0 in run.states[n].db.wallets && 0 in run.states[n + 1].db.wallets
    ensures var saved := Saved(run.states[n + 1].db.wallets, 0, run.states[n].db.wallets[0]);
            && run.states[n + 1].db.wallets[0].userId == NEW
            && saved[0].userId == OLD && IsLocked(run.states[n + 1].db.users, OLD)
  {
    run, n := RecoveryHappens();
    SaveUndoesRecovery(CFG, run, n, n, n + 1, 0, 0);
  }

  lemma OldAccountMatches()
    ensures MatchProfile(USERS, Profile("workos", "o", true)) == Existing(OLD)
  {
    assert HasEmail(USERS, "o", OLD);
    assert forall u :: !IsLinked(USERS, "workos", u);
  }

  /** A login to the old account that is checked before this commit and saved after it opens the locked account again. */
  lemma StaleLoginHappens() returns (run: Run, n: nat)
    ensures IsRun(CFG, run) && n + 1 == |run.events| && CommitsAt(run, n, 0)
    ensures var profile := Profile("workos", "o", true);
            && MatchProfile(run.states[n].db.users, profile) == Existing(OLD) && OLD in run.states[n].db.users
            && IsLocked(run.states[n + 1].db.users, OLD)
            && !IsLocked(SavedLogin(run.states[n + 1].db, run.states[n + 1].now, OLD, run.states[n].db.users[OLD], profile).users, OLD)
  {
    run, n := RecoveryHappens();
    OldAccountMatches();
    LoginReopensIff(CFG, run, n, n + 1, OLD, Profile("workos", "o", true));
  }

  /** An hour after the voting window of this request, looking at a link closes the request. */
  lemma OverdueLookCloses()
    ensures DescribeApproval(S7.db, APPROVAL_WINDOW_MS + HOUR, Tok('d')).requests[0].status == Expired
    ensures S7.db.requests[0].status == AwaitingApprovals
  {
    TokShape('d');
    TokDiffer('d', 'e');
    TokDiffer('d', 'f');
    assert IsBallot(S7.db.approvals, Tok('d'), Ballot(0, 0));
    assert FindOpenApproval(S7.db, APPROVAL_WINDOW_MS + HOUR, Tok('d')) == Overdue(0);
    DescribePersistsIff(S7.db, APPROVAL_WINDOW_MS + HOUR, Tok('d'));
  }
}
