/** Runs of the whole system, and what holds in every state of every run. */
module Runs {
  import opened Prelude
  import opened Encryption
  import opened Tables
  import opened Recovery
  import opened SignIn
  import opened Custody
  import opened LifeCycle
  import opened Invariants
  import opened Steps
  import opened WalletSteps

  datatype Run = Run(states: seq<State>, events: seq<Event>)

  ghost predicate IsRun(cfg: Config, run: Run) {
    && |run.states| == |run.events| + 1
    && Init(cfg, run.states[0])
    && forall i :: 0 <= i < |run.events| ==> IsStep(cfg, run, i)
  }

  ghost predicate IsStep(cfg: Config, run: Run, i: nat)
    requires i < |run.events| && |run.states| == |run.events| + 1
  {
    Enabled(cfg, run.states[i], run.events[i]) && run.states[i + 1] == Next(cfg, run.states[i], run.events[i])
  }

  ghost predicate Inv(cfg: Config, s: State) {
    && RecoveryInv(s.now, s.db)
    && Claims(s)
    && WalletInv(cfg, s)
    && DistinctIdentities(s.db.users)
  }

  lemma StepKeepsInv(cfg: Config, s: State, e: Event)
    requires Inv(cfg, s) && Enabled(cfg, s, e)
    ensures Inv(cfg, Next(cfg, s, e))
  {
    StepKeepsRecovery(cfg, s, e);
    ClaimsKept(cfg, s, e);
    StepKeepsWallets(cfg, s, e);
    StepKeepsUsers(cfg, s, e);
  }

  /** Every reachable state satisfies every invariant. */
  lemma {:induction false} Reachable(cfg: Config, run: Run, i: nat)
    requires IsRun(cfg, run) && i < |run.states|
    ensures Inv(cfg, run.states[i])
  {
    if i == 0 {
      InitRecovery(cfg, run.states[0]);
    } else {
      Reachable(cfg, run, i - 1);
      assert IsStep(cfg, run, i - 1);
      StepKeepsInv(cfg, run.states[i - 1], run.events[i - 1]);
    }
  }

  /** One request across one step of a run. */
  lemma RowAt(cfg: Config, run: Run, i: nat, r: RequestId)
    requires IsRun(cfg, run) && i < |run.events| && r in run.states[i].db.requests
    ensures r in run.states[i + 1].db.requests
    ensures RowStep(cfg, run.states[i], run.events[i], r, run.states[i].db.requests[r], run.states[i + 1].db.requests[r])
    ensures RowTimeline(run.states[i].now, run.states[i].db.requests[r])
  {
    Reachable(cfg, run, i);
    assert IsStep(cfg, run, i);
    RequestsStep(cfg, run.states[i], run.events[i]);
  }

  // ------------------------------------------------------------------ quorum

  /**
   * In every reachable state a request has at most `threshold` approvals, exactly that many when and only
   * when its unlock time is set, and one refusal when and only when it was declined, otherwise none. Its
   * ballots belong to guardians of the old account, at distinct addresses none of which is the requester's.
   */
  lemma QuorumIsExact(cfg: Config, run: Run, i: nat, r: RequestId)
    requires IsRun(cfg, run) && i < |run.states| && r in run.states[i].db.requests
    ensures var db := run.states[i].db; var request := db.requests[r];
            && |ApprovedBallots(db.approvals, r)| <= request.threshold
            && (|ApprovedBallots(db.approvals, r)| == request.threshold <==> request.unlocksAt.Some?)
            && |RefusedBallots(db.approvals, r)| == (if request.status == Declined then 1 else 0)
            && (forall b :: b in db.approvals && b.requestId == r ==>
                  && b.guardianId in db.guardians
                  && db.guardians[b.guardianId].ownerUserId == request.oldUserId
                  && request.newUserId in db.users
                  && db.guardians[b.guardianId].email != Lower(db.users[request.newUserId].email))
            && (forall a, b :: a in db.approvals && b in db.approvals && a.requestId == r == b.requestId && a != b ==>
                  db.guardians[a.guardianId].email != db.guardians[b.guardianId].email)
  {
    Reachable(cfg, run, i);
    var db := run.states[i].db;
    assert VotesMatch(db.requests[r], |ApprovedBallots(db.approvals, r)|, |RefusedBallots(db.approvals, r)|);
    assert forall b :: b in db.approvals ==> IsVoter(db, b);
  }

  lemma BallotKeys(cfg: Config, s: State, e: Event)
    ensures NextDb(cfg, s, e).approvals.Keys == s.db.approvals.Keys
            || (e.Start? && exists oldUser, voters, threshold ::
                  && StartRequestReply(s.db, s.now, e.newUser, e.found) == Started(oldUser, voters, threshold)
                  && NextDb(cfg, s, e).approvals.Keys == s.db.approvals.Keys + (set g | g in voters :: Ballot(e.rid, g)))
  {
    if e.CastVote? {
      var effect := VoteHasEffect(s.db, s.now, cfg.timeLockMs, e.token, e.vote, e.mailed);
    } else if e.Start? {
      StartBallotKeys(s.db, s.now, e.newUser, e.found, e.rid, e.cancelToken, e.tokens);
    } else {
      OthersKeepBallots(cfg, s, e);
    }
  }

  lemma StartBallotKeys(db: Db, now: Time, newUser: UserId, found: Option<UserId>, rid: RequestId, cancelToken: Token, tokens: GuardianId -> Token)
    ensures var approvals' := StartRequest(db, now, newUser, found, rid, cancelToken, tokens).approvals;
            match StartRequestReply(db, now, newUser, found)
            case Started(_, voters, _) => approvals'.Keys == db.approvals.Keys + (set g | g in voters :: Ballot(rid, g))
            case _ => approvals' == db.approvals
  {
  }

  lemma ClosingKeepsBallots(cfg: Config, s: State, e: Event)
    requires e.Describe? || e.CancelLink? || e.SweepExpiry? || e.WorkOsSignIn? || e.PasswordSignIn?
    ensures NextDb(cfg, s, e).approvals.Keys == s.db.approvals.Keys
  {
  }

  lemma OthersKeepBallots(cfg: Config, s: State, e: Event)
    requires !e.CastVote? && !e.Start?
    ensures NextDb(cfg, s, e).approvals.Keys == s.db.approvals.Keys
  {
    if e.Describe? || e.CancelLink? || e.SweepExpiry? || e.WorkOsSignIn? || e.PasswordSignIn? {
      ClosingKeepsBallots(cfg, s, e);
    }
  }

  /** Every ballot was created with its request, for a guardian active at that moment. */
  lemma {:induction false} VotersWereActive(cfg: Config, run: Run, i: nat, b: Ballot) returns (k: nat)
    requires IsRun(cfg, run) && i < |run.states| && b in run.states[i].db.approvals
    ensures k < i && run.events[k].Start? && run.events[k].rid == b.requestId
    ensures var reply := StartRequestReply(run.states[k].db, run.states[k].now, run.events[k].newUser, run.events[k].found);
            reply.Started? && b.guardianId in ActiveGuardians(run.states[k].db.guardians, reply.oldUserId)
  {
    assert i > 0;
    if b in run.states[i - 1].db.approvals {
      k := VotersWereActive(cfg, run, i - 1, b);
    } else {
      assert IsStep(cfg, run, i - 1);
      BallotAppears(cfg, run.states[i - 1], run.events[i - 1], b);
      k := i - 1;
    }
  }

  lemma BallotAppears(cfg: Config, s: State, e: Event, b: Ballot)
    requires b !in s.db.approvals && b in NextDb(cfg, s, e).approvals
    ensures e.Start? && e.rid == b.requestId
    ensures var reply := StartRequestReply(s.db, s.now, e.newUser, e.found);
            reply.Started? && b.guardianId in ActiveGuardians(s.db.guardians, reply.oldUserId)
  {
    BallotKeys(cfg, s, e);
  }

  // ------------------------------------------------------------------ history

  /**
   * Of two requests against one account, one was closed before the other was created, by a day if it had
   * been cancelled or declined, and did not complete. So each account has at most one open and at most one
   * completed request, and nothing follows a completed one.
   */
  lemma RequestsAreOrdered(cfg: Config, run: Run, i: nat, r: RequestId, q: RequestId)
    requires IsRun(cfg, run) && i < |run.states|
    requires r in run.states[i].db.requests && q in run.states[i].db.requests && r != q
    requires run.states[i].db.requests[r].oldUserId == run.states[i].db.requests[q].oldUserId
    ensures var a, b := run.states[i].db.requests[r], run.states[i].db.requests[q];
            && (Precedes(a, b) || Precedes(b, a))
            && !(a.status.IsOpen() && b.status.IsOpen())
            && !(a.status == Completed && b.status == Completed)
            && (a.status == Completed ==> Precedes(b, a) && !b.status.IsOpen())
  {
    Reachable(cfg, run, i);
    assert RowTimeline(run.states[i].now, run.states[i].db.requests[r]);
    assert RowTimeline(run.states[i].now, run.states[i].db.requests[q]);
  }

  /** Once closed, a request row never changes again. */
  lemma {:induction false} ClosedForever(cfg: Config, run: Run, i: nat, j: nat, r: RequestId)
    requires IsRun(cfg, run) && i <= j < |run.states|
    requires r in run.states[i].db.requests && run.states[i].db.requests[r].closedAt.Some?
    ensures r in run.states[j].db.requests && run.states[j].db.requests[r] == run.states[i].db.requests[r]
  {
    if i < j {
      ClosedForever(cfg, run, i, j - 1, r);
      RowAt(cfg, run, j - 1, r);
    }
  }

  /** A request's parties, threshold and creation time never change. */
  lemma {:induction false} RequestIdentity(cfg: Config, run: Run, i: nat, j: nat, r: RequestId)
    requires IsRun(cfg, run) && i <= j < |run.states| && r in run.states[i].db.requests
    ensures r in run.states[j].db.requests
    ensures var a, b := run.states[i].db.requests[r], run.states[j].db.requests[r];
            a.oldUserId == b.oldUserId && a.newUserId == b.newUserId && a.threshold == b.threshold
            && a.cancelTokenHash == b.cancelTokenHash && a.createdAt == b.createdAt
            && a.approvalsExpireAt == b.approvalsExpireAt
  {
    if i < j {
      RequestIdentity(cfg, run, i, j - 1, r);
      RowAt(cfg, run, j - 1, r);
    }
  }

  // ------------------------------------------------------------------ claims

  /** Step `i` commits the transaction of request `r`. */
  ghost predicate CommitsAt(run: Run, i: nat, r: RequestId)
    requires i < |run.events| < |run.states|
  {
    var e := run.events[i];
    e.CommitTx? && CanCommit(run.states[i], e.worker, e.ring) && run.states[i].WorkerAt(e.worker).rid == r
  }

  lemma CommitIsClaimed(cfg: Config, run: Run, i: nat, r: RequestId)
    requires IsRun(cfg, run) && i < |run.events| && CommitsAt(run, i, r)
    ensures r in run.states[i].db.requests && run.states[i].db.requests[r].status == Completing
    ensures run.states[i].db.requests[r] == run.states[i].WorkerAt(run.events[i].worker).request
  {
    Reachable(cfg, run, i);
    var s := run.states[i];
    assert WorksOn(s.workers[run.events[i].worker], s.db.requests[r]);
  }

  lemma CommitCompletes(cfg: Config, run: Run, i: nat, r: RequestId)
    requires IsRun(cfg, run) && i < |run.events| && CommitsAt(run, i, r)
    ensures r in run.states[i + 1].db.requests
    ensures run.states[i + 1].db.requests[r].status == Completed && run.states[i + 1].db.requests[r].closedAt.Some?
  {
    assert IsStep(cfg, run, i);
  }

  /** Over a whole run the wallets of one request move at most once, however many replicas try. */
  lemma MovesAtMostOnce(cfg: Config, run: Run, i: nat, j: nat, r: RequestId)
    requires IsRun(cfg, run) && i < j < |run.events|
    requires CommitsAt(run, i, r)
    ensures !CommitsAt(run, j, r)
  {
    CommitCompletes(cfg, run, i, r);
    ClosedForever(cfg, run, i + 1, j, r);
    if CommitsAt(run, j, r) {
      CommitIsClaimed(cfg, run, j, r);
    }
  }

  /** In every reachable state at most one call of complete() is past its claim on a request. */
  lemma OneHolder(cfg: Config, run: Run, i: nat, p: WorkerId, q: WorkerId, r: RequestId)
    requires IsRun(cfg, run) && i < |run.states|
    requires Holding(run.states[i].WorkerAt(p)) == Some(r) && Holding(run.states[i].WorkerAt(q)) == Some(r)
    ensures p == q
    ensures r in run.states[i].db.requests
            && (run.states[i].db.requests[r].status == Completing || run.states[i].db.requests[r].status == Completed)
  {
    Reachable(cfg, run, i);
    assert WorksOn(run.states[i].workers[p], run.states[i].db.requests[r]);
  }

  /** A worker that holds a request claimed it itself, and has held it ever since. */
  lemma {:induction false} HolderClaimed(cfg: Config, run: Run, i: nat, p: WorkerId, r: RequestId) returns (k: nat)
    requires IsRun(cfg, run) && i < |run.states|
    requires Holding(run.states[i].WorkerAt(p)) == Some(r)
    ensures k < i && run.events[k].TakeClaim? && run.events[k].worker == p && run.events[k].rid == r
    ensures r in run.states[k].db.requests && IsDue(run.states[k].db.requests[r], run.states[k].now)
    ensures forall j :: k < j <= i ==> Holding(run.states[j].WorkerAt(p)) == Some(r)
  {
    assert i > 0;
    assert IsStep(cfg, run, i - 1);
    var s, e := run.states[i - 1], run.events[i - 1];
    if Holding(s.WorkerAt(p)) == Some(r) {
      k := HolderClaimed(cfg, run, i - 1, p, r);
    } else {
      HolderBegins(s, e, p, r);
      k := i - 1;
    }
  }

  lemma HolderBegins(s: State, e: Event, p: WorkerId, r: RequestId)
    requires Holding(s.WorkerAt(p)) != Some(r)
    requires p in NextWorkers(s, e) && Holding(NextWorkers(s, e)[p]) == Some(r)
    ensures e.TakeClaim? && e.worker == p && e.rid == r && r in s.db.requests && IsDue(s.db.requests[r], s.now)
  {
  }

  /** The failure path hands back nothing but the claim its own worker took and still holds. */
  lemma FallbackReleasesOwnClaim(cfg: Config, run: Run, i: nat, r: RequestId) returns (k: nat)
    requires IsRun(cfg, run) && i < |run.events|
    requires r in run.states[i].db.requests && run.states[i].db.requests[r].status == Completing
    requires r in run.states[i + 1].db.requests && run.states[i + 1].db.requests[r].status == TimeLocked
    ensures run.events[i].HandBack?
    ensures var p := run.events[i].worker;
            && k < i && run.events[k] == TakeClaim(p, r)
            && (forall j :: k < j <= i ==> Holding(run.states[j].WorkerAt(p)) == Some(r))
            && (forall q :: Holding(run.states[i].WorkerAt(q)) == Some(r) ==> q == p)
  {
    RowAt(cfg, run, i, r);
    k := HolderClaimed(cfg, run, i, run.events[i].worker, r);
    forall q | Holding(run.states[i].WorkerAt(q)) == Some(r) ensures q == run.events[i].worker {
      OneHolder(cfg, run, i, q, run.events[i].worker, r);
    }
  }

  // ------------------------------------------------------------------ the time lock

  /** An unlock time was set by the approval that met the threshold, one time lock ahead. */
  lemma {:induction false} UnlockWasVoted(cfg: Config, run: Run, i: nat, r: RequestId) returns (k: nat)
    requires IsRun(cfg, run) && i < |run.states|
    requires r in run.states[i].db.requests && run.states[i].db.requests[r].unlocksAt.Some?
    ensures k < i && run.events[k].CastVote? && run.events[k].vote == Approve
    ensures r in run.states[k].db.requests && run.states[k].db.requests[r].unlocksAt.None?
    ensures |ApprovedBallots(run.states[k].db.approvals, r)| < run.states[k].db.requests[r].threshold
    ensures r in run.states[k + 1].db.requests
    ensures |ApprovedBallots(run.states[k + 1].db.approvals, r)| == run.states[k + 1].db.requests[r].threshold
    ensures run.states[i].db.requests[r].unlocksAt == Some(run.states[k].now + cfg.timeLockMs)
  {
    assert i > 0;
    if r in run.states[i - 1].db.requests && run.states[i - 1].db.requests[r].unlocksAt == run.states[i].db.requests[r].unlocksAt {
      k := UnlockWasVoted(cfg, run, i - 1, r);
    } else {
      k := i - 1;
      UnlockedNow(cfg, run, k, r);
    }
  }

  lemma BornLocked(cfg: Config, run: Run, k: nat, r: RequestId)
    requires IsRun(cfg, run) && k < |run.events|
    requires r in run.states[k + 1].db.requests && run.states[k + 1].db.requests[r].unlocksAt.Some?
    ensures r in run.states[k].db.requests
  {
    assert IsStep(cfg, run, k);
    Reachable(cfg, run, k);
    if r !in run.states[k].db.requests {
      StartedWithoutUnlock(cfg, run.states[k], run.events[k], r);
    }
  }

  /** The step at which the unlock time appears is the approval that meets the threshold. */
  lemma UnlockedNow(cfg: Config, run: Run, k: nat, r: RequestId)
    requires IsRun(cfg, run) && k < |run.events|
    requires r in run.states[k + 1].db.requests && run.states[k + 1].db.requests[r].unlocksAt.Some?
    requires r in run.states[k].db.requests ==> run.states[k].db.requests[r].unlocksAt != run.states[k + 1].db.requests[r].unlocksAt
    ensures run.events[k].CastVote? && run.events[k].vote == Approve
    ensures r in run.states[k].db.requests && run.states[k].db.requests[r].unlocksAt.None?
    ensures |ApprovedBallots(run.states[k].db.approvals, r)| < run.states[k].db.requests[r].threshold
    ensures |ApprovedBallots(run.states[k + 1].db.approvals, r)| == run.states[k + 1].db.requests[r].threshold
    ensures run.states[k + 1].db.requests[r].unlocksAt == Some(run.states[k].now + cfg.timeLockMs)
  {
    BornLocked(cfg, run, k, r);
    RowAt(cfg, run, k, r);
    ApprovalCount(cfg, run, k, r);
    ApprovalCount(cfg, run, k + 1, r);
    AwaitingHasNoUnlock(cfg, run, k, r);
    assert run.events[k].vote == Approve by {
      assert IsStep(cfg, run, k);
      UnlockingVote(cfg, run.states[k], run.events[k], r);
    }
  }

  lemma ApprovalCount(cfg: Config, run: Run, i: nat, r: RequestId)
    requires IsRun(cfg, run) && i < |run.states| && r in run.states[i].db.requests
    ensures var n, request := |ApprovedBallots(run.states[i].db.approvals, r)|, run.states[i].db.requests[r];
            n <= request.threshold && (n == request.threshold <==> request.unlocksAt.Some?)
  {
    QuorumIsExact(cfg, run, i, r);
  }

  lemma AwaitingHasNoUnlock(cfg: Config, run: Run, i: nat, r: RequestId)
    requires IsRun(cfg, run) && i < |run.states| && r in run.states[i].db.requests
    ensures run.states[i].db.requests[r].status == AwaitingApprovals ==> run.states[i].db.requests[r].unlocksAt.None?
  {
    Reachable(cfg, run, i);
    var db := run.states[i].db;
    assert VotesMatch(db.requests[r], |ApprovedBallots(db.approvals, r)|, |RefusedBallots(db.approvals, r)|);
  }

  lemma StartedWithoutUnlock(cfg: Config, s: State, e: Event, r: RequestId)
    requires Claims(s) && r !in s.db.requests && r in NextDb(cfg, s, e).requests
    ensures NextDb(cfg, s, e).requests[r].unlocksAt.None?
  {
    if e.CommitTx? && CanCommit(s, e.worker, e.ring) {
      CommitRows(cfg, s, e);
    }
    if e.CastVote? {
      VoteRowsKeys(cfg, s, e);
    }
  }

  lemma VoteRowsKeys(cfg: Config, s: State, e: Event)
    requires e.CastVote?
    ensures NextDb(cfg, s, e).requests.Keys == s.db.requests.Keys
  {
    var effect := VoteHasEffect(s.db, s.now, cfg.timeLockMs, e.token, e.vote, e.mailed);
  }

  lemma UnlockingVote(cfg: Config, s: State, e: Event, r: RequestId)
    requires e.CastVote? && r in s.db.requests && r in NextDb(cfg, s, e).requests
    requires NextDb(cfg, s, e).requests[r].unlocksAt != s.db.requests[r].unlocksAt
    ensures e.vote == Approve
  {
    var effect := VoteHasEffect(s.db, s.now, cfg.timeLockMs, e.token, e.vote, e.mailed);
  }
}
