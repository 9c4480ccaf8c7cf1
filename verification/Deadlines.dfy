/** Links and deadlines over whole runs: who may vote or become a guardian, and until when. */
module Deadlines {
  import opened Prelude
  import opened Encryption
  import opened Tables
  import opened Recovery
  import opened SignIn
  import opened Custody
  import opened LifeCycle
  import opened Invariants
  import opened Steps
  import opened Runs
  import opened RecoveryTheorems

  // ------------------------------------------------------------------ votes

  /** A request that appears in a step was started in it, with its voting window ahead. */
  lemma BornWithWindow(cfg: Config, s: State, e: Event, r: RequestId)
    requires Claims(s) && r !in s.db.requests && r in NextDb(cfg, s, e).requests
    ensures var row := NextDb(cfg, s, e).requests[r]; row.createdAt == s.now && row.approvalsExpireAt == s.now + APPROVAL_WINDOW_MS
  {
    if e.CommitTx? && CanCommit(s, e.worker, e.ring) {
      CommitRows(cfg, s, e);
    }
    if e.CastVote? {
      VoteRowsKeys(cfg, s, e);
    }
  }

  /** Every request can be voted on for exactly seven days from its creation. */
  lemma {:induction false} WindowIsSevenDays(cfg: Config, run: Run, i: nat, r: RequestId)
    requires IsRun(cfg, run) && i < |run.states| && r in run.states[i].db.requests
    ensures run.states[i].db.requests[r].approvalsExpireAt == run.states[i].db.requests[r].createdAt + APPROVAL_WINDOW_MS
  {
    assert i > 0;
    if r in run.states[i - 1].db.requests {
      WindowIsSevenDays(cfg, run, i - 1, r);
      RequestIdentity(cfg, run, i - 1, i, r);
    } else {
      BornAt(cfg, run, i - 1, r);
    }
  }

  lemma BornAt(cfg: Config, run: Run, k: nat, r: RequestId)
    requires IsRun(cfg, run) && k < |run.events| && r !in run.states[k].db.requests && r in run.states[k + 1].db.requests
    ensures run.states[k + 1].db.requests[r].approvalsExpireAt == run.states[k + 1].db.requests[r].createdAt + APPROVAL_WINDOW_MS
  {
    ClaimsAt(cfg, run, k);
    BornWithWindow(cfg, run.states[k], run.events[k], r);
  }

  lemma ClaimsAt(cfg: Config, run: Run, k: nat)
    requires IsRun(cfg, run) && k < |run.events|
    ensures Claims(run.states[k]) && run.states[k + 1].db == NextDb(cfg, run.states[k], run.events[k])
  {
    Reachable(cfg, run, k);
    assert IsStep(cfg, run, k);
  }

  /** A ballot is new and pending, or keeps its decision, or is decided by a vote through its own link, in time. */
  ghost predicate BallotStep(s: State, e: Event, approvals': map<Ballot, Approval>, b: Ballot)
    requires b in approvals'
  {
    if b !in s.db.approvals then approvals'[b].decision == Pending
    else
      || approvals'[b].decision == s.db.approvals[b].decision
      || (e.CastVote? && IsBallot(s.db.approvals, e.token, b) && IsVotable(s.db, s.now, b)
          && approvals'[b].decision == (if e.vote == Approve then Approved else Refused))
  }

  lemma VoteDecides(cfg: Config, s: State, e: Event, b: Ballot)
    requires e.CastVote? && b in NextDb(cfg, s, e).approvals
    ensures BallotStep(s, e, NextDb(cfg, s, e).approvals, b)
  {
  }

  lemma StartDecidesNothing(cfg: Config, s: State, e: Event, b: Ballot)
    requires e.Start? && KnownParties(s.db) && e.rid !in s.db.requests && b in NextDb(cfg, s, e).approvals
    ensures BallotStep(s, e, NextDb(cfg, s, e).approvals, b)
  {
  }

  lemma OthersDecideNothing(cfg: Config, s: State, e: Event, b: Ballot)
    requires !e.CastVote? && !e.Start? && b in NextDb(cfg, s, e).approvals
    ensures BallotStep(s, e, NextDb(cfg, s, e).approvals, b)
  {
  }

  lemma BallotAt(cfg: Config, run: Run, i: nat, b: Ballot)
    requires IsRun(cfg, run) && i < |run.events| && b in run.states[i + 1].db.approvals
    ensures BallotStep(run.states[i], run.events[i], run.states[i + 1].db.approvals, b)
  {
    assert IsStep(cfg, run, i);
    var s, e := run.states[i], run.events[i];
    if e.CastVote? {
      VoteDecides(cfg, s, e, b);
    } else if e.Start? {
      assert KnownParties(s.db) by { Reachable(cfg, run, i); }
      StartDecidesNothing(cfg, s, e, b);
    } else {
      OthersDecideNothing(cfg, s, e, b);
    }
  }

  /** Every vote that counts was cast through its own link, within seven days of the request's creation. */
  lemma {:induction false} VotesComeInTime(cfg: Config, run: Run, i: nat, b: Ballot) returns (k: nat)
    requires IsRun(cfg, run) && i < |run.states|
    requires b in run.states[i].db.approvals && run.states[i].db.approvals[b].decision != Pending
    ensures k < i && run.events[k].CastVote? && b in run.states[k].db.approvals
    ensures run.states[k].db.approvals[b].tokenHash == Some(Sha256(run.events[k].token))
    ensures run.states[i].db.approvals[b].decision == (if run.events[k].vote == Approve then Approved else Refused)
    ensures b.requestId in run.states[k].db.requests && run.states[k].db.requests[b.requestId].status == AwaitingApprovals
    ensures run.states[k].now <= run.states[k].db.requests[b.requestId].createdAt + APPROVAL_WINDOW_MS
  {
    assert i > 0;
    BallotAt(cfg, run, i - 1, b);
    if b in run.states[i - 1].db.approvals && run.states[i - 1].db.approvals[b].decision == run.states[i].db.approvals[b].decision {
      k := VotesComeInTime(cfg, run, i - 1, b);
    } else {
      k := i - 1;
      WindowIsSevenDays(cfg, run, k, b.requestId);
    }
  }

  // ------------------------------------------------------------------ guardians

  /** A guardian row is a new invitation, or unchanged, or confirmed through its own link in time, or removed. */
  ghost predicate GuardianStep(s: State, e: Event, guardians': map<GuardianId, Guardian>, g: GuardianId)
    requires g in guardians'
  {
    if g !in s.db.guardians then
      && e.Invite? && e.guardian == g
      && guardians'[g] == Guardian(e.owner, Lower(Trim(e.rawEmail)), PendingInvite, Some(Sha256(e.token)), Some(s.now + INVITE_TTL_MS), None)
    else
      var row := s.db.guardians[g];
      || guardians'[g] == row
      || guardians'[g] == row.(status := Removed, inviteTokenHash := None)
      || (e.Confirm? && row.status == PendingInvite && row.inviteTokenHash == Some(Sha256(e.token))
          && row.inviteExpiresAt.Some? && s.now <= row.inviteExpiresAt.value
          && guardians'[g] == row.(status := Active, confirmedAt := Some(s.now), inviteTokenHash := None))
  }

  lemma GuardianSteps(cfg: Config, s: State, e: Event, g: GuardianId)
    requires Enabled(cfg, s, e) && g in NextDb(cfg, s, e).guardians
    ensures GuardianStep(s, e, NextDb(cfg, s, e).guardians, g)
  {
    if e.CastVote? {
      VoteLeavesPeople(cfg, s, e);
    } else if e.CommitTx? && CanCommit(s, e.worker, e.ring) {
      CommitGuardians(s, e.worker, e.ring, e.ivs);
    } else if e.Invite? || e.Confirm? || e.Dismiss? {
      SetupSteps(cfg, s, e, g);
    } else {
      OthersLeaveGuardians(cfg, s, e);
    }
  }

  lemma SetupSteps(cfg: Config, s: State, e: Event, g: GuardianId)
    requires Enabled(cfg, s, e) && (e.Invite? || e.Confirm? || e.Dismiss?) && g in NextDb(cfg, s, e).guardians
    ensures GuardianStep(s, e, NextDb(cfg, s, e).guardians, g)
  {
  }

  lemma CommitGuardians(s: State, p: WorkerId, ring: Keyring, ivs: WalletId -> Iv)
    requires CanCommit(s, p, ring)
    ensures Committed(s, p, ring, ivs).guardians == ClearCircle(s.db.guardians, s.WorkerAt(p).request.oldUserId)
  {
  }

  lemma OthersLeaveGuardians(cfg: Config, s: State, e: Event)
    requires !e.CastVote? && !e.Invite? && !e.Confirm? && !e.Dismiss? && !(e.CommitTx? && CanCommit(s, e.worker, e.ring))
    ensures NextDb(cfg, s, e).guardians == s.db.guardians
  {
  }

  lemma GuardianAt(cfg: Config, run: Run, i: nat, g: GuardianId)
    requires IsRun(cfg, run) && i < |run.events| && g in run.states[i + 1].db.guardians
    ensures GuardianStep(run.states[i], run.events[i], run.states[i + 1].db.guardians, g)
  {
    assert IsStep(cfg, run, i);
    GuardianSteps(cfg, run.states[i], run.events[i], g);
  }

  /** Step k invited guardian g, by the row's owner at the row's address. */
  ghost predicate InvitedAt(run: Run, k: nat, g: GuardianId, row: Guardian)
    requires k < |run.events| < |run.states|
  {
    var e := run.events[k];
    e.Invite? && e.guardian == g && e.owner == row.ownerUserId && Lower(Trim(e.rawEmail)) == row.email
    && row.inviteExpiresAt == Some(run.states[k].now + INVITE_TTL_MS)
    && (row.inviteTokenHash.Some? ==> row.inviteTokenHash == Some(Sha256(e.token)))
  }

  lemma {:induction false} EveryGuardianWasInvited(cfg: Config, run: Run, i: nat, g: GuardianId) returns (k: nat)
    requires IsRun(cfg, run) && i < |run.states| && g in run.states[i].db.guardians
    ensures k < i && InvitedAt(run, k, g, run.states[i].db.guardians[g])
  {
    assert i > 0;
    GuardianAt(cfg, run, i - 1, g);
    if g in run.states[i - 1].db.guardians {
      k := EveryGuardianWasInvited(cfg, run, i - 1, g);
    } else {
      k := i - 1;
    }
  }

  /** An active guardian was invited by its owner and confirmed with the token of that very invitation, within seven days. */
  lemma {:induction false} ActiveGuardiansConfirmed(cfg: Config, run: Run, i: nat, g: GuardianId) returns (k: nat, m: nat)
    requires IsRun(cfg, run) && i < |run.states|
    requires g in run.states[i].db.guardians && run.states[i].db.guardians[g].status == Active
    ensures k < m < i && InvitedAt(run, k, g, run.states[i].db.guardians[g])
    ensures run.events[m].Confirm? && run.events[m].token == run.events[k].token
    ensures run.states[i].db.guardians[g].confirmedAt == Some(run.states[m].now)
    ensures run.states[m].now <= run.states[k].now + INVITE_TTL_MS
  {
    assert i > 0;
    GuardianAt(cfg, run, i - 1, g);
    if run.states[i - 1].db.guardians[g].status == Active {
      k, m := ActiveGuardiansConfirmed(cfg, run, i - 1, g);
    } else {
      k := EveryGuardianWasInvited(cfg, run, i - 1, g);
      m := i - 1;
    }
  }
}
