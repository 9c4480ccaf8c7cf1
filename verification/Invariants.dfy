/** The invariants of the recovery tables, and that every operation keeps them. */
module Invariants {
  import opened Prelude
  import opened Encryption
  import opened Tables
  import opened Recovery
  import opened SignIn
  import opened Custody
  import opened LifeCycle

  // ------------------------------------------------------------------ the invariants

  ghost predicate KnownParties(db: Db) {
    && (forall r :: r in db.requests ==>
          && db.requests[r].oldUserId in db.users
          && db.requests[r].newUserId in db.users
          && db.requests[r].oldUserId != db.requests[r].newUserId)
    && (forall b :: b in db.approvals ==> b.requestId in db.requests && b.guardianId in db.guardians)
  }

  /** Every ballot belongs to a guardian of the old account whose address is not the requester's. */
  ghost predicate Electorate(db: Db)
    requires KnownParties(db)
  {
    forall b :: b in db.approvals ==> IsVoter(db, b)
  }

  /** No two ballots of one request belong to the same e-mail address. */
  ghost predicate DistinctVoters(guardians: map<GuardianId, Guardian>, ballots: set<Ballot>) {
    forall a, b :: a in ballots && b in ballots && a != b && a.requestId == b.requestId
                   && a.guardianId in guardians && b.guardianId in guardians ==>
                     guardians[a.guardianId].email != guardians[b.guardianId].email
  }

  ghost predicate IsVoter(db: Db, b: Ballot)
    requires KnownParties(db) && b in db.approvals
  {
    && db.guardians[b.guardianId].ownerUserId == db.requests[b.requestId].oldUserId
    && db.guardians[b.guardianId].email != Lower(db.users[db.requests[b.requestId].newUserId].email)
  }

  ghost predicate Votes(requests: map<RequestId, Request>, approvals: map<Ballot, Approval>) {
    forall r :: r in requests ==> VotesMatch(requests[r], |ApprovedBallots(approvals, r)|, |RefusedBallots(approvals, r)|)
  }

  ghost predicate VotesMatch(r: Request, approved: nat, refused: nat) {
    && r.threshold >= 2
    && approved <= r.threshold
    && (approved == r.threshold <==> r.unlocksAt.Some?)
    && refused == (if r.status == Declined then 1 else 0)
    && (r.status == AwaitingApprovals ==> r.unlocksAt.None?)
    && (r.status == TimeLocked || r.status == Completing || r.status == Completed ==> r.unlocksAt.Some?)
  }

  ghost predicate RowTimeline(now: Time, r: Request) {
    && r.createdAt <= now
    && (r.status.IsOpen() <==> r.closedAt.None?)
    && (r.closedAt.Some? ==> r.createdAt <= r.closedAt.value <= now)
    && (r.status == Completing || r.status == Completed ==> r.unlocksAt.Some? && r.unlocksAt.value <= now)
  }

  /** `a` was over before `b` was created, a day before if it had been cancelled or declined, and did not complete. */
  ghost predicate Precedes(a: Request, b: Request) {
    && a.closedAt.Some?
    && a.closedAt.value <= b.createdAt
    && a.status != Completed
    && (a.status == Cancelled || a.status == Declined ==> a.closedAt.value + COOLDOWN_MS <= b.createdAt)
  }

  ghost predicate Timeline(now: Time, requests: map<RequestId, Request>) {
    && (forall r :: r in requests ==> RowTimeline(now, requests[r]))
    && (forall r, q :: r in requests && q in requests && r != q && requests[r].oldUserId == requests[q].oldUserId ==>
          Precedes(requests[r], requests[q]) || Precedes(requests[q], requests[r]))
  }

  ghost predicate IsLocked(users: map<UserId, User>, u: UserId) {
    u in users && users[u].lockedAt.Some?
  }

  ghost predicate CompletedAreLocked(db: Db) {
    forall r :: r in db.requests && db.requests[r].status == Completed ==> IsLocked(db.users, db.requests[r].oldUserId)
  }

  /** At most five pending or active guardians per owner, with distinct e-mail addresses. */
  ghost predicate Circles(guardians: map<GuardianId, Guardian>) {
    && (forall owner :: |Circle(guardians, owner)| <= MAX_GUARDIANS)
    && (forall g, h :: g in guardians && h in guardians && g != h
                       && guardians[g].ownerUserId == guardians[h].ownerUserId
                       && guardians[g].status != Removed && guardians[h].status != Removed ==>
                         guardians[g].email != guardians[h].email)
  }

  /** The unique indexes on the stored token hashes. */
  ghost predicate DistinctTokens(db: Db) {
    && (forall g, h :: g in db.guardians && h in db.guardians && g != h && db.guardians[g].inviteTokenHash.Some? ==>
          db.guardians[g].inviteTokenHash != db.guardians[h].inviteTokenHash)
    && (forall a, b :: a in db.approvals && b in db.approvals && a != b && db.approvals[a].tokenHash.Some? ==>
          db.approvals[a].tokenHash != db.approvals[b].tokenHash)
    && (forall r, q :: r in db.requests && q in db.requests && r != q ==>
          db.requests[r].cancelTokenHash != db.requests[q].cancelTokenHash)
  }

  ghost predicate RecoveryInv(now: Time, db: Db) {
    && KnownParties(db)
    && Electorate(db)
    && DistinctVoters(db.guardians, db.approvals.Keys)
    && Votes(db.requests, db.approvals)
    && Timeline(now, db.requests)
    && CompletedAreLocked(db)
    && Circles(db.guardians)
    && DistinctTokens(db)
  }

  lemma InitRecovery(cfg: Config, s: State)
    requires Init(cfg, s)
    ensures RecoveryInv(s.now, s.db)
  {
    forall owner ensures |Circle(s.db.guardians, owner)| <= MAX_GUARDIANS {
      assert Circle(s.db.guardians, owner) == {};
    }
  }

  // ------------------------------------------------------------------ quiet steps

  lemma BallotsKeptCounts(approvals: map<Ballot, Approval>, approvals': map<Ballot, Approval>, r: RequestId)
    requires BallotsKept(approvals, approvals')
    ensures ApprovedBallots(approvals', r) == ApprovedBallots(approvals, r)
    ensures RefusedBallots(approvals', r) == RefusedBallots(approvals, r)
  {
  }

  lemma QuietKeepsVotes(timeLockMs: nat, now: Time, db: Db, db': Db)
    requires QuietStep(timeLockMs, now, db, db') && Votes(db.requests, db.approvals)
    ensures Votes(db'.requests, db'.approvals)
  {
    forall r | r in db'.requests
      ensures VotesMatch(db'.requests[r], |ApprovedBallots(db'.approvals, r)|, |RefusedBallots(db'.approvals, r)|)
    {
      BallotsKeptCounts(db.approvals, db'.approvals, r);
      assert VotesMatch(db.requests[r], |ApprovedBallots(db.approvals, r)|, |RefusedBallots(db.approvals, r)|);
      QuietKeepsMatch(timeLockMs, now, db.requests[r], db'.requests[r], |ApprovedBallots(db.approvals, r)|, |RefusedBallots(db.approvals, r)|);
    }
  }

  lemma QuietKeepsMatch(timeLockMs: nat, now: Time, r: Request, r': Request, approved: nat, refused: nat)
    requires QuietRow(timeLockMs, now, r, r') && VotesMatch(r, approved, refused)
    ensures VotesMatch(r', approved, refused)
  {
  }

  /** What the life cycle preserves of one row: its identity, its timeline, and everything once it is closed. */
  lemma EvolvingRow(timeLockMs: nat, now: Time, r: Request, r': Request)
    requires RequestEvolves(timeLockMs, now, r, r') && RowTimeline(now, r)
    ensures RowTimeline(now, r')
    ensures r'.oldUserId == r.oldUserId && r'.createdAt == r.createdAt
    ensures r.closedAt.Some? ==> r' == r
  {
  }

  lemma EvolvingKeepsTimeline(timeLockMs: nat, now: Time, requests: map<RequestId, Request>, requests': map<RequestId, Request>)
    requires requests'.Keys == requests.Keys && Timeline(now, requests)
    requires forall r :: r in requests ==> RequestEvolves(timeLockMs, now, requests[r], requests'[r])
    ensures Timeline(now, requests')
  {
    forall r | r in requests'
      ensures RowTimeline(now, requests'[r])
      ensures requests'[r].oldUserId == requests[r].oldUserId && requests'[r].createdAt == requests[r].createdAt
      ensures requests[r].closedAt.Some? ==> requests'[r] == requests[r]
    {
      EvolvingRow(timeLockMs, now, requests[r], requests'[r]);
    }
    OrderKept(requests, requests');
  }

  /** Closed rows that do not change stay before whatever they were before. */
  lemma OrderKept(requests: map<RequestId, Request>, requests': map<RequestId, Request>)
    requires requests'.Keys == requests.Keys
    requires forall r, q :: r in requests && q in requests && r != q && requests[r].oldUserId == requests[q].oldUserId ==>
                              Precedes(requests[r], requests[q]) || Precedes(requests[q], requests[r])
    requires forall r :: r in requests ==>
                           && requests'[r].oldUserId == requests[r].oldUserId
                           && requests'[r].createdAt == requests[r].createdAt
                           && (requests[r].closedAt.Some? ==> requests'[r] == requests[r])
    ensures forall r, q :: r in requests' && q in requests' && r != q && requests'[r].oldUserId == requests'[q].oldUserId ==>
                             Precedes(requests'[r], requests'[q]) || Precedes(requests'[q], requests'[r])
  {
    forall r, q | r in requests' && q in requests' && r != q && requests'[r].oldUserId == requests'[q].oldUserId
      ensures Precedes(requests'[r], requests'[q]) || Precedes(requests'[q], requests'[r])
    {
      assert Precedes(requests[r], requests[q]) || Precedes(requests[q], requests[r]);
    }
  }

  lemma EvolvingKeepsParties(timeLockMs: nat, now: Time, db: Db, db': Db)
    requires db'.requests.Keys == db.requests.Keys && db'.approvals.Keys == db.approvals.Keys && PeopleStep(db, db')
    requires forall r :: r in db.requests ==> RequestEvolves(timeLockMs, now, db.requests[r], db'.requests[r])
    requires KnownParties(db) && Electorate(db)
    ensures KnownParties(db') && Electorate(db')
  {
    forall r | r in db.requests
      ensures db'.requests[r].oldUserId == db.requests[r].oldUserId && db'.requests[r].newUserId == db.requests[r].newUserId
    {
      assert RequestEvolves(timeLockMs, now, db.requests[r], db'.requests[r]);
    }
    assert KnownParties(db');
    forall b | b in db'.approvals ensures IsVoter(db', b) {
      assert IsVoter(db, b);
      assert GuardianEvolves(db.guardians[b.guardianId], db'.guardians[b.guardianId]);
      var u := db.requests[b.requestId].newUserId;
      assert UserEvolves(db.users[u], db'.users[u]);
    }
  }

  lemma PeopleKeepVoters(db: Db, db': Db)
    requires PeopleStep(db, db') && KnownParties(db) && db'.approvals.Keys == db.approvals.Keys
    requires DistinctVoters(db.guardians, db.approvals.Keys)
    ensures DistinctVoters(db'.guardians, db'.approvals.Keys)
  {
    forall g | g in db.guardians ensures db'.guardians[g].email == db.guardians[g].email {
      assert GuardianEvolves(db.guardians[g], db'.guardians[g]);
    }
  }

  lemma SmallerCircles(guardians: map<GuardianId, Guardian>, guardians': map<GuardianId, Guardian>)
    requires guardians'.Keys == guardians.Keys && Circles(guardians)
    requires forall g :: g in guardians ==> GuardianEvolves(guardians[g], guardians'[g])
    ensures Circles(guardians')
  {
    forall owner ensures |Circle(guardians', owner)| <= MAX_GUARDIANS {
      forall g | g in Circle(guardians', owner) ensures g in Circle(guardians, owner) {
        assert GuardianEvolves(guardians[g], guardians'[g]);
      }
      SubsetSize(Circle(guardians', owner), Circle(guardians, owner));
    }
    forall g, h | g in guardians' && h in guardians' && g != h
                  && guardians'[g].ownerUserId == guardians'[h].ownerUserId
                  && guardians'[g].status != Removed && guardians'[h].status != Removed
      ensures guardians'[g].email != guardians'[h].email
    {
      assert GuardianEvolves(guardians[g], guardians'[g]) && GuardianEvolves(guardians[h], guardians'[h]);
    }
  }

  lemma QuietKeepsTokens(timeLockMs: nat, now: Time, db: Db, db': Db)
    requires QuietStep(timeLockMs, now, db, db') && db'.guardians.Keys == db.guardians.Keys && DistinctTokens(db)
    ensures DistinctTokens(db')
  {
    forall g, h | g in db'.guardians && h in db'.guardians && g != h && db'.guardians[g].inviteTokenHash.Some?
      ensures db'.guardians[g].inviteTokenHash != db'.guardians[h].inviteTokenHash
    {
      assert GuardianEvolves(db.guardians[g], db'.guardians[g]) && GuardianEvolves(db.guardians[h], db'.guardians[h]);
    }
    forall r | r in db.requests ensures db'.requests[r].cancelTokenHash == db.requests[r].cancelTokenHash {
      assert QuietRow(timeLockMs, now, db.requests[r], db'.requests[r]);
    }
  }

  /** Quiet steps that add no guardian; a step that completes a request must have locked its old account. */
  lemma QuietKeepsInv(timeLockMs: nat, now: Time, db: Db, db': Db)
    requires QuietStep(timeLockMs, now, db, db') && RecoveryInv(now, db)
    requires db'.guardians.Keys == db.guardians.Keys
    requires forall r :: r in db'.requests && db'.requests[r].status == Completed ==>
                           db.requests[r].status == Completed || IsLocked(db'.users, db'.requests[r].oldUserId)
    ensures RecoveryInv(now, db')
  {
    QuietKeepsVotes(timeLockMs, now, db, db');
    assert forall r :: r in db.requests ==> RequestEvolves(timeLockMs, now, db.requests[r], db'.requests[r]) by {
      assert forall r :: r in db.requests ==> QuietRow(timeLockMs, now, db.requests[r], db'.requests[r]);
    }
    EvolvingKeepsTimeline(timeLockMs, now, db.requests, db'.requests);
    EvolvingKeepsParties(timeLockMs, now, db, db');
    PeopleKeepVoters(db, db');
    SmallerCircles(db.guardians, db'.guardians);
    QuietKeepsTokens(timeLockMs, now, db, db');
    QuietKeepsLocks(timeLockMs, now, db, db');
  }

  lemma QuietKeepsLocks(timeLockMs: nat, now: Time, db: Db, db': Db)
    requires QuietStep(timeLockMs, now, db, db') && CompletedAreLocked(db)
    requires forall r :: r in db'.requests && db'.requests[r].status == Completed ==>
                           db.requests[r].status == Completed || IsLocked(db'.users, db'.requests[r].oldUserId)
    ensures CompletedAreLocked(db')
  {
    forall r | r in db'.requests && db'.requests[r].status == Completed
      ensures IsLocked(db'.users, db'.requests[r].oldUserId)
    {
      assert QuietRow(timeLockMs, now, db.requests[r], db'.requests[r]);
      if db.requests[r].status == Completed {
        assert UserEvolves(db.users[db.requests[r].oldUserId], db'.users[db.requests[r].oldUserId]);
      }
    }
  }

  lemma TimePassesKeepsInv(now: Time, later: Time, db: Db)
    requires RecoveryInv(now, db) && now <= later
    ensures RecoveryInv(later, db)
  {
    forall r | r in db.requests ensures RowTimeline(later, db.requests[r]) {
      assert RowTimeline(now, db.requests[r]);
    }
  }

  // ------------------------------------------------------------------ a new guardian

  lemma AddGuardianKeepsInv(timeLockMs: nat, db: Db, now: Time, owner: UserId, rawEmail: string, g: GuardianId, token: Token)
    requires RecoveryInv(now, db)
    requires g !in db.guardians && forall h :: h in db.guardians ==> db.guardians[h].inviteTokenHash != Some(Sha256(token))
    ensures RecoveryInv(now, AddGuardian(db, now, owner, rawEmail, g, token))
  {
    var db' := AddGuardian(db, now, owner, rawEmail, g, token);
    if AddGuardianReply(db, owner, rawEmail) == Invited {
      GuardianSetupIsQuiet(timeLockMs, db, now, owner, rawEmail, g, token);
      EvolvingKeepsParties(timeLockMs, now, db, db');
      PeopleKeepVoters(db, db');
      assert DistinctTokens(db');
      NewMember(db.guardians, g, db'.guardians[g]);
    }
  }

  /** A sixth guardian or a second one with the same address never joins a circle. */
  lemma NewMember(guardians: map<GuardianId, Guardian>, g: GuardianId, row: Guardian)
    requires Circles(guardians) && g !in guardians
    requires |Circle(guardians, row.ownerUserId)| < MAX_GUARDIANS
    requires forall h :: h in Circle(guardians, row.ownerUserId) ==> guardians[h].email != row.email
    ensures Circles(guardians[g := row])
  {
    var guardians' := guardians[g := row];
    forall owner ensures |Circle(guardians', owner)| <= MAX_GUARDIANS {
      if owner == row.ownerUserId {
        SubsetSize(Circle(guardians', owner), Circle(guardians, owner) + {g});
      } else {
        assert Circle(guardians', owner) == Circle(guardians, owner);
      }
    }
    NewMemberDiffers(guardians, g, row);
  }

  lemma NewMemberDiffers(guardians: map<GuardianId, Guardian>, g: GuardianId, row: Guardian)
    requires Circles(guardians) && g !in guardians
    requires forall h :: h in Circle(guardians, row.ownerUserId) ==> guardians[h].email != row.email
    ensures var guardians' := guardians[g := row];
            forall h, k :: h in guardians' && k in guardians' && h != k
                           && guardians'[h].ownerUserId == guardians'[k].ownerUserId
                           && guardians'[h].status != Removed && guardians'[k].status != Removed ==>
                             guardians'[h].email != guardians'[k].email
  {
    var guardians' := guardians[g := row];
    forall h, k | h in guardians' && k in guardians' && h != k
                  && guardians'[h].ownerUserId == guardians'[k].ownerUserId
                  && guardians'[h].status != Removed && guardians'[k].status != Removed
      ensures guardians'[h].email != guardians'[k].email
    {
      if h == g {
        assert k in Circle(guardians, row.ownerUserId);
      } else if k == g {
        assert h in Circle(guardians, row.ownerUserId);
      }
    }
  }

  // ------------------------------------------------------------------ a new request

  /** A majority of three or more leaves at least one guardian over. */
  lemma MajorityLeavesOneOut(n: nat)
    requires n >= MIN_GUARDIANS
    ensures 2 <= ThresholdFor(n) <= n - 1
  {
  }

  lemma RequesterIsOneVoterAtMost(db: Db, oldUser: UserId, newUser: UserId)
    requires Circles(db.guardians) && newUser in db.users
    ensures |Voters(db, oldUser, newUser)| >= |ActiveGuardians(db.guardians, oldUser)| - 1
  {
    var active := ActiveGuardians(db.guardians, oldUser);
    var voters := Voters(db, oldUser, newUser);
    if exists x :: x in active && x !in voters {
      var x :| x in active && x !in voters;
      assert active == voters + {x};
    } else {
      assert active == voters;
    }
  }

  /**
   * Leaving out the requester removes at most one guardian, so the voters always reach the threshold:
   * the branch for "requester is a guardian" can never be taken.
   */
  lemma RequesterNeverStarvesVote(db: Db, now: Time, newUser: UserId, found: Option<UserId>)
    requires Circles(db.guardians)
    ensures var reply := StartRequestReply(db, now, newUser, found);
            && reply != RequesterIsGuardian
            && (reply.Started? ==> 2 <= reply.threshold <= |reply.voters| <= MAX_GUARDIANS)
  {
    if newUser in db.users && found.Some? {
      var active := ActiveGuardians(db.guardians, found.value);
      RequesterIsOneVoterAtMost(db, found.value, newUser);
      SubsetSize(active, Circle(db.guardians, found.value));
      SubsetSize(Voters(db, found.value, newUser), active);
      if |active| >= MIN_GUARDIANS { MajorityLeavesOneOut(|active|); }
    }
  }

  lemma StartKeepsInv(db: Db, now: Time, newUser: UserId, found: Option<UserId>,
                      rid: RequestId, cancelToken: Token, tokens: GuardianId -> Token)
    requires RecoveryInv(now, db)
    requires rid !in db.requests
    requires forall r :: r in db.requests ==> db.requests[r].cancelTokenHash != Sha256(cancelToken)
    requires forall g, b :: g in db.guardians && b in db.approvals ==> db.approvals[b].tokenHash != Some(Sha256(tokens(g)))
    requires forall g, h :: g in db.guardians && h in db.guardians && g != h ==> tokens(g) != tokens(h)
    ensures RecoveryInv(now, StartRequest(db, now, newUser, found, rid, cancelToken, tokens))
  {
    var reply := StartRequestReply(db, now, newUser, found);
    if reply.Started? {
      StartedMeans(db, now, newUser, found);
      var row := Request(reply.oldUserId, newUser, AwaitingApprovals, reply.threshold, Sha256(cancelToken),
                         now + APPROVAL_WINDOW_MS, None, None, None, now);
      NewRequestTokens(db, rid, row, reply.voters, tokens);
      NewRequestTimeline(now, db.requests, rid, row);
      NewRequestKeepsInv(db, now, rid, row, reply.voters, tokens);
    }
  }

  lemma NewRequestKeepsInv(db: Db, now: Time, rid: RequestId, row: Request, voters: set<GuardianId>, tokens: GuardianId -> Token)
    requires RecoveryInv(now, db) && rid !in db.requests
    requires row.oldUserId in db.users && row.newUserId in db.users && row.oldUserId != row.newUserId
    requires row.status == AwaitingApprovals && row.unlocksAt.None? && row.threshold >= 2
    requires voters == Voters(db, row.oldUserId, row.newUserId)
    requires Timeline(now, db.requests[rid := row]) && DistinctTokens(WithRequest(db, rid, row, voters, tokens))
    ensures RecoveryInv(now, WithRequest(db, rid, row, voters, tokens))
  {
    NewRequestVotes(db, rid, row, voters, tokens);
    NewRequestParties(db, rid, row, voters, tokens);
    NewRequestVoters(db, rid, row.oldUserId, voters, tokens);
  }

  /** What acceptance of a request establishes. */
  lemma StartedMeans(db: Db, now: Time, newUser: UserId, found: Option<UserId>)
    requires RecoveryInv(now, db)
    requires StartRequestReply(db, now, newUser, found).Started?
    ensures var reply := StartRequestReply(db, now, newUser, found);
            && reply.oldUserId in db.users && newUser in db.users && reply.oldUserId != newUser
            && !IsLocked(db.users, reply.oldUserId)
            && reply.voters == Voters(db, reply.oldUserId, newUser)
            && 2 <= reply.threshold <= |reply.voters|
            && forall r :: r in db.requests && db.requests[r].oldUserId == reply.oldUserId ==>
                             && !db.requests[r].status.IsOpen() && db.requests[r].status != Completed
                             && (db.requests[r].status == Cancelled || db.requests[r].status == Declined ==>
                                   db.requests[r].closedAt.Some? && db.requests[r].closedAt.value <= now - COOLDOWN_MS)
  {
    RequesterNeverStarvesVote(db, now, newUser, found);
    forall r | r in db.requests && db.requests[r].oldUserId == found.value
      ensures !db.requests[r].status.IsOpen() && db.requests[r].status != Completed && db.requests[r].closedAt.Some?
    {
      assert RowTimeline(now, db.requests[r]);
    }
  }

  lemma NewRequestParties(db: Db, rid: RequestId, row: Request, voters: set<GuardianId>, tokens: GuardianId -> Token)
    requires KnownParties(db) && Electorate(db) && rid !in db.requests
    requires row.oldUserId in db.users && row.newUserId in db.users && row.oldUserId != row.newUserId
    requires voters <= Voters(db, row.oldUserId, row.newUserId)
    ensures var db' := WithRequest(db, rid, row, voters, tokens); KnownParties(db') && Electorate(db')
  {
    var db' := WithRequest(db, rid, row, voters, tokens);
    NewRequestKnown(db, rid, row, voters, tokens);
    forall b | b in db'.approvals ensures IsVoter(db', b) {
      if b in db.approvals {
        assert IsVoter(db, b);
      }
    }
  }

  lemma NewRequestKnown(db: Db, rid: RequestId, row: Request, voters: set<GuardianId>, tokens: GuardianId -> Token)
    requires KnownParties(db)
    requires row.oldUserId in db.users && row.newUserId in db.users && row.oldUserId != row.newUserId
    requires voters <= Voters(db, row.oldUserId, row.newUserId)
    ensures KnownParties(WithRequest(db, rid, row, voters, tokens))
  {
  }

  /** The voters of a new request are active guardians of one circle, so their addresses differ. */
  lemma NewRequestVoters(db: Db, rid: RequestId, oldUser: UserId, voters: set<GuardianId>, tokens: GuardianId -> Token)
    requires DistinctVoters(db.guardians, db.approvals.Keys) && KnownParties(db) && Circles(db.guardians)
    requires rid !in db.requests && voters <= ActiveGuardians(db.guardians, oldUser)
    ensures DistinctVoters(db.guardians, (db.approvals + NewBallots(rid, voters, tokens)).Keys)
  {
  }

  lemma NewRequestTokens(db: Db, rid: RequestId, row: Request, voters: set<GuardianId>, tokens: GuardianId -> Token)
    requires DistinctTokens(db) && rid !in db.requests && voters <= db.guardians.Keys
    requires forall r :: r in db.requests ==> db.requests[r].cancelTokenHash != row.cancelTokenHash
    requires forall g, b :: g in db.guardians && b in db.approvals ==> db.approvals[b].tokenHash != Some(Sha256(tokens(g)))
    requires forall g, h :: g in db.guardians && h in db.guardians && g != h ==> tokens(g) != tokens(h)
    ensures DistinctTokens(WithRequest(db, rid, row, voters, tokens))
  {
    var approvals' := WithRequest(db, rid, row, voters, tokens).approvals;
    forall a, b | a in approvals' && b in approvals' && a != b && approvals'[a].tokenHash.Some?
      ensures approvals'[a].tokenHash != approvals'[b].tokenHash
    {
      var fresh' := NewBallots(rid, voters, tokens);
      if a in fresh' && b in fresh' {
        assert tokens(a.guardianId) != tokens(b.guardianId);
      }
    }
  }

  lemma NewRequestVotes(db: Db, rid: RequestId, row: Request, voters: set<GuardianId>, tokens: GuardianId -> Token)
    requires Votes(db.requests, db.approvals) && KnownParties(db) && rid !in db.requests
    requires row.status == AwaitingApprovals && row.threshold >= 2 && row.unlocksAt.None?
    ensures var db' := WithRequest(db, rid, row, voters, tokens); Votes(db'.requests, db'.approvals)
  {
    var db' := WithRequest(db, rid, row, voters, tokens);
    forall r | r in db'.requests
      ensures VotesMatch(db'.requests[r], |ApprovedBallots(db'.approvals, r)|, |RefusedBallots(db'.approvals, r)|)
    {
      NewBallotsCount(db, rid, voters, tokens, r);
      if r != rid {
        assert VotesMatch(db.requests[r], |ApprovedBallots(db.approvals, r)|, |RefusedBallots(db.approvals, r)|);
      }
    }
  }

  lemma NewBallotsCount(db: Db, rid: RequestId, voters: set<GuardianId>, tokens: GuardianId -> Token, r: RequestId)
    requires KnownParties(db) && rid !in db.requests
    ensures var approvals' := db.approvals + NewBallots(rid, voters, tokens);
            && ApprovedBallots(approvals', r) == (if r == rid then {} else ApprovedBallots(db.approvals, r))
            && RefusedBallots(approvals', r) == (if r == rid then {} else RefusedBallots(db.approvals, r))
  {
  }

  /** A request is created only when every earlier one against the account is over, and long enough over. */
  lemma NewRequestTimeline(now: Time, requests: map<RequestId, Request>, rid: RequestId, row: Request)
    requires Timeline(now, requests) && rid !in requests
    requires row.status == AwaitingApprovals && row.createdAt == now && row.closedAt.None?
    requires forall r :: r in requests && requests[r].oldUserId == row.oldUserId ==>
                           && !requests[r].status.IsOpen() && requests[r].status != Completed
                           && (requests[r].status == Cancelled || requests[r].status == Declined ==>
                                 requests[r].closedAt.Some? && requests[r].closedAt.value <= now - COOLDOWN_MS)
    ensures Timeline(now, requests[rid := row])
  {
    forall r | r in requests && requests[r].oldUserId == row.oldUserId
      ensures Precedes(requests[r], row)
    {
      assert RowTimeline(now, requests[r]);
    }
  }

  // ------------------------------------------------------------------ a vote

  lemma VoteCounts(db: Db, b: Ballot, decision: Decision, now: Time, r: RequestId)
    requires b in db.approvals && db.approvals[b].decision == Pending && decision != Pending
    ensures var after := Cast(db, b, decision, now).approvals;
            && |ApprovedBallots(after, r)| == |ApprovedBallots(db.approvals, r)| + (if r == b.requestId && decision == Approved then 1 else 0)
            && |RefusedBallots(after, r)| == |RefusedBallots(db.approvals, r)| + (if r == b.requestId && decision == Refused then 1 else 0)
  {
    var after := Cast(db, b, decision, now).approvals;
    if r == b.requestId && decision == Approved {
      assert ApprovedBallots(after, r) == ApprovedBallots(db.approvals, r) + {b};
    } else {
      assert ApprovedBallots(after, r) == ApprovedBallots(db.approvals, r);
    }
    if r == b.requestId && decision == Refused {
      assert RefusedBallots(after, r) == RefusedBallots(db.approvals, r) + {b};
    } else {
      assert RefusedBallots(after, r) == RefusedBallots(db.approvals, r);
    }
  }

  /** One row's vote arithmetic: the ballot just cast counts for its own request only. */
  lemma VoteKeepsRow(timeLockMs: nat, now: Time, db: Db, db': Db, effect: VoteEffect, r: RequestId)
    requires VoteStep(timeLockMs, now, db, db', effect) && !effect.NoVote?
    requires r in db.requests
    requires VotesMatch(db.requests[r], |ApprovedBallots(db.approvals, r)|, |RefusedBallots(db.approvals, r)|)
    ensures r in db'.requests
    ensures VotesMatch(db'.requests[r], |ApprovedBallots(db'.approvals, r)|, |RefusedBallots(db'.approvals, r)|)
  {
    var decision := if effect.Refusal? then Refused else Approved;
    VoteCounts(db, effect.ballot, decision, now, r);
    BallotsKeptCounts(Cast(db, effect.ballot, decision, now).approvals, db'.approvals, r);
  }

  lemma VoteKeepsVotes(timeLockMs: nat, now: Time, db: Db, db': Db, effect: VoteEffect)
    requires VoteStep(timeLockMs, now, db, db', effect) && !effect.NoVote?
    requires Votes(db.requests, db.approvals)
    ensures Votes(db'.requests, db'.approvals)
  {
    VoteEvolves(timeLockMs, now, db, db', effect);
    forall r | r in db'.requests
      ensures VotesMatch(db'.requests[r], |ApprovedBallots(db'.approvals, r)|, |RefusedBallots(db'.approvals, r)|)
    {
      VoteKeepsRow(timeLockMs, now, db, db', effect, r);
    }
  }

  lemma VoteKeepsTimeline(timeLockMs: nat, now: Time, db: Db, db': Db, effect: VoteEffect)
    requires VoteStep(timeLockMs, now, db, db', effect) && Timeline(now, db.requests)
    ensures Timeline(now, db'.requests)
  {
    VoteEvolves(timeLockMs, now, db, db', effect);
    EvolvingKeepsTimeline(timeLockMs, now, db.requests, db'.requests);
  }

  lemma VoteKeepsParties(timeLockMs: nat, now: Time, db: Db, db': Db, effect: VoteEffect)
    requires VoteStep(timeLockMs, now, db, db', effect) && KnownParties(db) && Electorate(db)
    ensures KnownParties(db') && Electorate(db')
  {
    VoteEvolves(timeLockMs, now, db, db', effect);
    SamePeople(db, db');
    EvolvingKeepsParties(timeLockMs, now, db, db');
  }

  lemma SamePeople(db: Db, db': Db)
    requires db'.users == db.users && db'.guardians == db.guardians
    ensures PeopleStep(db, db')
  {
  }

  lemma VoteKeepsInv(timeLockMs: nat, now: Time, db: Db, db': Db, effect: VoteEffect)
    requires VoteStep(timeLockMs, now, db, db', effect) && RecoveryInv(now, db)
    ensures RecoveryInv(now, db')
  {
    if !effect.NoVote? {
      assert db'.guardians == db.guardians && db'.approvals.Keys == db.approvals.Keys by { VoteEvolves(timeLockMs, now, db, db', effect); }
      VoteKeepsVotes(timeLockMs, now, db, db', effect);
      VoteKeepsTimeline(timeLockMs, now, db, db', effect);
      VoteKeepsParties(timeLockMs, now, db, db', effect);
      VoteKeepsTokens(timeLockMs, now, db, db', effect);
    }
  }

  lemma VoteKeepsTokens(timeLockMs: nat, now: Time, db: Db, db': Db, effect: VoteEffect)
    requires VoteStep(timeLockMs, now, db, db', effect) && DistinctTokens(db)
    ensures DistinctTokens(db')
    ensures CompletedAreLocked(db) ==> CompletedAreLocked(db')
  {
    VoteEvolves(timeLockMs, now, db, db', effect);
    forall r | r in db.requests
      ensures db'.requests[r].cancelTokenHash == db.requests[r].cancelTokenHash
      ensures db'.requests[r].status == Completed ==> db'.requests[r] == db.requests[r]
    {
    }
  }
}
