/**
 * The recovery service itself: methods that update the tables step by step, each proved to do what its
 * function in module Recovery says. A transaction works on local copies and assigns the tables at the end,
 * so leaving it early leaves them alone.
 */
module RecoveryServices {
  import opened Prelude
  import opened Encryption
  import opened Tables
  import opened Recovery
  import opened LifeCycle
  import opened Invariants
  import opened RecoveryRows

  class RecoveryService {
    const dataSource: DataSource
    const timeLockMs: nat
    const encryption: EncryptionService

    constructor (dataSource: DataSource, timeLockMs: nat, encryption: EncryptionService)
      ensures this.dataSource == dataSource && this.timeLockMs == timeLockMs && this.encryption == encryption
    {
      this.dataSource := dataSource;
      this.timeLockMs := timeLockMs;
      this.encryption := encryption;
    }

    // ---------------------------------------------------------------- guardians

    method AddGuardian(now: Time, owner: UserId, rawEmail: string, id: GuardianId, token: Token) returns (reply: GuardianReply)
      modifies dataSource`guardians
      ensures reply == AddGuardianReply(old(dataSource.Contents()), owner, rawEmail)
      ensures dataSource.Contents() == Recovery.AddGuardian(old(dataSource.Contents()), now, owner, rawEmail, id, token)
    {
      var email := Lower(Trim(rawEmail));
      if owner !in dataSource.users {
        return OwnerNotFound;
      }
      if email == Lower(dataSource.users[owner].email) {
        return OwnGuardian;
      }
      var current := Circle(dataSource.guardians, owner);
      if exists g :: g in current && dataSource.guardians[g].email == email {
        return AlreadyGuardian;
      }
      if |current| >= MAX_GUARDIANS {
        return TooManyGuardians;
      }
      dataSource.guardians := dataSource.guardians[id := Guardian(owner, email, PendingInvite, Some(Sha256(token)),
                                                                  Some(now + INVITE_TTL_MS), None)];
      return Invited;
    }

    method FindInvite(now: Time, token: Token) returns (hit: Option<GuardianId>)
      requires DistinctTokens(dataSource.Contents())
      ensures hit == Recovery.FindInvite(dataSource.Contents(), now, token)
    {
      if !IsBase64Url43(token) {
        return None;
      }
      if g :| g in dataSource.guardians && dataSource.guardians[g].inviteTokenHash == Some(Sha256(token))
              && dataSource.guardians[g].status == PendingInvite {
        assert IsInvite(dataSource.guardians, token, g);
        var row := dataSource.guardians[g];
        if row.inviteExpiresAt.None? || row.inviteExpiresAt.value < now {
          return None;
        }
        return Some(g);
      }
      return None;
    }

    method ConfirmInvite(now: Time, token: Token) returns (confirmed: bool)
      requires DistinctTokens(dataSource.Contents())
      modifies dataSource`guardians
      ensures confirmed == Recovery.FindInvite(old(dataSource.Contents()), now, token).Some?
      ensures dataSource.Contents() == Recovery.ConfirmInvite(old(dataSource.Contents()), now, token)
    {
      var hit := FindInvite(now, token);
      if hit.None? {
        return false;
      }
      var row := dataSource.guardians[hit.value];
      dataSource.guardians := dataSource.guardians[hit.value := row.(status := Active, confirmedAt := Some(now), inviteTokenHash := None)];
      return true;
    }

    method RemoveGuardian(owner: UserId, id: GuardianId) returns (removed: bool)
      modifies dataSource`guardians
      ensures removed == (id in Circle(old(dataSource.guardians), owner))
      ensures dataSource.Contents() == Recovery.RemoveGuardian(old(dataSource.Contents()), owner, id)
    {
      if id !in dataSource.guardians || dataSource.guardians[id].ownerUserId != owner || dataSource.guardians[id].status == Removed {
        return false;
      }
      dataSource.guardians := dataSource.guardians[id := dataSource.guardians[id].(status := Removed, inviteTokenHash := None)];
      return true;
    }

    // ---------------------------------------------------------------- requests

    /** WHERE LOWER(email) = :email, any one match. */
    method FindByEmail(email: string) returns (found: Option<UserId>)
      ensures IsAccountLookup(dataSource.users, email, found)
    {
      if u :| u in dataSource.users && Lower(dataSource.users[u].email) == email {
        return Some(u);
      }
      return None;
    }

    method StartRequest(now: Time, newUser: UserId, rawOldEmail: string, rid: RequestId, cancelToken: Token, tokens: GuardianId -> Token)
      returns (reply: StartReply, ghost found: Option<UserId>)
      modifies dataSource`requests, dataSource`approvals
      ensures IsAccountLookup(dataSource.users, Lower(Trim(rawOldEmail)), found)
      ensures reply == StartRequestReply(old(dataSource.Contents()), now, newUser, found)
      ensures dataSource.Contents() == Recovery.StartRequest(old(dataSource.Contents()), now, newUser, found, rid, cancelToken, tokens)
    {
      var oldUser := FindByEmail(Lower(Trim(rawOldEmail)));
      found := oldUser;
      if newUser !in dataSource.users {
        return RequesterNotFound, found;
      }
      if exists r :: r in dataSource.requests && dataSource.requests[r].newUserId == newUser && dataSource.requests[r].status.IsOpen() {
        return AlreadyRecovering, found;
      }
      if exists w :: w in dataSource.wallets && dataSource.wallets[w].userId == newUser {
        return RequesterHasWallets, found;
      }
      if oldUser.None? || oldUser.value == newUser || dataSource.users[oldUser.value].lockedAt.Some? {
        return NoEligibleAccount, found;
      }
      var account := oldUser.value;
      var active := ActiveGuardians(dataSource.guardians, account);
      var open := exists r :: r in dataSource.requests && dataSource.requests[r].oldUserId == account && dataSource.requests[r].status.IsOpen();
      var cooling := exists r :: r in dataSource.requests && dataSource.requests[r].oldUserId == account
                                 && (dataSource.requests[r].status == Cancelled || dataSource.requests[r].status == Declined)
                                 && dataSource.requests[r].closedAt.Some? && dataSource.requests[r].closedAt.value > now - COOLDOWN_MS;
      assert open == HasOpenRequestAgainst(dataSource.Contents(), account) && cooling == InCooldown(dataSource.Contents(), now, account);
      if |active| < MIN_GUARDIANS || open || cooling {
        return NotEligibleNow, found;
      }
      var voters := set g | g in active && dataSource.guardians[g].email != Lower(dataSource.users[newUser].email);
      assert voters == Voters(dataSource.Contents(), account, newUser);
      var threshold := ThresholdFor(|active|);
      if |voters| < threshold {
        return RequesterIsGuardian, found;
      }
      InsertRequest(rid, Request(account, newUser, AwaitingApprovals, threshold, Sha256(cancelToken),
                                 now + APPROVAL_WINDOW_MS, None, None, None, now), voters, tokens);
      return Started(account, voters, threshold), found;
    }

    /** The request and one ballot per voter. */
    method InsertRequest(rid: RequestId, row: Request, voters: set<GuardianId>, tokens: GuardianId -> Token)
      modifies dataSource`requests, dataSource`approvals
      ensures dataSource.Contents() == WithRequest(old(dataSource.Contents()), rid, row, voters, tokens)
    {
      dataSource.requests := dataSource.requests[rid := row];
      ghost var middle := dataSource.Contents();
      var approvals := dataSource.approvals;
      var pending := voters;
      ghost var inserted := {};
      assert NewBallots(rid, {}, tokens) == map[];
      while pending != {}
        invariant dataSource.Contents() == middle
        invariant inserted + pending == voters
        invariant approvals == dataSource.approvals + NewBallots(rid, inserted, tokens)
        decreases pending
      {
        var g :| g in pending;
        approvals := approvals[Ballot(rid, g) := Approval(Some(Sha256(tokens(g))), Pending, None)];
        NewBallotsGrow(dataSource.approvals, rid, inserted, g, tokens);
        pending, inserted := pending - {g}, inserted + {g};
      }
      assert inserted == voters;
      dataSource.approvals := approvals;
    }

    // ---------------------------------------------------------------- votes

    method FindOpenApproval(now: Time, token: Token) returns (lookup: BallotLookup)
      requires DistinctTokens(dataSource.Contents())
      ensures lookup == Recovery.FindOpenApproval(dataSource.Contents(), now, token)
    {
      if !IsBase64Url43(token) {
        return NoBallot;
      }
      if b :| b in dataSource.approvals && dataSource.approvals[b].tokenHash == Some(Sha256(token)) && dataSource.approvals[b].decision == Pending {
        assert IsBallot(dataSource.approvals, token, b);
        if b.requestId !in dataSource.requests || dataSource.requests[b.requestId].status != AwaitingApprovals {
          return NoBallot;
        }
        if dataSource.requests[b.requestId].approvalsExpireAt < now {
          return Overdue(b.requestId);
        }
        return OpenBallot(b);
      }
      return NoBallot;
    }

    /** Outside a transaction, so an overdue request is closed even though the caller only sees an error. */
    method DescribeApproval(now: Time, token: Token) returns (shown: bool)
      requires DistinctTokens(dataSource.Contents())
      modifies dataSource`requests, dataSource`approvals
      ensures shown == Recovery.FindOpenApproval(old(dataSource.Contents()), now, token).OpenBallot?
      ensures dataSource.Contents() == Recovery.DescribeApproval(old(dataSource.Contents()), now, token)
    {
      var lookup := FindOpenApproval(now, token);
      if lookup.Overdue? {
        Close(lookup.rid, Expired, NoResponseInTime, now);
      }
      return lookup.OpenBallot?;
    }

    method Decide(now: Time, token: Token, vote: Vote, mailed: bool) returns (reply: DecideReply)
      requires DistinctTokens(dataSource.Contents())
      modifies dataSource`requests, dataSource`approvals
      ensures (dataSource.Contents(), reply) == Recovery.Decide(old(dataSource.Contents()), now, timeLockMs, token, vote, mailed)
    {
      if vote == Unrecognised {
        return BadDecision;
      }
      var lookup := FindOpenApproval(now, token);
      if !lookup.OpenBallot? {
        return InvalidLink;
      }
      var b := lookup.ballot;
      var approvals := dataSource.approvals[b := Approval(None, if vote == Approve then Approved else Refused, Some(now))];
      if vote == Decline {
        dataSource.approvals := approvals;
        Close(b.requestId, Declined, GuardianDeclined, now);
        return DeclinedNow;
      }
      var approved := |ApprovedBallots(approvals, b.requestId)|;
      var request := dataSource.requests[b.requestId];
      if approved >= request.threshold {
        var unlocksAt := now + timeLockMs;
        if !mailed {
          return MailFailed;
        }
        dataSource.approvals := approvals;
        dataSource.requests := dataSource.requests[b.requestId := request.(status := TimeLocked, unlocksAt := Some(unlocksAt))];
        return LockedUntil(unlocksAt);
      }
      dataSource.approvals := approvals;
      return StillWaiting(approved);
    }

    // ---------------------------------------------------------------- stopping

    method Close(rid: RequestId, status: Status, reason: ClosedReason, now: Time)
      requires rid in dataSource.requests
      modifies dataSource`requests, dataSource`approvals
      ensures dataSource.Contents() == CloseAll(old(dataSource.Contents()), {rid}, status, reason, now)
    {
      var request := dataSource.requests[rid];
      dataSource.requests := dataSource.requests[rid := request.(status := status, closedAt := Some(now), closedReason := Some(reason))];
      dataSource.approvals := map b | b in dataSource.approvals ::
        if b.requestId == rid then dataSource.approvals[b].(tokenHash := None) else dataSource.approvals[b];
    }

    /** Closes several requests one after the other. */
    method CloseEach(rids: set<RequestId>, status: Status, reason: ClosedReason, now: Time)
      requires rids <= dataSource.requests.Keys
      modifies dataSource`requests, dataSource`approvals
      ensures dataSource.Contents() == CloseAll(old(dataSource.Contents()), rids, status, reason, now)
    {
      ghost var start := dataSource.Contents();
      var pending := rids;
      ghost var closed := {};
      CloseNone(start, status, reason, now);
      while pending != {}
        invariant closed + pending == rids
        invariant pending <= dataSource.requests.Keys
        invariant dataSource.Contents() == CloseAll(start, closed, status, reason, now)
        decreases pending
      {
        var r :| r in pending;
        Close(r, status, reason, now);
        CloseOneMore(start, closed, r, status, reason, now);
        pending, closed := pending - {r}, closed + {r};
      }
      assert closed == rids;
    }

    method CancelByToken(now: Time, token: Token) returns (cancelled: bool)
      requires DistinctTokens(dataSource.Contents())
      modifies dataSource`requests, dataSource`approvals
      ensures cancelled == FindCancellable(old(dataSource.Contents()), token).Some?
      ensures dataSource.Contents() == Recovery.CancelByToken(old(dataSource.Contents()), now, token)
    {
      if !IsBase64Url43(token) {
        return false;
      }
      if r :| r in dataSource.requests && dataSource.requests[r].cancelTokenHash == Sha256(token) && dataSource.requests[r].status.IsStoppable() {
        assert IsCancellable(dataSource.requests, token, r);
        Close(r, Cancelled, CancelledByOwner, now);
        return true;
      }
      return false;
    }

    method CancelForSignIn(now: Time, user: UserId)
      modifies dataSource`requests, dataSource`approvals
      ensures dataSource.Contents() == Recovery.CancelForSignIn(old(dataSource.Contents()), now, user)
    {
      var open := set r | r in dataSource.requests && dataSource.requests[r].oldUserId == user && dataSource.requests[r].status.IsStoppable();
      assert open == StoppableAgainst(dataSource.Contents(), user);
      CloseEach(open, Cancelled, OwnerSignedIn, now);
    }

    // ---------------------------------------------------------------- completing

    /** One wallet inside the completing transaction: re-encrypted for the new owner and verified, or an error. */
    method MoveWallet(w: Wallet, oldUser: UserId, newUser: UserId, iv: Iv) returns (moved: Option<Wallet>)
      ensures moved.Some? <==> IsMovable(encryption.Ring(), w, oldUser)
      ensures moved.Some? ==> moved.value == MovedWallet(encryption.Ring(), w, oldUser, newUser, iv)
    {
      if w.signingMode == Software && w.encryptedPrivateKey.Some? {
        var found := encryption.DecryptWithKeyId(w.encryptedPrivateKey.value, oldUser);
        if found.Err? || !KeyMatchesAddress(w.chain, found.value.plaintext, w.address) {
          return None;
        }
        var ciphertext := Encrypt(Keyring(encryption.masterKey, encryption.previousKeys), found.value.plaintext, newUser, iv);
        var roundTrip := encryption.DecryptWithCurrentKeyOnly(ciphertext, newUser);
        if roundTrip != Some(found.value.plaintext) {
          return None;
        }
        return Some(w.(userId := newUser, encryptedPrivateKey := Some(ciphertext), encryptionKeyId := Some(KeyIdOf(encryption.masterKey))));
      }
      return Some(w.(userId := newUser));
    }

    /** Every wallet of a transaction, until one fails. */
    method MoveWallets(loaded: map<WalletId, Wallet>, request: Request, ivs: WalletId -> Iv) returns (moved: Option<map<WalletId, Wallet>>)
      ensures moved.Some? <==> AllMovable(encryption.Ring(), loaded, request.oldUserId)
      ensures moved.Some? ==> moved.value == MovedWallets(encryption.Ring(), loaded, request, ivs)
    {
      var rows := map[];
      var pending := loaded.Keys;
      while pending != {}
        invariant pending <= loaded.Keys && rows.Keys == loaded.Keys - pending
        invariant forall w :: w in rows ==>
          IsMovable(encryption.Ring(), loaded[w], request.oldUserId)
          && rows[w] == MovedWallet(encryption.Ring(), loaded[w], request.oldUserId, request.newUserId, ivs(w))
        decreases pending
      {
        var w :| w in pending;
        var row := MoveWallet(loaded[w], request.oldUserId, request.newUserId, ivs(w));
        if row.None? {
          return None;
        }
        rows := rows[w := row.value];
        pending := pending - {w};
      }
      return Some(rows);
    }

    /** Claim, transaction, and on any failure the conditional hand-back. */
    method Complete(now: Time, rid: RequestId, ivs: WalletId -> Iv, fault: bool) returns (done: bool)
      modifies dataSource
      ensures (dataSource.Contents(), done) == Recovery.Complete(old(dataSource.Contents()), now, rid, encryption.Ring(), ivs, fault)
    {
      if rid !in dataSource.requests || !IsDue(dataSource.requests[rid], now) {
        return false;
      }
      dataSource.requests := dataSource.requests[rid := dataSource.requests[rid].(status := Completing)];
      assert Some(dataSource.Contents()) == Claim(old(dataSource.Contents()), now, rid);

      var request := dataSource.requests[rid];
      var loaded := map w | w in dataSource.wallets && dataSource.wallets[w].userId == request.oldUserId :: dataSource.wallets[w];
      assert loaded == WalletsOf(dataSource.Contents(), request.oldUserId);
      var moved := MoveWallets(loaded, request, ivs);
      if fault || moved.None? {
        if dataSource.requests[rid].status == Completing {
          dataSource.requests := dataSource.requests[rid := dataSource.requests[rid].(status := TimeLocked)];
        }
        return false;
      }
      dataSource.wallets := dataSource.wallets + moved.value;
      dataSource.users := LockUser(dataSource.users, request.oldUserId, now);
      dataSource.guardians := ClearCircle(dataSource.guardians, request.oldUserId);
      dataSource.requests := dataSource.requests[rid := request.(status := Completed, closedAt := Some(now),
                                                                 closedReason := Some(Recovered(|loaded|)))];
      return true;
    }

    /**
     * Expires what is overdue, then completes what is due, in whatever order the rows come. An awaiting request
     * whose deadline has come is expired; a time-locked one whose unlock time has come is tried once and is then
     * completed or exactly as it was; every other row, an awaiting one with time left above all, is untouched; and
     * the count returned is the number completed.
     */
    method Sweep(now: Time, ivs: RequestId -> WalletId -> Iv, faults: RequestId -> bool) returns (count: nat, ghost order: seq<RequestId>)
      modifies dataSource
      ensures dataSource.requests.Keys == old(dataSource.requests.Keys)
      ensures forall r :: r in old(dataSource.requests) ==> SweptRow(old(dataSource.requests)[r], dataSource.requests[r], now)
      ensures forall r :: r in order <==> r in old(dataSource.requests) && TimeHasCome(old(dataSource.requests)[r], now)
      ensures forall i, j :: 0 <= i < j < |order| ==> order[i] != order[j]
      ensures count == |set r | r in order && r in dataSource.requests && dataSource.requests[r].status == Completed|
      ensures dataSource.Contents() == CompleteEach(ExpireOverdue(old(dataSource.Contents()), now), now, order, encryption.Ring(), ivs, faults)
    {
      var stale := OverdueIds(dataSource.requests, now);
      assert stale == OverdueRequests(dataSource.Contents(), now);
      ghost var start := dataSource.Contents();
      CloseEach(stale, Expired, NoResponseInTime, now);
      ghost var expired := dataSource.Contents();
      var due := DueIds(dataSource.requests, now);
      assert due == DueRequests(expired, now);
      count, order := CompleteDue(now, due, ivs, faults);
      EachOnce(order, due);
      SweptRows(start, expired, dataSource.Contents(), now, due);
      assert (set r | r in order && r in dataSource.requests && dataSource.requests[r].status == Completed)
          == CompletedAmong(dataSource.requests, due);
    }

    /** complete() for each of the due requests; afterwards `SweepProgress` holds with all of them tried. */
    method CompleteDue(now: Time, due: set<RequestId>, ivs: RequestId -> WalletId -> Iv, faults: RequestId -> bool)
      returns (count: nat, ghost order: seq<RequestId>)
      requires due == DueRequests(dataSource.Contents(), now)
      modifies dataSource
      ensures SweepProgress(old(dataSource.Contents()), dataSource.Contents(), now, encryption.Ring(), ivs, faults, due, order, count)
    {
      ghost var start := dataSource.Contents();
      var tried := {};
      count, order := 0, [];
      SweepStart(start, now, encryption.Ring(), ivs, faults);
      while tried != due
        invariant tried <= due
        invariant SweepProgress(start, dataSource.Contents(), now, encryption.Ring(), ivs, faults, tried, order, count)
        decreases due - tried
      {
        var r := AnyOther(due, tried);
        count := CompleteNext(now, r, ivs, faults, start, tried, order, count);
        tried, order := tried + {r}, order + [r];
      }
    }

    /** The next row of a result set. */
    method AnyOther(all: set<RequestId>, some: set<RequestId>) returns (r: RequestId)
      requires some < all
      ensures r in all && r !in some
    {
      r :| r in all && r !in some;
    }

    method CompleteNext(now: Time, r: RequestId, ivs: RequestId -> WalletId -> Iv, faults: RequestId -> bool,
                        ghost start: Db, ghost tried: set<RequestId>, ghost order: seq<RequestId>, count: nat)
      returns (count': nat)
      requires SweepProgress(start, dataSource.Contents(), now, encryption.Ring(), ivs, faults, tried, order, count)
      requires r in DueRequests(start, now) && r !in tried
      modifies dataSource
      ensures SweepProgress(start, dataSource.Contents(), now, encryption.Ring(), ivs, faults, tried + {r}, order + [r], count')
    {
      SweepStep(start, dataSource.Contents(), now, encryption.Ring(), ivs, faults, tried, order, count, r);
      var done := Complete(now, r, ivs(r), faults(r));
      count' := if done then count + 1 else count;
    }
  }

  /** A time-locked request whose unlock time has come. */
  predicate TimeHasCome(row: Request, now: Time) {
    row.status == TimeLocked && row.unlocksAt.Some? && row.unlocksAt.value <= now
  }

  /** What a sweep may do to one row. */
  predicate SweptRow(row: Request, row': Request, now: Time) {
    if row.status == AwaitingApprovals && row.approvalsExpireAt <= now then
      row' == row.(status := Expired, closedAt := Some(now), closedReason := Some(NoResponseInTime))
    else if TimeHasCome(row, now) then
      row' == row || row'.status == Completed
    else row' == row
  }

  lemma EachOnce(order: seq<RequestId>, due: set<RequestId>)
    requires Distinct(order, due)
    ensures forall r :: r in order <==> r in due
    ensures forall i, j :: 0 <= i < j < |order| ==> order[i] != order[j]
  {
    forall r ensures r in order <==> r in due {
      assert r in order <==> multiset(order)[r] > 0;
    }
    forall i, j | 0 <= i < j < |order| ensures order[i] != order[j] {
      OccursTwice(order, i, j);
    }
  }

  lemma OccursTwice(order: seq<RequestId>, i: nat, j: nat)
    requires i < j < |order|
    ensures order[i] == order[j] ==> multiset(order)[order[i]] >= 2
  {
    assert order == order[..j] + order[j..];
    assert order[..j][i] == order[i] && order[j..][0] == order[j];
    assert order[i] in order[..j] && order[j] in order[j..];
  }

  lemma SweptRows(start: Db, expired: Db, db: Db, now: Time, due: set<RequestId>)
    requires expired == ExpireOverdue(start, now) && due == DueRequests(expired, now) && OnlyTried(expired.requests, db.requests, due)
    ensures db.requests.Keys == start.requests.Keys
    ensures forall r :: r in start.requests ==> SweptRow(start.requests[r], db.requests[r], now)
    ensures forall r :: r in due <==> r in start.requests && TimeHasCome(start.requests[r], now)
  {
    ExpiredRows(start, now);
  }

  /** Where a sweep stands once the due requests `tried` were tried in this order. */
  ghost predicate SweepProgress(start: Db, db: Db, now: Time, ring: Keyring, ivs: RequestId -> WalletId -> Iv, faults: RequestId -> bool,
                                tried: set<RequestId>, order: seq<RequestId>, count: nat)
  {
    && Distinct(order, tried)
    && db == CompleteEach(start, now, order, ring, ivs, faults)
    && count == |CompletedAmong(db.requests, tried)|
    && OnlyTried(start.requests, db.requests, tried)
  }

  lemma SweepStart(start: Db, now: Time, ring: Keyring, ivs: RequestId -> WalletId -> Iv, faults: RequestId -> bool)
    ensures SweepProgress(start, start, now, ring, ivs, faults, {}, [], 0)
  {
    assert CompletedAmong(start.requests, {}) == {};
  }

  lemma SweepStep(start: Db, before: Db, now: Time, ring: Keyring, ivs: RequestId -> WalletId -> Iv, faults: RequestId -> bool,
                  tried: set<RequestId>, order: seq<RequestId>, count: nat, r: RequestId)
    requires SweepProgress(start, before, now, ring, ivs, faults, tried, order, count)
    requires r in DueRequests(start, now) && r !in tried
    ensures var (after, done) := Recovery.Complete(before, now, r, ring, ivs(r), faults(r));
            SweepProgress(start, after, now, ring, ivs, faults, tried + {r}, order + [r], count + if done then 1 else 0)
  {
    TriedOneMore(start, before, now, tried, r, ring, ivs(r), faults(r));
    CompleteAppended(start, now, order, r, ring, ivs, faults);
    StillDistinct(order, tried, r);
  }

  /** `order` lists each of `tried` once. */
  ghost predicate Distinct(order: seq<RequestId>, tried: set<RequestId>) {
    multiset(order) == multiset(tried)
  }

  lemma StillDistinct(order: seq<RequestId>, tried: set<RequestId>, r: RequestId)
    requires Distinct(order, tried) && r !in tried
    ensures Distinct(order + [r], tried + {r})
  {
  }

  /** The requests tried are completed or exactly as they were, and no other row changed. */
  ghost predicate OnlyTried(start: map<RequestId, Request>, now: map<RequestId, Request>, tried: set<RequestId>) {
    && now.Keys == start.Keys
    && (forall r :: r in start && r in tried ==> now[r].status == Completed || now[r] == start[r])
    && (forall r :: r in start && r !in tried ==> now[r] == start[r])
  }

  function OverdueIds(requests: map<RequestId, Request>, now: Time): set<RequestId> {
    set r | r in requests && requests[r].status == AwaitingApprovals && requests[r].approvalsExpireAt <= now
  }

  function DueIds(requests: map<RequestId, Request>, now: Time): set<RequestId> {
    set r | r in requests && IsDue(requests[r], now)
  }

  /** complete() called for each request of `order`, one after the other. */
  ghost function CompleteEach(db: Db, now: Time, order: seq<RequestId>, ring: Keyring, ivs: RequestId -> WalletId -> Iv, faults: RequestId -> bool): Db {
    if order == [] then db
    else
      var last := order[|order| - 1];
      Recovery.Complete(CompleteEach(db, now, order[..|order| - 1], ring, ivs, faults), now, last, ring, ivs(last), faults(last)).0
  }

  ghost function CompletedAmong(requests: map<RequestId, Request>, due: set<RequestId>): set<RequestId> {
    set r | r in due && r in requests && requests[r].status == Completed
  }

  lemma CompleteAppended(db: Db, now: Time, order: seq<RequestId>, r: RequestId, ring: Keyring,
                         ivs: RequestId -> WalletId -> Iv, faults: RequestId -> bool)
    ensures CompleteEach(db, now, order + [r], ring, ivs, faults)
         == Recovery.Complete(CompleteEach(db, now, order, ring, ivs, faults), now, r, ring, ivs(r), faults(r)).0
  {
    assert (order + [r])[..|order|] == order;
  }

  /** A due request that has not been tried yet is still due, and trying it changes nothing but its row and the count. */
  lemma TriedOneMore(start: Db, before: Db, now: Time, tried: set<RequestId>, r: RequestId, ring: Keyring, ivs: WalletId -> Iv, fault: bool)
    requires OnlyTried(start.requests, before.requests, tried) && r in DueRequests(start, now) && r !in tried
    ensures var (after, done) := Recovery.Complete(before, now, r, ring, ivs, fault);
            && OnlyTried(start.requests, after.requests, tried + {r})
            && |CompletedAmong(after.requests, tried + {r})| == |CompletedAmong(before.requests, tried)| + if done then 1 else 0
  {
    var (after, done) := Recovery.Complete(before, now, r, ring, ivs, fault);
    CompleteTouchesOne(before, now, r, ring, ivs, fault);
    CountOneMore(before.requests, after.requests, tried, r, done);
  }

  lemma CountOneMore(before: map<RequestId, Request>, after: map<RequestId, Request>, counted: set<RequestId>, r: RequestId, done: bool)
    requires r !in counted && r in before && r in after && after.Keys == before.Keys
    requires forall q :: q in before && q != r ==> after[q] == before[q]
    requires done <==> after[r].status == Completed
    ensures |CompletedAmong(after, counted + {r})| == |CompletedAmong(before, counted)| + if done then 1 else 0
  {
    if done {
      assert CompletedAmong(after, counted + {r}) == CompletedAmong(before, counted) + {r};
    } else {
      assert CompletedAmong(after, counted + {r}) == CompletedAmong(before, counted);
    }
  }

  /** One call of complete() changes its own request only, to Completed or back to what it was. */
  lemma CompleteTouchesOne(db: Db, now: Time, rid: RequestId, ring: Keyring, ivs: WalletId -> Iv, fault: bool)
    requires rid in db.requests && IsDue(db.requests[rid], now)
    ensures var (db', done) := Recovery.Complete(db, now, rid, ring, ivs, fault);
            && db'.requests.Keys == db.requests.Keys
            && (forall q :: q in db.requests && q != rid ==> db'.requests[q] == db.requests[q])
            && (done <==> db'.requests[rid].status == Completed)
            && (!done ==> db'.requests[rid] == db.requests[rid])
  {
  }

  lemma NewBallotsGrow(approvals: map<Ballot, Approval>, rid: RequestId, voters: set<GuardianId>, g: GuardianId, tokens: GuardianId -> Token)
    ensures approvals + NewBallots(rid, voters + {g}, tokens)
         == (approvals + NewBallots(rid, voters, tokens))[Ballot(rid, g) := Approval(Some(Sha256(tokens(g))), Pending, None)]
  {
  }

  lemma CloseNone(db: Db, status: Status, reason: ClosedReason, now: Time)
    ensures CloseAll(db, {}, status, reason, now) == db
  {
    assert ClearTokens(db.approvals, {}) == db.approvals;
  }

  lemma CloseOneMore(db: Db, closed: set<RequestId>, r: RequestId, status: Status, reason: ClosedReason, now: Time)
    ensures CloseAll(CloseAll(db, closed, status, reason, now), {r}, status, reason, now) == CloseAll(db, closed + {r}, status, reason, now)
  {
    var once := CloseAll(db, closed, status, reason, now);
    assert ClearTokens(once.approvals, {r}) == ClearTokens(db.approvals, closed + {r});
  }
}
