/** The rows of the custody database, and the data source object that holds the tables. */
module Tables {
  import opened Prelude
  import opened Encryption

  type Time = nat
  type WalletId = nat
  type GuardianId = nat
  type RequestId = nat
  type Token = string

  /** sha256 of an e-mailed token, taken as injective; only the hash is stored. */
  datatype TokenHash = Sha256(token: Token)

  datatype User = User(
    email: string,
    workosUserId: Option<string>,
    emailVerified: bool,
    lockedAt: Option<Time>,
    sessionsValidAfter: Option<Time>)

  datatype GuardianStatus = PendingInvite | Active | Removed

  datatype Guardian = Guardian(
    ownerUserId: UserId,
    email: string,
    status: GuardianStatus,
    inviteTokenHash: Option<TokenHash>,
    inviteExpiresAt: Option<Time>,
    confirmedAt: Option<Time>)

  datatype Status = AwaitingApprovals | TimeLocked | Completing | Completed | Cancelled | Declined | Expired {
    /** OPEN_STATUSES */
    predicate IsOpen() { AwaitingApprovals? || TimeLocked? || Completing? }

    /** The statuses a cancel link or a sign-in can still stop. */
    predicate IsStoppable() { AwaitingApprovals? || TimeLocked? }
  }

  datatype ClosedReason = GuardianDeclined | NoResponseInTime | CancelledByOwner | OwnerSignedIn | Recovered(wallets: nat)

  datatype Request = Request(
    oldUserId: UserId,
    newUserId: UserId,
    status: Status,
    threshold: nat,
    cancelTokenHash: TokenHash,
    approvalsExpireAt: Time,
    unlocksAt: Option<Time>,
    closedAt: Option<Time>,
    closedReason: Option<ClosedReason>,
    createdAt: Time)

  datatype Decision = Pending | Approved | Refused

  /** The unique index of the approvals table: one vote per request and guardian. */
  datatype Ballot = Ballot(requestId: RequestId, guardianId: GuardianId)

  datatype Approval = Approval(tokenHash: Option<TokenHash>, decision: Decision, decidedAt: Option<Time>)

  datatype Family = Evm | Solana

  /** An account address: the one a secret key derives, or one that no known key derives. */
  datatype Address = Derived(family: Family, secret: string) | Unrelated(text: string)

  datatype SigningMode = Software | Hsm

  datatype Wallet = Wallet(
    userId: UserId,
    address: Address,
    chain: string,
    signingMode: SigningMode,
    encryptedPrivateKey: Option<Ciphertext>,
    encryptionKeyId: Option<KeyId>)

  function FamilyOf(chain: string): Option<Family> {
    var c := Lower(chain);
    if c == "ethereum" || c == "polygon" || c == "arbitrum" || c == "optimism" || c == "base" then Some(Evm)
    else if c == "solana" then Some(Solana)
    else None
  }

  /** assertKeyMatchesAddress: unknown chains are refused, not waved through. */
  predicate KeyMatchesAddress(chain: string, plaintext: string, address: Address) {
    match FamilyOf(chain)
    case None => false
    case Some(family) => address == Derived(family, plaintext)
  }

  /** The address is the one that this key has on this chain. */
  predicate KeyOfAddress(chain: string, key: string, address: Address) {
    address.Derived? && address.secret == key
    && (match address.family
        case Evm => Lower(chain) in {"ethereum", "polygon", "arbitrum", "optimism", "base"}
        case Solana => Lower(chain) == "solana")
  }

  lemma KeyMatchesIff(chain: string, key: string, address: Address)
    ensures KeyMatchesAddress(chain, key, address) <==> KeyOfAddress(chain, key, address)
  {
    var c := Lower(chain);
    assert c == "solana" ==> c[0] == 's';
    assert c == "ethereum" || c == "polygon" || c == "arbitrum" || c == "optimism" || c == "base" ==> c[0] != 's';
  }

  datatype Db = Db(
    users: map<UserId, User>,
    guardians: map<GuardianId, Guardian>,
    requests: map<RequestId, Request>,
    approvals: map<Ballot, Approval>,
    wallets: map<WalletId, Wallet>)

  class DataSource {
    var users: map<UserId, User>
    var guardians: map<GuardianId, Guardian>
    var requests: map<RequestId, Request>
    var approvals: map<Ballot, Approval>
    var wallets: map<WalletId, Wallet>

    ghost function Contents(): Db
      reads this
    {
      Db(users, guardians, requests, approvals, wallets)
    }
  }

  /** The key a wallet's ciphertext holds for the wallet's own owner, whichever master key sealed it. */
  function Secret(w: Wallet): Option<string> {
    if w.encryptedPrivateKey.Some? && w.encryptedPrivateKey.value.Sealed?
       && w.encryptedPrivateKey.value.key.userId == w.userId
    then Some(w.encryptedPrivateKey.value.plaintext)
    else None
  }

  /** "A row's key id names the key that sealed it"; HSM rows hold neither. */
  predicate TagNamesKey(w: Wallet) {
    && (w.signingMode == Hsm ==> w.encryptedPrivateKey.None? && w.encryptionKeyId.None?)
    && (w.encryptedPrivateKey.Some? && w.encryptionKeyId.Some? ==>
          && w.encryptedPrivateKey.value.Sealed?
          && w.encryptedPrivateKey.value.key == UserKey(w.encryptionKeyId.value.master, w.userId))
  }
}
