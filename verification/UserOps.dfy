/** Building a user operation: screened, sponsored before it is hashed, and hashed as it is returned. */
module UserOps {
  import opened Prelude
  import opened BigEndian
  import opened UserOpFormat
  import opened Paymaster
  import opened UserOpHash
  import opened Destinations
  import opened Sanctions

  /** How an address is written for screening. */
  function AddressText(a: Address): string { "0x" + HexOf(a) }

  function HexDigit(n: int): char
    requires 0 <= n < 16
  {
    if n < 10 then '0' + n as char else 'a' + (n - 10) as char
  }

  function HexOf(bytes: Bytes): (text: string)
    ensures |text| == 2 * |bytes|
  {
    if bytes == [] then "" else [HexDigit(bytes[0] / 16), HexDigit(bytes[0] % 16)] + HexOf(bytes[1..])
  }

  lemma {:induction false} HexInjective(a: Bytes, b: Bytes)
    requires HexOf(a) == HexOf(b)
    ensures a == b
  {
    assert |a| == |b|;
    if a != [] {
      assert HexOf(a)[0] == HexOf(b)[0] && HexOf(a)[1] == HexOf(b)[1];
      assert HexOf(a)[2..] == HexOf(a[1..]) && HexOf(b)[2..] == HexOf(b[1..]);
      HexInjective(a[1..], b[1..]);
      assert a == [a[0]] + a[1..] && b == [b[0]] + b[1..];
    }
  }

  lemma TextIsLower(a: Address)
    ensures Lower(AddressText(a)) == AddressText(a)
  {
    HexIsLower(a);
    assert Lower(AddressText(a)) == Lower("0x") + Lower(HexOf(a));
    assert Lower("0x") == "0x";
  }

  lemma {:induction false} HexIsLower(bytes: Bytes)
    ensures forall i :: 0 <= i < |HexOf(bytes)| ==> !('A' <= HexOf(bytes)[i] <= 'Z')
    ensures Lower(HexOf(bytes)) == HexOf(bytes)
  {
    if bytes != [] { HexIsLower(bytes[1..]); }
  }

  /** One row of the list blocks at most one address, however the row spells it. */
  lemma RowBlocksOneAddress(row: Row, a: Address, b: Address)
    requires RowNames(row, AddressText(a)) && RowNames(row, AddressText(b))
    ensures a == b
  {
    TextIsLower(a);
    TextIsLower(b);
    assert AddressText(a)[2..] == HexOf(a) && AddressText(b)[2..] == HexOf(b);
    HexInjective(a, b);
  }

  datatype Screening = Accepted | BadRequest | Blocked(dest: Address, verdict: Verdict)

  /** Every destination is clear at this instant. */
  ghost predicate AllClear(t: Lists, now: Time, maxStalenessMs: nat, call: AccountCall) {
    forall a :: IsDestination(call, a) ==> Screen(t, now, maxStalenessMs, AddressText(a)) == Clear
  }

  datatype BuildError = BadTarget | NotScreened(screening: Screening) | Format(format: FormatError) | Sponsor(sponsor: SponsorError) | Hash(hash: HashError)

  datatype Built = Built(userOp: PackedUserOp, userOpHash: Word)

  /** The caller's wishes and the chain's answers. */
  datatype BuildRequest = BuildRequest(
    sender: Bytes, target: Bytes, callData: Bytes, value: nat, initCode: Bytes,
    nonce: nat, estimatedGas: int, gasPrice: nat,
    sponsored: bool, sponsorship: Sponsorship)

  const DUMMY_SIGNATURE: Bytes := seq(15, _ => 0xff) + [0xf0] + seq(16, _ => 0x00) + [0x7a] + seq(31, _ => 0xaa) + [0x1c]

  /** Fee and gas limits before any sponsorship. */
  function OwnLimits(r: BuildRequest): Result<Bytes, FormatError> {
    Pack128(if r.initCode != [] then 500_000 else 150_000, r.estimatedGas + 50_000)
  }

  function OwnFees(r: BuildRequest): Result<Bytes, FormatError> { Pack128(r.gasPrice / 2, r.gasPrice * 2) }

  /** The operation before any sponsorship. */
  function OwnOp(r: BuildRequest, accountCallData: Bytes, signature: Bytes): PackedUserOp
    requires OwnLimits(r).Ok? && OwnFees(r).Ok?
  {
    PackedUserOp(r.sender, r.nonce, r.initCode, accountCallData, OwnLimits(r).value, 60_000, OwnFees(r).value, [], signature)
  }

  /** The unsigned operation that carries the caller's wishes and the sponsorship, if there is one. */
  ghost function Planned(r: BuildRequest, accountCallData: Bytes): Option<PackedUserOp> {
    if |r.sender| != ADDRESS_LENGTH || OwnLimits(r).Err? || OwnFees(r).Err? then None
    else
      var own := OwnOp(r, accountCallData, []);
      if !r.sponsored then Some(own)
      else if WellFormed(own) && MergeSponsorship(own, r.sponsorship).Ok? then Some(Assigned(own, MergeSponsorship(own, r.sponsorship).value))
      else None
  }

  /** A sponsored plan is well formed, or its gas does not fit the hash. */
  lemma PlannedIsWellFormed(r: BuildRequest, accountCallData: Bytes)
    requires Planned(r, accountCallData).Some? && Encodable(Planned(r, accountCallData).value)
    requires r.sponsored || r.initCode == [] || |r.initCode| >= ADDRESS_LENGTH
    ensures WellFormed(Planned(r, accountCallData).value)
  {
    if r.sponsored {
      PaymasterFields(r.sponsorship.paymaster.value, OrElse(r.sponsorship.paymasterVerificationGasLimit, 0),
                      OrElse(r.sponsorship.paymasterPostOpGasLimit, 0), OrElse(r.sponsorship.paymasterData, []));
    }
  }

  /** The target and the parties of its inner call are clear. */
  ghost predicate TargetClear(t: Lists, now: Time, maxStalenessMs: nat, target: Address, data: Inner) {
    data != BadInnerArguments
    && forall a :: a == target || a in Parties(data) ==> Screen(t, now, maxStalenessMs, AddressText(a)) == Clear
  }

  /** An execute call can be screened and is all clear exactly when its target and the parties of its inner call are. */
  lemma ExecuteIsClearIff(t: Lists, now: Time, maxStalenessMs: nat, target: Address, data: Inner)
    ensures IsScreenable(Execute(target, data)) && AllClear(t, now, maxStalenessMs, Execute(target, data))
            <==> TargetClear(t, now, maxStalenessMs, target, data)
  {
    var call := Execute(target, data);
    assert CallsOf(call) == [Call(target, data)];
    assert CallsOf(call)[0].data == data;
    forall a ensures IsDestination(call, a) <==> a == target || a in Parties(data) {
      if a == target || a in Parties(data) { assert Names(CallsOf(call)[0], a); }
    }
  }

  class UserOpService {
    const sanctionsService: SanctionsService
    const entryPoint: Bytes
    const chainId: nat
    const keccak: KeccakFn
    /** The ABI coder for execute, and the decoder of account call data. */
    const encodeExecute: (Address, nat, Bytes) -> Bytes
    const decode: Bytes -> AccountCall
    /** The decoder of inner call data. */
    const inner: Bytes -> Inner

    /** Decoding the encoding of an execute call gives the call back. */
    ghost predicate CoderRoundTrips() {
      forall t: Address, v: nat, d: Bytes :: |t| == ADDRESS_LENGTH ==> decode(encodeExecute(t, v, d)) == Execute(t, inner(d))
    }

    constructor (sanctionsService: SanctionsService, entryPoint: Bytes, chainId: nat, keccak: KeccakFn,
                 encodeExecute: (Address, nat, Bytes) -> Bytes, decode: Bytes -> AccountCall, inner: Bytes -> Inner)
      ensures this.sanctionsService == sanctionsService && this.entryPoint == entryPoint && this.chainId == chainId
      ensures this.keccak == keccak && this.encodeExecute == encodeExecute && this.decode == decode && this.inner == inner
    {
      this.sanctionsService := sanctionsService;
      this.entryPoint := entryPoint;
      this.chainId := chainId;
      this.keccak := keccak;
      this.encodeExecute := encodeExecute;
      this.decode := decode;
      this.inner := inner;
    }

    /** Accepts call data exactly when it can be read and every destination in it is clear. */
    method AssertNotSanctioned(now: Time, accountCallData: Bytes) returns (r: Screening)
      ensures var call := decode(accountCallData);
              && (r == Accepted <==> IsScreenable(call) && AllClear(sanctionsService.Contents(), now, sanctionsService.maxStalenessMs, call))
              && (r == BadRequest <==> !IsScreenable(call))
              && (r.Blocked? ==> IsDestination(call, r.dest)
                                 && r.verdict == Screen(sanctionsService.Contents(), now, sanctionsService.maxStalenessMs, AddressText(r.dest)) != Clear)
    {
      var destinations := ExtractDestinations(decode(accountCallData));
      if destinations.Err? {
        return BadRequest;
      }
      for i := 0 to |destinations.value|
        invariant forall k :: 0 <= k < i ==>
          Screen(sanctionsService.Contents(), now, sanctionsService.maxStalenessMs, AddressText(destinations.value[k])) == Clear
      {
        var verdict := sanctionsService.ScreenAddress(now, AddressText(destinations.value[i]));
        if verdict != Clear {
          return Blocked(destinations.value[i], verdict);
        }
      }
      return Accepted;
    }

    /**
     * Succeeds exactly on a readable target whose destinations are all clear and a plan the ABI coder can hash;
     * what comes out is that plan, unsigned, and the hash is the hash of what comes out.
     */
    method BuildUserOp(now: Time, request: BuildRequest) returns (r: Result<Built, BuildError>)
      ensures var data := encodeExecute(request.target, request.value, request.callData);
              var plan := Planned(request, data);
              && (r.Ok? <==> && |request.target| == ADDRESS_LENGTH
                             && IsScreenable(decode(data))
                             && AllClear(sanctionsService.Contents(), now, sanctionsService.maxStalenessMs, decode(data))
                             && plan.Some?
                             && CalculateUserOpHash(keccak, plan.value, entryPoint, chainId).Ok?)
              && (r.Ok? ==> && r.value.userOp == plan.value
                            && CalculateUserOpHash(keccak, r.value.userOp, entryPoint, chainId) == Ok(r.value.userOpHash)
                            && r.value.userOp.callData == data && r.value.userOp.signature == [])
      // the target itself and the parties of its inner call were screened
      ensures r.Ok? && CoderRoundTrips() ==>
                TargetClear(sanctionsService.Contents(), now, sanctionsService.maxStalenessMs, request.target, inner(request.callData))
      ensures r.Ok? && (request.sponsored || request.initCode == [] || |request.initCode| >= ADDRESS_LENGTH) ==> WellFormed(r.value.userOp)
    {
      if |request.target| != ADDRESS_LENGTH {
        return Err(BadTarget);
      }
      var accountCallData := encodeExecute(request.target, request.value, request.callData);
      var screening := AssertNotSanctioned(now, accountCallData);
      if screening != Accepted {
        return Err(NotScreened(screening));
      }
      ExecuteIsClearIff(sanctionsService.Contents(), now, sanctionsService.maxStalenessMs, request.target, inner(request.callData));
      r := Assemble(request, accountCallData);
    }

    /** Limits and fees, the sponsorship, and only then the hash. */
    method Assemble(request: BuildRequest, accountCallData: Bytes) returns (r: Result<Built, BuildError>)
      ensures var plan := Planned(request, accountCallData);
              && (r.Ok? <==> plan.Some? && CalculateUserOpHash(keccak, plan.value, entryPoint, chainId).Ok?)
              && (r.Ok? ==> && r.value.userOp == plan.value
                            && CalculateUserOpHash(keccak, r.value.userOp, entryPoint, chainId) == Ok(r.value.userOpHash)
                            && r.value.userOp.callData == accountCallData && r.value.userOp.signature == [])
      ensures r.Ok? && (request.sponsored || request.initCode == [] || |request.initCode| >= ADDRESS_LENGTH) ==> WellFormed(r.value.userOp)
    {
      var limits, fees := OwnLimits(request), OwnFees(request);
      if |request.sender| != ADDRESS_LENGTH || limits.Err? || fees.Err? {
        return Err(Format(if |request.sender| != ADDRESS_LENGTH then BadAddress else if limits.Err? then limits.error else fees.error));
      }
      var userOp := OwnOp(request, accountCallData, DUMMY_SIGNATURE);
      if request.sponsored {
        assert userOp.(paymasterAndData := []) == userOp;
        var sponsored := SponsorUserOp(userOp, request.sponsorship);
        if sponsored.Err? {
          return Err(Sponsor(sponsored.error));
        }
        userOp := Assigned(userOp, sponsored.value);
      }
      userOp := userOp.(signature := []);
      var hash := CalculateUserOpHash(keccak, userOp, entryPoint, chainId);
      if hash.Err? {
        return Err(Hash(hash.error));
      }
      if request.sponsored || request.initCode == [] || |request.initCode| >= ADDRESS_LENGTH {
        PlannedIsWellFormed(request, accountCallData);
      }
      return Ok(Built(userOp, hash.value));
    }

    /** Asks with a placeholder signature and no paymaster; the answer is folded in. */
    method SponsorUserOp(userOp: PackedUserOp, answer: Sponsorship) returns (r: Result<Sponsored, SponsorError>)
      ensures r.Ok? <==> WellFormed(userOp.(paymasterAndData := [])) && MergeSponsorship(userOp, answer).Ok?
      ensures r.Ok? ==> r == MergeSponsorship(userOp, answer)
    {
      var asked := ToRpcUserOp(userOp.(paymasterAndData := [], signature := DUMMY_SIGNATURE));
      PackedRoundTrip(userOp.(paymasterAndData := [], signature := DUMMY_SIGNATURE));
      if asked.Err? {
        return Err(Malformed(asked.error));
      }
      return MergeSponsorship(userOp, answer);
    }
  }

  // ---------------------------------------------------------------- screening over any history of syncs

  /** Screening as AssertNotSanctioned does it, after a history of syncs. */
  ghost predicate AcceptsAfter(log: seq<Attempt>, now: Time, maxStalenessMs: nat, call: AccountCall) {
    IsScreenable(call) && AllClear(AfterAll(log), now, maxStalenessMs, call)
  }

  /**
   * Accepted call data means a fresh list that names none of its destinations, with one exception: call data
   * that makes no call at all is accepted whatever the list's state.
   */
  lemma AcceptedIff(log: seq<Attempt>, now: Time, maxStalenessMs: nat, call: AccountCall)
    ensures AcceptsAfter(log, now, maxStalenessMs, call) <==>
              && IsScreenable(call)
              && (CallsOf(call) != [] ==>
                  && IsFresh(log, now, maxStalenessMs)
                  && forall a :: IsDestination(call, a) ==> !NamesAddress(log[|log| - 1].rows, AddressText(a)))
  {
    forall a | IsDestination(call, a)
      ensures Screen(AfterAll(log), now, maxStalenessMs, AddressText(a)) == Clear <==>
                IsFresh(log, now, maxStalenessMs) && !NamesAddress(log[|log| - 1].rows, AddressText(a))
    {
      ClearIff(log, now, maxStalenessMs, AddressText(a));
    }
    if CallsOf(call) != [] {
      assert Names(CallsOf(call)[0], CallsOf(call)[0].to);
      assert IsDestination(call, CallsOf(call)[0].to);
    }
  }

  /** The exception, concretely: an empty batch passes although no list was ever synced. */
  lemma EmptyBatchIsNotScreened(now: Time, maxStalenessMs: nat)
    ensures AcceptsAfter([], now, maxStalenessMs, ExecuteBatch([], [])) && !IsFresh([], now, maxStalenessMs)
  {
    AcceptedIff([], now, maxStalenessMs, ExecuteBatch([], []));
  }
}
