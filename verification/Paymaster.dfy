/** The paymaster's answer folded into an operation, and the most an operation can cost. */
module Paymaster {
  import opened Prelude
  import opened BigEndian
  import opened UserOpFormat

  /** A v0.7 sponsorship result: every field may be missing. */
  datatype Sponsorship = Sponsorship(
    paymaster: Option<Bytes>,
    paymasterVerificationGasLimit: Option<int>,
    paymasterPostOpGasLimit: Option<int>,
    paymasterData: Option<Bytes>,
    verificationGasLimit: Option<int>,
    callGasLimit: Option<int>,
    preVerificationGas: Option<int>)

  /** The packed fields to assign. */
  datatype Sponsored = Sponsored(paymasterAndData: Bytes, accountGasLimits: Bytes, preVerificationGas: int)

  datatype SponsorError = NoSponsorship | Malformed(error: FormatError)

  function MergeSponsorship(op: PackedUserOp, r: Sponsorship): Result<Sponsored, SponsorError> {
    if r.paymaster.None? then Err(NoSponsorship)
    else
      match Unpack128(op.accountGasLimits)
      case Err(e) => Err(Malformed(e))
      case Ok(own) =>
        match PackPaymasterAndData(r.paymaster.value, OrElse(r.paymasterVerificationGasLimit, 0),
                                   OrElse(r.paymasterPostOpGasLimit, 0), OrElse(r.paymasterData, []))
        case Err(e) => Err(Malformed(e))
        case Ok(pmd) =>
          match Pack128(OrElse(r.verificationGasLimit, own.0), OrElse(r.callGasLimit, own.1))
          case Err(e) => Err(Malformed(e))
          case Ok(limits) => Ok(Sponsored(pmd, limits, OrElse(r.preVerificationGas, op.preVerificationGas)))
  }

  /** Object.assign(userOp, sponsored) */
  function Assigned(op: PackedUserOp, s: Sponsored): PackedUserOp {
    op.(paymasterAndData := s.paymasterAndData, accountGasLimits := s.accountGasLimits, preVerificationGas := s.preVerificationGas)
  }

  predicate OptionFits(n: Option<int>) { n.Some? ==> IsUint128(n.value) }

  /** A sponsorship is taken exactly when it names an address and every limit it gives is a uint128. */
  lemma MergesIff(op: PackedUserOp, r: Sponsorship)
    ensures MergeSponsorship(op, r).Ok? <==>
              && r.paymaster.Some? && |r.paymaster.value| == ADDRESS_LENGTH && |op.accountGasLimits| == 32
              && OptionFits(r.paymasterVerificationGasLimit) && OptionFits(r.paymasterPostOpGasLimit)
              && OptionFits(r.verificationGasLimit) && OptionFits(r.callGasLimit)
  {
    if r.paymaster.Some? && |op.accountGasLimits| == 32 {
      PackUnpacked(op.accountGasLimits);
      PaymasterFields(r.paymaster.value, OrElse(r.paymasterVerificationGasLimit, 0),
                      OrElse(r.paymasterPostOpGasLimit, 0), OrElse(r.paymasterData, []));
    }
  }

  /**
   * Unpacking the merged operation gives the paymaster's own fields, the limits it re-estimated, the caller's
   * limits where it gave none, and the caller's every other field; a paymaster field of the caller is replaced.
   */
  lemma MergedUnpacks(op: PackedUserOp, r: Sponsorship)
    requires WellFormed(op.(paymasterAndData := [])) && MergeSponsorship(op, r).Ok?
    requires r.preVerificationGas.Some? ==> r.preVerificationGas.value >= 0
    ensures var merged, before := ToRpc(Assigned(op, MergeSponsorship(op, r).value)), ToRpc(op.(paymasterAndData := [])).value;
            merged == Ok(before.(
              paymaster := r.paymaster,
              paymasterVerificationGasLimit := Some(OrElse(r.paymasterVerificationGasLimit, 0)),
              paymasterPostOpGasLimit := Some(OrElse(r.paymasterPostOpGasLimit, 0)),
              paymasterData := Some(OrElse(r.paymasterData, [])),
              verificationGasLimit := OrElse(r.verificationGasLimit, before.verificationGasLimit),
              callGasLimit := OrElse(r.callGasLimit, before.callGasLimit),
              preVerificationGas := OrElse(r.preVerificationGas, before.preVerificationGas)))
  {
    var own := Unpack128(op.accountGasLimits).value;
    PaymasterFields(r.paymaster.value, OrElse(r.paymasterVerificationGasLimit, 0),
                    OrElse(r.paymasterPostOpGasLimit, 0), OrElse(r.paymasterData, []));
    UnpackPacked(OrElse(r.verificationGasLimit, own.0), OrElse(r.callGasLimit, own.1));
  }

  // ---------------------------------------------------------------- the cost bound

  /** A paymaster field too short for its header counts as no paymaster gas. */
  function MaxGasCost(op: PackedUserOp): Result<int, FormatError> {
    match (Unpack128(op.accountGasLimits), Unpack128(op.gasFees))
    case (Err(e), _) => Err(e)
    case (_, Err(e)) => Err(e)
    case (Ok(limits), Ok(fees)) =>
      if |op.paymasterAndData| < PAYMASTER_HEADER then Ok((limits.0 + limits.1 + op.preVerificationGas) * fees.1)
      else
        match ToRpc(op)
        case Err(e) => Err(e)
        case Ok(rpc) =>
          Ok((limits.0 + limits.1 + op.preVerificationGas
              + (OrElse(rpc.paymasterVerificationGasLimit, 0) + OrElse(rpc.paymasterPostOpGasLimit, 0))) * fees.1)
  }

  /** What an execution used, and the price per gas it was charged. */
  datatype Usage = Usage(verification: nat, call: nat, preVerification: nat, paymasterVerification: nat, paymasterPostOp: nat, price: nat)

  predicate Within(u: Usage, rpc: RpcUserOp) {
    && u.verification <= rpc.verificationGasLimit && u.call <= rpc.callGasLimit
    && u.preVerification <= rpc.preVerificationGas
    && u.paymasterVerification <= OrElse(rpc.paymasterVerificationGasLimit, 0)
    && u.paymasterPostOp <= OrElse(rpc.paymasterPostOpGasLimit, 0)
    && u.price <= rpc.maxFeePerGas
  }

  function Cost(u: Usage): nat {
    (u.verification + u.call + u.preVerification + u.paymasterVerification + u.paymasterPostOp) * u.price
  }

  /** For a well-formed operation the figure is the least upper bound of what any execution within its limits costs. */
  lemma MaxGasCostIsTight(op: PackedUserOp)
    requires WellFormed(op)
    ensures MaxGasCost(op).Ok?
    ensures forall u: Usage :: Within(u, ToRpc(op).value) ==> Cost(u) <= MaxGasCost(op).value
    ensures exists u: Usage :: Within(u, ToRpc(op).value) && Cost(u) == MaxGasCost(op).value
  {
    PackedRoundTrip(op);
    var rpc := ToRpc(op).value;
    var full := Usage(rpc.verificationGasLimit, rpc.callGasLimit, rpc.preVerificationGas,
                      OrElse(rpc.paymasterVerificationGasLimit, 0), OrElse(rpc.paymasterPostOpGasLimit, 0), rpc.maxFeePerGas);
    assert Cost(full) == MaxGasCost(op).value;
    assert Within(full, rpc);
    forall u: Usage | Within(u, rpc)
      ensures Cost(u) <= Cost(full)
    {
      Monotone(u.verification + u.call + u.preVerification + u.paymasterVerification + u.paymasterPostOp,
               full.verification + full.call + full.preVerification + full.paymasterVerification + full.paymasterPostOp,
               u.price, full.price);
    }
  }

  lemma Monotone(a: nat, b: nat, p: nat, q: nat)
    requires a <= b && p <= q
    ensures a * p <= b * q
  {
    assert a * p <= b * p <= b * q;
  }
}
