/**
 * The two shapes of a user operation: the packed one of EntryPoint v0.7 and the JSON-RPC one of ERC-7769, byte
 * by byte. Addresses and data are byte strings; numbers are integers, since either shape may arrive malformed.
 */
module UserOpFormat {
  import opened Prelude
  import opened BigEndian

  datatype PackedUserOp = PackedUserOp(
    sender: Bytes,
    nonce: int,
    initCode: Bytes,
    callData: Bytes,
    accountGasLimits: Bytes,
    preVerificationGas: int,
    gasFees: Bytes,
    paymasterAndData: Bytes,
    signature: Bytes)

  datatype RpcUserOp = RpcUserOp(
    sender: Bytes,
    nonce: int,
    factory: Option<Bytes>,
    factoryData: Option<Bytes>,
    callData: Bytes,
    callGasLimit: int,
    verificationGasLimit: int,
    preVerificationGas: int,
    maxFeePerGas: int,
    maxPriorityFeePerGas: int,
    paymaster: Option<Bytes>,
    paymasterVerificationGasLimit: Option<int>,
    paymasterPostOpGasLimit: Option<int>,
    paymasterData: Option<Bytes>,
    signature: Bytes)

  datatype FormatError = BadAddress | NotUint128 | NotBytes32 | NegativeQuantity | ShortInitCode | ShortPaymasterHeader

  const TWO128 := 0x1_0000_0000_0000_0000_0000_0000_0000_0000

  const ADDRESS_LENGTH := 20
  const PAYMASTER_HEADER := 52

  predicate IsUint128(n: int) { 0 <= n < TWO128 }

  function OrElse<T>(o: Option<T>, d: T): T { if o.Some? then o.value else d }

  // ---------------------------------------------------------------- two uint128 in one word

  /** hi in the first 16 bytes, lo in the last 16. */
  function Pack128(hi: int, lo: int): Result<Bytes, FormatError> {
    if hi < 0 || lo < 0 || hi >= TWO128 || lo >= TWO128 then Err(NotUint128)
    else Ok(ToBytes(hi, 16) + ToBytes(lo, 16))
  }

  function Unpack128(packed: Bytes): Result<(nat, nat), FormatError> {
    if |packed| != 32 then Err(NotBytes32) else Ok((ToNat(packed[..16]), ToNat(packed[16..32])))
  }

  lemma Uint128Width()
    ensures Pow256(16) == TWO128
  {
    assert Pow256(4) == 0x1_0000_0000;
    assert Pow256(8) == 0x1_0000_0000_0000_0000;
    assert Pow256(12) == 0x1_0000_0000_0000_0000_0000_0000;
  }

  /** Packing succeeds on pairs of uint128 and on nothing else, and unpacking then returns the pair. */
  lemma UnpackPacked(hi: int, lo: int)
    ensures Pack128(hi, lo).Ok? <==> IsUint128(hi) && IsUint128(lo)
    ensures Pack128(hi, lo).Ok? ==> |Pack128(hi, lo).value| == 32 && Unpack128(Pack128(hi, lo).value) == Ok((hi, lo))
  {
    if IsUint128(hi) && IsUint128(lo) {
      Uint128Width();
      WriteRead(hi, 16);
      WriteRead(lo, 16);
      var packed := ToBytes(hi, 16) + ToBytes(lo, 16);
      assert packed[..16] == ToBytes(hi, 16) && packed[16..32] == ToBytes(lo, 16);
    }
  }

  /** Unpacking succeeds on 32-byte words and on nothing else, and packing then returns the word. */
  lemma PackUnpacked(word: Bytes)
    ensures Unpack128(word).Ok? <==> |word| == 32
    ensures |word| == 32 ==>
              var (hi, lo) := Unpack128(word).value;
              IsUint128(hi) && IsUint128(lo) && Pack128(hi, lo) == Ok(word)
  {
    if |word| == 32 {
      HalfWord(word[..16]);
      HalfWord(word[16..32]);
      assert word == word[..16] + word[16..32];
    }
  }

  lemma HalfWord(half: Bytes)
    requires |half| == 16
    ensures IsUint128(ToNat(half)) && ToBytes(ToNat(half), 16) == half
  {
    Uint128Width();
    ToNatBound(half);
    ReadWrite(half);
  }

  // ---------------------------------------------------------------- conversions

  /** toBeHex(n, 16): sixteen bytes, or an error. */
  function Uint128Bytes(n: int): Result<Bytes, FormatError> {
    if n < 0 then Err(NegativeQuantity) else if n >= TWO128 then Err(NotUint128) else Ok(ToBytes(n, 16))
  }

  function PackPaymasterAndData(paymaster: Bytes, verificationGasLimit: int, postOpGasLimit: int, paymasterData: Bytes): Result<Bytes, FormatError> {
    if |paymaster| != ADDRESS_LENGTH then Err(BadAddress)
    else
      match Uint128Bytes(verificationGasLimit)
      case Err(e) => Err(e)
      case Ok(v) =>
        match Uint128Bytes(postOpGasLimit)
        case Err(e) => Err(e)
        case Ok(p) => Ok(paymaster + v + p + paymasterData)
  }

  /** What toRpcUserOp returns. */
  function ToRpc(op: PackedUserOp): Result<RpcUserOp, FormatError> {
    if |op.accountGasLimits| != 32 || |op.gasFees| != 32 then Err(NotBytes32)
    else if |op.sender| != ADDRESS_LENGTH then Err(BadAddress)
    else if op.nonce < 0 || op.preVerificationGas < 0 then Err(NegativeQuantity)
    else if 0 < |op.initCode| < ADDRESS_LENGTH then Err(ShortInitCode)
    else if 0 < |op.paymasterAndData| < PAYMASTER_HEADER then Err(ShortPaymasterHeader)
    else
      var limits, fees := Unpack128(op.accountGasLimits).value, Unpack128(op.gasFees).value;
      var base := RpcUserOp(op.sender, op.nonce, None, None, op.callData, limits.1, limits.0, op.preVerificationGas,
                            fees.1, fees.0, None, None, None, None, op.signature);
      Ok(WithPaymaster(WithFactory(base, op.initCode), op.paymasterAndData))
  }

  function WithFactory(rpc: RpcUserOp, initCode: Bytes): RpcUserOp
    requires initCode == [] || |initCode| >= ADDRESS_LENGTH
  {
    if initCode == [] then rpc else rpc.(factory := Some(initCode[..20]), factoryData := Some(initCode[20..]))
  }

  function WithPaymaster(rpc: RpcUserOp, pmd: Bytes): RpcUserOp
    requires pmd == [] || |pmd| >= PAYMASTER_HEADER
  {
    if pmd == [] then rpc
    else rpc.(paymaster := Some(pmd[..20]),
              paymasterVerificationGasLimit := Some(ToNat(pmd[20..36])),
              paymasterPostOpGasLimit := Some(ToNat(pmd[36..52])),
              paymasterData := Some(pmd[52..]))
  }

  method ToRpcUserOp(op: PackedUserOp) returns (r: Result<RpcUserOp, FormatError>)
    ensures r == ToRpc(op)
  {
    var limits := Unpack128(op.accountGasLimits);
    if limits.Err? {
      return Err(limits.error);
    }
    var fees := Unpack128(op.gasFees);
    if fees.Err? {
      return Err(fees.error);
    }
    if |op.sender| != ADDRESS_LENGTH {
      return Err(BadAddress);
    }
    if op.nonce < 0 || op.preVerificationGas < 0 {
      return Err(NegativeQuantity);
    }
    var (verificationGasLimit, callGasLimit) := limits.value;
    var (maxPriorityFeePerGas, maxFeePerGas) := fees.value;
    var rpc := RpcUserOp(op.sender, op.nonce, None, None, op.callData, callGasLimit, verificationGasLimit, op.preVerificationGas,
                         maxFeePerGas, maxPriorityFeePerGas, None, None, None, None, op.signature);

    var initCode := op.initCode;
    if |initCode| > 0 {
      if |initCode| < 20 {
        return Err(ShortInitCode);
      }
      rpc := rpc.(factory := Some(initCode[0..20]));
      rpc := rpc.(factoryData := Some(initCode[20..]));
    }

    var pmd := op.paymasterAndData;
    if |pmd| > 0 {
      if |pmd| < 52 {
        return Err(ShortPaymasterHeader);
      }
      rpc := rpc.(paymaster := Some(pmd[0..20]));
      rpc := rpc.(paymasterVerificationGasLimit := Some(ToNat(pmd[20..36])));
      rpc := rpc.(paymasterPostOpGasLimit := Some(ToNat(pmd[36..52])));
      rpc := rpc.(paymasterData := Some(pmd[52..]));
    }
    return Ok(rpc);
  }

  function PackedInitCode(rpc: RpcUserOp): Bytes {
    if rpc.factory.Some? then rpc.factory.value + OrElse(rpc.factoryData, []) else []
  }

  function PackedPaymaster(rpc: RpcUserOp): Result<Bytes, FormatError> {
    if rpc.paymaster.None? then Ok([])
    else PackPaymasterAndData(rpc.paymaster.value, OrElse(rpc.paymasterVerificationGasLimit, 0),
                              OrElse(rpc.paymasterPostOpGasLimit, 0), OrElse(rpc.paymasterData, []))
  }

  function FromRpc(rpc: RpcUserOp): Result<PackedUserOp, FormatError> {
    if |rpc.sender| != ADDRESS_LENGTH then Err(BadAddress)
    else
      match (Pack128(rpc.verificationGasLimit, rpc.callGasLimit), Pack128(rpc.maxPriorityFeePerGas, rpc.maxFeePerGas), PackedPaymaster(rpc))
      case (Ok(limits), Ok(fees), Ok(pmd)) =>
        Ok(PackedUserOp(rpc.sender, rpc.nonce, PackedInitCode(rpc), rpc.callData, limits, rpc.preVerificationGas, fees, pmd, rpc.signature))
      case (Err(e), _, _) => Err(e)
      case (_, Err(e), _) => Err(e)
      case (_, _, Err(e)) => Err(e)
  }

  // ---------------------------------------------------------------- round trips

  predicate WellFormed(op: PackedUserOp) {
    && |op.sender| == ADDRESS_LENGTH && op.nonce >= 0 && op.preVerificationGas >= 0
    && |op.accountGasLimits| == 32 && |op.gasFees| == 32
    && (op.initCode == [] || |op.initCode| >= ADDRESS_LENGTH)
    && (op.paymasterAndData == [] || |op.paymasterAndData| >= PAYMASTER_HEADER)
  }

  /** An RPC operation with nothing implicit: factory and paymaster fields all there or all absent. */
  predicate Canonical(rpc: RpcUserOp) {
    && |rpc.sender| == ADDRESS_LENGTH && rpc.nonce >= 0 && rpc.preVerificationGas >= 0
    && IsUint128(rpc.verificationGasLimit) && IsUint128(rpc.callGasLimit)
    && IsUint128(rpc.maxPriorityFeePerGas) && IsUint128(rpc.maxFeePerGas)
    && (match rpc.factory
        case Some(f) => |f| == ADDRESS_LENGTH && rpc.factoryData.Some?
        case None => rpc.factoryData.None?)
    && (match rpc.paymaster
        case Some(p) =>
          && |p| == ADDRESS_LENGTH && rpc.paymasterData.Some?
          && rpc.paymasterVerificationGasLimit.Some? && IsUint128(rpc.paymasterVerificationGasLimit.value)
          && rpc.paymasterPostOpGasLimit.Some? && IsUint128(rpc.paymasterPostOpGasLimit.value)
        case None => rpc.paymasterVerificationGasLimit.None? && rpc.paymasterPostOpGasLimit.None? && rpc.paymasterData.None?)
  }

  /** Splitting and rejoining the paymaster field. */
  lemma PaymasterRoundTrip(pmd: Bytes)
    requires |pmd| >= PAYMASTER_HEADER
    ensures IsUint128(ToNat(pmd[20..36])) && IsUint128(ToNat(pmd[36..52]))
    ensures PackPaymasterAndData(pmd[..20], ToNat(pmd[20..36]), ToNat(pmd[36..52]), pmd[52..]) == Ok(pmd)
  {
    HalfWord(pmd[20..36]);
    HalfWord(pmd[36..52]);
    assert pmd == pmd[..20] + pmd[20..36] + pmd[36..52] + pmd[52..];
  }

  lemma PaymasterFields(paymaster: Bytes, v: int, p: int, data: Bytes)
    ensures var r := PackPaymasterAndData(paymaster, v, p, data);
            && (r.Ok? <==> |paymaster| == ADDRESS_LENGTH && IsUint128(v) && IsUint128(p))
            && (r.Ok? ==>
                  && |r.value| == PAYMASTER_HEADER + |data| && r.value[..20] == paymaster
                  && ToNat(r.value[20..36]) == v && ToNat(r.value[36..52]) == p && r.value[52..] == data)
  {
    if |paymaster| == ADDRESS_LENGTH && IsUint128(v) && IsUint128(p) {
      Uint128Width();
      WriteRead(v, 16);
      WriteRead(p, 16);
      var all := paymaster + ToBytes(v, 16) + ToBytes(p, 16) + data;
      assert all[..20] == paymaster && all[20..36] == ToBytes(v, 16) && all[36..52] == ToBytes(p, 16) && all[52..] == data;
    }
  }

  /** Packed to RPC and back: the conversion succeeds on the well-formed operations, and loses nothing. */
  lemma PackedRoundTrip(op: PackedUserOp)
    ensures ToRpc(op).Ok? <==> WellFormed(op)
    ensures WellFormed(op) ==> Canonical(ToRpc(op).value) && FromRpc(ToRpc(op).value) == Ok(op)
  {
    if WellFormed(op) {
      PackUnpacked(op.accountGasLimits);
      PackUnpacked(op.gasFees);
      if op.initCode != [] { assert op.initCode[..20] + op.initCode[20..] == op.initCode; }
      if op.paymasterAndData != [] { PaymasterRoundTrip(op.paymasterAndData); }
    }
  }

  /** RPC to packed and back gives the operation exactly when it was canonical. */
  lemma RpcRoundTripIff(rpc: RpcUserOp)
    ensures (FromRpc(rpc).Ok? && ToRpc(FromRpc(rpc).value) == Ok(rpc)) <==> Canonical(rpc)
    ensures Canonical(rpc) ==> WellFormed(FromRpc(rpc).value)
  {
    if FromRpc(rpc).Ok? && ToRpc(FromRpc(rpc).value) == Ok(rpc) {
      PackedRoundTrip(FromRpc(rpc).value);
    }
    if Canonical(rpc) {
      CanonicalSurvives(rpc);
    }
  }

  lemma CanonicalSurvives(rpc: RpcUserOp)
    requires Canonical(rpc)
    ensures FromRpc(rpc).Ok? && ToRpc(FromRpc(rpc).value) == Ok(rpc)
  {
    UnpackPacked(rpc.verificationGasLimit, rpc.callGasLimit);
    UnpackPacked(rpc.maxPriorityFeePerGas, rpc.maxFeePerGas);
    if rpc.factory.Some? {
      var initCode := rpc.factory.value + rpc.factoryData.value;
      assert initCode[..20] == rpc.factory.value && initCode[20..] == rpc.factoryData.value;
    }
    if rpc.paymaster.Some? {
      PaymasterFields(rpc.paymaster.value, rpc.paymasterVerificationGasLimit.value, rpc.paymasterPostOpGasLimit.value, rpc.paymasterData.value);
    }
  }

  /** Defaults filled in are the same operation: what an omitted field means. */
  function Filled(rpc: RpcUserOp): RpcUserOp {
    var withFactory := if rpc.factory.Some? then rpc.(factoryData := Some(OrElse(rpc.factoryData, []))) else rpc.(factoryData := None);
    if rpc.paymaster.Some? then
      withFactory.(paymasterVerificationGasLimit := Some(OrElse(rpc.paymasterVerificationGasLimit, 0)),
                   paymasterPostOpGasLimit := Some(OrElse(rpc.paymasterPostOpGasLimit, 0)),
                   paymasterData := Some(OrElse(rpc.paymasterData, [])))
    else
      withFactory.(paymasterVerificationGasLimit := None, paymasterPostOpGasLimit := None, paymasterData := None)
  }

  /** Any accepted RPC operation comes back as its filled-in form, when that form is canonical. */
  lemma DefaultsAreFilled(rpc: RpcUserOp)
    requires Canonical(Filled(rpc))
    ensures FromRpc(rpc) == FromRpc(Filled(rpc)) && FromRpc(rpc).Ok? && ToRpc(FromRpc(rpc).value) == Ok(Filled(rpc))
  {
    CanonicalSurvives(Filled(rpc));
  }
}
