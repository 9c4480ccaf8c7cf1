/**
 * User operations and screening in terms of bytes and fields: where every number of a packed operation stands, what
 * is hashed in which order, what an operation is built from, and which addresses a call reaches.
 */
module UserOpRows {
  import opened Prelude
  import opened BigEndian
  import opened UserOpFormat
  import opened Paymaster
  import opened UserOpHash
  import opened Destinations
  import opened Sanctions
  import opened UserOps

  // ------------------------------------------------------------------ byte layout

  /** The first byte is the most significant one. */
  lemma {:induction false} FirstByteLeads(bytes: Bytes)
    requires bytes != []
    ensures ToNat(bytes) == bytes[0] * Pow256(|bytes| - 1) + ToNat(bytes[1..])
  {
    if |bytes| > 1 {
      var front := bytes[..|bytes| - 1];
      FirstByteLeads(front);
      assert bytes[1..][..|bytes| - 2] == front[1..];
    }
  }

  /** The high number is in bytes 0 to 15 of the word, the low one in bytes 16 to 31. */
  lemma WordLayout(hi: int, lo: int, word: Bytes)
    ensures Pack128(hi, lo) == Ok(word) <==> |word| == 32 && ToNat(word[..16]) == hi && ToNat(word[16..]) == lo
    ensures |word| == 32 ==> Unpack128(word) == Ok((ToNat(word[..16]), ToNat(word[16..])))
  {
    UnpackPacked(hi, lo);
    PackUnpacked(word);
    if |word| == 32 {
      assert word[16..32] == word[16..];
    }
    if Pack128(hi, lo) == Ok(word) {
      assert Unpack128(word) == Ok((hi, lo));
    }
  }

  /** Every field of the RPC shape of a well-formed operation, by its place in the packed one. */
  lemma RpcLayout(op: PackedUserOp)
    requires WellFormed(op)
    ensures ToRpc(op).Ok?
    ensures var rpc := ToRpc(op).value;
            && rpc.sender == op.sender && rpc.nonce == op.nonce && rpc.callData == op.callData && rpc.signature == op.signature
            && rpc.preVerificationGas == op.preVerificationGas
            && rpc.verificationGasLimit == ToNat(op.accountGasLimits[..16]) && rpc.callGasLimit == ToNat(op.accountGasLimits[16..])
            && rpc.maxPriorityFeePerGas == ToNat(op.gasFees[..16]) && rpc.maxFeePerGas == ToNat(op.gasFees[16..])
            && rpc.factory == (if op.initCode == [] then None else Some(op.initCode[..20]))
            && rpc.factoryData == (if op.initCode == [] then None else Some(op.initCode[20..]))
            && (if op.paymasterAndData == [] then
                  rpc.paymaster.None? && rpc.paymasterVerificationGasLimit.None? && rpc.paymasterPostOpGasLimit.None? && rpc.paymasterData.None?
                else
                  && rpc.paymaster == Some(op.paymasterAndData[..20])
                  && rpc.paymasterVerificationGasLimit == Some(ToNat(op.paymasterAndData[20..36]))
                  && rpc.paymasterPostOpGasLimit == Some(ToNat(op.paymasterAndData[36..52]))
                  && rpc.paymasterData == Some(op.paymasterAndData[52..]))
  {
    WordLayout(0, 0, op.accountGasLimits);
    WordLayout(0, 0, op.gasFees);
  }

  /** Every field of the packed shape of an RPC operation that can be packed; an omitted limit is 0 and omitted data are empty. */
  lemma PackedLayout(rpc: RpcUserOp)
    ensures FromRpc(rpc).Ok? <==>
              && |rpc.sender| == 20
              && 0 <= rpc.verificationGasLimit < TWO128 && 0 <= rpc.callGasLimit < TWO128
              && 0 <= rpc.maxPriorityFeePerGas < TWO128 && 0 <= rpc.maxFeePerGas < TWO128
              && (rpc.paymaster.Some? ==>
                    && |rpc.paymaster.value| == 20
                    && (rpc.paymasterVerificationGasLimit.Some? ==> 0 <= rpc.paymasterVerificationGasLimit.value < TWO128)
                    && (rpc.paymasterPostOpGasLimit.Some? ==> 0 <= rpc.paymasterPostOpGasLimit.value < TWO128))
    ensures FromRpc(rpc).Ok? ==>
              var op := FromRpc(rpc).value;
              && op.sender == rpc.sender && op.nonce == rpc.nonce && op.callData == rpc.callData && op.signature == rpc.signature
              && op.preVerificationGas == rpc.preVerificationGas
              && |op.accountGasLimits| == 32 && ToNat(op.accountGasLimits[..16]) == rpc.verificationGasLimit
              && ToNat(op.accountGasLimits[16..]) == rpc.callGasLimit
              && |op.gasFees| == 32 && ToNat(op.gasFees[..16]) == rpc.maxPriorityFeePerGas && ToNat(op.gasFees[16..]) == rpc.maxFeePerGas
              && op.initCode == (if rpc.factory.None? then [] else rpc.factory.value + if rpc.factoryData.Some? then rpc.factoryData.value else [])
              && (if rpc.paymaster.None? then op.paymasterAndData == []
                  else
                    && |op.paymasterAndData| >= 52 && op.paymasterAndData[..20] == rpc.paymaster.value
                    && ToNat(op.paymasterAndData[20..36]) == (if rpc.paymasterVerificationGasLimit.Some? then rpc.paymasterVerificationGasLimit.value else 0)
                    && ToNat(op.paymasterAndData[36..52]) == (if rpc.paymasterPostOpGasLimit.Some? then rpc.paymasterPostOpGasLimit.value else 0)
                    && op.paymasterAndData[52..] == (if rpc.paymasterData.Some? then rpc.paymasterData.value else []))
  {
    UnpackPacked(rpc.verificationGasLimit, rpc.callGasLimit);
    UnpackPacked(rpc.maxPriorityFeePerGas, rpc.maxFeePerGas);
    if rpc.paymaster.Some? {
      PaymasterFields(rpc.paymaster.value, OrElse(rpc.paymasterVerificationGasLimit, 0), OrElse(rpc.paymasterPostOpGasLimit, 0), OrElse(rpc.paymasterData, []));
    }
    if FromRpc(rpc).Ok? {
      WordLayout(rpc.verificationGasLimit, rpc.callGasLimit, FromRpc(rpc).value.accountGasLimits);
      WordLayout(rpc.maxPriorityFeePerGas, rpc.maxFeePerGas, FromRpc(rpc).value.gasFees);
    }
  }

  /** What is well formed: address and words of their lengths, no negative number, and an address or header in whatever field begins. */
  lemma WellFormedIff(op: PackedUserOp)
    ensures ToRpc(op).Ok? <==>
              && |op.sender| == 20 && op.nonce >= 0 && op.preVerificationGas >= 0 && |op.accountGasLimits| == 32 && |op.gasFees| == 32
              && !(1 <= |op.initCode| < 20) && !(1 <= |op.paymasterAndData| < 52)
  {
    PackedRoundTrip(op);
  }

  /**
   * The cost figure of any operation whose words have their length: all gas limits, the paymaster's two included when
   * its field has a whole header, times the price in the low half of the fee word.
   */
  lemma MaxGasCostIs(op: PackedUserOp)
    requires |op.accountGasLimits| == 32 && |op.gasFees| == 32
    requires |op.paymasterAndData| < 52 || WellFormed(op)
    ensures MaxGasCost(op) == Ok(
              (ToNat(op.accountGasLimits[..16]) + ToNat(op.accountGasLimits[16..]) + op.preVerificationGas
               + if |op.paymasterAndData| < 52 then 0 else ToNat(op.paymasterAndData[20..36]) + ToNat(op.paymasterAndData[36..52]))
              * ToNat(op.gasFees[16..]))
  {
    WordLayout(0, 0, op.accountGasLimits);
    WordLayout(0, 0, op.gasFees);
    if |op.paymasterAndData| >= 52 {
      PaymasterGas(op);
    }
  }

  lemma PaymasterGas(op: PackedUserOp)
    requires WellFormed(op) && |op.paymasterAndData| >= 52
    ensures ToRpc(op).Ok?
    ensures OrElse(ToRpc(op).value.paymasterVerificationGasLimit, 0) == ToNat(op.paymasterAndData[20..36])
    ensures OrElse(ToRpc(op).value.paymasterPostOpGasLimit, 0) == ToNat(op.paymasterAndData[36..52])
  {
    RpcLayout(op);
  }

  // ------------------------------------------------------------------ the hash

  /** Twelve zero bytes, then the address. */
  predicate IsAddressWord(word: Bytes, a: Bytes) {
    |word| == 32 && word[..12] == [0, 0, 0, 0, 0, 0, 0, 0, 0, 0, 0, 0] && word[12..] == a
  }

  lemma AddressWordIs(a: Bytes)
    requires |a| == 20
    ensures IsAddressWord(AddressWord(a), a)
  {
  }

  /** The eight words that are hashed, each in its place. */
  lemma PreimageLayout(keccak: KeccakFn, op: PackedUserOp)
    requires Encodable(op)
    ensures var p := Preimage(keccak, op);
            && |p| == 256
            && IsAddressWord(p[0..32], op.sender)
            && ToNat(p[32..64]) == op.nonce
            && p[64..96] == keccak(op.initCode) && p[96..128] == keccak(op.callData)
            && p[128..160] == op.accountGasLimits
            && ToNat(p[160..192]) == op.preVerificationGas
            && p[192..224] == op.gasFees && p[224..256] == keccak(op.paymasterAndData)
  {
    PreimageWords(keccak, op);
    AddressWordIs(op.sender);
    NumberWord(op.nonce);
    NumberWord(op.preVerificationGas);
  }

  lemma NumberWord(n: nat)
    requires IsUint256(n)
    ensures ToNat(ToBytes(n, 32)) == n
  {
    WriteRead(n, 32);
  }

  lemma PreimageWords(keccak: KeccakFn, op: PackedUserOp)
    requires Encodable(op)
    ensures var p := Preimage(keccak, op);
            && p[0..32] == AddressWord(op.sender) && p[32..64] == ToBytes(op.nonce, 32)
            && p[64..96] == keccak(op.initCode) && p[96..128] == keccak(op.callData)
            && p[128..160] == op.accountGasLimits && p[160..192] == ToBytes(op.preVerificationGas, 32)
            && p[192..224] == op.gasFees && p[224..256] == keccak(op.paymasterAndData)
  {
  }

  /** And the three that the digest of those is hashed with. */
  lemma HashLayout(keccak: KeccakFn, op: PackedUserOp, entryPoint: Bytes, chainId: nat)
    ensures var hash := CalculateUserOpHash(keccak, op, entryPoint, chainId);
            && (hash.Ok? <==> |entryPoint| == 20 && chainId < Pow256(32) && Encodable(op))
            && (hash.Ok? ==> exists o: Bytes :: IsOuter(keccak, op, entryPoint, chainId, o) && hash.value == keccak(o))
  {
    if |entryPoint| == 20 && chainId < Pow256(32) && Encodable(op) {
      var o := OuterPreimage(keccak(Preimage(keccak, op)), entryPoint, chainId);
      WriteRead(chainId, 32);
      assert o[0..32] == keccak(Preimage(keccak, op));
      assert o[32..64] == AddressWord(entryPoint);
      AddressWordIs(entryPoint);
      assert o[64..96] == ToBytes(chainId, 32);
      assert IsOuter(keccak, op, entryPoint, chainId, o);
    }
  }

  ghost predicate IsOuter(keccak: KeccakFn, op: PackedUserOp, entryPoint: Bytes, chainId: nat, o: Bytes)
    requires Encodable(op)
  {
    |o| == 96 && o[0..32] == keccak(Preimage(keccak, op)) && IsAddressWord(o[32..64], entryPoint)
    && ToNat(o[64..96]) == chainId
  }

  lemma EncodableIff(op: PackedUserOp)
    ensures Encodable(op) <==>
              && |op.sender| == 20 && |op.accountGasLimits| == 32 && |op.gasFees| == 32
              && 0 <= op.nonce < Pow256(32) && 0 <= op.preVerificationGas < Pow256(32)
  {
  }

  // ------------------------------------------------------------------ building

  /**
   * An operation that is not sponsored: the caller's sender, init code and call, the account's nonce, 60000 gas before
   * verification, half a million gas for verification when it also deploys and 150000 otherwise, the estimate and 50000
   * for the call, half the gas price as priority and twice the price as maximum; no paymaster and no signature.
   */
  lemma UnsponsoredPlan(r: BuildRequest, data: Bytes)
    requires !r.sponsored
    ensures Planned(r, data).Some? <==> |r.sender| == 20 && 0 <= r.estimatedGas + 50_000 < TWO128 && r.gasPrice * 2 < TWO128
    ensures Planned(r, data).Some? ==> IsOwnOp(r, data, Planned(r, data).value)
  {
    OwnParts(r, data);
  }

  ghost predicate IsOwnOp(r: BuildRequest, data: Bytes, op: PackedUserOp) {
    && op.sender == r.sender && op.nonce == r.nonce && op.initCode == r.initCode && op.callData == data
    && op.preVerificationGas == 60_000 && op.paymasterAndData == [] && op.signature == []
    && |op.accountGasLimits| == 32 && |op.gasFees| == 32
    && ToNat(op.accountGasLimits[..16]) == (if r.initCode == [] then 150_000 else 500_000)
    && ToNat(op.accountGasLimits[16..]) == r.estimatedGas + 50_000
    && ToNat(op.gasFees[..16]) == r.gasPrice / 2 && ToNat(op.gasFees[16..]) == r.gasPrice * 2
  }

  lemma OwnParts(r: BuildRequest, data: Bytes)
    ensures OwnLimits(r).Ok? && OwnFees(r).Ok? <==> 0 <= r.estimatedGas + 50_000 < TWO128 && r.gasPrice * 2 < TWO128
    ensures OwnLimits(r).Ok? && OwnFees(r).Ok? ==> IsOwnOp(r, data, OwnOp(r, data, []))
  {
    LimitsAre(r);
    FeesAre(r);
  }

  lemma LimitsAre(r: BuildRequest)
    ensures OwnLimits(r).Ok? <==> 0 <= r.estimatedGas + 50_000 < TWO128
    ensures OwnLimits(r).Ok? ==>
              && |OwnLimits(r).value| == 32
              && ToNat(OwnLimits(r).value[..16]) == (if r.initCode == [] then 150_000 else 500_000)
              && ToNat(OwnLimits(r).value[16..]) == r.estimatedGas + 50_000
  {
    var verification := if r.initCode == [] then 150_000 else 500_000;
    UnpackPacked(verification, r.estimatedGas + 50_000);
    if OwnLimits(r).Ok? { WordLayout(verification, r.estimatedGas + 50_000, OwnLimits(r).value); }
  }

  lemma FeesAre(r: BuildRequest)
    ensures OwnFees(r).Ok? <==> r.gasPrice * 2 < TWO128
    ensures OwnFees(r).Ok? ==>
              && |OwnFees(r).value| == 32
              && ToNat(OwnFees(r).value[..16]) == r.gasPrice / 2 && ToNat(OwnFees(r).value[16..]) == r.gasPrice * 2
  {
    UnpackPacked(r.gasPrice / 2, r.gasPrice * 2);
    if OwnFees(r).Ok? { WordLayout(r.gasPrice / 2, r.gasPrice * 2, OwnFees(r).value); }
  }

  /**
   * A sponsored operation: the sponsor's paymaster field, byte by byte, its gas limits where it gives any, and the rest
   * as the caller's own operation.
   */
  lemma SponsoredPlan(r: BuildRequest, data: Bytes)
    requires r.sponsored
    ensures Planned(r, data).Some? <==>
              && |r.sender| == 20 && 0 <= r.estimatedGas + 50_000 < TWO128 && r.gasPrice * 2 < TWO128
              && !(1 <= |r.initCode| < 20)
              && r.sponsorship.paymaster.Some? && |r.sponsorship.paymaster.value| == 20
              && Fits(r.sponsorship.paymasterVerificationGasLimit) && Fits(r.sponsorship.paymasterPostOpGasLimit)
              && Fits(r.sponsorship.verificationGasLimit) && Fits(r.sponsorship.callGasLimit)
    ensures Planned(r, data).Some? ==> exists own :: IsOwnOp(r, data, own) && IsSponsored(own, r.sponsorship, Planned(r, data).value)
  {
    OwnParts(r, data);
    if |r.sender| == 20 && OwnLimits(r).Ok? && OwnFees(r).Ok? {
      WellFormedIff(OwnOp(r, data, []));
      PackedRoundTrip(OwnOp(r, data, []));
      MergesIff(OwnOp(r, data, []), r.sponsorship);
    }
    if Planned(r, data).Some? {
      SponsoredFields(r, data);
    }
  }

  predicate Fits(n: Option<int>) { n.None? || 0 <= n.value < TWO128 }

  lemma SponsoredFields(r: BuildRequest, data: Bytes)
    requires r.sponsored && Planned(r, data).Some?
    ensures exists own :: IsOwnOp(r, data, own) && IsSponsored(own, r.sponsorship, Planned(r, data).value)
  {
    OwnParts(r, data);
    var own, s := OwnOp(r, data, []), r.sponsorship;
    var limits := Unpack128(own.accountGasLimits).value;
    WordLayout(0, 0, own.accountGasLimits);
    PaymasterFields(s.paymaster.value, OrElse(s.paymasterVerificationGasLimit, 0), OrElse(s.paymasterPostOpGasLimit, 0), OrElse(s.paymasterData, []));
    WordLayout(OrElse(s.verificationGasLimit, limits.0), OrElse(s.callGasLimit, limits.1), Planned(r, data).value.accountGasLimits);
    assert IsSponsored(own, s, Planned(r, data).value);
  }

  ghost predicate IsSponsored(own: PackedUserOp, s: Sponsorship, op: PackedUserOp)
    requires |own.accountGasLimits| == 32
  {
    && op == own.(paymasterAndData := op.paymasterAndData, accountGasLimits := op.accountGasLimits, preVerificationGas := op.preVerificationGas)
    && |op.paymasterAndData| >= 52 && s.paymaster == Some(op.paymasterAndData[..20])
    && ToNat(op.paymasterAndData[20..36]) == (if s.paymasterVerificationGasLimit.Some? then s.paymasterVerificationGasLimit.value else 0)
    && ToNat(op.paymasterAndData[36..52]) == (if s.paymasterPostOpGasLimit.Some? then s.paymasterPostOpGasLimit.value else 0)
    && op.paymasterAndData[52..] == (if s.paymasterData.Some? then s.paymasterData.value else [])
    && |op.accountGasLimits| == 32
    && ToNat(op.accountGasLimits[..16]) == (if s.verificationGasLimit.Some? then s.verificationGasLimit.value else ToNat(own.accountGasLimits[..16]))
    && ToNat(op.accountGasLimits[16..]) == (if s.callGasLimit.Some? then s.callGasLimit.value else ToNat(own.accountGasLimits[16..]))
    && op.preVerificationGas == (if s.preVerificationGas.Some? then s.preVerificationGas.value else own.preVerificationGas)
  }

  /** The placeholder signature has 65 bytes and is never the empty one that comes out. */
  lemma DummyHasLength()
    ensures |DUMMY_SIGNATURE| == 65
  {
  }

  // ------------------------------------------------------------------ destinations

  /** The address is a target, or is named as recipient, spender or source by the token call made there. */
  predicate Reached(to: Address, data: Inner, a: Address) {
    a == to || data == Inner.Transfer(a) || data == Inner.Approve(a) || (data.TransferFrom? && (data.from == a || data.to == a))
  }

  /** What a call reaches: its one call, or each call of a batch whose data are at least as many as its targets. */
  lemma DestinationIff(call: AccountCall, a: Address)
    ensures IsDestination(call, a) <==>
              match call
              case Execute(dest, func) => Reached(dest, func, a)
              case ExecuteBatch(dests, funcs) => |dests| <= |funcs| && exists i :: 0 <= i < |dests| && Reached(dests[i], funcs[i], a)
              case _ => false
  {
    match call
    case Execute(dest, func) =>
      assert CallsOf(call) == [Call(dest, func)];
      assert Names(CallsOf(call)[0], a) <==> Reached(dest, func, a);
    case ExecuteBatch(dests, funcs) =>
      if |dests| <= |funcs| {
        forall i | 0 <= i < |dests| ensures Names(CallsOf(call)[i], a) <==> Reached(dests[i], funcs[i], a) {
        }
      }
    case _ =>
  }

  /** What can be screened: an execute whose inner data decode, or a batch with data for every target, all of which decode. */
  lemma ScreenableIff(call: AccountCall)
    ensures IsScreenable(call) <==>
              match call
              case Execute(_, func) => func != BadInnerArguments
              case ExecuteBatch(dests, funcs) => |dests| <= |funcs| && forall i :: 0 <= i < |dests| ==> funcs[i] != BadInnerArguments
              case _ => false
  {
    match call
    case Execute(dest, func) =>
      assert CallsOf(call) == [Call(dest, func)];
      assert CallsOf(call)[0].data == func;
    case ExecuteBatch(dests, funcs) =>
      if |dests| <= |funcs| {
        forall i | 0 <= i < |dests| ensures CallsOf(call)[i].data == funcs[i] {
        }
      }
    case _ =>
  }

  /** The value of a hex digit. */
  function DigitValue(c: char): int {
    if '0' <= c <= '9' then c as int - '0' as int else if 'a' <= c <= 'f' then c as int - 'a' as int + 10 else -1
  }

  /** An address is written as 0x and two lower-case hex digits for each byte, high digit first. */
  lemma {:induction false} TextIsHex(a: Address, i: nat)
    requires i < |a|
    ensures |AddressText(a)| == 2 + 2 * |a| && AddressText(a)[0] == '0' && AddressText(a)[1] == 'x'
    ensures 0 <= DigitValue(AddressText(a)[2 + 2 * i]) && 0 <= DigitValue(AddressText(a)[3 + 2 * i]) < 16
    ensures a[i] == 16 * DigitValue(AddressText(a)[2 + 2 * i]) + DigitValue(AddressText(a)[3 + 2 * i])
  {
    if i > 0 {
      TextIsHex(a[1..], i - 1);
      assert AddressText(a)[2 + 2 * i] == AddressText(a[1..])[2 * i];
      assert AddressText(a)[3 + 2 * i] == AddressText(a[1..])[2 * i + 1];
    }
  }

  // ------------------------------------------------------------------ the list

  /** Some non-blank text stands in the first column that has any; it is taken without the blanks around it. */
  lemma {:induction false} PickIs(row: Row, keys: seq<string>)
    ensures match Pick(row, keys)
            case Some(text) => exists i :: 0 <= i < |keys| && Filled(row, keys[i]) && text == Trim(row[keys[i]]) && forall j :: 0 <= j < i ==> !Filled(row, keys[j])
            case None => forall i :: 0 <= i < |keys| ==> !Filled(row, keys[i])
  {
    if keys != [] && !Filled(row, keys[0]) {
      PickIs(row, keys[1..]);
      match Pick(row, keys[1..])
      case Some(text) =>
        var i :| 0 <= i < |keys[1..]| && Filled(row, keys[1..][i]) && text == Trim(row[keys[1..][i]]) && forall j :: 0 <= j < i ==> !Filled(row, keys[1..][j]);
        assert keys[1..][i] == keys[i + 1];
        forall j | 0 <= j < i + 1 ensures !Filled(row, keys[j]) {
          if j > 0 { assert keys[1..][j - 1] == keys[j]; }
        }
      case None =>
        forall j | 0 <= j < |keys| ensures !Filled(row, keys[j]) {
          if j > 0 { assert keys[1..][j - 1] == keys[j]; }
        }
    }
  }

  predicate Filled(row: Row, column: string) { column in row && Trim(row[column]) != "" }

  /** The columns in which a row's address is looked for, first to last. */
  lemma AddressColumns(row: Row)
    ensures Pick(row, ADDRESS_COLUMNS) ==
              if Filled(row, "address") then Some(Trim(row["address"]))
              else if Filled(row, "digital currency address") then Some(Trim(row["digital currency address"]))
              else if Filled(row, "wallet_address") then Some(Trim(row["wallet_address"]))
              else if Filled(row, "addr") then Some(Trim(row["addr"]))
              else None
  {
    PickFirst(row, "addr", []);
    PickFirst(row, "wallet_address", ["addr"]);
    PickFirst(row, "digital currency address", ["wallet_address", "addr"]);
    PickFirst(row, "address", ["digital currency address", "wallet_address", "addr"]);
    assert ["wallet_address"] + ["addr"] == ["wallet_address", "addr"];
    assert ["digital currency address"] + ["wallet_address", "addr"] == ["digital currency address", "wallet_address", "addr"];
    assert ["address"] + ["digital currency address", "wallet_address", "addr"] == ADDRESS_COLUMNS;
  }

  lemma PickFirst(row: Row, key: string, rest: seq<string>)
    ensures Pick(row, [key] + rest) == if Filled(row, key) then Some(Trim(row[key])) else Pick(row, rest)
  {
    assert ([key] + rest)[1..] == rest;
  }

  /** The rows that have an address, by position. */
  ghost function Addressed(rows: seq<Row>): set<nat> {
    set i: nat | i < |rows| && Pick(rows[i], ADDRESS_COLUMNS).Some?
  }

  /** The stored list has one entry for each row that has an address. */
  lemma {:induction false} EntryForEachRow(rows: seq<Row>)
    ensures |EntriesOf(rows)| == |Addressed(rows)|
  {
    if rows != [] {
      var n := |rows| - 1;
      EntryForEachRow(rows[..n]);
      if Pick(rows[n], ADDRESS_COLUMNS).Some? {
        assert Addressed(rows) == Addressed(rows[..n]) + {n};
      } else {
        assert Addressed(rows) == Addressed(rows[..n]);
      }
    }
  }

  /** The four answers of screening after any history of syncs, each with its exact condition. */
  lemma VerdictIs(log: seq<Attempt>, now: Sanctions.Time, maxStalenessMs: nat, address: string)
    ensures Screen(AfterAll(log), now, maxStalenessMs, address) ==
              if log == [] || log[|log| - 1].Failed? then NeverSynced
              else if now - log[|log| - 1].at > maxStalenessMs then Stale
              else if NamesAddress(log[|log| - 1].rows, address) then Listed
              else Clear
  {
    NeverSyncedIff(log, now, maxStalenessMs, address);
    if log != [] && log[|log| - 1].Succeeded? {
      EntriesNameTheRows(log[|log| - 1].rows, address);
    }
  }
}
