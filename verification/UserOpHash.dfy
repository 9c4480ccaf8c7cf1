/** The hash an account owner signs: keccak over the ABI encoding of every field but the signature. */
module UserOpHash {
  import opened Prelude
  import opened BigEndian
  import opened UserOpFormat

  type Word = b: Bytes | |b| == 32 witness seq(32, _ => 0)

  type KeccakFn = Bytes -> Word

  datatype HashError = NotAddress | NotUint256 | NotWord

  /** ABI encoding of an address: twelve zero bytes, then the address. */
  function AddressWord(a: Bytes): Word
    requires |a| == ADDRESS_LENGTH
  {
    seq(12, _ => 0) + a
  }

  predicate IsUint256(n: int) { 0 <= n < Pow256(32) }

  /** An operation the ABI coder can encode. */
  predicate Encodable(op: PackedUserOp) {
    && |op.sender| == ADDRESS_LENGTH && IsUint256(op.nonce) && IsUint256(op.preVerificationGas)
    && |op.accountGasLimits| == 32 && |op.gasFees| == 32
  }

  /** abi.encode of the eight packed words. */
  function Preimage(keccak: KeccakFn, op: PackedUserOp): (bytes: Bytes)
    requires Encodable(op)
    ensures |bytes| == 256
  {
    AddressWord(op.sender) + ToBytes(op.nonce, 32) + keccak(op.initCode) + keccak(op.callData)
      + op.accountGasLimits + ToBytes(op.preVerificationGas, 32) + op.gasFees + keccak(op.paymasterAndData)
  }

  function OuterPreimage(hashedOp: Word, entryPoint: Bytes, chainId: nat): (bytes: Bytes)
    requires |entryPoint| == ADDRESS_LENGTH
    ensures |bytes| == 96
  {
    hashedOp + AddressWord(entryPoint) + ToBytes(chainId, 32)
  }

  function CalculateUserOpHash(keccak: KeccakFn, op: PackedUserOp, entryPoint: Bytes, chainId: nat): Result<Word, HashError> {
    if |op.sender| != ADDRESS_LENGTH || |entryPoint| != ADDRESS_LENGTH then Err(NotAddress)
    else if !IsUint256(op.nonce) || !IsUint256(op.preVerificationGas) || !IsUint256(chainId) then Err(NotUint256)
    else if |op.accountGasLimits| != 32 || |op.gasFees| != 32 then Err(NotWord)
    else Ok(keccak(OuterPreimage(keccak(Preimage(keccak, op)), entryPoint, chainId)))
  }

  /** Two different byte strings with one digest. */
  predicate Collide(keccak: KeccakFn, x: Bytes, y: Bytes) { x != y && keccak(x) == keccak(y) }

  /** The signature is not hashed: signing does not change what was signed. */
  lemma SignatureIsNotHashed(keccak: KeccakFn, op: PackedUserOp, signature: Bytes, entryPoint: Bytes, chainId: nat)
    ensures CalculateUserOpHash(keccak, op.(signature := signature), entryPoint, chainId) == CalculateUserOpHash(keccak, op, entryPoint, chainId)
  {
    if Encodable(op) {
      assert Preimage(keccak, op.(signature := signature)) == Preimage(keccak, op);
    }
  }

  lemma WordsSplit(a: Bytes, b: Bytes, x: Bytes, y: Bytes)
    requires |a| == |x| && a + b == x + y
    ensures a == x && b == y
  {
    assert (a + b)[..|a|] == a && (x + y)[..|x|] == x;
    assert (a + b)[|a|..] == b && (x + y)[|x|..] == y;
  }

  lemma AddressWordInjective(a: Bytes, b: Bytes)
    requires |a| == |b| == ADDRESS_LENGTH && AddressWord(a) == AddressWord(b)
    ensures a == b
  {
    WordsSplit(seq(12, _ => 0), a, seq(12, _ => 0), b);
  }

  lemma NumberWordInjective(n: nat, m: nat)
    requires IsUint256(n) && IsUint256(m) && ToBytes(n, 32) == ToBytes(m, 32)
    ensures n == m
  {
    WriteRead(n, 32);
    WriteRead(m, 32);
  }

  /** Equal encodings have equal words, so equal fixed-size fields and equal digests of the others. */
  lemma PreimageInjective(keccak: KeccakFn, a: PackedUserOp, b: PackedUserOp)
    requires Encodable(a) && Encodable(b) && Preimage(keccak, a) == Preimage(keccak, b)
    ensures a.sender == b.sender && a.nonce == b.nonce && a.accountGasLimits == b.accountGasLimits
    ensures a.preVerificationGas == b.preVerificationGas && a.gasFees == b.gasFees
    ensures keccak(a.initCode) == keccak(b.initCode) && keccak(a.callData) == keccak(b.callData)
    ensures keccak(a.paymasterAndData) == keccak(b.paymasterAndData)
  {
    var a1, b1 := AddressWord(a.sender), AddressWord(b.sender);
    var a2, b2 := a1 + ToBytes(a.nonce, 32), b1 + ToBytes(b.nonce, 32);
    var a3, b3 := a2 + keccak(a.initCode), b2 + keccak(b.initCode);
    var a4, b4 := a3 + keccak(a.callData), b3 + keccak(b.callData);
    var a5, b5 := a4 + a.accountGasLimits, b4 + b.accountGasLimits;
    var a6, b6 := a5 + ToBytes(a.preVerificationGas, 32), b5 + ToBytes(b.preVerificationGas, 32);
    var a7, b7 := a6 + a.gasFees, b6 + b.gasFees;
    WordsSplit(a7, keccak(a.paymasterAndData), b7, keccak(b.paymasterAndData));
    WordsSplit(a6, a.gasFees, b6, b.gasFees);
    WordsSplit(a5, ToBytes(a.preVerificationGas, 32), b5, ToBytes(b.preVerificationGas, 32));
    WordsSplit(a4, a.accountGasLimits, b4, b.accountGasLimits);
    WordsSplit(a3, keccak(a.callData), b3, keccak(b.callData));
    WordsSplit(a2, keccak(a.initCode), b2, keccak(b.initCode));
    WordsSplit(a1, ToBytes(a.nonce, 32), b1, ToBytes(b.nonce, 32));
    AddressWordInjective(a.sender, b.sender);
    NumberWordInjective(a.nonce, b.nonce);
    NumberWordInjective(a.preVerificationGas, b.preVerificationGas);
  }

  /**
   * The hash determines every field but the signature, the entry point and the chain: two operations that hash
   * alike and are not the same expose a keccak collision, and it is one of these five pairs.
   */
  lemma HashDetermines(keccak: KeccakFn, a: PackedUserOp, b: PackedUserOp, entryA: Bytes, entryB: Bytes, chainA: nat, chainB: nat)
    requires CalculateUserOpHash(keccak, a, entryA, chainA).Ok?
    requires CalculateUserOpHash(keccak, a, entryA, chainA) == CalculateUserOpHash(keccak, b, entryB, chainB)
    ensures
      var outerA, outerB := OuterPreimage(keccak(Preimage(keccak, a)), entryA, chainA), OuterPreimage(keccak(Preimage(keccak, b)), entryB, chainB);
      || (a.(signature := []) == b.(signature := []) && entryA == entryB && chainA == chainB)
      || Collide(keccak, outerA, outerB)
      || Collide(keccak, Preimage(keccak, a), Preimage(keccak, b))
      || Collide(keccak, a.initCode, b.initCode)
      || Collide(keccak, a.callData, b.callData)
      || Collide(keccak, a.paymasterAndData, b.paymasterAndData)
  {
    var hashA, hashB := keccak(Preimage(keccak, a)), keccak(Preimage(keccak, b));
    if OuterPreimage(hashA, entryA, chainA) == OuterPreimage(hashB, entryB, chainB) {
      WordsSplit(hashA + AddressWord(entryA), ToBytes(chainA, 32), hashB + AddressWord(entryB), ToBytes(chainB, 32));
      WordsSplit(hashA, AddressWord(entryA), hashB, AddressWord(entryB));
      AddressWordInjective(entryA, entryB);
      NumberWordInjective(chainA, chainB);
      if Preimage(keccak, a) == Preimage(keccak, b) {
        PreimageInjective(keccak, a, b);
      }
    }
  }
}
