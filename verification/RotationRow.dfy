/** What master-key rotation does to one wallet row. */
module RotationRow {
  import opened Prelude
  import opened Encryption
  import opened Tables

  datatype RotationError = Undecryptable | WrongKeyForAddress | RowChangedConcurrently

  /** The rows the rotation query selects. */
  predicate Eligible(w: Wallet, current: KeyId) {
    && w.signingMode == Software
    && w.encryptedPrivateKey.Some?
    && w.encryptionKeyId != Some(current)
  }

  /** Decrypt with whichever key works, prove the key belongs to the address, seal under the current key. */
  function Rotated(ring: Keyring, w: Wallet, iv: Iv): (r: Result<Wallet, RotationError>)
    requires w.encryptedPrivateKey.Some?
  {
    match Open(ring, w.encryptedPrivateKey.value, w.userId)
    case Err(_) => Err(Undecryptable)
    case Ok(found) =>
      if !KeyMatchesAddress(w.chain, found.plaintext, w.address) then Err(WrongKeyForAddress)
      else Ok(w.(encryptedPrivateKey := Some(Encrypt(ring, found.plaintext, w.userId, iv)),
                 encryptionKeyId := Some(ring.CurrentKeyId())))
  }

  /** The conditional update: it lands only on a row whose ciphertext is still the one that was read. */
  function CompareAndSwap(wallets: map<WalletId, Wallet>, id: WalletId, read: Wallet, write: Wallet): Option<map<WalletId, Wallet>> {
    if id in wallets && wallets[id].encryptedPrivateKey == read.encryptedPrivateKey
    then Some(wallets[id := wallets[id].(encryptedPrivateKey := write.encryptedPrivateKey,
                                         encryptionKeyId := write.encryptionKeyId)])
    else None
  }
}
