/** Creating a wallet, opening a ciphertext and releasing a key, in terms of the columns and keys involved. */
module WalletRows {
  import opened Prelude
  import opened Encryption
  import opened Tables
  import opened WalletCreation
  import opened WalletAccess

  ghost predicate HasWalletOn(wallets: map<WalletId, Wallet>, user: UserId, chain: string) {
    exists w :: w in wallets && wallets[w].userId == user && wallets[w].chain == chain
  }

  /**
   * A wallet is created exactly when the user has none on that very chain and the chain is one the mode supports:
   * ethereum, polygon or solana in software, ethereum or polygon in a configured HSM. A software row holds the new key
   * sealed for its user under the current master key and tagged with it; an HSM row holds neither ciphertext nor tag.
   */
  lemma CreatedRows(db: Db, user: UserId, chain: string, mode: SigningMode, hsm: bool, ring: Keyring, secret: string, hsmLabel: string, iv: Iv)
    ensures var reply := CreateWallet(db, user, chain, mode, hsm, ring, secret, hsmLabel, iv);
            && (reply == AlreadyExists <==> HasWalletOn(db.wallets, user, chain))
            && (reply.Created? <==>
                  && !HasWalletOn(db.wallets, user, chain)
                  && (match mode
                      case Software => Lower(chain) in {"ethereum", "polygon", "solana"}
                      case Hsm => Lower(chain) in {"ethereum", "polygon"} && hsm))
            && (reply.Created? ==>
                  reply.wallet == match mode
                    case Software => Wallet(user, Derived(if Lower(chain) == "solana" then Solana else Evm, secret), chain, Software,
                                            Some(Sealed(UserKey(ring.current, user), iv, secret)), Some(KeyIdOf(ring.current)))
                    case Hsm => Wallet(user, Unrelated(hsmLabel), chain, Hsm, None, None))
  {
    assert HasWalletOn(db.wallets, user, chain) <==> exists w :: w in db.wallets && db.wallets[w].userId == user && db.wallets[w].chain == chain;
  }

  /** A ciphertext opens exactly when it was sealed for this user under the current key or a previous one, and gives what was sealed and by which key. */
  lemma OpensIff(ring: Keyring, ct: Ciphertext, user: UserId, plaintext: string, keyId: KeyId)
    ensures Encryption.Open(ring, ct, user) == Ok(Opened(plaintext, keyId)) <==>
              exists master, iv :: (master == ring.current || master in ring.previous)
                                   && ct == Sealed(UserKey(master, user), iv, plaintext) && keyId == KeyIdOf(master)
  {
    if Encryption.Open(ring, ct, user) == Ok(Opened(plaintext, keyId)) {
      assert ct == Sealed(UserKey(ct.key.master, user), ct.iv, plaintext);
    }
  }

  /** A key is released exactly for a software wallet of the asking user, whose ciphertext the ring opens for that user, and it is what was sealed. */
  lemma ReleasedIff(wallets: map<WalletId, Wallet>, ring: Keyring, id: WalletId, user: UserId, key: string)
    ensures PrivateKeyFor(wallets, ring, id, user) == Ok(key) <==>
              && id in wallets && wallets[id].userId == user && wallets[id].signingMode == Software
              && wallets[id].encryptedPrivateKey.Some? && wallets[id].encryptedPrivateKey.value.Sealed?
              && wallets[id].encryptedPrivateKey.value.plaintext == key
              && wallets[id].encryptedPrivateKey.value.key.userId == user
              && (wallets[id].encryptedPrivateKey.value.key.master == ring.current || wallets[id].encryptedPrivateKey.value.key.master in ring.previous)
  {
  }
}
