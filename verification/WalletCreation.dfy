/** Wallet creation: the step that adds rows, and the tag it writes beside each ciphertext. */
module WalletCreation {
  import opened Prelude
  import opened Encryption
  import opened Tables

  datatype CreateReply = AlreadyExists | UnsupportedChain | HsmUnavailable | Created(wallet: Wallet)

  /** `secret` is the freshly generated key; `hsmLabel` stands for the address of a key born inside the HSM. */
  ghost function CreateWallet(db: Db, user: UserId, chain: string, mode: SigningMode, hsmConfigured: bool,
                        ring: Keyring, secret: string, hsmLabel: string, iv: Iv): (reply: CreateReply)
    // a new software wallet's key opens for its owner and derives its address, and its tag is honest
    ensures reply.Created? ==>
              && reply.wallet.userId == user
              && TagNamesKey(reply.wallet)
              && (reply.wallet.signingMode == Software ==>
                    && Secret(reply.wallet) == Some(secret)
                    && KeyMatchesAddress(chain, secret, reply.wallet.address)
                    && Open(ring.CurrentOnly(), reply.wallet.encryptedPrivateKey.value, user).Ok?)
    // a second wallet of one user on one chain is never created
    ensures reply.Created? ==>
              forall w :: w in db.wallets && db.wallets[w].userId == user ==> db.wallets[w].chain != reply.wallet.chain
  {
    var c := Lower(chain);
    if exists w :: w in db.wallets && db.wallets[w].userId == user && db.wallets[w].chain == chain then AlreadyExists
    else if mode == Hsm then
      if c != "ethereum" && c != "polygon" then UnsupportedChain
      else if !hsmConfigured then HsmUnavailable
      else Created(Wallet(user, Unrelated(hsmLabel), chain, Hsm, None, None))
    else if c == "ethereum" || c == "polygon" || c == "solana" then
      Created(Wallet(user, Derived(if c == "solana" then Solana else Evm, secret), chain, Software,
                     Some(Encrypt(ring, secret, user, iv)), Some(ring.CurrentKeyId())))
    else UnsupportedChain
  }
}
