/**
 * The encryption service for private keys, with ideal cryptography: a per-user key is an
 * injective function of master key and user id, an authenticated ciphertext opens under the
 * key that sealed it and under no other, and a key id names one master key.
 */
module Encryption {
  import opened Prelude

  type UserId = string
  type MasterKey = seq<Byte>
  type Iv = nat

  const KEY_LENGTH := 32

  /** PBKDF2 over (master key, user id), taken as injective. */
  datatype UserKey = UserKey(master: MasterKey, userId: UserId)

  /** The truncated hash stored as encryptionKeyId, taken as injective. */
  datatype KeyId = KeyIdOf(master: MasterKey)

  /** A stored value: either something encrypt() produced, or text no key opens. */
  datatype Ciphertext =
    | Sealed(key: UserKey, iv: Iv, plaintext: string)
    | Unreadable(text: string)

  datatype Opened = Opened(plaintext: string, keyId: KeyId)

  datatype CryptoError = BadKeyLength | PreviousEqualsCurrent | CannotDecrypt

  datatype Keyring = Keyring(current: MasterKey, previous: seq<MasterKey>) {
    function CurrentKeyId(): KeyId { KeyIdOf(current) }

    predicate Accepts(master: MasterKey) { master == current || master in previous }

    /** The same service after the previous keys were retired. */
    function CurrentOnly(): Keyring { Keyring(current, []) }
  }

  /** One attempt under one master key: authentication makes a wrong key fail. */
  function DecryptWith(master: MasterKey, ct: Ciphertext, userId: UserId): Option<string> {
    if ct.Sealed? && ct.key == UserKey(master, userId) then Some(ct.plaintext) else None
  }

  function Encrypt(ring: Keyring, plaintext: string, userId: UserId, iv: Iv): Ciphertext {
    Sealed(UserKey(ring.current, userId), iv, plaintext)
  }

  /** What decryption under the whole ring means, with no order of attempts in it. */
  function Open(ring: Keyring, ct: Ciphertext, userId: UserId): Result<Opened, CryptoError> {
    if ct.Sealed? && ct.key.userId == userId && ring.Accepts(ct.key.master)
    then Ok(Opened(ct.plaintext, KeyIdOf(ct.key.master)))
    else Err(CannotDecrypt)
  }

  class EncryptionService {
    const masterKey: MasterKey
    const previousKeys: seq<MasterKey>

    ghost function Ring(): Keyring { Keyring(masterKey, previousKeys) }

    constructor (current: MasterKey, previous: seq<MasterKey>)
      requires |current| == KEY_LENGTH && current !in previous
      requires forall k :: k in previous ==> |k| == KEY_LENGTH
      ensures Ring() == Keyring(current, previous)
    {
      masterKey := current;
      previousKeys := previous;
    }

    /** Startup: every key is 32 bytes and the current key is not also a previous one. */
    static method Create(current: MasterKey, previous: seq<MasterKey>)
      returns (r: Result<EncryptionService, CryptoError>)
      ensures r.Ok? <==>
              (forall k :: k in [current] + previous ==> |k| == 32) && current !in previous
      ensures r.Ok? ==> fresh(r.value) && r.value.Ring() == Keyring(current, previous)
    {
      var all := [current] + previous;
      for i := 0 to |all|
        invariant forall k :: k in all[..i] ==> |k| == KEY_LENGTH
      {
        if |all[i]| != KEY_LENGTH {
          return Err(BadKeyLength);
        }
      }
      assert all[..|all|] == all;
      assert current in all && forall k :: k in previous ==> k in all;
      if current in previous {
        return Err(PreviousEqualsCurrent);
      }
      var service := new EncryptionService(current, previous);
      return Ok(service);
    }

    /** Tries the current key, then each previous key in turn; the answer does not depend on that order. */
    method DecryptWithKeyId(ct: Ciphertext, userId: UserId) returns (r: Result<Opened, CryptoError>)
      ensures r == Open(Ring(), ct, userId)
    {
      var keys := [masterKey] + previousKeys;
      for i := 0 to |keys|
        invariant forall k :: k in keys[..i] ==> DecryptWith(k, ct, userId).None?
      {
        var attempt := DecryptWith(keys[i], ct, userId);
        if attempt.Some? {
          assert keys[i] == masterKey || keys[i] in previousKeys;
          return Ok(Opened(attempt.value, KeyIdOf(keys[i])));
        }
      }
      assert keys[..|keys|] == keys;
      assert forall k :: Ring().Accepts(k) ==> k in keys;
      assert ct.Sealed? && ct.key.master in keys ==> DecryptWith(ct.key.master, ct, userId).None?;
      return Err(CannotDecrypt);
    }

    method DecryptWithCurrentKeyOnly(ct: Ciphertext, userId: UserId) returns (r: Option<string>)
      ensures r == DecryptWith(masterKey, ct, userId)
      ensures match Open(Ring().CurrentOnly(), ct, userId)
              case Ok(o) => r == Some(o.plaintext)
              case Err(_) => r == None
    {
      r := DecryptWith(masterKey, ct, userId);
    }

    /** Opens with whichever key works and seals the same plaintext under the current key. */
    method ReencryptToCurrentKey(ct: Ciphertext, userId: UserId, iv: Iv)
      returns (r: Result<(Ciphertext, Opened), CryptoError>)
      ensures r.Ok? <==> Open(Ring(), ct, userId).Ok?
      ensures r.Ok? ==>
              && r.value.1 == Open(Ring(), ct, userId).value
              && Open(Ring().CurrentOnly(), r.value.0, userId) == Ok(Opened(r.value.1.plaintext, KeyIdOf(masterKey)))
              && r.value.0 == Encrypt(Ring(), r.value.1.plaintext, userId, iv)
    {
      var found := DecryptWithKeyId(ct, userId);
      if found.Err? {
        return Err(found.error);
      }
      return Ok((Encrypt(Keyring(masterKey, previousKeys), found.value.plaintext, userId, iv), found.value));
    }
  }
}
