/** Who may spend from an account (pkg/tx/verify.go), over uninterpreted cryptography. */
module Auth {
  import opened Wrappers
  import opened Machine
  import opened Types
  import Encoding

  /** SHA-256, address derivation and Ed25519 verification; nothing is assumed about them. */
  datatype Crypto = Crypto(
    sha: Bytes -> Hash,
    addressOf: Bytes -> Option<Address>,
    verify: (Bytes, Bytes, Bytes) -> bool)

  const KEY_SIZE := 32
  const SIGNATURE_SIZE := 64

  datatype Resolved = Resolved(pubKey: Bytes, register: bool)

  /**
   * A sender's key is found exactly when the stored and the given key have 32 bytes or none,
   * agree if both are there, and the one that counts, the stored one if there is one, has
   * the sender's address. It is then that one, to be registered if nothing is stored.
   */
  function ResolveSenderPubKey(c: Crypto, tx: Transaction, stored: Bytes, given: Bytes): (r: Option<Resolved>)
    ensures var key := if |stored| > 0 then stored else given;
      && (r.Some? <==>
            && |stored| in {0, 32} && |given| in {0, 32} && |key| > 0
            && (|stored| > 0 && |given| > 0 ==> stored == given)
            && c.addressOf(key) == Some(tx.from))
      && (r.Some? ==> r.value.pubKey == key && |key| == KEY_SIZE && r.value.register == (|stored| == 0))
  {
    if |given| > 0 && |given| != KEY_SIZE then None
    else if |stored| > 0 && |stored| != KEY_SIZE then None
    else if |stored| == 0 then
      if |given| == 0 then None
      else if c.addressOf(given) != Some(tx.from) then None
      else Some(Resolved(given, true))
    else if |given| > 0 && given != stored then None
    else if c.addressOf(stored) != Some(tx.from) then None
    else Some(Resolved(stored, false))
  }

  /** The bytes a sender signs fix everything in a transaction but its signature. */
  lemma SigningCommits(t: Transaction, u: Transaction)
    requires |SigningBytes(t)| <= MAX64 && SigningBytes(t) == SigningBytes(u)
    ensures t.from == u.from && t.to == u.to && t.nonce == u.nonce && t.payload == u.payload
  {
    hide Encoding.TxBytes;
    Encoding.TxInjective(t.(signature := []), u.(signature := []));
  }

  /** The transaction's bytes with the signature field emptied. */
  function SigningBytes(tx: Transaction): Bytes { Encoding.TxBytes(tx.(signature := [])) }

  predicate SignatureValid(c: Crypto, tx: Transaction, pubKey: Bytes) {
    && |pubKey| == KEY_SIZE
    && |tx.signature| == SIGNATURE_SIZE
    && c.verify(pubKey, SigningBytes(tx), tx.signature)
  }

  function HashTransaction(c: Crypto, tx: Transaction): Hash { c.sha(Encoding.TxBytes(tx)) }
}
