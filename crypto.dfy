/**
 * Symbolic models of the two cryptographic libraries the account code relies on:
 * PBKDF2 password hashing in a PHC string, and the Branca authenticated token
 * envelope. Both are foreign code; here they are free constructors, so that the
 * only facts available are the ones the libraries promise (a digest is determined
 * by password and salt; a sealed envelope opens only with its own key).
 */
module Crypto {
  import opened Wrappers

  newtype byte = x: int | 0 <= x < 256

  /** The server-wide symmetric key (`AuthSecret::key`). */
  type Key = seq<byte>

  /** A salt as a PHC salt string (produced from `OsRng` in the source). */
  type Salt = string

  /** The PBKDF2 derivation of a password under a salt, kept symbolic. */
  datatype Digest = Pbkdf2Sha256(password: string, salt: Salt)

  /**
   * A stored password hash: either a well-formed PHC string carrying its salt and
   * digest, or some text that does not parse as a PHC string.
   */
  datatype PhcString = Phc(salt: Salt, digest: Digest) | Unparsable(text: string)

  /** `Pbkdf2.hash_password(password, salt)` rendered as a PHC string. */
  function Pbkdf2Hash(password: string, salt: Salt): (h: PhcString)
    ensures h.Phc? && h.salt == salt
  {
    Phc(salt, Pbkdf2Sha256(password, salt))
  }

  /** `Pbkdf2.verify_password(attempted, h)`: recompute under h's salt and compare. */
  predicate Pbkdf2Verify(attempted: string, salt: Salt, digest: Digest)
    ensures Pbkdf2Verify(attempted, salt, digest) <==> Pbkdf2Hash(attempted, salt) == Phc(salt, digest)
  {
    Pbkdf2Sha256(attempted, salt) == digest
  }

  lemma Pbkdf2VerifyHash(password: string, attempted: string, salt: Salt)
    ensures Pbkdf2Verify(attempted, salt, Pbkdf2Hash(password, salt).digest) <==> attempted == password
  {
  }

  /**
   * A Branca token. `Sealed` is an envelope produced by `branca::encode` under `key`
   * at `timestamp` (seconds since the Unix epoch); `Garbled` is any string that does
   * not authenticate: corrupted, truncated or forged.
   */
  datatype BrancaToken = Sealed(key: Key, payload: string, timestamp: nat) | Garbled(text: string)

  /** `branca::encode(payload, key, timestamp)`. The random nonce is not modelled. */
  function BrancaEncode(payload: string, key: Key, timestamp: nat): (t: BrancaToken)
    ensures t.Sealed? && t.key == key && t.payload == payload && t.timestamp == timestamp
  {
    Sealed(key, payload, timestamp)
  }

  /**
   * `branca::decode(token, key, ttl)` at time `now`: the token must authenticate
   * under `key`, and when `ttl != 0` it is expired once `timestamp + ttl < now`.
   */
  function BrancaDecode(token: BrancaToken, key: Key, ttl: nat, now: nat): (r: Option<string>)
    ensures r.Some? <==> token.Sealed? && token.key == key && (ttl == 0 || now <= token.timestamp + ttl)
    ensures r.Some? ==> r.value == token.payload
  {
    match token
    case Garbled(_) => None
    case Sealed(k, payload, timestamp) =>
      if k != key then None
      else if ttl != 0 && timestamp + ttl < now then None
      else Some(payload)
  }

  /** Opening an envelope with its own key within its lifetime gives the payload back; nothing else opens it. */
  lemma BrancaRoundTrip(payload: string, key: Key, key': Key, timestamp: nat, ttl: nat, now: nat)
    ensures BrancaDecode(BrancaEncode(payload, key, timestamp), key', ttl, now) ==
            if key' == key && (ttl == 0 || now <= timestamp + ttl) then Some(payload) else None
  {
  }
}
