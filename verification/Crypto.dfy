/** The libraries the secrets store calls, as parameters: SHA-256, AES-GCM,
    UTF-8 conversion and the JSON codec of the store file. Lawful says all that
    the proofs use of them. */
module Crypto {
  import opened Wrappers
  import opened Base64

  const KEK_BYTES: nat := 32
  const NONCE_BYTES: nat := 12

  /** The JSON document in the store file: key to base64(nonce|ciphertext). */
  datatype DiskBlob = DiskBlob(version: int, entries: map<string, string>)

  datatype Library = Library(
    sha256: Bytes -> Bytes,
    seal: (Bytes, Bytes, Bytes) -> Bytes,
    open: (Bytes, Bytes, Bytes) -> Option<Bytes>,
    toBytes: string -> Bytes,
    toString: Bytes -> string,
    marshal: DiskBlob -> Bytes,
    unmarshal: Bytes -> Option<DiskBlob>)
  {
    ghost predicate Lawful() {
      && (forall m :: |sha256(m)| == KEK_BYTES)
      && (forall k, n, p | |k| == KEK_BYTES && |n| == NONCE_BYTES :: open(k, n, seal(k, n, p)) == Some(p))
      && (forall s :: toString(toBytes(s)) == s)
      && (forall b :: unmarshal(marshal(b)) == Some(b))
    }
  }
}
