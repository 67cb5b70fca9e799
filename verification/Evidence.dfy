/** What durable evidence is made of: bytes and their SHA-256 digests. */
module Evidence {
  newtype byte = x: int | 0 <= x < 256

  type Bytes = seq<byte>

  // SHA-256, taken to be injective.
  datatype Digest = Sha256(bytes: Bytes)
}
