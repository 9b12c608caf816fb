/** The cryptographic primitives the identity code calls, passed in as values:
    Ed25519 public-key derivation and signing (RFC 8032), SHA-256, and the
    standard base64 alphabet of section 4 of RFC 4648. Nothing here computes
    them; every property proved elsewhere holds for any choice of these
    functions, and only their input and output widths are fixed. */
module Crypto {
  import opened Base

  /** The 32-byte Ed25519 private key (its seed). */
  type Seed = Bytes32
  /** The raw 32-byte Ed25519 public key. */
  type PublicKey = Bytes32
  type Signature = Bytes64
  type Digest = Bytes32

  datatype Primitives = Primitives(
    publicKeyOf: Seed -> PublicKey,
    sign: (Seed, seq<byte>) -> Signature,
    sha256: seq<byte> -> Digest,
    base64: seq<byte> -> string)
}
