/** Byte buffers ("octets") as the P-256 binding sees them, and the fixed
    sizes it checks them against. */
module Octet {

  newtype byte = x: int | 0 <= x < 256

  /** Buffer sizes of the binding, in bytes. */
  const PK_SIZE: nat := 64
  const UNCOMPRESSED_PK_SIZE: nat := 65
  const COMPRESSED_PK_SIZE: nat := 33
  const PK_COORD_SIZE: nat := 32
  const SK_SIZE: nat := 32
  const HASH_SIZE: nat := 32
  const SIG_SIZE: nat := 64

  /** Prefix bytes of the SEC 1 point encodings. */
  const UNCOMPRESSED_PREFIX: byte := 0x04
  const EVEN_Y_PREFIX: byte := 0x02
  const ODD_Y_PREFIX: byte := 0x03

  /** `n` zero bytes. */
  function Zeros(n: nat): (z: seq<byte>)
    ensures |z| == n && forall i :: 0 <= i < n ==> z[i] == 0
  {
    seq(n, _ => 0)
  }

  /** The canonical 64-byte public key X || Y. */
  type RawKey = s: seq<byte> | |s| == PK_SIZE witness Zeros(64)
  /** A 33-byte buffer as the engine's compression writes and decompression reads it. */
  type CompressedKey = s: seq<byte> | |s| == COMPRESSED_PK_SIZE witness Zeros(33)
  /** A 32-byte secret scalar. */
  type SecretKey = s: seq<byte> | |s| == SK_SIZE witness Zeros(32)
  /** A 32-byte SHA-256 digest. */
  type Digest = s: seq<byte> | |s| == HASH_SIZE witness Zeros(32)
  /** A 64-byte signature r || s. */
  type Signature = s: seq<byte> | |s| == SIG_SIZE witness Zeros(64)
  /** One 32-byte affine coordinate. */
  type Coordinate = s: seq<byte> | |s| == PK_COORD_SIZE witness Zeros(32)

  datatype Option<+T> = None | Some(value: T)

  /** The contents of a host argument; `null` stands for an argument the
      host could not turn into an octet. */
  function View(a: array?<byte>): (v: Option<seq<byte>>)
    reads a
    ensures v.None? <==> a == null
    ensures a != null ==> v.value == a[..]
  {
    if a == null then None else Some(a[..])
  }
}
