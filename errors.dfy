/** How an operation of the binding ends: with a value, with an error raised
    to the host, or by returning early without an error message. */
module Errors {

  datatype Failure =
    | Thrown(msg: string)   // failed_msg set: the host sees this error
    | Silent(code: int)     // non-zero return code but no failed_msg

  datatype Outcome<+T> = Ok(value: T) | Err(failure: Failure)

  /** Messages of the public-key normaliser. */
  const NoPublicKey := "Could not allocate public key"
  const WrongUncompressedPrefix := "Invalid long public key prefix: 0x04 expected"
  const WrongCompressedPrefix := "Invalid compressed public key prefix: 0x02 or 0x03 expected"
  const WrongKeyLength := "Invalid public key length"

  /** Messages of the operations. */
  const NoSecretKey := "Could not allocate secret key"
  const WrongPublicSecretSize := "Invalid size for P256 secret key"
  const PublicKeyFailed := "Could not generate public key"
  const NoMessage := "Could not allocate message"
  const WrongSigningSecretSize := "Invalid size for ECDSA secret key"
  const NoEphemeralKey := "Could not allocate ephemeral key"
  const SigningFailed := "Could not sign message"
  const NoSignature := "Could not allocate signature"
  const WrongSignatureSize := "Invalid size for P256 signature"
  const CompressionFailed := "Could not compress public key"
}
