/** The P-256 curve engine (p256-m) as an uninterpreted collaborator.

    Each entry point is a total function from its fixed-size input buffers
    to the status code it returns (0 is success) and the bytes it writes.
    The engine's random-number context is part of the `Engine` value, so
    randomness is a choice of engine, not an effect. */
module CurveEngine {
  import opened Octet

  datatype Engine = Engine(
    /** p256_uncompress_publickey(pub[64], in[33]) */
    uncompress: CompressedKey -> (int, RawKey),
    /** p256_compress_publickey(out[33], pub[64]) */
    compress: RawKey -> (int, CompressedKey),
    /** p256_publickey(priv[32], pub[64]) */
    publicKey: SecretKey -> (int, RawKey),
    /** p256_validate_pubkey(pub[64]) */
    validate: RawKey -> int,
    /** p256_ecdsa_sign(ctx, nonce, sig[64], priv[32], hash, 32); `None` is the NULL nonce */
    sign: (Option<seq<byte>>, SecretKey, Digest) -> (int, Signature),
    /** p256_ecdsa_verify(sig[64], pub[64], hash, 32) */
    verify: (Signature, RawKey, Digest) -> int
  )

  /** ECDSA correctness, as far as the binding relies on it: a signature the
      engine produces under a secret verifies under the public key the engine
      derives from that secret. */
  ghost predicate SignaturesVerify(e: Engine)
  {
    forall nonce: Option<seq<byte>>, sk: SecretKey, d: Digest
      :: e.sign(nonce, sk, d).0 == 0 && e.publicKey(sk).0 == 0 ==>
           e.verify(e.sign(nonce, sk, d).1, e.publicKey(sk).1, d) == 0
  }

  /** Point compression is lossless: a successful compression carries a
      0x02/0x03 prefix and decompresses back to the same point. */
  ghost predicate CompressionLossless(e: Engine)
  {
    forall raw: RawKey :: e.compress(raw).0 == 0 ==>
      var c := e.compress(raw).1;
      (c[0] == EVEN_Y_PREFIX || c[0] == ODD_Y_PREFIX) && e.uncompress(c) == (0, raw)
  }
}
