/** The operations of the P-256 binding: public-key derivation, key check,
    ECDSA sign and verify, coordinate extraction and compression.  Each one
    is a chain of checks that stops at the first failure, then one call
    into the curve engine, except `pub_xy`, which only splits the
    normalised key.  Each method is specified by a function of its
    arguments' contents. */
module P256 {
  import opened Octet
  import opened Errors
  import opened CurveEngine
  import opened Hash256
  import opened PublicKey

  /** What p256_ecdsa_sign is called with. */
  datatype SignCall = SignCall(nonce: Option<seq<byte>>, secret: SecretKey, digest: Digest)

  /** What p256_ecdsa_verify is called with. */
  datatype VerifyCall = VerifyCall(sig: Signature, key: RawKey, digest: Digest)

  // ---------------------------------------------------------------------
  // Specifications

  /** p256_pubgen */
  function PubGenSpec(e: Engine, sk: Option<seq<byte>>): (r: Outcome<RawKey>)
  {
    if sk.None? then Err(Thrown(NoSecretKey))
    else if |sk.value| != SK_SIZE then Err(Thrown(WrongPublicSecretSize))
    else
      var (rc, pk) := e.publicKey(sk.value);
      if rc != 0 then Err(Thrown(PublicKeyFailed)) else Ok(pk)
  }

  /** p256_pubcheck */
  function PubCheckSpec(e: Engine, pk: Option<seq<byte>>): (r: Outcome<bool>)
  {
    match NormalizeSpec(e, pk)
    case Err(f) => Err(f)
    case Ok(raw) => Ok(e.validate(raw) == 0)
  }

  /** The checks and the hashing of p256_sign, up to the engine call.  The
      ephemeral key is an argument only when more than two are given. */
  function SignRequest<S>(h: Hasher<S>, nArgs: int, sk: Option<seq<byte>>,
                          m: Option<seq<byte>>, k: Option<seq<byte>>): (r: Outcome<SignCall>)
  {
    if sk.None? then Err(Thrown(NoSecretKey))
    else if m.None? then Err(Thrown(NoMessage))
    else if |sk.value| != SK_SIZE then Err(Thrown(WrongSigningSecretSize))
    else
      var d := DigestOf(h, m.value);
      if nArgs > 2 && k.None? then Err(Thrown(NoEphemeralKey))
      else Ok(SignCall(if nArgs > 2 then k else None, sk.value, d))
  }

  /** p256_sign */
  function SignSpec<S>(e: Engine, h: Hasher<S>, nArgs: int, sk: Option<seq<byte>>,
                       m: Option<seq<byte>>, k: Option<seq<byte>>): (r: Outcome<Signature>)
  {
    match SignRequest(h, nArgs, sk, m, k)
    case Err(f) => Err(f)
    case Ok(call) =>
      var (rc, sig) := e.sign(call.nonce, call.secret, call.digest);
      if rc != 0 then Err(Thrown(SigningFailed)) else Ok(sig)
  }

  /** The checks and the hashing of p256_verify, up to the engine call. */
  function VerifyRequest<S>(e: Engine, h: Hasher<S>, pk: Option<seq<byte>>,
                            m: Option<seq<byte>>, sig: Option<seq<byte>>): (r: Outcome<VerifyCall>)
  {
    match NormalizeSpec(e, pk)
    case Err(f) => Err(f)
    case Ok(raw) =>
      if m.None? then Err(Thrown(NoMessage))
      else if sig.None? then Err(Thrown(NoSignature))
      else if |sig.value| != SIG_SIZE then Err(Thrown(WrongSignatureSize))
      else Ok(VerifyCall(sig.value, raw, DigestOf(h, m.value)))
  }

  /** p256_verify: a signature that does not verify is `false`, not an error. */
  function VerifySpec<S>(e: Engine, h: Hasher<S>, pk: Option<seq<byte>>,
                         m: Option<seq<byte>>, sig: Option<seq<byte>>): (r: Outcome<bool>)
  {
    match VerifyRequest(e, h, pk, m, sig)
    case Err(f) => Err(f)
    case Ok(call) => Ok(e.verify(call.sig, call.key, call.digest) == 0)
  }

  /** p256_pub_xy */
  function PubXYSpec(e: Engine, pk: Option<seq<byte>>): (r: Outcome<(Coordinate, Coordinate)>)
  {
    match NormalizeSpec(e, pk)
    case Err(f) => Err(f)
    case Ok(raw) => Ok((raw[..PK_COORD_SIZE], raw[PK_COORD_SIZE..]))
  }

  /** p256_compress_pub */
  function CompressSpec(e: Engine, pk: Option<seq<byte>>): (r: Outcome<CompressedKey>)
  {
    match NormalizeSpec(e, pk)
    case Err(f) => Err(f)
    case Ok(raw) =>
      var (rc, c) := e.compress(raw);
      if rc != 0 then Err(Thrown(CompressionFailed)) else Ok(c)
  }

  // ---------------------------------------------------------------------
  // The operations

  method PubGen(e: Engine, sk: array?<byte>) returns (r: Outcome<RawKey>)
    ensures r == PubGenSpec(e, View(sk))
  {
    if sk == null {
      return Err(Thrown(NoSecretKey));
    }
    if sk.Length != SK_SIZE {
      return Err(Thrown(WrongPublicSecretSize));
    }
    var (rc, pk) := e.publicKey(sk[..]);
    if rc != 0 {
      return Err(Thrown(PublicKeyFailed));
    }
    return Ok(pk);
  }

  method PubCheck(e: Engine, pk: array?<byte>) returns (r: Outcome<bool>)
    ensures r == PubCheckSpec(e, View(pk))
  {
    var raw := Normalize(e, pk);
    if raw.Err? {
      return Err(raw.failure);
    }
    return Ok(e.validate(raw.value) == 0);
  }

  method Sign<S>(e: Engine, h: Hasher<S>, nArgs: int, sk: array?<byte>, m: array?<byte>,
                 k: array?<byte>) returns (r: Outcome<Signature>)
    ensures r == SignSpec(e, h, nArgs, View(sk), View(m), View(k))
  {
    if sk == null {
      return Err(Thrown(NoSecretKey));
    }
    if m == null {
      return Err(Thrown(NoMessage));
    }
    if sk.Length != SK_SIZE {
      return Err(Thrown(WrongSigningSecretSize));
    }
    var digest := HashMessage(h, m);
    var nonce: Option<seq<byte>> := None;
    if nArgs > 2 {
      if k == null {
        return Err(Thrown(NoEphemeralKey));
      }
      nonce := Some(k[..]);
    }
    var (rc, sig) := e.sign(nonce, sk[..], digest);
    if rc != 0 {
      return Err(Thrown(SigningFailed));
    }
    return Ok(sig);
  }

  method Verify<S>(e: Engine, h: Hasher<S>, pk: array?<byte>, m: array?<byte>,
                   sig: array?<byte>) returns (r: Outcome<bool>)
    ensures r == VerifySpec(e, h, View(pk), View(m), View(sig))
  {
    var raw := Normalize(e, pk);
    if raw.Err? {
      return Err(raw.failure);
    }
    if m == null {
      return Err(Thrown(NoMessage));
    }
    if sig == null {
      return Err(Thrown(NoSignature));
    }
    if sig.Length != SIG_SIZE {
      return Err(Thrown(WrongSignatureSize));
    }
    var digest := HashMessage(h, m);
    return Ok(e.verify(sig[..], raw.value, digest) == 0);
  }

  /** The coordinates are copied into buffers of PK_COORD_SIZE + 1 bytes of
      which the first PK_COORD_SIZE are the coordinate. */
  method PubXY(e: Engine, pk: array?<byte>) returns (r: Outcome<(Coordinate, Coordinate)>)
    ensures r == PubXYSpec(e, View(pk))
  {
    var raw := Normalize(e, pk);
    if raw.Err? {
      return Err(raw.failure);
    }
    var x := new byte[PK_COORD_SIZE + 1];
    var i := 0;
    while i < PK_COORD_SIZE
      invariant 0 <= i <= PK_COORD_SIZE
      invariant x[..i] == raw.value[..i]
    {
      x[i] := raw.value[i];
      i := i + 1;
    }
    var y := new byte[PK_COORD_SIZE + 1];
    i := 0;
    while i < PK_COORD_SIZE
      invariant 0 <= i <= PK_COORD_SIZE
      invariant y[..i] == raw.value[PK_COORD_SIZE..PK_COORD_SIZE + i]
      invariant x[..PK_COORD_SIZE] == raw.value[..PK_COORD_SIZE]
    {
      y[i] := raw.value[PK_COORD_SIZE + i];
      i := i + 1;
    }
    assert raw.value[PK_COORD_SIZE..PK_COORD_SIZE + PK_COORD_SIZE] == raw.value[PK_COORD_SIZE..];
    return Ok((x[..PK_COORD_SIZE], y[..PK_COORD_SIZE]));
  }

  method CompressPublicKey(e: Engine, pk: array?<byte>) returns (r: Outcome<CompressedKey>)
    ensures r == CompressSpec(e, View(pk))
  {
    var raw := Normalize(e, pk);
    if raw.Err? {
      return Err(raw.failure);
    }
    var (rc, c) := e.compress(raw.value);
    if rc != 0 {
      return Err(Thrown(CompressionFailed));
    }
    return Ok(c);
  }

  // ---------------------------------------------------------------------
  // Properties

  /** pubgen checks the secret's presence, then its length, before it asks
      the engine; then the engine's status decides. */
  lemma PubGenChecks(e: Engine, e': Engine, sk: Option<seq<byte>>)
    ensures sk.None? ==> PubGenSpec(e, sk) == Err(Thrown(NoSecretKey))
    ensures sk.Some? && |sk.value| != SK_SIZE ==>
      PubGenSpec(e, sk) == PubGenSpec(e', sk) == Err(Thrown(WrongPublicSecretSize))
    ensures sk.Some? && |sk.value| == SK_SIZE ==>
      PubGenSpec(e, sk) ==
        (if e.publicKey(sk.value).0 == 0 then Ok(e.publicKey(sk.value).1) else Err(Thrown(PublicKeyFailed)))
  {
  }

  /** pubcheck passes normalisation failures through and otherwise answers
      whether the engine accepts the point. */
  lemma PubCheckAnswers(e: Engine, pk: Option<seq<byte>>)
    ensures NormalizeSpec(e, pk).Err? ==> PubCheckSpec(e, pk) == Err(NormalizeSpec(e, pk).failure)
    ensures NormalizeSpec(e, pk).Ok? ==>
      PubCheckSpec(e, pk) == Ok(e.validate(NormalizeSpec(e, pk).value) == 0)
  {
  }

  /** pubcheck gives one answer for the raw, the 0x04 and a decompressing
      compressed encoding of a point: whether the engine validates it. */
  lemma PubCheckAllEncodings(e: Engine, xy: RawKey, c: CompressedKey)
    requires IsCompressedPrefix(c[0]) && e.uncompress(c) == (0, xy)
    ensures PubCheckSpec(e, Some(Encode(Raw(xy)))) == Ok(e.validate(xy) == 0)
    ensures PubCheckSpec(e, Some(Encode(Uncompressed(xy)))) == Ok(e.validate(xy) == 0)
    ensures PubCheckSpec(e, Some(Encode(Compressed(c)))) == Ok(e.validate(xy) == 0)
  {
    EncodingsAgree(e, xy, c);
  }

  /** A missing or wrong-sized secret fails before any hashing or engine
      call: the outcome is the same whatever the engine and the hasher. */
  lemma SignChecksSecretFirst<S>(e: Engine, e': Engine, h: Hasher<S>, h': Hasher<S>, nArgs: int,
                                 sk: Option<seq<byte>>, m: Option<seq<byte>>, k: Option<seq<byte>>)
    requires sk.None? || m.None? || |sk.value| != SK_SIZE
    ensures SignSpec(e, h, nArgs, sk, m, k) == SignSpec(e', h', nArgs, sk, m, k)
    ensures SignSpec(e, h, nArgs, sk, m, k) ==
      Err(Thrown(if sk.None? then NoSecretKey else if m.None? then NoMessage else WrongSigningSecretSize))
  {
  }

  /** sign succeeds exactly when every check passes and the engine returns 0;
      its signature is the engine's, over the digest of the message, and a
      non-zero status becomes the signing error. */
  lemma SignOutcome<S>(e: Engine, h: Hasher<S>, nArgs: int, sk: Option<seq<byte>>,
                       m: Option<seq<byte>>, k: Option<seq<byte>>)
    requires sk.Some? && m.Some? && |sk.value| == SK_SIZE && (nArgs > 2 ==> k.Some?)
    ensures var out := e.sign(if nArgs > 2 then k else None, sk.value, DigestOf(h, m.value));
      SignSpec(e, h, nArgs, sk, m, k) == if out.0 == 0 then Ok(out.1) else Err(Thrown(SigningFailed))
  {
  }

  /** The ephemeral key argument is read only when more than two arguments
      are given, and then it must be present. */
  lemma SignNonceArgument<S>(h: Hasher<S>, nArgs: int, sk: Option<seq<byte>>,
                             m: Option<seq<byte>>, k: Option<seq<byte>>, k': Option<seq<byte>>)
    ensures nArgs <= 2 ==> SignRequest(h, nArgs, sk, m, k) == SignRequest(h, nArgs, sk, m, k')
    ensures nArgs <= 2 && SignRequest(h, nArgs, sk, m, k).Ok? ==>
      SignRequest(h, nArgs, sk, m, k).value.nonce == None
    ensures nArgs > 2 && SignRequest(h, nArgs, sk, m, k).Ok? ==>
      SignRequest(h, nArgs, sk, m, k).value.nonce == k && k.Some?
    ensures nArgs > 2 && sk.Some? && m.Some? && |sk.value| == SK_SIZE && k.None? ==>
      SignRequest(h, nArgs, sk, m, k) == Err(Thrown(NoEphemeralKey))
  {
  }

  /** A public key that does not normalise stops verify before the message,
      the signature or the hash are looked at. */
  lemma VerifyNormalizesFirst<S>(e: Engine, h: Hasher<S>, h': Hasher<S>, pk: Option<seq<byte>>,
                                 m: Option<seq<byte>>, m': Option<seq<byte>>,
                                 sig: Option<seq<byte>>, sig': Option<seq<byte>>)
    requires NormalizeSpec(e, pk).Err?
    ensures VerifySpec(e, h, pk, m, sig) == VerifySpec(e, h', pk, m', sig')
              == Err(NormalizeSpec(e, pk).failure)
  {
  }

  /** With a good key and a message, a signature whose length is not 64 fails
      before hashing: the outcome does not depend on the hasher. */
  lemma VerifyChecksSignatureLength<S>(e: Engine, h: Hasher<S>, h': Hasher<S>, pk: Option<seq<byte>>,
                                       m: Option<seq<byte>>, sig: Option<seq<byte>>)
    requires NormalizeSpec(e, pk).Ok? && m.Some? && sig.Some? && |sig.value| != SIG_SIZE
    ensures VerifySpec(e, h, pk, m, sig) == VerifySpec(e, h', pk, m, sig) == Err(Thrown(WrongSignatureSize))
  {
  }

  /** Once every check passes, verify answers true exactly when the engine's
      verification returns 0. */
  lemma VerifyAnswers<S>(e: Engine, h: Hasher<S>, pk: Option<seq<byte>>,
                         m: Option<seq<byte>>, sig: Option<seq<byte>>)
    requires NormalizeSpec(e, pk).Ok? && m.Some? && sig.Some? && |sig.value| == SIG_SIZE
    ensures VerifySpec(e, h, pk, m, sig).Ok?
    ensures VerifySpec(e, h, pk, m, sig).value <==>
      e.verify(sig.value, NormalizeSpec(e, pk).value, DigestOf(h, m.value)) == 0
  {
  }

  /** sign and verify hand the engine the same digest for the same message:
      the one of feeding its bytes in order into a fresh hash state. */
  lemma SameDigest<S>(e: Engine, h: Hasher<S>, nArgs: int, sk: Option<seq<byte>>, k: Option<seq<byte>>,
                      pk: Option<seq<byte>>, m: Option<seq<byte>>, sig: Option<seq<byte>>)
    requires SignRequest(h, nArgs, sk, m, k).Ok? && VerifyRequest(e, h, pk, m, sig).Ok?
    ensures SignRequest(h, nArgs, sk, m, k).value.digest == VerifyRequest(e, h, pk, m, sig).value.digest
    ensures SignRequest(h, nArgs, sk, m, k).value.digest == h.finish(FeedFrom(h, h.init, m.value))
  {
    DigestFeedsInOrder(h, m.value);
  }

  /** The coordinates are the two halves of the normalised key, in order;
      conversely every normalised key is returned split in two. */
  lemma PubXYSplits(e: Engine, pk: Option<seq<byte>>, x: Coordinate, y: Coordinate)
    ensures PubXYSpec(e, pk) == Ok((x, y)) <==> NormalizeSpec(e, pk) == Ok(x + y)
  {
    if NormalizeSpec(e, pk) == Ok(x + y) {
      assert (x + y)[..PK_COORD_SIZE] == x && (x + y)[PK_COORD_SIZE..] == y;
    }
    if PubXYSpec(e, pk) == Ok((x, y)) {
      var raw := NormalizeSpec(e, pk).value;
      assert raw == raw[..PK_COORD_SIZE] + raw[PK_COORD_SIZE..];
    }
  }

  /** The operations see the public key only through its normalisation, so
      every encoding of one point gives the same outcomes. */
  lemma EncodingIndependent<S>(e: Engine, h: Hasher<S>, p: Option<seq<byte>>, q: Option<seq<byte>>,
                               m: Option<seq<byte>>, sig: Option<seq<byte>>)
    requires NormalizeSpec(e, p) == NormalizeSpec(e, q)
    ensures PubCheckSpec(e, p) == PubCheckSpec(e, q)
    ensures VerifySpec(e, h, p, m, sig) == VerifySpec(e, h, q, m, sig)
    ensures PubXYSpec(e, p) == PubXYSpec(e, q)
    ensures CompressSpec(e, p) == CompressSpec(e, q)
  {
  }

  /** If the engine's compression is lossless, a compressed key produced by
      compress normalises back to the key it came from, so coordinates and
      verification agree on the two. */
  lemma CompressRoundTrip(e: Engine, pk: Option<seq<byte>>)
    requires CompressionLossless(e) && CompressSpec(e, pk).Ok?
    ensures NormalizeSpec(e, Some(CompressSpec(e, pk).value)) == NormalizeSpec(e, pk)
    ensures PubXYSpec(e, Some(CompressSpec(e, pk).value)) == PubXYSpec(e, pk)
  {
    var raw := NormalizeSpec(e, pk).value;
    var c := CompressSpec(e, pk).value;
    assert e.compress(raw).1 == c;
    NormalizeCompressed(e, e, c);
  }

  /** End to end: with an engine whose signatures verify, a message signed
      with a secret verifies under the public key pubgen derives from it,
      given in the raw, the uncompressed or (through compress) the
      compressed encoding. */
  lemma SignThenVerify<S>(e: Engine, h: Hasher<S>, nArgs: int, sk: Option<seq<byte>>,
                          m: Option<seq<byte>>, k: Option<seq<byte>>)
    requires SignaturesVerify(e) && CompressionLossless(e)
    requires PubGenSpec(e, sk).Ok? && SignSpec(e, h, nArgs, sk, m, k).Ok?
    ensures var pk := PubGenSpec(e, sk).value;
      var sig := Some(SignSpec(e, h, nArgs, sk, m, k).value);
      VerifySpec(e, h, Some(Encode(Raw(pk))), m, sig) == Ok(true)
      && VerifySpec(e, h, Some(Encode(Uncompressed(pk))), m, sig) == Ok(true)
      && (CompressSpec(e, Some(pk)).Ok? ==>
            VerifySpec(e, h, Some(CompressSpec(e, Some(pk)).value), m, sig) == Ok(true))
  {
    var pk := PubGenSpec(e, sk).value;
    var call := SignRequest(h, nArgs, sk, m, k).value;
    assert e.sign(call.nonce, call.secret, call.digest).0 == 0;
    assert e.verify(e.sign(call.nonce, call.secret, call.digest).1, pk, call.digest) == 0;
    ParseEncode(Uncompressed(pk));
    EncodingIndependent(e, h, Some(Encode(Raw(pk))), Some(Encode(Uncompressed(pk))),
                        m, Some(SignSpec(e, h, nArgs, sk, m, k).value));
    if CompressSpec(e, Some(pk)).Ok? {
      CompressRoundTrip(e, Some(pk));
      EncodingIndependent(e, h, Some(Encode(Raw(pk))), Some(CompressSpec(e, Some(pk)).value),
                          m, Some(SignSpec(e, h, nArgs, sk, m, k).value));
    }
  }
}
