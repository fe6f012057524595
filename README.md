# P-256 binding: public-key normalisation and request validation

This project models the Lua binding of Zenroom to the p256-m curve library
(`src/zen_p256.c`). It covers the layer between untrusted byte buffers and the
curve arithmetic:

- the public-key normaliser. It accepts three layouts. The 65-byte
  `0x04 || X || Y` key and the 33-byte `0x02/0x03 || X` key follow the point
  encodings of SEC 1 v2.0, sections 2.3.3 and 2.3.4. The unprefixed 64-byte
  X || Y key is the binding's own raw layout. The normaliser turns each into
  the canonical 64-byte raw key and rejects everything else;
- the operations built on it: `pubgen`, `pubcheck`, `sign`, `verify`,
  `pub_xy` and `compress_public_key`. Each is a chain of checks that stops at
  the first failure (the source's `failed_msg` / `goto end` pattern), then one
  call into the curve engine, except `pub_xy`, which only splits the
  normalised key.

Layout:

- `octet.dfy` (module `Octet`): bytes, the size constants, fixed-size buffer
  types, and `View`, the contents of a host argument. A host argument that
  `o_arg` cannot turn into an octet (it returns NULL) is a `null` array.
- `errors.dfy` (module `Errors`): how an operation ends. An operation either
  returns a value (`Ok`), raises one of the source's exact error strings
  (`Thrown`), or returns a non-zero code with no message (`Silent`).
- `engine.dfy` (module `CurveEngine`): the curve engine as a record of total
  functions, one per p256-m entry point except `p256_gen_keypair`, since
  keygen is left out. Each returns a status code and, where it
  writes one, the output buffer. The engine's random-number context is folded into the
  record. Two predicates state the engine properties that the end-to-end
  lemmas assume: sign/verify correctness and lossless compression.
- `hash256.dfy` (module `Hash256`): the streaming SHA-256 interface over an
  abstract state (`init`, `process` one byte, `finish` to 32 bytes), and the
  per-byte hashing loop of `sign` and `verify`.
- `publickey.dfy` (module `PublicKey`): the length/prefix dispatch as a pure
  `Parse` into a tagged `Encoding`, its inverse `Encode`,
  `NormalizeSpec`, and the `Normalize` method with its byte-copy loops.
- `p256.dfy` (module `P256`): a specification function for each operation, a
  method for each operation proved equal to it, and the properties.

Where the code departs from what these operations usually promise, the model
follows the code:

- A failed decompression of a 33-byte key returns the engine's non-zero code
  without setting `failed_msg` (src/zen_p256.c:81-83). Callers therefore end
  without raising an error. The model gives this outcome as `Silent(code)`,
  not as a decompression error.
- The error strings are those of src/zen_p256.c.
- `sign` checks that the secret and the message are present before it checks
  the secret's length. `verify` checks that the message and the signature are
  present, in that order, after normalising the key.

## Model

| member | source | states |
|---|---|---|
| `PublicKey.Normalize` | src/zen_p256.c:45-88 | The method's result equals `NormalizeSpec` of the argument's contents. The copy loops fill the 64-byte buffer with the input, or with the input without its prefix. |
| `PublicKey.ParseEncode` | src/zen_p256.c:58-84 | Every well-formed encoding (raw, `0x04`-prefixed, or compressed with a `0x02`/`0x03` prefix) is parsed back as itself. |
| `PublicKey.EncodeParse` | src/zen_p256.c:58-84 | Every accepted byte string is a well-formed encoding written out, byte for byte. |
| `PublicKey.ParseAcceptsExactly` | src/zen_p256.c:58-87 | A key is accepted if and only if it has 64 bytes, or 65 bytes starting with `0x04`, or 33 bytes starting with `0x02` or `0x03`. |
| `PublicKey.NormalizeRaw` | src/zen_p256.c:58-62 | A 64-byte input succeeds, and its output equals the input. |
| `PublicKey.NormalizeUncompressed` | src/zen_p256.c:63-73 | A 65-byte input starting with `0x04` gives `input[1..65]`. Any other first byte fails with the "0x04 expected" error. |
| `PublicKey.NormalizeCompressed` | src/zen_p256.c:74-84 | A 33-byte input with a prefix other than `0x02`/`0x03` fails with the prefix error, whatever the engine. Otherwise the outcome is exactly the engine's decompression: its key on status 0, and a message-less failure carrying its code otherwise. |
| `PublicKey.NormalizeWrongLength` | src/zen_p256.c:85-87 | Any length other than 64, 65 and 33 fails with "Invalid public key length". |
| `PublicKey.NormalizeOk` | src/zen_p256.c:51-87 | Success implies an accepted layout. A successful raw or uncompressed key yields the input's last 64 bytes. A message-less failure happens exactly on a well-prefixed 33-byte key that the engine fails to decompress. |
| `PublicKey.EncodingsAgree` | src/zen_p256.c:58-84 | The raw form, the `0x04` form, and a compressed form that the engine decompresses to the same point all normalise to that same point. |
| `PublicKey.RejectionExamples` | src/zen_p256.c:63-87 | A 65-byte key with prefix `0x01` and a 33-byte key with prefix `0x00` fail with their prefix errors. A 10-byte key fails with the length error. |
| `Hash256.HashMessage` | src/zen_p256.c:190-195 | It initialises the hash, feeds `m[0] .. m[len-1]` one by one, and returns the digest of the whole message. |
| `Hash256.AbsorbThenFeed` | src/zen_p256.c:191-194 | Absorbing `a` and then feeding `b` byte by byte gives the state of absorbing `a ++ b`. |
| `Hash256.DigestFeedsInOrder` | src/zen_p256.c:190-195 | The digest is the one obtained by feeding the message's bytes in order into a freshly initialised state. |
| `P256.PubGen` | src/zen_p256.c:105-141 | The method equals `PubGenSpec`: checks that the secret is present, checks its length, then makes the engine call. |
| `P256.PubGenChecks` | src/zen_p256.c:111-133 | A missing secret and a secret not of 32 bytes fail with their messages, whatever the engine. A 32-byte secret gives the engine's key on status 0, and "Could not generate public key" otherwise. |
| `P256.PubCheck` | src/zen_p256.c:150-163 | The method equals `PubCheckSpec` of the argument's contents. |
| `P256.PubCheckAnswers` | src/zen_p256.c:154-156 | A normalisation failure is passed through unchanged. Otherwise the result is true if and only if the engine's validate returns 0 on the normalised key. |
| `P256.PubCheckAllEncodings` | src/zen_p256.c:150-163 | The raw, `0x04` and compressed encodings of one point get the same pubcheck answer: whether the engine's validate accepts that point. |
| `P256.Sign` | src/zen_p256.c:165-230 | The method equals `SignSpec`. It reads the ephemeral key only when more than two arguments are given. |
| `P256.SignChecksSecretFirst` | src/zen_p256.c:176-189 | A missing secret, a missing message, or a secret not of 32 bytes fails with the matching message. The outcome is the same for every engine and every hasher, so neither is consulted. |
| `P256.SignOutcome` | src/zen_p256.c:189-219 | Once the checks pass, the signature is the engine's over the message's digest. A non-zero engine status becomes "Could not sign message". |
| `P256.SignNonceArgument` | src/zen_p256.c:205-213 | With at most two arguments, the third is ignored and a NULL nonce is passed. With more, it must be present and is passed through. |
| `P256.Verify` | src/zen_p256.c:232-276 | The method equals `VerifySpec` of the arguments' contents. |
| `P256.VerifyNormalizesFirst` | src/zen_p256.c:240-241 | A key that does not normalise ends `verify` with that failure, whatever the message, the signature and the hasher. |
| `P256.VerifyChecksSignatureLength` | src/zen_p256.c:255 | Given a good key and a message, a signature not of 64 bytes fails with "Invalid size for P256 signature", whatever the hasher. |
| `P256.VerifyAnswers` | src/zen_p256.c:264-266 | Once the checks pass, the result is a boolean. It is true if and only if the engine's verify returns 0 on the signature, the normalised key and the message's digest. |
| `P256.SameDigest` | src/zen_p256.c:190-195 | `sign` and `verify` hand the engine the same digest for the same message (it is computed again at lines 257-262). That digest comes from feeding the bytes in order into a fresh state. |
| `P256.PubXY` | src/zen_p256.c:278-310 | The method equals `PubXYSpec`. The copy loops fill x with the key's first 32 bytes and y with its last 32 bytes. |
| `P256.PubXYSplits` | src/zen_p256.c:290-302 | The result is `(x, y)` if and only if the normalised key is `x ++ y`. |
| `P256.CompressPublicKey` | src/zen_p256.c:318-341 | The method equals `CompressSpec`: normalise, then compress. A non-zero engine status becomes "Could not compress public key". |
| `P256.EncodingIndependent` | src/zen_p256.c:150-341 | Two keys that normalise alike give the same pubcheck, verify, pub_xy and compress outcomes. |
| `P256.CompressRoundTrip` | src/zen_p256.c:318-334 | Given an engine whose compression is lossless, the compressed key normalises back to the original, so `pub_xy` agrees on both. |
| `P256.SignThenVerify` | src/zen_p256.c:105-276 | Given an engine whose signatures verify, a message signed with a secret verifies to `true` under the public key derived from that secret. This holds for the raw, uncompressed and compressed forms of the key. |

## Left out

- The curve engine (`p256_uncompress_publickey`, `p256_compress_publickey`, `p256_publickey`, `p256_validate_pubkey`, `p256_ecdsa_sign`, `p256_ecdsa_verify`): each is a function field of `CurveEngine.Engine`, not field or group arithmetic. ECDSA correctness and lossless compression are hypotheses of the lemmas that need them.
- SHA-256 internals (`HASH256_init`, `HASH256_process`, `HASH256_hash`): they are parameters of `Hash256.Hasher`.
- `p256_keygen` (lines 90-103) is not modelled: it is one random-number-driven engine call with nothing to check.
- `p256_session` and `p256_destroy` are not modelled: they do nothing.
- `luaopen_p256` (the registration table) and all Lua stack handling are not modelled. This includes what value the host receives after a `Silent` failure, since `END` is not part of this model.
- Failure of the allocation of an output or scratch buffer (`o_alloc` / `o_new`) is not modelled. This drops the messages "Could not allocate raw public key", "Could not allocate public key" at line 123, "Could not allocate signature" at line 200, "Could not create x coordinate", "Could not create y coordinate" and "Could not create compressed public key". A NULL from `o_arg` (an argument that cannot be read) is modelled.
- The zero written at index `PK_COORD_SIZE + 1` of the 33-byte coordinate buffers (lines 292 and 301) is not reproduced. That index is one past the end of the buffer. The model keeps exactly 32 bytes per coordinate.
- Memory release on every exit path (`o_free`) and buffer lifetimes are not modelled.
- In `sign` the message is hashed before the ephemeral argument is looked up. The model is pure, so this order is not observable in it.
- Integer widths of the loop counters (`uint8_t`, `int`) are not modelled: the byte-copy loops run to at most 64; the hashing loops' `int` counter stays below `m->len`, itself an `int`, so no counter wraps.
