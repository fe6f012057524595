/** The public-key normaliser: every accepted encoding of a P-256 public
    key is brought to the raw 64-byte form X || Y before any other
    operation uses it.  The 0x04 and 0x02/0x03 encodings are those of
    SEC 1 v2.0, sections 2.3.3 and 2.3.4; the unprefixed 64-byte form is
    the binding's own raw layout. */
module PublicKey {
  import opened Octet
  import opened Errors
  import opened CurveEngine

  /** The three accepted layouts, told apart by length and first byte. */
  datatype Encoding =
    | Raw(xy: RawKey)                  // X || Y
    | Uncompressed(xy: RawKey)         // 0x04 || X || Y
    | Compressed(key: CompressedKey)   // 0x02 or 0x03 || X

  datatype Rejection = WrongUncompressedPrefixByte | WrongCompressedPrefixByte | WrongLength

  datatype Parsed = Accepted(encoding: Encoding) | Rejected(why: Rejection)

  predicate IsCompressedPrefix(b: byte)
  {
    b == EVEN_Y_PREFIX || b == ODD_Y_PREFIX
  }

  /** An encoding that can be written on the wire: a compressed key carries
      one of the two parity prefixes. */
  predicate WellFormed(enc: Encoding)
  {
    enc.Compressed? ==> IsCompressedPrefix(enc.key[0])
  }

  /** The byte string of an encoding. */
  function Encode(enc: Encoding): (s: seq<byte>)
  {
    match enc
    case Raw(xy) => xy
    case Uncompressed(xy) => [UNCOMPRESSED_PREFIX] + xy
    case Compressed(key) => key
  }

  /** The length / prefix dispatch of the normaliser, without the engine. */
  function Parse(s: seq<byte>): (p: Parsed)
  {
    if |s| == PK_SIZE then Accepted(Raw(s))
    else if |s| == UNCOMPRESSED_PK_SIZE then
      if s[0] != UNCOMPRESSED_PREFIX then Rejected(WrongUncompressedPrefixByte)
      else Accepted(Uncompressed(s[1..]))
    else if |s| == COMPRESSED_PK_SIZE then
      if !IsCompressedPrefix(s[0]) then Rejected(WrongCompressedPrefixByte)
      else Accepted(Compressed(s))
    else Rejected(WrongLength)
  }

  function RejectionMessage(why: Rejection): (msg: string)
  {
    match why
    case WrongUncompressedPrefixByte => WrongUncompressedPrefix
    case WrongCompressedPrefixByte => WrongCompressedPrefix
    case WrongLength => WrongKeyLength
  }

  /** allocate_raw_public_key: the raw key for a host argument, or why there
      is none.  A failed decompression ends silently with the engine's code. */
  function NormalizeSpec(e: Engine, arg: Option<seq<byte>>): (r: Outcome<RawKey>)
  {
    match arg
    case None => Err(Thrown(NoPublicKey))
    case Some(s) =>
      match Parse(s)
      case Rejected(why) => Err(Thrown(RejectionMessage(why)))
      case Accepted(Raw(xy)) => Ok(xy)
      case Accepted(Uncompressed(xy)) => Ok(xy)
      case Accepted(Compressed(key)) =>
        var (rc, xy) := e.uncompress(key);
        if rc == 0 then Ok(xy) else Err(Silent(rc))
  }

  /** allocate_raw_public_key, with its byte-copy loops into a fresh
      64-byte buffer. */
  method Normalize(e: Engine, pk: array?<byte>) returns (r: Outcome<RawKey>)
    ensures r == NormalizeSpec(e, View(pk))
  {
    if pk == null {
      return Err(Thrown(NoPublicKey));
    }
    var res := new byte[PK_SIZE];
    if pk.Length == PK_SIZE {
      var i := 0;
      while i < PK_SIZE
        invariant 0 <= i <= PK_SIZE
        invariant res[..i] == pk[..i]
      {
        res[i] := pk[i];
        i := i + 1;
      }
      assert res[..] == pk[..];
      return Ok(res[..]);
    }
    if pk.Length == UNCOMPRESSED_PK_SIZE {
      if pk[0] != UNCOMPRESSED_PREFIX {
        return Err(Thrown(WrongUncompressedPrefix));
      }
      var i := 0;
      while i < PK_SIZE
        invariant 0 <= i <= PK_SIZE
        invariant res[..i] == pk[1..i + 1]
      {
        res[i] := pk[i + 1];
        i := i + 1;
      }
      assert res[..] == pk[1..];
      return Ok(res[..]);
    }
    if pk.Length == COMPRESSED_PK_SIZE {
      if pk[0] != EVEN_Y_PREFIX && pk[0] != ODD_Y_PREFIX {
        return Err(Thrown(WrongCompressedPrefix));
      }
      var (rc, xy) := e.uncompress(pk[..]);
      return if rc == 0 then Ok(xy) else Err(Silent(rc));
    }
    return Err(Thrown(WrongKeyLength));
  }

  // ---------------------------------------------------------------------
  // The encoding round trip

  /** Every well-formed encoding is read back as itself. */
  lemma ParseEncode(enc: Encoding)
    requires WellFormed(enc)
    ensures Parse(Encode(enc)) == Accepted(enc)
  {
    match enc
    case Raw(xy) =>
    case Uncompressed(xy) =>
      assert Encode(enc)[1..] == xy;
    case Compressed(key) =>
  }

  /** Every accepted byte string is a well-formed encoding written out. */
  lemma EncodeParse(s: seq<byte>)
    requires Parse(s).Accepted?
    ensures WellFormed(Parse(s).encoding) && Encode(Parse(s).encoding) == s
  {
    if |s| == UNCOMPRESSED_PK_SIZE {
      assert s == [s[0]] + s[1..];
    }
  }

  /** Exactly three shapes are accepted. */
  lemma ParseAcceptsExactly(s: seq<byte>)
    ensures Parse(s).Accepted? <==>
      |s| == PK_SIZE
      || (|s| == UNCOMPRESSED_PK_SIZE && s[0] == UNCOMPRESSED_PREFIX)
      || (|s| == COMPRESSED_PK_SIZE && IsCompressedPrefix(s[0]))
  {
  }

  // ---------------------------------------------------------------------
  // The normaliser, branch by branch

  /** A 64-byte key is copied through byte for byte. */
  lemma NormalizeRaw(e: Engine, s: seq<byte>)
    requires |s| == PK_SIZE
    ensures NormalizeSpec(e, Some(s)) == Ok(s)
  {
  }

  /** A 65-byte key loses its 0x04 prefix, and any other prefix is refused. */
  lemma NormalizeUncompressed(e: Engine, s: seq<byte>)
    requires |s| == UNCOMPRESSED_PK_SIZE
    ensures s[0] == UNCOMPRESSED_PREFIX ==> NormalizeSpec(e, Some(s)) == Ok(s[1..])
    ensures s[0] != UNCOMPRESSED_PREFIX ==>
      NormalizeSpec(e, Some(s)) == Err(Thrown(WrongUncompressedPrefix))
  {
  }

  /** A 33-byte key with a bad prefix is refused whatever the engine would
      do (so the engine is not asked); with a good prefix the outcome is
      exactly the engine's decompression, and its failure has no message. */
  lemma NormalizeCompressed(e: Engine, e': Engine, s: seq<byte>)
    requires |s| == COMPRESSED_PK_SIZE
    ensures !IsCompressedPrefix(s[0]) ==>
      NormalizeSpec(e, Some(s)) == NormalizeSpec(e', Some(s)) == Err(Thrown(WrongCompressedPrefix))
    ensures IsCompressedPrefix(s[0]) ==>
      NormalizeSpec(e, Some(s)) ==
        (if e.uncompress(s).0 == 0 then Ok(e.uncompress(s).1) else Err(Silent(e.uncompress(s).0)))
  {
  }

  /** Any other length fails with the length error. */
  lemma NormalizeWrongLength(e: Engine, s: seq<byte>)
    requires |s| != PK_SIZE && |s| != UNCOMPRESSED_PK_SIZE && |s| != COMPRESSED_PK_SIZE
    ensures NormalizeSpec(e, Some(s)) == Err(Thrown(WrongKeyLength))
  {
  }

  /** Success needs an accepted layout; an uncompressed or raw key yields its
      last 64 bytes, and only decompression can fail without a message. */
  lemma NormalizeOk(e: Engine, s: seq<byte>)
    ensures NormalizeSpec(e, Some(s)).Ok? ==> Parse(s).Accepted?
    ensures NormalizeSpec(e, Some(s)).Ok? && |s| != COMPRESSED_PK_SIZE ==>
      NormalizeSpec(e, Some(s)).value == s[|s| - PK_SIZE..]
    ensures |s| == COMPRESSED_PK_SIZE && IsCompressedPrefix(s[0]) && e.uncompress(s).0 != 0 ==>
      NormalizeSpec(e, Some(s)) == Err(Silent(e.uncompress(s).0))
    ensures NormalizeSpec(e, Some(s)).Err? && NormalizeSpec(e, Some(s)).failure.Silent? ==>
      |s| == COMPRESSED_PK_SIZE && IsCompressedPrefix(s[0])
  {
    if |s| == PK_SIZE {
      assert s[|s| - PK_SIZE..] == s;
    } else if |s| == UNCOMPRESSED_PK_SIZE {
      assert s[|s| - PK_SIZE..] == s[1..];
    }
  }

  /** The three encodings of one point normalise to that point. */
  lemma EncodingsAgree(e: Engine, xy: RawKey, c: CompressedKey)
    requires IsCompressedPrefix(c[0]) && e.uncompress(c) == (0, xy)
    ensures NormalizeSpec(e, Some(Encode(Raw(xy)))) == Ok(xy)
    ensures NormalizeSpec(e, Some(Encode(Uncompressed(xy)))) == Ok(xy)
    ensures NormalizeSpec(e, Some(Encode(Compressed(c)))) == Ok(xy)
  {
    ParseEncode(Uncompressed(xy));
  }

  /** Three rejections: a 65-byte key with prefix 0x01, a 33-byte key with
      prefix 0x00, a 10-byte key. */
  lemma RejectionExamples(e: Engine)
    ensures NormalizeSpec(e, Some([0x01] + Zeros(64))) == Err(Thrown(WrongUncompressedPrefix))
    ensures NormalizeSpec(e, Some([0x00] + Zeros(32))) == Err(Thrown(WrongCompressedPrefix))
    ensures NormalizeSpec(e, Some(Zeros(10))) == Err(Thrown(WrongKeyLength))
  {
  }
}
