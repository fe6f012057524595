/** The streaming SHA-256 interface the binding drives (HASH256_init,
    HASH256_process, HASH256_hash), over an abstract state.  The
    compression function itself is not modelled: `process` and `finish`
    are parameters. */
module Hash256 {
  import opened Octet

  datatype Hasher<!S> = Hasher(
    init: S,                    // HASH256_init
    process: (S, byte) -> S,    // HASH256_process: absorb one byte
    finish: S -> Digest         // HASH256_hash: the 32-byte digest
  )

  /** The state after absorbing `m` into a freshly initialised state, the
      last byte absorbed last. */
  function Absorb<S>(h: Hasher<S>, m: seq<byte>): (st: S)
    decreases |m|
  {
    if m == [] then h.init else h.process(Absorb(h, m[..|m| - 1]), m[|m| - 1])
  }

  /** Reference reading of streaming: starting from `st`, feed m[0], m[1], ...
      one at a time. */
  function FeedFrom<S>(h: Hasher<S>, st: S, m: seq<byte>): (st': S)
    decreases |m|
  {
    if m == [] then st else FeedFrom(h, h.process(st, m[0]), m[1..])
  }

  /** The digest of the whole message. */
  function DigestOf<S>(h: Hasher<S>, m: seq<byte>): (d: Digest)
  {
    h.finish(Absorb(h, m))
  }

  /** Absorbing one more byte is one more `process` step. */
  lemma AbsorbSnoc<S>(h: Hasher<S>, m: seq<byte>, b: byte)
    ensures Absorb(h, m + [b]) == h.process(Absorb(h, m), b)
  {
    assert (m + [b])[..|m + [b]| - 1] == m;
  }

  /** Hashing a message in two pieces: absorb the first, then feed the second
      byte by byte, gives the state of absorbing the concatenation. */
  lemma {:induction false} AbsorbThenFeed<S>(h: Hasher<S>, a: seq<byte>, b: seq<byte>)
    ensures Absorb(h, a + b) == FeedFrom(h, Absorb(h, a), b)
    decreases |b|
  {
    if b == [] {
      assert a + b == a;
    } else {
      calc {
        Absorb(h, a + b);
        { assert a + b == (a + [b[0]]) + b[1..]; }
        Absorb(h, (a + [b[0]]) + b[1..]);
        { AbsorbThenFeed(h, a + [b[0]], b[1..]); }
        FeedFrom(h, Absorb(h, a + [b[0]]), b[1..]);
        { AbsorbSnoc(h, a, b[0]); }
        FeedFrom(h, h.process(Absorb(h, a), b[0]), b[1..]);
        FeedFrom(h, Absorb(h, a), b);
      }
    }
  }

  /** The digest is the one of feeding bytes 0 .. |m|-1, in order, into a
      freshly initialised state. */
  lemma DigestFeedsInOrder<S>(h: Hasher<S>, m: seq<byte>)
    ensures DigestOf(h, m) == h.finish(FeedFrom(h, h.init, m))
  {
    AbsorbThenFeed(h, [], m);
    assert [] + m == m;
  }

  /** HASH256_init; HASH256_process(m[i]) for i = 0 .. len-1; HASH256_hash. */
  method HashMessage<S>(h: Hasher<S>, m: array<byte>) returns (d: Digest)
    ensures d == DigestOf(h, m[..])
  {
    var st := h.init;
    var i := 0;
    while i < m.Length
      invariant 0 <= i <= m.Length
      invariant st == Absorb(h, m[..i])
    {
      AbsorbSnoc(h, m[..i], m[i]);
      assert m[..i + 1] == m[..i] + [m[i]];
      st := h.process(st, m[i]);
      i := i + 1;
    }
    assert m[..] == m[..m.Length];
    d := h.finish(st);
  }
}
