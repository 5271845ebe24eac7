/** The two sources of randomness, as injected inputs.

    A math/rand generator is deterministic: what it yields is fixed by its seed
    and by how many values it has already yielded. The generator algorithm is
    therefore a parameter, `draw(seed, k, bound)`, the k-th value of the stream
    started from `seed`, lying in [0, bound). The operating system's
    cryptographic source is the same kind of parameter without a seed. */
module Entropy {

  newtype byte = x: int | 0 <= x < 256

  /** math.MaxInt64 */
  const MaxInt64: int := 0x7fff_ffff_ffff_ffff

  /** A pseudorandom generator algorithm: value k of the stream seeded with s, below m. */
  type PrngDraws = f: (int, nat, nat) -> nat | forall s, k, m :: 0 < m ==> f(s, k, m) < m
    witness (s: int, k: nat, m: nat) => 0

  /** The cryptographic source: its k-th uniform draw below m. */
  type CryptoDraws = f: (nat, nat) -> nat | forall k, m :: 0 < m ==> f(k, m) < m
    witness (k: nat, m: nat) => 0

  /** One math/rand generator (`*mathrand.Rand`). */
  class Rand {
    const draw: PrngDraws
    var seed: int
    /** Values drawn since the last seeding. */
    var pos: nat

    /** mathrand.New(mathrand.NewSource(seed)) */
    constructor (draw: PrngDraws, seed: int)
      ensures this.draw == draw && this.seed == seed && pos == 0
    {
      this.draw := draw;
      this.seed := seed;
      pos := 0;
    }

    /** The value the stream yields k draws from now, below bound m. */
    function Ahead(k: nat, m: nat): (v: nat)
      reads this
      requires 0 < m
      ensures v < m
    {
      draw(seed, pos + k, m)
    }

    /** Read fills p with the next p.Length bytes of the stream. */
    method Read(p: array<byte>)
      modifies this, p
      ensures seed == old(seed) && pos == old(pos) + p.Length
      ensures forall k :: 0 <= k < p.Length ==> p[k] as int == draw(seed, old(pos) + k, 256)
    {
      var i := 0;
      while i < p.Length
        invariant 0 <= i <= p.Length
        invariant seed == old(seed) && pos == old(pos)
        invariant forall k :: 0 <= k < i ==> p[k] as int == draw(seed, pos + k, 256)
      {
        p[i] := draw(seed, pos + i, 256) as byte;
        i := i + 1;
      }
      pos := pos + p.Length;
    }

    /** Intn(m) yields the next value of the stream, in [0, m); Go panics for m <= 0. */
    method Intn(m: nat) returns (v: nat)
      requires 0 < m
      modifies this
      ensures v < m && v == draw(seed, old(pos), m)
      ensures seed == old(seed) && pos == old(pos) + 1
    {
      v := draw(seed, pos, m);
      pos := pos + 1;
    }

    /** Seed restarts the stream from seed s. */
    method Seed(s: int)
      modifies this
      ensures seed == s && pos == 0
    {
      seed := s;
      pos := 0;
    }
  }

  /** crypto/rand.Reader; `drawn` counts the draws made so far. */
  class CryptoReader {
    const draw: CryptoDraws
    var drawn: nat

    constructor (draw: CryptoDraws)
      ensures this.draw == draw && drawn == 0
    {
      this.draw := draw;
      drawn := 0;
    }

    /** The draw k steps from now, below bound m. */
    function Ahead(k: nat, m: nat): (v: nat)
      reads this
      requires 0 < m
      ensures v < m
    {
      draw(drawn + k, m)
    }

    /** rand.Int(rand.Reader, max): a uniform value in [0, max); Go panics for max <= 0. */
    method Int(max: nat) returns (v: nat)
      requires 0 < max
      modifies this
      ensures v < max && v == draw(old(drawn), max)
      ensures drawn == old(drawn) + 1
    {
      v := draw(drawn, max);
      drawn := drawn + 1;
    }
  }

  /** NewInt63Crypto: a non-negative 63-bit value from the cryptographic source. */
  method NewInt63Crypto(crypto: CryptoReader) returns (v: int)
    modifies crypto
    ensures 0 <= v < MaxInt64
    ensures v == old(crypto.Ahead(0, MaxInt64)) && crypto.drawn == old(crypto.drawn) + 1
  {
    v := crypto.Int(MaxInt64);
  }
}
