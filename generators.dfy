/** The identifier generators: the fast path over two pseudorandom streams, the
    cryptographic path and the math/rand path kept for tests. */
module Generators {
  import opened Alphabet
  import opened Entropy
  import opened Signing

  /** The raw byte for output position i: even positions read b1, odd ones b2, both at i/2. */
  function RawByte(b1: seq<byte>, b2: seq<byte>, i: nat): byte
    requires i < 2 * |b1| && i < 2 * |b2|
  {
    if i % 2 == 0 then b1[i / 2] else b2[i / 2]
  }

  /** How many of the positions below i hold a byte outside the table (at or above 248). */
  function Rejected(b1: seq<byte>, b2: seq<byte>, i: nat): (r: nat)
    requires i <= 2 * |b1| && i <= 2 * |b2|
    ensures r <= i
  {
    if i == 0 then 0
    else Rejected(b1, b2, i - 1) + (if RawByte(b1, b2, i - 1) as int >= TableSize then 1 else 0)
  }

  /** The unbiased byte mapper, the lookup `b62asciiMod[c]` after the rejection step: a byte
      below 248 stands for symbol c mod 62, any other byte is replaced by the redrawn value r. */
  function MapByte(c: byte, r: nat): (s: char)
    requires r < 62
    ensures s in B62ascii && IsB62Char(s)
    ensures c as int < TableSize ==> s == B62ascii[c as int % 62]
    ensures c as int >= TableSize ==> s == B62ascii[r]
  {
    TableEntry(if c as int < TableSize then c as int else r);
    AlphabetIsSymbols();
    if c as int < TableSize then b62asciiMod[c] else b62asciiMod[r]
  }

  /** The bytes a stream of the algorithm draw yields from position pos on, under seed. */
  function StreamBytes(draw: PrngDraws, seed: int, pos: nat, len: nat): (b: seq<byte>)
    ensures |b| == len
  {
    seq(len, k requires 0 <= k < len => draw(seed, pos + k, 256) as byte)
  }

  /** The value the first stream (seed s1) yields for the rejected byte at position i, when
      its values from position base on replace the rejected bytes in order. */
  function Redraw(draw: PrngDraws, s1: int, base: nat, b1: seq<byte>, b2: seq<byte>, i: nat): (r: nat)
    requires i <= 2 * |b1| && i <= 2 * |b2|
    ensures r < 62
  {
    draw(s1, base + Rejected(b1, b2, i), 62)
  }

  /** The table index looked up for position i. */
  function FastIndex(draw: PrngDraws, s1: int, base: nat, b1: seq<byte>, b2: seq<byte>, i: nat): (t: nat)
    requires i < 2 * |b1| && i < 2 * |b2|
    ensures t < TableSize
  {
    var c := RawByte(b1, b2, i);
    if c as int < TableSize then c as int else Redraw(draw, s1, base, b1, b2, i)
  }

  /** Symbol i of a fast-path identifier read from buffers b1 and b2: the alphabet symbol of
      the table index looked up. */
  function FastSymbol(draw: PrngDraws, s1: int, base: nat, b1: seq<byte>, b2: seq<byte>, i: nat): (c: char)
    requires i < 2 * |b1| && i < 2 * |b2|
    ensures IsB62Char(c)
  {
    SymbolAt(FastIndex(draw, s1, base, b1, b2, i) % 62)
  }

  /** The n-symbol identifier the fast path reads from buffers b1 and b2. */
  function FastId(draw: PrngDraws, s1: int, base: nat, b1: seq<byte>, b2: seq<byte>, n: nat): (s: string)
    requires n <= 2 * |b1| && n <= 2 * |b2|
    ensures |s| == n
  {
    seq(n, i requires 0 <= i < n => FastSymbol(draw, s1, base, b1, b2, i))
  }

  /** Symbol i of a fast-path identifier is the table entry at an index below 248: the entry of
      the raw byte when that byte is below 248, and otherwise the alphabet symbol of the value
      redrawn for it. Either way it is the byte mapper's image of the raw byte and its redraw. */
  lemma FastIdSymbol(draw: PrngDraws, s1: int, base: nat, b1: seq<byte>, b2: seq<byte>, n: nat, i: nat)
    requires n <= 2 * |b1| && n <= 2 * |b2| && i < n
    ensures |b62asciiMod| == TableSize
    ensures FastId(draw, s1, base, b1, b2, n)[i] == b62asciiMod[FastIndex(draw, s1, base, b1, b2, i)]
    ensures RawByte(b1, b2, i) as int < TableSize ==>
      FastId(draw, s1, base, b1, b2, n)[i] == b62asciiMod[RawByte(b1, b2, i)]
    ensures RawByte(b1, b2, i) as int >= TableSize ==>
      FastId(draw, s1, base, b1, b2, n)[i] == B62ascii[Redraw(draw, s1, base, b1, b2, i)]
    ensures FastId(draw, s1, base, b1, b2, n)[i] == MapByte(RawByte(b1, b2, i), Redraw(draw, s1, base, b1, b2, i))
  {
    TableEntry(FastIndex(draw, s1, base, b1, b2, i));
    AlphabetIsSymbols();
  }

  /** Every symbol of a fast-path identifier is in the alphabet, so an identifier of 16 or 20
      symbols passes the matching validator. */
  lemma FastIdOverAlphabet(draw: PrngDraws, s1: int, base: nat, b1: seq<byte>, b2: seq<byte>, n: nat)
    requires n <= 2 * |b1| && n <= 2 * |b2|
    ensures OverAlphabet(FastId(draw, s1, base, b1, b2, n))
    ensures n > 0 ==> MatchesB62(FastId(draw, s1, base, b1, b2, n))
    ensures n == 16 ==> ValidRID16(FastId(draw, s1, base, b1, b2, n))
    ensures n == 20 ==> ValidRID20(FastId(draw, s1, base, b1, b2, n))
  {
    var s := FastId(draw, s1, base, b1, b2, n);
    forall i | 0 <= i < n ensures s[i] in B62ascii {
      FastIdSymbol(draw, s1, base, b1, b2, n, i);
    }
  }

  /** The rejected count never decreases along the positions. */
  lemma {:induction false} RejectedMonotone(b1: seq<byte>, b2: seq<byte>, i: nat, j: nat)
    requires i <= j <= 2 * |b1| && j <= 2 * |b2|
    ensures Rejected(b1, b2, i) <= Rejected(b1, b2, j)
  {
    if i < j {
      RejectedMonotone(b1, b2, i, j - 1);
    }
  }

  /** Each rejected byte takes its own value of the first stream: the redraws of two rejected
      positions i < j come from distinct, increasing stream positions. */
  lemma RedrawsAdvance(b1: seq<byte>, b2: seq<byte>, i: nat, j: nat)
    requires i < j <= 2 * |b1| && j <= 2 * |b2|
    requires RawByte(b1, b2, i) as int >= TableSize
    ensures Rejected(b1, b2, i) < Rejected(b1, b2, j)
  {
    assert Rejected(b1, b2, i + 1) == Rejected(b1, b2, i) + 1;
    RejectedMonotone(b1, b2, i + 1, j);
  }

  /** The reseed condition: the first byte read from each stream is zero. */
  predicate FirstBytesZero(draw: PrngDraws, s1: int, p1: nat, s2: int, p2: nat) {
    draw(s1, p1, 256) == 0 && draw(s2, p2, 256) == 0
  }

  /** The shared state of the fast path: two math/rand generators (the mutex is not modelled). */
  class InternalRand {
    const r1: Rand
    const r2: Rand

    ghost predicate Valid()
      reads this
    {
      r1 != r2 && r1.draw == r2.draw
    }

    /** Both generators run the same algorithm, each seeded by a cryptographic draw. */
    constructor (draw: PrngDraws, crypto: CryptoReader)
      modifies crypto
      ensures Valid() && fresh(r1) && fresh(r2)
      ensures r1.draw == draw && r2.draw == draw && r1.pos == 0 && r2.pos == 0
      ensures r1.seed == old(crypto.Ahead(0, MaxInt64)) && r2.seed == old(crypto.Ahead(1, MaxInt64))
      ensures crypto.drawn == old(crypto.drawn) + 2
    {
      var s1 := NewInt63Crypto(crypto);
      var s2 := NewInt63Crypto(crypto);
      r1 := new Rand(draw, s1);
      r2 := new Rand(draw, s2);
    }

    /** The loop of NewRIDn: symbol i of b comes from b1[i/2] (i even) or b2[i/2] (i odd);
        a byte at or above 248 is replaced by the next Intn(62) of r1. */
    method MapBuffers(b: array<char>, b1: array<byte>, b2: array<byte>)
      requires b.Length <= 2 * b1.Length && b.Length <= 2 * b2.Length
      modifies b, r1
      ensures r1.seed == old(r1.seed) && r1.pos == old(r1.pos) + Rejected(b1[..], b2[..], b.Length)
      ensures b[..] == FastId(r1.draw, old(r1.seed), old(r1.pos), b1[..], b2[..], b.Length)
    {
      ghost var B1, B2 := b1[..], b2[..];
      var i := 0;
      while i < b.Length
        invariant 0 <= i <= b.Length
        invariant r1.seed == old(r1.seed) && r1.pos == old(r1.pos) + Rejected(B1, B2, i)
        invariant forall k :: 0 <= k < i ==> b[k] == FastSymbol(r1.draw, old(r1.seed), old(r1.pos), B1, B2, k)
      {
        var c: byte;
        if i % 2 == 0 {
          c := b1[i / 2];
        } else {
          c := b2[i / 2];
        }
        assert c == RawByte(B1, B2, i);
        if c as int >= TableSize {
          var v := r1.Intn(62);
          c := v as byte;
        }
        assert c as int == FastIndex(r1.draw, old(r1.seed), old(r1.pos), B1, B2, i);
        b[i] := TableLookup(c as int);
        i := i + 1;
      }
      assert b[..] == FastId(r1.draw, old(r1.seed), old(r1.pos), B1, B2, b.Length);
    }

    /** What one call of NewRIDn(n) returning s does, from the state before it to the state after:
        s is the fast-path identifier of the n/2+1 bytes read from each stream, and both
        generators are reseeded by the next two cryptographic draws exactly when both first
        bytes are zero; otherwise the seeds stay, the second stream advances by the bytes read
        and the first also by one value per rejected byte. */
    twostate predicate FastPathStep(n: nat, s: string, crypto: CryptoReader)
      reads this, r1, r2, crypto
    {
      && s == FastId(r1.draw, old(r1.seed), old(r1.pos) + n / 2 + 1,
                     StreamBytes(r1.draw, old(r1.seed), old(r1.pos), n / 2 + 1),
                     StreamBytes(r2.draw, old(r2.seed), old(r2.pos), n / 2 + 1), n)
      && (FirstBytesZero(r1.draw, old(r1.seed), old(r1.pos), old(r2.seed), old(r2.pos)) ==>
        && r1.seed == old(crypto.Ahead(0, MaxInt64)) && r1.pos == 0
        && r2.seed == old(crypto.Ahead(1, MaxInt64)) && r2.pos == 0
        && crypto.drawn == old(crypto.drawn) + 2)
      && (!FirstBytesZero(r1.draw, old(r1.seed), old(r1.pos), old(r2.seed), old(r2.pos)) ==>
        && r1.seed == old(r1.seed)
        && r1.pos == old(r1.pos) + n / 2 + 1 +
             Rejected(StreamBytes(r1.draw, old(r1.seed), old(r1.pos), n / 2 + 1),
                      StreamBytes(r2.draw, old(r2.seed), old(r2.pos), n / 2 + 1), n)
        && r2.seed == old(r2.seed) && r2.pos == old(r2.pos) + n / 2 + 1
        && crypto.drawn == old(crypto.drawn))
    }

    /** NewRIDn: an n-symbol identifier from the two streams. */
    method NewRIDn(n: nat, crypto: CryptoReader) returns (s: string)
      requires Valid()
      modifies r1, r2, crypto
      ensures Valid()
      ensures FastPathStep(n, s, crypto)
    {
      var b := new char[n];
      var b1, b2 := ReadBuffers(n / 2 + 1);
      MapBuffers(b, b1, b2);
      // reseed with a cryptographic seed from time to time
      ReseedIfDue(b1[0], b2[0], crypto);
      s := b[..];
      ghost var B1 := StreamBytes(r1.draw, old(r1.seed), old(r1.pos), n / 2 + 1);
      ghost var B2 := StreamBytes(r2.draw, old(r2.seed), old(r2.pos), n / 2 + 1);
      assert s == FastId(r1.draw, old(r1.seed), old(r1.pos) + n / 2 + 1, B1, B2, n);
      assert FirstBytesZero(r1.draw, old(r1.seed), old(r1.pos), old(r2.seed), old(r2.pos)) ==>
        && r1.seed == old(crypto.Ahead(0, MaxInt64)) && r1.pos == 0
        && r2.seed == old(crypto.Ahead(1, MaxInt64)) && r2.pos == 0
        && crypto.drawn == old(crypto.drawn) + 2;
      assert !FirstBytesZero(r1.draw, old(r1.seed), old(r1.pos), old(r2.seed), old(r2.pos)) ==>
        && r1.seed == old(r1.seed) && r1.pos == old(r1.pos) + n / 2 + 1 + Rejected(B1, B2, n)
        && r2.seed == old(r2.seed) && r2.pos == old(r2.pos) + n / 2 + 1
        && crypto.drawn == old(crypto.drawn);
    }

    /** The two buffers of NewRIDn, each filled by Read from its own stream. */
    method ReadBuffers(len: nat) returns (b1: array<byte>, b2: array<byte>)
      requires Valid()
      modifies r1, r2
      ensures fresh(b1) && fresh(b2) && b1.Length == len && b2.Length == len
      ensures b1[..] == StreamBytes(r1.draw, old(r1.seed), old(r1.pos), len)
      ensures b2[..] == StreamBytes(r2.draw, old(r2.seed), old(r2.pos), len)
      ensures r1.seed == old(r1.seed) && r1.pos == old(r1.pos) + len
      ensures r2.seed == old(r2.seed) && r2.pos == old(r2.pos) + len
    {
      b1 := new byte[len];
      b2 := new byte[len];
      r1.Read(b1);
      r2.Read(b2);
    }

    /** The reseeding step of NewRIDn: when both first bytes are zero, each generator is
        seeded afresh from the cryptographic source; otherwise nothing changes. */
    method ReseedIfDue(first1: byte, first2: byte, crypto: CryptoReader)
      requires Valid()
      modifies r1, r2, crypto
      ensures first1 == 0 && first2 == 0 ==>
        && r1.seed == old(crypto.Ahead(0, MaxInt64)) && r1.pos == 0
        && r2.seed == old(crypto.Ahead(1, MaxInt64)) && r2.pos == 0
        && crypto.drawn == old(crypto.drawn) + 2
      ensures !(first1 == 0 && first2 == 0) ==>
        && r1.seed == old(r1.seed) && r1.pos == old(r1.pos)
        && r2.seed == old(r2.seed) && r2.pos == old(r2.pos)
        && crypto.drawn == old(crypto.drawn)
    {
      if first1 == 0 && first2 == 0 {
        var s1 := NewInt63Crypto(crypto);
        r1.Seed(s1);
        var s2 := NewInt63Crypto(crypto);
        r2.Seed(s2);
      }
    }

    method NewRID16(crypto: CryptoReader) returns (s: string)
      requires Valid()
      modifies r1, r2, crypto
      ensures Valid() && ValidRID16(s) && FastPathStep(16, s, crypto)
    {
      s := NewRIDn(16, crypto);
    }

    method NewRID20(crypto: CryptoReader) returns (s: string)
      requires Valid()
      modifies r1, r2, crypto
      ensures Valid() && ValidRID20(s) && FastPathStep(20, s, crypto)
    {
      s := NewRIDn(20, crypto);
    }

    /** NewRID20Signed: a fresh 20-symbol identifier followed by its HMAC under secret. */
    method NewRID20Signed(secret: string, mac: HmacSha256, crypto: CryptoReader) returns (s: string)
      requires Valid()
      modifies r1, r2, crypto
      ensures Valid()
      ensures |s| == 36 && ValidRID20(s[..20]) && s[20..] == HMAC(s[..20], secret, mac)
      ensures ValidRID20Signed(s, secret, mac)
      ensures FastPathStep(20, s[..20], crypto)
    {
      var r := NewRIDn(20, crypto);
      SignThenValidate(r, secret, mac);
      s := r + HMAC(r, secret, mac);
      assert s[..20] == r;
    }
  }

  /** NewRIDnCrypto: every symbol indexes the alphabet by a cryptographic draw below 62. */
  method NewRIDnCrypto(n: nat, crypto: CryptoReader) returns (s: string)
    modifies crypto
    ensures |s| == n && crypto.drawn == old(crypto.drawn) + n
    ensures forall i :: 0 <= i < n ==> s[i] == B62ascii[old(crypto.Ahead(i, 62))]
    ensures forall i :: 0 <= i < n ==> IsB62Char(s[i])
  {
    AlphabetIsSymbols();
    var b := new char[n];
    var i := 0;
    while i < n
      modifies b, crypto
      invariant 0 <= i <= n && crypto.drawn == old(crypto.drawn) + i
      invariant forall k :: 0 <= k < i ==> b[k] == B62ascii[crypto.draw(old(crypto.drawn) + k, 62)]
    {
      var v := crypto.Int(62);
      b[i] := B62ascii[v];
      i := i + 1;
    }
    s := b[..];
  }

  method NewRID16Crypto(crypto: CryptoReader) returns (s: string)
    modifies crypto
    ensures ValidRID16(s) && crypto.drawn == old(crypto.drawn) + 16
    ensures forall i :: 0 <= i < 16 ==> s[i] == B62ascii[old(crypto.Ahead(i, 62))]
  {
    s := NewRIDnCrypto(16, crypto);
  }

  method NewRID20Crypto(crypto: CryptoReader) returns (s: string)
    modifies crypto
    ensures ValidRID20(s) && crypto.drawn == old(crypto.drawn) + 20
    ensures forall i :: 0 <= i < 20 ==> s[i] == B62ascii[old(crypto.Ahead(i, 62))]
  {
    s := NewRIDnCrypto(20, crypto);
  }

  /** NewRIDnMath: every symbol indexes the alphabet by the next Intn(62) of the
      package-level math/rand generator g. */
  method NewRIDnMath(n: nat, g: Rand) returns (s: string)
    modifies g
    ensures |s| == n && g.seed == old(g.seed) && g.pos == old(g.pos) + n
    ensures forall i :: 0 <= i < n ==> s[i] == B62ascii[old(g.Ahead(i, 62))]
    ensures forall i :: 0 <= i < n ==> IsB62Char(s[i])
  {
    AlphabetIsSymbols();
    var b := new char[n];
    var i := 0;
    while i < n
      modifies b, g
      invariant 0 <= i <= n && g.seed == old(g.seed) && g.pos == old(g.pos) + i
      invariant forall k :: 0 <= k < i ==> b[k] == B62ascii[g.draw(g.seed, old(g.pos) + k, 62)]
    {
      var v := g.Intn(62);
      b[i] := B62ascii[v];
      i := i + 1;
    }
    s := b[..];
  }

  method NewRID16Math(g: Rand) returns (s: string)
    modifies g
    ensures ValidRID16(s) && g.seed == old(g.seed) && g.pos == old(g.pos) + 16
    ensures forall i :: 0 <= i < 16 ==> s[i] == B62ascii[old(g.Ahead(i, 62))]
  {
    s := NewRIDnMath(16, g);
  }

  method NewRID20Math(g: Rand) returns (s: string)
    modifies g
    ensures ValidRID20(s) && g.seed == old(g.seed) && g.pos == old(g.pos) + 20
    ensures forall i :: 0 <= i < 20 ==> s[i] == B62ascii[old(g.Ahead(i, 62))]
  {
    s := NewRIDnMath(20, g);
  }
}
