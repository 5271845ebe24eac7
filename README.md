# rid: random base62 identifiers, in Dafny

This project models the Go package `rid` (`rid.go`). The package generates random
identifiers over a 62-symbol alphabet (`A-Z`, `a-z`, `0-9`) and offers three generators:

- the fast path `NewRIDn`, which reads two math/rand streams seeded from the
  cryptographic source and maps each byte through a 248-entry table (four copies of
  the alphabet);
- the purely cryptographic path `NewRIDnCrypto`;
- the math/rand test path `NewRIDnMath`.

It also signs a 20-symbol identifier with a 16-character truncated HMAC-SHA256, validates
plain and signed identifiers, and produces numeric identifiers (`NewNID`, `DashNID`).

Modules:

- `Alphabet` (`alphabet.dfy`): the two tables `B62ascii` and `b62asciiMod`, a reference
  definition of the alphabet (`SymbolAt`), and the facts about the tables: 62 distinct
  symbols, exactly the class `[a-zA-Z0-9]`, and table entry `i` equal to symbol `i mod 62`.
- `Entropy` (`entropy.dfy`): the randomness sources as objects with state.
  - A math/rand generator (`Rand`) is a seed plus a stream position over an injected
    generator algorithm `draw(seed, k, bound)`.
  - The cryptographic reader (`CryptoReader`) is a draw counter over an injected
    `draw(k, bound)`.
  - `Read`, `Intn`, `Seed` and `rand.Int` are methods; `NewInt63Crypto` is modelled too.
- `Signing` (`signing.dfy`): `hex.EncodeToString` with its inverse, `HMAC` over an
  injected HMAC-SHA256 function, and the three validators; the regular expression
  `^[a-zA-Z0-9]+$` is a per-character predicate.
- `Generators` (`generators.dfy`):
  - the shared two-stream state `InternalRand`, as a class;
  - `NewRIDn`, which keeps its in-place buffers and its loop, and is proved against the
    specification function `FastId`;
  - the signed generator, and the crypto and math/rand fillers.
- `Nid` (`nid.dfy`): `strconv.Itoa` on non-negative values with its inverse, `NewNID` and
  `DashNID`.

The fast path is stated exactly. Its guarantees:

- symbol `i` comes from byte `i/2` of the first buffer (even `i`) or of the second (odd `i`);
- a byte at or above 248 is replaced by the next `Intn(62)` of the first stream, each
  rejected byte taking its own, later stream value;
- every lookup index is below 248, and the looked-up entry is symbol `index mod 62`;
- both streams are reseeded, from two successive cryptographic draws, exactly when both
  first bytes are zero; otherwise the seeds stay and the positions advance by the bytes read
  and the redraws.

`DashNID` panics in Go on a text shorter than six bytes. This is a precondition here, stated on
characters; the two agree on the ASCII texts `NewNID` produces.
`DashableNid` shows that the text of a numeric identifier is long enough exactly when its
value is at least 100000.

## Model

| member | source | states |
|---|---|---|
| Alphabet.B62ascii | rid.go:22 | the 62-symbol alphabet, the same text as the source literal; its properties are stated by AlphabetIsSymbols, AlphabetDistinct and AlphabetIsCharClass |
| Alphabet.b62asciiMod | rid.go:23 | the 248-entry table, the same text as the source literal in four pieces; its properties are stated by TableIsFourPeriods and TablePreimage |
| Alphabet.IsB62Char | rid.go:24 | the character class [a-zA-Z0-9] of b62regexp; AlphabetIsCharClass proves it is exactly membership in the alphabet |
| Alphabet.AlphabetIsSymbols | rid.go:22 | the alphabet has 62 entries and entry i is symbol i of the reference order A-Z, a-z, 0-9 |
| Alphabet.AlphabetDistinct | rid.go:22 | the 62 symbols of the alphabet are pairwise distinct |
| Alphabet.AlphabetIsCharClass | rid.go:22-24 | a character is in the alphabet exactly when it is in the validators' class [a-zA-Z0-9] |
| Alphabet.SymbolInAlphabet | rid.go:22 | every reference symbol below 62 occurs in the alphabet |
| Alphabet.ValueOf | rid.go:22 | every character of the class has a value below 62 whose symbol is that character (the inverse of SymbolAt) |
| Alphabet.TableIsFourPeriods | rid.go:22-23 | the extended table has 248 = 4 * 62 entries, and entry i is alphabet symbol i mod 62 |
| Alphabet.TableEntry | rid.go:23 | entry i of the table (i < 248) is alphabet symbol i mod 62 and reference symbol i mod 62 |
| Alphabet.TablePreimage | rid.go:23 | entry c shows symbol v exactly when c is v, v+62, v+124 or v+186: four entries per symbol |
| Alphabet.TableLookup | rid.go:79 | looking up an index below 248 gives symbol index mod 62 |
| Entropy.Rand.constructor | rid.go:32 | a new generator starts at position 0 of the stream of its seed |
| Entropy.Rand.Ahead | rid.go:67-68 | the value k draws ahead lies below its bound |
| Entropy.Rand.Read | rid.go:67-68 | Read fills every byte of the buffer with successive stream values, advances the position by the length and keeps the seed |
| Entropy.Rand.Intn | rid.go:77 | Intn(m) yields the next stream value, below m, and advances the position by one |
| Entropy.Rand.Seed | rid.go:83-84 | Seed restarts the stream: new seed, position 0 |
| Entropy.CryptoReader.constructor | rid.go:115 | a new reader has made no draws |
| Entropy.CryptoReader.Ahead | rid.go:115 | the draw k steps ahead lies below its bound |
| Entropy.CryptoReader.Int | rid.go:115 | rand.Int yields the next draw below max and counts it |
| Entropy.NewInt63Crypto | rid.go:125-132 | the result is the next cryptographic draw, in [0, MaxInt64) |
| Signing.HexDigit | rid.go:57 | the hex digit of a value below 16 is lower-case hex and reads back as that value |
| Signing.HexEncode | rid.go:57 | the encoding has two lower-case hex digits per byte |
| Signing.HexDecode | rid.go:57 | a successful decoding has half as many bytes as the text has characters |
| Signing.HexRoundTrip | rid.go:57 | decoding the encoding gives back the bytes |
| Signing.HexDecodeEncode | rid.go:57 | encoding a decoding gives back the text, so the 16-character signature determines its 8 bytes |
| Signing.HMAC | rid.go:53-58 | the signature has 16 lower-case hex characters and decodes to the first 8 bytes of the HMAC-SHA256 digest of message under secret |
| Signing.MatchesB62 | rid.go:24 | a match of b62regexp, ^[a-zA-Z0-9]+$ (used at rid.go lines 157 and 161): a non-empty string whose every character is in the class |
| Signing.ValidRID16 | rid.go:156-158 | true exactly when the length is 16 and every character is an alphabet symbol (so the empty string fails) |
| Signing.ValidRID20 | rid.go:160-162 | true exactly when the length is 20 and every character is an alphabet symbol |
| Signing.ValidRID20Signed | rid.go:164-175 | false for any length other than 36; otherwise true exactly when the first 20 characters are alphabet symbols and the last 16 are their HMAC under secret |
| Signing.SignThenValidate | rid.go:46-48 | a valid 20-symbol identifier followed by its HMAC has length 36 and validates |
| Signing.ValidatedIsSigned | rid.go:164-175 | every string that validates is a valid identifier followed by its own HMAC |
| Signing.TamperedSignatureRejected | rid.go:174 | changing any one signature character makes validation fail |
| Signing.TamperedIdOutsideAlphabetRejected | rid.go:171-173 | putting a character outside the class into the identifier part makes validation fail |
| Signing.ForgeryNeedsCollision | rid.go:164-175 | changing one symbol of a signed identifier's first 20 characters is accepted only when the HMAC of the changed identifier equals the original signature |
| Generators.RawByte | rid.go:71-75 | the byte for position i: b1[i/2] for even i, b2[i/2] for odd i |
| Generators.Rejected | rid.go:76-78 | the number of rejected bytes below position i is at most i |
| Generators.RejectedMonotone | rid.go:76-78 | the rejected count does not decrease along the positions |
| Generators.RedrawsAdvance | rid.go:76-78 | two rejected bytes take distinct, increasing positions of the first stream, all before the final position |
| Generators.MapByte | rid.go:76-79 | mapping a byte gives an alphabet symbol: symbol c mod 62 for a byte c below 248, otherwise the symbol of the redrawn value |
| Generators.StreamBytes | rid.go:67-68 | the bytes read from a stream have the requested length |
| Generators.Redraw | rid.go:77 | a redrawn value lies below 62 |
| Generators.FastIndex | rid.go:71-79 | every table index used lies below 248 |
| Generators.FastSymbol | rid.go:79 | the symbol looked up for position i, the reference symbol of the table index mod 62, always in the class; FastIdSymbol ties it to the table entry |
| Generators.FirstBytesZero | rid.go:82 | the reseed condition: the first byte read from each stream is zero |
| Generators.FastId | rid.go:64-86 | the fast-path identifier has n symbols |
| Generators.FastIdSymbol | rid.go:70-80 | symbol i is the table entry at the raw byte i/2 of buffer 1 or 2 when that byte is below 248, otherwise the alphabet symbol of its redraw; it is always the byte mapper's image |
| Generators.FastIdOverAlphabet | rid.go:64-86 | every fast-path symbol is in the alphabet; with 16 or 20 symbols the identifier passes ValidRID16 or ValidRID20 |
| Generators.InternalRand.constructor | rid.go:32 | both generators share the algorithm and are fresh, seeded by the first and second cryptographic draws, at position 0 |
| Generators.InternalRand.ReadBuffers | rid.go:65-68 | both buffers have n/2+1 bytes with the next values of their own stream, and only the stream positions advance |
| Generators.InternalRand.MapBuffers | rid.go:69-80 | the loop fills the buffer with the fast-path identifier, never reads out of bounds, and advances the first stream by exactly the number of rejected bytes |
| Generators.InternalRand.ReseedIfDue | rid.go:81-85 | both first bytes zero: the generators are reseeded by two successive cryptographic draws; otherwise no state changes |
| Generators.InternalRand.FastPathStep | rid.go:64-85 | the effect of one NewRIDn(n): the result is the fast-path identifier of the n/2+1 bytes read from each stream; both generators are reseeded by the next two cryptographic draws exactly when both first bytes are zero; otherwise the seeds and the draw count stay, the second stream advances by n/2+1 and the first by n/2+1 plus the rejected bytes |
| Generators.InternalRand.NewRIDn | rid.go:61-87 | keeps both generators distinct over one algorithm and performs FastPathStep(n): the fast-path identifier of the bytes read, and reseeding exactly when both first bytes are zero |
| Generators.InternalRand.NewRID16 | rid.go:36-38 | the result passes ValidRID16 and is FastPathStep(16): the fast-path identifier of the streams, with their new state and the reseed case |
| Generators.InternalRand.NewRID20 | rid.go:41-43 | the result passes ValidRID20 and is FastPathStep(20) |
| Generators.InternalRand.NewRID20Signed | rid.go:46-50 | the result has length 36, a valid 20-symbol identifier followed by its HMAC, and passes ValidRID20Signed; its first 20 symbols are FastPathStep(20), with the new stream and draw state |
| Generators.NewRIDnCrypto | rid.go:112-123 | n symbols, symbol i being the alphabet entry of the i-th cryptographic draw below 62; n draws are made |
| Generators.NewRID16Crypto | rid.go:103-105 | the result passes ValidRID16, 16 draws are made, and symbol i is the alphabet entry of the i-th draw below 62 |
| Generators.NewRID20Crypto | rid.go:108-110 | the result passes ValidRID20, 20 draws are made, and symbol i is the alphabet entry of the i-th draw below 62 |
| Generators.NewRIDnMath | rid.go:144-150 | n symbols, symbol i being the alphabet entry of the i-th next Intn(62) of the generator; the generator advances by n |
| Generators.NewRID16Math | rid.go:138-140 | the result passes ValidRID16, the generator keeps its seed and advances by 16, and symbol i is the alphabet entry of its i-th next Intn(62) |
| Generators.NewRID20Math | rid.go:141-143 | the result passes ValidRID20, the generator keeps its seed and advances by 20, and symbol i is the alphabet entry of its i-th next Intn(62) |
| Nid.Itoa | rid.go:90 | the text is non-empty decimal digits and starts with 0 only for the value 0 |
| Nid.DecimalValue | rid.go:90 | the value of k digits is below 10^k |
| Nid.ItoaRoundTrip | rid.go:90 | reading the text of v back gives v |
| Nid.CanonicalIsItoa | rid.go:90 | every canonical digit text is the text of its own value |
| Nid.ItoaLength | rid.go:90 | the text of v has at most k digits exactly when v < 10^k |
| Nid.NidValue | rid.go:90 | the identifier value is below 10^9, differs from the draw by a multiple of 10^9, and is the draw itself when that is below 10^9 |
| Nid.NewNID | rid.go:89-91 | the text of the next cryptographic draw modulo 10^9: canonical, at most 9 digits, value below 10^9 |
| Nid.DashNID | rid.go:93-95 | two characters longer, dashes at positions 3 and 7, and removing the dashes gives back the input |
| Nid.DashableNid | rid.go:89-95 | the text of a value is long enough for DashNID exactly when the value is at least 100000 |

## Left out

- The HMAC-SHA256 computation (rid.go:54-56) is a foreign library call. It is a parameter of type `HmacSha256`: any function from key and message to 32 bytes.
- The math/rand algorithm and the operating system's random source (rid.go:32, 67-68, 77, 115, 126, 147) are parameters: `draw(seed, k, bound)` and `draw(k, bound)`, each below its bound. Their statistical uniformity and the absence of bias are probabilistic and not modelled. The even spread of the table is stated as `TablePreimage`.
- Entropy.Rand.Read: Go's `Rand.Read` packs seven bytes into each 63-bit value and keeps leftover bytes between calls. `Intn` draws through a rejection loop too. The model takes one stream value per byte and per `Intn` result. The contracts therefore fix which stream value each draw uses only up to that abstraction.
- The `sync.Mutex` of the shared state (rid.go:27, 62-63) exists for concurrent callers. The model has a single sequential caller.
- `log.Fatal` on a failure of the random source (rid.go:116-119, 127-130) ends the process. The model has the source always succeed.
- A negative `n` makes Go's `make` panic. The model's lengths are `nat`.
- The regular expression engine (rid.go:24, 157, 161) is replaced by a per-character predicate. Go strings are bytes and Dafny strings are characters. The two agree for the validators because every alphabet symbol is a single ASCII byte, and no byte of a multi-byte character is in the class.
- The tests' "two calls give different identifiers" (rid_test.go:15-17, 27-29) holds only with high probability and is not stated.
- The package-level `internalRand` variable (rid.go:32) and the package-level math/rand generator used by `NewRIDnMath` (rid.go:147) are objects passed in (`InternalRand`, `Rand`) rather than globals.
- The 248-character literal of `b62asciiMod` (rid.go:23) is written as four concatenated 62-character literals with the same text. `TableIsFourPeriods` states the property that matters.
- Nid.DashNID: it cuts at character offsets and requires six characters, while Go's `nid[:3]`, `nid[3:6]` and `nid[6:]` (rid.go:94) cut at byte offsets and panic below six bytes. The two agree on ASCII text, which includes every `NewNID` result; on multi-byte text (`"€€"`, `"é12345"`) they differ.
- `fmt.Sprintf` formatting in DashNID (rid.go:94) is modelled only for `%s` pieces joined by dashes.
