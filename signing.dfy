/** Signing identifiers with a truncated HMAC and validating identifiers and
    signed identifiers. */
module Signing {
  import opened Alphabet
  import opened Entropy

  datatype Option<T> = None | Some(value: T)

  predicate IsLowerHex(c: char) {
    ('0' <= c <= '9') || ('a' <= c <= 'f')
  }

  function HexValue(c: char): (v: nat)
    requires IsLowerHex(c)
    ensures v < 16
  {
    if c <= '9' then c as int - '0' as int else 10 + (c as int - 'a' as int)
  }

  /** The lower-case hexadecimal digit of value v. */
  function HexDigit(v: nat): (c: char)
    requires v < 16
    ensures IsLowerHex(c) && HexValue(c) == v
  {
    if v < 10 then ('0' as int + v) as char else ('a' as int + (v - 10)) as char
  }

  lemma HexDigitOfValue(c: char)
    requires IsLowerHex(c)
    ensures HexDigit(HexValue(c)) == c
  {
  }

  /** hex.EncodeToString: two lower-case digits per byte, high nibble first. */
  function HexEncode(b: seq<byte>): (h: string)
    ensures |h| == 2 * |b|
    ensures forall i :: 0 <= i < |h| ==> IsLowerHex(h[i])
  {
    if b == [] then ""
    else [HexDigit(b[0] as int / 16), HexDigit(b[0] as int % 16)] + HexEncode(b[1..])
  }

  /** Decoding of lower-case hexadecimal text; None for odd length or a foreign character. */
  function HexDecode(h: string): (r: Option<seq<byte>>)
    ensures r.Some? ==> 2 * |r.value| == |h|
  {
    if h == [] then Some([])
    else if |h| == 1 || !IsLowerHex(h[0]) || !IsLowerHex(h[1]) then None
    else match HexDecode(h[2..])
      case None => None
      case Some(rest) => Some([(HexValue(h[0]) * 16 + HexValue(h[1])) as byte] + rest)
  }

  /** Decoding undoes encoding. */
  lemma {:induction false} HexRoundTrip(b: seq<byte>)
    ensures HexDecode(HexEncode(b)) == Some(b)
  {
    if b != [] {
      var h := HexEncode(b);
      assert h[2..] == HexEncode(b[1..]);
      HexRoundTrip(b[1..]);
      assert HexValue(h[0]) * 16 + HexValue(h[1]) == b[0] as int;
      assert [b[0]] + b[1..] == b;
    }
  }

  /** Encoding undoes decoding: lower-case hex text of even length has exactly one preimage. */
  lemma {:induction false} HexDecodeEncode(h: string, b: seq<byte>)
    requires HexDecode(h) == Some(b)
    ensures HexEncode(b) == h
  {
    if h != [] {
      var rest := HexDecode(h[2..]).value;
      HexDecodeEncode(h[2..], rest);
      assert b == [(HexValue(h[0]) * 16 + HexValue(h[1])) as byte] + rest;
      assert b[1..] == rest;
      HexDigitOfValue(h[0]);
      HexDigitOfValue(h[1]);
      assert h == [h[0], h[1]] + h[2..];
    }
  }

  /** HMAC-SHA256, a foreign library function: (key, message) to its 32-byte digest. */
  type HmacSha256 = f: (string, string) -> seq<byte> | forall key, msg :: |f(key, msg)| == 32
    witness (key: string, msg: string) => seq(32, _ => 0 as byte)

  /** HMAC: the first 8 bytes of the HMAC-SHA256 digest of message under secret, in hex. */
  function HMAC(message: string, secret: string, mac: HmacSha256): (h: string)
    ensures |h| == 16
    ensures forall i :: 0 <= i < 16 ==> IsLowerHex(h[i])
    ensures HexDecode(h) == Some(mac(secret, message)[..8])
  {
    var digest := mac(secret, message);
    HexRoundTrip(digest[..8]);
    HexEncode(digest[..8])
  }

  /** b62regexp, `^[a-zA-Z0-9]+$`: non-empty and every character in the class. */
  predicate MatchesB62(s: string) {
    |s| > 0 && forall i :: 0 <= i < |s| ==> IsB62Char(s[i])
  }

  /** Every character of s is a symbol of the alphabet. */
  ghost predicate OverAlphabet(s: string) {
    forall i :: 0 <= i < |s| ==> s[i] in B62ascii
  }

  function ValidRID16(rid: string): (ok: bool)
    ensures ok <==> |rid| == 16 && OverAlphabet(rid)
  {
    AlphabetIsCharClass();
    |rid| == 16 && MatchesB62(rid)
  }

  function ValidRID20(rid: string): (ok: bool)
    ensures ok <==> |rid| == 20 && OverAlphabet(rid)
  {
    AlphabetIsCharClass();
    |rid| == 20 && MatchesB62(rid)
  }

  /** A signed identifier is 20 alphabet symbols followed by their HMAC under secret. */
  function ValidRID20Signed(r: string, secret: string, mac: HmacSha256): (ok: bool)
    ensures |r| != 36 ==> !ok
    ensures ok <==> |r| == 36 && OverAlphabet(r[..20]) && r[20..] == HMAC(r[..20], secret, mac)
  {
    if |r| != 36 then false
    else
      var rid, hexed := r[..20], r[20..];
      if !ValidRID20(rid) then false
      else hexed == HMAC(rid, secret, mac)
  }

  /** Signing a valid identifier gives a valid signed identifier of length 36. */
  lemma SignThenValidate(rid: string, secret: string, mac: HmacSha256)
    requires ValidRID20(rid)
    ensures |rid + HMAC(rid, secret, mac)| == 36
    ensures ValidRID20Signed(rid + HMAC(rid, secret, mac), secret, mac)
  {
    var r := rid + HMAC(rid, secret, mac);
    assert r[..20] == rid;
    assert r[20..] == HMAC(rid, secret, mac);
  }

  /** Every string that validates is a valid identifier followed by its signature. */
  lemma ValidatedIsSigned(r: string, secret: string, mac: HmacSha256)
    requires ValidRID20Signed(r, secret, mac)
    ensures ValidRID20(r[..20]) && r == r[..20] + HMAC(r[..20], secret, mac)
  {
    assert r == r[..20] + r[20..];
  }

  /** Changing any one character of the signature makes validation fail. */
  lemma TamperedSignatureRejected(rid: string, secret: string, mac: HmacSha256, k: nat, c: char)
    requires |rid| == 20 && k < 16 && c != HMAC(rid, secret, mac)[k]
    ensures !ValidRID20Signed(rid + HMAC(rid, secret, mac)[k := c], secret, mac)
  {
    var sig := HMAC(rid, secret, mac);
    var r := rid + sig[k := c];
    assert r[..20] == rid;
    assert r[20..][k] != sig[k];
  }

  /** Changing one character of the identifier part to a character outside the alphabet
      makes validation fail. */
  lemma TamperedIdOutsideAlphabetRejected(r: string, secret: string, mac: HmacSha256, k: nat, c: char)
    requires |r| == 36 && k < 20 && !IsB62Char(c)
    ensures !ValidRID20Signed(r[k := c], secret, mac)
  {
    AlphabetIsCharClass();
    assert r[k := c][..20][k] == c;
  }

  /** Changing one symbol of the identifier part to another symbol is accepted only when the
      HMAC of the changed identifier collides with the original signature. */
  lemma ForgeryNeedsCollision(rid: string, secret: string, mac: HmacSha256, k: nat, c: char)
    requires ValidRID20(rid) && k < 20 && c != rid[k]
    requires ValidRID20Signed((rid + HMAC(rid, secret, mac))[k := c], secret, mac)
    ensures HMAC(rid[k := c], secret, mac) == HMAC(rid, secret, mac)
  {
    var r := (rid + HMAC(rid, secret, mac))[k := c];
    assert r[..20] == rid[k := c];
    assert r[20..] == HMAC(rid, secret, mac);
  }
}
