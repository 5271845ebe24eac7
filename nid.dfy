/** Numeric identifiers: a cryptographic value below one billion in decimal, and its
    dashed form. */
module Nid {
  import opened Entropy

  /** The modulus of NewNID. */
  const NidBound: nat := 1_000_000_000

  predicate IsDigit(c: char) {
    '0' <= c <= '9'
  }

  predicate AllDigits(s: string) {
    forall i :: 0 <= i < |s| ==> IsDigit(s[i])
  }

  function DigitChar(d: nat): (c: char)
    requires d < 10
    ensures IsDigit(c) && c as int - '0' as int == d
  {
    ('0' as int + d) as char
  }

  function Pow10(k: nat): (p: nat)
    ensures p >= 1
  {
    if k == 0 then 1 else 10 * Pow10(k - 1)
  }

  /** strconv.Itoa of a non-negative value: its decimal digits, with no leading zero. */
  function Itoa(v: nat): (s: string)
    ensures |s| > 0 && AllDigits(s)
    ensures s[0] == '0' <==> v == 0
    ensures v == 0 ==> s == "0"
  {
    if v < 10 then [DigitChar(v)] else Itoa(v / 10) + [DigitChar(v % 10)]
  }

  /** The value of a string of decimal digits, most significant first. */
  function DecimalValue(s: string): (v: nat)
    requires AllDigits(s)
    ensures v < Pow10(|s|)
  {
    if s == [] then 0
    else DecimalValue(s[..|s| - 1]) * 10 + (s[|s| - 1] as int - '0' as int)
  }

  /** Reading the decimal text back gives the value. */
  lemma {:induction false} ItoaRoundTrip(v: nat)
    ensures DecimalValue(Itoa(v)) == v
  {
    if v >= 10 {
      var s := Itoa(v);
      assert s[..|s| - 1] == Itoa(v / 10);
      ItoaRoundTrip(v / 10);
    }
  }

  /** Canonical decimal text: non-empty digits with no leading zero unless it is "0". */
  predicate Canonical(s: string) {
    |s| > 0 && AllDigits(s) && (|s| > 1 ==> s[0] != '0')
  }

  /** A digit string whose first digit is not zero has a value of at least 10^(|s|-1). */
  lemma {:induction false} LeadingDigitBound(s: string)
    requires |s| > 0 && AllDigits(s) && s[0] != '0'
    ensures DecimalValue(s) >= Pow10(|s| - 1)
  {
    if |s| > 1 {
      var p := s[..|s| - 1];
      assert p[0] == s[0];
      LeadingDigitBound(p);
    }
  }

  /** Itoa is onto the canonical texts: each one is the text of its own value. */
  lemma {:induction false} CanonicalIsItoa(s: string)
    requires Canonical(s)
    ensures Itoa(DecimalValue(s)) == s
  {
    if |s| > 1 {
      var p := s[..|s| - 1];
      assert p[0] == s[0];
      LeadingDigitBound(p);
      var v := DecimalValue(s);
      var d := s[|s| - 1] as int - '0' as int;
      assert v == DecimalValue(p) * 10 + d;
      assert v / 10 == DecimalValue(p) && v % 10 == d;
      if |p| > 1 {
        CanonicalIsItoa(p);
      } else {
        assert Itoa(DecimalValue(p)) == [DigitChar(DecimalValue(p))];
        assert DigitChar(DecimalValue(p)) == p[0];
      }
      assert DigitChar(d) == s[|s| - 1];
      assert s == p + [s[|s| - 1]];
    } else {
      assert DigitChar(DecimalValue(s)) == s[0];
    }
  }

  /** The text of v has at most k digits exactly when v is below 10^k. */
  lemma {:induction false} ItoaLength(v: nat, k: nat)
    requires k >= 1
    ensures |Itoa(v)| <= k <==> v < Pow10(k)
  {
    if v >= 10 {
      if k == 1 {
        assert Pow10(1) == 10;
      } else {
        ItoaLength(v / 10, k - 1);
        assert v / 10 < Pow10(k - 1) <==> v < 10 * Pow10(k - 1);
      }
    } else {
      assert Pow10(k) >= 10 by { Pow10Grows(k); }
    }
  }

  lemma {:induction false} Pow10Grows(k: nat)
    requires k >= 1
    ensures Pow10(k) >= 10
  {
    if k > 1 {
      Pow10Grows(k - 1);
    }
  }

  /** The numeric identifier of the non-negative draw x: its remainder modulo one billion. */
  function NidValue(x: int): (v: nat)
    requires 0 <= x
    ensures v < NidBound
    ensures x < NidBound ==> v == x
    ensures (x - v) % NidBound == 0
  {
    x % NidBound
  }

  /** NewNID: the decimal text of a cryptographic draw modulo one billion, at most nine digits. */
  method NewNID(crypto: CryptoReader) returns (s: string)
    modifies crypto
    ensures s == Itoa(NidValue(old(crypto.Ahead(0, MaxInt64))))
    ensures Canonical(s) && |s| <= 9 && DecimalValue(s) < NidBound
    ensures crypto.drawn == old(crypto.drawn) + 1
  {
    var x := NewInt63Crypto(crypto);
    var v := NidValue(x);
    s := Itoa(v);
    ItoaRoundTrip(v);
    ItoaLength(v, 9);
    assert Pow10(9) == NidBound;
  }

  /** DashNID: the first three characters, a dash, the next three, a dash, and the rest. Go
      panics on a text shorter than six characters. */
  function DashNID(nid: string): (r: string)
    requires |nid| >= 6
    ensures |r| == |nid| + 2 && r[3] == '-' && r[7] == '-'
    ensures r[..3] == nid[..3] && r[4..7] == nid[3..6] && r[8..] == nid[6..]
    ensures r[..3] + r[4..7] + r[8..] == nid
  {
    nid[..3] + "-" + nid[3..6] + "-" + nid[6..]
  }

  /** DashNID applies to the text of a numeric identifier exactly when it is at least 100000. */
  lemma DashableNid(v: nat)
    ensures |Itoa(v)| >= 6 <==> v >= 100_000
  {
    ItoaLength(v, 5);
    assert Pow10(5) == 100_000;
  }

  lemma DashNIDNineDigits()
    ensures DashNID("123456789") == "123-456-789"
  {
  }

  lemma DashNIDTenDigits()
    ensures DashNID("1234567890") == "123-456-7890"
  {
  }
}
