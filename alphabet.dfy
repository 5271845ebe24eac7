/** The 62-symbol alphabet of the identifiers and the 248-entry lookup table
    that maps a raw byte below 248 to a symbol without modulo bias. */
module Alphabet {

  /** The alphabet, in this order: upper case, lower case, digits. */
  const B62ascii: string := "ABCDEFGHIJKLMNOPQRSTUVWXYZabcdefghijklmnopqrstuvwxyz0123456789"

  /** Four periods of the alphabet, so that any byte below 248 indexes it directly.
      The text is the same as the source's single literal, written in four pieces. */
  const b62asciiMod: string :=
    "ABCDEFGHIJKLMNOPQRSTUVWXYZabcdefghijklmnopqrstuvwxyz0123456789" +
    "ABCDEFGHIJKLMNOPQRSTUVWXYZabcdefghijklmnopqrstuvwxyz0123456789" +
    "ABCDEFGHIJKLMNOPQRSTUVWXYZabcdefghijklmnopqrstuvwxyz0123456789" +
    "ABCDEFGHIJKLMNOPQRSTUVWXYZabcdefghijklmnopqrstuvwxyz0123456789"

  /** Number of table entries; bytes at or above it are redrawn. */
  const TableSize: nat := 248

  const Upper: string := "ABCDEFGHIJKLMNOPQRSTUVWXYZ"
  const Lower: string := "abcdefghijklmnopqrstuvwxyz"
  const Digits: string := "0123456789"

  /** The character class [a-zA-Z0-9] of the validators' regular expression. */
  predicate IsB62Char(c: char) {
    ('A' <= c <= 'Z') || ('a' <= c <= 'z') || ('0' <= c <= '9')
  }

  /** Reference definition of the alphabet: the symbol of value i. */
  function SymbolAt(i: nat): (c: char)
    requires i < 62
    ensures IsB62Char(c)
  {
    if i < 26 then ('A' as int + i) as char
    else if i < 52 then ('a' as int + (i - 26)) as char
    else ('0' as int + (i - 52)) as char
  }

  /** The value of a symbol: the inverse of SymbolAt. */
  function ValueOf(c: char): (v: nat)
    requires IsB62Char(c)
    ensures v < 62 && SymbolAt(v) == c
  {
    if 'A' <= c <= 'Z' then c as int - 'A' as int
    else if 'a' <= c <= 'z' then 26 + (c as int - 'a' as int)
    else 52 + (c as int - '0' as int)
  }

  lemma PiecesAreRanges()
    ensures |Upper| == 26 && forall i :: 0 <= i < 26 ==> Upper[i] == ('A' as int + i) as char
    ensures |Lower| == 26 && forall i :: 0 <= i < 26 ==> Lower[i] == ('a' as int + i) as char
    ensures |Digits| == 10 && forall i :: 0 <= i < 10 ==> Digits[i] == ('0' as int + i) as char
  {
  }

  /** B62ascii lists exactly the symbols SymbolAt(0), ..., SymbolAt(61). */
  lemma AlphabetIsSymbols()
    ensures |B62ascii| == 62
    ensures forall i :: 0 <= i < 62 ==> B62ascii[i] == SymbolAt(i)
  {
    assert B62ascii == Upper + Lower + Digits;
    PiecesAreRanges();
    forall i | 0 <= i < 62 ensures B62ascii[i] == SymbolAt(i) {
      if i < 26 {
        assert B62ascii[i] == Upper[i];
      } else if i < 52 {
        assert B62ascii[i] == Lower[i - 26];
      } else {
        assert B62ascii[i] == Digits[i - 52];
      }
    }
  }

  lemma SymbolInAlphabet(i: nat)
    requires i < 62
    ensures SymbolAt(i) in B62ascii
  {
    AlphabetIsSymbols();
    assert B62ascii[i] == SymbolAt(i);
  }

  /** The 62 symbols are pairwise distinct. */
  lemma AlphabetDistinct()
    ensures |B62ascii| == 62
    ensures forall i, j :: 0 <= i < 62 && 0 <= j < 62 && i != j ==> B62ascii[i] != B62ascii[j]
  {
    AlphabetIsSymbols();
    forall i, j | 0 <= i < 62 && 0 <= j < 62 && B62ascii[i] == B62ascii[j] ensures i == j {
      assert ValueOf(SymbolAt(i)) == i;
      assert ValueOf(SymbolAt(j)) == j;
    }
  }

  /** A character is in the alphabet exactly when it is in [a-zA-Z0-9]. */
  lemma AlphabetIsCharClass()
    ensures forall c: char :: c in B62ascii <==> IsB62Char(c)
  {
    AlphabetIsSymbols();
    forall c: char | IsB62Char(c) ensures c in B62ascii {
      assert B62ascii[ValueOf(c)] == c;
    }
  }

  /** The extended table has 248 = 4 * 62 entries and entry i is symbol i mod 62. */
  lemma TableIsFourPeriods()
    ensures |b62asciiMod| == TableSize == 4 * 62
    ensures forall i :: 0 <= i < TableSize ==> b62asciiMod[i] == B62ascii[i % 62]
  {
    assert b62asciiMod == B62ascii + B62ascii + B62ascii + B62ascii;
    forall i | 0 <= i < TableSize ensures b62asciiMod[i] == B62ascii[i % 62] {
      if i < 62 {
        assert i % 62 == i;
      } else if i < 124 {
        assert i % 62 == i - 62;
      } else if i < 186 {
        assert i % 62 == i - 124;
      } else {
        assert i % 62 == i - 186;
      }
    }
  }

  /** Table entry i is the symbol of value i mod 62. */
  lemma TableEntry(i: nat)
    requires i < TableSize
    ensures |b62asciiMod| == TableSize
    ensures b62asciiMod[i] == B62ascii[i % 62] == SymbolAt(i % 62)
  {
    TableIsFourPeriods();
    AlphabetIsSymbols();
  }

  /** Each symbol has exactly four table entries, v, v + 62, v + 124 and v + 186, so the
      bytes below 248 spread evenly over the alphabet. */
  lemma TablePreimage(c: nat, v: nat)
    requires c < TableSize && v < 62
    ensures |b62asciiMod| == TableSize && |B62ascii| == 62
    ensures b62asciiMod[c] == B62ascii[v] <==> c == v || c == v + 62 || c == v + 124 || c == v + 186
  {
    TableEntry(c);
    AlphabetDistinct();
  }

  /** The lookup `b62asciiMod[c]` of a byte c below 248: symbol c mod 62 of the alphabet. */
  method TableLookup(c: nat) returns (ch: char)
    requires c < TableSize
    ensures ch == SymbolAt(c % 62)
  {
    TableEntry(c);
    ch := b62asciiMod[c];
  }
}
