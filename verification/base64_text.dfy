// The texts of the base64 encodings: their alphabets, and what a group of characters stands for.
module Base64Text {
  import opened Wrappers
  import opened LooseBase64

  const UPPER := "ABCDEFGHIJKLMNOPQRSTUVWXYZ"
  const LOWER := "abcdefghijklmnopqrstuvwxyz"
  const FIGURES := "0123456789"

  // Tables 1 and 2 of RFC 4648.
  function Alphabet(urlSafe: bool): string { UPPER + LOWER + FIGURES + if urlSafe then "-_" else "+/" }

  // The characters are those of the alphabet, in order, and no other character is read.
  lemma AlphabetExactly(enc: Encoding)
    ensures |Alphabet(enc.urlSafe)| == 64 && forall v: Sextet :: CharOf(enc, v) == Alphabet(enc.urlSafe)[v]
    ensures forall c, v: Sextet :: ValueOf(enc, c) == Some(v) <==> c == Alphabet(enc.urlSafe)[v]
  {
    forall v: Sextet ensures CharOf(enc, v) == Alphabet(enc.urlSafe)[v] { CharacterIs(enc, v); }
    hide Alphabet;
    forall c, v: Sextet ensures ValueOf(enc, c) == Some(v) <==> c == CharOf(enc, v) {
      CharRead(enc, v);
      ValueWritten(enc, c);
    }
  }

  lemma ValueWritten(enc: Encoding, c: char)
    ensures ValueOf(enc, c).Some? ==> CharOf(enc, ValueOf(enc, c).value) == c
  {
  }

  lemma CharacterIs(enc: Encoding, v: Sextet)
    ensures |Alphabet(enc.urlSafe)| == 64 && CharOf(enc, v) == Alphabet(enc.urlSafe)[v]
  {
    Sizes();
    if v < 26 { Upper(v); } else if v < 52 { Lower(v - 26); } else if v < 62 { Figure(v - 52); }
    hide UPPER, LOWER, FIGURES;
  }

  lemma Sizes()
    ensures |UPPER| == |LOWER| == 26 && |FIGURES| == 10
  {
  }

  lemma Upper(v: nat)
    requires v < 26
    ensures |UPPER| == 26 && UPPER[v] == 'A' + v as char
  {
    assert UPPER[v] as int == 'A' as int + v;
  }

  lemma Lower(v: nat)
    requires v < 26
    ensures |LOWER| == 26 && LOWER[v] == 'a' + v as char
  {
    assert LOWER[v] as int == 'a' as int + v;
  }

  lemma Figure(v: nat)
    requires v < 10
    ensures |FIGURES| == 10 && FIGURES[v] == '0' + v as char
  {
    assert FIGURES[v] as int == '0' as int + v;
  }

  // The first n digits of a number in a base, the ones that are missing being zero.
  function Number(digits: seq<int>, base: int, n: nat): int {
    if n == 0 then 0 else Number(digits, base, n - 1) * base + if n <= |digits| then digits[n - 1] else 0
  }

  function DigitAt(digits: seq<int>, k: nat): int { if k < |digits| then digits[k] else 0 }

  lemma NumberOfDigits(ds: seq<int>, base: int)
    ensures Number(ds, base, 3) == (DigitAt(ds, 0) * base + DigitAt(ds, 1)) * base + DigitAt(ds, 2)
    ensures Number(ds, base, 4) == Number(ds, base, 3) * base + DigitAt(ds, 3)
  {
    assert Number(ds, base, 1) == DigitAt(ds, 0);
    assert Number(ds, base, 2) == DigitAt(ds, 0) * base + DigitAt(ds, 1);
  }

  // Three bytes and the four characters they are written as are the same number, of base 256 and of base 64; what is
  // missing of a last group counts as zero.
  lemma GroupIsNumber(bs: seq<Byte>)
    requires 1 <= |bs| <= 3
    ensures |Split(bs)| == |bs| + 1 && Number(Split(bs), 64, 4) == Number(bs, 256, 3)
  {
    NumberOfDigits(bs, 256);
    NumberOfDigits(Split(bs), 64);
    hide Number;
    var b0: int, b1: int, b2: int := bs[0], if |bs| > 1 then bs[1] else 0, if |bs| > 2 then bs[2] else 0;
    assert b0 == b0 / 4 * 4 + b0 % 4 && b1 == b1 / 16 * 16 + b1 % 16 && b2 == b2 / 64 * 64 + b2 % 64;
  }

  // A padded text is made of whole groups of four, a raw one is as long as its bits need.
  lemma {:induction false} LengthExactly(enc: Encoding, bs: seq<Byte>)
    ensures |Encode(enc, bs)| == if enc.padded then (|bs| + 2) / 3 * 4 else (|bs| * 8 + 5) / 6
    decreases |bs|
  {
    hide Split;
    if |bs| > 2 { LengthExactly(enc, bs[3..]); }
  }
}
