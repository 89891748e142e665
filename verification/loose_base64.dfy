// Trying base64 decoders in turn (sections 4 and 5 of RFC 4648, with and without padding).
module LooseBase64 {
  import opened Wrappers

  type Byte = b: int | 0 <= b < 256
  type Sextet = v: int | 0 <= v < 64

  // An encoding: the URL-safe or the standard alphabet, raw or padded.
  datatype Encoding = Encoding(urlSafe: bool, padded: bool)

  const RAW_URL := Encoding(true, false)
  const URL := Encoding(true, true)
  const RAW_STD := Encoding(false, false)
  const STD := Encoding(false, true)

  // ---------------------------------------------------------------- the alphabets

  function CharOf(enc: Encoding, v: Sextet): char {
    if v < 26 then 'A' + v as char
    else if v < 52 then 'a' + (v - 26) as char
    else if v < 62 then '0' + (v - 52) as char
    else if v == 62 then (if enc.urlSafe then '-' else '+')
    else (if enc.urlSafe then '_' else '/')
  }

  function ValueOf(enc: Encoding, c: char): Option<Sextet> {
    if 'A' <= c <= 'Z' then Some(c as nat - 'A' as nat)
    else if 'a' <= c <= 'z' then Some(c as nat - 'a' as nat + 26)
    else if '0' <= c <= '9' then Some(c as nat - '0' as nat + 52)
    else if c == (if enc.urlSafe then '-' else '+') then Some(62)
    else if c == (if enc.urlSafe then '_' else '/') then Some(63)
    else None
  }

  lemma CharRead(enc: Encoding, v: Sextet)
    ensures ValueOf(enc, CharOf(enc, v)) == Some(v) && CharOf(enc, v) != '=' && CharOf(enc, v) !in "\r\n"
  {
  }

  // ---------------------------------------------------------------- encoding

  // The bytes of two, three or four sextets; leftover bits are dropped.
  function Bytes(vs: seq<Sextet>): seq<Byte>
    requires 2 <= |vs| <= 4
  {
    var v0: int, v1: int := vs[0], vs[1];
    var b0: Byte := v0 * 4 + v1 / 16;
    if |vs| == 2 then [b0]
    else
      var v2: int := vs[2];
      var b1: Byte := v1 % 16 * 16 + v2 / 4;
      if |vs| == 3 then [b0, b1]
      else
        var v3: int := vs[3];
        var b2: Byte := v2 % 4 * 64 + v3;
        [b0, b1, b2]
  }

  lemma Sextets(b0: Byte, b1: Byte, b2: Byte)
    ensures b0 / 4 * 4 + (b0 % 4 * 16 + b1 / 16) / 16 == b0
    ensures (b0 % 4 * 16 + b1 / 16) % 16 * 16 + (b1 % 16 * 4 + b2 / 64) / 4 == b1
    ensures (b1 % 16 * 4 + b2 / 64) % 4 * 64 + b2 % 64 == b2
    ensures b0 % 4 * 16 + b1 / 16 < 64 && b1 % 16 * 4 + b2 / 64 < 64
  {
  }

  // The sextets of one, two or three bytes, the last one filled up with zero bits.
  function Split(bs: seq<Byte>): (vs: seq<Sextet>)
    requires 1 <= |bs| <= 3
    ensures |vs| == |bs| + 1 && Bytes(vs) == bs
  {
    var b0: int := bs[0];
    var b1: int := if |bs| > 1 then bs[1] else 0;
    var b2: int := if |bs| > 2 then bs[2] else 0;
    Sextets(b0, b1, b2);
    var v0: Sextet := b0 / 4;
    var v1: Sextet := b0 % 4 * 16 + b1 / 16;
    var v2: Sextet := b1 % 16 * 4 + b2 / 64;
    var v3: Sextet := b2 % 64;
    if |bs| == 1 then [v0, v1] else if |bs| == 2 then [v0, v1, v2] else [v0, v1, v2, v3]
  }

  function Chars(enc: Encoding, vs: seq<Sextet>): (s: string)
    ensures |s| == |vs| && forall i :: 0 <= i < |vs| ==> s[i] == CharOf(enc, vs[i])
  {
    seq(|vs|, i requires 0 <= i < |vs| => CharOf(enc, vs[i]))
  }

  // What is written after a last group of one or two bytes.
  function Padding(enc: Encoding, n: nat): string {
    if !enc.padded then "" else if n == 1 then "==" else "="
  }

  function Encode(enc: Encoding, bs: seq<Byte>): string
    decreases |bs|
  {
    if bs == [] then ""
    else if |bs| <= 2 then Chars(enc, Split(bs)) + Padding(enc, |bs|)
    else Chars(enc, Split(bs[..3])) + Encode(enc, bs[3..])
  }

  // ---------------------------------------------------------------- decoding

  // Line breaks are ignored wherever they stand.
  function StripNewlines(s: string): string {
    if s == "" then ""
    else if s[0] == '\r' || s[0] == '\n' then StripNewlines(s[1..])
    else [s[0]] + StripNewlines(s[1..])
  }

  // The values of the first n characters, if all of them are in the alphabet.
  function Values(enc: Encoding, s: string, n: nat): (r: Option<seq<Sextet>>)
    requires n <= |s|
    ensures r.Some? ==> |r.value| == n
  {
    if n == 0 then Some([])
    else
      var init := Values(enc, s, n - 1);
      var last := ValueOf(enc, s[n - 1]);
      if init.None? || last.None? then None else Some(init.value + [last.value])
  }

  // Decodes a text without line breaks, four characters at a time; only the last group may be short.
  function DecodeQuanta(enc: Encoding, s: string): Option<seq<Byte>>
    decreases |s|
  {
    if s == "" then Some([])
    else if |s| >= 4 && Values(enc, s, 4).Some? then
      var rest := DecodeQuanta(enc, s[4..]);
      if rest.None? then None else Some(Bytes(Values(enc, s, 4).value) + rest.value)
    else
      var n := if enc.padded then (if |s| != 4 || s[3] != '=' then 0 else if s[2] == '=' then 2 else 3) else |s|;
      if n == 2 || n == 3 then
        var vs := Values(enc, s, n);
        if vs.None? then None else Some(Bytes(vs.value))
      else None
  }

  function Decode(enc: Encoding, s: string): Option<seq<Byte>> {
    DecodeQuanta(enc, StripNewlines(s))
  }

  // ---------------------------------------------------------------- round trip

  lemma {:induction false} ValuesOfChars(enc: Encoding, s: string, vs: seq<Sextet>)
    requires Chars(enc, vs) <= s
    ensures Values(enc, s, |vs|) == Some(vs)
    decreases |vs|
  {
    hide CharOf, ValueOf;
    if vs != [] {
      var init := vs[..|vs| - 1];
      assert forall i :: 0 <= i < |init| ==> Chars(enc, init)[i] == Chars(enc, vs)[i];
      ValuesOfChars(enc, s, init);
      CharRead(enc, vs[|vs| - 1]);
      assert vs == init + [vs[|vs| - 1]];
    }
  }

  lemma {:induction false} EncodeHasNoNewlines(enc: Encoding, bs: seq<Byte>)
    ensures forall c <- Encode(enc, bs) :: c != '\r' && c != '\n'
    decreases |bs|
  {
    forall v: Sextet ensures CharOf(enc, v) !in "\r\n" { CharRead(enc, v); }
    if |bs| >= 3 { EncodeHasNoNewlines(enc, bs[3..]); }
  }

  lemma StripNothing(s: string)
    requires forall c <- s :: c != '\r' && c != '\n'
    ensures StripNewlines(s) == s
  {
    if s != "" {
      assert s[0] in s && forall c <- s[1..] :: c in s;
      StripNothing(s[1..]);
      assert [s[0]] + s[1..] == s;
    }
  }

  lemma PaddingIsNoSextet(enc: Encoding, s: string, n: nat, i: nat)
    requires i < n <= |s| && s[i] == '='
    ensures Values(enc, s, n).None?
  {
    if i < n - 1 { PaddingIsNoSextet(enc, s, n - 1, i); }
  }

  lemma ShortGroup(enc: Encoding, vs: seq<Sextet>)
    requires 2 <= |vs| <= 3
    ensures DecodeQuanta(enc, Chars(enc, vs) + Padding(enc, |vs| - 1)) == Some(Bytes(vs))
  {
    hide CharOf, ValueOf, Values, Bytes;
    var s := Chars(enc, vs) + Padding(enc, |vs| - 1);
    ValuesOfChars(enc, s, vs);
    forall v: Sextet ensures CharOf(enc, v) != '=' { CharRead(enc, v); }
    if enc.padded { PaddingIsNoSextet(enc, s, 4, 3); }
  }

  lemma {:induction false} QuantaRoundTrip(enc: Encoding, bs: seq<Byte>)
    ensures DecodeQuanta(enc, Encode(enc, bs)) == Some(bs)
    decreases |bs|
  {
    hide CharOf, ValueOf, Values, Bytes, Split;
    if bs == [] {
    } else if |bs| <= 2 {
      ShortGroup(enc, Split(bs));
    } else {
      var s := Encode(enc, bs);
      ValuesOfChars(enc, s, Split(bs[..3]));
      assert s[4..] == Encode(enc, bs[3..]);
      QuantaRoundTrip(enc, bs[3..]);
      assert bs[..3] + bs[3..] == bs;
    }
  }

  // Each decoder inverts its own encoder.
  lemma RoundTrip(enc: Encoding, bs: seq<Byte>)
    ensures Decode(enc, Encode(enc, bs)) == Some(bs)
  {
    EncodeHasNoNewlines(enc, bs);
    StripNothing(Encode(enc, bs));
    QuantaRoundTrip(enc, bs);
  }

  // ---------------------------------------------------------------- decoders never disagree

  lemma {:induction false} ValuesAgree(d: Encoding, e: Encoding, s: string, n: nat)
    requires n <= |s| && Values(d, s, n).Some? && Values(e, s, n).Some?
    ensures Values(d, s, n) == Values(e, s, n)
    decreases n
  {
    if n > 0 { ValuesAgree(d, e, s, n - 1); }
  }

  lemma {:induction false} AllInAlphabet(enc: Encoding, s: string, n: nat, i: nat)
    requires i < n <= |s| && Values(enc, s, n).Some?
    ensures ValueOf(enc, s[i]).Some? && s[i] != '='
    decreases n
  {
    if i < n - 1 { AllInAlphabet(enc, s, n - 1, i); }
  }

  lemma {:induction false} QuantaAgree(d: Encoding, e: Encoding, s: string)
    requires DecodeQuanta(d, s).Some? && DecodeQuanta(e, s).Some?
    ensures DecodeQuanta(d, s) == DecodeQuanta(e, s)
    decreases |s|
  {
    if s != "" {
      var fullD := |s| >= 4 && Values(d, s, 4).Some?;
      var fullE := |s| >= 4 && Values(e, s, 4).Some?;
      if fullD && fullE {
        ValuesAgree(d, e, s, 4);
        QuantaAgree(d, e, s[4..]);
      } else if fullD {
        AllInAlphabet(d, s, 4, 3);
      } else if fullE {
        AllInAlphabet(e, s, 4, 3);
      } else {
        ShortAgree(d, e, s);
      }
    }
  }

  lemma ShortAgree(d: Encoding, e: Encoding, s: string)
    requires s != "" && DecodeQuanta(d, s).Some? && DecodeQuanta(e, s).Some?
    requires !(|s| >= 4 && Values(d, s, 4).Some?) && !(|s| >= 4 && Values(e, s, 4).Some?)
    ensures DecodeQuanta(d, s) == DecodeQuanta(e, s)
  {
    var n := if d.padded then (if s[2] == '=' then 2 else 3) else |s|;
    ValuesAgree(d, e, s, n);
  }

  // Any two decoders that accept a text agree on its bytes, so the order they are tried in does not matter.
  lemma DecodersAgree(d: Encoding, e: Encoding, s: string)
    requires Decode(d, s).Some? && Decode(e, s).Some?
    ensures Decode(d, s) == Decode(e, s)
  {
    QuantaAgree(d, e, StripNewlines(s));
  }

  // ---------------------------------------------------------------- decodeLooseBase64

  // The bytes of the first decoder that accepts a text.
  function LooseDecode(value: string): Option<seq<Byte>> {
    if Decode(RAW_URL, value).Some? then Decode(RAW_URL, value)
    else if Decode(URL, value).Some? then Decode(URL, value)
    else if Decode(RAW_STD, value).Some? then Decode(RAW_STD, value)
    else Decode(STD, value)
  }

  // Succeeds exactly when some decoder accepts the text, and then with the bytes every accepting decoder gives.
  method DecodeLooseBase64(value: string) returns (r: Option<seq<Byte>>)
    ensures r == LooseDecode(value)
    ensures r.Some? <==> exists enc :: Decode(enc, value).Some?
    ensures forall enc | Decode(enc, value).Some? :: r == Decode(enc, value)
  {
    var encodings := [RAW_URL, URL, RAW_STD, STD];
    for i := 0 to |encodings|
      invariant forall j | 0 <= j < i :: Decode(encodings[j], value).None?
    {
      var decoded := Decode(encodings[i], value);
      if decoded.Some? {
        forall enc | Decode(enc, value).Some? ensures decoded == Decode(enc, value) {
          DecodersAgree(encodings[i], enc, value);
        }
        return decoded;
      }
    }
    assert encodings[0] == RAW_URL && encodings[1] == URL && encodings[2] == RAW_STD && encodings[3] == STD;
    forall enc: Encoding ensures Decode(enc, value).None? {
      assert enc == RAW_URL || enc == URL || enc == RAW_STD || enc == STD;
    }
    r := None;
  }

  // Whatever bytes were encoded, and in whichever of the four encodings, they come back.
  method DecodeEncoded(enc: Encoding, bs: seq<Byte>, value: string) returns (r: Option<seq<Byte>>)
    requires value == Encode(enc, bs)
    ensures r == Some(bs)
  {
    RoundTrip(enc, bs);
    r := DecodeLooseBase64(value);
  }
}
