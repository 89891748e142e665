// The code units of the characters a subject is made of, and advancing over them.
module RegexCharacters {
  import opened RegexMatch

  // Unicode scalar values.
  predicate IsScalar(c: nat) { c < 0x110000 && !(0xD800 <= c < 0xE000) }

  // The units of a character: UTF-8, UTF-16 with surrogate pairs, or one unit.
  function Units(width: Width, c: nat): seq<Unit> {
    match width
    case Bits8 =>
      if c < 0x80 then [c]
      else if c < 0x800 then [0xC0 + c / 0x40, 0x80 + c % 0x40]
      else if c < 0x10000 then [0xE0 + c / 0x1000, 0x80 + c / 0x40 % 0x40, 0x80 + c % 0x40]
      else [0xF0 + c / 0x40000, 0x80 + c / 0x1000 % 0x40, 0x80 + c / 0x40 % 0x40, 0x80 + c % 0x40]
    case Bits16 => if c < 0x10000 then [c] else [0xD800 + (c - 0x10000) / 0x400, 0xDC00 + c % 0x400]
    case Bits32 => [c]
  }

  function Encoded(width: Width, cs: seq<nat>): Subject {
    if cs == [] then [] else Units(width, cs[0]) + Encoded(width, cs[1..])
  }

  // The bytes 80 to BF, the low surrogates, and no unit of 32 bits.
  lemma TrailingExactly(p: Pattern, u: Unit)
    requires p.width.Bits8? ==> u < 0x100
    requires p.width.Bits16? ==> u < 0x10000
    ensures IsTrailing(p, u) <==> (p.width.Bits8? && 0x80 <= u < 0xC0) || (p.width.Bits16? && 0xDC00 <= u < 0xE000)
  {
  }

  // The first unit of a character is not a trailing one, and all others are.
  lemma UnitsOfCharacter(p: Pattern, c: nat)
    requires IsScalar(c)
    ensures var us := Units(p.width, c);
            us != [] && !IsTrailing(p, us[0]) && (forall i :: 0 < i < |us| ==> IsTrailing(p, us[i])) &&
            (us[0] == 13 <==> c == 13) && (us[0] == 10 <==> c == 10)
  {
    if p.width.Bits8? { BytesOfCharacter(p, c); }
  }

  lemma BytesOfCharacter(p: Pattern, c: nat)
    requires IsScalar(c) && p.width.Bits8?
    ensures var us := Units(Bits8, c);
            us != [] && (us[0] == c < 0x80 || (c >= 0x80 && 0xC0 <= us[0] < 0x100)) && forall i :: 0 < i < |us| ==> 0x80 <= us[i] < 0xC0
    ensures var us := Units(Bits8, c); !IsTrailing(p, us[0]) && forall i :: 0 < i < |us| ==> IsTrailing(p, us[i])
  {
    var us := Units(Bits8, c);
    assert c / 0x1000 % 0x40 < 0x40 && c / 0x40 % 0x40 < 0x40 && c % 0x40 < 0x40;
    forall i | 0 < i < |us| ensures 0x80 <= us[i] < 0xC0 && IsTrailing(p, us[i]) { TrailingExactly(p, us[i]); }
    TrailingExactly(p, us[0]);
  }

  lemma {:induction false} EncodedSplits(width: Width, a: seq<nat>, b: seq<nat>)
    ensures Encoded(width, a + b) == Encoded(width, a) + Encoded(width, b)
    decreases |a|
  {
    if a == [] {
      assert a + b == b;
    } else {
      assert (a + b)[1..] == a[1..] + b;
      EncodedSplits(width, a[1..], b);
    }
  }

  lemma {:induction false} SkipsTo(p: Pattern, offset: nat, end: nat)
    requires offset <= end <= |p.subject| && (end < |p.subject| ==> !IsTrailing(p, p.subject[end]))
    requires forall i :: offset <= i < end ==> IsTrailing(p, p.subject[i])
    ensures SkipTrailing(p, offset) == end
    decreases end - offset
  {
    if offset < end { SkipsTo(p, offset + 1, end); }
  }

  // Where the character i begins, in units.
  function Offset(width: Width, cs: seq<nat>, i: nat): nat
    requires i <= |cs|
  {
    |Encoded(width, cs[..i])|
  }

  predicate Here(s: Subject, o: nat, us: seq<Unit>) { o + |us| <= |s| && forall k :: 0 <= k < |us| ==> s[o + k] == us[k] }

  lemma {:induction false} EncodedHere(width: Width, cs: seq<nat>, i: nat)
    requires i < |cs|
    ensures Here(Encoded(width, cs), Offset(width, cs, i), Units(width, cs[i]))
    ensures Offset(width, cs, i + 1) == Offset(width, cs, i) + |Units(width, cs[i])|
  {
    hide Units;
    var us := Units(width, cs[i]);
    assert cs == cs[..i] + cs[i..] && cs[i..][1..] == cs[i + 1..] && cs[..i + 1] == cs[..i] + [cs[i]];
    EncodedSplits(width, cs[..i], cs[i..]);
    EncodedSplits(width, cs[..i], [cs[i]]);
    OneEncoded(width, cs[i]);
  }

  lemma OneEncoded(width: Width, c: nat)
    ensures Encoded(width, [c]) == Units(width, c)
  {
    hide Units;
    assert Units(width, c) + [] == Units(width, c);
  }

  // Where a character begins or the text ends stands no trailing unit.
  lemma BeginsThere(p: Pattern, cs: seq<nat>, i: nat)
    requires (forall k :: 0 <= k < |cs| ==> IsScalar(cs[k])) && p.subject == Encoded(p.width, cs) && i <= |cs|
    ensures var o := Offset(p.width, cs, i);
            if i == |cs| then o == |p.subject| else o < |p.subject| && p.subject[o] == Units(p.width, cs[i])[0] && !IsTrailing(p, p.subject[o])
  {
    if i == |cs| {
      assert cs[..i] == cs;
    } else {
      EncodedHere(p.width, cs, i);
      UnitsOfCharacter(p, cs[i]);
      hide Offset, Units, Encoded, IsTrailing, IsScalar;
      assert p.subject[Offset(p.width, cs, i) + 0] == Units(p.width, cs[i])[0];
    }
  }

  // A newline of two units is one of two characters.
  lemma NewlineExactly(p: Pattern, cs: seq<nat>, i: nat)
    requires (forall k :: 0 <= k < |cs| ==> IsScalar(cs[k])) && p.subject == Encoded(p.width, cs) && i < |cs|
    ensures IsNewline(p, Offset(p.width, cs, i)) <==> p.crlfIsNewline && i + 1 < |cs| && cs[i] == 13 && cs[i + 1] == 10
  {
    hide Offset, Units, Encoded, IsTrailing, IsScalar, Here;
    BeginsThere(p, cs, i);
    BeginsThere(p, cs, i + 1);
    EncodedHere(p.width, cs, i);
    UnitsOfCharacter(p, cs[i]);
    if i + 1 < |cs| { UnitsOfCharacter(p, cs[i + 1]); }
    if cs[i] == 13 { OneUnit(p.width, 13); }
  }

  // In an encoded text advancing leads from each character to the next one, and from a newline of two behind both.
  lemma AdvancesByCharacter(p: Pattern, cs: seq<nat>, i: nat)
    requires p.utf && (forall k :: 0 <= k < |cs| ==> IsScalar(cs[k])) && p.subject == Encoded(p.width, cs) && i < |cs|
    ensures var n := if p.crlfIsNewline && i + 1 < |cs| && cs[i] == 13 && cs[i + 1] == 10 then 2 else 1;
            Advance(p, Offset(p.width, cs, i)) == Offset(p.width, cs, i + n)
  {
    hide Offset, Units, Encoded, IsTrailing, IsScalar, IsNewline, Advance, Here;
    NewlineExactly(p, cs, i);
    EncodedHere(p.width, cs, i);
    UnitsOfCharacter(p, cs[i]);
    BeginsThere(p, cs, i + 1);
    if i + 1 < |cs| {
      EncodedHere(p.width, cs, i + 1);
      if cs[i + 1] == 10 { OneUnit(p.width, 10); }
    }
    if cs[i] == 13 { OneUnit(p.width, 13); }
    AdvancesOver(p, Offset(p.width, cs, i), Units(p.width, cs[i]));
  }

  lemma AdvancesOver(p: Pattern, o: nat, us: seq<Unit>)
    requires p.utf && us != [] && Here(p.subject, o, us) && (forall k :: 0 < k < |us| ==> IsTrailing(p, us[k]))
    requires o + |us| < |p.subject| ==> !IsTrailing(p, p.subject[o + |us|])
    ensures Advance(p, o) == if IsNewline(p, o) then o + 2 else o + |us|
  {
    hide IsTrailing, SkipTrailing;
    forall k | o + 1 <= k < o + |us| ensures IsTrailing(p, p.subject[k]) { assert p.subject[o + (k - o)] == us[k - o]; }
    SkipsTo(p, o + 1, o + |us|);
  }

  // In an encoded text the units of a newline are characters of their own, as the search for all matches asks.
  lemma EncodedNewlinesAreWhole(p: Pattern, cs: seq<nat>)
    requires (forall k :: 0 <= k < |cs| ==> IsScalar(cs[k])) && p.subject == Encoded(p.width, cs)
    ensures NewlinesAreWhole(p)
  {
    forall offset: nat | IsNewline(p, offset) ensures Boundary(p, offset + 2) { LineFeedIsWhole(p, cs, offset + 1); }
  }

  lemma {:induction false} LineFeedIsWhole(p: Pattern, cs: seq<nat>, o: nat)
    requires (forall k :: 0 <= k < |cs| ==> IsScalar(cs[k])) && o < |Encoded(p.width, cs)| && Encoded(p.width, cs)[o] == 10
    ensures o + 1 < |Encoded(p.width, cs)| ==> !IsTrailing(p, Encoded(p.width, cs)[o + 1])
    decreases |cs|
  {
    hide IsScalar, Units;
    var us, rest := Units(p.width, cs[0]), Encoded(p.width, cs[1..]);
    UnitsOfCharacter(p, cs[0]);
    assert Encoded(p.width, cs) == us + rest;
    if o < |us| {
      assert o == 0;
      OneUnit(p.width, 10);
      if |cs| > 1 {
        UnitsOfCharacter(p, cs[1]);
        assert rest == Units(p.width, cs[1]) + Encoded(p.width, cs[1..][1..]);
      }
    } else {
      LineFeedIsWhole(p, cs[1..], o - |us|);
    }
  }

  lemma OneUnit(width: Width, c: nat)
    requires c < 0x80
    ensures Units(width, c) == [c]
  {
  }
}
