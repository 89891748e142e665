// The string helpers of the bridge: splitting, joining and decimal numbers. A character is one byte.
module GoStrings {
  import opened Wrappers

  predicate HasPrefix(s: string, prefix: string) {
    |prefix| <= |s| && s[..|prefix|] == prefix
  }

  function Split(s: string, sep: char): (parts: seq<string>)
    ensures parts != []
  {
    if s == "" then [""]
    else
      var rest := Split(s[1..], sep);
      if s[0] == sep then [""] + rest else [[s[0]] + rest[0]] + rest[1..]
  }

  function Join(parts: seq<string>, sep: char): string {
    if parts == [] then ""
    else if |parts| == 1 then parts[0]
    else parts[0] + [sep] + Join(parts[1..], sep)
  }

  lemma {:induction false} SplitPartsAreClean(s: string, sep: char)
    ensures forall i :: 0 <= i < |Split(s, sep)| ==> sep !in Split(s, sep)[i]
  {
    if s != "" {
      SplitPartsAreClean(s[1..], sep);
    }
  }

  lemma {:induction false} SplitPiece(piece: string, sep: char)
    requires sep !in piece
    ensures Split(piece, sep) == [piece]
  {
    if piece != "" {
      assert piece[0] in piece && piece == [piece[0]] + piece[1..];
      SplitPiece(piece[1..], sep);
    }
  }

  lemma {:induction false} SplitAtFirst(piece: string, sep: char, rest: string)
    requires sep !in piece
    ensures Split(piece + [sep] + rest, sep) == [piece] + Split(rest, sep)
  {
    var s := piece + [sep] + rest;
    if piece == "" {
      assert s[1..] == rest;
    } else {
      assert piece[0] in piece && piece == [piece[0]] + piece[1..];
      SplitAtFirst(piece[1..], sep, rest);
      assert s[1..] == piece[1..] + [sep] + rest;
    }
  }

  // Joining undoes splitting.
  lemma {:induction false} JoinOfSplit(s: string, sep: char)
    ensures Join(Split(s, sep), sep) == s
  {
    if s != "" {
      JoinOfSplit(s[1..], sep);
      var rest := Split(s[1..], sep);
      if s[0] == sep {
        assert Split(s, sep)[1..] == rest;
      } else {
        assert Split(s, sep)[1..] == rest[1..];
      }
    }
  }

  // Splitting undoes joining, if no part holds the separator.
  lemma {:induction false} SplitOfJoin(parts: seq<string>, sep: char)
    requires parts != [] && forall i :: 0 <= i < |parts| ==> sep !in parts[i]
    ensures Split(Join(parts, sep), sep) == parts
  {
    if |parts| == 1 {
      SplitPiece(parts[0], sep);
    } else {
      SplitAtFirst(parts[0], sep, Join(parts[1..], sep));
      SplitOfJoin(parts[1..], sep);
    }
  }

  function TrimRight(s: string, cutset: string): (r: string)
    ensures r <= s && (r != "" ==> r[|r| - 1] !in cutset)
    ensures forall i :: |r| <= i < |s| ==> s[i] in cutset
  {
    if s != "" && s[|s| - 1] in cutset then TrimRight(s[..|s| - 1], cutset) else s
  }

  // ASCII white space.
  const SPACES := " \t\n\r\U{B}\U{C}"

  function TrimSpace(s: string): (r: string)
    ensures r == "" ==> forall i :: 0 <= i < |s| ==> s[i] in SPACES
    ensures s != "" && s[0] !in SPACES && s[|s| - 1] !in SPACES ==> r == s
    decreases |s|
  {
    if s != "" && s[0] in SPACES then TrimSpace(s[1..]) else TrimRight(s, SPACES)
  }

  // ---------------------------------------------------------------- decimal numbers

  const MAX_INT := 0x7fff_ffff_ffff_ffff

  predicate IsDigit(c: char) { '0' <= c <= '9' }

  function Itoa(n: nat): (s: string)
    ensures s != "" && forall i :: 0 <= i < |s| ==> IsDigit(s[i])
  {
    var digit := '0' + (n % 10) as char;
    if n < 10 then [digit] else Itoa(n / 10) + [digit]
  }

  function Digits(s: string): Option<nat> {
    if s == "" then Some(0)
    else
      var last := s[|s| - 1];
      var init := Digits(s[..|s| - 1]);
      if IsDigit(last) && init.Some? then Some(init.value * 10 + (last - '0') as nat) else None
  }

  // A decimal number with an optional sign that fits a 64-bit integer.
  function Atoi(s: string): Option<int> {
    var signed := s != "" && (s[0] == '+' || s[0] == '-');
    var body := if signed then s[1..] else s;
    var n := Digits(body);
    if body == "" || n.None? then None
    else if signed && s[0] == '-' then (if n.value <= MAX_INT + 1 then var v: int := n.value; Some(-v) else None)
    else if n.value <= MAX_INT then Some(n.value)
    else None
  }

  lemma {:induction false} DigitsOfItoa(n: nat)
    ensures Digits(Itoa(n)) == Some(n)
  {
    if n >= 10 {
      DigitsOfItoa(n / 10);
      assert Itoa(n)[..|Itoa(n)| - 1] == Itoa(n / 10);
    } else {
      assert Itoa(n)[..0] == "";
    }
  }

  lemma AtoiOfItoa(n: nat)
    requires n <= MAX_INT
    ensures Atoi(Itoa(n)) == Some(n)
  {
    DigitsOfItoa(n);
  }

  // A sign may stand before the digits.
  lemma AtoiOfSigned(n: int)
    requires 0 <= n <= MAX_INT
    ensures Atoi(Itoa(n)) == Atoi("+" + Itoa(n)) == Some(n) && Atoi("-" + Itoa(n)) == Some(-n)
  {
    hide Itoa, Digits;
    DigitsOfItoa(n);
    assert ("+" + Itoa(n))[1..] == Itoa(n) && ("-" + Itoa(n))[1..] == Itoa(n);
  }

  // The dash before a number is the last one.
  lemma LastDash(a: string, m: nat)
    ensures var s := a + "-" + Itoa(m); forall k :: |a| <= k < |s| ==> (s[k] == '-' <==> k == |a|)
  {
    var s := a + "-" + Itoa(m);
    forall k | |a| < k < |s| ensures s[k] != '-' {
      assert s[k] == Itoa(m)[k - |a| - 1];
    }
  }

  // A name and a number joined by a dash tell both apart, even if the name itself holds dashes.
  lemma DashedInjective(a: string, m: nat, b: string, n: nat)
    requires a + "-" + Itoa(m) == b + "-" + Itoa(n)
    ensures a == b && m == n
  {
    var s := a + "-" + Itoa(m);
    var t := b + "-" + Itoa(n);
    LastDash(a, m);
    LastDash(b, n);
    assert s[|a|] == '-' && t[|b|] == '-';
    assert s[..|a|] == a && t[..|b|] == b;
    assert s[|a| + 1..] == Itoa(m) && t[|b| + 1..] == Itoa(n);
    DigitsOfItoa(m);
    DigitsOfItoa(n);
  }
}
