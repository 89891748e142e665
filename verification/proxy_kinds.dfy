// Which kinds each value of a proxy has, value by value.
module ProxyKinds {
  import opened Wrappers
  import opened GoStrings
  import opened ProxyFilter

  // The spellings of a flag.
  predicate IsFlag(s: string) {
    s in ["1", "t", "T", "TRUE", "true", "True", "0", "f", "F", "FALSE", "false", "False"]
  }

  function AsReal(n: int): real { n as real }

  // An integer that fits 64 bits, as a number in text with white space around it may be, or a float without fraction.
  // The float 2^63 counts, too, although it does not fit.
  ghost predicate IsInteger(v: Value) {
    match v
    case Signed(_) => true
    case Unsigned(n) => n < 0x8000_0000_0000_0000
    case Float(r) => -0x8000_0000_0000_0000 as real <= r <= 0x8000_0000_0000_0000 as real && exists n :: AsReal(n) == r
    case Text(s) => Atoi(TrimSpace(s)).Some?
    case _ => false
  }

  // A value of each sort has these kinds and no other: null has none, every other value is anything, scalars are strings,
  // and the kinds of numbers, flags, arrays and objects are told by the value.
  lemma KindsExactly(v: Value, atLimit: Int64)
    ensures forall kind :: IsCompatible(v, kind, atLimit) <==>
              !v.Null? &&
              (kind == "any" ||
               (kind == "string" && !v.Array? && !v.Object? && !v.OtherValue?) ||
               (kind == "int" && IsInteger(v)) ||
               (kind == "bool" && (v.Boolean? || (v.Text? && IsFlag(v.text)) ||
                                   v == Signed(0) || v == Signed(1) || v == Unsigned(0) || v == Unsigned(1))) ||
               (kind == "array" && v.Array?) ||
               (kind == "object" && v.Object?))
  {
    IntegersExactly(v, atLimit);
    forall n | ProxyInteger(v, atLimit) == Some(n) && (v.Signed? || v.Unsigned?) ensures v == Signed(n) || v == Unsigned(n) {}
    assert v.Text? ==> (IsFlag(v.text) <==> ParsesAsBool(v.text));
  }

  lemma IntegersExactly(v: Value, atLimit: Int64)
    ensures ProxyInteger(v, atLimit).Some? <==> IsInteger(v)
  {
    match v
    case Float(r) =>
      if r.Floor as real == r { assert AsReal(r.Floor) == r; }
    case Text(s) => AtoiFits(TrimSpace(s));
    case _ =>
  }

  // A number read from text fits 64 bits.
  lemma AtoiFits(s: string)
    ensures Atoi(s).Some? ==> -0x8000_0000_0000_0000 <= Atoi(s).value < 0x8000_0000_0000_0000
  {
  }

  // A required field may not be null or text of white space only, and may be any other value.
  lemma EmptyExactly(v: Value)
    ensures IsEmptyRequired(v) <==>
            v.Null? || (v.Text? && forall i :: 0 <= i < |v.text| ==> v.text[i] in " \t\n\r\U{B}\U{C}")
  {
    if v.Text? && forall i :: 0 <= i < |v.text| ==> v.text[i] in SPACES { TrimmedAway(v.text); }
  }

  lemma {:induction false} TrimmedAway(s: string)
    requires forall i :: 0 <= i < |s| ==> s[i] in SPACES
    ensures TrimSpace(s) == "" && TrimRight(s, SPACES) == ""
    decreases |s|
  {
    if s != "" {
      TrimmedAway(s[1..]);
      TrimmedAway(s[..|s| - 1]);
    }
  }
}
