// The "find all" loop over a regular expression engine, and the replacement that splices its matches.
module RegexMatch {
  import opened Wrappers

  type Unit = nat                 // one code unit of the subject
  type Subject = seq<Unit>
  datatype Width = Bits8 | Bits16 | Bits32
  datatype Match = Match(start: nat, end: nat)

  // What the engine answers: the offsets of a match, no match, or an error number.
  datatype Answer = Matched(m: Match) | NoMatch | Error(code: int)

  // `engine(offset, retry)` runs the pattern from an offset; a retry is anchored there and refuses the empty match.
  datatype Pattern = Pattern(
    subject: Subject, engine: (nat, bool) -> Answer, matchOpts: nat, findAll: bool,
    crlfIsNewline: bool, utf: bool, width: Width)

  // What the engine promises (for patterns without \K). Error numbers are negative.
  ghost predicate Sound(p: Pattern) {
    forall offset: nat, retry: bool ::
      match p.engine(offset, retry)
      case Matched(m) => offset <= m.start <= m.end <= |p.subject| && (retry ==> m.start == offset < m.end)
      case NoMatch => offset <= |p.subject|
      case Error(code) => code < 0
  }

  // ---------------------------------------------------------------- one round of the loop

  // A trailing unit of a multi-unit character.
  predicate IsTrailing(p: Pattern, u: Unit) {
    match p.width
    case Bits8 => u / 64 % 4 == 2
    case Bits16 => u / 1024 % 64 == 55
    case Bits32 => false
  }

  function SkipTrailing(p: Pattern, offset: nat): (r: nat)
    ensures offset <= r && (offset <= |p.subject| ==> r <= |p.subject|)
    decreases |p.subject| - offset
  {
    if offset < |p.subject| && IsTrailing(p, p.subject[offset]) then SkipTrailing(p, offset + 1) else offset
  }

  // One character further: both units of a CRLF newline, or all units of a character.
  function Advance(p: Pattern, offset: nat): (r: nat)
    ensures offset < r && (offset < |p.subject| ==> r <= |p.subject|) && r <= |p.subject| + 1 + offset
    ensures offset >= |p.subject| ==> r == offset + 1
  {
    if p.crlfIsNewline && offset + 1 < |p.subject| && p.subject[offset] == 13 && p.subject[offset + 1] == 10 then offset + 2
    else if p.utf then SkipTrailing(p, offset + 1)
    else offset + 1
  }

  // The matches found from the output vector (o0, o1) on, and the error that stopped the loop, if any.
  datatype Found = Found(matches: seq<Match>, error: int)

  function FindNext(p: Pattern, o0: nat, o1: nat): Found
    requires Sound(p) && o0 <= o1 <= |p.subject| + 1
    decreases |p.subject| + 1 - o1, if o0 == o1 then 0 else 1
  {
    var empty := o0 == o1;
    if empty && o0 == |p.subject| then Found([], 0)
    else match p.engine(o1, empty)
      case NoMatch =>
        if p.matchOpts == 0 && !empty then Found([], 0) else FindNext(p, o0, Advance(p, o1))
      case Error(code) => Found([], code)
      case Matched(m) =>
        var more := FindNext(p, m.start, m.end);
        Found([m] + more.matches, more.error)
  }

  // All matches from the start offset.
  function FindAll(p: Pattern, startOffset: nat): Found
    requires Sound(p)
  {
    match p.engine(startOffset, false)
    case NoMatch => Found([], 0)
    case Error(code) => Found([], code)
    case Matched(m) =>
      if !p.findAll then Found([m], 0)
      else
        var more := FindNext(p, m.start, m.end);
        Found([m] + more.matches, more.error)
  }

  // ---------------------------------------------------------------- the recorded matches

  // Matches in order from an offset on, each beginning where the last one ended or later, and not empty again
  // where an empty one was just found.
  ghost predicate Separated(ms: seq<Match>, from: nat, afterEmpty: bool, size: nat) {
    ms != [] ==>
      && from <= ms[0].start <= ms[0].end <= size
      && (afterEmpty && ms[0].start == from ==> ms[0].start < ms[0].end)
      && Separated(ms[1..], ms[0].end, ms[0].start == ms[0].end, size)
  }

  lemma {:induction false} FindNextSeparates(p: Pattern, o0: nat, o1: nat)
    requires Sound(p) && o0 <= o1 <= |p.subject| + 1
    ensures Separated(FindNext(p, o0, o1).matches, o1, o0 == o1, |p.subject|)
    decreases |p.subject| + 1 - o1, if o0 == o1 then 0 else 1
  {
    var empty := o0 == o1;
    if !(empty && o0 == |p.subject|) {
      match p.engine(o1, empty)
      case NoMatch =>
        if !(p.matchOpts == 0 && !empty) {
          FindNextSeparates(p, o0, Advance(p, o1));
          SeparatedLater(FindNext(p, o0, Advance(p, o1)).matches, Advance(p, o1), o1, |p.subject|);
        }
      case Error(code) =>
      case Matched(m) => FindNextSeparates(p, m.start, m.end);
    }
  }

  lemma SeparatedLater(ms: seq<Match>, from: nat, earlier: nat, size: nat)
    requires Separated(ms, from, false, size) && earlier < from
    ensures Separated(ms, earlier, true, size) && Separated(ms, earlier, false, size)
  {
  }

  // Any two recorded matches: within the subject, ordered and disjoint, and never both empty at one offset.
  predicate Disjoint(ms: seq<Match>, size: nat) {
    && (forall i :: 0 <= i < |ms| ==> ms[i].start <= ms[i].end <= size)
    && (forall i, j :: 0 <= i < j < |ms| ==> ms[i].end <= ms[j].start && ms[i] != ms[j])
  }

  lemma {:induction false} SeparatedIsDisjoint(ms: seq<Match>, from: nat, afterEmpty: bool, size: nat)
    requires Separated(ms, from, afterEmpty, size)
    ensures Disjoint(ms, size)
    ensures forall i :: 0 <= i < |ms| ==> from <= ms[i].start && (afterEmpty ==> ms[i] != Match(from, from))
    decreases |ms|
  {
    if ms != [] {
      SeparatedIsDisjoint(ms[1..], ms[0].end, ms[0].start == ms[0].end, size);
      forall i, j | 0 <= i < j < |ms| ensures ms[i].end <= ms[j].start && ms[i] != ms[j] {
        assert ms[j] == ms[1..][j - 1];
        if i > 0 { assert ms[i] == ms[1..][i - 1]; }
      }
      forall i | 0 <= i < |ms| ensures ms[i].start <= ms[i].end <= size && from <= ms[i].start {
        if i > 0 { assert ms[i] == ms[1..][i - 1]; }
      }
      forall i | 0 <= i < |ms| && afterEmpty ensures ms[i] != Match(from, from) {
        if i > 0 { assert ms[i] == ms[1..][i - 1]; }
      }
    }
  }

  // Whatever the pattern, options, newline convention and start offset.
  lemma MatchesAreDisjoint(p: Pattern, startOffset: nat)
    requires Sound(p)
    ensures var ms := FindAll(p, startOffset).matches;
            Disjoint(ms, |p.subject|) && forall i :: 0 <= i < |ms| ==> startOffset <= ms[i].start
  {
    var a := p.engine(startOffset, false);
    if a.Matched? {
      if p.findAll { FindNextSeparates(p, a.m.start, a.m.end); }
      SeparatedIsDisjoint(FindAll(p, startOffset).matches, startOffset, false, |p.subject|);
    }
  }

  // ---------------------------------------------------------------- no match is missed

  // The end, and in UTF mode only the places where a character begins.
  predicate Boundary(p: Pattern, offset: nat) {
    offset <= |p.subject| && (p.utf && offset < |p.subject| ==> !IsTrailing(p, p.subject[offset]))
  }

  predicate IsNewline(p: Pattern, offset: nat) {
    p.crlfIsNewline && offset + 1 < |p.subject| && p.subject[offset] == 13 && p.subject[offset + 1] == 10
  }

  // The two units of a newline are characters of their own.
  ghost predicate NewlinesAreWhole(p: Pattern) {
    forall offset: nat | IsNewline(p, offset) :: Boundary(p, offset + 2)
  }

  lemma {:induction false} SkipTrailingStops(p: Pattern, offset: nat)
    requires p.utf && offset <= |p.subject|
    ensures Boundary(p, SkipTrailing(p, offset))
    ensures forall q: nat | offset <= q < SkipTrailing(p, offset) :: !Boundary(p, q)
    decreases |p.subject| - offset
  {
    if offset < |p.subject| && IsTrailing(p, p.subject[offset]) { SkipTrailingStops(p, offset + 1); }
  }

  // Advancing leads from anywhere to the next character, or behind a newline.
  lemma AdvanceToBoundary(p: Pattern, offset: nat)
    requires NewlinesAreWhole(p) && offset < |p.subject|
    ensures Boundary(p, Advance(p, offset))
    ensures forall q: nat | offset < q < Advance(p, offset) && Boundary(p, q) :: IsNewline(p, offset) && q == offset + 1
  {
    if IsNewline(p, offset) {
      assert Boundary(p, offset + 2);
    } else if p.utf {
      SkipTrailingStops(p, offset + 1);
    }
  }

  // An engine that reports the first offset where the pattern matches: `at` and `nonEmptyAt` say where it ends, which is
  // a boundary as is the offset. Of other offsets nothing is asked, and it may report errors.
  ghost predicate Leftmost(p: Pattern, at: nat -> Option<nat>, nonEmptyAt: nat -> Option<nat>) {
    && (forall q: nat | at(q).Some? :: Boundary(p, q) && Boundary(p, at(q).value))
    && (forall q: nat | nonEmptyAt(q).Some? :: Boundary(p, q) && Boundary(p, nonEmptyAt(q).value))
    && forall offset: nat | Boundary(p, offset) ::
         && (match p.engine(offset, false)
             case Matched(m) => at(m.start) == Some(m.end) && forall q: nat | offset <= q < m.start :: at(q) == None
             case NoMatch => forall q: nat | offset <= q <= |p.subject| :: at(q) == None
             case Error(_) => true)
         && (match p.engine(offset, true)
             case Matched(m) => nonEmptyAt(m.start) == Some(m.end)
             case NoMatch => nonEmptyAt(offset) == None
             case Error(_) => true)
  }

  // Nothing but offsets inside a character, or outside the subject, makes the engine report an error.
  ghost predicate ErrsOffBoundaries(p: Pattern) {
    forall offset: nat, retry: bool | p.engine(offset, retry).Error? :: !Boundary(p, offset)
  }

  // Between the matches, from `from` on, the pattern matches nowhere - except that after an empty match nothing
  // but a longer match is looked for at its offset, and nothing inside a newline that follows it.
  ghost predicate NothingMissed(p: Pattern, at: nat -> Option<nat>, nonEmptyAt: nat -> Option<nat>,
                                ms: seq<Match>, from: nat, afterEmpty: bool)
    decreases |ms|
  {
    var stop := if ms == [] then |p.subject| + 1 else ms[0].start;
    && (forall q: nat | from <= q < stop && !(afterEmpty && (q == from || (IsNewline(p, from) && q == from + 1))) :: at(q) == None)
    && (afterEmpty && from < stop && from < |p.subject| ==> nonEmptyAt(from) == None)
    && (ms != [] ==> NothingMissed(p, at, nonEmptyAt, ms[1..], ms[0].end, ms[0].start == ms[0].end))
  }

  lemma {:induction false} FindNextMissesNothing(p: Pattern, at: nat -> Option<nat>, nonEmptyAt: nat -> Option<nat>, o0: nat, o1: nat)
    requires Sound(p) && NewlinesAreWhole(p) && Leftmost(p, at, nonEmptyAt) && o0 <= o1 && Boundary(p, o1)
    requires ErrsOffBoundaries(p) || FindNext(p, o0, o1).error == 0
    ensures NothingMissed(p, at, nonEmptyAt, FindNext(p, o0, o1).matches, o1, o0 == o1)
    decreases |p.subject| + 1 - o1, if o0 == o1 then 0 else 1
  {
    hide Advance, Boundary;
    var empty := o0 == o1;
    assert o1 <= |p.subject| by { BoundaryInside(p, o1); }
    if !(empty && o0 == |p.subject|) {
      match p.engine(o1, empty)
      case NoMatch =>
        if o1 < |p.subject| {
          AdvanceToBoundary(p, o1);
          if p.matchOpts != 0 || empty { FindNextMissesNothing(p, at, nonEmptyAt, o0, Advance(p, o1)); }
        }
      case Error(code) =>
      case Matched(m) => FindNextMissesNothing(p, at, nonEmptyAt, m.start, m.end);
    }
  }

  lemma BoundaryInside(p: Pattern, offset: nat)
    requires Boundary(p, offset)
    ensures offset <= |p.subject|
  {
  }

  // Over an engine that reports leftmost matches no match is missed, whatever the options, in subjects with characters
  // of several units too: unless the engine reports an error where a character begins, none comes to the loop that
  // would keep it from a match.
  lemma FindAllMissesNothing(p: Pattern, at: nat -> Option<nat>, nonEmptyAt: nat -> Option<nat>, startOffset: nat)
    requires Sound(p) && NewlinesAreWhole(p) && Leftmost(p, at, nonEmptyAt) && p.findAll && Boundary(p, startOffset)
    requires ErrsOffBoundaries(p) || FindAll(p, startOffset).error == 0
    ensures NothingMissed(p, at, nonEmptyAt, FindAll(p, startOffset).matches, startOffset, false)
  {
    var a := p.engine(startOffset, false);
    if a.Matched? { FindNextMissesNothing(p, at, nonEmptyAt, a.m.start, a.m.end); }
  }

  // ---------------------------------------------------------------- errors

  // The loop has come to an empty match at the end of the subject.
  predicate EndsEmpty(p: Pattern, ms: seq<Match>) {
    ms != [] && ms[|ms| - 1] == Match(|p.subject|, |p.subject|)
  }

  lemma {:induction false} FindNextErrs(p: Pattern, at: nat -> Option<nat>, nonEmptyAt: nat -> Option<nat>, o0: nat, o1: nat)
    requires Sound(p) && NewlinesAreWhole(p) && Leftmost(p, at, nonEmptyAt) && o0 <= o1 && Boundary(p, o1) && ErrsOffBoundaries(p)
    ensures var found := FindNext(p, o0, o1);
            found.error == 0 <==>
            p.matchOpts == 0 || (if found.matches == [] then o0 == o1 == |p.subject| else EndsEmpty(p, found.matches))
    decreases |p.subject| + 1 - o1, if o0 == o1 then 0 else 1
  {
    hide Advance, Boundary;
    var empty := o0 == o1;
    assert o1 <= |p.subject| by { BoundaryInside(p, o1); }
    if !(empty && o0 == |p.subject|) {
      match p.engine(o1, empty)
      case NoMatch =>
        if o1 < |p.subject| {
          AdvanceToBoundary(p, o1);
          if p.matchOpts != 0 || empty { FindNextErrs(p, at, nonEmptyAt, o0, Advance(p, o1)); }
        }
      case Error(code) =>
      case Matched(m) =>
        FindNextErrs(p, at, nonEmptyAt, m.start, m.end);
        var more := FindNext(p, m.start, m.end).matches;
        assert more != [] ==> ([m] + more)[|more|] == more[|more| - 1];
    }
  }

  lemma NotAsked(p: Pattern, offset: nat)
    requires ErrsOffBoundaries(p)
    ensures p.engine(offset, false).Error? ==> !Boundary(p, offset)
  {
  }

  // An engine that errs only off the boundaries is never asked there, so without match options there is no error: that
  // is what advancing by whole characters is for. With match options the loop runs on past the end of the subject, where
  // the engine reports an error, unless it has come to an empty match there.
  lemma ErrsExactly(p: Pattern, at: nat -> Option<nat>, nonEmptyAt: nat -> Option<nat>, startOffset: nat)
    requires Sound(p) && NewlinesAreWhole(p) && Leftmost(p, at, nonEmptyAt) && Boundary(p, startOffset) && ErrsOffBoundaries(p)
    ensures var found := FindAll(p, startOffset);
            found.error == 0 <==> p.matchOpts == 0 || !p.findAll || found.matches == [] || EndsEmpty(p, found.matches)
  {
    hide Boundary, FindNext, NewlinesAreWhole, ErrsOffBoundaries;
    var a := p.engine(startOffset, false);
    assert a.Error? ==> !Boundary(p, startOffset) by { NotAsked(p, startOffset); }
    if a.Matched? && p.findAll {
      FindNextErrs(p, at, nonEmptyAt, a.m.start, a.m.end);
      var more := FindNext(p, a.m.start, a.m.end).matches;
      assert more != [] ==> ([a.m] + more)[|more|] == more[|more| - 1];
    }
  }

  // The pattern `a` on the subject `a`, with an option: the match is found, and a bad offset reported.
  function OneLetter(): Pattern {
    var engine := (offset: nat, retry: bool) =>
      if offset > 1 then Error(-33) else if offset == 0 then Matched(Match(0, 1)) else NoMatch;
    Pattern([97], engine, 1, true, false, false, Bits8)
  }

  lemma OptionsEndInError()
    ensures Sound(OneLetter()) && FindAll(OneLetter(), 0) == Found([Match(0, 1)], -33)
  {
    var p := OneLetter();
    assert FindNext(p, 0, 2) == Found([], -33);
    assert Advance(p, 1) == 2;
    assert FindNext(p, 0, 1) == Found([], -33);
  }

  // ---------------------------------------------------------------- replacement

  // The subject from an offset on, with matches i, i+1, ... replaced by their outputs: untouched gaps and outputs in turn.
  function Splice(subject: Subject, ms: seq<Match>, outs: seq<Subject>, i: nat, from: nat): Subject
    requires Disjoint(ms, |subject|) && |outs| == |ms| && i <= |ms|
    requires from <= |subject| && (i < |ms| ==> from <= ms[i].start)
    decreases |ms| - i
  {
    if i == |ms| then subject[from..]
    else
      assert i + 1 < |ms| ==> ms[i].end <= ms[i + 1].start;
      subject[from..ms[i].start] + outs[i] + Splice(subject, ms, outs, i + 1, ms[i].end)
  }

  lemma SpliceStep(subject: Subject, ms: seq<Match>, outs: seq<Subject>, i: nat, from: nat, before: Subject)
    requires Disjoint(ms, |subject|) && |outs| == |ms| && i < |ms| && from <= |subject| && from <= ms[i].start
    ensures i + 1 < |ms| ==> ms[i].end <= ms[i + 1].start
    ensures before + Splice(subject, ms, outs, i, from) ==
            before + subject[from..ms[i].start] + outs[i] + Splice(subject, ms, outs, i + 1, ms[i].end)
  {
    var gap, out, rest := subject[from..ms[i].start], outs[i], Splice(subject, ms, outs, i + 1, ms[i].end);
    assert before + (gap + out + rest) == before + gap + out + rest;
  }

  lemma SpliceEnd(subject: Subject, ms: seq<Match>, outs: seq<Subject>, from: nat)
    requires Disjoint(ms, |subject|) && |outs| == |ms| && from <= |subject|
    ensures Splice(subject, ms, outs, |ms|, from) == subject[from..]
  {
  }

  // callback::fill: every match is replaced by itself.
  function Fill(subject: Subject, ms: seq<Match>): (outs: seq<Subject>)
    requires forall i :: 0 <= i < |ms| ==> ms[i].start <= ms[i].end <= |subject|
    ensures |outs| == |ms| && forall i :: 0 <= i < |ms| ==> outs[i] == subject[ms[i].start..ms[i].end]
  {
    seq(|ms|, i requires 0 <= i < |ms| => subject[ms[i].start..ms[i].end])
  }

  lemma {:induction false} FillSplicesBack(subject: Subject, ms: seq<Match>, i: nat, from: nat)
    requires Disjoint(ms, |subject|) && i <= |ms| && from <= |subject| && (i < |ms| ==> from <= ms[i].start)
    ensures Splice(subject, ms, Fill(subject, ms), i, from) == subject[from..]
    decreases |ms| - i
  {
    if i < |ms| {
      FillSplicesBack(subject, ms, i + 1, ms[i].end);
      assert subject[from..ms[i].start] + subject[ms[i].start..ms[i].end] + subject[ms[i].end..] == subject[from..];
    }
  }

  // What the callback makes of each match.
  function Outputs(subject: Subject, ms: seq<Match>, callback: (nat, Subject) -> Subject): (outs: seq<Subject>)
    requires Disjoint(ms, |subject|)
    ensures |outs| == |ms| && forall i :: 0 <= i < |ms| ==> outs[i] == callback(i, subject[ms[i].start..ms[i].end])
  {
    seq(|ms|, i requires 0 <= i < |ms| => callback(i, subject[ms[i].start..ms[i].end]))
  }

  // A callback that gives every match back.
  ghost predicate IsFill(callback: (nat, Subject) -> Subject) {
    forall i: nat, text: Subject :: callback(i, text) == text
  }

  lemma OutputsOfFill(subject: Subject, ms: seq<Match>, callback: (nat, Subject) -> Subject)
    requires Disjoint(ms, |subject|) && IsFill(callback)
    ensures Outputs(subject, ms, callback) == Fill(subject, ms)
  {
  }

  // Replacing every match by itself gives back the subject, for every pattern and start offset.
  lemma FillIsIdentity(p: Pattern, startOffset: nat, callback: (nat, Subject) -> Subject)
    requires Sound(p) && IsFill(callback)
    ensures var ms := FindAll(p, startOffset).matches;
            Disjoint(ms, |p.subject|) && Splice(p.subject, ms, Outputs(p.subject, ms, callback), 0, 0) == p.subject
  {
    MatchesAreDisjoint(p, startOffset);
    OutputsOfFill(p.subject, FindAll(p, startOffset).matches, callback);
    FillSplicesBack(p.subject, FindAll(p, startOffset).matches, 0, 0);
  }

  // ---------------------------------------------------------------- the objects

  class Matcher {
    const p: Pattern
    const startOffset: nat
    var vecSoff: seq<nat>
    var vecEoff: seq<nat>
    var vecNum: seq<Subject>     // group 0 of each match
    var errorNumber: int

    constructor (p: Pattern, startOffset: nat)
      ensures this.p == p && this.startOffset == startOffset
    {
      this.p, this.startOffset := p, startOffset;
      vecSoff, vecEoff, vecNum, errorNumber := [], [], [], 0;
    }

    // The three vectors hold these matches.
    ghost predicate Records(ms: seq<Match>)
      reads this
    {
      && |vecSoff| == |vecEoff| == |vecNum| == |ms|
      && forall i :: 0 <= i < |ms| ==>
           vecSoff[i] == ms[i].start && vecEoff[i] == ms[i].end &&
           ms[i].start <= ms[i].end <= |p.subject| && vecNum[i] == p.subject[ms[i].start..ms[i].end]
    }

    method Record(m: Match, ghost before: seq<Match>)
      requires Records(before) && m.start <= m.end <= |p.subject|
      modifies this`vecSoff, this`vecEoff, this`vecNum
      ensures Records(before + [m])
    {
      vecSoff, vecEoff := vecSoff + [m.start], vecEoff + [m.end];
      vecNum := vecNum + [p.subject[m.start..m.end]];
    }

    // The offset one character past `offset`, found by moving the end offset in place.
    method AdvanceOffset(offset: nat) returns (o1: nat)
      ensures o1 == Advance(p, offset)
    {
      o1 := offset + 1;
      if p.crlfIsNewline && offset + 1 < |p.subject| && p.subject[offset] == 13 && p.subject[offset + 1] == 10 {
        o1 := o1 + 1;
      } else if p.utf {
        while o1 < |p.subject| && IsTrailing(p, p.subject[o1])
          invariant SkipTrailing(p, o1) == SkipTrailing(p, offset + 1)
        {
          o1 := o1 + 1;
        }
      }
    }

    method FindMatches() returns (count: nat)
      requires Sound(p)
      modifies this
      ensures var found := FindAll(p, startOffset);
              Records(found.matches) && count == |found.matches| &&
              errorNumber == if found.error == 0 then old(errorNumber) else found.error
    {
      hide Advance, SkipTrailing, IsTrailing;
      ghost var found := FindAll(p, startOffset);
      count, vecSoff, vecEoff, vecNum := 0, [], [], [];
      var first := p.engine(startOffset, false);
      if !first.Matched? {
        if first.Error? && first.code != 0 { errorNumber := first.code; }
        return;
      }
      count := 1;
      ghost var done := [];
      Record(first.m, done);
      done := [first.m];
      if !p.findAll { return; }
      var o0: nat, o1: nat := first.m.start, first.m.end;
      while true
        invariant o0 <= o1 <= |p.subject| + 1 && Records(done) && count == |done| && errorNumber == old(errorNumber)
        invariant found == Found(done + FindNext(p, o0, o1).matches, FindNext(p, o0, o1).error)
        decreases |p.subject| + 1 - o1, if o0 == o1 then 0 else 1
      {
        var offset, retry := o1, o0 == o1;
        if retry && o0 == |p.subject| { break; }
        var a := p.engine(offset, retry);
        match a
        case NoMatch =>
          if p.matchOpts == 0 && !retry { break; }
          o1 := AdvanceOffset(offset);
        case Error(code) =>
          if code != 0 { errorNumber := code; }
          break;
        case Matched(m) =>
          count := count + 1;
          Record(m, done);
          assert done + ([m] + FindNext(p, m.start, m.end).matches) == done + [m] + FindNext(p, m.start, m.end).matches;
          done := done + [m];
          o0, o1 := m.start, m.end;
      }
      assert done + [] == done;
    }

    // nreplace over what match recorded: the early return for matches out of order is never taken.
    method Replace(callback: (nat, Subject) -> Subject) returns (res: Subject, counter: nat, inOrder: bool)
      requires Sound(p)
      modifies this
      ensures inOrder
      ensures var ms := FindAll(p, startOffset).matches;
              Disjoint(ms, |p.subject|) && counter == |ms| && res == Splice(p.subject, ms, Outputs(p.subject, ms, callback), 0, 0)
      ensures IsFill(callback) ==> res == p.subject
    {
      if IsFill(callback) { FillIsIdentity(p, startOffset, callback); }
      hide FindAll, Sound, Splice, Outputs;
      counter, inOrder := 0, true;
      var mcount := FindMatches();
      MatchesAreDisjoint(p, startOffset);
      ghost var ms := FindAll(p, startOffset).matches;
      ghost var outs := Outputs(p.subject, ms, callback);
      OneMatchOnly(p, startOffset);
      if mcount == 0 {
        SpliceEnd(p.subject, ms, outs, 0);
        assert p.subject[0..] == p.subject;
        return p.subject, 0, true;
      }
      var currentOffset: nat := 0;
      res := [];
      for i := 0 to mcount
        invariant counter == i && inOrder && Records(ms)
        invariant currentOffset <= |p.subject| && (i < |ms| ==> currentOffset <= ms[i].start)
        invariant Splice(p.subject, ms, outs, 0, 0) == res + Splice(p.subject, ms, outs, i, currentOffset)
      {
        if vecSoff[i] < currentOffset {
          return p.subject, counter, false;
        }
        var gap := p.subject[currentOffset..vecSoff[i]];
        var out := callback(i, vecNum[i]);
        SpliceStep(p.subject, ms, outs, i, currentOffset, res);
        res := res + gap;
        res := res + out;
        currentOffset := vecEoff[i];
        counter := counter + 1;
        if !p.findAll { break; }
      }
      SpliceEnd(p.subject, ms, outs, currentOffset);
      res := res + p.subject[currentOffset..];
    }
  }

  lemma OneMatchOnly(p: Pattern, startOffset: nat)
    requires Sound(p)
    ensures !p.findAll ==> |FindAll(p, startOffset).matches| <= 1
  {
  }
}
