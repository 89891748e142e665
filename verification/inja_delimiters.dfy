// Which openings strip what is before a tag, and which closes drop what is behind it: for each of the usual delimiters.
module InjaDelimiters {
  import opened Wrappers
  import opened InjaSyntax
  import opened InjaSource
  import L = InjaLexer

  // An opening w at q: its kind, and whether it strips the blanks before it. A minus asks for that, a plus forbids it;
  // other statements and comments follow the configuration, and expressions and line statements do not strip.
  ghost predicate Opens(cfg: L.LexerConfig, text: string, q: nat, w: string, kind: Kind, strips: bool) {
    At(text, q, w) &&
    match kind
    case ExpressionOpen => if strips then w == "{{-" else w == "{{" && !At(text, q, "{{-")
    case StatementOpen =>
      (w == "{%-" && strips) || (w == "{%+" && !strips) ||
      (w == "{%" && strips == cfg.lstripBlocks && !At(text, q, "{%-") && !At(text, q, "{%+"))
    case CommentOpen => (w == "{#-" && strips) || (w == "{#" && strips == cfg.lstripBlocks && !At(text, q, "{#-"))
    case LineStatementOpen =>
      w == cfg.lineStatement && !strips && (q == 0 || text[q - 1] == '\n') && q < |text| && text[q] in cfg.openChars &&
      !At(text, q, "{{") && !At(text, q, "{%") && !At(text, q, "{#")
    case _ => false
  }

  function Inside(kind: Kind): L.State {
    match kind
    case ExpressionOpen => L.ExpressionBody
    case StatementOpen => L.StatementBody
    case CommentOpen => L.CommentBody
    case _ => L.LineBody
  }

  lemma OpensClassified(cfg: L.LexerConfig, text: string, q: nat, w: string, kind: Kind, strips: bool)
    requires Usual(cfg) && Opens(cfg, text, q, w, kind, strips)
    ensures q < |text| && L.OpensAt(cfg, text, q)
    ensures var (state, lstrip) := L.Classify(cfg, text, q).value;
            lstrip == strips && L.IsStart(state) && L.Opening(cfg, state) == (w, kind, Inside(kind))
  {
    if kind.ExpressionOpen? {
      ExpressionClassified(cfg, text, q, w, strips);
    } else if kind.StatementOpen? {
      StatementClassified(cfg, text, q, w, strips);
    } else if kind.CommentOpen? {
      CommentClassified(cfg, text, q, w, strips);
    } else {
      AtIndex(text, q, w, 0);
    }
  }

  lemma ExpressionClassified(cfg: L.LexerConfig, text: string, q: nat, w: string, strips: bool)
    requires Usual(cfg) && At(text, q, w) && if strips then w == "{{-" else w == "{{" && !At(text, q, "{{-")
    ensures q < |text| && text[q] == '{'
    ensures L.Classify(cfg, text, q) == Some((if strips then L.ExpressionStartForceLstrip else L.ExpressionStart, strips))
  {
    AtIndex(text, q, w, 0);
    if strips { Shorter(text, q, w); }
    hide At, L.StartsWith;
  }

  lemma Shorter(text: string, q: nat, w: string)
    requires |w| == 3 && At(text, q, w)
    ensures At(text, q, w[..2])
  {
    assert w == w[..2] + w[2..];
    AtParts(text, q, w[..2], w[2..]);
  }

  lemma StatementClassified(cfg: L.LexerConfig, text: string, q: nat, w: string, strips: bool)
    requires Usual(cfg) && Opens(cfg, text, q, w, StatementOpen, strips)
    ensures q < |text| && text[q] == '{'
    ensures L.Classify(cfg, text, q) ==
            Some((if w == "{%-" then L.StatementStartForceLstrip else if w == "{%+" then L.StatementStartNoLstrip
                  else L.StatementStart, strips))
  {
    AtIndex(text, q, w, 0);
    AtIndex(text, q, w, 1);
    NotAt(text, q, "{{", 1);
    if |w| == 3 {
      Shorter(text, q, w);
      AtIndex(text, q, w, 2);
      if w == "{%+" { NotAt(text, q, "{%-", 2); } else { NotAt(text, q, "{%+", 2); }
    }
    hide At, L.StartsWith;
  }

  lemma CommentClassified(cfg: L.LexerConfig, text: string, q: nat, w: string, strips: bool)
    requires Usual(cfg) && Opens(cfg, text, q, w, CommentOpen, strips)
    ensures q < |text| && text[q] == '{'
    ensures L.Classify(cfg, text, q) == Some((if w == "{#-" then L.CommentStartForceLstrip else L.CommentStart, strips))
  {
    AtIndex(text, q, w, 0);
    AtIndex(text, q, w, 1);
    NotAt(text, q, "{{", 1);
    NotAt(text, q, "{%", 1);
    if |w| == 3 { Shorter(text, q, w); }
    hide At, L.StartsWith;
  }

  // A text is read up to what the opening at its end strips, and then the opening; of a text that is stripped to nothing
  // the blanks are part of the opening.
  lemma OpensExactly(cfg: L.LexerConfig, text: string, m: L.MinusState, start: nat, to: nat, q: nat, w: string, kind: Kind, strips: bool)
    requires Usual(cfg) && start <= to <= q <= |text| && Opens(cfg, text, q, w, kind, strips)
    requires forall j :: start <= j < q ==> !L.OpensAt(cfg, text, j)
    requires if strips then StrippedTo(text, start, to, q) else to == q
    ensures var (t, next) := L.ScanFrom(cfg, text, L.Lex(L.InText, m, start));
            var inside := L.Lex(Inside(kind), m, q + |w|);
            if to == start then t == L.Tok(kind, start, q + |w|) && next == inside
            else t == L.Tok(Kind.Text, start, to) && next.pos == q &&
                 L.ScanFrom(cfg, text, next) == (L.Tok(kind, q, q + |w|), inside)
  {
    OpensClassified(cfg, text, q, w, kind, strips);
    NothingOpens(cfg, text, start, q);
    if strips { StripIs(text, start, to, q); }
    TextThenOpening(cfg, text, m, start, to, q);
    hide L.Classify, L.Opening, L.OpensAt, L.ScanFrom, L.FindOpen, L.ClearFinalLine, Usual, Opens, StrippedTo;
    OpeningScanned(cfg, text, L.Lex(L.Classify(cfg, text, q).value.0, m, q));
  }

  lemma TextThenOpening(cfg: L.LexerConfig, text: string, m: L.MinusState, start: nat, to: nat, q: nat)
    requires start <= to <= q < |text| && L.FindOpen(cfg, text, start) == q && L.Classify(cfg, text, q).Some?
    requires var (state, lstrip) := L.Classify(cfg, text, q).value;
             L.IsStart(state) && to == if lstrip then L.ClearFinalLine(text, start, q, q) else q
    ensures var state := L.Classify(cfg, text, q).value.0;
            L.ScanFrom(cfg, text, L.Lex(L.InText, m, start)) ==
            if to == start then L.ScanOpen(cfg, state, m, start, q) else (L.Tok(Kind.Text, start, to), L.Lex(state, m, q))
  {
    hide L.Classify, L.FindOpen, L.ClearFinalLine, L.ScanOpen, L.ScanBody, L.ScanComment;
  }

  lemma OpeningScanned(cfg: L.LexerConfig, text: string, lex: L.Lex)
    requires L.IsStart(lex.state) && lex.pos < |text|
    ensures L.ScanFrom(cfg, text, lex) == L.ScanOpen(cfg, lex.state, lex.minus, lex.pos, lex.pos)
  {
    hide L.ScanText, L.ScanOpen, L.ScanBody, L.ScanComment;
  }

  // What a close drops behind it.
  datatype Drop = Nothing | FirstLineBreak | AllSpace

  // Behind a close at `end` the text goes on at `next`.
  ghost predicate Dropped(text: string, end: nat, next: nat, drop: Drop) {
    match drop
    case Nothing => next == end
    case FirstLineBreak => exists b :: TrimmedTo(text, end, b, next)
    case AllSpace => end <= next <= |text| && (forall j :: end <= j < next ==> Blank(text[j]) || LineBreak(text[j])) &&
                     (next < |text| ==> !Blank(text[next]) && !LineBreak(text[next]))
  }

  // How a body closes: a minus drops all the white space that follows, a plain statement close the first line break if
  // the configuration says so, and the closes of expressions and line statements nothing.
  predicate Closes(cfg: L.LexerConfig, state: L.State, w: string, kind: Kind, drop: Drop) {
    match state
    case ExpressionBody => kind.ExpressionClose? && ((w == "}}" && drop.Nothing?) || (w == "-}}" && drop.AllSpace?))
    case StatementBody =>
      kind.StatementClose? &&
      ((w == "%}" && drop == if cfg.trimBlocks then FirstLineBreak else Nothing) || (w == "-%}" && drop.AllSpace?))
    case LineBody => kind.LineStatementClose? && w == "\n" && drop.Nothing?
    case _ => false
  }

  // Behind white space - of one line, in a line statement - a close is read, and the text goes on behind what it drops.
  lemma ClosesExactly(cfg: L.LexerConfig, text: string, lex: L.Lex, k: nat, w: string, kind: Kind, drop: Drop, next: nat)
    requires Usual(cfg) && Closes(cfg, lex.state, w, kind, drop) && At(text, k, w) && Dropped(text, k + |w|, next, drop)
    requires lex.pos <= k && forall j :: lex.pos <= j < k ==> Blank(text[j]) || text[j] == '\r' || (text[j] == '\n' && !lex.state.LineBody?)
    ensures L.ScanFrom(cfg, text, lex) == (L.Tok(kind, k, k + |w|), L.Lex(L.InText, lex.minus, next))
  {
    CloseIsFound(cfg, text, lex, k, w, kind, drop);
    DroppedIs(text, k + |w|, next, drop);
    hide L.BodyStart, L.TrimsAt, L.StartsWith, L.SkipFirstNewline, L.SkipSpaces, Dropped;
    AtIndex(text, k, w, 0);
  }

  lemma DroppedIs(text: string, end: nat, next: nat, drop: Drop)
    requires Dropped(text, end, next, drop) && end <= |text|
    ensures drop.FirstLineBreak? ==> L.SkipFirstNewline(text, end) == next
    ensures drop.AllSpace? ==> L.SkipSpaces(text, end) == next
  {
    match drop
    case Nothing =>
    case FirstLineBreak =>
      var b :| TrimmedTo(text, end, b, next);
      TrimIs(text, end, b, next);
    case AllSpace => L.SpacesExactly(text, end, next);
  }

  lemma CloseIsFound(cfg: L.LexerConfig, text: string, lex: L.Lex, k: nat, w: string, kind: Kind, drop: Drop)
    requires Usual(cfg) && Closes(cfg, lex.state, w, kind, drop) && At(text, k, w)
    requires lex.pos <= k && forall j :: lex.pos <= j < k ==> Blank(text[j]) || text[j] == '\r' || (text[j] == '\n' && !lex.state.LineBody?)
    ensures var cl := L.ClosingOf(cfg, lex.state);
            L.BodyStart(cl, text, lex.pos) == k && kind == cl.kind && k < |text| &&
            if drop.AllSpace? then L.TrimsAt(cl, text, k) && w == cl.closeTrim
            else !L.TrimsAt(cl, text, k) && w == cl.close && cl.trim == drop.FirstLineBreak?
  {
    AtIndex(text, k, w, 0);
    ClosingIs(cfg, lex.state, w, kind, drop);
    hide L.BodyStart, Usual, Closes, L.ClosingOf;
    var cl := L.ClosingOf(cfg, lex.state);
    ClosesThere(cl, text, k, w);
    hide L.StartsWith, L.TrimsAt;
    SpacePassed(cl, text, lex.pos, k);
  }

  lemma ClosesThere(cl: L.Closing, text: string, k: nat, w: string)
    requires At(text, k, w) && (w == cl.close || (w == cl.closeTrim && w != "")) && cl.close != ""
    requires cl.closeTrim != "" ==> cl.close[0] != cl.closeTrim[0]
    ensures L.TrimsAt(cl, text, k) == (w != cl.close) && (w == cl.close ==> L.StartsWith(text, k, cl.close))
  {
    if w == cl.close && cl.closeTrim != "" {
      AtIndex(text, k, w, 0);
      NotAt(text, k, cl.closeTrim, 0);
    }
  }

  lemma ClosingIs(cfg: L.LexerConfig, state: L.State, w: string, kind: Kind, drop: Drop)
    requires Usual(cfg) && Closes(cfg, state, w, kind, drop)
    ensures var cl := L.ClosingOf(cfg, state);
            cl.kind == kind && (if drop.AllSpace? then w == cl.closeTrim else w == cl.close && cl.trim == drop.FirstLineBreak?) &&
            ((cl.close == "}}" && cl.closeTrim == "-}}" && state.ExpressionBody?) ||
             (cl.close == "%}" && cl.closeTrim == "-%}" && state.StatementBody?) ||
             (cl.close == "\n" && cl.closeTrim == "" && state.LineBody?))
  {
  }

  // White space is passed over, but not a line break that closes.
  lemma {:induction false} SpacePassed(cl: L.Closing, text: string, pos: nat, k: nat)
    requires pos <= k < |text| && (L.TrimsAt(cl, text, k) || L.StartsWith(text, k, cl.close))
    requires cl.close != "" && (cl.close[0] == '\n' || !L.IsSpace(cl.close[0])) && (cl.closeTrim != "" ==> !L.IsSpace(cl.closeTrim[0]))
    requires forall j :: pos <= j < k ==> Blank(text[j]) || text[j] == '\r' || (text[j] == '\n' && cl.close[0] != '\n')
    ensures L.BodyStart(cl, text, pos) == k
    decreases k - pos
  {
    if L.TrimsAt(cl, text, pos) { AtIndex(text, pos, cl.closeTrim, 0); }
    if L.StartsWith(text, pos, cl.close) { AtIndex(text, pos, cl.close, 0); }
    if pos < k { SpacePassed(cl, text, pos + 1, k); }
  }

  // A comment ends at its first close, and drops the first line break behind it if a minus stands before the close or the
  // configuration says so.
  lemma CommentExactly(cfg: L.LexerConfig, text: string, lex: L.Lex, q: nat, next: nat)
    requires Usual(cfg) && lex.state.CommentBody? && 0 < lex.pos <= q && At(text, q, "#}")
    requires forall j :: lex.pos <= j < q ==> !At(text, j, "#}")
    requires Dropped(text, q + 2, next, if cfg.trimBlocks || text[q - 1] == '-' then FirstLineBreak else Nothing)
    ensures L.ScanFrom(cfg, text, lex) == (L.Tok(CommentClose, lex.pos, q + 2), L.Lex(L.InText, lex.minus, next))
  {
    CommentEnds(cfg, text, lex.pos, q);
    DroppedIs(text, q + 2, next, if cfg.trimBlocks || text[q - 1] == '-' then FirstLineBreak else Nothing);
    AtIndex(text, q, "#}", 0);
    AtIndex(text, q, "#}", 1);
    if text[q - 1] == '-' {
      assert text[q - 1..q + 2] == "-#}";
    } else {
      NotAt(text, q - 1, "-#}", 0);
    }
    hide L.FindClose, L.SkipFirstNewline, Dropped;
  }

  lemma {:induction false} CommentEnds(cfg: L.LexerConfig, text: string, k: nat, q: nat)
    requires cfg.commentClose == "#}" && k <= q && At(text, q, "#}") && forall j :: k <= j < q ==> !At(text, j, "#}")
    ensures L.FindClose(cfg, text, k) == q
    decreases q - k
  {
    if k < q {
      assert !At(text, k, "#}");
      CommentEnds(cfg, text, k + 1, q);
    }
  }
}
