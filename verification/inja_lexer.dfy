// The state-machine lexer of the template engine: what each scan returns, and what the tokens of a whole
// input cover.
module InjaLexer {
  import opened Wrappers
  import opened InjaSyntax

  datatype State =
    | InText
    | ExpressionStart | ExpressionStartForceLstrip | ExpressionBody
    | LineStart | LineBody
    | StatementStart | StatementStartNoLstrip | StatementStartForceLstrip | StatementBody
    | CommentStart | CommentStartForceLstrip | CommentBody

  datatype MinusState = Operator | NumberSign

  datatype LexerConfig = LexerConfig(
    statementOpen: string, statementOpenNoLstrip: string, statementOpenForceLstrip: string,
    statementClose: string, statementCloseForceRstrip: string,
    lineStatement: string,
    expressionOpen: string, expressionOpenForceLstrip: string,
    expressionClose: string, expressionCloseForceRstrip: string,
    commentOpen: string, commentOpenForceLstrip: string,
    commentClose: string, commentCloseForceRstrip: string,
    openChars: string, trimBlocks: bool, lstripBlocks: bool)

  // A token as the range of the input its text is a view of.
  datatype Tok = Tok(kind: Kind, from: nat, to: nat)

  datatype Lex = Lex(state: State, minus: MinusState, pos: nat)

  // ---------------------------------------------------------------- characters and prefixes

  predicate StartsWith(text: string, k: nat, prefix: string) {
    k + |prefix| <= |text| && text[k..k + |prefix|] == prefix
  }

  predicate IsBlank(c: char) { c == ' ' || c == '\t' }

  predicate IsSpace(c: char) { IsBlank(c) || c == '\n' || c == '\r' }

  predicate IsAlpha(c: char) { 'a' <= c <= 'z' || 'A' <= c <= 'Z' }

  predicate IsDigit(c: char) { '0' <= c <= '9' }

  predicate IsIdChar(c: char) { IsAlpha(c) || IsDigit(c) || c == '.' || c == '/' || c == '_' || c == '-' }

  // ---------------------------------------------------------------- text

  // Which construct opens at k, if any, and whether the text before it is stripped.
  function Classify(cfg: LexerConfig, text: string, k: nat): Option<(State, bool)> {
    if StartsWith(text, k, cfg.expressionOpen) then
      if StartsWith(text, k, cfg.expressionOpenForceLstrip) then Some((ExpressionStartForceLstrip, true))
      else Some((ExpressionStart, false))
    else if StartsWith(text, k, cfg.statementOpen) then
      if StartsWith(text, k, cfg.statementOpenNoLstrip) then Some((StatementStartNoLstrip, false))
      else if StartsWith(text, k, cfg.statementOpenForceLstrip) then Some((StatementStartForceLstrip, true))
      else Some((StatementStart, cfg.lstripBlocks))
    else if StartsWith(text, k, cfg.commentOpen) then
      if StartsWith(text, k, cfg.commentOpenForceLstrip) then Some((CommentStartForceLstrip, true))
      else Some((CommentStart, cfg.lstripBlocks))
    else if (k == 0 || (k <= |text| && text[k - 1] == '\n')) && StartsWith(text, k, cfg.lineStatement) then
      Some((LineStart, false))
    else None
  }

  predicate OpensAt(cfg: LexerConfig, text: string, k: nat)
    requires k < |text|
  {
    text[k] in cfg.openChars && Classify(cfg, text, k).Some?
  }

  lemma OpensIsClassified(cfg: LexerConfig, text: string, k: nat)
    requires k < |text| && OpensAt(cfg, text, k)
    ensures Classify(cfg, text, k).Some?
  {
  }

  // The first construct from k on; the length of the text if there is none.
  function FindOpen(cfg: LexerConfig, text: string, k: nat): (q: nat)
    requires k <= |text|
    ensures k <= q <= |text|
    ensures q < |text| ==> OpensAt(cfg, text, q)
    ensures forall j :: k <= j < q ==> !OpensAt(cfg, text, j)
    decreases |text| - k
  {
    if k == |text| || OpensAt(cfg, text, k) then k else FindOpen(cfg, text, k + 1)
  }

  // Drops the blanks that end a text if nothing else stands on its last line.
  function ClearFinalLine(text: string, a: nat, b: nat, whole: nat): (r: nat)
    requires a <= b <= whole <= |text|
    requires forall j :: b <= j < whole ==> IsBlank(text[j])
    ensures a <= r <= whole && forall j :: r <= j < whole ==> IsBlank(text[j])
    decreases b
  {
    if a == b then a
    else if IsBlank(text[b - 1]) then ClearFinalLine(text, a, b - 1, whole)
    else if text[b - 1] == '\n' || text[b - 1] == '\r' then b
    else whole
  }

  predicate IsLineBreak(c: char) { c == '\n' || c == '\r' }

  // Where the line that ends at b begins, in a text that begins at a.
  function LineBegin(text: string, a: nat, b: nat): (r: nat)
    requires a <= b <= |text|
    ensures a <= r <= b && (r == a || IsLineBreak(text[r - 1])) && forall j :: r <= j < b ==> !IsLineBreak(text[j])
    decreases b
  {
    if a == b || IsLineBreak(text[b - 1]) then b else LineBegin(text, a, b - 1)
  }

  predicate AllBlank(text: string, a: nat, b: nat) { a <= b <= |text| && forall j :: a <= j < b ==> IsBlank(text[j]) }

  lemma {:induction false} ClearFinalLineFrom(text: string, a: nat, b: nat, whole: nat)
    requires a <= b <= whole <= |text| && AllBlank(text, b, whole)
    ensures ClearFinalLine(text, a, b, whole) ==
            if AllBlank(text, LineBegin(text, a, b), b) then LineBegin(text, a, b) else whole
    decreases b
  {
    if a < b && IsBlank(text[b - 1]) {
      ClearFinalLineFrom(text, a, b - 1, whole);
    } else if a < b && !IsLineBreak(text[b - 1]) {
      assert !IsBlank(text[b - 1]) && LineBegin(text, a, b) <= b - 1;
    }
  }

  // A text loses its last line if and only if nothing but blanks is on it.
  lemma ClearFinalLineExactly(text: string, a: nat, b: nat)
    requires a <= b <= |text|
    ensures ClearFinalLine(text, a, b, b) ==
            if AllBlank(text, LineBegin(text, a, b), b) then LineBegin(text, a, b) else b
  {
    ClearFinalLineFrom(text, a, b, b);
  }

  predicate IsStart(s: State) {
    s.ExpressionStart? || s.ExpressionStartForceLstrip? || s.LineStart? || s.StatementStart? ||
    s.StatementStartNoLstrip? || s.StatementStartForceLstrip? || s.CommentStart? || s.CommentStartForceLstrip?
  }

  // The string a start state opens with, its token kind and the state it leads to.
  function Opening(cfg: LexerConfig, s: State): (string, Kind, State)
    requires IsStart(s)
  {
    match s
    case ExpressionStart => (cfg.expressionOpen, ExpressionOpen, ExpressionBody)
    case ExpressionStartForceLstrip => (cfg.expressionOpenForceLstrip, ExpressionOpen, ExpressionBody)
    case LineStart => (cfg.lineStatement, LineStatementOpen, LineBody)
    case StatementStart => (cfg.statementOpen, StatementOpen, StatementBody)
    case StatementStartNoLstrip => (cfg.statementOpenNoLstrip, StatementOpen, StatementBody)
    case StatementStartForceLstrip => (cfg.statementOpenForceLstrip, StatementOpen, StatementBody)
    case CommentStart => (cfg.commentOpen, CommentOpen, CommentBody)
    case CommentStartForceLstrip => (cfg.commentOpenForceLstrip, CommentOpen, CommentBody)
  }

  // An opening token; its text begins where the scan began.
  function ScanOpen(cfg: LexerConfig, s: State, minus: MinusState, start: nat, pos: nat): (Tok, Lex)
    requires IsStart(s)
  {
    var (open, kind, body) := Opening(cfg, s);
    (Tok(kind, start, pos + |open|), Lex(body, minus, pos + |open|))
  }

  function ScanText(cfg: LexerConfig, text: string, minus: MinusState, start: nat): (Tok, Lex)
    requires start <= |text|
  {
    if start == |text| then (Tok(Kind.Eof, start, start), Lex(InText, minus, start))
    else
      var q := FindOpen(cfg, text, start);
      if q == |text| then (Tok(Kind.Text, start, q), Lex(InText, minus, q))
      else
        var (state, lstrip) := Classify(cfg, text, q).value;
        var end := if lstrip then ClearFinalLine(text, start, q, q) else q;
        if end == start then ScanOpen(cfg, state, minus, start, q)
        else (Tok(Kind.Text, start, end), Lex(state, minus, q))
  }

  // ---------------------------------------------------------------- bodies

  predicate Spaces(text: string, a: nat, b: nat) {
    a <= b <= |text| && forall j :: a <= j < b ==> IsSpace(text[j])
  }

  // The end of the longest run of characters of a kind from k on.
  function SkipSpaces(text: string, k: nat): (r: nat)
    requires k <= |text|
    ensures k <= r <= |text| && forall j :: k <= j < r ==> IsSpace(text[j])
    decreases |text| - k
  {
    if k < |text| && IsSpace(text[k]) then SkipSpaces(text, k + 1) else k
  }

  function SkipBlanks(text: string, k: nat): (r: nat)
    requires k <= |text|
    ensures k <= r <= |text| && forall j :: k <= j < r ==> IsBlank(text[j])
    decreases |text| - k
  {
    if k < |text| && IsBlank(text[k]) then SkipBlanks(text, k + 1) else k
  }

  // Blanks and the first line break.
  function SkipFirstNewline(text: string, k: nat): (r: nat)
    requires k <= |text|
    ensures k <= r <= |text| && forall j :: k <= j < r ==> IsSpace(text[j])
  {
    var b := SkipBlanks(text, k);
    if b < |text| && text[b] == '\n' then b + 1
    else if b < |text| && text[b] == '\r' then
      if b + 1 < |text| && text[b + 1] == '\n' then b + 2 else b + 1
    else b
  }

  // Skipping goes behind the blanks and behind one line break - a line feed, a carriage return or both - if one follows
  // them, and behind the blanks alone otherwise.
  lemma FirstNewlineExactly(text: string, k: nat, b: nat)
    requires k <= b <= |text| && (forall j :: k <= j < b ==> text[j] == ' ' || text[j] == '\t')
    requires b < |text| ==> text[b] != ' ' && text[b] != '\t'
    ensures SkipFirstNewline(text, k) ==
            if b + 1 < |text| && text[b] == '\r' && text[b + 1] == '\n' then b + 2
            else if b < |text| && (text[b] == '\n' || text[b] == '\r') then b + 1
            else b
  {
    BlanksExactly(text, k, b);
  }

  lemma {:induction false} BlanksExactly(text: string, k: nat, b: nat)
    requires k <= b <= |text| && (forall j :: k <= j < b ==> text[j] == ' ' || text[j] == '\t')
    requires b < |text| ==> text[b] != ' ' && text[b] != '\t'
    ensures SkipBlanks(text, k) == b
    decreases b - k
  {
    if k < b { BlanksExactly(text, k + 1, b); }
  }

  lemma {:induction false} SpacesExactly(text: string, k: nat, b: nat)
    requires k <= b <= |text| && forall j :: k <= j < b ==> text[j] == ' ' || text[j] == '\t' || text[j] == '\n' || text[j] == '\r'
    requires b < |text| ==> text[b] != ' ' && text[b] != '\t' && text[b] != '\n' && text[b] != '\r'
    ensures SkipSpaces(text, k) == b
    decreases b - k
  {
    if k < b { SpacesExactly(text, k + 1, b); }
  }

  function IdEnd(text: string, k: nat): (r: nat)
    requires k <= |text|
    ensures k <= r <= |text|
    decreases |text| - k
  {
    if k < |text| && IsIdChar(text[k]) then IdEnd(text, k + 1) else k
  }

  // Digits, dots, exponents, and signs right after an exponent.
  predicate ContinuesNumber(text: string, k: nat)
    requires 0 < k < |text|
  {
    var c := text[k];
    var afterE := text[k - 1] == 'e' || text[k - 1] == 'E';
    IsDigit(c) || c == '.' || c == 'e' || c == 'E' || ((c == '+' || c == '-') && afterE)
  }

  function NumberEnd(text: string, k: nat): (r: nat)
    requires 0 < k <= |text|
    ensures k <= r <= |text|
    decreases |text| - k
  {
    if k < |text| && ContinuesNumber(text, k) then NumberEnd(text, k + 1) else k
  }

  // Past the closing quote; a backslash escapes the character after it.
  function StringEnd(text: string, k: nat, escape: bool): (r: nat)
    requires k <= |text|
    ensures k <= r <= |text|
    decreases |text| - k
  {
    if k == |text| then k
    else if text[k] == '\\' then StringEnd(text, k + 1, !escape)
    else if !escape && text[k] == '\"' then k + 1
    else StringEnd(text, k + 1, false)
  }

  // Characters that are tokens by themselves, and those that may be followed by '='.
  function Single(c: char): Option<Kind> {
    match c
    case '+' => Some(Plus)
    case '*' => Some(Times)
    case '/' => Some(Slash)
    case '^' => Some(Power)
    case '%' => Some(Percent)
    case '.' => Some(Dot)
    case ',' => Some(Comma)
    case ':' => Some(Colon)
    case '|' => Some(Pipe)
    case '(' => Some(LeftParen)
    case ')' => Some(RightParen)
    case '[' => Some(LeftBracket)
    case ']' => Some(RightBracket)
    case '{' => Some(LeftBrace)
    case '}' => Some(RightBrace)
    case _ => None
  }

  function WithEquals(c: char): Option<(Kind, Kind)> {
    match c
    case '>' => Some((GreaterEqual, GreaterThan))
    case '<' => Some((LessEqual, LessThan))
    case '=' => Some((Equal, Unknown))
    case '!' => Some((NotEqual, Unknown))
    case _ => None
  }

  // The token that begins with the character at k: its kind, its end and the minus state after it.
  function ScanToken(text: string, k: nat, minus: MinusState): (r: (Kind, nat, MinusState))
    requires k < |text|
    ensures k < r.1 <= |text|
    ensures !r.0.Eof? && !IsTextKind(r.0)
  {
    var c := text[k];
    if IsAlpha(c) then (Id, IdEnd(text, k + 1), Operator)
    else if c == '-' then
      if minus == Operator then (Minus, k + 1, NumberSign) else (Number, NumberEnd(text, k + 1), NumberSign)
    else if c == ')' || c == ']' || c == '}' then (Single(c).value, k + 1, Operator)
    else if Single(c).Some? then (Single(c).value, k + 1, NumberSign)
    else if WithEquals(c).Some? then
      if k + 1 < |text| && text[k + 1] == '=' then (WithEquals(c).value.0, k + 2, NumberSign)
      else (WithEquals(c).value.1, k + 1, NumberSign)
    else if c == '\"' then (String, StringEnd(text, k + 1, false), NumberSign)
    else if IsDigit(c) then (Number, NumberEnd(text, k + 1), Operator)
    else if c == '_' || c == '@' || c == '$' then (Id, IdEnd(text, k + 1), Operator)
    else (Unknown, k + 1, NumberSign)
  }

  predicate IsOpenKind(k: Kind) {
    k.ExpressionOpen? || k.LineStatementOpen? || k.StatementOpen? || k.CommentOpen?
  }

  predicate IsCloseKind(k: Kind) {
    k.ExpressionClose? || k.LineStatementClose? || k.StatementClose? || k.CommentClose?
  }

  // Kinds that only occur at the border of or outside a tag.
  predicate IsTextKind(k: Kind) {
    k.Text? || IsOpenKind(k) || IsCloseKind(k)
  }

  // What closes a body: the string and its kind, the variant that strips what follows, and whether the plain one
  // skips a line break.
  datatype Closing = Closing(close: string, kind: Kind, closeTrim: string, trim: bool)

  function ClosingOf(cfg: LexerConfig, s: State): Closing {
    match s
    case ExpressionBody => Closing(cfg.expressionClose, ExpressionClose, cfg.expressionCloseForceRstrip, false)
    case LineBody => Closing("\n", LineStatementClose, "", false)
    case _ => Closing(cfg.statementClose, StatementClose, cfg.statementCloseForceRstrip, cfg.trimBlocks)
  }

  predicate TrimsAt(cl: Closing, text: string, k: nat) { cl.closeTrim != "" && StartsWith(text, k, cl.closeTrim) }

  // The first character from k on that is no white space or closes the body; a line break may close it.
  function BodyStart(cl: Closing, text: string, k: nat): (r: nat)
    requires k <= |text|
    ensures Spaces(text, k, r) && (r < |text| && IsSpace(text[r]) ==> TrimsAt(cl, text, r) || StartsWith(text, r, cl.close))
    decreases |text| - k
  {
    if k == |text| then k
    else if IsBlank(text[k]) || text[k] == '\r' then BodyStart(cl, text, k + 1)
    else if TrimsAt(cl, text, k) || StartsWith(text, k, cl.close) then k
    else if text[k] == '\n' then BodyStart(cl, text, k + 1)
    else k
  }

  function ScanClose(cfg: LexerConfig, text: string, cl: Closing, minus: MinusState, start: nat): (Tok, Lex)
    requires TrimsAt(cl, text, start) || StartsWith(text, start, cl.close)
  {
    if TrimsAt(cl, text, start) then
      var end := start + |cl.closeTrim|;
      (Tok(cl.kind, start, end), Lex(InText, minus, SkipSpaces(text, end)))
    else
      var end := start + |cl.close|;
      (Tok(cl.kind, start, end), Lex(InText, minus, if cl.trim then SkipFirstNewline(text, end) else end))
  }

  // The next token of a body; the cursor only moves when there is one.
  function ScanBody(cfg: LexerConfig, text: string, s: State, minus: MinusState, pos: nat): (Tok, Lex)
    requires pos <= |text|
  {
    var cl := ClosingOf(cfg, s);
    var start := BodyStart(cl, text, pos);
    if start == |text| then (Tok(Kind.Eof, start, start), Lex(s, minus, pos))
    else if TrimsAt(cl, text, start) || StartsWith(text, start, cl.close) then ScanClose(cfg, text, cl, minus, start)
    else
      var (kind, end, minus') := ScanToken(text, start, minus);
      (Tok(kind, start, end), Lex(s, minus', end))
  }

  // The first place from k on where the comment closes; the length of the text if there is none.
  function FindClose(cfg: LexerConfig, text: string, k: nat): (q: nat)
    requires k <= |text|
    ensures k <= q <= |text| && (q < |text| ==> StartsWith(text, q, cfg.commentClose))
    decreases |text| - k
  {
    if k == |text| || StartsWith(text, k, cfg.commentClose) then k else FindClose(cfg, text, k + 1)
  }

  // The whole comment is in its closing token.
  function ScanComment(cfg: LexerConfig, text: string, minus: MinusState, start: nat): (Tok, Lex)
    requires start <= |text|
  {
    var q := FindClose(cfg, text, start);
    if start == |text| || q == |text| then (Tok(Kind.Eof, start, |text|), Lex(CommentBody, minus, |text|))
    else
      var end := q + |cfg.commentClose|;
      var rstrip := cfg.trimBlocks || (q > 0 && StartsWith(text, q - 1, cfg.commentCloseForceRstrip));
      (Tok(CommentClose, start, end), Lex(InText, minus, if rstrip then SkipFirstNewline(text, end) else end))
  }

  function ScanFrom(cfg: LexerConfig, text: string, lex: Lex): (Tok, Lex)
    requires lex.pos <= |text|
  {
    if lex.pos == |text| then (Tok(Kind.Eof, lex.pos, lex.pos), lex)
    else if lex.state.InText? then ScanText(cfg, text, lex.minus, lex.pos)
    else if IsStart(lex.state) then ScanOpen(cfg, lex.state, lex.minus, lex.pos, lex.pos)
    else if lex.state.CommentBody? then ScanComment(cfg, text, lex.minus, lex.pos)
    else ScanBody(cfg, text, lex.state, lex.minus, lex.pos)
  }

  // ---------------------------------------------------------------- one scan

  // What the lexer takes for granted of its configuration: nothing it opens or closes with is empty.
  predicate Sane(cfg: LexerConfig) {
    cfg.statementOpen != "" && cfg.statementOpenNoLstrip != "" && cfg.statementOpenForceLstrip != "" &&
    cfg.statementClose != "" && cfg.lineStatement != "" && cfg.expressionOpen != "" &&
    cfg.expressionOpenForceLstrip != "" && cfg.expressionClose != "" && cfg.commentOpen != "" &&
    cfg.commentOpenForceLstrip != "" && cfg.commentClose != ""
  }

  // The cursor is in the input, a start state has its opening string under the cursor, and a comment has begun.
  predicate Inv(cfg: LexerConfig, text: string, lex: Lex) {
    lex.pos <= |text| &&
    (IsStart(lex.state) ==> StartsWith(text, lex.pos, Opening(cfg, lex.state).0)) &&
    (lex.state.CommentBody? ==> lex.pos > 0)
  }

  // A scan keeps the invariant. Before an end of input nothing but spaces is passed over; any other token moves the
  // cursor on, and only spaces lie between the old cursor, the token and the new cursor.
  predicate GoodScan(cfg: LexerConfig, text: string, lex: Lex, t: Tok, next: Lex) {
    Inv(cfg, text, next) &&
    t.from <= t.to && Spaces(text, lex.pos, t.from) &&
    if t.kind.Eof? then t.to == |text| else lex.pos < next.pos && Spaces(text, t.to, next.pos)
  }

  lemma ClassifiedOpensHere(cfg: LexerConfig, text: string, k: nat)
    requires k < |text| && Classify(cfg, text, k).Some?
    ensures var s := Classify(cfg, text, k).value.0;
            IsStart(s) && StartsWith(text, k, Opening(cfg, s).0)
  {
  }

  lemma ScanOpenIsGood(cfg: LexerConfig, text: string, state: State, minus: MinusState, start: nat, pos: nat)
    requires Sane(cfg) && IsStart(state) && start <= pos && StartsWith(text, pos, Opening(cfg, state).0)
    ensures var (t, next) := ScanOpen(cfg, state, minus, start, pos);
            Inv(cfg, text, next) && t.from == start && pos < t.to == next.pos <= |text| && IsOpenKind(t.kind)
  {
  }

  lemma {:induction false} ScanTextIsGood(cfg: LexerConfig, text: string, lex: Lex)
    requires Sane(cfg) && Inv(cfg, text, lex) && lex.state.InText?
    ensures var (t, next) := ScanText(cfg, text, lex.minus, lex.pos); GoodScan(cfg, text, lex, t, next)
  {
    hide Classify, Opening, ScanOpen, OpensAt;
    var q := FindOpen(cfg, text, lex.pos);
    if q < |text| {
      assert Classify(cfg, text, q).Some? by { OpensIsClassified(cfg, text, q); }
      ClassifiedOpensHere(cfg, text, q);
      ScanOpenIsGood(cfg, text, Classify(cfg, text, q).value.0, lex.minus, lex.pos, q);
    }
  }

  lemma ScanBodyIsGood(cfg: LexerConfig, text: string, lex: Lex)
    requires Sane(cfg) && lex.pos <= |text|
    requires lex.state.ExpressionBody? || lex.state.LineBody? || lex.state.StatementBody?
    ensures var (t, next) := ScanBody(cfg, text, lex.state, lex.minus, lex.pos); GoodScan(cfg, text, lex, t, next)
  {
    hide ScanToken, BodyStart, Opening;
  }

  lemma ScanCommentIsGood(cfg: LexerConfig, text: string, lex: Lex)
    requires Sane(cfg) && Inv(cfg, text, lex) && lex.state.CommentBody?
    ensures var (t, next) := ScanComment(cfg, text, lex.minus, lex.pos); GoodScan(cfg, text, lex, t, next)
  {
  }

  lemma {:induction false} ScanIsGood(cfg: LexerConfig, text: string, lex: Lex)
    requires Sane(cfg) && Inv(cfg, text, lex)
    ensures var (t, next) := ScanFrom(cfg, text, lex); GoodScan(cfg, text, lex, t, next)
  {
    hide ScanText, ScanBody, ScanOpen, ScanComment, Opening;
    if lex.pos == |text| {
    } else if lex.state.InText? {
      ScanTextIsGood(cfg, text, lex);
    } else if IsStart(lex.state) {
      ScanOpenIsGood(cfg, text, lex.state, lex.minus, lex.pos, lex.pos);
    } else if lex.state.CommentBody? {
      ScanCommentIsGood(cfg, text, lex);
    } else {
      ScanBodyIsGood(cfg, text, lex);
    }
  }

  // ---------------------------------------------------------------- whole inputs

  // All tokens from a state on, up to and including the first end of input.
  function Tokens(cfg: LexerConfig, text: string, lex: Lex): (ts: seq<Tok>)
    requires Sane(cfg) && Inv(cfg, text, lex)
    ensures ts != []
    decreases |text| - lex.pos
  {
    ScanIsGood(cfg, text, lex);
    var (t, next) := ScanFrom(cfg, text, lex);
    if t.kind.Eof? then [t] else [t] + Tokens(cfg, text, next)
  }

  lemma {:induction false} TokensStep(cfg: LexerConfig, text: string, lex: Lex)
    requires Sane(cfg) && Inv(cfg, text, lex)
    ensures var (t, next) := ScanFrom(cfg, text, lex);
            GoodScan(cfg, text, lex, t, next) &&
            Tokens(cfg, text, lex) == if t.kind.Eof? then [t] else [t] + Tokens(cfg, text, next)
  {
    hide ScanFrom, GoodScan, Inv, Sane;
    ScanIsGood(cfg, text, lex);
  }

  // Only the last token ends the input; the ranges ascend and are disjoint; and every character that no token
  // covers is white space.
  predicate Covers(text: string, a: nat, ts: seq<Tok>) {
    ts != [] &&
    (forall i :: 0 <= i < |ts| ==> (ts[i].kind.Eof? <==> i == |ts| - 1)) &&
    (forall i :: 0 <= i < |ts| ==> a <= ts[i].from <= ts[i].to <= |text|) &&
    (forall i, j :: 0 <= i < j < |ts| ==> ts[i].to <= ts[j].from) &&
    (forall k :: a <= k < |text| && !IsSpace(text[k]) ==> exists i :: 0 <= i < |ts| && ts[i].from <= k < ts[i].to)
  }

  lemma CoversStep(text: string, a: nat, t: Tok, b: nat, rest: seq<Tok>)
    requires !t.kind.Eof? && t.from <= t.to && Spaces(text, a, t.from) && Spaces(text, t.to, b) && Covers(text, b, rest)
    ensures Covers(text, a, [t] + rest)
  {
    var ts := [t] + rest;
    forall k | a <= k < |text| && !IsSpace(text[k])
      ensures exists i :: 0 <= i < |ts| && ts[i].from <= k < ts[i].to
    {
      if t.from <= k < t.to {
        assert ts[0].from <= k < ts[0].to;
      } else {
        var i :| 0 <= i < |rest| && rest[i].from <= k < rest[i].to;
        assert ts[i + 1].from <= k < ts[i + 1].to;
      }
    }
  }

  lemma {:induction false} OnlySpacesAreDropped(cfg: LexerConfig, text: string, lex: Lex)
    requires Sane(cfg) && Inv(cfg, text, lex)
    ensures Covers(text, lex.pos, Tokens(cfg, text, lex))
    decreases |text| - lex.pos
  {
    hide ScanFrom, Inv, Sane, Tokens;
    TokensStep(cfg, text, lex);
    var (t, next) := ScanFrom(cfg, text, lex);
    if t.kind.Eof? {
      assert forall k :: lex.pos <= k < |text| && !IsSpace(text[k]) ==> [t][0].from <= k < [t][0].to;
    } else {
      OnlySpacesAreDropped(cfg, text, next);
      CoversStep(text, lex.pos, t, next.pos, Tokens(cfg, text, next));
    }
  }

  // ---------------------------------------------------------------- nesting

  datatype Side = Outside | Inside(open: Kind)

  function CloseOf(open: Kind): Kind {
    match open
    case ExpressionOpen => ExpressionClose
    case LineStatementOpen => LineStatementClose
    case StatementOpen => StatementClose
    case _ => CommentClose
  }

  // Text and tags alternate: two texts are never adjacent, a tag ends with the close of its own kind, and neither
  // text nor another opening occurs inside it.
  predicate Bracketed(w: Side, ts: seq<Tok>)
    decreases |ts|
  {
    ts != [] &&
    var kind := ts[0].kind;
    var rest := ts[1..];
    if kind.Eof? then rest == []
    else if w.Outside? then
      if kind.Text? then rest != [] && (IsOpenKind(rest[0].kind) || rest[0].kind.Eof?) && Bracketed(w, rest)
      else IsOpenKind(kind) && Bracketed(Inside(kind), rest)
    else if kind == CloseOf(w.open) then Bracketed(Outside, rest)
    else !IsTextKind(kind) && Bracketed(w, rest)
  }

  function SideOf(s: State): Side {
    match s
    case ExpressionBody => Inside(ExpressionOpen)
    case LineBody => Inside(LineStatementOpen)
    case StatementBody => Inside(StatementOpen)
    case CommentBody => Inside(CommentOpen)
    case _ => Outside
  }

  // How one scan moves between text and tags.
  predicate GoodKind(text: string, lex: Lex, t: Tok, next: Lex) {
    match SideOf(lex.state)
    case Outside =>
      t.kind.Eof? ||
      (t.kind.Text? && lex.state.InText? && (IsStart(next.state) || (next.state.InText? && next.pos == |text|))) ||
      (IsOpenKind(t.kind) && SideOf(next.state) == Inside(t.kind))
    case Inside(open) =>
      t.kind.Eof? ||
      (t.kind == CloseOf(open) && next.state.InText?) ||
      (!IsTextKind(t.kind) && SideOf(next.state) == Inside(open))
  }

  lemma ScanOpenKind(cfg: LexerConfig, state: State, minus: MinusState, start: nat, pos: nat)
    requires IsStart(state)
    ensures var (t, next) := ScanOpen(cfg, state, minus, start, pos);
            IsOpenKind(t.kind) && SideOf(next.state) == Inside(t.kind)
  {
  }

  lemma ScanTextKind(cfg: LexerConfig, text: string, lex: Lex)
    requires lex.pos <= |text| && lex.state.InText?
    ensures var (t, next) := ScanText(cfg, text, lex.minus, lex.pos); GoodKind(text, lex, t, next)
  {
    hide Classify, Opening, ScanOpen, OpensAt;
    var q := FindOpen(cfg, text, lex.pos);
    if q < |text| {
      OpensIsClassified(cfg, text, q);
      ClassifiedOpensHere(cfg, text, q);
      ScanOpenKind(cfg, Classify(cfg, text, q).value.0, lex.minus, lex.pos, q);
    }
  }

  lemma ScanBodyKind(cfg: LexerConfig, text: string, lex: Lex)
    requires lex.pos <= |text|
    requires lex.state.ExpressionBody? || lex.state.LineBody? || lex.state.StatementBody?
    ensures var (t, next) := ScanBody(cfg, text, lex.state, lex.minus, lex.pos); GoodKind(text, lex, t, next)
  {
    hide ScanToken, BodyStart, Opening, StartsWith;
  }

  lemma {:induction false} ScanKind(cfg: LexerConfig, text: string, lex: Lex)
    requires Sane(cfg) && Inv(cfg, text, lex)
    ensures var (t, next) := ScanFrom(cfg, text, lex); GoodKind(text, lex, t, next)
  {
    hide ScanText, ScanBody, ScanOpen, Opening;
    if lex.pos == |text| {
    } else if lex.state.InText? {
      ScanTextKind(cfg, text, lex);
    } else if IsStart(lex.state) {
      ScanOpenKind(cfg, lex.state, lex.minus, lex.pos, lex.pos);
    } else if !lex.state.CommentBody? {
      ScanBodyKind(cfg, text, lex);
    }
  }

  lemma EndIsEof(cfg: LexerConfig, text: string, lex: Lex)
    requires lex.pos == |text|
    ensures ScanFrom(cfg, text, lex) == (Tok(Kind.Eof, lex.pos, lex.pos), lex)
  {
  }

  // At a start state the next token is an opening one.
  lemma StartOpens(cfg: LexerConfig, text: string, lex: Lex)
    requires Sane(cfg) && Inv(cfg, text, lex) && IsStart(lex.state)
    ensures IsOpenKind(ScanFrom(cfg, text, lex).0.kind)
  {
    hide ScanText, ScanBody;
  }

  lemma {:induction false} TagsAreBracketed(cfg: LexerConfig, text: string, lex: Lex)
    requires Sane(cfg) && Inv(cfg, text, lex)
    ensures Bracketed(SideOf(lex.state), Tokens(cfg, text, lex))
    decreases |text| - lex.pos
  {
    hide ScanFrom, Opening, Sane, Tokens, Spaces;
    TokensStep(cfg, text, lex);
    ScanKind(cfg, text, lex);
    var (t, next) := ScanFrom(cfg, text, lex);
    if !t.kind.Eof? {
      TagsAreBracketed(cfg, text, next);
      assert Tokens(cfg, text, lex)[1..] == Tokens(cfg, text, next);
      if t.kind.Text? {
        TokensStep(cfg, text, next);
        if IsStart(next.state) { StartOpens(cfg, text, next); } else { EndIsEof(cfg, text, next); }
      }
    }
  }

  // ---------------------------------------------------------------- text outside tags

  function Slice(text: string, a: nat, b: nat): string {
    if a <= b <= |text| then text[a..b] else ""
  }

  // The text of the Text tokens.
  function Texts(text: string, ts: seq<Tok>): string {
    if ts == [] then ""
    else (if ts[0].kind.Text? then Slice(text, ts[0].from, ts[0].to) else "") + Texts(text, ts[1..])
  }

  // The input from `at` on without what stands from an opening token to its closing one. Text tokens play no part.
  function Untagged(text: string, at: nat, w: Side, ts: seq<Tok>): string
    decreases |ts|
  {
    if ts == [] then ""
    else
      var t := ts[0];
      if t.kind.Eof? then (if w.Outside? then Slice(text, at, |text|) else "")
      else if IsOpenKind(t.kind) then Slice(text, at, t.from) + Untagged(text, t.to, Inside(t.kind), ts[1..])
      else if IsCloseKind(t.kind) then Untagged(text, t.to, Outside, ts[1..])
      else Untagged(text, at, w, ts[1..])
  }

  // No trimming is asked for, by the configuration or by a marker in the text.
  predicate Untrimmed(cfg: LexerConfig, text: string) {
    !cfg.trimBlocks && !cfg.lstripBlocks &&
    forall k :: 0 <= k <= |text| ==> !IsMarker(cfg, text, k)
  }

  predicate IsMarker(cfg: LexerConfig, text: string, k: nat) {
    StartsWith(text, k, cfg.expressionOpenForceLstrip) || StartsWith(text, k, cfg.statementOpenForceLstrip) ||
    StartsWith(text, k, cfg.commentOpenForceLstrip) || StartsWith(text, k, cfg.expressionCloseForceRstrip) ||
    StartsWith(text, k, cfg.statementCloseForceRstrip) || StartsWith(text, k, cfg.commentCloseForceRstrip)
  }

  // Without trimming a scan drops nothing outside tags.
  predicate ExactScan(text: string, lex: Lex, t: Tok, next: Lex) {
    (SideOf(lex.state).Outside? ==> t.from == lex.pos) &&
    (t.kind.Text? || t.kind.Eof? || next.state.InText? ==> next.pos == t.to || SideOf(next.state) != Outside) &&
    (t.kind.Eof? && SideOf(lex.state).Outside? ==> t.from == |text|)
  }

  lemma ScanTextExact(cfg: LexerConfig, text: string, lex: Lex)
    requires Untrimmed(cfg, text) && lex.pos <= |text| && lex.state.InText?
    ensures var (t, next) := ScanText(cfg, text, lex.minus, lex.pos); ExactScan(text, lex, t, next)
  {
    var q := FindOpen(cfg, text, lex.pos);
    assert !IsMarker(cfg, text, q);
  }

  lemma ScanBodyExact(cfg: LexerConfig, text: string, lex: Lex)
    requires Untrimmed(cfg, text) && lex.pos <= |text|
    requires lex.state.ExpressionBody? || lex.state.LineBody? || lex.state.StatementBody?
    ensures var (t, next) := ScanBody(cfg, text, lex.state, lex.minus, lex.pos); ExactScan(text, lex, t, next)
  {
    hide ScanToken, BodyStart, Opening;
    assert !IsMarker(cfg, text, BodyStart(ClosingOf(cfg, lex.state), text, lex.pos));
  }

  lemma ScanCommentExact(cfg: LexerConfig, text: string, lex: Lex)
    requires Untrimmed(cfg, text) && lex.pos <= |text| && lex.state.CommentBody?
    ensures var (t, next) := ScanComment(cfg, text, lex.minus, lex.pos); ExactScan(text, lex, t, next)
  {
    var q := FindClose(cfg, text, lex.pos);
    if q > 0 { assert !IsMarker(cfg, text, q - 1); }
  }

  lemma ScanExact(cfg: LexerConfig, text: string, lex: Lex)
    requires Sane(cfg) && Untrimmed(cfg, text) && Inv(cfg, text, lex)
    ensures var (t, next) := ScanFrom(cfg, text, lex); ExactScan(text, lex, t, next)
  {
    hide ScanText, ScanBody, ScanComment, ScanOpen, Opening, Untrimmed;
    if lex.pos == |text| {
    } else if lex.state.InText? {
      ScanTextExact(cfg, text, lex);
    } else if IsStart(lex.state) {
      ScanOpenIsGood(cfg, text, lex.state, lex.minus, lex.pos, lex.pos);
      ScanOpenKind(cfg, lex.state, lex.minus, lex.pos, lex.pos);
    } else if lex.state.CommentBody? {
      ScanCommentExact(cfg, text, lex);
    } else {
      ScanBodyExact(cfg, text, lex);
    }
  }

  lemma SliceJoins(text: string, a: nat, b: nat, c: nat)
    requires a <= b <= c <= |text|
    ensures Slice(text, a, b) + Slice(text, b, c) == Slice(text, a, c)
    ensures Slice(text, b, b) == ""
  {
  }

  // The Text tokens are the input outside its tags, character for character.
  lemma {:induction false} TextsFrom(cfg: LexerConfig, text: string, lex: Lex, at: nat)
    requires Sane(cfg) && Untrimmed(cfg, text) && Inv(cfg, text, lex) && at <= lex.pos
    ensures var w := SideOf(lex.state);
            Untagged(text, at, w, Tokens(cfg, text, lex)) ==
            (if w.Outside? then Slice(text, at, lex.pos) else "") + Texts(text, Tokens(cfg, text, lex))
    decreases |text| - lex.pos
  {
    hide ScanFrom, Inv, Sane, Tokens, Untrimmed, Slice;
    TokensStep(cfg, text, lex);
    ScanKind(cfg, text, lex);
    ScanExact(cfg, text, lex);
    var (t, next) := ScanFrom(cfg, text, lex);
    var ts := Tokens(cfg, text, lex);
    if t.kind.Eof? {
      assert ts[1..] == [];
    } else {
      assert ts[1..] == Tokens(cfg, text, next);
      SliceJoins(text, at, t.from, t.to);
      SliceJoins(text, at, t.to, next.pos);
      var w := SideOf(lex.state);
      if t.kind.Text? {
        TextsFrom(cfg, text, next, at);
      } else if w.Outside? {
        TextsFrom(cfg, text, next, t.to);
      } else if IsCloseKind(t.kind) {
        TextsFrom(cfg, text, next, t.to);
      } else {
        TextsFrom(cfg, text, next, at);
      }
    }
  }

  predicate NoConstruct(cfg: LexerConfig, text: string, t: Tok) {
    t.kind.Text? ==> forall k :: t.from <= k < t.to && k < |text| ==> !OpensAt(cfg, text, k)
  }

  lemma ScanNoConstruct(cfg: LexerConfig, text: string, lex: Lex)
    requires Sane(cfg) && Inv(cfg, text, lex)
    ensures NoConstruct(cfg, text, ScanFrom(cfg, text, lex).0)
  {
    hide ScanBody, ScanOpen, ScanComment, OpensAt, Classify;
    ScanKind(cfg, text, lex);
    if lex.pos < |text| && lex.state.InText? {
      var q := FindOpen(cfg, text, lex.pos);
      if q < |text| {
        OpensIsClassified(cfg, text, q);
        ClassifiedOpensHere(cfg, text, q);
        ScanOpenKind(cfg, Classify(cfg, text, q).value.0, lex.minus, lex.pos, q);
      }
    }
  }

  // No construct is passed over: none opens anywhere in a Text token.
  lemma {:induction false} TextsHaveNoConstruct(cfg: LexerConfig, text: string, lex: Lex)
    requires Sane(cfg) && Inv(cfg, text, lex)
    ensures forall t :: t in Tokens(cfg, text, lex) ==> NoConstruct(cfg, text, t)
    decreases |text| - lex.pos
  {
    hide ScanFrom, Inv, Sane, Tokens, NoConstruct;
    TokensStep(cfg, text, lex);
    ScanNoConstruct(cfg, text, lex);
    var (t, next) := ScanFrom(cfg, text, lex);
    if !t.kind.Eof? {
      TextsHaveNoConstruct(cfg, text, next);
    }
  }

  const BOM := ['\U{EF}', '\U{BB}', '\U{BF}']

  // The input as the lexer sees it: without a byte order mark.
  function Input(input: string): string {
    if StartsWith(input, 0, BOM) then input[3..] else input
  }

  const BEGIN := Lex(InText, NumberSign, 0)

  // Every input is covered up to white space, its tags are bracketed, and without trimming the texts are exactly
  // what stands outside the tags.
  lemma InputIsTiled(cfg: LexerConfig, text: string)
    requires Sane(cfg)
    ensures var ts := Tokens(cfg, text, BEGIN);
            Covers(text, 0, ts) && Bracketed(Outside, ts) &&
            (Untrimmed(cfg, text) ==> Texts(text, ts) == Untagged(text, 0, Outside, ts))
  {
    OnlySpacesAreDropped(cfg, text, BEGIN);
    TagsAreBracketed(cfg, text, BEGIN);
    if Untrimmed(cfg, text) {
      TextsFrom(cfg, text, BEGIN, 0);
    }
  }

  // A construct in the text shows as a token that is not the whole text.
  lemma {:induction false} FirstConstruct(cfg: LexerConfig, text: string, q: nat)
    requires Sane(cfg) && q == FindOpen(cfg, text, 0) < |text|
    ensures Tokens(cfg, text, BEGIN) != [Tok(Kind.Text, 0, |text|), Tok(Kind.Eof, |text|, |text|)]
  {
    hide ScanFrom, Opening, Tokens, Classify, FindOpen, OpensAt, Sane;
    TokensStep(cfg, text, BEGIN);
    ScanKind(cfg, text, BEGIN);
    var (t, next) := ScanFrom(cfg, text, BEGIN);
    assert t.kind.Text? ==> IsStart(next.state) by { FirstTextEnds(cfg, text, q); }
    if t.kind.Text? {
      StartOpens(cfg, text, next);
      TokensStep(cfg, text, next);
      assert Tokens(cfg, text, BEGIN)[1] == Tokens(cfg, text, next)[0];
      assert !Tokens(cfg, text, BEGIN)[1].kind.Eof?;
    } else {
      assert Tokens(cfg, text, BEGIN)[0] == t;
    }
  }

  lemma FirstTextEnds(cfg: LexerConfig, text: string, q: nat)
    requires q == FindOpen(cfg, text, 0) < |text|
    ensures var (t, next) := ScanFrom(cfg, text, BEGIN); t.kind.Text? ==> IsStart(next.state)
  {
    hide Opening, Classify, FindOpen, OpensAt, ScanOpen, ScanBody, ScanComment;
    OpensIsClassified(cfg, text, q);
    ClassifiedOpensHere(cfg, text, q);
    ScanOpenKind(cfg, Classify(cfg, text, q).value.0, NumberSign, 0, q);
  }

  lemma ConstructFree(cfg: LexerConfig, text: string)
    requires Sane(cfg) && 0 < |text| == FindOpen(cfg, text, 0)
    ensures Tokens(cfg, text, BEGIN) == [Tok(Kind.Text, 0, |text|), Tok(Kind.Eof, |text|, |text|)]
  {
    hide Opening, Classify, FindOpen, OpensAt, ScanOpen, ScanBody, ScanComment, Tokens;
    TokensStep(cfg, text, BEGIN);
    EndIsEof(cfg, text, ScanFrom(cfg, text, BEGIN).1);
    TokensStep(cfg, text, ScanFrom(cfg, text, BEGIN).1);
  }

  // An input without constructs is a single Text token equal to it, whatever the configuration trims, and only such
  // an input is.
  lemma {:induction false} TagFree(cfg: LexerConfig, text: string)
    requires Sane(cfg) && text != ""
    ensures Tokens(cfg, text, BEGIN) == [Tok(Kind.Text, 0, |text|), Tok(Kind.Eof, |text|, |text|)] <==>
            forall k :: 0 <= k < |text| ==> !OpensAt(cfg, text, k)
  {
    hide Tokens, OpensAt, Sane;
    var q := FindOpen(cfg, text, 0);
    if q == |text| {
      ConstructFree(cfg, text);
    } else {
      FirstConstruct(cfg, text, q);
    }
  }

  // ---------------------------------------------------------------- the lexer

  // Keeps only the blanks before a line break; the range [from, to) of the input stands for the view.
  method ClearFinalLineIfWhitespace(text: string, from: nat, to: nat) returns (end: nat)
    requires from <= to <= |text|
    ensures end == ClearFinalLine(text, from, to, to)
    ensures end == if AllBlank(text, LineBegin(text, from, to), to) then LineBegin(text, from, to) else to
  {
    ClearFinalLineExactly(text, from, to);
    end := to;
    while from < end
      invariant from <= end <= to && forall j :: end <= j < to ==> IsBlank(text[j])
      invariant ClearFinalLine(text, from, end, to) == ClearFinalLine(text, from, to, to)
    {
      var ch := text[end - 1];
      if ch == ' ' || ch == '\t' {
        end := end - 1;
      } else if ch == '\n' || ch == '\r' {
        break;
      } else {
        return to;
      }
    }
  }

  class Lexer {
    const config: LexerConfig
    var state: State
    var minusState: MinusState
    var text: string
    var tokStart: nat
    var pos: nat

    constructor (config: LexerConfig)
      ensures this.config == config && Now() == BEGIN && text == "" && tokStart == 0
    {
      this.config, state, minusState, text, tokStart, pos := config, InText, NumberSign, "", 0, 0;
    }

    function Now(): Lex
      reads this
    {
      Lex(state, minusState, pos)
    }

    predicate Valid()
      reads this
    {
      Sane(config) && Inv(config, text, Now())
    }

    method Start(input: string)
      modifies this
      ensures text == Input(input) && Now() == BEGIN && tokStart == 0
    {
      text, tokStart, pos, state, minusState := input, 0, 0, InText, NumberSign;
      if StartsWith(text, 0, BOM) {
        text := text[3..];
      }
    }

    function MakeToken(kind: Kind): Tok
      reads this
    {
      Tok(kind, tokStart, if pos < tokStart then tokStart else pos)
    }

    method ScanId() returns (t: Tok)
      requires tokStart < pos <= |text|
      modifies `pos
      ensures pos == IdEnd(text, old(pos)) && t == Tok(Id, tokStart, pos)
    {
      while pos < |text| && IsIdChar(text[pos])
        invariant old(pos) <= pos <= |text| && IdEnd(text, pos) == IdEnd(text, old(pos))
      {
        pos := pos + 1;
      }
      t := MakeToken(Id);
    }

    method ScanNumber() returns (t: Tok)
      requires tokStart < pos <= |text|
      modifies `pos
      ensures pos == NumberEnd(text, old(pos)) && t == Tok(Number, tokStart, pos)
    {
      while pos < |text| && ContinuesNumber(text, pos)
        invariant old(pos) <= pos <= |text| && NumberEnd(text, pos) == NumberEnd(text, old(pos))
      {
        pos := pos + 1;
      }
      t := MakeToken(Number);
    }

    method ScanString() returns (t: Tok)
      requires tokStart < pos <= |text| && text[tokStart] == '\"'
      modifies `pos
      ensures pos == StringEnd(text, old(pos), false) && t == Tok(String, tokStart, pos)
    {
      var escape := false;
      while pos < |text|
        invariant old(pos) <= pos <= |text| && StringEnd(text, pos, escape) == StringEnd(text, old(pos), false)
      {
        var ch := text[pos];
        pos := pos + 1;
        if ch == '\\' {
          escape := !escape;
        } else if !escape && ch == text[tokStart] {
          break;
        } else {
          escape := false;
        }
      }
      t := MakeToken(String);
    }

    method SkipWhitespacesAndNewlines()
      requires pos <= |text|
      modifies `pos
      ensures pos == SkipSpaces(text, old(pos))
    {
      while pos < |text| && IsSpace(text[pos])
        invariant pos <= |text| && SkipSpaces(text, pos) == SkipSpaces(text, old(pos))
      {
        pos := pos + 1;
      }
    }

    method SkipWhitespacesAndFirstNewline()
      requires pos <= |text|
      modifies `pos
      ensures pos == SkipFirstNewline(text, old(pos))
    {
      while pos < |text| && IsBlank(text[pos])
        invariant pos <= |text| && SkipBlanks(text, pos) == SkipBlanks(text, old(pos))
      {
        pos := pos + 1;
      }
      if pos < |text| {
        var ch := text[pos];
        if ch == '\n' {
          pos := pos + 1;
        } else if ch == '\r' {
          pos := pos + 1;
          if pos < |text| && text[pos] == '\n' {
            pos := pos + 1;
          }
        }
      }
    }

    // The token at tokStart, which neither closes the body nor is white space.
    method ScanOne() returns (t: Tok)
      requires tokStart < |text|
      modifies `pos, `minusState
      ensures (t.kind, pos, minusState) == ScanToken(text, tokStart, old(minusState))
      ensures t.from == tokStart && t.to == pos
    {
      var ch := text[tokStart];
      pos := tokStart + 1;
      if IsAlpha(ch) {
        minusState := Operator;
        t := ScanId();
        return;
      }
      var currentMinusState := minusState;
      if minusState == Operator {
        minusState := NumberSign;
      }
      if ch == '-' {
        if currentMinusState == Operator { t := MakeToken(Minus); } else { t := ScanNumber(); }
      } else if Single(ch).Some? {
        if ch == ')' || ch == ']' || ch == '}' {
          minusState := Operator;
        }
        t := MakeToken(Single(ch).value);
      } else if WithEquals(ch).Some? {
        if pos < |text| && text[pos] == '=' {
          pos := pos + 1;
          t := MakeToken(WithEquals(ch).value.0);
        } else {
          t := MakeToken(WithEquals(ch).value.1);
        }
      } else if ch == '\"' {
        t := ScanString();
      } else if IsDigit(ch) {
        minusState := Operator;
        t := ScanNumber();
      } else if ch == '_' || ch == '@' || ch == '$' {
        minusState := Operator;
        t := ScanId();
      } else {
        t := MakeToken(Unknown);
      }
    }

    // The closing token that ends with `close` at `at`; `all` and `first` say what is skipped after it.
    method CloseTag(at: nat, close: string, closeKind: Kind, all: bool, first: bool) returns (t: Tok)
      requires tokStart <= at && StartsWith(text, at, close)
      modifies `state, `pos
      ensures state == InText && t == Tok(closeKind, tokStart, at + |close|)
      ensures pos == if all then SkipSpaces(text, t.to) else if first then SkipFirstNewline(text, t.to) else t.to
    {
      state := InText;
      pos := at + |close|;
      t := MakeToken(closeKind);
      if all {
        SkipWhitespacesAndNewlines();
      } else if first {
        SkipWhitespacesAndFirstNewline();
      }
    }

    // Skips white space up to a token or a close.
    method SkipToToken(cl: Closing)
      requires tokStart <= |text|
      modifies `tokStart
      ensures tokStart == BodyStart(cl, text, old(tokStart))
    {
      while tokStart < |text|
        invariant tokStart <= |text| && BodyStart(cl, text, tokStart) == BodyStart(cl, text, old(tokStart))
      {
        var ch := text[tokStart];
        if ch == ' ' || ch == '\t' || ch == '\r' {
          tokStart := tokStart + 1;
        } else if TrimsAt(cl, text, tokStart) || StartsWith(text, tokStart, cl.close) {
          break;
        } else if ch == '\n' {
          tokStart := tokStart + 1;
        } else {
          break;
        }
      }
    }

    method ScanBodyTag(close: string, closeKind: Kind, closeTrim: string, trim: bool) returns (t: Tok)
      requires Sane(config) && tokStart == pos <= |text|
      requires state.ExpressionBody? || state.LineBody? || state.StatementBody?
      requires ClosingOf(config, state) == Closing(close, closeKind, closeTrim, trim)
      modifies this
      ensures text == old(text)
      ensures (t, Now()) == ScanBody(config, text, old(state), old(minusState), old(pos)) && tokStart == t.from
    {
      hide ScanToken, Sane, ClosingOf, SkipSpaces, SkipFirstNewline, BodyStart;
      SkipToToken(Closing(close, closeKind, closeTrim, trim));
      if tokStart == |text| {
        t := MakeToken(Kind.Eof);
      } else if closeTrim != "" && StartsWith(text, tokStart, closeTrim) {
        t := CloseTag(tokStart, closeTrim, closeKind, true, false);
      } else if StartsWith(text, tokStart, close) {
        t := CloseTag(tokStart, close, closeKind, false, trim);
      } else {
        t := ScanOne();
      }
    }

    // The state a construct at pos leads to, and whether the text before it is stripped.
    method MatchOpening() returns (found: bool, mustLstrip: bool)
      requires pos < |text|
      modifies `state
      ensures found == Classify(config, text, pos).Some?
      ensures found ==> (state, mustLstrip) == Classify(config, text, pos).value
      ensures !found ==> state == old(state)
    {
      found, mustLstrip := true, false;
      if StartsWith(text, pos, config.expressionOpen) {
        if StartsWith(text, pos, config.expressionOpenForceLstrip) {
          state, mustLstrip := ExpressionStartForceLstrip, true;
        } else {
          state := ExpressionStart;
        }
      } else if StartsWith(text, pos, config.statementOpen) {
        if StartsWith(text, pos, config.statementOpenNoLstrip) {
          state := StatementStartNoLstrip;
        } else if StartsWith(text, pos, config.statementOpenForceLstrip) {
          state, mustLstrip := StatementStartForceLstrip, true;
        } else {
          state, mustLstrip := StatementStart, config.lstripBlocks;
        }
      } else if StartsWith(text, pos, config.commentOpen) {
        if StartsWith(text, pos, config.commentOpenForceLstrip) {
          state, mustLstrip := CommentStartForceLstrip, true;
        } else {
          state, mustLstrip := CommentStart, config.lstripBlocks;
        }
      } else if (pos == 0 || text[pos - 1] == '\n') && StartsWith(text, pos, config.lineStatement) {
        state := LineStart;
      } else {
        found := false;
      }
    }

    // Moves to the first construct, or to the end.
    method SeekOpening() returns (found: bool, mustLstrip: bool)
      requires pos <= |text|
      modifies `pos, `state
      ensures pos == FindOpen(config, text, old(pos)) && found == (pos < |text|)
      ensures found ==> Some((state, mustLstrip)) == Classify(config, text, pos)
      ensures !found ==> state == old(state)
    {
      hide Classify;
      mustLstrip := false;
      while true
        invariant pos <= |text| && state == old(state)
        invariant FindOpen(config, text, pos) == FindOpen(config, text, old(pos))
        decreases |text| - pos
      {
        while pos < |text| && text[pos] !in config.openChars
          invariant pos <= |text| && state == old(state)
          invariant FindOpen(config, text, pos) == FindOpen(config, text, old(pos))
        {
          pos := pos + 1;
        }
        if pos == |text| {
          return false, false;
        }
        found, mustLstrip := MatchOpening();
        if found {
          return;
        }
        pos := pos + 1;
      }
    }

    method OpenTag() returns (t: Tok)
      requires Valid() && IsStart(state) && tokStart <= pos
      modifies `state, `pos
      ensures (t, Now()) == ScanOpen(config, old(state), minusState, tokStart, old(pos))
    {
      var (open, kind, body) := Opening(config, state);
      state := body;
      pos := pos + |open|;
      t := MakeToken(kind);
    }

    method Scan() returns (t: Tok)
      requires Valid()
      modifies this
      ensures Valid() && text == old(text)
      ensures (t, Now()) == ScanFrom(config, text, old(Now()))
      ensures tokStart == t.from
    {
      hide ScanBody, Classify, OpensAt, Opening, Sane;
      ScanIsGood(config, text, Now());
      tokStart := pos;
      if tokStart >= |text| {
        t := MakeToken(Kind.Eof);
      } else if state.InText? {
        t := ScanTextTag();
      } else if IsStart(state) {
        t := OpenTag();
      } else if state.CommentBody? {
        t := ScanCommentTag();
      } else if state.ExpressionBody? {
        t := ScanBodyTag(config.expressionClose, ExpressionClose, config.expressionCloseForceRstrip, false);
      } else if state.LineBody? {
        t := ScanBodyTag("\n", LineStatementClose, "", false);
      } else {
        t := ScanBodyTag(config.statementClose, StatementClose, config.statementCloseForceRstrip, config.trimBlocks);
      }
    }

    method ScanTextTag() returns (t: Tok)
      requires Valid() && state.InText? && tokStart == pos < |text|
      modifies `state, `pos
      ensures (t, Now()) == ScanText(config, text, minusState, old(pos)) && tokStart == t.from
    {
      hide Classify, Opening, Sane, OpensAt;
      var found, mustLstrip := SeekOpening();
      if !found {
        t := MakeToken(Kind.Text);
        return;
      }
      ClassifiedOpensHere(config, text, pos);
      var end := pos;
      if mustLstrip {
        end := ClearFinalLineIfWhitespace(text, tokStart, pos);
      }
      if end == tokStart {
        t := OpenTag();
      } else {
        t := Tok(Kind.Text, tokStart, end);
      }
    }

    // Moves to the close of a comment, or to the end.
    method SeekClose()
      requires pos <= |text|
      modifies `pos
      ensures pos == FindClose(config, text, old(pos))
    {
      while pos < |text| && !StartsWith(text, pos, config.commentClose)
        invariant old(pos) <= pos <= |text|
        invariant FindClose(config, text, pos) == FindClose(config, text, old(pos))
      {
        pos := pos + 1;
      }
    }

    method ScanCommentTag() returns (t: Tok)
      requires Valid() && state.CommentBody? && tokStart == pos < |text|
      modifies `state, `pos
      ensures (t, Now()) == ScanComment(config, text, minusState, old(pos)) && tokStart == t.from
    {
      hide SkipFirstNewline, FindClose, Opening;
      SeekClose();
      if pos == |text| {
        t := MakeToken(Kind.Eof);
        return;
      }
      var mustRstrip := StartsWith(text, pos - 1, config.commentCloseForceRstrip);
      t := CloseTag(pos, config.commentClose, CommentClose, false, mustRstrip || config.trimBlocks);
    }

    // Runs the lexer to the end of an input.
    method ScanAll(input: string) returns (ts: seq<Tok>)
      requires Sane(config)
      modifies this
      ensures text == Input(input) && ts == Tokens(config, text, BEGIN)
      ensures Covers(text, 0, ts) && Bracketed(Outside, ts)
      ensures Untrimmed(config, text) ==> Texts(text, ts) == Untagged(text, 0, Outside, ts)
    {
      hide ScanFrom, Inv, Sane, Tokens, Covers, Bracketed, Untrimmed, Texts, Untagged, Input, Spaces;
      Start(input);
      assert Inv(config, text, BEGIN) by { BeginIsGood(config, text); }
      ts := [];
      while true
        invariant Valid() && text == Input(input) && pos <= |text|
        invariant Tokens(config, text, BEGIN) == ts + Tokens(config, text, Now())
        decreases |text| - pos
      {
        TokensStep(config, text, Now());
        var t := Scan();
        CursorInside(config, text, Now());
        if !t.kind.Eof? {
          assert ts + ([t] + Tokens(config, text, Now())) == (ts + [t]) + Tokens(config, text, Now());
        }
        ts := ts + [t];
        if t.kind.Eof? {
          break;
        }
      }
      InputIsTiled(config, text);
    }
  }

  lemma CursorInside(cfg: LexerConfig, text: string, lex: Lex)
    requires Inv(cfg, text, lex)
    ensures lex.pos <= |text|
  {
  }

  lemma BeginIsGood(cfg: LexerConfig, text: string)
    ensures Inv(cfg, text, BEGIN)
  {
  }
}
