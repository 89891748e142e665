// Writing tokens down as text and lexing the text again, and with it the way from a template tree through its text
// and its tokens back to the tree.
module InjaSource {
  import opened Wrappers
  import opened InjaSyntax
  import L = InjaLexer
  import S = InjaStatement
  import T = InjaTemplate
  import G = InjaTags
  import Y = InjaStyles

  // The default delimiters; line statements, trimming and stripping are free.
  predicate Usual(cfg: L.LexerConfig): (b: bool)
    ensures b ==> L.Sane(cfg)
  {
    cfg.statementOpen == "{%" && cfg.statementOpenNoLstrip == "{%+" && cfg.statementOpenForceLstrip == "{%-" &&
    cfg.statementClose == "%}" && cfg.statementCloseForceRstrip == "-%}" &&
    cfg.expressionOpen == "{{" && cfg.expressionOpenForceLstrip == "{{-" &&
    cfg.expressionClose == "}}" && cfg.expressionCloseForceRstrip == "-}}" &&
    cfg.commentOpen == "{#" && cfg.commentOpenForceLstrip == "{#-" &&
    cfg.commentClose == "#}" && cfg.commentCloseForceRstrip == "-#}" &&
    cfg.lineStatement != "" && '{' in cfg.openChars
  }

  // ---------------------------------------------------------------- the spelling of tokens

  // How a kind with one spelling is written.
  function Spelling(k: Kind): string {
    match k
    case Plus => "+"
    case Minus => "-"
    case Times => "*"
    case Slash => "/"
    case Percent => "%"
    case Power => "^"
    case Comma => ","
    case Dot => "."
    case Colon => ":"
    case LeftParen => "("
    case RightParen => ")"
    case LeftBracket => "["
    case RightBracket => "]"
    case LeftBrace => "{"
    case RightBrace => "}"
    case Equal => "=="
    case NotEqual => "!="
    case GreaterThan => ">"
    case GreaterEqual => ">="
    case LessThan => "<"
    case LessEqual => "<="
    case Pipe => "|"
    case _ => ""
  }

  predicate Letter(c: char) { 'a' <= c <= 'z' || 'A' <= c <= 'Z' }

  predicate Digit(c: char) { '0' <= c <= '9' }

  // What a name begins with, and what it goes on with.
  predicate NameStart(c: char) { Letter(c) || c == '_' || c == '@' || c == '$' }

  predicate InName(c: char) { Letter(c) || Digit(c) || c == '_' || c == '-' || c == '.' || c == '/' }

  // What a number goes on with after the character b: digits, dots, exponents, and signs right after an exponent.
  predicate InNumber(b: char, c: char) {
    Digit(c) || c == '.' || c == 'e' || c == 'E' || ((c == '+' || c == '-') && (b == 'e' || b == 'E'))
  }

  predicate InNumberAt(s: string, k: nat) { 0 < k < |s| && InNumber(s[k - 1], s[k]) }

  predicate IsName(s: string) { s != "" && NameStart(s[0]) && forall k :: 0 < k < |s| ==> InName(s[k]) }

  // A digit or a sign first.
  predicate IsNumber(s: string) {
    s != "" && (Digit(s[0]) || s[0] == '-') && forall k :: 0 < k < |s| ==> InNumberAt(s, k)
  }

  // Characters other than quotes and backslashes, and backslashes with what they escape.
  predicate IsQuotable(s: string) {
    s == "" ||
    (s[0] == '\\' && |s| >= 2 && IsQuotable(s[2..])) ||
    (s[0] != '\\' && s[0] != '\"' && IsQuotable(s[1..]))
  }

  predicate IsString(s: string) {
    |s| >= 2 && s[0] == '\"' && s[|s| - 1] == '\"' && IsQuotable(s[1..|s| - 1])
  }

  // A token as it is spelled.
  predicate Spelled(t: Token) {
    match t.kind
    case Id => IsName(t.text)
    case Number => IsNumber(t.text)
    case String => IsString(t.text)
    case Unknown => t.text == "=" || t.text == "!"
    case _ => Spelling(t.kind) != "" && t.text == Spelling(t.kind)
  }

  // Whether a sign belongs to the number after it depends on the token before: only after a name, an unsigned number
  // or a closing bracket a minus is an operator. The token before may be that of an earlier tag.
  predicate SignFits(t: Token, m: L.MinusState) {
    (t.kind.Minus? ==> m == L.Operator) && (t.kind.Number? && t.text != "" && t.text[0] == '-' ==> m == L.NumberSign)
  }

  predicate Legible(t: Token, m: L.MinusState) { Spelled(t) && SignFits(t, m) }

  function After(t: Token, m: L.MinusState): L.MinusState {
    match t.kind
    case Id | RightParen | RightBracket | RightBrace => L.Operator
    case Number => if t.text != "" && t.text[0] == '-' then L.NumberSign else L.Operator
    case _ => L.NumberSign
  }

  predicate At(text: string, k: nat, s: string) { L.StartsWith(text, k, s) }

  lemma AtIndex(text: string, k: nat, s: string, i: nat)
    requires At(text, k, s) && i < |s|
    ensures text[k + i] == s[i]
  {
    assert text[k..k + |s|][i] == s[i];
  }

  lemma NotAt(text: string, k: nat, s: string, i: nat)
    requires i < |s| && k + i < |text| && text[k + i] != s[i]
    ensures !At(text, k, s)
  {
    if At(text, k, s) { AtIndex(text, k, s, i); }
  }

  lemma {:induction false} IdRun(text: string, k: nat, e: nat)
    requires k <= e <= |text| && (e < |text| ==> !InName(text[e])) && forall j :: k <= j < e ==> InName(text[j])
    ensures L.IdEnd(text, k) == e
    decreases e - k
  {
    if k < e { IdRun(text, k + 1, e); }
  }

  lemma {:induction false} NumberRun(text: string, k: nat, e: nat)
    requires 0 < k <= e <= |text| && !InNumberAt(text, e)
    requires forall j :: k <= j < e ==> InNumberAt(text, j)
    ensures L.NumberEnd(text, k) == e
    decreases e - k
  {
    if k < e {
      assert InNumberAt(text, k);
      NumberRun(text, k + 1, e);
    }
  }

  // A name ends where nothing that belongs to a name follows, and a number likewise.
  lemma NameExactly(text: string, k: nat, e: nat, m: L.MinusState)
    requires k < e <= |text| && NameStart(text[k]) && (forall j :: k < j < e ==> InName(text[j])) && (e < |text| ==> !InName(text[e]))
    ensures L.ScanToken(text, k, m) == (Id, e, L.Operator)
  {
    IdRun(text, k + 1, e);
  }

  lemma NumberExactly(text: string, k: nat, e: nat, m: L.MinusState)
    requires k < e <= |text| && (Digit(text[k]) || (text[k] == '-' && m == L.NumberSign))
    requires (forall j :: k < j < e ==> InNumberAt(text, j)) && !InNumberAt(text, e)
    ensures L.ScanToken(text, k, m) == (Number, e, if text[k] == '-' then L.NumberSign else L.Operator)
  {
    NumberRun(text, k + 1, e);
  }

  lemma {:induction false} StringRun(text: string, k: nat, e: nat)
    requires k <= e < |text| && text[e] == '\"' && IsQuotable(text[k..e])
    ensures L.StringEnd(text, k, false) == e + 1
    decreases e - k
  {
    if k < e {
      var s := text[k..e];
      if s[0] == '\\' {
        assert s[2..] == text[k + 2..e];
        StringRun(text, k + 2, e);
        EscapedOnce(text, k + 1, e);
      } else {
        assert s[1..] == text[k + 1..e];
        StringRun(text, k + 1, e);
      }
    }
  }

  // After a backslash any character is passed over.
  lemma EscapedOnce(text: string, k: nat, e: nat)
    requires k < e < |text|
    ensures L.StringEnd(text, k, true) == L.StringEnd(text, k + 1, false)
  {
  }

  lemma NameReadsBack(text: string, k: nat, s: string, m: L.MinusState)
    requires IsName(s) && At(text, k, s + " ")
    ensures L.ScanToken(text, k, m) == (Id, k + |s|, L.Operator)
  {
    forall i | 0 <= i <= |s| ensures text[k + i] == (s + " ")[i] { AtIndex(text, k, s + " ", i); }
    assert text[k] == s[0] && text[k + |s|] == ' ';
    forall j | k < j < k + |s| ensures InName(text[j]) { assert text[k + (j - k)] == s[j - k]; }
    NameExactly(text, k, k + |s|, m);
  }

  lemma NumberReadsBack(text: string, k: nat, s: string, m: L.MinusState)
    requires IsNumber(s) && (s[0] == '-' ==> m == L.NumberSign) && At(text, k, s + " ")
    ensures L.ScanToken(text, k, m) == (Number, k + |s|, if s[0] == '-' then L.NumberSign else L.Operator)
  {
    forall i | 0 <= i <= |s| ensures text[k + i] == (s + " ")[i] { AtIndex(text, k, s + " ", i); }
    assert text[k] == s[0] && text[k + |s|] == ' ';
    forall j | k < j < k + |s| ensures InNumberAt(text, j) {
      assert InNumberAt(s, j - k);
      assert text[k + (j - k)] == s[j - k] && text[k + (j - k - 1)] == s[j - k - 1];
    }
    NumberExactly(text, k, k + |s|, m);
  }

  lemma StringReadsBack(text: string, k: nat, s: string, m: L.MinusState)
    requires IsString(s) && At(text, k, s + " ")
    ensures L.ScanToken(text, k, m) == (String, k + |s|, L.NumberSign)
  {
    forall i | 0 <= i < |s| ensures text[k + i] == s[i] { AtIndex(text, k, s + " ", i); }
    assert text[k] == '\"' && text[k + |s| - 1] == '\"';
    assert text[k + 1..k + |s| - 1] == s[1..|s| - 1];
    StringRun(text, k + 1, k + |s| - 1);
  }

  lemma FixedReadsBack(text: string, k: nat, t: Token, m: L.MinusState)
    requires Legible(t, m) && !t.kind.Id? && !t.kind.Number? && !t.kind.String? && At(text, k, t.text + " ")
    ensures L.ScanToken(text, k, m) == (t.kind, k + |t.text|, After(t, m))
  {
    AtIndex(text, k, t.text + " ", 0);
    AtIndex(text, k, t.text + " ", 1);
    assert |t.text| == 1 || |t.text| == 2;
  }

  // A legible token followed by a blank is read back, and leaves the minus state `After` says.
  lemma ReadsBack(text: string, k: nat, t: Token, m: L.MinusState)
    requires Legible(t, m) && At(text, k, t.text + " ")
    ensures L.ScanToken(text, k, m) == (t.kind, k + |t.text|, After(t, m))
  {
    hide L.ScanToken;
    match t.kind
    case Id => NameReadsBack(text, k, t.text, m);
    case Number => NumberReadsBack(text, k, t.text, m);
    case String => StringReadsBack(text, k, t.text, m);
    case _ => FixedReadsBack(text, k, t, m);
  }

  // A spelled token is read back as one of its kind if and only if its sign fits.
  lemma ReadsBackExactly(text: string, k: nat, t: Token, m: L.MinusState)
    requires Spelled(t) && At(text, k, t.text + " ")
    ensures L.ScanToken(text, k, m).0 == t.kind <==> SignFits(t, m)
  {
    if SignFits(t, m) {
      ReadsBack(text, k, t, m);
    } else {
      AtIndex(text, k, t.text + " ", 0);
      assert t.text[0] == '-' && text[k] == '-';
    }
  }

  // ---------------------------------------------------------------- one scan

  predicate IsBody(s: L.State) { s.ExpressionBody? || s.StatementBody? }

  function CloseText(s: L.State): string { if s.ExpressionBody? then "}}" else "%}" }

  // How a spelled token with a blank after it may begin.
  lemma TokenBegins(t: Token)
    requires Spelled(t)
    ensures t.text != "" && !L.IsSpace(t.text[0])
    ensures var w := t.text + " "; (w[0] == '}' || w[0] == '%' ==> w[1] == ' ') &&
                                   (w[0] == '-' ==> w[1] != '}' && w[1] != '%')
  {
    if t.kind.Number? && |t.text| > 1 { assert InNumberAt(t.text, 1); }
  }

  // A spelled token is no white space and closes nothing.
  lemma TokenIsNoClose(cfg: L.LexerConfig, text: string, k: nat, t: Token, state: L.State)
    requires Usual(cfg) && IsBody(state) && Spelled(t) && At(text, k, t.text + " ")
    ensures !L.IsSpace(text[k])
    ensures !L.TrimsAt(L.ClosingOf(cfg, state), text, k) && !L.StartsWith(text, k, L.ClosingOf(cfg, state).close)
  {
    TokenBegins(t);
    hide Spelled;
    var w := t.text + " ";
    AtIndex(text, k, w, 0);
    AtIndex(text, k, w, 1);
    if w[0] != '}' { NotAt(text, k, "}}", 0); } else { NotAt(text, k, "}}", 1); }
    if w[0] != '%' { NotAt(text, k, "%}", 0); } else { NotAt(text, k, "%}", 1); }
    if w[0] != '-' { NotAt(text, k, "-}}", 0); NotAt(text, k, "-%}", 0); }
    else { NotAt(text, k, "-}}", 1); NotAt(text, k, "-%}", 1); }
  }

  lemma BodyStartsAt(cl: L.Closing, text: string, pos: nat)
    requires At(text, pos, " ") && pos + 1 < |text|
    requires !L.IsSpace(text[pos + 1]) || L.TrimsAt(cl, text, pos + 1) || L.StartsWith(text, pos + 1, cl.close)
    requires text[pos + 1] != ' ' && text[pos + 1] != '\t' && text[pos + 1] != '\r'
    ensures L.BodyStart(cl, text, pos) == pos + 1
  {
    AtIndex(text, pos, " ", 0);
  }

  lemma AtParts(text: string, k: nat, a: string, b: string)
    requires At(text, k, a + b)
    ensures At(text, k, a) && At(text, k + |a|, b)
  {
    var s := a + b;
    assert text[k..k + |s|][..|a|] == a && text[k..k + |s|][|a|..] == b;
  }

  // Inside a tag, after a blank, the next token is the one that begins there.
  lemma TokenFound(cfg: L.LexerConfig, text: string, lex: L.Lex, t: Token)
    requires Usual(cfg) && IsBody(lex.state) && Spelled(t) && At(text, lex.pos, " " + (t.text + " "))
    ensures lex.pos + 1 < |text| && At(text, lex.pos + 1, t.text + " ")
    ensures var (kind, end, minus) := L.ScanToken(text, lex.pos + 1, lex.minus);
            L.ScanFrom(cfg, text, lex) == (L.Tok(kind, lex.pos + 1, end), L.Lex(lex.state, minus, end))
  {
    AtParts(text, lex.pos, " ", t.text + " ");
    TokenBegins(t);
    TokenIsNoClose(cfg, text, lex.pos + 1, t, lex.state);
    hide Spelled, Usual, L.ScanToken, L.BodyStart, L.TrimsAt, L.ClosingOf, L.ScanText, L.ScanOpen, L.ScanComment;
    BodyStartsAt(L.ClosingOf(cfg, lex.state), text, lex.pos);
  }

  // And a legible token is read back.
  lemma TokenScanned(cfg: L.LexerConfig, text: string, lex: L.Lex, t: Token)
    requires Usual(cfg) && IsBody(lex.state) && Legible(t, lex.minus) && At(text, lex.pos, " " + (t.text + " "))
    ensures var end := lex.pos + 1 + |t.text|;
            L.ScanFrom(cfg, text, lex) ==
            (L.Tok(t.kind, lex.pos + 1, end), L.Lex(lex.state, After(t, lex.minus), end)) &&
            L.Slice(text, lex.pos + 1, end) == t.text && At(text, end, " ")
  {
    TokenFound(cfg, text, lex, t);
    AtParts(text, lex.pos + 1, t.text, " ");
    ReadsBack(text, lex.pos + 1, t, lex.minus);
    hide Legible, After, Usual, L.ScanToken, L.ScanFrom;
  }

  // Where the text goes on after a close.
  function Resume(cfg: L.LexerConfig, text: string, state: L.State, end: nat): nat
    requires end <= |text|
  {
    if state.StatementBody? && cfg.trimBlocks then L.SkipFirstNewline(text, end) else end
  }

  lemma CloseScanned(cfg: L.LexerConfig, text: string, lex: L.Lex)
    requires Usual(cfg) && IsBody(lex.state) && At(text, lex.pos, " " + CloseText(lex.state))
    ensures var end := lex.pos + 3;
            L.ScanFrom(cfg, text, lex) ==
            (L.Tok(L.ClosingOf(cfg, lex.state).kind, lex.pos + 1, end),
             L.Lex(L.InText, lex.minus, Resume(cfg, text, lex.state, end))) &&
            L.Slice(text, lex.pos + 1, end) == CloseText(lex.state)
  {
    var close := CloseText(lex.state);
    AtParts(text, lex.pos, " ", close);
    AtIndex(text, lex.pos + 1, close, 0);
    NotAt(text, lex.pos + 1, "-}}", 0);
    NotAt(text, lex.pos + 1, "-%}", 0);
    hide L.BodyStart, L.ScanText, L.ScanOpen, L.ScanComment, L.SkipFirstNewline, L.ScanToken;
    BodyStartsAt(L.ClosingOf(cfg, lex.state), text, lex.pos);
  }

  // The start state of an opening token.
  function StartOf(open: Kind): L.State { if open.ExpressionOpen? then L.ExpressionStart else L.StatementStart }

  function BodyOf(open: Kind): L.State { if open.ExpressionOpen? then L.ExpressionBody else L.StatementBody }

  function OpenText(open: Kind): string { if open.ExpressionOpen? then "{{" else "{%" }

  predicate IsOpen(k: Kind) { k.ExpressionOpen? || k.StatementOpen? }

  lemma OpeningClassified(cfg: L.LexerConfig, text: string, k: nat, open: Kind)
    requires Usual(cfg) && IsOpen(open) && At(text, k, OpenText(open) + " ")
    ensures L.Classify(cfg, text, k) == Some((StartOf(open), open.StatementOpen? && cfg.lstripBlocks))
    ensures L.OpensAt(cfg, text, k)
  {
    var w := OpenText(open) + " ";
    AtParts(text, k, OpenText(open), " ");
    AtIndex(text, k, w, 0);
    AtIndex(text, k, w, 1);
    AtIndex(text, k, w, 2);
    NotAt(text, k, "{{-", 2);
    NotAt(text, k, "{%-", 2);
    NotAt(text, k, "{%+", 2);
    if open.StatementOpen? { NotAt(text, k, "{{", 1); }
  }

  lemma OpeningOfStart(cfg: L.LexerConfig, open: Kind)
    requires Usual(cfg) && IsOpen(open)
    ensures L.Opening(cfg, StartOf(open)) == (OpenText(open), open, BodyOf(open))
  {
  }

  lemma {:induction false} NothingOpens(cfg: L.LexerConfig, text: string, k: nat, q: nat)
    requires k <= q <= |text| && (forall j :: k <= j < q ==> !L.OpensAt(cfg, text, j))
    requires q < |text| ==> L.OpensAt(cfg, text, q)
    ensures L.FindOpen(cfg, text, k) == q
    decreases q - k
  {
    hide L.OpensAt;
    if k < q { NothingOpens(cfg, text, k + 1, q); }
  }

  // ---------------------------------------------------------------- what is stripped and trimmed

  predicate Blank(c: char) { c == ' ' || c == '\t' }

  predicate LineBreak(c: char) { c == '\n' || c == '\r' }

  predicate Blanks(text: string, a: nat, b: nat) { a <= b <= |text| && forall j :: a <= j < b ==> Blank(text[j]) }

  // Of a text that begins at `from`, `to` is where it ends once a tag at q has stripped it: the blanks before q, if nothing
  // else is on their line; otherwise nothing.
  ghost predicate StrippedTo(text: string, from: nat, to: nat, q: nat) {
    from <= to <= q <= |text| && Blanks(text, to, q) &&
    (to == from || LineBreak(text[to - 1]) ||
     (to == q && exists j :: from <= j < q && !Blank(text[j]) && forall i :: j <= i < q ==> !LineBreak(text[i])))
  }

  // Behind a trimmed close at `end` the text goes on at `next`: behind the blanks up to b and one line break.
  ghost predicate TrimmedTo(text: string, end: nat, b: nat, next: nat) {
    Blanks(text, end, b) && (b < |text| ==> !Blank(text[b])) &&
    if b < |text| && text[b] == '\n' then next == b + 1
    else if b < |text| && text[b] == '\r' then next == if b + 1 < |text| && text[b + 1] == '\n' then b + 2 else b + 1
    else next == b
  }

  // What stands before a tag and is dropped, from `to` to q: of statements if stripping is on, nothing of expressions.
  ghost predicate Strips(cfg: L.LexerConfig, text: string, from: nat, to: nat, q: nat, open: Kind) {
    if open.StatementOpen? && cfg.lstripBlocks then StrippedTo(text, from, to, q) else to == q
  }

  // What stands behind a tag and is dropped, from `end` to `next`.
  ghost predicate Trims(cfg: L.LexerConfig, text: string, end: nat, next: nat, open: Kind) {
    if open.StatementOpen? && cfg.trimBlocks then exists b :: TrimmedTo(text, end, b, next) else next == end
  }

  lemma StripIs(text: string, from: nat, to: nat, q: nat)
    requires StrippedTo(text, from, to, q)
    ensures L.ClearFinalLine(text, from, q, q) == to
  {
    L.ClearFinalLineExactly(text, from, q);
    var line := L.LineBegin(text, from, q);
    if to == from || LineBreak(text[to - 1]) {
      assert forall i :: to <= i < q ==> Blank(text[i]) && !L.IsLineBreak(text[i]);
      assert to > from ==> L.IsLineBreak(text[to - 1]);
    } else {
      var j :| from <= j < q && !Blank(text[j]) && forall i :: j <= i < q ==> !LineBreak(text[i]);
      assert line <= j;
    }
  }

  lemma TrimIs(text: string, end: nat, b: nat, next: nat)
    requires TrimmedTo(text, end, b, next)
    ensures L.SkipFirstNewline(text, end) == next
  {
    L.FirstNewlineExactly(text, end, b);
  }

  // Between tags, with or without text before it, an opening is read as a token of its own. What it strips of a text that
  // it leaves nothing of is part of the token.
  lemma OpenScanned(cfg: L.LexerConfig, text: string, lex: L.Lex, q: nat, open: Kind)
    requires Usual(cfg) && IsOpen(open) && lex.pos <= q && At(text, q, OpenText(open) + " ")
    requires lex.state == L.InText || (lex.state == StartOf(open) && q == lex.pos)
    requires (forall j :: lex.pos <= j < q ==> !L.OpensAt(cfg, text, j)) && Strips(cfg, text, lex.pos, lex.pos, q, open)
    ensures L.ScanFrom(cfg, text, lex) == (L.Tok(open, lex.pos, q + 2), L.Lex(BodyOf(open), lex.minus, q + 2))
    ensures L.Slice(text, lex.pos, q + 2) == text[lex.pos..q] + OpenText(open) && At(text, q + 2, " ")
  {
    AtParts(text, q, OpenText(open), " ");
    OpeningClassified(cfg, text, q, open);
    OpeningOfStart(cfg, open);
    NothingOpens(cfg, text, lex.pos, q);
    if open.StatementOpen? && cfg.lstripBlocks { StripIs(text, lex.pos, lex.pos, q); }
    hide L.Classify, L.Opening, L.OpensAt, L.ScanBody, L.ScanComment, L.FindOpen, L.ClearFinalLine, Usual, Strips;
    assert text[lex.pos..q + 2] == text[lex.pos..q] + text[q..q + 2];
  }

  // A text up to `to`, before a tag at q that strips what is between.
  lemma TextScanned(cfg: L.LexerConfig, text: string, lex: L.Lex, to: nat, q: nat, next: Option<Kind>)
    requires Usual(cfg) && lex.state == L.InText && lex.pos < to <= q <= |text|
    requires forall j :: lex.pos <= j < q ==> !L.OpensAt(cfg, text, j)
    requires match next
             case None => to == q == |text|
             case Some(open) => IsOpen(open) && At(text, q, OpenText(open) + " ") && Strips(cfg, text, lex.pos, to, q, open)
    ensures L.ScanFrom(cfg, text, lex) ==
            (L.Tok(Kind.Text, lex.pos, to), L.Lex(if next.None? then L.InText else StartOf(next.value), lex.minus, q))
  {
    if next.Some? {
      OpeningClassified(cfg, text, q, next.value);
      if next.value.StatementOpen? && cfg.lstripBlocks { StripIs(text, lex.pos, to, q); }
    }
    NothingOpens(cfg, text, lex.pos, q);
    hide L.OpensAt, L.Classify, L.Opening, L.ScanBody, L.ScanComment, L.FindOpen, L.ClearFinalLine, Usual;
  }

  // ---------------------------------------------------------------- whole inputs

  // A token and what is dropped next to it: before a tag opens, behind it closes.
  datatype Piece = Piece(token: Token, extra: string)

  function P(t: Token): Piece { Piece(t, "") }

  // Tokens with nothing that is dropped.
  function Pieces(ts: seq<Token>): (ps: seq<Piece>)
    ensures |ps| == |ts| && forall i :: 0 <= i < |ts| ==> ps[i] == P(ts[i])
  {
    seq(|ts|, i requires 0 <= i < |ts| => P(ts[i]))
  }

  function Tokens(ps: seq<Piece>): (ts: seq<Token>)
    ensures |ps| == |ts| && forall i :: 0 <= i < |ts| ==> ts[i] == ps[i].token
  {
    seq(|ps|, i requires 0 <= i < |ps| => ps[i].token)
  }

  // Pieces as text: inside a tag every token is followed by a blank.
  function Written(p: Piece): string {
    if p.token.kind.Text? then p.token.text
    else if L.IsCloseKind(p.token.kind) then p.token.text + p.extra
    else p.extra + p.token.text + " "
  }

  function Source(ps: seq<Piece>): string {
    if ps == [] then "" else Written(ps[0]) + Source(ps[1..])
  }

  // Between tags (after a text or not), or inside one.
  datatype Mode = Between(afterText: bool) | Within(open: Kind)

  // What is left to lex: after a text what its tag strips has been passed over; a tag's opening leaves its blank behind.
  function Rest(mode: Mode, ps: seq<Piece>): string {
    match mode
    case Within(_) => " " + Source(ps)
    case Between(afterText) =>
      if afterText && ps != [] then ps[0].token.text + " " + Source(ps[1..]) else Source(ps)
  }

  function NextKind(ps: seq<Piece>): Option<Kind> { if ps == [] then None else Some(ps[0].token.kind) }

  // What the next tag strips.
  function NextExtra(ps: seq<Piece>): string { if ps == [] then "" else ps[0].extra }

  ghost predicate Closed(cfg: L.LexerConfig, text: string, from: nat, to: nat) {
    from <= to <= |text| && forall k :: from <= k < to ==> !L.OpensAt(cfg, text, k)
  }

  // The sequences that can be written down. They are sequences of texts and tags, of spelled tokens; texts are not empty
  // and not adjacent, and nothing opens in them; and what is dropped is what stripping and trimming drop.
  ghost predicate Readable(cfg: L.LexerConfig, text: string, pos: nat, mode: Mode, ps: seq<Piece>)
    decreases |ps|
  {
    if ps == [] then mode.Between?
    else
      var t, extra, rest := ps[0].token, ps[0].extra, ps[1..];
      match mode
      case Between(afterText) =>
        if t.kind.Text? then
          var to := pos + |t.text|;
          var q := to + |NextExtra(rest)|;
          !afterText && t.text != "" && extra == "" && Closed(cfg, text, pos, q) &&
          (rest != [] ==> Strips(cfg, text, pos, to, q, rest[0].token.kind)) && Readable(cfg, text, q, Between(true), rest)
        else
          var q := if afterText then pos else pos + |extra|;
          IsOpen(t.kind) && t.text == OpenText(t.kind) &&
          (!afterText ==> Closed(cfg, text, pos, q) && Strips(cfg, text, pos, pos, q, t.kind)) &&
          Readable(cfg, text, q + 2, Within(t.kind), rest)
      case Within(open) =>
        IsOpen(open) &&
        if L.IsCloseKind(t.kind) then
          var end := pos + 3;
          t == Token(L.CloseOf(open), CloseText(BodyOf(open))) && end <= |text| &&
          Trims(cfg, text, end, end + |extra|, open) && Readable(cfg, text, end + |extra|, Between(false), rest)
        else Spelled(t) && extra == "" && Readable(cfg, text, pos + 1 + |t.text|, mode, rest)
  }

  // Whether a token is one of a tag's body.
  predicate IsInner(mode: Mode, t: Token) { mode.Within? && !L.IsCloseKind(t.kind) }

  // All signs fit, the minus state being m before the first token.
  predicate SignsFit(mode: Mode, m: L.MinusState, ts: seq<Token>)
    decreases |ts|
  {
    ts != [] ==>
      (IsInner(mode, ts[0]) ==> SignFits(ts[0], m)) && SignsFit(NextMode(mode, ts[0]), NextMinus(mode, m, ts[0]), ts[1..])
  }

  function StateOf(mode: Mode, ps: seq<Piece>): L.State {
    match mode
    case Between(afterText) => if afterText && ps != [] then StartOf(ps[0].token.kind) else L.InText
    case Within(open) => BodyOf(open)
  }

  // A piece as the lexer shows it: an opening that leaves nothing of the text before it has taken that up.
  function SeenToken(mode: Mode, p: Piece): Token {
    if mode == Between(false) && !p.token.kind.Text? then Token(p.token.kind, p.extra + p.token.text) else p.token
  }

  function Seen(mode: Mode, ps: seq<Piece>): seq<Token>
    decreases |ps|
  {
    if ps == [] then [] else [SeenToken(mode, ps[0])] + Seen(NextMode(mode, ps[0].token), ps[1..])
  }

  // The views of lexer tokens, as the parser sees them.
  function Views(text: string, ts: seq<L.Tok>): seq<Token> {
    if ts == [] then [] else [Token(ts[0].kind, L.Slice(text, ts[0].from, ts[0].to))] + Views(text, ts[1..])
  }

  // Where the lexer stands after the first of the pieces that are left.
  function NextPos(pos: nat, mode: Mode, ps: seq<Piece>): nat
    requires ps != []
  {
    var t, extra := ps[0].token, ps[0].extra;
    match mode
    case Between(afterText) =>
      if t.kind.Text? then pos + |t.text| + |NextExtra(ps[1..])| else if afterText then pos + 2 else pos + |extra| + 2
    case Within(open) => if L.IsCloseKind(t.kind) then pos + 3 + |extra| else pos + 1 + |t.text|
  }

  function NextMode(mode: Mode, t: Token): Mode {
    match mode
    case Between(_) => if t.kind.Text? then Between(true) else Within(t.kind)
    case Within(open) => if L.IsCloseKind(t.kind) then Between(false) else mode
  }

  function NextMinus(mode: Mode, m: L.MinusState, t: Token): L.MinusState {
    if mode.Between? || L.IsCloseKind(t.kind) then m else After(t, m)
  }

  lemma RestOfText(text: string, pos: nat, a: string, b: string)
    requires pos <= |text| && text[pos..] == a + b
    ensures At(text, pos, a) && pos + |a| <= |text| && text[pos + |a|..] == b && text[pos..pos + |a|] == a
  {
    assert text[pos..][..|a|] == a && text[pos..][|a|..] == b;
    assert text[pos..pos + |a|] == text[pos..][..|a|];
  }

  ghost predicate Waits(cfg: L.LexerConfig, text: string, pos: nat, mode: Mode, ps: seq<Piece>) {
    pos <= |text| && text[pos..] == Rest(mode, ps) && Readable(cfg, text, pos, mode, ps) &&
    (mode == Between(true) && ps != [] ==> IsOpen(ps[0].token.kind))
  }

  // One scan takes one token.
  ghost predicate Takes(cfg: L.LexerConfig, text: string, pos: nat, mode: Mode, m: L.MinusState, ps: seq<Piece>)
    requires ps != [] && pos <= |text|
  {
    var t, rest := ps[0].token, ps[1..];
    var (k, next) := L.ScanFrom(cfg, text, L.Lex(StateOf(mode, ps), m, pos));
    k.kind == t.kind && L.Slice(text, k.from, k.to) == SeenToken(mode, ps[0]).text &&
    next == L.Lex(StateOf(NextMode(mode, t), rest), NextMinus(mode, m, t), NextPos(pos, mode, ps)) &&
    Waits(cfg, text, next.pos, NextMode(mode, t), rest)
  }

  // After a text the input ends or a tag opens, behind what it strips.
  lemma OpenAhead(cfg: L.LexerConfig, text: string, to: nat, ps: seq<Piece>)
    requires to <= |text| && text[to..] == Source(ps)
    requires to + |NextExtra(ps)| <= |text| && Readable(cfg, text, to + |NextExtra(ps)|, Between(true), ps)
    requires ps != [] ==> !ps[0].token.kind.Text?
    ensures text[to + |NextExtra(ps)|..] == Rest(Between(true), ps)
    ensures if ps == [] then to == |text|
            else IsOpen(ps[0].token.kind) && At(text, to + |NextExtra(ps)|, OpenText(ps[0].token.kind) + " ")
  {
    hide Source, Rest, At, IsOpen, Strips, Closed;
    if ps == [] {
      NothingWritten();
    } else {
      OpenReadable(cfg, text, to + |NextExtra(ps)|, Between(true), ps);
      hide Readable;
      OpeningAhead(text, to, ps);
    }
  }

  lemma OpeningAhead(text: string, to: nat, ps: seq<Piece>)
    requires to <= |text| && text[to..] == Source(ps) && ps != [] && IsOpen(ps[0].token.kind)
    ensures var q := to + |ps[0].extra|;
            q <= |text| && text[q..] == Rest(Between(true), ps) && At(text, q, ps[0].token.text + " ")
  {
    hide Source, Rest, At, IsOpen;
    var w, extra, more := ps[0].token.text + " ", ps[0].extra, Source(ps[1..]);
    OpeningRest(Between(false), ps);
    OpeningRestAfterText(ps);
    SourceRest(ps);
    ExtraThen(text, to, extra, w, more);
  }

  lemma ExtraThen(text: string, to: nat, extra: string, w: string, more: string)
    requires to <= |text| && text[to..] == extra + (w + more)
    ensures to + |extra| <= |text| && text[to + |extra|..] == w + more && At(text, to + |extra|, w)
  {
    hide At;
    RestOfText(text, to, extra, w + more);
    RestOfText(text, to + |extra|, w, more);
  }

  lemma OpeningRestAfterText(ps: seq<Piece>)
    requires ps != []
    ensures Rest(Between(true), ps) == (ps[0].token.text + " ") + Source(ps[1..])
  {
  }

  lemma SliceIs(text: string, pos: nat, w: string)
    requires At(text, pos, w)
    ensures L.Slice(text, pos, pos + |w|) == w
  {
  }

  lemma TakesText(cfg: L.LexerConfig, text: string, pos: nat, m: L.MinusState, ps: seq<Piece>)
    requires Usual(cfg) && ps != [] && ps[0].token.kind.Text? && Waits(cfg, text, pos, Between(false), ps)
    ensures Takes(cfg, text, pos, Between(false), m, ps)
  {
    hide Usual, L.ScanFrom, Strips, L.Slice;
    var t, rest := ps[0].token, ps[1..];
    var to := pos + |t.text|;
    var q := to + |NextExtra(rest)|;
    assert Source(ps) == t.text + Source(rest);
    assert Readable(cfg, text, q, Between(true), rest) && Closed(cfg, text, pos, q);
    assert rest != [] ==> Strips(cfg, text, pos, to, q, rest[0].token.kind);
    hide Readable, Source, Rest;
    assert text[pos..] == t.text + Source(rest) by { SourceRest(ps); }
    RestOfText(text, pos, t.text, Source(rest));
    SliceIs(text, pos, t.text);
    OpenAhead(cfg, text, to, rest);
    hide At;
    TextScanned(cfg, text, L.Lex(L.InText, m, pos), to, q, NextKind(rest));
  }

  lemma SourceRest(ps: seq<Piece>)
    ensures Rest(Between(false), ps) == Source(ps)
  {
  }

  lemma TakesOpen(cfg: L.LexerConfig, text: string, pos: nat, mode: Mode, m: L.MinusState, ps: seq<Piece>)
    requires Usual(cfg) && mode.Between? && ps != [] && !ps[0].token.kind.Text? && Waits(cfg, text, pos, mode, ps)
    ensures Takes(cfg, text, pos, mode, m, ps)
  {
    hide Usual, L.ScanFrom, Strips, Readable, Closed, Source, Rest, At, L.Slice;
    var t, rest := ps[0].token, ps[1..];
    var before := if mode.afterText then "" else ps[0].extra;
    var q := pos + |before|;
    OpenReadable(cfg, text, pos, mode, ps);
    OpeningHere(text, pos, mode, ps);
    assert forall j :: pos <= j < q ==> !L.OpensAt(cfg, text, j) by { ClosedIs(cfg, text, pos, q); }
    OpenScanned(cfg, text, L.Lex(StateOf(mode, ps), m, pos), q, t.kind);
    RestWithin(t.kind, rest);
    assert text[pos..q] + t.text == SeenToken(mode, ps[0]).text;
  }

  // The text of an opening and what is before it.
  lemma OpeningHere(text: string, pos: nat, mode: Mode, ps: seq<Piece>)
    requires mode.Between? && ps != [] && IsOpen(ps[0].token.kind) && ps[0].token.text == OpenText(ps[0].token.kind)
    requires pos <= |text| && text[pos..] == Rest(mode, ps)
    ensures var before, t := if mode.afterText then "" else ps[0].extra, ps[0].token;
            var q := pos + |before|;
            q + 2 <= |text| && text[pos..q] == before && At(text, q, t.text + " ") && text[q + 2..] == " " + Source(ps[1..])
  {
    var before, t, more := if mode.afterText then "" else ps[0].extra, ps[0].token, Source(ps[1..]);
    OpeningRest(mode, ps);
    hide Source, Rest, At, IsOpen;
    assert |t.text| == 2;
    WordHere(text, pos, before, t.text, more);
  }

  lemma WordHere(text: string, pos: nat, before: string, w: string, more: string)
    requires pos <= |text| && text[pos..] == before + ((w + " ") + more)
    ensures var q := pos + |before|;
            q + |w| <= |text| && text[pos..q] == before && At(text, q, w + " ") && text[q + |w|..] == " " + more
  {
    hide At;
    RestOfText(text, pos, before, (w + " ") + more);
    RestOfText(text, pos + |before|, w + " ", more);
    WordThen(w, more);
    RestOfText(text, pos + |before|, w, " " + more);
  }

  lemma WordThen(w: string, more: string)
    ensures (w + " ") + more == w + (" " + more)
  {
  }

  lemma OpeningRest(mode: Mode, ps: seq<Piece>)
    requires mode.Between? && ps != [] && IsOpen(ps[0].token.kind)
    ensures Rest(mode, ps) == (if mode.afterText then "" else ps[0].extra) + ((ps[0].token.text + " ") + Source(ps[1..]))
  {
    var t, more := ps[0].token, Source(ps[1..]);
    assert ps[0].extra + t.text + " " + more == ps[0].extra + ((t.text + " ") + more);
    assert "" + ((t.text + " ") + more) == t.text + " " + more;
  }

  lemma RestWithin(open: Kind, ps: seq<Piece>)
    ensures Rest(Within(open), ps) == " " + Source(ps)
  {
  }

  lemma ClosedIs(cfg: L.LexerConfig, text: string, from: nat, to: nat)
    requires Closed(cfg, text, from, to)
    ensures forall j :: from <= j < to ==> !L.OpensAt(cfg, text, j)
  {
  }

  // What stands where a tag opens.
  lemma OpenReadable(cfg: L.LexerConfig, text: string, pos: nat, mode: Mode, ps: seq<Piece>)
    requires mode.Between? && ps != [] && !ps[0].token.kind.Text? && pos <= |text| && Readable(cfg, text, pos, mode, ps)
    ensures var t, q := ps[0].token, pos + if mode.afterText then 0 else |ps[0].extra|;
            IsOpen(t.kind) && t.text == OpenText(t.kind) && Closed(cfg, text, pos, q) && Strips(cfg, text, pos, pos, q, t.kind) &&
            Readable(cfg, text, q + 2, Within(t.kind), ps[1..])
  {
    hide Trims, Spelled;
  }

  lemma TakesClose(cfg: L.LexerConfig, text: string, pos: nat, mode: Mode, m: L.MinusState, ps: seq<Piece>)
    requires Usual(cfg) && mode.Within? && ps != [] && L.IsCloseKind(ps[0].token.kind) && Waits(cfg, text, pos, mode, ps)
    ensures Takes(cfg, text, pos, mode, m, ps)
  {
    hide Usual, L.ScanFrom, Readable, Resume, Source, Rest, At, L.Slice, L.ClosingOf, L.CloseOf, CloseText, Closed, Strips, Trims, Spelled;
    var t, extra, rest, state := ps[0].token, ps[0].extra, ps[1..], BodyOf(mode.open);
    CloseReadable(cfg, text, pos, mode, ps);
    RestOfCloseTag(mode, ps);
    RestOfClose(text, pos, t.text, extra, Source(rest));
    CloseScanned(cfg, text, L.Lex(state, m, pos));
    SourceRest(rest);
  }

  // What stands at a close.
  lemma CloseReadable(cfg: L.LexerConfig, text: string, pos: nat, mode: Mode, ps: seq<Piece>)
    requires mode.Within? && ps != [] && L.IsCloseKind(ps[0].token.kind) && Readable(cfg, text, pos, mode, ps)
    ensures var state, t, extra := BodyOf(mode.open), ps[0].token, ps[0].extra;
            t == Token(L.ClosingOf(cfg, state).kind, CloseText(state)) && |t.text| == 2 && IsOpen(mode.open) &&
            pos + 3 <= |text| && Resume(cfg, text, state, pos + 3) == pos + 3 + |extra| &&
            Readable(cfg, text, pos + 3 + |extra|, Between(false), ps[1..])
  {
    hide Closed, Strips, Spelled;
    var end := pos + 3;
    if mode.open.StatementOpen? && cfg.trimBlocks {
      var b :| TrimmedTo(text, end, b, end + |ps[0].extra|);
      TrimIs(text, end, b, end + |ps[0].extra|);
    }
  }

  lemma RestOfCloseTag(mode: Mode, ps: seq<Piece>)
    requires ps != [] && mode.Within? && L.IsCloseKind(ps[0].token.kind)
    ensures Rest(mode, ps) == " " + (ps[0].token.text + (ps[0].extra + Source(ps[1..])))
  {
    SourceFirst(ps);
    hide Source;
    assert (ps[0].token.text + ps[0].extra) + Source(ps[1..]) == ps[0].token.text + (ps[0].extra + Source(ps[1..]));
  }

  lemma SourceFirst(ps: seq<Piece>)
    requires ps != []
    ensures Source(ps) == Written(ps[0]) + Source(ps[1..])
  {
  }

  lemma RestOfClose(text: string, pos: nat, w: string, extra: string, rest: string)
    requires pos <= |text| && text[pos..] == " " + (w + (extra + rest))
    ensures At(text, pos, " " + w) && pos + 1 + |w| + |extra| <= |text| && text[pos + 1 + |w| + |extra|..] == rest
  {
    assert " " + (w + (extra + rest)) == (" " + w) + (extra + rest);
    RestOfText(text, pos, " " + w, extra + rest);
    RestOfText(text, pos + 1 + |w|, extra, rest);
  }

  lemma TakesToken(cfg: L.LexerConfig, text: string, pos: nat, mode: Mode, m: L.MinusState, ps: seq<Piece>)
    requires Usual(cfg) && ps != [] && IsInner(mode, ps[0].token) && SignFits(ps[0].token, m) && Waits(cfg, text, pos, mode, ps)
    ensures Takes(cfg, text, pos, mode, m, ps)
  {
    hide Usual, L.ScanFrom, Spelled, SignFits, Source;
    var t, rest := ps[0].token, ps[1..];
    assert Legible(t, m) && ps[0].extra == "" && Readable(cfg, text, pos + 1 + |t.text|, mode, rest) && IsOpen(mode.open);
    hide Readable, After, Legible;
    NoTextIsSpelled(t);
    RestOfTag(mode, ps);
    RestOfToken(text, pos, t.text, Source(rest));
    TokenScanned(cfg, text, L.Lex(BodyOf(mode.open), m, pos), t);
  }

  lemma RestOfTag(mode: Mode, ps: seq<Piece>)
    requires ps != [] && IsInner(mode, ps[0].token) && !ps[0].token.kind.Text? && ps[0].extra == ""
    ensures Rest(mode, ps) == " " + ((ps[0].token.text + " ") + Source(ps[1..]))
  {
    SourceFirst(ps);
    hide Source;
    assert "" + ps[0].token.text + " " == ps[0].token.text + " ";
  }

  lemma RestOfToken(text: string, pos: nat, w: string, rest: string)
    requires pos <= |text| && text[pos..] == " " + ((w + " ") + rest)
    ensures At(text, pos, " " + (w + " ")) && pos + 1 + |w| <= |text| && text[pos + 1 + |w|..] == " " + rest
  {
    assert " " + ((w + " ") + rest) == (" " + (w + " ")) + rest;
    assert " " + ((w + " ") + rest) == (" " + w) + (" " + rest);
    RestOfText(text, pos, " " + (w + " "), rest);
    RestOfText(text, pos, " " + w, " " + rest);
  }

  lemma NoTextIsSpelled(t: Token)
    requires Spelled(t)
    ensures !t.kind.Text? && !t.kind.Eof?
  {
  }

  lemma OneTaken(cfg: L.LexerConfig, text: string, pos: nat, mode: Mode, m: L.MinusState, ps: seq<Piece>)
    requires Usual(cfg) && ps != [] && Waits(cfg, text, pos, mode, ps)
    requires IsInner(mode, ps[0].token) ==> SignFits(ps[0].token, m)
    ensures Takes(cfg, text, pos, mode, m, ps) && !ps[0].token.kind.Eof?
  {
    hide Usual, Takes, Spelled, SignFits, Strips, Trims, Closed;
    if mode.Between? {
      if ps[0].token.kind.Text? { TakesText(cfg, text, pos, m, ps); } else { TakesOpen(cfg, text, pos, mode, m, ps); }
    } else if L.IsCloseKind(ps[0].token.kind) {
      TakesClose(cfg, text, pos, mode, m, ps);
    } else {
      NoTextIsSpelled(ps[0].token);
      TakesToken(cfg, text, pos, mode, m, ps);
    }
  }

  // A sign that does not fit is read as something else.
  lemma SignMistaken(cfg: L.LexerConfig, text: string, pos: nat, mode: Mode, m: L.MinusState, ps: seq<Piece>)
    requires Usual(cfg) && ps != [] && IsInner(mode, ps[0].token) && !SignFits(ps[0].token, m) && Waits(cfg, text, pos, mode, ps)
    ensures L.ScanFrom(cfg, text, L.Lex(StateOf(mode, ps), m, pos)).0.kind != ps[0].token.kind
  {
    hide Usual, L.ScanFrom, L.ScanToken, SignFits, At, Strips, Trims, Closed;
    var t, rest := ps[0].token, ps[1..];
    assert Spelled(t) && IsOpen(mode.open) && ps[0].extra == "";
    hide Readable;
    NoTextIsSpelled(t);
    hide Spelled, Source;
    RestOfTag(mode, ps);
    RestOfToken(text, pos, t.text, Source(rest));
    TokenFound(cfg, text, L.Lex(BodyOf(mode.open), m, pos), t);
    ReadsBackExactly(text, pos + 1, t, m);
  }

  // The views of the tokens from a state on begin with the one scanned there.
  lemma ViewsStep(cfg: L.LexerConfig, text: string, lex: L.Lex)
    requires L.Sane(cfg) && L.Inv(cfg, text, lex)
    ensures var (k, next) := L.ScanFrom(cfg, text, lex);
            L.GoodScan(cfg, text, lex, k, next) &&
            Views(text, L.Tokens(cfg, text, lex)) ==
            [Token(k.kind, L.Slice(text, k.from, k.to))] + if k.kind.Eof? then [] else Views(text, L.Tokens(cfg, text, next))
  {
    hide L.Sane, L.ScanFrom, L.Tokens, L.Slice, L.Spaces;
    L.TokensStep(cfg, text, lex);
    var (k, next) := L.ScanFrom(cfg, text, lex);
    if k.kind.Eof? {
      assert L.Tokens(cfg, text, lex)[1..] == [];
    } else {
      assert L.Tokens(cfg, text, lex)[1..] == L.Tokens(cfg, text, next);
    }
  }

  function AllButLast(ts: seq<Token>): seq<Token> { if ts == [] then [] else ts[..|ts| - 1] }

  // From every state: the tokens before the end are the written ones if and only if all signs fit.
  lemma {:induction false} LexesFrom(cfg: L.LexerConfig, text: string, pos: nat, mode: Mode, m: L.MinusState, ps: seq<Piece>)
    requires Usual(cfg) && Waits(cfg, text, pos, mode, ps)
    requires L.Inv(cfg, text, L.Lex(StateOf(mode, ps), m, pos))
    ensures var views := Views(text, L.Tokens(cfg, text, L.Lex(StateOf(mode, ps), m, pos)));
            views != [] && (AllButLast(views) == Seen(mode, ps) <==> SignsFit(mode, m, Tokens(ps)))
    decreases |ps|
  {
    hide Usual, L.Sane, L.Inv, L.ScanFrom, L.Tokens, L.Spaces, Views, Seen, SignsFit, SignFits, Tokens, Waits, AllButLast;
    var lex := L.Lex(StateOf(mode, ps), m, pos);
    ViewsStep(cfg, text, lex);
    if ps == [] {
      NothingWaits(cfg, text, pos, mode);
      L.EndIsEof(cfg, text, lex);
      NothingLeft(mode, m);
      var views := Views(text, L.Tokens(cfg, text, lex));
      assert views == [views[0]];
    } else {
      var t := ps[0].token;
      SeenFirst(mode, ps);
      SignsFirst(mode, m, ps);
      if IsInner(mode, t) && !SignFits(t, m) {
        SignMistaken(cfg, text, pos, mode, m, ps);
        OtherHead(Views(text, L.Tokens(cfg, text, lex)), Seen(mode, ps));
      } else {
        OneTaken(cfg, text, pos, mode, m, ps);
        assert pos <= |text| by { WaitsInside(cfg, text, pos, mode, ps); }
        var (k, next) := L.ScanFrom(cfg, text, lex);
        LexesFrom(cfg, text, next.pos, NextMode(mode, t), next.minus, ps[1..]);
        SameHead(SeenToken(mode, ps[0]), Views(text, L.Tokens(cfg, text, next)), Seen(mode, ps));
      }
    }
  }

  lemma WaitsInside(cfg: L.LexerConfig, text: string, pos: nat, mode: Mode, ps: seq<Piece>)
    requires Waits(cfg, text, pos, mode, ps)
    ensures pos <= |text|
  {
  }

  lemma NothingWaits(cfg: L.LexerConfig, text: string, pos: nat, mode: Mode)
    requires Waits(cfg, text, pos, mode, [])
    ensures pos == |text| && mode.Between?
  {
  }

  lemma NothingLeft(mode: Mode, m: L.MinusState)
    ensures Seen(mode, []) == [] && SignsFit(mode, m, Tokens([])) && forall t :: AllButLast([t]) == []
  {
  }

  lemma SeenFirst(mode: Mode, ps: seq<Piece>)
    requires ps != []
    ensures var seen := Seen(mode, ps);
            seen != [] && seen[0] == SeenToken(mode, ps[0]) && seen[1..] == Seen(NextMode(mode, ps[0].token), ps[1..]) &&
            seen[0].kind == ps[0].token.kind
  {
  }

  lemma SignsFirst(mode: Mode, m: L.MinusState, ps: seq<Piece>)
    requires ps != []
    ensures SignsFit(mode, m, Tokens(ps)) <==>
            (IsInner(mode, ps[0].token) ==> SignFits(ps[0].token, m)) &&
            SignsFit(NextMode(mode, ps[0].token), NextMinus(mode, m, ps[0].token), Tokens(ps[1..]))
  {
    hide SignFits, NextMinus;
    assert Tokens(ps)[1..] == Tokens(ps[1..]);
  }

  lemma OtherHead(views: seq<Token>, ts: seq<Token>)
    requires views != [] && ts != [] && views[0].kind != ts[0].kind
    ensures AllButLast(views) != ts
  {
  }

  lemma SameHead(t: Token, views: seq<Token>, ts: seq<Token>)
    requires views != [] && ts != [] && ts[0] == t
    ensures AllButLast([t] + views) == ts <==> AllButLast(views) == ts[1..]
  {
    assert AllButLast([t] + views) == [t] + AllButLast(views);
    assert ([t] + AllButLast(views))[1..] == AllButLast(views);
    assert ts == [t] + ts[1..];
  }

  // What the parser is given for an input: the views of all tokens before the end.
  function Lexed(cfg: L.LexerConfig, text: string): seq<Token>
    requires L.Sane(cfg)
  {
    AllButLast(Views(text, L.Tokens(cfg, text, L.BEGIN)))
  }

  lemma {:induction false} BracketedIsInput(text: string, w: L.Side, ts: seq<L.Tok>)
    requires L.Bracketed(w, ts)
    ensures var toks := AllButLast(Views(text, ts));
            G.IsInput(toks) && (w.Inside? && toks != [] ==> !G.Starts(toks[0].kind))
    decreases |ts|
  {
    if !ts[0].kind.Eof? {
      var w' := if w.Inside? then (if ts[0].kind == L.CloseOf(w.open) then L.Outside else w)
                else if ts[0].kind.Text? then w else L.Inside(ts[0].kind);
      BracketedIsInput(text, w', ts[1..]);
      var first, rest := Views(text, ts)[0], AllButLast(Views(text, ts[1..]));
      assert AllButLast(Views(text, ts)) == [first] + rest;
      assert first.kind.Id? ==> w.Inside? && w' == w;
      forall i, j | 0 <= i < j < |rest| + 1 && j == i + 1 && ([first] + rest)[i].kind.Id?
        ensures !G.Starts(([first] + rest)[j].kind)
      {
        if i > 0 { assert rest[i - 1].kind.Id? && !G.Starts(rest[j - 1].kind); }
      }
    }
  }

  // Every text is lexed to what the theorems about accepted templates ask for.
  lemma LexedIsInput(cfg: L.LexerConfig, text: string)
    requires L.Sane(cfg)
    ensures G.IsInput(Lexed(cfg, text))
  {
    L.TagsAreBracketed(cfg, text, L.BEGIN);
    BracketedIsInput(text, L.Outside, L.Tokens(cfg, text, L.BEGIN));
  }

  ghost predicate Writable(cfg: L.LexerConfig, ps: seq<Piece>) {
    Readable(cfg, Source(ps), 0, Between(false), ps)
  }

  // At the start of an input a minus is a sign.
  predicate Signed(ts: seq<Token>) { SignsFit(Between(false), L.NumberSign, ts) }

  // Writing pieces down and lexing the text gives their tokens back if and only if all signs fit. (An opening that strips
  // all of the text before it shows with what it has stripped.)
  lemma TokensRoundTrip(cfg: L.LexerConfig, ps: seq<Piece>)
    requires Usual(cfg) && Writable(cfg, ps)
    ensures Lexed(cfg, Source(ps)) == Seen(Between(false), ps) <==> Signed(Tokens(ps))
  {
    hide Usual, L.Sane, Readable;
    var text := Source(ps);
    assert text[0..] == text;
    LexesFrom(cfg, text, 0, Between(false), L.NumberSign, ps);
  }

  lemma {:induction false} PlainSeen(mode: Mode, ts: seq<Token>)
    ensures Seen(mode, Pieces(ts)) == ts && Tokens(Pieces(ts)) == ts
    decreases |ts|
  {
    if ts != [] {
      PlainSeen(NextMode(mode, ts[0]), ts[1..]);
      assert Pieces(ts)[1..] == Pieces(ts[1..]);
      assert "" + ts[0].text == ts[0].text;
    }
  }

  // With nothing stripped or trimmed the tokens themselves.
  lemma PlainRoundTrip(cfg: L.LexerConfig, ts: seq<Token>)
    requires Usual(cfg) && Writable(cfg, Pieces(ts))
    ensures Lexed(cfg, Source(Pieces(ts))) == ts <==> Signed(ts)
  {
    hide Usual, Writable, Signed, Lexed, Source;
    TokensRoundTrip(cfg, Pieces(ts));
    PlainSeen(Between(false), ts);
  }

  // From a template tree to its text, through the lexer and the statement parser, back to the tree and to no other:
  // also where a tag strips the blanks before it, or a line break behind it is trimmed.
  lemma TemplateRoundTrip(cfg: L.LexerConfig, env: S.Environment, ss: seq<T.Stmt>, ps: seq<Piece>, lit: seq<Token>)
    requires Usual(cfg) && Tokens(ps) == T.PrintStmts(ss) && Writable(cfg, ps) && Signed(T.PrintStmts(ss))
    requires T.WellFormed(env, ss) && T.Distinct(T.Names(ss))
    ensures var r := S.ParseInto(env, S.Start(Lexed(cfg, Source(ps)), lit));
            r.Ok? && r.value.current == S.Root && r.value.ifs == r.value.fors == r.value.blocks == [] &&
            forall tt :: T.Represents(r.value.h, r.value.h.root, tt, 0, |r.value.h.cells|) <==> tt == ss
  {
    hide Usual, L.Sane, Signed, T.Represents, S.ParseInto, T.WellFormed, T.Distinct;
    TokensRoundTrip(cfg, ps);
    SeenIsReopened(cfg, Source(ps), 0, Between(false), ps);
    Y.RoundTripReopened(env, ss, Lexed(cfg, Source(ps)), lit);
  }

  // What is seen of the pieces differs from their tokens in the texts of openings only.
  lemma {:induction false} SeenIsReopened(cfg: L.LexerConfig, text: string, pos: nat, mode: Mode, ps: seq<Piece>)
    requires Readable(cfg, text, pos, mode, ps)
    ensures Y.SameButOpenings(Tokens(ps), Seen(mode, ps))
    decreases |ps|
  {
    hide Y.SameButOpenings;
    if ps == [] {
      NothingReopened(mode);
    } else {
      ReadableRest(cfg, text, pos, mode, ps);
      hide Readable;
      SeenIsReopened(cfg, text, NextPos(pos, mode, ps), NextMode(mode, ps[0].token), ps[1..]);
      assert Tokens(ps) == [ps[0].token] + Tokens(ps[1..]);
      OneReopened(mode, ps[0], Tokens(ps[1..]), Seen(NextMode(mode, ps[0].token), ps[1..]));
    }
  }

  lemma NothingReopened(mode: Mode)
    ensures Y.SameButOpenings(Tokens([]), Seen(mode, []))
  {
  }

  lemma ReadableRest(cfg: L.LexerConfig, text: string, pos: nat, mode: Mode, ps: seq<Piece>)
    requires ps != [] && Readable(cfg, text, pos, mode, ps)
    ensures Readable(cfg, text, NextPos(pos, mode, ps), NextMode(mode, ps[0].token), ps[1..])
    ensures mode.Between? ==> ps[0].token.kind.Text? || IsOpen(ps[0].token.kind)
  {
    hide Closed, Strips, Trims, Spelled;
  }

  lemma OneReopened(mode: Mode, p: Piece, ts: seq<Token>, seen: seq<Token>)
    requires Y.SameButOpenings(ts, seen) && (mode.Between? ==> p.token.kind.Text? || IsOpen(p.token.kind))
    ensures Y.SameButOpenings([p.token] + ts, [SeenToken(mode, p)] + seen)
  {
  }

  // No two template trees have the same text, whatever is stripped and trimmed of it.
  lemma SourceIsInjective(cfg: L.LexerConfig, env: S.Environment, ss: seq<T.Stmt>, ps: seq<Piece>, tt: seq<T.Stmt>, qs: seq<Piece>)
    requires Usual(cfg) && Writable(cfg, ps) && Tokens(ps) == T.PrintStmts(ss) && Writable(cfg, qs) && Tokens(qs) == T.PrintStmts(tt)
    requires Signed(T.PrintStmts(ss)) && Signed(T.PrintStmts(tt))
    requires T.WellFormed(env, ss) && T.Distinct(T.Names(ss)) && T.WellFormed(env, tt) && T.Distinct(T.Names(tt))
    requires Source(ps) == Source(qs)
    ensures ss == tt
  {
    hide Usual, L.Sane, Writable, Signed, T.Represents, S.ParseInto, T.WellFormed, T.Distinct, Source, Lexed;
    TemplateRoundTrip(cfg, env, ss, ps, []);
    TemplateRoundTrip(cfg, env, tt, qs, []);
    var h := S.ParseInto(env, S.Start(Lexed(cfg, Source(ps)), [])).value.h;
    assert T.Represents(h, h.root, ss, 0, |h.cells|);
  }

  lemma {:induction false} SameSource(a: seq<Piece>, b: seq<Piece>)
    requires |a| == |b| && forall i :: 0 <= i < |a| ==> Written(a[i]) == Written(b[i])
    ensures Source(a) == Source(b)
  {
    if a != [] { SameSource(a[1..], b[1..]); }
  }

  // Tokens one after the other.
  lemma PiecesOf(t: Token, ts: seq<Token>)
    ensures Pieces([t] + ts) == [P(t)] + Pieces(ts) && Pieces([]) == []
    ensures Source(Pieces([t] + ts)) == Written(P(t)) + Source(Pieces(ts))
  {
    assert Pieces([t] + ts) == [P(t)] + Pieces(ts);
    assert ([P(t)] + Pieces(ts))[1..] == Pieces(ts);
  }

  // What can be written in an output, piece by piece.
  lemma InnerReadable(cfg: L.LexerConfig, text: string, pos: nat, t: Token, ts: seq<Token>)
    requires Spelled(t) && !L.IsCloseKind(t.kind) && Readable(cfg, text, pos + 1 + |t.text|, Within(ExpressionOpen), Pieces(ts))
    ensures Readable(cfg, text, pos, Within(ExpressionOpen), Pieces([t] + ts))
  {
    hide Spelled, Source, Pieces, Strips, Closed;
    PiecesOf(t, ts);
    assert ([P(t)] + Pieces(ts))[1..] == Pieces(ts);
  }

  lemma OutputCloses(cfg: L.LexerConfig, text: string, pos: nat, ts: seq<Token>)
    requires pos + 3 <= |text| && Readable(cfg, text, pos + 3, Between(false), Pieces(ts))
    ensures Readable(cfg, text, pos, Within(ExpressionOpen), Pieces([T.EXPR_CLOSE] + ts))
  {
    hide Spelled, Source, Pieces, Strips, Closed, TrimmedTo;
    PiecesOf(T.EXPR_CLOSE, ts);
    assert ([P(T.EXPR_CLOSE)] + Pieces(ts))[1..] == Pieces(ts);
  }

  lemma OutputOpens(cfg: L.LexerConfig, text: string, pos: nat, ts: seq<Token>)
    requires pos <= |text| && Readable(cfg, text, pos + 2, Within(ExpressionOpen), Pieces(ts))
    ensures Readable(cfg, text, pos, Between(false), Pieces([T.EXPR_OPEN] + ts))
  {
    hide Spelled, Source, Pieces, Trims, StrippedTo;
    PiecesOf(T.EXPR_OPEN, ts);
    assert ([P(T.EXPR_OPEN)] + Pieces(ts))[1..] == Pieces(ts);
  }

  lemma NothingReadable(cfg: L.LexerConfig, text: string, pos: nat)
    ensures Readable(cfg, text, pos, Between(false), Pieces([]))
  {
  }

  // `{{ -5 - 3 }}`, whether the lone minus is taken for an operator or for a number.
  function LoneMinus(lone: Token): seq<Token> {
    [T.EXPR_OPEN] + ([Token(Number, "-5")] + ([lone] + ([Token(Number, "3")] + ([T.EXPR_CLOSE] + []))))
  }

  lemma LoneMinusText(lone: Token)
    requires lone == Token(Number, "-") || lone == Token(Minus, "-")
    ensures |Source(Pieces(LoneMinus(lone)))| == 12
  {
    hide Source, Pieces;
    var one := [T.EXPR_CLOSE] + [];
    var two := [Token(Number, "3")] + one;
    var three := [lone] + two;
    var four := [Token(Number, "-5")] + three;
    PiecesOf(T.EXPR_CLOSE, []);
    PiecesOf(Token(Number, "3"), one);
    PiecesOf(lone, two);
    PiecesOf(Token(Number, "-5"), three);
    PiecesOf(T.EXPR_OPEN, four);
    assert Source([]) == "" by { NothingWritten(); }
    assert |Written(P(T.EXPR_CLOSE))| == 2 && |Written(P(Token(Number, "3")))| == 2 && |Written(P(lone))| == 2;
    assert |Written(P(Token(Number, "-5")))| == 3 && |Written(P(T.EXPR_OPEN))| == 3;
  }

  lemma NothingWritten()
    ensures Source([]) == "" && Rest(Between(false), []) == Rest(Between(true), []) == ""
  {
  }

  lemma LoneMinusIsWritable(cfg: L.LexerConfig, lone: Token)
    requires lone == Token(Number, "-") || lone == Token(Minus, "-")
    ensures Writable(cfg, Pieces(LoneMinus(lone)))
  {
    TheseAreNumbers();
    hide Source, Pieces, Readable, IsNumber;
    LoneMinusText(lone);
    var text := Source(Pieces(LoneMinus(lone)));
    var one := [T.EXPR_CLOSE] + [];
    var two := [Token(Number, "3")] + one;
    var three := [lone] + two;
    NothingReadable(cfg, text, 12);
    OutputCloses(cfg, text, 9, []);
    InnerReadable(cfg, text, 7, Token(Number, "3"), one);
    InnerReadable(cfg, text, 5, lone, two);
    InnerReadable(cfg, text, 2, Token(Number, "-5"), three);
    OutputOpens(cfg, text, 0, [Token(Number, "-5")] + three);
  }

  lemma TheseAreNumbers()
    ensures IsNumber("-5") && IsNumber("-") && IsNumber("3")
  {
  }

  lemma LoneMinusIsSigned(lone: Token)
    requires lone == Token(Number, "-") || lone == Token(Minus, "-")
    ensures Signed(LoneMinus(lone)) == lone.kind.Number?
  {
    var one := [T.EXPR_CLOSE] + [];
    var two := [Token(Number, "3")] + one;
    var three := [lone] + two;
    var four := [Token(Number, "-5")] + three;
    assert LoneMinus(lone)[1..] == four && four[1..] == three && three[1..] == two && two[1..] == one && one[1..] == [];
    var within := Within(ExpressionOpen);
    assert SignsFit(within, L.Operator, one);
    assert SignsFit(within, L.NumberSign, two);
    assert SignsFit(within, L.NumberSign, three) == lone.kind.Number?;
    assert SignsFit(within, L.NumberSign, four) == lone.kind.Number?;
  }

  // After a negative number a minus is read as the sign of the next one: `-5 - 3` is three numbers, and written as a
  // difference it does not come back.
  lemma MinusAfterNegative(cfg: L.LexerConfig)
    requires Usual(cfg)
    ensures var (minus, read) := (LoneMinus(Token(Minus, "-")), LoneMinus(Token(Number, "-")));
            Writable(cfg, Pieces(minus)) && !Signed(minus) && Lexed(cfg, Source(Pieces(minus))) == read
  {
    hide Usual, L.Sane, Writable, Signed, Lexed, Source;
    var (minus, read) := (LoneMinus(Token(Minus, "-")), LoneMinus(Token(Number, "-")));
    SameSource(Pieces(minus), Pieces(read));
    LoneMinusIsWritable(cfg, Token(Minus, "-"));
    LoneMinusIsWritable(cfg, Token(Number, "-"));
    LoneMinusIsSigned(Token(Minus, "-"));
    LoneMinusIsSigned(Token(Number, "-"));
    PlainRoundTrip(cfg, read);
  }

  // `{{ -5 }}`, and `{{ a }}` before other tokens.
  function Negative(): seq<Token> { [T.EXPR_OPEN] + ([Token(Number, "-5")] + ([T.EXPR_CLOSE] + [])) }

  function AfterName(ts: seq<Token>): seq<Token> { [T.EXPR_OPEN] + ([Token(Id, "a")] + ([T.EXPR_CLOSE] + ts)) }

  // `{{ a }}{{ -5 }}`: what a minus is depends on the last token of the tag before, too.
  lemma MinusAfterTag(cfg: L.LexerConfig)
    requires Usual(cfg)
    ensures Writable(cfg, Pieces(Negative())) && Signed(Negative())
    ensures var ts := AfterName(Negative());
            Writable(cfg, Pieces(ts)) && !Signed(ts) && Lexed(cfg, Source(Pieces(ts))) != ts
  {
    hide Source, Readable, SignsFit, Usual, Lexed, Negative, AfterName;
    var ts := AfterName(Negative());
    TwoOutputsText();
    NegativeIsReadable(cfg, Source(Pieces(ts)), 7);
    NegativeIsReadable(cfg, Source(Pieces(Negative())), 0);
    NameThen(cfg, Source(Pieces(ts)), Negative());
    PlainRoundTrip(cfg, ts);
  }

  // One name in a tag of its own, before another tag.
  lemma NameThen(cfg: L.LexerConfig, text: string, ts: seq<Token>)
    requires |text| >= 7 && Readable(cfg, text, 7, Between(false), Pieces(ts))
    ensures Readable(cfg, text, 0, Between(false), Pieces(AfterName(ts)))
    ensures SignsFit(Between(false), L.NumberSign, AfterName(ts)) == SignsFit(Between(false), L.Operator, ts)
  {
    hide IsName, Source, Pieces, Readable;
    ThisIsAName();
    var within, one := Within(ExpressionOpen), [T.EXPR_CLOSE] + ts;
    var two := [Token(Id, "a")] + one;
    OutputCloses(cfg, text, 4, ts);
    InnerReadable(cfg, text, 2, Token(Id, "a"), one);
    OutputOpens(cfg, text, 0, two);
    assert one[1..] == ts && two[1..] == one && AfterName(ts)[1..] == two;
    assert SignsFit(within, L.Operator, one) == SignsFit(Between(false), L.Operator, ts);
    assert SignsFit(within, L.NumberSign, two) == SignsFit(within, L.Operator, one);
  }

  lemma ThisIsAName()
    ensures IsName("a")
  {
  }

  lemma TwoOutputsText()
    ensures |Source(Pieces(Negative()))| == 8 && |Source(Pieces(AfterName(Negative())))| == 15
  {
    hide Source, Pieces;
    var one := [T.EXPR_CLOSE] + [];
    var two := [Token(Number, "-5")] + one;
    var three := [T.EXPR_CLOSE] + Negative();
    PiecesOf(T.EXPR_CLOSE, []);
    PiecesOf(Token(Number, "-5"), one);
    PiecesOf(T.EXPR_OPEN, two);
    PiecesOf(T.EXPR_CLOSE, Negative());
    PiecesOf(Token(Id, "a"), three);
    PiecesOf(T.EXPR_OPEN, [Token(Id, "a")] + three);
    NothingWritten();
    assert |Written(P(T.EXPR_CLOSE))| == 2 && |Written(P(Token(Number, "-5")))| == 3 && |Written(P(Token(Id, "a")))| == 2;
    assert |Written(P(T.EXPR_OPEN))| == 3;
  }

  // One negative number in a tag of its own.
  lemma NegativeIsReadable(cfg: L.LexerConfig, text: string, pos: nat)
    requires pos + 8 <= |text|
    ensures Readable(cfg, text, pos, Between(false), Pieces(Negative()))
    ensures SignsFit(Between(false), L.NumberSign, Negative()) && !SignsFit(Between(false), L.Operator, Negative())
  {
    hide IsNumber, Source, Pieces, Readable;
    TheseAreNumbers();
    var within, one := Within(ExpressionOpen), [T.EXPR_CLOSE] + [];
    var two := [Token(Number, "-5")] + one;
    NothingReadable(cfg, text, pos + 8);
    OutputCloses(cfg, text, pos + 5, []);
    InnerReadable(cfg, text, pos + 2, Token(Number, "-5"), one);
    OutputOpens(cfg, text, pos, two);
    assert one[1..] == [] && two[1..] == one && Negative()[1..] == two;
    assert SignsFit(within, L.NumberSign, one);
    assert SignsFit(within, L.NumberSign, two);
  }

  // ---------------------------------------------------------------- a template with dropped line breaks and blanks

  // An if on lines of its own, with a text of one line in it.
  function IfLines(): seq<Piece> { IfLine(TextLine(EndifLine())) }

  function IfLine(ps: seq<Piece>): seq<Piece> {
    [P(T.OPEN)] + ([P(Token(Id, "if"))] + ([P(Token(Id, "x"))] + ([Piece(T.CLOSE, "\n")] + ps)))
  }

  function TextLine(ps: seq<Piece>): seq<Piece> { [P(Token(Kind.Text, "A\n"))] + ps }

  function EndifLine(): seq<Piece> { [Piece(T.OPEN, "  ")] + ([P(Token(Id, "endif"))] + ([P(T.CLOSE)] + [])) }

  const LINES := "{% if x %}\nA\n  {% endif %}"

  lemma PieceFirst(p: Piece, ps: seq<Piece>)
    ensures ([p] + ps)[1..] == ps && Source([p] + ps) == Written(p) + Source(ps)
  {
    SourceFirst([p] + ps);
    assert ([p] + ps)[1..] == ps;
  }

  lemma LinesText()
    ensures Source(IfLines()) == LINES
  {
    hide IfLine, TextLine, EndifLine, Source;
    var tail := TextLine(EndifLine());
    IfLineText(tail);
    EndifLineText();
    assert "A\n" + "  {% endif %}" == "A\n  {% endif %}";
    assert "{% if x %}\n" + "A\n  {% endif %}" == LINES;
  }

  lemma EndifLineText()
    ensures Source(EndifLine()) == "  {% endif %}" && Source(TextLine(EndifLine())) == "A\n" + "  {% endif %}"
  {
    hide Source;
    var one := [P(T.CLOSE)] + [];
    NothingWritten();
    PieceFirst(P(T.CLOSE), []);
    PieceFirst(P(Token(Id, "endif")), one);
    PieceFirst(Piece(T.OPEN, "  "), [P(Token(Id, "endif"))] + one);
    PieceFirst(P(Token(Kind.Text, "A\n")), EndifLine());
    assert "  " + "{%" + " " == "  {% " && "" + "endif" + " " == "endif " && "%}" + "" == "%}";
    assert "  {% " + ("endif " + ("%}" + "")) == "  {% endif %}";
  }

  lemma IfLineText(ps: seq<Piece>)
    ensures Source(IfLine(ps)) == "{% if x %}\n" + Source(ps)
  {
    hide Source;
    var a := [Piece(T.CLOSE, "\n")] + ps;
    var b := [P(Token(Id, "x"))] + a;
    PieceFirst(Piece(T.CLOSE, "\n"), ps);
    PieceFirst(P(Token(Id, "x")), a);
    PieceFirst(P(Token(Id, "if")), b);
    PieceFirst(P(T.OPEN), [P(Token(Id, "if"))] + b);
    assert "" + "{%" + " " == "{% " && "" + "if" + " " == "if " && "" + "x" + " " == "x " && "%}" + "\n" == "%}\n";
    assert "{% " + ("if " + ("x " + ("%}\n" + Source(ps)))) == "{% if x %}\n" + Source(ps);
  }

  lemma LinesCharacters()
    ensures |LINES| == 26 && LINES[10] == '\n' && LINES[11] == 'A' && LINES[12] == '\n' && LINES[13] == LINES[14] == ' '
  {
  }

  // Nothing opens at a character that no opening begins with.
  lemma NothingOpensHere(cfg: L.LexerConfig, text: string, k: nat)
    requires Usual(cfg) && cfg.lineStatement == "##" && k < |text| && text[k] != '{' && text[k] != '#'
    ensures !L.OpensAt(cfg, text, k)
  {
    NotAt(text, k, "{{", 0);
    NotAt(text, k, "{%", 0);
    NotAt(text, k, "{#", 0);
    NotAt(text, k, "##", 0);
  }

  lemma WordsAreNames()
    ensures IsName("if") && IsName("x") && IsName("endif")
  {
  }

  // One piece before others that can be written.
  lemma TokenStep(cfg: L.LexerConfig, text: string, pos: nat, open: Kind, t: Token, ps: seq<Piece>)
    requires IsOpen(open) && Spelled(t) && !L.IsCloseKind(t.kind) && Readable(cfg, text, pos + 1 + |t.text|, Within(open), ps)
    ensures Readable(cfg, text, pos, Within(open), [P(t)] + ps)
  {
    hide Spelled, Strips, Closed, Trims;
    assert ([P(t)] + ps)[1..] == ps;
  }

  lemma CloseStep(cfg: L.LexerConfig, text: string, pos: nat, extra: string, ps: seq<Piece>)
    requires pos + 3 <= |text| && Trims(cfg, text, pos + 3, pos + 3 + |extra|, StatementOpen)
    requires Readable(cfg, text, pos + 3 + |extra|, Between(false), ps)
    ensures Readable(cfg, text, pos, Within(StatementOpen), [Piece(T.CLOSE, extra)] + ps)
  {
    hide Spelled, Strips, Closed, Trims;
    assert ([Piece(T.CLOSE, extra)] + ps)[1..] == ps;
  }

  lemma OpenStep(cfg: L.LexerConfig, text: string, pos: nat, extra: string, afterText: bool, ps: seq<Piece>)
    requires afterText || (extra == "" && pos <= |text| && Strips(cfg, text, pos, pos, pos, StatementOpen))
    requires Readable(cfg, text, pos + 2, Within(StatementOpen), ps)
    ensures Readable(cfg, text, pos, Between(afterText), [Piece(T.OPEN, extra)] + ps)
  {
    hide Spelled, Strips, Trims;
    assert ([Piece(T.OPEN, extra)] + ps)[1..] == ps;
  }

  lemma TextStep(cfg: L.LexerConfig, text: string, pos: nat, w: string, ps: seq<Piece>)
    requires w != "" && ps != [] && var q := pos + |w| + |ps[0].extra|;
             Closed(cfg, text, pos, q) && Strips(cfg, text, pos, pos + |w|, q, ps[0].token.kind) &&
             Readable(cfg, text, q, Between(true), ps)
    ensures Readable(cfg, text, pos, Between(false), [P(Token(Kind.Text, w))] + ps)
  {
    hide Spelled, Strips, Closed, Trims;
    assert ([P(Token(Kind.Text, w))] + ps)[1..] == ps;
  }

  lemma EndifLineReadable(cfg: L.LexerConfig, text: string)
    requires cfg.trimBlocks && |text| == 26
    ensures Readable(cfg, text, 15, Between(true), EndifLine())
  {
    hide IsName, Readable;
    WordsAreNames();
    NothingReadable(cfg, text, 26);
    assert TrimmedTo(text, 26, 26, 26);
    CloseStep(cfg, text, 23, "", Pieces([]));
    TokenStep(cfg, text, 17, StatementOpen, Token(Id, "endif"), [P(T.CLOSE)] + []);
    OpenStep(cfg, text, 15, "  ", true, [P(Token(Id, "endif"))] + ([P(T.CLOSE)] + []));
  }

  // The line break behind the if is trimmed and the blanks before the endif are stripped: the text in it is one line, and
  // what is lexed are the tokens of the tags and that line.
  lemma LinesAreDropped(cfg: L.LexerConfig)
    requires Usual(cfg) && cfg.lineStatement == "##" && cfg.trimBlocks && cfg.lstripBlocks
    ensures Source(IfLines()) == LINES && Writable(cfg, IfLines())
    ensures Lexed(cfg, LINES) == [T.OPEN, Token(Id, "if"), Token(Id, "x"), T.CLOSE, Token(Kind.Text, "A\n"),
                                  T.OPEN, Token(Id, "endif"), T.CLOSE]
  {
    LinesText();
    LinesReadable(cfg);
    hide Readable, Usual, Source, Lexed;
    TokensRoundTrip(cfg, IfLines());
    LinesSeen();
  }

  lemma LinesReadable(cfg: L.LexerConfig)
    requires Usual(cfg) && cfg.lineStatement == "##" && cfg.trimBlocks && cfg.lstripBlocks
    ensures Readable(cfg, LINES, 0, Between(false), IfLines())
  {
    hide IfLine, TextLine, EndifLine, Readable, L.OpensAt, Usual;
    LinesCharacters();
    forall k | 11 <= k < 15 ensures !L.OpensAt(cfg, LINES, k) { NothingOpensHere(cfg, LINES, k); }
    EndifLineReadable(cfg, LINES);
    BodyReadable(cfg, LINES);
    IfLineReadable(cfg, LINES, TextLine(EndifLine()));
  }

  lemma IfLineReadable(cfg: L.LexerConfig, text: string, ps: seq<Piece>)
    requires cfg.trimBlocks && cfg.lstripBlocks && |text| == 26 && text[10] == '\n'
    requires Readable(cfg, text, 11, Between(false), ps)
    ensures Readable(cfg, text, 0, Between(false), IfLine(ps))
  {
    hide IsName, Readable;
    WordsAreNames();
    var a := [Piece(T.CLOSE, "\n")] + ps;
    var b := [P(Token(Id, "x"))] + a;
    assert TrimmedTo(text, 10, 10, 11);
    CloseStep(cfg, text, 7, "\n", ps);
    TokenStep(cfg, text, 5, StatementOpen, Token(Id, "x"), a);
    TokenStep(cfg, text, 2, StatementOpen, Token(Id, "if"), b);
    assert StrippedTo(text, 0, 0, 0);
    OpenStep(cfg, text, 0, "", false, [P(Token(Id, "if"))] + b);
  }

  lemma BodyReadable(cfg: L.LexerConfig, text: string)
    requires cfg.lstripBlocks && |text| == 26 && text[11] == 'A' && text[12] == '\n' && text[13] == ' ' && text[14] == ' '
    requires (forall k :: 11 <= k < 15 ==> !L.OpensAt(cfg, text, k)) && Readable(cfg, text, 15, Between(true), EndifLine())
    ensures Readable(cfg, text, 11, Between(false), TextLine(EndifLine()))
  {
    hide Readable, L.OpensAt;
    EndifLineBegins();
    assert StrippedTo(text, 11, 13, 15);
    TextStep(cfg, text, 11, "A\n", EndifLine());
  }

  lemma EndifLineBegins()
    ensures EndifLine() != [] && EndifLine()[0] == Piece(T.OPEN, "  ")
  {
  }

  lemma SeenStep(mode: Mode, p: Piece, ps: seq<Piece>)
    ensures Seen(mode, [p] + ps) == [SeenToken(mode, p)] + Seen(NextMode(mode, p.token), ps)
    ensures Tokens([p] + ps) == [p.token] + Tokens(ps)
  {
    hide SeenToken, NextMode;
    assert ([p] + ps)[1..] == ps;
  }

  lemma EndifLineSeen()
    ensures var toks := [Token(Kind.Text, "A\n"), T.OPEN, Token(Id, "endif"), T.CLOSE];
            Seen(Between(false), TextLine(EndifLine())) == toks && Tokens(TextLine(EndifLine())) == toks
  {
    hide Seen, Tokens;
    var one := [P(T.CLOSE)] + [];
    SeenStep(Within(StatementOpen), P(T.CLOSE), []);
    SeenStep(Within(StatementOpen), P(Token(Id, "endif")), one);
    SeenStep(Between(true), Piece(T.OPEN, "  "), [P(Token(Id, "endif"))] + one);
    SeenStep(Between(false), P(Token(Kind.Text, "A\n")), EndifLine());
    NothingSeen();
  }

  lemma IfLineSeen(ps: seq<Piece>)
    ensures var toks := [T.OPEN, Token(Id, "if"), Token(Id, "x"), T.CLOSE];
            Seen(Between(false), IfLine(ps)) == toks + Seen(Between(false), ps) && Tokens(IfLine(ps)) == toks + Tokens(ps)
  {
    hide Seen, Tokens, SeenToken, NextMode, L.IsCloseKind;
    var within := Within(StatementOpen);
    var a := [Piece(T.CLOSE, "\n")] + ps;
    var b := [P(Token(Id, "x"))] + a;
    SeenTokens();
    SeenStep(within, Piece(T.CLOSE, "\n"), ps);
    SeenStep(within, P(Token(Id, "x")), a);
    SeenStep(within, P(Token(Id, "if")), b);
    SeenStep(Between(false), P(T.OPEN), [P(Token(Id, "if"))] + b);
  }

  lemma SeenTokens()
    ensures var within := Within(StatementOpen);
            SeenToken(Between(false), P(T.OPEN)) == T.OPEN && NextMode(Between(false), T.OPEN) == within &&
            SeenToken(within, P(Token(Id, "if"))) == Token(Id, "if") && NextMode(within, Token(Id, "if")) == within &&
            SeenToken(within, P(Token(Id, "x"))) == Token(Id, "x") && NextMode(within, Token(Id, "x")) == within &&
            SeenToken(within, Piece(T.CLOSE, "\n")) == T.CLOSE && NextMode(within, T.CLOSE) == Between(false)
  {
    assert "" + "{%" == "{%";
  }

  lemma NothingSeen()
    ensures Seen(Between(false), []) == [] && Tokens([]) == []
  {
  }

  lemma LinesSeen()
    ensures var toks := [T.OPEN, Token(Id, "if"), Token(Id, "x"), T.CLOSE, Token(Kind.Text, "A\n"),
                         T.OPEN, Token(Id, "endif"), T.CLOSE];
            Signed(Tokens(IfLines())) && Seen(Between(false), IfLines()) == toks
  {
    hide Seen, Tokens, SignsFit, TextLine, IfLine, EndifLine;
    EndifLineSeen();
    IfLineSeen(TextLine(EndifLine()));
    NoSigns(Between(false), L.NumberSign, Tokens(IfLines()));
  }

  lemma {:induction false} NoSigns(mode: Mode, m: L.MinusState, ts: seq<Token>)
    requires forall t <- ts :: !t.kind.Minus? && !t.kind.Number?
    ensures SignsFit(mode, m, ts)
    decreases |ts|
  {
    if ts != [] { NoSigns(NextMode(mode, ts[0]), NextMinus(mode, m, ts[0]), ts[1..]); }
  }
}
