// The tags of a template tree: printing a tree writes them down, they are well nested, and every well-nested sequence
// of tags is that of some tree.
module InjaReading {
  import opened Wrappers
  import opened InjaSyntax
  import opened InjaStatement
  import opened InjaTags
  import opened InjaNesting
  import T = InjaTemplate
  import X = InjaExpression

  // ---------------------------------------------------------------- the tags of a tree

  function StmtsTags(ss: seq<T.Stmt>): seq<Tag>
    decreases ss, 0
  {
    if ss == [] then [] else StmtTags(ss[0]) + StmtsTags(ss[1..])
  }

  function StmtTags(s: T.Stmt): seq<Tag>
    decreases s, 1
  {
    match s
    case If(_, thn, els) => [IfTag] + StmtsTags(thn) + ElseTags(els) + [EndifTag]
    case For(_, _, _, body) => [ForTag] + StmtsTags(body) + [EndforTag]
    case Block(_, inner) => [BlockTag] + StmtsTags(inner) + [EndblockTag]
    case _ => [LeafTag]
  }

  function ElseTags(els: T.Else): seq<Tag>
    decreases els, 0
  {
    match els
    case NoElse => []
    case ElseBlock(ss) => [ElseTag] + StmtsTags(ss)
    case ElseIf(_, thn, more) => [ElseIfTag] + StmtsTags(thn) + ElseTags(more)
  }

  // ---------------------------------------------------------------- printed templates

  // Tokens that may stand inside a tag.
  ghost predicate Silent(ts: seq<Token>) {
    forall t <- ts :: !Starts(t.kind) && !t.kind.Eof?
  }

  lemma {:induction false} ClosingIsSilent(text: seq<Token>, bracket: nat, brace: nat)
    requires X.ClosesLiteral(text, bracket, brace)
    ensures Silent(text)
    decreases |text|
  {
    var (b, c) := X.Depth(text[0], bracket, brace);
    assert text == [text[0]] + text[1..];
    if b == 0 && c == 0 { assert text[1..] == []; } else { ClosingIsSilent(text[1..], b, c); }
  }

  lemma LiteralIsSilent(text: seq<Token>)
    requires X.LiteralText(text)
    ensures Silent(text)
  {
    assert text == [text[0]] + text[1..];
    if |text| > 1 {
      if text[0].kind.LeftBracket? { ClosingIsSilent(text[1..], 1, 0); } else { ClosingIsSilent(text[1..], 0, 1); }
    }
  }

  lemma SilentJoins(a: seq<Token>, b: seq<Token>)
    requires Silent(a) && Silent(b)
    ensures Silent(a + b)
  {
  }

  lemma {:induction false} PrintIsSilent(cfg: Config, e: Expr, level: nat)
    requires X.Printable(cfg, e)
    ensures Silent(X.Print(e, level))
    decreases e, 1
  {
    hide Silent, X.PrintBare;
    BareIsSilent(cfg, e);
    ParenthesesAreSilent();
    SilentJoins([X.LP], X.PrintBare(e));
    SilentJoins([X.LP] + X.PrintBare(e), [X.RP]);
  }

  lemma ParenthesesAreSilent()
    ensures Silent([X.LP]) && Silent([X.RP]) && Silent([X.COMMA]) && Silent([])
  {
  }

  lemma WordsAreSilent(n: string)
    ensures Silent([Token(Id, n)]) && Silent([Token(Id, n), X.LP])
    ensures forall op :: IsBinary(op) || op.Not? ==> Silent([X.OperatorToken(op)])
  {
  }

  lemma {:induction false} BareIsSilent(cfg: Config, e: Expr)
    requires X.Printable(cfg, e)
    ensures Silent(X.PrintBare(e))
    decreases e, 0
  {
    hide Silent, X.Print, X.PrintArgs;
    match e
    case Literal(text) => LiteralIsSilent(text);
    case Data(name) => WordsAreSilent(name);
    case Function(op, name, args) =>
      WordsAreSilent(name);
      ParenthesesAreSilent();
      if !X.IsOperator(e) {
        ArgsAreSilent(cfg, args);
        SilentJoins([Token(Id, name), X.LP], X.PrintArgs(args));
        SilentJoins([Token(Id, name), X.LP] + X.PrintArgs(args), [X.RP]);
      } else if op.Not? {
        PrintIsSilent(cfg, args[0], X.RightLevel(op));
        SilentJoins([X.OperatorToken(op)], X.Print(args[0], X.RightLevel(op)));
      } else {
        PrintIsSilent(cfg, args[0], X.LeftLevel(op));
        PrintIsSilent(cfg, args[1], X.RightLevel(op));
        SilentJoins(X.Print(args[0], X.LeftLevel(op)), [X.OperatorToken(op)]);
        SilentJoins(X.Print(args[0], X.LeftLevel(op)) + [X.OperatorToken(op)], X.Print(args[1], X.RightLevel(op)));
      }
  }

  lemma {:induction false} ArgsAreSilent(cfg: Config, args: seq<Expr>)
    requires forall a <- args :: X.Printable(cfg, a)
    ensures Silent(X.PrintArgs(args))
    decreases args, 2
  {
    hide Silent, X.Print;
    ParenthesesAreSilent();
    if args != [] {
      PrintIsSilent(cfg, args[0], 0);
      ArgsAreSilent(cfg, args[1..]);
      SilentJoins([X.COMMA], X.PrintArgs(args[1..]));
      SilentJoins(X.Print(args[0], 0), if |args| == 1 then [] else [X.COMMA] + X.PrintArgs(args[1..]));
    }
  }

  // Before `rest` the tokens `ts` are input, and their tags are `tags`.
  ghost predicate Spells(ts: seq<Token>, tags: seq<Tag>, rest: seq<Token>) {
    (IsInput(ts + rest) <==> IsInput(rest)) && Tags(ts + rest) == tags + Tags(rest)
  }

  lemma SpellsJoin(a: seq<Token>, s: seq<Tag>, b: seq<Token>, t: seq<Tag>, rest: seq<Token>)
    requires Spells(a, s, b + rest) && Spells(b, t, rest)
    ensures Spells(a + b, s + t, rest)
  {
    assert a + b + rest == a + (b + rest);
  }

  lemma SilentToken(t: Token, rest: seq<Token>)
    requires !Starts(t.kind) && !t.kind.Eof? && (t.kind.Id? && rest != [] ==> !Starts(rest[0].kind))
    ensures Spells([t], [], rest)
  {
    InputPlus(t, rest);
    assert ([t] + rest)[1..] == rest;
  }

  lemma {:induction false} SilentSpells(ts: seq<Token>, rest: seq<Token>)
    requires Silent(ts) && (ts != [] && ts[|ts| - 1].kind.Id? && rest != [] ==> !Starts(rest[0].kind))
    ensures Spells(ts, [], rest)
    decreases |ts|
  {
    if ts == [] {
      assert ts + rest == rest;
    } else {
      hide Spells;
      assert ts[0] in ts;
      assert |ts| > 1 ==> ts[1] in ts && (ts[1..] + rest)[0] == ts[1];
      SilentSpells(ts[1..], rest);
      SilentToken(ts[0], ts[1..] + rest);
      SpellsJoin([ts[0]], [], ts[1..], [], rest);
      assert [ts[0]] + ts[1..] == ts;
    }
  }

  lemma InputPlus(t: Token, rest: seq<Token>)
    requires !t.kind.Eof? && (t.kind.Id? && rest != [] ==> !Starts(rest[0].kind))
    ensures IsInput([t] + rest) == IsInput(rest)
  {
    var toks := [t] + rest;
    assert forall u :: u in toks <==> u == t || u in rest;
    if IsInput(rest) {
      forall i, j | 0 <= i < j < |toks| && j == i + 1 && toks[i].kind.Id? ensures !Starts(toks[j].kind) {
        if i > 0 { assert rest[i - 1] == toks[i] && rest[j - 1] == toks[j]; }
      }
    }
    if IsInput(toks) {
      forall i, j | 0 <= i < j < |rest| && j == i + 1 && rest[i].kind.Id? ensures !Starts(rest[j].kind) {
        assert toks[i + 1] == rest[i] && toks[j + 1] == rest[j];
      }
    }
  }

  // A token with which something begins.
  lemma StartSpells(t: Token, rest: seq<Token>)
    requires Starts(t.kind)
    ensures Spells([t], [TagOf([t] + rest)], rest)
  {
    hide TagOf;
    InputPlus(t, rest);
    assert ([t] + rest)[1..] == rest;
  }

  // A printed tag, whose body begins with its keyword.
  lemma TagSpells(body: seq<Token>, tag: Tag, rest: seq<Token>)
    requires Silent(body) && TagAt(body + ([T.CLOSE] + rest)) == tag
    ensures Spells(T.Tag(body), [tag], rest)
  {
    hide TagAt, Spells, Silent;
    assert Silent([T.CLOSE]) by { CloseIsSilent(); }
    SilentSpells([T.CLOSE], rest);
    SilentSpells(body, [T.CLOSE] + rest);
    SpellsJoin(body, [], [T.CLOSE], [], rest);
    assert body + [T.CLOSE] + rest == body + ([T.CLOSE] + rest);
    StartSpells(T.OPEN, body + [T.CLOSE] + rest);
    assert ([T.OPEN] + (body + [T.CLOSE] + rest))[1..] == body + [T.CLOSE] + rest;
    SpellsJoin([T.OPEN], [tag], body + [T.CLOSE], [], rest);
    assert T.Tag(body) == [T.OPEN] + (body + [T.CLOSE]);
    assert [tag] + ([] + []) == [tag];
  }

  lemma CloseIsSilent()
    ensures Silent([T.CLOSE]) && Silent([T.EXPR_CLOSE])
  {
  }

  // The tag of a keyword, read off the first two tokens.
  lemma TagRead(words: seq<Token>, more: seq<Token>)
    requires words != [] && (KeywordOf(words[0]) == KwElse ==> |words| > 1 || more != [])
    ensures TagAt(words + more) == TagAt(words + if |words| > 1 || more == [] then [] else [more[0]])
  {
    var short := words + if |words| > 1 || more == [] then [] else [more[0]];
    assert (words + more)[0] == short[0];
    if |words + more| > 1 { assert (words + more)[1..][0] == short[1..][0]; }
  }

  // A tag with an expression at its end.
  lemma CondSpells(env: Environment, words: seq<Token>, e: Expr, tag: Tag, rest: seq<Token>)
    requires X.Printable(env.expr, e) && Silent(words) && |words| > 1 && TagAt(words) == tag
    ensures Spells(T.Tag(words + X.Print(e, 0)), [tag], rest)
  {
    hide TagAt, Spells, Silent;
    PrintIsSilent(env.expr, e, 0);
    SilentJoins(words, X.Print(e, 0));
    var body := words + X.Print(e, 0);
    var after := X.Print(e, 0) + ([T.CLOSE] + rest);
    assert body + ([T.CLOSE] + rest) == words + after;
    TagRead(words, after);
    assert words + [] == words;
    TagSpells(body, tag, rest);
  }

  // An if tag has only one word before its condition.
  lemma IfSpells(env: Environment, e: Expr, rest: seq<Token>)
    requires X.Printable(env.expr, e)
    ensures Spells(T.IfTag(e), [IfTag], rest)
  {
    hide Spells;
    PrintIsSilent(env.expr, e, 0);
    SilentJoins([T.Word("if")], X.Print(e, 0));
    var body := [T.Word("if")] + X.Print(e, 0);
    assert (body + ([T.CLOSE] + rest))[0] == T.Word("if");
    TagSpells(body, IfTag, rest);
  }

  // A tag of one or two words.
  lemma WordsSpell(words: seq<Token>, tag: Tag, rest: seq<Token>)
    requires Silent(words) && words != [] && TagAt(words + if |words| > 1 then [] else [T.CLOSE]) == tag
    ensures Spells(T.Tag(words), [tag], rest)
  {
    hide TagAt, Spells;
    TagRead(words, [T.CLOSE] + rest);
    TagSpells(words, tag, rest);
  }

  // The tags of words, one by one.
  lemma ClosingWords()
    ensures Silent([T.Word("endfor")]) && TagAt([T.Word("endfor")] + [T.CLOSE]) == EndforTag
    ensures Silent([T.Word("endif")]) && TagAt([T.Word("endif")] + [T.CLOSE]) == EndifTag
    ensures Silent([T.Word("endblock")]) && TagAt([T.Word("endblock")] + [T.CLOSE]) == EndblockTag
  {
  }

  lemma OpeningWords()
    ensures Silent([T.Word("else")]) && TagAt([T.Word("else")] + [T.CLOSE]) == ElseTag
    ensures Silent([T.Word("else"), T.Word("if")]) && TagAt([T.Word("else"), T.Word("if")]) == ElseIfTag
    ensures forall name :: Silent([T.Word("block"), T.Word(name)]) && TagAt([T.Word("block"), T.Word(name)]) == BlockTag
  {
  }

  lemma ForWords(key: Option<string>, value: string)
    ensures var words := [T.Word("for")] + T.ForVars(key) + [T.Word(value), T.Word("in")];
            Silent(words) && TagAt(words) == ForTag
  {
  }

  lemma SetWords(target: string)
    ensures var words := [T.Word("set"), T.Word(target), Token(Unknown, "=")]; Silent(words) && TagAt(words) == LeafTag
  {
  }

  lemma FileWords(file: Token)
    requires file.kind.String?
    ensures var words := [T.Word("include"), file]; Silent(words) && TagAt(words + []) == LeafTag
    ensures var words := [T.Word("extends"), file]; Silent(words) && TagAt(words + []) == LeafTag
  {
    assert [T.Word("include"), file] + [] == [T.Word("include"), file];
    assert [T.Word("extends"), file] + [] == [T.Word("extends"), file];
  }

  lemma {:induction false} StmtsSpell(env: Environment, ss: seq<T.Stmt>, rest: seq<Token>)
    requires T.WellFormed(env, ss)
    ensures Spells(T.PrintStmts(ss), StmtsTags(ss), rest)
    decreases ss, 0
  {
    hide Spells, T.PrintStmt, T.WellFormedStmt, StmtTags;
    if ss == [] {
      SilentSpells([], rest);
    } else {
      StmtSpells(env, ss[0], T.PrintStmts(ss[1..]) + rest);
      StmtsSpell(env, ss[1..], rest);
      SpellsJoin(T.PrintStmt(ss[0]), StmtTags(ss[0]), T.PrintStmts(ss[1..]), StmtsTags(ss[1..]), rest);
    }
  }

  lemma {:induction false} StmtSpells(env: Environment, s: T.Stmt, rest: seq<Token>)
    requires T.WellFormedStmt(env, s)
    ensures Spells(T.PrintStmt(s), StmtTags(s), rest)
    decreases s, 1
  {
    hide Spells, T.PrintStmt, T.WellFormedStmt, StmtTags;
    match s
    case If(_, _, _) => BranchSpells(env, s, rest);
    case For(_, _, _, _) => ForSpells(env, s, rest);
    case Block(_, _) => BlockSpells(env, s, rest);
    case _ => LeafSpells(env, s, rest);
  }

  lemma OutputSpells(env: Environment, e: Expr, rest: seq<Token>)
    requires X.Printable(env.expr, e)
    ensures Spells([T.EXPR_OPEN] + X.Print(e, 0) + [T.EXPR_CLOSE], [LeafTag], rest)
  {
    hide X.Print, Spells, Silent;
    var inner := X.Print(e, 0);
    PrintIsSilent(env.expr, e, 0);
    CloseIsSilent();
    SilentSpells(inner, [T.EXPR_CLOSE] + rest);
    SilentSpells([T.EXPR_CLOSE], rest);
    SpellsJoin(inner, [], [T.EXPR_CLOSE], [], rest);
    StartSpells(T.EXPR_OPEN, inner + [T.EXPR_CLOSE] + rest);
    SpellsJoin([T.EXPR_OPEN], [LeafTag], inner + [T.EXPR_CLOSE], [] + [], rest);
    assert [T.EXPR_OPEN] + (inner + [T.EXPR_CLOSE]) == [T.EXPR_OPEN] + inner + [T.EXPR_CLOSE];
    assert [LeafTag] + ([] + []) == [LeafTag];
  }

  lemma LeafSpells(env: Environment, s: T.Stmt, rest: seq<Token>)
    requires T.WellFormedStmt(env, s) && !s.If? && !s.For? && !s.Block?
    ensures Spells(T.PrintStmt(s), StmtTags(s), rest)
  {
    hide X.Print, T.Tag, Silent, TagAt, Spells;
    match s
    case Text(text) => StartSpells(Token(Kind.Text, text), rest);
    case Output(e) => OutputSpells(env, e, rest);
    case Set(target, e) =>
      SetWords(target);
      CondSpells(env, [T.Word("set"), T.Word(target), Token(Unknown, "=")], e, LeafTag, rest);
    case Include(file) =>
      FileWords(Token(String, "\"" + file + "\""));
      WordsSpell([T.Word("include"), Token(String, "\"" + file + "\"")], LeafTag, rest);
    case Extends(file) =>
      FileWords(Token(String, "\"" + file + "\""));
      WordsSpell([T.Word("extends"), Token(String, "\"" + file + "\"")], LeafTag, rest);
  }

  // What stands between two tags.
  lemma Framed(open: seq<Token>, o: Tag, body: seq<Token>, tags: seq<Tag>, close: seq<Token>, c: Tag, rest: seq<Token>)
    requires Spells(open, [o], body + close + rest) && Spells(body, tags, close + rest) && Spells(close, [c], rest)
    ensures Spells(open + body + close, [o] + tags + [c], rest)
  {
    hide Spells;
    assert open + body + (close + rest) == open + (body + close + rest) && body + (close + rest) == body + close + rest;
    SpellsJoin(open, [o], body, tags, close + rest);
    SpellsJoin(open + body, [o] + tags, close, [c], rest);
  }

  lemma {:induction false} BranchSpells(env: Environment, s: T.Stmt, rest: seq<Token>)
    requires s.If? && T.WellFormedStmt(env, s)
    ensures Spells(T.PrintStmt(s), StmtTags(s), rest)
    decreases s, 0
  {
    hide Spells, T.PrintStmts, T.PrintElse, T.WellFormed, T.WellFormedElse, X.Print, T.IfTag, T.Tag, StmtsTags, ElseTags, Silent, TagAt;
    var thn, els, end := T.PrintStmts(s.thn), T.PrintElse(s.els), T.Tag([T.Word("endif")]);
    ClosingWords();
    WordsSpell([T.Word("endif")], EndifTag, rest);
    ElseSpells(env, s.els, end + rest);
    assert els + end + rest == els + (end + rest);
    StmtsSpell(env, s.thn, els + (end + rest));
    SpellsJoin(thn, StmtsTags(s.thn), els, ElseTags(s.els), end + rest);
    IfSpells(env, s.cond, thn + els + end + rest);
    Framed(T.IfTag(s.cond), IfTag, thn + els, StmtsTags(s.thn) + ElseTags(s.els), end, EndifTag, rest);
    assert T.PrintStmt(s) == T.IfTag(s.cond) + (thn + els) + end;
    assert StmtTags(s) == [IfTag] + (StmtsTags(s.thn) + ElseTags(s.els)) + [EndifTag];
  }

  lemma {:induction false} ForSpells(env: Environment, s: T.Stmt, rest: seq<Token>)
    requires s.For? && T.WellFormedStmt(env, s)
    ensures Spells(T.PrintStmt(s), StmtTags(s), rest)
    decreases s, 0
  {
    hide Spells, T.PrintStmts, T.WellFormed, X.Print, T.Tag, Silent, TagAt, T.ForVars, StmtsTags;
    var body, end := T.PrintStmts(s.body), T.Tag([T.Word("endfor")]);
    var words := [T.Word("for")] + T.ForVars(s.key) + [T.Word(s.value), T.Word("in")];
    ClosingWords();
    WordsSpell([T.Word("endfor")], EndforTag, rest);
    StmtsSpell(env, s.body, end + rest);
    ForWords(s.key, s.value);
    CondSpells(env, words, s.over, ForTag, body + end + rest);
    Framed(T.ForTag(s.key, s.value, s.over), ForTag, body, StmtsTags(s.body), end, EndforTag, rest);
  }

  lemma {:induction false} BlockSpells(env: Environment, s: T.Stmt, rest: seq<Token>)
    requires s.Block? && T.WellFormedStmt(env, s)
    ensures Spells(T.PrintStmt(s), StmtTags(s), rest)
    decreases s, 0
  {
    hide Spells, T.PrintStmts, T.WellFormed, T.Tag, Silent, TagAt, StmtsTags;
    var words := [T.Word("block"), T.Word(s.name)];
    var body, end := T.PrintStmts(s.inner), T.Tag([T.Word("endblock")]);
    ClosingWords();
    OpeningWords();
    WordsSpell([T.Word("endblock")], EndblockTag, rest);
    StmtsSpell(env, s.inner, end + rest);
    assert words + [] == words;
    WordsSpell(words, BlockTag, body + end + rest);
    Framed(T.Tag(words), BlockTag, body, StmtsTags(s.inner), end, EndblockTag, rest);
  }

  lemma {:induction false} ElseSpells(env: Environment, els: T.Else, rest: seq<Token>)
    requires T.WellFormedElse(env, els)
    ensures Spells(T.PrintElse(els), ElseTags(els), rest)
    decreases els, 1
  {
    hide Spells, T.PrintStmts, T.WellFormed, X.Print, T.Tag, Silent, TagAt, StmtsTags;
    OpeningWords();
    match els
    case NoElse => SilentSpells([], rest) by { assert Silent([]) by { ParenthesesAreSilent(); } }
    case ElseBlock(ss) =>
      StmtsSpell(env, ss, rest);
      WordsSpell([T.Word("else")], ElseTag, T.PrintStmts(ss) + rest);
      SpellsJoin(T.Tag([T.Word("else")]), [ElseTag], T.PrintStmts(ss), StmtsTags(ss), rest);
    case ElseIf(_, _, _) => ElseIfSpells(env, els, rest);
  }

  lemma {:induction false} ElseIfSpells(env: Environment, els: T.Else, rest: seq<Token>)
    requires els.ElseIf? && T.WellFormedElse(env, els)
    ensures Spells(T.PrintElse(els), ElseTags(els), rest)
    decreases els, 0
  {
    hide Spells, T.PrintStmts, T.WellFormed, X.Print, T.Tag, Silent, TagAt, StmtsTags;
    var thn, more := T.PrintStmts(els.thn), T.PrintElse(els.els);
    OpeningWords();
    ElseSpells(env, els.els, rest);
    StmtsSpell(env, els.thn, more + rest);
    SpellsJoin(thn, StmtsTags(els.thn), more, ElseTags(els.els), rest);
    CondSpells(env, [T.Word("else"), T.Word("if")], els.cond, ElseIfTag, thn + more + rest);
    SpellsJoin(T.ElseIfTag(els.cond), [ElseIfTag], thn + more, StmtsTags(els.thn) + ElseTags(els.els), rest);
    assert T.PrintElse(els) == T.ElseIfTag(els.cond) + (thn + more);
    assert ElseTags(els) == [ElseIfTag] + (StmtsTags(els.thn) + ElseTags(els.els));
  }

  // Printing a tree writes down its tags.
  lemma PrintedTags(env: Environment, ss: seq<T.Stmt>)
    requires T.WellFormed(env, ss)
    ensures IsInput(T.PrintStmts(ss)) && Tags(T.PrintStmts(ss)) == StmtsTags(ss)
  {
    StmtsSpell(env, ss, []);
    assert T.PrintStmts(ss) + [] == T.PrintStmts(ss) && Tags([]) == [] && IsInput([]);
  }

  // ---------------------------------------------------------------- trees nest

  lemma NestLeaf(frames: seq<Frame>)
    ensures Nest(frames, LeafTag) == Some(frames)
  {
  }

  lemma NestOpens(frames: seq<Frame>)
    ensures Nest(frames, IfTag) == Some(frames + [InIf(false, 0)])
    ensures Nest(frames, ForTag) == Some(frames + [InFor]) && Nest(frames, BlockTag) == Some(frames + [InBlock])
  {
  }

  lemma NestPops(frames: seq<Frame>)
    ensures Nest(frames + [InFor], EndforTag) == Nest(frames + [InBlock], EndblockTag) == Some(frames)
  {
    assert (frames + [InFor])[..|frames|] == (frames + [InBlock])[..|frames|] == frames;
  }

  lemma NestIf(frames: seq<Frame>, n: nat)
    ensures Nest(frames + [InIf(false, n)], EndifTag) == Nest(frames + [InIf(true, n)], EndifTag) == Some(frames)
    ensures Nest(frames + [InIf(false, n)], ElseTag) == Some(frames + [InIf(true, n)])
    ensures Nest(frames + [InIf(false, n)], ElseIfTag) == Some(frames + [InIf(false, n + 1)])
  {
    assert (frames + [InIf(false, n)])[..|frames|] == (frames + [InIf(true, n)])[..|frames|] == frames;
  }

  lemma NestedOne(frames: seq<Frame>, t: Tag, tags: seq<Tag>)
    ensures Nested(frames, [t] + tags) == (Nest(frames, t).Some? && Nested(Nest(frames, t).value, tags))
  {
    assert ([t] + tags)[1..] == tags;
  }

  // The tags of a tree leave the open constructs as they are.
  lemma {:induction false} StmtsNest(ss: seq<T.Stmt>, frames: seq<Frame>, tags: seq<Tag>)
    ensures Nested(frames, StmtsTags(ss) + tags) == Nested(frames, tags)
    decreases ss, 0
  {
    hide Nested;
    if ss == [] {
      assert StmtsTags(ss) + tags == tags;
    } else {
      assert StmtsTags(ss) + tags == StmtTags(ss[0]) + (StmtsTags(ss[1..]) + tags);
      StmtNests(ss[0], frames, StmtsTags(ss[1..]) + tags);
      StmtsNest(ss[1..], frames, tags);
    }
  }

  lemma {:induction false} StmtNests(s: T.Stmt, frames: seq<Frame>, tags: seq<Tag>)
    ensures Nested(frames, StmtTags(s) + tags) == Nested(frames, tags)
    decreases s, 1
  {
    hide Nested, Nest, StmtsTags, ElseTags;
    NestOpens(frames);
    match s
    case If(_, thn, els) =>
      assert StmtTags(s) + tags == [IfTag] + (StmtsTags(thn) + (ElseTags(els) + ([EndifTag] + tags)));
      NestedOne(frames, IfTag, StmtsTags(thn) + (ElseTags(els) + ([EndifTag] + tags)));
      StmtsNest(thn, frames + [InIf(false, 0)], ElseTags(els) + ([EndifTag] + tags));
      ElseNests(els, frames, 0, tags);
    case For(_, _, _, body) =>
      assert StmtTags(s) + tags == [ForTag] + (StmtsTags(body) + ([EndforTag] + tags));
      NestedOne(frames, ForTag, StmtsTags(body) + ([EndforTag] + tags));
      StmtsNest(body, frames + [InFor], [EndforTag] + tags);
      NestPops(frames);
      NestedOne(frames + [InFor], EndforTag, tags);
    case Block(_, inner) =>
      assert StmtTags(s) + tags == [BlockTag] + (StmtsTags(inner) + ([EndblockTag] + tags));
      NestedOne(frames, BlockTag, StmtsTags(inner) + ([EndblockTag] + tags));
      StmtsNest(inner, frames + [InBlock], [EndblockTag] + tags);
      NestPops(frames);
      NestedOne(frames + [InBlock], EndblockTag, tags);
    case _ =>
      NestLeaf(frames);
      NestedOne(frames, LeafTag, tags);
  }

  lemma {:induction false} ElseNests(els: T.Else, frames: seq<Frame>, n: nat, tags: seq<Tag>)
    ensures Nested(frames + [InIf(false, n)], ElseTags(els) + ([EndifTag] + tags)) == Nested(frames, tags)
    decreases els, 0
  {
    hide Nested, Nest, StmtsTags;
    var end := [EndifTag] + tags;
    NestIf(frames, n);
    match els
    case NoElse =>
      assert ElseTags(els) + end == end;
      NestedOne(frames + [InIf(false, n)], EndifTag, tags);
    case ElseBlock(ss) =>
      assert ElseTags(els) + end == [ElseTag] + (StmtsTags(ss) + end);
      NestedOne(frames + [InIf(false, n)], ElseTag, StmtsTags(ss) + end);
      StmtsNest(ss, frames + [InIf(true, n)], end);
      NestedOne(frames + [InIf(true, n)], EndifTag, tags);
    case ElseIf(_, thn, more) =>
      assert ElseTags(els) + end == [ElseIfTag] + (StmtsTags(thn) + (ElseTags(more) + end));
      NestedOne(frames + [InIf(false, n)], ElseIfTag, StmtsTags(thn) + (ElseTags(more) + end));
      StmtsNest(thn, frames + [InIf(false, n + 1)], ElseTags(more) + end);
      ElseNests(more, frames, n + 1, tags);
  }

  // What is printed is well nested: the condition of InjaTrees.WellNestedIsTree holds of every template tree's tokens.
  lemma PrintedIsWellNested(env: Environment, ss: seq<T.Stmt>)
    requires T.WellFormed(env, ss)
    ensures IsInput(T.PrintStmts(ss)) && WellNested(T.PrintStmts(ss))
  {
    PrintedTags(env, ss);
    StmtsNest(ss, [], []);
    assert StmtsTags(ss) + [] == StmtsTags(ss);
  }

  // ---------------------------------------------------------------- every well-nested sequence is a tree's

  // An environment in which plain trees can be printed.
  const PLAIN := Environment(Config(map[], (text: seq<Token>) => true), (file: string) => Some(file))

  const SOME_NAME := Data("x")

  function BlockName(k: nat): string { seq(k, _ => 'b') }

  // Names of growing length, from `lo` to below `hi`.
  ghost predicate Numbered(names: seq<string>, lo: nat, hi: nat) {
    lo <= hi && (forall i :: 0 <= i < |names| ==> lo <= |names[i]| < hi) &&
    forall i, j :: 0 <= i < j < |names| ==> |names[i]| < |names[j]|
  }

  lemma NumberedJoin(a: seq<string>, b: seq<string>, lo: nat, mid: nat, hi: nat)
    requires Numbered(a, lo, mid) && Numbered(b, mid, hi)
    ensures Numbered(a + b, lo, hi)
  {
  }

  predicate Begins(t: Tag) { t.LeafTag? || t.IfTag? || t.ForTag? || t.BlockTag? }

  ghost predicate IsPlain(ss: seq<T.Stmt>, lo: nat, hi: nat) {
    T.WellFormed(PLAIN, ss) && Numbered(T.Names(ss), lo, hi)
  }

  ghost predicate IsPlainStmt(s: T.Stmt, lo: nat, hi: nat) {
    T.WellFormedStmt(PLAIN, s) && Numbered(T.NamesOf(s), lo, hi)
  }

  ghost predicate IsPlainElse(els: T.Else, lo: nat, hi: nat) {
    T.WellFormedElse(PLAIN, els) && Numbered(T.ElseNames(els), lo, hi)
  }

  lemma PlainCons(s: T.Stmt, ss: seq<T.Stmt>, lo: nat, mid: nat, hi: nat)
    requires IsPlainStmt(s, lo, mid) && IsPlain(ss, mid, hi)
    ensures IsPlain([s] + ss, lo, hi) && StmtsTags([s] + ss) == StmtTags(s) + StmtsTags(ss)
  {
    assert ([s] + ss)[1..] == ss;
    NumberedJoin(T.NamesOf(s), T.Names(ss), lo, mid, hi);
  }

  // Reads the tags that belong to one block.
  lemma {:induction false} ReadStmts(tags: seq<Tag>, frames: seq<Frame>, lo: nat)
    returns (ss: seq<T.Stmt>, rest: seq<Tag>, hi: nat)
    requires Nested(frames, tags)
    ensures tags == StmtsTags(ss) + rest && Nested(frames, rest) && (rest != [] ==> !Begins(rest[0]))
    ensures IsPlain(ss, lo, hi)
    decreases |tags|, 2
  {
    hide Nest, Nested;
    if tags == [] || !Begins(tags[0]) {
      ss, rest, hi := [], tags, lo;
      assert StmtsTags([]) + tags == tags;
    } else {
      var s, more, mid := ReadStmt(tags, frames, lo);
      var ss';
      ss', rest, hi := ReadStmts(more, frames, mid);
      PlainCons(s, ss', lo, mid, hi);
      ss := [s] + ss';
    }
  }

  lemma {:induction false} ReadStmt(tags: seq<Tag>, frames: seq<Frame>, lo: nat)
    returns (s: T.Stmt, rest: seq<Tag>, hi: nat)
    requires Nested(frames, tags) && tags != [] && Begins(tags[0])
    ensures tags == StmtTags(s) + rest && Nested(frames, rest) && |rest| < |tags| && IsPlainStmt(s, lo, hi)
    decreases |tags|, 1
  {
    hide Nest, Nested, IsPlain;
    var after := tags[1..];
    assert tags == [tags[0]] + after;
    NestedOne(frames, tags[0], after);
    NestOpens(frames);
    NestLeaf(frames);
    match tags[0]
    case LeafTag => s, rest, hi := T.Text(""), after, lo;
    case ForTag => s, rest, hi := ReadFor(after, frames, lo);
    case BlockTag => s, rest, hi := ReadBlock(after, frames, lo);
    case IfTag =>
      var thn, more, mid := ReadStmts(after, frames + [InIf(false, 0)], lo);
      var els;
      els, rest, hi := ReadElse(more, frames, 0, mid);
      s := T.If(SOME_NAME, thn, els);
      assert tags == StmtTags(s) + rest;
      PlainIf(thn, els, lo, mid, hi);
  }

  lemma PlainIf(thn: seq<T.Stmt>, els: T.Else, lo: nat, mid: nat, hi: nat)
    requires IsPlain(thn, lo, mid) && IsPlainElse(els, mid, hi)
    ensures IsPlainStmt(T.If(SOME_NAME, thn, els), lo, hi)
    ensures IsPlainElse(T.ElseIf(SOME_NAME, thn, els), lo, hi)
  {
    NumberedJoin(T.Names(thn), T.ElseNames(els), lo, mid, hi);
  }

  lemma {:induction false} ReadFor(after: seq<Tag>, frames: seq<Frame>, lo: nat)
    returns (s: T.Stmt, rest: seq<Tag>, hi: nat)
    requires Nested(frames + [InFor], after)
    ensures [ForTag] + after == StmtTags(s) + rest && Nested(frames, rest) && |rest| <= |after| && IsPlainStmt(s, lo, hi)
    decreases |after|, 3
  {
    hide Nested;
    var body, more;
    body, more, hi := ReadStmts(after, frames + [InFor], lo);
    s := T.For(None, "x", SOME_NAME, body);
    ClosesWith(frames, InFor, more);
    rest := more[1..];
    NestPops(frames);
    NestedOne(frames + [InFor], EndforTag, rest);
    assert more == [EndforTag] + rest;
    assert StmtTags(s) + rest == [ForTag] + (StmtsTags(body) + more);
  }

  lemma {:induction false} ReadBlock(after: seq<Tag>, frames: seq<Frame>, lo: nat)
    returns (s: T.Stmt, rest: seq<Tag>, hi: nat)
    requires Nested(frames + [InBlock], after)
    ensures [BlockTag] + after == StmtTags(s) + rest && Nested(frames, rest) && |rest| <= |after| && IsPlainStmt(s, lo, hi)
    decreases |after|, 3
  {
    hide Nested;
    var inner, more;
    inner, more, hi := ReadStmts(after, frames + [InBlock], lo + 1);
    s := T.Block(BlockName(lo), inner);
    ClosesWith(frames, InBlock, more);
    rest := more[1..];
    NestPops(frames);
    NestedOne(frames + [InBlock], EndblockTag, rest);
    assert more == [EndblockTag] + rest;
    assert StmtTags(s) + rest == [BlockTag] + (StmtsTags(inner) + more);
    NumberedJoin([BlockName(lo)], T.Names(inner), lo, lo + 1, hi);
  }

  // Where a block ends: the tag that belongs to its frame.
  lemma ClosesWith(frames: seq<Frame>, f: Frame, tags: seq<Tag>)
    requires Nested(frames + [f], tags) && (tags != [] ==> !Begins(tags[0]))
    ensures tags != [] && match f
                          case InFor => tags[0].EndforTag?
                          case InBlock => tags[0].EndblockTag?
                          case InIf(elseSeen, _) => tags[0].EndifTag? || (!elseSeen && (tags[0].ElseTag? || tags[0].ElseIfTag?))
  {
    assert (frames + [f])[|frames|] == f;
  }

  lemma {:induction false} ReadElse(tags: seq<Tag>, frames: seq<Frame>, n: nat, lo: nat)
    returns (els: T.Else, rest: seq<Tag>, hi: nat)
    requires Nested(frames + [InIf(false, n)], tags) && (tags != [] ==> !Begins(tags[0]))
    ensures tags == ElseTags(els) + ([EndifTag] + rest) && Nested(frames, rest) && IsPlainElse(els, lo, hi)
    decreases |tags|, 1
  {
    hide Nested, Nest, IsPlain;
    ClosesWith(frames, InIf(false, n), tags);
    NestIf(frames, n);
    var after := tags[1..];
    assert tags == [tags[0]] + after;
    NestedOne(frames + [InIf(false, n)], tags[0], after);
    match tags[0]
    case EndifTag =>
      els, rest, hi := T.NoElse, after, lo;
      assert ElseTags(els) + ([EndifTag] + rest) == [EndifTag] + rest;
    case ElseTag =>
      var ss, more;
      ss, more, hi := ReadStmts(after, frames + [InIf(true, n)], lo);
      ClosesWith(frames, InIf(true, n), more);
      els, rest := T.ElseBlock(ss), more[1..];
      NestedOne(frames + [InIf(true, n)], EndifTag, rest);
      assert more == [EndifTag] + rest;
      assert ElseTags(els) + more == [ElseTag] + (StmtsTags(ss) + more);
      PlainElseBlock(ss, lo, hi);
    case ElseIfTag =>
      var thn, more, mid := ReadStmts(after, frames + [InIf(false, n + 1)], lo);
      var els';
      els', rest, hi := ReadElse(more, frames, n + 1, mid);
      els := T.ElseIf(SOME_NAME, thn, els');
      assert ElseTags(els) + ([EndifTag] + rest) == [ElseIfTag] + (StmtsTags(thn) + (ElseTags(els') + ([EndifTag] + rest)));
      PlainIf(thn, els', lo, mid, hi);
  }

  lemma PlainElseBlock(ss: seq<T.Stmt>, lo: nat, hi: nat)
    requires IsPlain(ss, lo, hi)
    ensures IsPlainElse(T.ElseBlock(ss), lo, hi)
  {
  }

  // Well-nested tags are the tags of a tree that can be printed and parsed.
  lemma TreeOfTags(tags: seq<Tag>) returns (ss: seq<T.Stmt>)
    requires Nested([], tags)
    ensures StmtsTags(ss) == tags && T.WellFormed(PLAIN, ss) && T.Distinct(T.Names(ss))
  {
    var rest, hi;
    ss, rest, hi := ReadStmts(tags, [], 0);
    assert rest == [];
  }
}
