// The tags of a template, as its tokens show them, against the tags the statement parser reads; and the block stack
// as their count.
module InjaTags {
  import opened Wrappers
  import opened InjaSyntax
  import opened InjaStatement
  import T = InjaTemplate
  import X = InjaExpression

  // ---------------------------------------------------------------- the tags of a token sequence

  // A leaf is anything without a block of its own: a text, an output, set, include and extends.
  datatype Tag = IfTag | ElseTag | ElseIfTag | EndifTag | ForTag | EndforTag | BlockTag | EndblockTag | LeafTag

  predicate OpensStatement(k: Kind) { k.StatementOpen? || k.LineStatementOpen? }

  // The tokens a text, an output or a tag begins with.
  predicate Starts(k: Kind) { k.Text? || k.ExpressionOpen? || OpensStatement(k) }

  // What the lexer hands over: no end of input in the middle, and nothing begins right after a name.
  ghost predicate IsInput(toks: seq<Token>) {
    (forall t <- toks :: !t.kind.Eof?) &&
    forall i, j :: 0 <= i < j < |toks| && j == i + 1 && toks[i].kind.Id? ==> !Starts(toks[j].kind)
  }

  // The tag whose keyword is the first token.
  function TagAt(toks: seq<Token>): Tag {
    match KeywordOf(First(toks))
    case KwIf => IfTag
    case KwElse => if IsKeyword(First(Tail(toks)), "if") then ElseIfTag else ElseTag
    case KwEndif => EndifTag
    case KwFor => ForTag
    case KwEndfor => EndforTag
    case KwBlock => BlockTag
    case KwEndblock => EndblockTag
    case _ => LeafTag
  }

  // What begins with the first token.
  function TagOf(toks: seq<Token>): Tag
    requires toks != []
  {
    if OpensStatement(toks[0].kind) then TagAt(toks[1..]) else LeafTag
  }

  function Tags(toks: seq<Token>): seq<Tag> {
    if toks == [] then [] else (if Starts(toks[0].kind) then [TagOf(toks)] else []) + Tags(toks[1..])
  }

  // From `toks` to its suffix `rest` nothing begins.
  ghost predicate Quiet(toks: seq<Token>, rest: seq<Token>) {
    |rest| <= |toks| && toks[|toks| - |rest|..] == rest &&
    forall i :: 0 <= i < |toks| - |rest| ==> !Starts(toks[i].kind)
  }

  lemma {:induction false} QuietTags(toks: seq<Token>, rest: seq<Token>)
    requires Quiet(toks, rest)
    ensures Tags(toks) == Tags(rest)
    decreases |toks|
  {
    if |rest| < |toks| {
      assert toks[1..][|toks| - 1 - |rest|..] == rest;
      assert forall i :: 0 <= i < |toks| - 1 - |rest| ==> toks[1..][i] == toks[i + 1];
      QuietTags(toks[1..], rest);
    } else {
      assert toks == rest;
    }
  }

  lemma QuietJoins(a: seq<Token>, b: seq<Token>, c: seq<Token>)
    requires Quiet(a, b) && Quiet(b, c)
    ensures Quiet(a, c)
  {
    var n, m := |a| - |b|, |b| - |c|;
    assert a[n..][m..] == c;
    assert a[n + m..] == a[n..][m..];
    forall i | 0 <= i < n + m ensures !Starts(a[i].kind) {
      if i >= n { assert a[i] == a[n..][i - n]; }
    }
  }

  lemma QuietTail(toks: seq<Token>)
    requires toks == [] || !Starts(toks[0].kind)
    ensures Quiet(toks, Tail(toks))
  {
  }

  lemma QuietInput(toks: seq<Token>, rest: seq<Token>)
    requires Quiet(toks, rest) && IsInput(toks)
    ensures IsInput(rest)
  {
    assert forall t <- rest :: t in toks;
    forall i, j | 0 <= i < j < |rest| && j == i + 1 && rest[i].kind.Id? ensures !Starts(rest[j].kind) {
      var n := |toks| - |rest|;
      assert rest[i] == toks[n + i] && rest[j] == toks[n + j];
    }
  }

  // ---------------------------------------------------------------- nothing begins inside an expression

  lemma {:induction false} ExprQuiet(cfg: Config, toks: seq<Token>, lit: seq<Token>)
    ensures var r := X.ParseExpr(cfg, toks, lit); r.Ok? ==> Quiet(toks, r.value.rest)
    decreases |toks|, 3
  {
    hide X.Loop, Quiet;
    LoopQuiet(cfg, X.At(toks, lit, 0, 0, X.Stacks([], [])));
  }

  lemma {:induction false} LoopQuiet(cfg: Config, st: X.LoopState)
    ensures var r := X.Loop(cfg, st); r.Ok? ==> Quiet(st.toks, r.value.rest)
    decreases |st.toks|, 2
  {
    hide X.Step, X.PopWhile;
    match X.Step(cfg, st)
    case Next(next) =>
      StepQuiet(cfg, st);
      LoopQuiet(cfg, next);
      var r := X.Loop(cfg, next);
      if r.Ok? { QuietJoins(st.toks, next.toks, r.value.rest); }
    case Done =>
    case Fail(_) =>
  }

  lemma {:induction false} ArgsQuiet(cfg: Config, toks: seq<Token>, lit: seq<Token>)
    requires toks != [] && !Starts(toks[0].kind)
    ensures var r := X.ParseArgs(cfg, toks, lit); r.Ok? ==> Quiet(toks, r.value.rest)
    decreases |toks|, 0
  {
    hide X.ParseExpr, Quiet;
    QuietTail(toks);
    ExprQuiet(cfg, toks[1..], lit);
    var r := X.ParseExpr(cfg, toks[1..], lit);
    if r.Ok? {
      QuietJoins(toks, toks[1..], r.value.rest);
      if r.value.node.Some? && First(r.value.rest).kind.Comma? {
        ArgsQuiet(cfg, r.value.rest, r.value.lit);
        var more := X.ParseArgs(cfg, r.value.rest, r.value.lit);
        if more.Ok? { QuietJoins(toks, r.value.rest, more.value.rest); }
      }
    }
  }

  lemma {:induction false} CallQuiet(cfg: Config, st: X.LoopState, name: string, first: seq<Expr>, args: seq<Expr>, open: seq<Token>)
    requires 0 < |open| < |st.toks| && !Starts(open[0].kind)
    ensures var o := X.StepCall(cfg, st, name, first, args, open); o.Next? ==> Quiet(open, o.st.toks)
    decreases |open|, 1
  {
    hide X.ParseArgs, Quiet;
    ArgsQuiet(cfg, open, st.lit);
    var r := X.ParseCall(cfg, name, first, open, st.lit);
    if r.Ok? {
      QuietTail(r.value.rest);
      QuietJoins(open, r.value.rest, r.value.rest[1..]);
    }
  }

  lemma {:induction false} PipeQuiet(cfg: Config, st: X.LoopState)
    requires st.toks != [] && st.toks[0].kind.Pipe?
    ensures var o := X.StepPipe(cfg, st); o.Next? ==> Quiet(st.toks, o.st.toks)
    decreases |st.toks|, 0
  {
    hide X.ParseCall, Quiet;
    var toks := st.toks;
    if First(toks[1..]).kind.Id? && st.s.args != [] {
      QuietTail(toks);
      QuietTail(toks[1..]);
      assert toks[1..][1..] == toks[2..];
      QuietJoins(toks, toks[1..], toks[2..]);
      var operand, below := st.s.args[|st.s.args| - 1..], st.s.args[..|st.s.args| - 1];
      if First(toks[2..]).kind.LeftParen? {
        CallQuiet(cfg, st, toks[1].text, operand, below, toks[2..]);
        var o := X.StepCall(cfg, st, toks[1].text, operand, below, toks[2..]);
        assert X.StepPipe(cfg, st) == o;
        if o.Next? { QuietJoins(toks, toks[2..], o.st.toks); }
      }
    }
  }

  lemma {:induction false} StepQuiet(cfg: Config, st: X.LoopState)
    requires X.Step(cfg, st).Next?
    ensures Quiet(st.toks, X.Step(cfg, st).st.toks)
    decreases |st.toks|, 1
  {
    hide X.ParseExpr, X.ParseCall, Quiet, X.PopWhile;
    var toks := st.toks;
    var t := toks[0];
    QuietTail(toks);
    if OperatorOf(t).Some? {
      assert X.Step(cfg, st) == X.StepOperator(st, OperatorOf(t).value);
    } else if t.kind.LeftParen? {
      assert X.Step(cfg, st) == X.StepParen(cfg, st);
      ExprQuiet(cfg, toks[1..], st.lit);
      var r := X.ParseExpr(cfg, toks[1..], st.lit);
      QuietTail(r.value.rest);
      QuietJoins(toks, toks[1..], r.value.rest);
      QuietJoins(toks, r.value.rest, r.value.rest[1..]);
    } else if t.kind.Pipe? {
      assert X.Step(cfg, st) == X.StepPipe(cfg, st);
      PipeQuiet(cfg, st);
    } else if t.kind.Id? && !IsConstant(t) && First(toks[1..]).kind.LeftParen? {
      assert X.Step(cfg, st) == X.StepCall(cfg, st, t.text, [], st.s.args, toks[1..]);
      CallQuiet(cfg, st, t.text, [], st.s.args, toks[1..]);
      QuietJoins(toks, toks[1..], X.Step(cfg, st).st.toks);
    }
  }

  // ---------------------------------------------------------------- one tag per step

  lemma ConditionQuiet(env: Environment, p: Parser, closing: Kind)
    ensures var c := Condition(env, p, closing); c.Ok? ==> Quiet(p.toks, c.value.0.toks)
  {
    hide X.ParseExpr, Quiet;
    ExprQuiet(env.expr, p.toks, p.lit);
  }

  lemma IfQuiet(env: Environment, p: Parser, closing: Kind, nested: bool)
    ensures var r := ParseIf(env, p, closing, nested); r.Ok? ==> Quiet(p.toks, r.value.toks)
  {
    hide Condition, Quiet;
    ConditionQuiet(env, p, closing);
  }

  lemma ElseQuiet(env: Environment, p: Parser, closing: Kind)
    ensures var r := ParseElse(env, p, closing); r.Ok? ==> Quiet(p.toks, r.value.toks)
  {
    hide ParseIf;
    if p.ifs != [] && ValidRef(p.h, FalseOf(p.ifs[|p.ifs| - 1])) && IsKeyword(First(p.toks), "if") {
      var q := T.EnterElse(p);
      IfQuiet(env, Advance(q), closing, true);
      QuietTail(p.toks);
      var r := ParseIf(env, Advance(q), closing, true);
      if r.Ok? { QuietJoins(p.toks, Tail(p.toks), r.value.toks); }
    }
  }

  lemma ForInQuiet(env: Environment, p: Parser, closing: Kind, key: Option<string>, value: string)
    ensures var r := ParseForIn(env, p, closing, key, value); r.Ok? ==> Quiet(p.toks, r.value.toks)
  {
    hide Condition, Quiet;
    ConditionQuiet(env, Advance(p), closing);
    var c := Condition(env, Advance(p), closing);
    if IsKeyword(First(p.toks), "in") && c.Ok? {
      QuietTail(p.toks);
      QuietJoins(p.toks, Tail(p.toks), c.value.0.toks);
    }
  }

  lemma ForQuiet(env: Environment, p: Parser, closing: Kind)
    ensures var r := ParseFor(env, p, closing); r.Ok? ==> Quiet(p.toks, r.value.toks)
  {
    hide ParseForIn, Quiet;
    var r := ParseFor(env, p, closing);
    if r.Ok? {
      var t1 := Tail(p.toks);
      QuietTail(p.toks);
      if First(t1).kind.Comma? {
        QuietTail(t1);
        QuietTail(Tail(t1));
        QuietJoins(p.toks, t1, Tail(t1));
        QuietJoins(p.toks, Tail(t1), Tail(Tail(t1)));
        ForInQuiet(env, Advance(Advance(Advance(p))), closing, Some(First(p.toks).text), First(Tail(t1)).text);
        QuietJoins(p.toks, Tail(Tail(t1)), r.value.toks);
      } else {
        ForInQuiet(env, Advance(p), closing, None, First(p.toks).text);
        QuietJoins(p.toks, t1, r.value.toks);
      }
    }
  }

  lemma SetQuiet(env: Environment, p: Parser, closing: Kind)
    requires IsInput(p.toks)
    ensures var r := ParseSet(env, p, closing); r.Ok? ==> Quiet(p.toks, r.value.toks)
  {
    hide Condition, Quiet, Append;
    var r := ParseSet(env, p, closing);
    if r.Ok? {
      var t1 := Tail(p.toks);
      QuietTail(p.toks);
      assert t1 != [] ==> t1[0] == p.toks[1];
      QuietTail(t1);
      QuietJoins(p.toks, t1, Tail(t1));
      ConditionQuiet(env, Advance(Advance(p)), closing);
      QuietJoins(p.toks, Tail(t1), r.value.toks);
    }
  }

  lemma StatementQuiet(env: Environment, p: Parser, closing: Kind)
    requires IsInput(p.toks)
    ensures var r := ParseStatement(env, p, closing); r.Ok? ==> Quiet(p.toks, r.value.toks)
  {
    hide ParseIf, ParseElse, ParseEndif, ParseEndblock, ParseFor, ParseEndfor, ParseSet, Quiet, Append;
    var r := ParseStatement(env, p, closing);
    var q := Advance(p);
    if r.Ok? {
      QuietTail(p.toks);
      QuietInput(p.toks, q.toks);
      Still(q.toks);
      match KeywordOf(First(p.toks)) {
        case KwIf => IfQuiet(env, q, closing, false);
        case KwElse => ElseQuiet(env, q, closing);
        case KwFor => ForQuiet(env, q, closing);
        case KwSet => SetQuiet(env, q, closing);
        case KwBlock | KwInclude | KwExtends => QuietTail(q.toks);
        case _ =>
      }
      QuietJoins(p.toks, q.toks, r.value.toks);
    }
  }

  lemma Still(toks: seq<Token>)
    ensures Quiet(toks, toks)
  {
  }

  // Every step reads what it begins with, and nothing else begins in what it reads.
  lemma StepReads(env: Environment, p: Parser)
    requires p.toks != [] && IsInput(p.toks) && Step(env, p).Ok?
    ensures IsInput(p.toks[1..]) && Quiet(p.toks[1..], Step(env, p).value.toks)
  {
    hide ParseStatement, X.ParseExpr, Quiet, Append;
    var toks := p.toks[1..];
    assert IsInput(toks) by {
      assert forall t <- toks :: t in p.toks;
      forall i, j | 0 <= i < j < |toks| && j == i + 1 && toks[i].kind.Id? ensures !Starts(toks[j].kind) {
        assert toks[i] == p.toks[i + 1] && toks[j] == p.toks[j + 1];
      }
    }
    match p.toks[0].kind
    case Text => Still(toks);
    case StatementOpen => ClosedQuiet(env, p, toks, StatementClose);
    case LineStatementOpen => ClosedQuiet(env, p, toks, LineStatementClose);
    case ExpressionOpen =>
      ExprQuiet(env.expr, toks, p.lit);
      var r := X.ParseExpr(env.expr, toks, p.lit);
      QuietTail(r.value.rest);
      QuietJoins(toks, r.value.rest, Tail(r.value.rest));
    case CommentOpen => QuietTail(toks);
    case _ =>
  }

  lemma StepTags(env: Environment, p: Parser)
    requires p.toks != [] && IsInput(p.toks) && Step(env, p).Ok?
    ensures var q := Step(env, p).value;
            IsInput(q.toks) &&
            Tags(p.toks) == (if Starts(p.toks[0].kind) then [TagOf(p.toks)] else []) + Tags(q.toks)
  {
    hide Step, Quiet;
    StepReads(env, p);
    QuietTags(p.toks[1..], Step(env, p).value.toks);
    QuietInput(p.toks[1..], Step(env, p).value.toks);
  }

  lemma ClosedQuiet(env: Environment, p: Parser, toks: seq<Token>, closing: Kind)
    requires IsInput(toks) && ParseStatement(env, p.(toks := toks), closing).Ok?
    requires var t := First(ParseStatement(env, p.(toks := toks), closing).value.toks);
             t.kind == closing || t.kind.Eof?
    requires closing == StatementClose || closing == LineStatementClose
    ensures Quiet(toks, Tail(ParseStatement(env, p.(toks := toks), closing).value.toks))
  {
    hide ParseStatement, Quiet;
    StatementQuiet(env, p.(toks := toks), closing);
    var rest := ParseStatement(env, p.(toks := toks), closing).value.toks;
    QuietTail(rest);
    QuietJoins(toks, rest, Tail(rest));
  }

  // ---------------------------------------------------------------- counting blocks

  function Count(tags: seq<Tag>, t: Tag): nat {
    if tags == [] then 0 else (if tags[0] == t then 1 else 0) + Count(tags[1..], t)
  }

  // Only block and endblock change the block stack.
  lemma IfKeepsBlocks(env: Environment, p: Parser, closing: Kind)
    ensures forall nested :: var r := ParseIf(env, p, closing, nested); r.Ok? ==> r.value.blocks == p.blocks
    ensures var r := ParseElse(env, p, closing); r.Ok? ==> r.value.blocks == p.blocks
  {
    hide Condition, Append;
  }

  lemma ForInKeepsBlocks(env: Environment, p: Parser, closing: Kind, key: Option<string>, value: string)
    ensures var r := ParseForIn(env, p, closing, key, value); r.Ok? ==> r.value.blocks == p.blocks
  {
    hide Condition, Append;
  }

  lemma ForKeepsBlocks(env: Environment, p: Parser, closing: Kind)
    ensures var r := ParseFor(env, p, closing); r.Ok? ==> r.value.blocks == p.blocks
  {
    hide ParseForIn;
    ForInKeepsBlocks(env, Advance(p), closing, None, First(p.toks).text);
    ForInKeepsBlocks(env, Advance(Advance(Advance(p))), closing, Some(First(p.toks).text), First(Tail(Tail(p.toks))).text);
  }

  lemma OthersKeepBlocks(env: Environment, p: Parser, closing: Kind)
    ensures var r := ParseEndif(p); r.Ok? ==> r.value.blocks == p.blocks
    ensures var r := ParseEndfor(p); r.Ok? ==> r.value.blocks == p.blocks
    ensures var r := ParseSet(env, p, closing); r.Ok? ==> r.value.blocks == p.blocks
    ensures forall isExtends :: var r := ParseFileNode(env, p, isExtends); r.Ok? ==> r.value.blocks == p.blocks
  {
    hide Condition, Append, PopNested;
  }

  lemma StatementCounts(env: Environment, p: Parser, closing: Kind)
    requires ParseStatement(env, p, closing).Ok?
    ensures |ParseStatement(env, p, closing).value.blocks| ==
            |p.blocks| + (if TagAt(p.toks).BlockTag? then 1 else 0) - (if TagAt(p.toks).EndblockTag? then 1 else 0)
  {
    IfKeepsBlocks(env, Advance(p), closing);
    OthersKeepBlocks(env, Advance(p), closing);
    ForKeepsBlocks(env, Advance(p), closing);
    hide ParseIf, ParseElse, ParseEndif, ParseFor, ParseEndfor, ParseSet, ParseFileNode, Append, KeywordOf;
  }

  lemma StepCounts(env: Environment, p: Parser)
    requires p.toks != [] && Step(env, p).Ok?
    ensures var q := Step(env, p).value;
            var tag := TagOf(p.toks);
            |q.blocks| == |p.blocks| + (if tag.BlockTag? then 1 else 0) - (if tag.EndblockTag? then 1 else 0)
  {
    hide X.ParseExpr, Append, ParseStatement, TagAt;
    var q := Advance(p);
    if p.toks[0].kind.StatementOpen? { StatementCounts(env, q, StatementClose); }
    if p.toks[0].kind.LineStatementOpen? { StatementCounts(env, q, LineStatementClose); }
  }

  // Whatever is accepted, crossed or not: the block stack holds the opened blocks less the closed ones.
  lemma {:induction false} BlocksAreCounted(env: Environment, p: Parser)
    requires IsInput(p.toks) && ParseInto(env, p).Ok?
    ensures |ParseInto(env, p).value.blocks| + Count(Tags(p.toks), EndblockTag) == |p.blocks| + Count(Tags(p.toks), BlockTag)
    decreases |p.toks|
  {
    hide Step;
    if p.toks != [] {
      assert p.toks[0] in p.toks;
      StepTags(env, p);
      StepCounts(env, p);
      var q := Step(env, p).value;
      BlocksAreCounted(env, q);
      var tags := Tags(p.toks);
      if Starts(p.toks[0].kind) { assert tags[1..] == Tags(q.toks); } else { assert tags == Tags(q.toks); }
    }
  }

  // So every block of an accepted template is closed if and only if as many block tags open as close.
  lemma BlocksAreClosed(env: Environment, toks: seq<Token>, lit: seq<Token>)
    requires IsInput(toks) && ParseInto(env, Start(toks, lit)).Ok?
    ensures ParseInto(env, Start(toks, lit)).value.blocks == [] <==>
            Count(Tags(toks), BlockTag) == Count(Tags(toks), EndblockTag)
  {
    hide ParseInto;
    BlocksAreCounted(env, Start(toks, lit));
  }
}
