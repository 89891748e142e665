// The parser object of the template engine, field by field and method by method.
// Each method is proved to compute what InjaExpression and InjaStatement specify; the theorems are about those.
module InjaParser {
  import opened Wrappers
  import opened InjaSyntax
  import X = InjaExpression
  import S = InjaStatement

  class Parser {
    const env: S.Environment
    var lexer: seq<Token>            // tokens not yet scanned
    var tok: Token
    var peekTok: Token
    var havePeekTok: bool
    var literalStart: seq<Token>
    var heap: S.Heap                 // the nodes allocated so far
    var currentBlock: S.BlockRef
    var ifStatementStack: seq<nat>
    var forStatementStack: seq<nat>
    var blockStatementStack: seq<nat>
    var blockStorage: map<string, nat>
    var toks: seq<Token>             // where the current token lies in the template: it and everything after it

    ghost predicate Valid()
      reads this
    {
      && tok == First(toks)
      && (havePeekTok ==> peekTok == First(Tail(toks)))
      && lexer == if havePeekTok then Tail(Tail(toks)) else Tail(toks)
    }

    // The abstract state of the statement parser.
    ghost function State(): S.Parser
      reads this
    {
      S.Parser(toks, literalStart, heap, currentBlock, ifStatementStack, forStatementStack,
               blockStatementStack, blockStorage)
    }

    constructor (env: S.Environment, input: seq<Token>)
      ensures Valid() && this.env == env
      ensures State() == S.Start([Token(Unknown, "")] + input, [])
    {
      this.env := env;
      lexer, tok, havePeekTok, literalStart := input, Token(Unknown, ""), false, [];
      peekTok := Token(Unknown, "");
      heap, currentBlock := S.Heap([], []), S.Root;
      ifStatementStack, forStatementStack, blockStatementStack, blockStorage := [], [], [], map[];
      toks := [Token(Unknown, "")] + input;
    }

    method Scan() returns (t: Token)
      modifies this`lexer
      ensures t == First(old(lexer)) && lexer == Tail(old(lexer))
    {
      t, lexer := First(lexer), Tail(lexer);
    }

    method GetNextToken()
      requires Valid()
      modifies this`lexer, this`tok, this`havePeekTok, this`toks
      ensures Valid() && toks == Tail(old(toks))
    {
      if havePeekTok {
        tok := peekTok;
        havePeekTok := false;
      } else {
        tok := Scan();
      }
      toks := Tail(toks);
    }

    method GetPeekToken()
      requires Valid()
      modifies this`lexer, this`peekTok, this`havePeekTok
      ensures Valid() && havePeekTok
    {
      if !havePeekTok {
        peekTok := Scan();
        havePeekTok := true;
      }
    }

    // ---------------------------------------------------------------- expressions

    method AddOperator(s: X.Stacks) returns (r: X.ExprResult<X.Stacks>)
      requires s.ops != []
      ensures r == X.AddOperator(s)
    {
      var op := s.ops[|s.ops| - 1];
      if |s.args| < NumberArgs(op) {
        return Err(X.TooFewArguments);
      }
      var args, operands := s.args, [];
      for i := 0 to NumberArgs(op)
        invariant args == s.args[..|s.args| - i] && operands == s.args[|s.args| - i..]
      {
        operands := [args[|args| - 1]] + operands;
        args := args[..|args| - 1];
      }
      r := Ok(X.Stacks(args + [Function(op, "", operands)], s.ops[..|s.ops| - 1]));
    }

    // Pops every operator that has to leave before `incoming`.
    method PopOperators(s: X.Stacks, incoming: Option<Operation>) returns (r: X.ExprResult<X.Stacks>)
      ensures r == X.PopWhile(s, incoming)
    {
      var cur := s;
      while cur.ops != [] && X.Pops(cur.ops[|cur.ops| - 1], incoming)
        invariant X.PopWhile(cur, incoming) == X.PopWhile(s, incoming)
        decreases |cur.ops|
      {
        var next := AddOperator(cur);
        if next.Err? { return next; }
        cur := next.value;
      }
      r := Ok(cur);
    }

    // The do-while over call arguments; the current token is the parenthesis before the first one.
    method ParseArguments() returns (r: X.ExprResult<seq<Expr>>)
      requires Valid() && toks != []
      modifies this`lexer, this`tok, this`peekTok, this`havePeekTok, this`toks, this`literalStart
      ensures var spec := X.ParseArgs(env.expr, old(toks), old(literalStart));
              if spec.Err? then r == Err(spec.error)
              else r == Ok(spec.value.node) && Valid() && toks == spec.value.rest && literalStart == spec.value.lit
      decreases |toks|, 0
    {
      GetNextToken();
      var e := ParseExpression();
      if e.Err? { return Err(e.error); }
      if e.value.None? { return Ok([]); }
      if tok.kind.Comma? {
        var more := ParseArguments();
        if more.Err? { return more; }
        return Ok([e.value.value] + more.value);
      }
      r := Ok([e.value.value]);
    }

    method ParseCall(name: string, first: seq<Expr>) returns (r: X.ExprResult<Expr>)
      requires Valid() && toks != []
      modifies this`lexer, this`tok, this`peekTok, this`havePeekTok, this`toks, this`literalStart
      ensures var spec := X.ParseCall(env.expr, name, first, old(toks), old(literalStart));
              if spec.Err? then r == Err(spec.error)
              else r == Ok(spec.value.node) && Valid() && toks == spec.value.rest && literalStart == spec.value.lit
      decreases |toks|, 1
    {
      var args := ParseArguments();
      if args.Err? { return Err(args.error); }
      if !tok.kind.RightParen? { return Err(X.ExpectedRightParen); }
      r := X.MakeCall(env.expr, name, first + args.value);
    }

    // The literal's text is what was read since it began: with the tokens that follow it gives all from there on.
    method AddLiteral(s: X.Stacks) returns (r: X.ExprResult<X.Stacks>)
      ensures toks != [] && X.Reaches(literalStart, toks) && r.Ok? ==>
                exists text :: r.value == X.Pushed(s, Literal(text)) && env.expr.validJson(text) && text + toks[1..] == literalStart
      ensures var text := X.LiteralSpan(literalStart, toks);
              r == if env.expr.validJson(text) then Ok(X.Pushed(s, Literal(text))) else Err(X.InvalidLiteral)
    {
      var text := X.LiteralSpan(literalStart, toks);
      assert toks != [] && X.Reaches(literalStart, toks) ==> text + toks[1..] == literalStart by {
        if toks != [] && X.Reaches(literalStart, toks) { X.LiteralSpanIsRead(literalStart, toks); }
      }
      if !env.expr.validJson(text) { return Err(X.InvalidLiteral); }
      r := Ok(X.Pushed(s, Literal(text)));
    }

    // A pipe: stops at the last token of the call, which takes the last argument as its first operand.
    method ParsePipe(s: X.Stacks, ghost bracket: nat, ghost brace: nat) returns (r: X.ExprResult<X.Stacks>)
      requires Valid() && toks != [] && toks[0].kind.Pipe?
      modifies this`lexer, this`tok, this`peekTok, this`havePeekTok, this`toks, this`literalStart
      ensures var spec := X.StepPipe(env.expr, X.At(old(toks), old(literalStart), bracket, brace, s));
              && (spec.Fail? ==> r == Err(spec.error))
              && (spec.Next? ==> r.Ok? && Valid() && toks != [] &&
                                 spec.st == X.At(toks[1..], literalStart, bracket, brace, r.value))
              && !spec.Done?
      decreases |toks|, 1
    {
      GetNextToken();
      if !tok.kind.Id? { return Err(X.ExpectedFunctionName); }
      var name := tok.text;
      if s.args == [] { return Err(X.NoPipeOperand); }
      var operand, below := s.args[|s.args| - 1..], s.args[..|s.args| - 1];
      GetPeekToken();
      var f;
      if peekTok.kind.LeftParen? {
        GetNextToken();
        f := ParseCall(name, operand);
      } else {
        f := X.MakeCall(env.expr, name, operand);
      }
      if f.Err? { return Err(f.error); }
      r := Ok(s.(args := below + [f.value]));
    }

    // Strings, numbers, constants and brackets: only brackets that close at the top complete a literal.
    method ParseLiteralToken(bracket: nat, brace: nat, s: X.Stacks)
      returns (r: X.ExprResult<X.Stacks>, bracket': nat, brace': nat)
      requires Valid() && toks != []
      requires IsLiteralKind(tok.kind) || IsConstant(tok)
      modifies this`literalStart
      ensures var spec := X.Step(env.expr, X.At(toks, old(literalStart), bracket, brace, s));
              && (spec.Fail? ==> r == Err(spec.error))
              && (spec.Next? ==> r.Ok? && spec.st == X.At(toks[1..], literalStart, bracket', brace', r.value))
              && !spec.Done?
    {
      hide X.ParseExpr, X.StepPipe, X.StepParen, X.StepCall, X.StepOperator;
      assert OperatorOf(tok).None?;
      var top := bracket == 0 && brace == 0;
      bracket', brace', r := bracket, brace, Ok(s);
      if tok.kind.LeftBracket? || tok.kind.LeftBrace? {
        if top { literalStart := toks; }
        if tok.kind.LeftBracket? { bracket' := bracket + 1; } else { brace' := brace + 1; }
      } else if tok.kind.RightBracket? || tok.kind.RightBrace? {
        if tok.kind.RightBracket? {
          if bracket == 0 { r := Err(X.UnexpectedBracket); return; }
          bracket' := bracket - 1;
        } else {
          if brace == 0 { r := Err(X.UnexpectedBrace); return; }
          brace' := brace - 1;
        }
        if bracket' == 0 && brace' == 0 { r := AddLiteral(s); }
      } else if top {
        literalStart := toks;
        r := AddLiteral(s);
      }
    }

    // Names: variables, or calls when a parenthesis follows.
    method ParseName(s: X.Stacks, ghost bracket: nat, ghost brace: nat) returns (r: X.ExprResult<X.Stacks>)
      requires Valid() && toks != [] && tok.kind.Id? && !IsConstant(tok) && OperatorOf(tok).None?
      modifies this`lexer, this`tok, this`peekTok, this`havePeekTok, this`toks, this`literalStart
      ensures var spec := X.Step(env.expr, X.At(old(toks), old(literalStart), bracket, brace, s));
              && (spec.Fail? ==> r == Err(spec.error))
              && (spec.Next? ==> r.Ok? && Valid() && toks != [] &&
                                 spec.st == X.At(toks[1..], literalStart, bracket, brace, r.value))
              && !spec.Done?
      decreases |toks|, 1
    {
      ghost var st := X.At(toks, literalStart, bracket, brace, s);
      var name := tok.text;
      GetPeekToken();
      if peekTok.kind.LeftParen? {
        assert X.Step(env.expr, st) == X.StepCall(env.expr, st, name, [], s.args, toks[1..]);
        GetNextToken();
        var call := ParseCall(name, []);
        if call.Err? { return Err(call.error); }
        r := Ok(X.Pushed(s, call.value));
      } else {
        assert X.Step(env.expr, st) == X.Next(st.(toks := toks[1..], s := X.Pushed(s, Data(name))));
        r := Ok(X.Pushed(s, Data(name)));
      }
    }

    method ParseParenthesis(s: X.Stacks, ghost bracket: nat, ghost brace: nat) returns (r: X.ExprResult<X.Stacks>)
      requires Valid() && toks != [] && tok.kind.LeftParen?
      modifies this`lexer, this`tok, this`peekTok, this`havePeekTok, this`toks, this`literalStart
      ensures var spec := X.StepParen(env.expr, X.At(old(toks), old(literalStart), bracket, brace, s));
              && (spec.Fail? ==> r == Err(spec.error))
              && (spec.Next? ==> r.Ok? && Valid() && toks != [] &&
                                 spec.st == X.At(toks[1..], literalStart, bracket, brace, r.value))
              && !spec.Done?
      decreases |toks|, 1
    {
      GetNextToken();
      var e := ParseExpression();
      if e.Err? { return Err(e.error); }
      if !tok.kind.RightParen? { return Err(X.ExpectedRightParen); }
      if e.value.None? { return Err(X.EmptyParentheses); }
      r := Ok(X.Pushed(s, e.value.value));
    }

    lemma EofEnds(st: X.LoopState)
      requires First(st.toks).kind.Eof?
      ensures X.Step(env.expr, st) == X.Done
    {
    }

    // One iteration of the loop up to its last token; `done` when that token ends the expression.
    method ParseToken(s: X.Stacks, bracket: nat, brace: nat)
      returns (r: X.ExprResult<X.Stacks>, bracket': nat, brace': nat, done: bool)
      requires Valid() && toks != [] && !tok.kind.Eof?
      modifies this`lexer, this`tok, this`peekTok, this`havePeekTok, this`toks, this`literalStart
      ensures var spec := X.Step(env.expr, X.At(old(toks), old(literalStart), bracket, brace, s));
              && (spec.Fail? ==> r == Err(spec.error) && !done)
              && (spec.Next? ==> r.Ok? && !done && Valid() && toks != [] &&
                                 spec.st == X.At(toks[1..], literalStart, bracket', brace', r.value))
              && (spec.Done? ==> done && r == Ok(s) && Valid() && toks == old(toks) && literalStart == old(literalStart) &&
                                 bracket' == bracket && brace' == brace)
      decreases |toks|, 2
    {
      bracket', brace', done, r := bracket, brace, false, Ok(s);
      var top := bracket == 0 && brace == 0;
      if OperatorOf(tok).Some? {
        var popped := PopOperators(s, OperatorOf(tok));
        r := if popped.Err? then popped else Ok(popped.value.(ops := popped.value.ops + [OperatorOf(tok).value]));
      } else if IsConstant(tok) || IsLiteralKind(tok.kind) {
        r, bracket', brace' := ParseLiteralToken(bracket, brace, s);
      } else if tok.kind.Comma? {
        done := top;
      } else if tok.kind.Colon? {
        if top { r := Err(X.UnexpectedColon); }
      } else if tok.kind.Id? {
        r := ParseName(s, bracket, brace);
      } else if tok.kind.LeftParen? {
        assert X.Step(env.expr, X.At(toks, literalStart, bracket, brace, s)) == X.StepParen(env.expr, X.At(toks, literalStart, bracket, brace, s));
        r := ParseParenthesis(s, bracket, brace);
      } else if tok.kind.Pipe? {
        assert X.Step(env.expr, X.At(toks, literalStart, bracket, brace, s)) == X.StepPipe(env.expr, X.At(toks, literalStart, bracket, brace, s));
        r := ParsePipe(s, bracket, brace);
      } else {
        done := true;
      }
    }

    method ParseExpression() returns (r: X.ExprResult<Option<Expr>>)
      requires Valid()
      modifies this`lexer, this`tok, this`peekTok, this`havePeekTok, this`toks, this`literalStart
      ensures var spec := X.ParseExpr(env.expr, old(toks), old(literalStart));
              if spec.Err? then r == Err(spec.error)
              else r == Ok(spec.value.node) && Valid() && toks == spec.value.rest && literalStart == spec.value.lit
      decreases |toks|, 3
    {
      hide X.Step;
      ghost var spec := X.ParseExpr(env.expr, toks, literalStart);
      var bracket: nat, brace: nat := 0, 0;
      var s := X.Stacks([], []);
      while !tok.kind.Eof?
        invariant Valid() && |toks| <= |old(toks)|
        invariant spec == X.Loop(env.expr, X.At(toks, literalStart, bracket, brace, s))
        decreases |toks|
      {
        var r', done;
        r', bracket, brace, done := ParseToken(s, bracket, brace);
        if r'.Err? { return Err(r'.error); }
        if done { break; }
        s := r'.value;
        GetNextToken();
      }
      if tok.kind.Eof? { EofEnds(X.At(toks, literalStart, bracket, brace, s)); }
      var all := PopOperators(s, None);
      if all.Err? { return Err(all.error); }
      if |all.value.args| > 1 { return Err(X.Malformed); }
      r := Ok(if |all.value.args| == 1 then Some(all.value.args[0]) else None);
    }
  
    // ---------------------------------------------------------------- statements

    // parse_expression(tmpl, closing).
    method ParseCondition(closing: Kind) returns (r: S.StatementResult<Option<Expr>>)
      requires Valid()
      modifies this`lexer, this`tok, this`peekTok, this`havePeekTok, this`toks, this`literalStart
      ensures var spec := S.Condition(env, old(State()), closing);
              if spec.Err? then r == Err(spec.error)
              else r == Ok(spec.value.1) && Valid() && State() == spec.value.0
    {
      var e := ParseExpression();
      if e.Err? { return Err(S.InExpression(e.error)); }
      if tok.kind != closing { return Err(S.ExpectedStatement); }
      r := Ok(e.value);
    }

    // Links a new node into the current block.
    method AddNode(n: S.Node)
      modifies this`heap
      ensures State() == S.AddNode(old(State()), n)
    {
      heap := S.Append(heap, currentBlock, [n]);
    }

    method Enter(node: S.Node, cell: S.Cell, inner: S.BlockRef)
      modifies this`heap, this`currentBlock
      ensures State() == S.Enter(old(State()), old(currentBlock), node, cell, inner)
    {
      AddNode(node);
      heap := heap.(cells := heap.cells + [cell]);
      currentBlock := inner;
    }

    method ParseIf(closing: Kind, nested: bool) returns (r: S.StatementResult<()>)
      requires Valid()
      modifies this
      ensures var spec := S.ParseIf(env, old(State()), closing, nested);
              if spec.Err? then r == Err(spec.error) else r.Ok? && Valid() && State() == spec.value
    {
      var id := |heap.cells|;
      var cond := ParseCondition(closing);
      if cond.Err? { return Err(cond.error); }
      Enter(S.IfNode(id), S.IfCell(cond.value, [], [], currentBlock, nested, false), S.TrueOf(id));
      ifStatementStack := ifStatementStack + [id];
      r := Ok(());
    }

    method ParseElse(closing: Kind) returns (r: S.StatementResult<()>)
      requires Valid()
      modifies this
      ensures var spec := S.ParseElse(env, old(State()), closing);
              if spec.Err? then r == Err(spec.error) else r.Ok? && Valid() && State() == spec.value
    {
      hide S.ParseIf, S.Append, X.ParseExpr;
      if ifStatementStack == [] { return Err(S.ElseWithoutIf); }
      var id := ifStatementStack[|ifStatementStack| - 1];
      if !S.ValidRef(heap, S.FalseOf(id)) { return Err(S.Undefined); }
      heap := heap.(cells := heap.cells[id := heap.cells[id].(hasFalse := true)]);
      currentBlock := S.FalseOf(id);
      if S.IsKeyword(tok, "if") {
        GetNextToken();
        r := ParseIf(closing, true);
      } else {
        r := Ok(());
      }
    }

    method ParseEndif() returns (r: S.StatementResult<()>)
      requires Valid()
      modifies this`ifStatementStack, this`currentBlock
      ensures var spec := S.ParseEndif(old(State()));
              if spec.Err? then r == Err(spec.error) else r.Ok? && Valid() && State() == spec.value
    {
      if ifStatementStack == [] { return Err(S.EndifWithoutIf); }
      ghost var spec := S.PopNested(heap, ifStatementStack);
      while true
        invariant spec == S.PopNested(heap, ifStatementStack)
        decreases |ifStatementStack|
      {
        if ifStatementStack == [] { return Err(S.Undefined); }
        var id := ifStatementStack[|ifStatementStack| - 1];
        if !S.ValidRef(heap, S.TrueOf(id)) { return Err(S.Undefined); }
        if !heap.cells[id].isNested { break; }
        ifStatementStack := ifStatementStack[..|ifStatementStack| - 1];
      }
      currentBlock := heap.cells[ifStatementStack[|ifStatementStack| - 1]].parent;
      ifStatementStack := ifStatementStack[..|ifStatementStack| - 1];
      r := Ok(());
    }

    method ParseBlock() returns (r: S.StatementResult<()>)
      requires Valid()
      modifies this
      ensures var spec := S.ParseBlock(old(State()));
              if spec.Err? then r == Err(spec.error) else r.Ok? && Valid() && State() == spec.value
    {
      if !tok.kind.Id? { return Err(S.ExpectedBlockName); }
      var name, id := tok.text, |heap.cells|;
      Enter(S.NamedBlockNode(id), S.NamedCell(name, [], currentBlock), S.NamedOf(id));
      blockStatementStack := blockStatementStack + [id];
      if name in blockStorage { return Err(S.DuplicateBlock); }
      blockStorage := blockStorage[name := id];
      GetNextToken();
      r := Ok(());
    }

    method ParseEndblock() returns (r: S.StatementResult<()>)
      requires Valid()
      modifies this`blockStatementStack, this`currentBlock
      ensures var spec := S.ParseEndblock(old(State()));
              if spec.Err? then r == Err(spec.error) else r.Ok? && Valid() && State() == spec.value
    {
      if blockStatementStack == [] { return Err(S.EndblockWithoutBlock); }
      var id := blockStatementStack[|blockStatementStack| - 1];
      if !S.ValidRef(heap, S.NamedOf(id)) { return Err(S.Undefined); }
      currentBlock := heap.cells[id].parent;
      blockStatementStack := blockStatementStack[..|blockStatementStack| - 1];
      r := Ok(());
    }

    method ParseFor(closing: Kind) returns (r: S.StatementResult<()>)
      requires Valid()
      modifies this
      ensures var spec := S.ParseFor(env, old(State()), closing);
              if spec.Err? then r == Err(spec.error) else r.Ok? && Valid() && State() == spec.value
    {
      hide S.ParseForIn;
      if !tok.kind.Id? { return Err(S.ExpectedId); }
      var key, value := None, tok.text;
      GetNextToken();
      if tok.kind.Comma? {
        GetNextToken();
        if !tok.kind.Id? { return Err(S.ExpectedId); }
        key, value := Some(value), tok.text;
        GetNextToken();
      }
      r := ParseForIn(closing, key, value);
    }

    method ParseForIn(closing: Kind, key: Option<string>, value: string) returns (r: S.StatementResult<()>)
      requires Valid()
      modifies this
      ensures var spec := S.ParseForIn(env, old(State()), closing, key, value);
              if spec.Err? then r == Err(spec.error) else r.Ok? && Valid() && State() == spec.value
    {
      hide S.Condition;
      if !S.IsKeyword(tok, "in") { return Err(S.ExpectedIn); }
      GetNextToken();
      var id := |heap.cells|;
      var cond := ParseCondition(closing);
      if cond.Err? { return Err(cond.error); }
      Enter(S.ForNode(id), S.ForCell(key, value, cond.value, [], currentBlock), S.BodyOf(id));
      forStatementStack := forStatementStack + [id];
      r := Ok(());
    }

    method ParseEndfor() returns (r: S.StatementResult<()>)
      requires Valid()
      modifies this`forStatementStack, this`currentBlock
      ensures var spec := S.ParseEndfor(old(State()));
              if spec.Err? then r == Err(spec.error) else r.Ok? && Valid() && State() == spec.value
    {
      if forStatementStack == [] { return Err(S.EndforWithoutFor); }
      var id := forStatementStack[|forStatementStack| - 1];
      if !S.ValidRef(heap, S.BodyOf(id)) { return Err(S.Undefined); }
      currentBlock := heap.cells[id].parent;
      forStatementStack := forStatementStack[..|forStatementStack| - 1];
      r := Ok(());
    }

    method ParseSet(closing: Kind) returns (r: S.StatementResult<()>)
      requires Valid()
      modifies this
      ensures var spec := S.ParseSet(env, old(State()), closing);
              if spec.Err? then r == Err(spec.error) else r.Ok? && Valid() && State() == spec.value
    {
      hide S.Condition, S.Append, X.ParseExpr;
      if !tok.kind.Id? { return Err(S.ExpectedVariable); }
      var target := tok.text;
      GetNextToken();
      if tok.text != "=" { return Err(S.ExpectedAssignment); }
      GetNextToken();
      var cond := ParseCondition(closing);
      if cond.Err? { return Err(cond.error); }
      AddNode(S.SetNode(target, cond.value));
      r := Ok(());
    }

    method ParseStatement(closing: Kind) returns (r: S.StatementResult<()>)
      requires Valid()
      modifies this
      ensures var spec := S.ParseStatement(env, old(State()), closing);
              if spec.Err? then r == Err(spec.error) else r.Ok? && Valid() && State() == spec.value
    {
      hide S.KeywordOf, S.ParseIf, S.ParseElse, S.ParseEndif, S.ParseBlock, S.ParseEndblock, S.ParseFor, S.ParseEndfor,
        S.ParseSet, S.ParseFileNode;
      var word := S.KeywordOf(tok);
      if word.KwNone? { return Err(S.ExpectedStatement); }
      GetNextToken();
      match word
      case KwIf => r := ParseIf(closing, false);
      case KwElse => r := ParseElse(closing);
      case KwEndif => r := ParseEndif();
      case KwBlock => r := ParseBlock();
      case KwEndblock => r := ParseEndblock();
      case KwFor => r := ParseFor(closing);
      case KwEndfor => r := ParseEndfor();
      case KwInclude => r := ParseFileNode(false);
      case KwExtends => r := ParseFileNode(true);
      case KwSet => r := ParseSet(closing);
    }

    method ParseFileNode(isExtends: bool) returns (r: S.StatementResult<()>)
      requires Valid()
      modifies this
      ensures var spec := S.ParseFileNode(env, old(State()), isExtends);
              if spec.Err? then r == Err(spec.error) else r.Ok? && Valid() && State() == spec.value
    {
      if !tok.kind.String? || |tok.text| < 2 { return Err(S.ExpectedFilename); }
      var file := env.load(tok.text[1..|tok.text| - 1]);
      if file.None? { return Err(S.FileFailed); }
      AddNode(if isExtends then S.ExtendsNode(file.value) else S.IncludeNode(file.value));
      GetNextToken();
      r := Ok(());
    }

    // One token of parse_into other than Eof, and the construct it opens.
    method ParseConstruct() returns (r: S.StatementResult<()>)
      requires Valid() && toks != [] && !tok.kind.Eof?
      modifies this
      ensures var spec := S.Step(env, old(State()));
              if spec.Err? then r == Err(spec.error) else r.Ok? && Valid() && State() == spec.value
    {
      hide S.ParseStatement, X.ParseExpr, S.Append;
      if tok.kind.Text? {
        AddNode(S.TextNode(tok.text));
      } else if tok.kind.StatementOpen? {
        GetNextToken();
        var st := ParseStatement(StatementClose);
        if st.Err? { return st; }
        if !tok.kind.StatementClose? { return Err(S.ExpectedStatementClose); }
      } else if tok.kind.LineStatementOpen? {
        GetNextToken();
        var st := ParseStatement(LineStatementClose);
        if st.Err? { return st; }
        if !tok.kind.LineStatementClose? && !tok.kind.Eof? { return Err(S.ExpectedLineStatementClose); }
      } else if tok.kind.ExpressionOpen? {
        GetNextToken();
        var e := ParseExpression();
        if e.Err? { return Err(S.InExpression(e.error)); }
        if !tok.kind.ExpressionClose? { return Err(S.ExpectedExpressionClose); }
        AddNode(S.ExpressionNode(e.value));
      } else if tok.kind.CommentOpen? {
        GetNextToken();
        if !tok.kind.CommentClose? { return Err(S.ExpectedCommentClose); }
      } else {
        return Err(S.UnexpectedToken);
      }
      GetNextToken();
      r := Ok(());
    }

    method ParseInto() returns (r: S.StatementResult<()>)
      requires Valid() && toks != []
      modifies this
      ensures var spec := S.ParseInto(env, S.Advance(old(State())));
              if spec.Err? then r == Err(spec.error) else r.Ok? && State() == spec.value
    {
      ghost var spec := S.ParseInto(env, S.Advance(State()));
      GetNextToken();
      while !tok.kind.Eof?
        invariant Valid() && spec == S.ParseInto(env, State())
        decreases |toks|
      {
        assert toks != [];
        r := ParseConstruct();
        if r.Err? { return; }
      }
      if ifStatementStack != [] { return Err(S.UnmatchedIf); }
      if forStatementStack != [] { return Err(S.UnmatchedFor); }
      r := Ok(());
    }
  }

  // Parser::parse: what a new parser object makes of a token stream is what the specification says.
  method Parse(env: S.Environment, input: seq<Token>) returns (r: S.StatementResult<S.Parser>)
    ensures r == S.ParseInto(env, S.Start(input, []))
  {
    var p := new Parser(env, input);
    assert S.Advance(p.State()) == S.Start(input, []) by { assert ([Token(Unknown, "")] + input)[1..] == input; }
    var ok := p.ParseInto();
    if ok.Err? { return Err(ok.error); }
    r := Ok(S.Parser(p.toks, p.literalStart, p.heap, p.currentBlock, p.ifStatementStack, p.forStatementStack,
                       p.blockStatementStack, p.blockStorage));
  }
}
