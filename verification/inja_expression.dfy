// The operator-stack expression parser of the template engine, and the printer it inverts.
module InjaExpression {
  import opened Wrappers
  import opened InjaSyntax

  datatype ParseError =
    | TooFewArguments | UnexpectedBracket | UnexpectedBrace | UnexpectedColon | ExpectedRightParen
    | EmptyParentheses | ExpectedFunctionName | UnknownFunction | Malformed | InvalidLiteral
    | NoPipeOperand  // the code reads the back of an empty argument list here

  type ExprResult<+T> = Result<T, ParseError>

  // ---------------------------------------------------------------- operator stack

  datatype Stacks = Stacks(args: seq<Expr>, ops: seq<Operation>)

  function Pushed(s: Stacks, e: Expr): Stacks {
    s.(args := s.args + [e])
  }

  // One step of add_operator: the top operator takes its operands from the back of the arguments.
  function AddOperator(s: Stacks): (r: ExprResult<Stacks>)
    requires s.ops != []
    ensures r.Ok? ==> |r.value.ops| == |s.ops| - 1
  {
    var op := s.ops[|s.ops| - 1];
    var n := NumberArgs(op);
    if |s.args| < n then Err(TooFewArguments)
    else Ok(Stacks(s.args[..|s.args| - n] + [Function(op, "", s.args[|s.args| - n..])], s.ops[..|s.ops| - 1]))
  }

  // Whether an incoming operator (None: the end of the expression) makes `top` leave the stack.
  predicate Pops(top: Operation, incoming: Option<Operation>) {
    match incoming
    case None => true
    case Some(op) =>
      Precedence(top) > Precedence(op)
      || (Precedence(top) == Precedence(op) && AssociativityOf(op).Left?)
  }

  function PopWhile(s: Stacks, incoming: Option<Operation>): ExprResult<Stacks>
    decreases |s.ops|
  {
    if s.ops == [] || !Pops(s.ops[|s.ops| - 1], incoming) then Ok(s)
    else
      var r := AddOperator(s);
      if r.Err? then r else PopWhile(r.value, incoming)
  }

  // ---------------------------------------------------------------- the parser

  // What is left after an expression: the tokens from the current one on, and where the last literal began.
  datatype Parsed<+T> = Parsed(node: T, rest: seq<Token>, lit: seq<Token>)

  // The text of a literal that began at suffix `lit` and ends with the first token of `toks`.
  function LiteralSpan(lit: seq<Token>, toks: seq<Token>): seq<Token> {
    if 0 < |toks| <= |lit| then lit[..|lit| - |toks| + 1] else []
  }

  // `toks` is what is left of `lit`.
  ghost predicate Reaches(lit: seq<Token>, toks: seq<Token>) {
    |toks| <= |lit| && lit[|lit| - |toks|..] == toks
  }

  // The text is every token from where the literal began up to and including the current one.
  lemma LiteralSpanIsRead(lit: seq<Token>, toks: seq<Token>)
    requires toks != [] && Reaches(lit, toks)
    ensures LiteralSpan(lit, toks) + toks[1..] == lit
  {
    assert lit[|lit| - |toks| + 1..] == lit[|lit| - |toks|..][1..];
  }

  function ParseExpr(cfg: Config, toks: seq<Token>, lit: seq<Token>): (r: ExprResult<Parsed<Option<Expr>>>)
    ensures r.Ok? ==> |r.value.rest| <= |toks|
    decreases |toks|, 2
  {
    Loop(cfg, At(toks, lit, 0, 0, Stacks([], [])))
  }

  // The comma-separated arguments of a call; `toks` starts at the parenthesis or comma before one.
  function ParseArgs(cfg: Config, toks: seq<Token>, lit: seq<Token>): (r: ExprResult<Parsed<seq<Expr>>>)
    requires toks != []
    ensures r.Ok? ==> |r.value.rest| < |toks|
    decreases |toks|, 0
  {
    var r := ParseExpr(cfg, toks[1..], lit);
    if r.Err? then Err(r.error)
    else if r.value.node.None? then Ok(Parsed([], r.value.rest, r.value.lit))
    else if First(r.value.rest).kind.Comma? then
      var more := ParseArgs(cfg, r.value.rest, r.value.lit);
      if more.Err? then more
      else Ok(more.value.(node := [r.value.node.value] + more.value.node))
    else Ok(Parsed([r.value.node.value], r.value.rest, r.value.lit))
  }

  // Arguments, closing parenthesis and function lookup; `first` holds a piped operand, if any.
  function ParseCall(cfg: Config, name: string, first: seq<Expr>, toks: seq<Token>, lit: seq<Token>)
    : (r: ExprResult<Parsed<Expr>>)
    requires toks != []
    ensures r.Ok? ==> 0 < |r.value.rest| < |toks|
    decreases |toks|, 1
  {
    var r := ParseArgs(cfg, toks, lit);
    if r.Err? then Err(r.error)
    else if !First(r.value.rest).kind.RightParen? then Err(ExpectedRightParen)
    else
      var f := MakeCall(cfg, name, first + r.value.node);
      if f.Err? then Err(f.error) else Ok(Parsed(f.value, r.value.rest, r.value.lit))
  }

  function MakeCall(cfg: Config, name: string, args: seq<Expr>): ExprResult<Expr> {
    var op := FindFunction(cfg, name, |args|);
    if op.NoOperation? then Err(UnknownFunction) else Ok(Function(op, name, args))
  }

  // The loop variables of the parser at one iteration, the current token being toks[0].
  datatype LoopState = At(toks: seq<Token>, lit: seq<Token>, bracket: nat, brace: nat, s: Stacks)

  datatype Outcome = Next(st: LoopState) | Done | Fail(error: ParseError)

  function Finish(st: LoopState): ExprResult<Parsed<Option<Expr>>> {
    var r := PopWhile(st.s, None);
    if r.Err? then Err(r.error)
    else if |r.value.args| > 1 then Err(Malformed)
    else Ok(Parsed(if |r.value.args| == 1 then Some(r.value.args[0]) else None, st.toks, st.lit))
  }

  function Loop(cfg: Config, st: LoopState): (r: ExprResult<Parsed<Option<Expr>>>)
    ensures r.Ok? ==> |r.value.rest| <= |st.toks|
    decreases |st.toks|, 1
  {
    match Step(cfg, st)
    case Next(next) => Loop(cfg, next)
    case Done => Finish(st)
    case Fail(e) => Err(e)
  }

  // One iteration of the loop.
  function Step(cfg: Config, st: LoopState): (o: Outcome)
    ensures o.Next? ==> |o.st.toks| < |st.toks|
    decreases |st.toks|, 0
  {
    if st.toks == [] then Done
    else
      var t := st.toks[0];
      var top := st.bracket == 0 && st.brace == 0;
      var skip := st.(toks := st.toks[1..]);
      if OperatorOf(t).Some? then StepOperator(st, OperatorOf(t).value)
      else match t.kind
      case Eof => Done
      case String | Number => if top then StepLiteral(cfg, st.(lit := st.toks)) else Next(skip)
      case LeftBracket => Next(skip.(lit := if top then st.toks else st.lit, bracket := st.bracket + 1))
      case LeftBrace => Next(skip.(lit := if top then st.toks else st.lit, brace := st.brace + 1))
      case RightBracket =>
        if st.bracket == 0 then Fail(UnexpectedBracket)
        else if st.bracket == 1 && st.brace == 0 then StepLiteral(cfg, st.(bracket := 0))
        else Next(skip.(bracket := st.bracket - 1))
      case RightBrace =>
        if st.brace == 0 then Fail(UnexpectedBrace)
        else if st.brace == 1 && st.bracket == 0 then StepLiteral(cfg, st.(brace := 0))
        else Next(skip.(brace := st.brace - 1))
      case Comma => if top then Done else Next(skip)
      case Colon => if top then Fail(UnexpectedColon) else Next(skip)
      case LeftParen => StepParen(cfg, st)
      case Pipe => StepPipe(cfg, st)
      case Id =>
        if IsConstant(t) then if top then StepLiteral(cfg, st.(lit := st.toks)) else Next(skip)
        else if First(st.toks[1..]).kind.LeftParen? then StepCall(cfg, st, t.text, [], st.s.args, st.toks[1..])
        else Next(skip.(s := Pushed(st.s, Data(t.text))))
      case _ => Done
  }

  // The current token completes a literal.
  function StepLiteral(cfg: Config, st: LoopState): (o: Outcome)
    requires st.toks != []
    ensures o.Next? ==> |o.st.toks| < |st.toks|
  {
    var text := LiteralSpan(st.lit, st.toks);
    if cfg.validJson(text) then Next(st.(toks := st.toks[1..], s := Pushed(st.s, Literal(text))))
    else Fail(InvalidLiteral)
  }

  // The current token is an operator.
  function StepOperator(st: LoopState, op: Operation): (o: Outcome)
    requires st.toks != []
    ensures o.Next? ==> |o.st.toks| < |st.toks|
  {
    var p := PopWhile(st.s, Some(op));
    if p.Err? then Fail(p.error) else Next(st.(toks := st.toks[1..], s := p.value.(ops := p.value.ops + [op])))
  }

  // The current token is an opening parenthesis around a subexpression.
  function StepParen(cfg: Config, st: LoopState): (o: Outcome)
    requires st.toks != []
    ensures o.Next? ==> |o.st.toks| < |st.toks|
    decreases |st.toks| - 1, 3
  {
    var r := ParseExpr(cfg, st.toks[1..], st.lit);
    if r.Err? then Fail(r.error)
    else if !First(r.value.rest).kind.RightParen? then Fail(ExpectedRightParen)
    else if r.value.node.None? then Fail(EmptyParentheses)
    else Next(st.(toks := r.value.rest[1..], lit := r.value.lit, s := Pushed(st.s, r.value.node.value)))
  }

  // A call whose argument list opens at `open`; `args` are the arguments below the call's own.
  function StepCall(cfg: Config, st: LoopState, name: string, first: seq<Expr>, args: seq<Expr>, open: seq<Token>)
    : (o: Outcome)
    requires 0 < |open| < |st.toks|
    ensures o.Next? ==> |o.st.toks| < |st.toks|
    decreases |open|, 2
  {
    var r := ParseCall(cfg, name, first, open, st.lit);
    if r.Err? then Fail(r.error)
    else Next(st.(toks := r.value.rest[1..], lit := r.value.lit, s := st.s.(args := args + [r.value.node])))
  }

  // The current token is a pipe: the last argument becomes the first operand of a call.
  function StepPipe(cfg: Config, st: LoopState): (o: Outcome)
    requires st.toks != []
    ensures o.Next? ==> |o.st.toks| < |st.toks|
    decreases |st.toks| - 1, 4
  {
    var s := st.s;
    if !First(st.toks[1..]).kind.Id? then Fail(ExpectedFunctionName)
    else if s.args == [] then Fail(NoPipeOperand)
    else
      var operand, below := s.args[|s.args| - 1..], s.args[..|s.args| - 1];
      if First(st.toks[2..]).kind.LeftParen? then StepCall(cfg, st, st.toks[1].text, operand, below, st.toks[2..])
      else
        var f := MakeCall(cfg, st.toks[1].text, operand);
        if f.Err? then Fail(f.error) else Next(st.(toks := st.toks[2..], s := s.(args := below + [f.value])))
  }

  // ---------------------------------------------------------------- the printer

  const LP := Token(LeftParen, "(")
  const RP := Token(RightParen, ")")
  const COMMA := Token(Comma, ",")
  const PIPE := Token(Pipe, "|")

  function OperatorToken(op: Operation): Token
    requires IsBinary(op) || op.Not?
  {
    match op
    case Not => Token(Id, "not")
    case And => Token(Id, "and")
    case Or => Token(Id, "or")
    case In => Token(Id, "in")
    case EqualOp => Token(Equal, "==")
    case NotEqualOp => Token(NotEqual, "!=")
    case Greater => Token(GreaterThan, ">")
    case GreaterEqualOp => Token(GreaterEqual, ">=")
    case Less => Token(LessThan, "<")
    case LessEqualOp => Token(LessEqual, "<=")
    case Add => Token(Plus, "+")
    case Subtract => Token(Minus, "-")
    case Multiplication => Token(Times, "*")
    case Division => Token(Slash, "/")
    case PowerOp => Token(Power, "^")
    case Modulo => Token(Percent, "%")
    case AtId => Token(Dot, ".")
  }

  predicate Reserved(name: string) {
    || name == "true" || name == "false" || name == "null"
    || name == "and" || name == "or" || name == "in" || name == "not"
  }

  // After a bracket opened at depth (bracket, brace), the tokens up to and including the one that closes it.
  ghost predicate ClosesLiteral(text: seq<Token>, bracket: nat, brace: nat)
  {
    text != [] && IsJsonToken(text[0]) &&
    var (b, c) := Depth(text[0], bracket, brace);
    b >= 0 && c >= 0 && (if b == 0 && c == 0 then |text| == 1 else ClosesLiteral(text[1..], b, c))
  }

  // A literal is one string, number or constant, or a bracketed JSON text.
  ghost predicate LiteralText(text: seq<Token>) {
    || (|text| == 1 && (text[0].kind.String? || text[0].kind.Number? || IsConstant(text[0])))
    || (|text| > 1 && text[0].kind.LeftBracket? && ClosesLiteral(text[1..], 1, 0))
    || (|text| > 1 && text[0].kind.LeftBrace? && ClosesLiteral(text[1..], 0, 1))
  }

  // The trees a template can denote: known functions, readable literals, operators with their operands.
  ghost predicate Printable(cfg: Config, e: Expr)
    decreases e
  {
    match e
    case Literal(text) => LiteralText(text) && cfg.validJson(text)
    case Data(name) => !Reserved(name)
    case Function(op, name, args) =>
      && (forall a <- args :: Printable(cfg, a))
      && if name == "" then (IsBinary(op) && |args| == 2) || (op.Not? && |args| == 1)
         else !Reserved(name) && !op.NoOperation? && FindFunction(cfg, name, |args|) == op
  }

  predicate IsOperator(e: Expr) {
    e.Function? && e.fname == "" && ((IsBinary(e.op) && |e.args| == 2) || (e.op.Not? && |e.args| == 1))
  }

  // How tightly an expression binds: 9 for everything that is not an operator application.
  function Level(e: Expr): nat {
    if IsOperator(e) then Precedence(e.op) else 9
  }

  function LeftLevel(op: Operation): nat {
    if AssociativityOf(op).Left? then Precedence(op) else Precedence(op) + 1
  }

  function RightLevel(op: Operation): nat {
    if AssociativityOf(op).Left? then Precedence(op) + 1 else Precedence(op)
  }

  // Prints with parentheses exactly where an operand binds more loosely than its place allows.
  function Print(e: Expr, level: nat): seq<Token>
    decreases e, 1
  {
    if Level(e) < level then [LP] + PrintBare(e) + [RP] else PrintBare(e)
  }

  function PrintBare(e: Expr): seq<Token>
    decreases e, 0
  {
    match e
    case Literal(text) => text
    case Data(name) => [Token(Id, name)]
    case Function(op, name, args) =>
      if !IsOperator(e) then [Token(Id, name), LP] + PrintArgs(args) + [RP]
      else if op.Not? then [OperatorToken(op)] + Print(args[0], RightLevel(op))
      else Print(args[0], LeftLevel(op)) + [OperatorToken(op)] + Print(args[1], RightLevel(op))
  }

  function PrintArgs(args: seq<Expr>): seq<Token>
    decreases args, 0
  {
    if args == [] then []
    else Print(args[0], 0) + (if |args| == 1 then [] else [COMMA] + PrintArgs(args[1..]))
  }

  // ---------------------------------------------------------------- what a printed operand leaves on the stacks

  // Printed at `level`, an expression leaves these arguments and operators pending.
  function Pending(e: Expr, level: nat): Stacks
    decreases e
  {
    if !IsOperator(e) || Level(e) < level then Stacks([e], [])
    else if e.op.Not? then
      var p := Pending(e.args[0], RightLevel(e.op));
      Stacks(p.args, [e.op] + p.ops)
    else
      var p := Pending(e.args[1], RightLevel(e.op));
      Stacks([e.args[0]] + p.args, [e.op] + p.ops)
  }

  function Onto(s: Stacks, t: Stacks): Stacks {
    Stacks(s.args + t.args, s.ops + t.ops)
  }

  lemma {:induction false} PendingBindsTightly(e: Expr, level: nat)
    ensures forall op <- Pending(e, level).ops :: Precedence(op) >= level
    decreases e
  {
    if IsOperator(e) && Level(e) >= level {
      var r := if e.op.Not? then e.args[0] else e.args[1];
      PendingBindsTightly(r, RightLevel(e.op));
    }
  }

  // An operator on top of its operands is assembled into its node.
  lemma Assembles(s: Stacks, e: Expr)
    requires IsOperator(e)
    ensures AddOperator(Stacks(s.args + e.args, s.ops + [e.op])) == Ok(Pushed(s, e))
  {
    var t := Stacks(s.args + e.args, s.ops + [e.op]);
    assert |e.args| == NumberArgs(e.op);
    assert t.args[..|s.args|] == s.args && t.args[|s.args|..] == e.args && t.ops[..|s.ops|] == s.ops;
  }

  // Popping the pending operators assembles the expression they belong to.
  lemma {:induction false} PendingCollapses(s: Stacks, e: Expr, level: nat, incoming: Option<Operation>)
    requires forall op <- Pending(e, level).ops :: Pops(op, incoming)
    ensures PopWhile(Onto(s, Pending(e, level)), incoming) == PopWhile(Pushed(s, e), incoming)
    decreases e
  {
    hide Pops, AddOperator;
    var p := Pending(e, level);
    if !IsOperator(e) || Level(e) < level {
      assert Onto(s, p) == Pushed(s, e);
    } else {
      var op := e.op;
      var r := if op.Not? then e.args[0] else e.args[1];
      var q := Pending(r, RightLevel(op));
      var s' := Stacks(if op.Not? then s.args else s.args + [e.args[0]], s.ops + [op]);
      assert Onto(s, p) == Onto(s', q);
      assert op in p.ops && forall o <- q.ops :: o in p.ops;
      PendingCollapses(s', r, RightLevel(op), incoming);
      assert e.args == (if op.Not? then [r] else [e.args[0], r]);
      assert Pushed(s', r) == Stacks(s.args + e.args, s.ops + [op]);
      Assembles(s, e);
    }
  }

  // ---------------------------------------------------------------- running the parser over printed text

  // Tokens that may follow an operand: anything that does not turn a name into a call.
  predicate Follows(rest: seq<Token>) {
    !First(rest).kind.LeftParen?
  }

  // Where an expression and its closing token meet: the loop stops here.
  predicate Stops(rest: seq<Token>) {
    match First(rest).kind
    case Text | ExpressionOpen | ExpressionClose | LineStatementOpen | LineStatementClose | StatementOpen
      | StatementClose | CommentOpen | CommentClose | Comma | RightParen | Unknown | Eof => true
    case _ => false
  }

  // An operator below an operand printed at `level` stays on the stack while that operand is read.
  predicate Holds(ops: seq<Operation>, level: nat) {
    ops == [] || Precedence(ops[|ops| - 1]) < level || (Precedence(ops[|ops| - 1]) == level == 5)
  }

  lemma OperatorTokenRead(op: Operation)
    requires IsBinary(op) || op.Not?
    ensures OperatorOf(OperatorToken(op)) == Some(op)
  {
  }

  function Here(toks: seq<Token>, lit: seq<Token>, s: Stacks): LoopState {
    At(toks, lit, 0, 0, s)
  }

  lemma OperatorStep(cfg: Config, op: Operation, rest: seq<Token>, lit: seq<Token>, s: Stacks)
    requires IsBinary(op) || op.Not?
    ensures Step(cfg, Here([OperatorToken(op)] + rest, lit, s)) == StepOperator(Here([OperatorToken(op)] + rest, lit, s), op)
  {
    OperatorTokenRead(op);
  }

  // Reading an operator after its left operand: the operand is assembled and the operator is pushed.
  lemma OperatorAfterOperand(cfg: Config, op: Operation, e: Expr, rest: seq<Token>, lit: seq<Token>, s: Stacks, level: nat)
    requires IsBinary(op) && Holds(s.ops, level) && level <= Precedence(op)
    ensures Loop(cfg, Here([OperatorToken(op)] + rest, lit, Onto(s, Pending(e, LeftLevel(op))))) ==
            Loop(cfg, Here(rest, lit, Stacks(s.args + [e], s.ops + [op])))
  {
    var s' := Onto(s, Pending(e, LeftLevel(op)));
    OperatorStep(cfg, op, rest, lit, s');
    PendingBindsTightly(e, LeftLevel(op));
    assert PopWhile(s', Some(op)) == Ok(Pushed(s, e)) by {
      PendingCollapses(s, e, LeftLevel(op), Some(op));
    }
    assert ([OperatorToken(op)] + rest)[1..] == rest;
  }

  lemma NotBeforeOperand(cfg: Config, rest: seq<Token>, lit: seq<Token>, s: Stacks, level: nat)
    requires Holds(s.ops, level) && level <= 4
    ensures Loop(cfg, Here([OperatorToken(Not)] + rest, lit, s)) == Loop(cfg, Here(rest, lit, s.(ops := s.ops + [Not])))
  {
    OperatorStep(cfg, Not, rest, lit, s);
    assert ([OperatorToken(Not)] + rest)[1..] == rest;
  }

  // The bracket and brace depth after one token of a JSON text.
  function Depth(t: Token, bracket: int, brace: int): (int, int) {
    match t.kind
    case LeftBracket => (bracket + 1, brace)
    case RightBracket => (bracket - 1, brace)
    case LeftBrace => (bracket, brace + 1)
    case RightBrace => (bracket, brace - 1)
    case _ => (bracket, brace)
  }

  predicate IsJsonToken(t: Token) {
    IsLiteralKind(t.kind) || t.kind.Comma? || t.kind.Colon? || IsConstant(t)
  }

  lemma LiteralStep(cfg: Config, st: LoopState)
    requires st.toks != [] && st.bracket + st.brace > 0 && IsJsonToken(st.toks[0])
    ensures var (b, c) := Depth(st.toks[0], st.bracket, st.brace);
            b >= 0 && c >= 0 ==>
              Step(cfg, st) == if b == 0 && c == 0 then StepLiteral(cfg, st.(bracket := 0, brace := 0))
                               else Next(st.(toks := st.toks[1..], bracket := b, brace := c))
  {
    assert OperatorOf(st.toks[0]).None?;
  }

  // Inside a bracketed literal the loop only counts brackets; the closing one yields the whole text.
  lemma {:induction false} LiteralTail(cfg: Config, text: seq<Token>, rest: seq<Token>, lit: seq<Token>,
                                       bracket: nat, brace: nat, s: Stacks)
    requires ClosesLiteral(text, bracket, brace) && bracket + brace > 0
    requires |text| + |rest| <= |lit| && cfg.validJson(lit[..|lit| - |rest|])
    ensures Loop(cfg, At(text + rest, lit, bracket, brace, s)) ==
            Loop(cfg, Here(rest, lit, Pushed(s, Literal(lit[..|lit| - |rest|]))))
    decreases |text|
  {
    var toks := text + rest;
    assert toks[0] == text[0] && toks[1..] == text[1..] + rest;
    var (b, c) := Depth(text[0], bracket, brace);
    LiteralStep(cfg, At(toks, lit, bracket, brace, s));
    if b == 0 && c == 0 {
      assert toks[1..] == rest;
      assert LiteralSpan(lit, toks) == lit[..|lit| - |rest|];
    } else {
      LiteralTail(cfg, text[1..], rest, lit, b, c, s);
    }
  }

  lemma RunLiteral(cfg: Config, text: seq<Token>, rest: seq<Token>, lit: seq<Token>, s: Stacks) returns (lit': seq<Token>)
    requires LiteralText(text) && cfg.validJson(text)
    ensures Loop(cfg, Here(text + rest, lit, s)) == Loop(cfg, Here(rest, lit', Pushed(s, Literal(text))))
  {
    var toks := text + rest;
    lit' := toks;
    assert toks[..|toks| - |rest|] == text;
    assert toks[0] == text[0] && toks[1..] == text[1..] + rest;
    var st := Here(toks, lit, s);
    if |text| == 1 {
      assert text[1..] + rest == rest;
      assert Step(cfg, st) == StepLiteral(cfg, st.(lit := toks));
    } else if text[0].kind.LeftBracket? {
      assert Step(cfg, st) == Next(At(toks[1..], toks, 1, 0, s));
      LiteralTail(cfg, text[1..], rest, toks, 1, 0, s);
    } else {
      assert Step(cfg, st) == Next(At(toks[1..], toks, 0, 1, s));
      LiteralTail(cfg, text[1..], rest, toks, 0, 1, s);
    }
  }

  lemma ParenStep(cfg: Config, text: seq<Token>, e: Expr, rest: seq<Token>, lit: seq<Token>, lit': seq<Token>, s: Stacks)
    requires ParseExpr(cfg, text + ([RP] + rest), lit) == Ok(Parsed(Some(e), [RP] + rest, lit'))
    ensures Loop(cfg, Here([LP] + (text + ([RP] + rest)), lit, s)) == Loop(cfg, Here(rest, lit', Pushed(s, e)))
  {
    hide ParseExpr;
    var inner := text + ([RP] + rest);
    var st := Here([LP] + inner, lit, s);
    assert st.toks[1..] == inner;
    assert ([RP] + rest)[1..] == rest;
    assert Step(cfg, st) == StepParen(cfg, st);
  }

  // The heart of the round trip: reading a printed expression leaves exactly its pending stacks.
  lemma {:induction false} Run(cfg: Config, e: Expr, level: nat, rest: seq<Token>, lit: seq<Token>, s: Stacks)
    returns (lit': seq<Token>)
    requires Printable(cfg, e) && Holds(s.ops, level) && Follows(rest) && level <= 9
    ensures Loop(cfg, Here(Print(e, level) + rest, lit, s)) == Loop(cfg, Here(rest, lit', Onto(s, Pending(e, level))))
    decreases e, 3
  {
    hide PrintBare, Printable, Loop;
    if Level(e) < level {
      lit' := RunWhole(cfg, e, [RP] + rest, lit);
      ParenStep(cfg, PrintBare(e), e, rest, lit, lit', s);
      assert Print(e, level) + rest == [LP] + (PrintBare(e) + ([RP] + rest));
      assert Onto(s, Pending(e, level)) == Pushed(s, e);
    } else {
      lit' := RunBare(cfg, e, level, rest, lit, s);
    }
  }

  lemma {:induction false} RunBare(cfg: Config, e: Expr, level: nat, rest: seq<Token>, lit: seq<Token>, s: Stacks)
    returns (lit': seq<Token>)
    requires Printable(cfg, e) && Holds(s.ops, level) && Follows(rest) && level <= Level(e)
    ensures Loop(cfg, Here(PrintBare(e) + rest, lit, s)) == Loop(cfg, Here(rest, lit', Onto(s, Pending(e, level))))
    decreases e, 1
  {
    if !IsOperator(e) {
      assert Onto(s, Pending(e, level)) == Pushed(s, e);
      match e
      case Literal(text) => lit' := RunLiteral(cfg, text, rest, lit, s);
      case Data(name) =>
        lit' := lit;
        var toks := [Token(Id, name)] + rest;
        assert toks[1..] == rest;
        assert Step(cfg, Here(toks, lit, s)) == Next(Here(rest, lit, Pushed(s, e)));
      case Function(op, name, args) => lit' := RunCallNode(cfg, e, rest, lit, s);
    } else if e.op.Not? {
      lit' := RunNot(cfg, e, level, rest, lit, s);
    } else {
      lit' := RunBinary(cfg, e, level, rest, lit, s);
    }
  }

  lemma {:induction false} RunNot(cfg: Config, e: Expr, level: nat, rest: seq<Token>, lit: seq<Token>, s: Stacks)
    returns (lit': seq<Token>)
    requires Printable(cfg, e) && Holds(s.ops, level) && Follows(rest) && level <= Level(e)
    requires IsOperator(e) && e.op.Not?
    ensures Loop(cfg, Here(PrintBare(e) + rest, lit, s)) == Loop(cfg, Here(rest, lit', Onto(s, Pending(e, level))))
    decreases e, 0
  {
    hide Loop;
    var x := Print(e.args[0], 5);
    assert PrintBare(e) + rest == [OperatorToken(Not)] + (x + rest);
    NotBeforeOperand(cfg, x + rest, lit, s, level);
    var s' := s.(ops := s.ops + [Not]);
    lit' := Run(cfg, e.args[0], 5, rest, lit, s');
    assert Onto(s', Pending(e.args[0], 5)) == Onto(s, Pending(e, level));
  }

  lemma HoldsForOperands(ops: seq<Operation>, op: Operation, level: nat)
    requires Holds(ops, level) && IsBinary(op) && level <= Precedence(op)
    ensures Holds(ops, LeftLevel(op)) && Holds(ops + [op], RightLevel(op)) && LeftLevel(op) <= 9 && RightLevel(op) <= 9
  {
  }

  lemma BinaryText(cfg: Config, e: Expr, rest: seq<Token>)
    requires Printable(cfg, e) && IsOperator(e) && IsBinary(e.op)
    ensures Printable(cfg, e.args[0]) && Printable(cfg, e.args[1])
    ensures var after := [OperatorToken(e.op)] + (Print(e.args[1], RightLevel(e.op)) + rest);
            Follows(after) && PrintBare(e) + rest == Print(e.args[0], LeftLevel(e.op)) + after
  {
    Assoc(Print(e.args[0], LeftLevel(e.op)), [OperatorToken(e.op)], Print(e.args[1], RightLevel(e.op)), rest);
  }

  lemma Assoc(a: seq<Token>, b: seq<Token>, c: seq<Token>, d: seq<Token>)
    ensures a + b + c + d == a + (b + (c + d))
  {
  }

  lemma {:induction false} RunBinary(cfg: Config, e: Expr, level: nat, rest: seq<Token>, lit: seq<Token>, s: Stacks)
    returns (lit': seq<Token>)
    requires Printable(cfg, e) && Holds(s.ops, level) && Follows(rest) && level <= Level(e)
    requires IsOperator(e) && IsBinary(e.op)
    ensures Loop(cfg, Here(PrintBare(e) + rest, lit, s)) == Loop(cfg, Here(rest, lit', Onto(s, Pending(e, level))))
    decreases e, 0
  {
    hide Loop, Step, PrintBare, Print, Printable, Precedence, LeftLevel, RightLevel, Holds, OperatorToken;
    var op, l, r := e.op, e.args[0], e.args[1];
    var right := Print(r, RightLevel(op)) + rest;
    BinaryText(cfg, e, rest);
    HoldsForOperands(s.ops, op, level);
    var lit1 := Run(cfg, l, LeftLevel(op), [OperatorToken(op)] + right, lit, s);
    OperatorAfterOperand(cfg, op, l, right, lit1, s, level);
    var s' := Stacks(s.args + [l], s.ops + [op]);
    lit' := Run(cfg, r, RightLevel(op), rest, lit1, s');
    PendingOfBinary(e, level, s);
  }

  lemma PendingOfBinary(e: Expr, level: nat, s: Stacks)
    requires IsOperator(e) && IsBinary(e.op) && level <= Level(e)
    ensures Onto(Stacks(s.args + [e.args[0]], s.ops + [e.op]), Pending(e.args[1], RightLevel(e.op))) == Onto(s, Pending(e, level))
  {
  }

  // At a token that ends the expression, the pending stacks become the result.
  lemma EndOfExpression(cfg: Config, e: Expr, rest: seq<Token>, lit: seq<Token>)
    requires Stops(rest)
    ensures Loop(cfg, Here(rest, lit, Onto(Stacks([], []), Pending(e, 0)))) == Ok(Parsed(Some(e), rest, lit))
  {
    var empty := Stacks([], []);
    var end := Here(rest, lit, Onto(empty, Pending(e, 0)));
    assert Step(cfg, end) == Done;
    PendingCollapses(empty, e, 0, None);
    assert PopWhile(end.s, None) == Ok(Pushed(empty, e));
    assert Pushed(empty, e).args == [e];
  }

  // A complete expression, up to a token that ends it.
  lemma {:induction false} RunWhole(cfg: Config, e: Expr, rest: seq<Token>, lit: seq<Token>) returns (lit': seq<Token>)
    requires Printable(cfg, e) && Stops(rest)
    ensures ParseExpr(cfg, PrintBare(e) + rest, lit) == Ok(Parsed(Some(e), rest, lit'))
    decreases e, 2
  {
    hide Loop, PrintBare, Printable, Pending;
    lit' := RunBare(cfg, e, 0, rest, lit, Stacks([], []));
    EndOfExpression(cfg, e, rest, lit');
  }

  lemma NoExpression(cfg: Config, rest: seq<Token>, lit: seq<Token>)
    ensures ParseExpr(cfg, [RP] + rest, lit) == Ok(Parsed(None, [RP] + rest, lit))
  {
    assert Step(cfg, Here([RP] + rest, lit, Stacks([], []))) == Done;
  }

  lemma {:induction false} RunArgs(cfg: Config, args: seq<Expr>, rest: seq<Token>, lit: seq<Token>, open: Token)
    returns (lit': seq<Token>)
    requires forall a <- args :: Printable(cfg, a)
    ensures ParseArgs(cfg, [open] + PrintArgs(args) + [RP] + rest, lit) == Ok(Parsed(args, [RP] + rest, lit'))
    decreases args, 2
  {
    hide PrintBare, Loop, Step;
    var toks := [open] + PrintArgs(args) + [RP] + rest;
    if args == [] {
      assert toks[1..] == [RP] + rest;
      lit' := lit;
      NoExpression(cfg, rest, lit);
    } else {
      var a := args[0];
      var more := if |args| == 1 then [] else [COMMA] + PrintArgs(args[1..]);
      var after := more + [RP] + rest;
      assert Print(a, 0) == PrintBare(a);
      assert toks[1..] == PrintBare(a) + after;
      lit' := RunWhole(cfg, a, after, lit);
      if |args| > 1 {
        assert after == [COMMA] + PrintArgs(args[1..]) + [RP] + rest;
        lit' := RunArgs(cfg, args[1..], rest, lit', COMMA);
        assert [a] + args[1..] == args;
      } else {
        assert after == [RP] + rest;
        assert [a] == args;
      }
    }
  }

  lemma {:induction false} RunCallNode(cfg: Config, e: Expr, rest: seq<Token>, lit: seq<Token>, s: Stacks)
    returns (lit': seq<Token>)
    requires Printable(cfg, e) && e.Function? && !IsOperator(e)
    ensures Loop(cfg, Here(PrintBare(e) + rest, lit, s)) == Loop(cfg, Here(rest, lit', Pushed(s, e)))
    decreases e, 0
  {
    var toks := PrintBare(e) + rest;
    assert toks[0] == Token(Id, e.fname);
    assert toks[1..] == [LP] + PrintArgs(e.args) + [RP] + rest;
    lit' := RunArgs(cfg, e.args, rest, lit, LP);
    assert [] + e.args == e.args;
    assert ([RP] + rest)[1..] == rest;
    var st := Here(toks, lit, s);
    assert Step(cfg, st) == StepCall(cfg, st, e.fname, [], s.args, toks[1..]);
    assert ParseCall(cfg, e.fname, [], toks[1..], lit) == Ok(Parsed(e, [RP] + rest, lit'));
  }

  // Printing with only the parentheses the precedence table demands and parsing again gives back the tree.
  lemma RoundTrip(cfg: Config, e: Expr, rest: seq<Token>, lit: seq<Token>)
    requires Printable(cfg, e) && Stops(rest)
    ensures var r := ParseExpr(cfg, Print(e, 0) + rest, lit);
            r.Ok? && r.value.node == Some(e) && r.value.rest == rest
  {
    var _ := RunWhole(cfg, e, rest, lit);
  }

  // No two trees print alike.
  lemma PrintIsInjective(cfg: Config, e: Expr, f: Expr)
    requires Printable(cfg, e) && Printable(cfg, f) && Print(e, 0) == Print(f, 0)
    ensures e == f
  {
    RoundTrip(cfg, e, [], []);
    RoundTrip(cfg, f, [], []);
  }

  lemma PipeStep(cfg: Config, x: Expr, name: string, args: seq<Expr>, rest: seq<Token>, lit: seq<Token>, s: Stacks)
    returns (lit': seq<Token>)
    requires forall a <- args :: Printable(cfg, a)
    requires !FindFunction(cfg, name, |args| + 1).NoOperation?
    ensures Loop(cfg, Here([PIPE, Token(Id, name)] + ([LP] + PrintArgs(args) + [RP] + rest), lit, Pushed(s, x))) ==
            Loop(cfg, Here(rest, lit', Pushed(s, Function(FindFunction(cfg, name, |args| + 1), name, [x] + args))))
  {
    var tail := [LP] + PrintArgs(args) + [RP] + rest;
    var piped := [PIPE, Token(Id, name)] + tail;
    var s' := Pushed(s, x);
    assert s'.args[|s'.args| - 1..] == [x] && s'.args[..|s'.args| - 1] == s.args;
    assert piped[1..] == [Token(Id, name)] + tail && piped[2..] == tail;
    var st := Here(piped, lit, s');
    assert Step(cfg, st) == StepCall(cfg, st, name, [x], s.args, tail);
    lit' := RunArgs(cfg, args, rest, lit, LP);
    assert ([RP] + rest)[1..] == rest;
  }

  // Pipe syntax: `x | f(args)` after any primary operand parses as the call `f(x, args)`,
  // whatever operators are waiting to its left.
  lemma {:induction false} PipeIsCall(cfg: Config, x: Expr, name: string, args: seq<Expr>, rest: seq<Token>, lit: seq<Token>, s: Stacks)
    returns (lit': seq<Token>)
    requires Printable(cfg, x) && (forall a <- args :: Printable(cfg, a)) && Holds(s.ops, 9)
    requires !FindFunction(cfg, name, |args| + 1).NoOperation?
    ensures Loop(cfg, Here(Print(x, 9) + [PIPE, Token(Id, name), LP] + PrintArgs(args) + [RP] + rest, lit, s)) ==
            Loop(cfg, Here(rest, lit', Pushed(s, Function(FindFunction(cfg, name, |args| + 1), name, [x] + args))))
  {
    hide Loop;
    var piped := [PIPE, Token(Id, name)] + ([LP] + PrintArgs(args) + [RP] + rest);
    assert Print(x, 9) + [PIPE, Token(Id, name), LP] + PrintArgs(args) + [RP] + rest == Print(x, 9) + piped;
    var lit1 := Run(cfg, x, 9, piped, lit, s);
    assert Onto(s, Pending(x, 9)) == Pushed(s, x);
    lit' := PipeStep(cfg, x, name, args, rest, lit1, s);
  }
}
