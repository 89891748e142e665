// What an accepted expression amounts to: when it is empty, what happens to brackets left open, and that every other
// one is a tree that can be printed and read again.
module InjaOperands {
  import opened Wrappers
  import opened InjaSyntax
  import opened InjaExpression
  import L = InjaExpressionLimits

  // ---------------------------------------------------------------- empty expressions

  // Up to where the expression stops there are only brackets left open and what may stand inside them.
  predicate NoOperand(toks: seq<Token>, bracket: nat, brace: nat) {
    toks == [] ||
    var rest := toks[1..];
    var inside := bracket + brace > 0;
    OperatorOf(toks[0]).None? &&
    match toks[0].kind
    case LeftBracket => NoOperand(rest, bracket + 1, brace)
    case LeftBrace => NoOperand(rest, bracket, brace + 1)
    case RightBracket => bracket > 0 && bracket + brace > 1 && NoOperand(rest, bracket - 1, brace)
    case RightBrace => brace > 0 && bracket + brace > 1 && NoOperand(rest, bracket, brace - 1)
    case String | Number | Colon => inside && NoOperand(rest, bracket, brace)
    case Comma => inside ==> NoOperand(rest, bracket, brace)
    case Id => IsConstant(toks[0]) && inside && NoOperand(rest, bracket, brace)
    case LeftParen | Pipe => false
    case _ => true
  }

  // Before anything has been read a step goes on reading nothing exactly if the tokens do.
  lemma NoOperandStep(cfg: Config, st: LoopState)
    requires st.s == L.EMPTY && Step(cfg, st).Next?
    ensures var next := Step(cfg, st).st;
            NoOperand(st.toks, st.bracket, st.brace) <==> next.s == L.EMPTY && NoOperand(next.toks, next.bracket, next.brace)
  {
    hide ParseExpr, ParseCall, ParseArgs, PopWhile;
    if OperatorOf(st.toks[0]).Some? { L.OperatorBeforeOperand(st, OperatorOf(st.toks[0]).value); }
  }

  lemma DoneHere(cfg: Config, st: LoopState)
    requires st.s == L.EMPTY && Step(cfg, st).Done?
    ensures NoOperand(st.toks, st.bracket, st.brace)
  {
    hide ParseExpr, ParseCall, ParseArgs, PopWhile;
  }

  // An operator or an operand, once read, stays.
  lemma StepKeepsSome(cfg: Config, st: LoopState)
    requires st.s != L.EMPTY && Step(cfg, st).Next?
    ensures Step(cfg, st).st.s != L.EMPTY
  {
    hide ParseExpr, ParseCall, ParseArgs, PopWhile;
    if st.s.args != [] {
      L.OperandsStay(cfg, st);
    } else if OperatorOf(st.toks[0]).Some? {
      L.OperatorBeforeOperand(st, OperatorOf(st.toks[0]).value);
    } else if st.toks[0].kind.LeftParen? {
      assert Step(cfg, st) == StepParen(cfg, st);
    }
  }

  lemma {:induction false} LoopYieldsSome(cfg: Config, st: LoopState)
    requires st.s != L.EMPTY && Loop(cfg, st).Ok?
    ensures Loop(cfg, st).value.node.Some?
    decreases |st.toks|
  {
    hide Step;
    match Step(cfg, st)
    case Next(next) =>
      StepKeepsSome(cfg, st);
      LoopYieldsSome(cfg, next);
    case Done => L.PopWhileShrinks(st.s, None);
  }

  lemma {:induction false} LoopEmptyExactly(cfg: Config, st: LoopState)
    requires st.s == L.EMPTY && Loop(cfg, st).Ok?
    ensures Loop(cfg, st).value.node.None? <==> NoOperand(st.toks, st.bracket, st.brace)
    decreases |st.toks|
  {
    hide Step, NoOperand;
    match Step(cfg, st)
    case Next(next) =>
      NoOperandStep(cfg, st);
      if next.s == L.EMPTY { LoopEmptyExactly(cfg, next); } else { LoopYieldsSome(cfg, next); }
    case Done => DoneHere(cfg, st);
  }

  // An accepted expression is empty exactly if its tokens hold no operand.
  lemma EmptyExactly(cfg: Config, toks: seq<Token>, lit: seq<Token>)
    requires ParseExpr(cfg, toks, lit).Ok?
    ensures ParseExpr(cfg, toks, lit).value.node.None? <==> NoOperand(toks, 0, 0)
  {
    hide Loop, NoOperand;
    LoopEmptyExactly(cfg, At(toks, lit, 0, 0, L.EMPTY));
  }

  // ---------------------------------------------------------------- brackets left open

  // Read at depth (bracket, brace), the tokens of a JSON text, none of which closes the last bracket.
  predicate StaysOpen(text: seq<Token>, bracket: nat, brace: nat)
  {
    bracket + brace > 0 &&
    (text != [] ==>
       IsJsonToken(text[0]) &&
       var (b, c) := Depth(text[0], bracket, brace);
       b >= 0 && c >= 0 && StaysOpen(text[1..], b, c))
  }

  lemma {:induction false} OpenVanishes(cfg: Config, text: seq<Token>, rest: seq<Token>, lit: seq<Token>, bracket: nat, brace: nat, s: Stacks)
    requires StaysOpen(text, bracket, brace) && Stops(rest) && !First(rest).kind.Comma?
    ensures Loop(cfg, At(text + rest, lit, bracket, brace, s)) == Finish(At(rest, lit, bracket, brace, s))
    decreases |text|
  {
    hide Step;
    var st := At(text + rest, lit, bracket, brace, s);
    if text == [] {
      assert text + rest == rest;
      StopsAnywhere(cfg, st);
    } else {
      LiteralStep(cfg, st);
      assert (text + rest)[1..] == text[1..] + rest;
      var (b, c) := Depth(text[0], bracket, brace);
      assert b + c > 0 && Step(cfg, st) == Next(At(text[1..] + rest, lit, b, c, s));
      OpenVanishes(cfg, text[1..], rest, lit, b, c, s);
    }
  }

  lemma StopsAnywhere(cfg: Config, st: LoopState)
    requires Stops(st.toks) && !First(st.toks).kind.Comma?
    ensures Step(cfg, st) == Done
  {
  }

  function Brackets(open: Token): nat { if open.kind.LeftBracket? then 1 else 0 }

  function Braces(open: Token): nat { if open.kind.LeftBrace? then 1 else 0 }

  lemma BracketOpens(cfg: Config, toks: seq<Token>, lit: seq<Token>, s: Stacks)
    requires toks != [] && (toks[0].kind.LeftBracket? || toks[0].kind.LeftBrace?)
    ensures Step(cfg, Here(toks, lit, s)) == Next(At(toks[1..], toks, Brackets(toks[0]), Braces(toks[0]), s))
  {
  }

  // A bracket that is never closed vanishes with all that stands inside: the expression is what was read before it.
  lemma UnclosedBracketVanishes(cfg: Config, open: Token, text: seq<Token>, rest: seq<Token>, lit: seq<Token>, s: Stacks)
    requires (open.kind.LeftBracket? || open.kind.LeftBrace?) && StaysOpen(text, Brackets(open), Braces(open))
    requires Stops(rest) && !First(rest).kind.Comma?
    ensures var out, before := Loop(cfg, Here([open] + (text + rest), lit, s)), Finish(Here(rest, lit, s));
            if before.Err? then out == before else out.Ok? && out.value.node == before.value.node && out.value.rest == rest
  {
    hide StaysOpen, Stops, Step, PopWhile;
    var toks := [open] + (text + rest);
    assert toks[1..] == text + rest;
    OpenVanishes(cfg, text, rest, toks, Brackets(open), Braces(open), s);
    BracketOpens(cfg, toks, lit, s);
  }

  // `x [ 1` is accepted as `x`, and `[ 1` as nothing at all.
  lemma UnclosedBracketAccepted(cfg: Config, x: string, one: Token, rest: seq<Token>, lit: seq<Token>)
    requires !Reserved(x) && one.kind.Number? && Stops(rest) && !First(rest).kind.Comma?
    ensures var toks := [Token(Id, x), Token(LeftBracket, "["), one] + rest;
            var (some, none) := (ParseExpr(cfg, toks, lit), ParseExpr(cfg, toks[1..], lit));
            some.Ok? && some.value.node == Some(Data(x)) && some.value.rest == rest &&
            none.Ok? && none.value.node == None && none.value.rest == rest
  {
    hide Stops, Finish;
    var open := Token(LeftBracket, "[");
    var toks := [Token(Id, x), open, one] + rest;
    assert toks[1..] == [open] + ([one] + rest);
    assert StaysOpen([one], 1, 0) by { assert [one][1..] == []; }
    UnclosedBracketVanishes(cfg, open, [one], rest, lit, L.EMPTY);
    UnclosedBracketVanishes(cfg, open, [one], rest, lit, Pushed(L.EMPTY, Data(x)));
    assert Step(cfg, Here(toks, lit, L.EMPTY)) == Next(Here(toks[1..], lit, Pushed(L.EMPTY, Data(x))));
    FinishOne(rest, lit, x);
  }

  lemma FinishOne(rest: seq<Token>, lit: seq<Token>, x: string)
    ensures Finish(Here(rest, lit, L.EMPTY)) == Ok(Parsed(None, rest, lit))
    ensures Finish(Here(rest, lit, Pushed(L.EMPTY, Data(x)))) == Ok(Parsed(Some(Data(x)), rest, lit))
  {
  }

  // How many more brackets and braces open than close.
  function Balance(toks: seq<Token>): int {
    if toks == [] then 0
    else
      Balance(toks[1..]) +
      (match toks[0].kind
       case LeftBracket | LeftBrace => 1
       case RightBracket | RightBrace => -1
       case _ => 0)
  }

  // The levels that are still open where an expression ends, in it and in all the expressions inside it.
  function LeftOpen(cfg: Config, toks: seq<Token>, lit: seq<Token>): nat
    decreases |toks|, 2
  {
    LeftOpenFrom(cfg, Here(toks, lit, L.EMPTY))
  }

  function LeftOpenFrom(cfg: Config, st: LoopState): nat
    decreases |st.toks|, 1
  {
    match Step(cfg, st)
    case Next(next) => LeftOpenInside(cfg, st) + LeftOpenFrom(cfg, next)
    case Done => st.bracket + st.brace
    case Fail(_) => 0
  }

  // In the parenthesis or call that opens at this step.
  function LeftOpenInside(cfg: Config, st: LoopState): nat
    decreases |st.toks|, 0
  {
    if st.toks == [] || OperatorOf(st.toks[0]).Some? then 0
    else match st.toks[0].kind
      case LeftParen => LeftOpen(cfg, st.toks[1..], st.lit)
      case Id =>
        if !IsConstant(st.toks[0]) && First(st.toks[1..]).kind.LeftParen? then LeftOpenArgs(cfg, st.toks[1..], st.lit) else 0
      case Pipe =>
        if First(st.toks[1..]).kind.Id? && First(st.toks[2..]).kind.LeftParen? then LeftOpenArgs(cfg, st.toks[2..], st.lit) else 0
      case _ => 0
  }

  function LeftOpenArgs(cfg: Config, toks: seq<Token>, lit: seq<Token>): nat
    requires toks != []
    decreases |toks|, 0
  {
    var r := ParseExpr(cfg, toks[1..], lit);
    LeftOpen(cfg, toks[1..], lit) +
    if r.Ok? && r.value.node.Some? && First(r.value.rest).kind.Comma? then LeftOpenArgs(cfg, r.value.rest, r.value.lit) else 0
  }

  lemma {:induction false} ArgsCounted(cfg: Config, toks: seq<Token>, lit: seq<Token>)
    requires toks != [] && ParseArgs(cfg, toks, lit).Ok? && (toks[0].kind.LeftParen? || toks[0].kind.Comma?)
    ensures Balance(toks) == Balance(ParseArgs(cfg, toks, lit).value.rest) + LeftOpenArgs(cfg, toks, lit)
    decreases |toks|, 0
  {
    hide ParseExpr, LeftOpen;
    BracketsAreCounted(cfg, toks[1..], lit);
    var r := ParseExpr(cfg, toks[1..], lit);
    if r.value.node.Some? && First(r.value.rest).kind.Comma? { ArgsCounted(cfg, r.value.rest, r.value.lit); }
  }

  lemma {:induction false} CallCounted(cfg: Config, st: LoopState, name: string, first: seq<Expr>, args: seq<Expr>, open: seq<Token>)
    requires 0 < |open| < |st.toks| && open[0].kind.LeftParen? && StepCall(cfg, st, name, first, args, open).Next?
    ensures var next := StepCall(cfg, st, name, first, args, open).st;
            Balance(open) == Balance(next.toks) + LeftOpenArgs(cfg, open, st.lit) &&
            next.bracket == st.bracket && next.brace == st.brace
    decreases |open|, 1
  {
    hide ParseArgs, LeftOpenArgs, MakeCall;
    ArgsCounted(cfg, open, st.lit);
  }

  lemma {:induction false} PipeCounted(cfg: Config, st: LoopState)
    requires st.toks != [] && st.toks[0].kind.Pipe? && StepPipe(cfg, st).Next?
    ensures var next := StepPipe(cfg, st).st;
            Balance(st.toks) == Balance(next.toks) + LeftOpenInside(cfg, st) &&
            next.bracket == st.bracket && next.brace == st.brace
    decreases |st.toks|, 0
  {
    hide ParseCall, LeftOpenArgs, MakeCall;
    var toks := st.toks;
    assert toks[1..][1..] == toks[2..];
    if First(toks[2..]).kind.LeftParen? {
      var operand, below := st.s.args[|st.s.args| - 1..], st.s.args[..|st.s.args| - 1];
      CallCounted(cfg, st, toks[1].text, operand, below, toks[2..]);
      assert StepPipe(cfg, st) == StepCall(cfg, st, toks[1].text, operand, below, toks[2..]);
    }
  }

  lemma {:induction false} StepCounted(cfg: Config, st: LoopState)
    requires Step(cfg, st).Next?
    ensures var next := Step(cfg, st).st;
            Balance(st.toks) + st.bracket + st.brace == Balance(next.toks) + next.bracket + next.brace + LeftOpenInside(cfg, st)
    decreases |st.toks|, 1
  {
    hide ParseExpr, ParseCall, PopWhile, LeftOpen, LeftOpenArgs;
    var t := st.toks[0];
    if OperatorOf(t).Some? {
      assert Step(cfg, st) == StepOperator(st, OperatorOf(t).value);
    } else if t.kind.LeftParen? {
      assert Step(cfg, st) == StepParen(cfg, st);
      BracketsAreCounted(cfg, st.toks[1..], st.lit);
    } else if t.kind.Pipe? {
      assert Step(cfg, st) == StepPipe(cfg, st);
      PipeCounted(cfg, st);
    } else if t.kind.Id? && !IsConstant(t) && First(st.toks[1..]).kind.LeftParen? {
      assert Step(cfg, st) == StepCall(cfg, st, t.text, [], st.s.args, st.toks[1..]);
      CallCounted(cfg, st, t.text, [], st.s.args, st.toks[1..]);
    }
  }

  lemma {:induction false} LoopCounted(cfg: Config, st: LoopState)
    requires Loop(cfg, st).Ok?
    ensures Balance(st.toks) + st.bracket + st.brace == Balance(Loop(cfg, st).value.rest) + LeftOpenFrom(cfg, st)
    decreases |st.toks|, 2
  {
    hide Step, LeftOpenInside, PopWhile, Balance;
    match Step(cfg, st)
    case Next(next) =>
      StepCounted(cfg, st);
      LoopCounted(cfg, next);
    case Done =>
  }

  // In what an accepted expression has read, as many more brackets open than close as are left open in it.
  lemma {:induction false} BracketsAreCounted(cfg: Config, toks: seq<Token>, lit: seq<Token>)
    requires ParseExpr(cfg, toks, lit).Ok?
    ensures Balance(toks) == Balance(ParseExpr(cfg, toks, lit).value.rest) + LeftOpen(cfg, toks, lit)
    decreases |toks|, 3
  {
    hide Loop, LeftOpenFrom, Balance;
    LoopCounted(cfg, Here(toks, lit, L.EMPTY));
  }

  // So none is left open if and only if as many close as open.
  lemma BracketsAreClosed(cfg: Config, toks: seq<Token>, lit: seq<Token>)
    requires ParseExpr(cfg, toks, lit).Ok?
    ensures LeftOpen(cfg, toks, lit) == 0 <==> Balance(toks) == Balance(ParseExpr(cfg, toks, lit).value.rest)
  {
    hide ParseExpr, LeftOpen, Balance;
    BracketsAreCounted(cfg, toks, lit);
  }

  // ---------------------------------------------------------------- every other one is a tree

  // The JSON reader takes only JSON texts, and functions have names of their own.
  ghost predicate Honest(cfg: Config) {
    (forall text :: cfg.validJson(text) ==> LiteralText(text)) &&
    forall f <- cfg.functions :: f.0 != "" && !Reserved(f.0)
  }

  ghost predicate PrintableStacks(cfg: Config, s: Stacks) {
    (forall e <- s.args :: Printable(cfg, e)) && forall op <- s.ops :: IsBinary(op) || op.Not?
  }

  lemma AddOperatorPrintable(cfg: Config, s: Stacks)
    requires PrintableStacks(cfg, s) && s.ops != [] && AddOperator(s).Ok?
    ensures PrintableStacks(cfg, AddOperator(s).value)
  {
    var op := s.ops[|s.ops| - 1];
    assert op in s.ops;
    var n := NumberArgs(op);
    var taken := s.args[|s.args| - n..];
    assert forall e <- taken :: e in s.args;
    assert Printable(cfg, Function(op, "", taken));
  }

  lemma {:induction false} PopWhilePrintable(cfg: Config, s: Stacks, incoming: Option<Operation>)
    requires PrintableStacks(cfg, s) && PopWhile(s, incoming).Ok?
    ensures PrintableStacks(cfg, PopWhile(s, incoming).value)
    decreases |s.ops|
  {
    hide PrintableStacks;
    if s.ops != [] && Pops(s.ops[|s.ops| - 1], incoming) {
      AddOperatorPrintable(cfg, s);
      PopWhilePrintable(cfg, AddOperator(s).value, incoming);
    }
  }

  lemma CallPrintable(cfg: Config, name: string, args: seq<Expr>)
    requires Honest(cfg) && (forall e <- args :: Printable(cfg, e)) && MakeCall(cfg, name, args).Ok?
    ensures Printable(cfg, MakeCall(cfg, name, args).value)
  {
    assert (name, |args|) in cfg.functions || (name, -1) in cfg.functions;
  }

  ghost predicate PrintableOutcome(cfg: Config, o: Outcome) { o.Next? ==> PrintableStacks(cfg, o.st.s) }

  lemma {:induction false} ArgsPrintable(cfg: Config, toks: seq<Token>, lit: seq<Token>)
    requires Honest(cfg) && toks != []
    ensures var r := ParseArgs(cfg, toks, lit); r.Ok? ==> forall e <- r.value.node :: Printable(cfg, e)
    decreases |toks|, 0
  {
    hide ParseExpr, Honest, Printable;
    ParsedIsPrintable(cfg, toks[1..], lit);
    var r := ParseExpr(cfg, toks[1..], lit);
    if r.Ok? && r.value.node.Some? && First(r.value.rest).kind.Comma? { ArgsPrintable(cfg, r.value.rest, r.value.lit); }
  }

  lemma {:induction false} StepCallPrintable(cfg: Config, st: LoopState, name: string, first: seq<Expr>, args: seq<Expr>,
                                             open: seq<Token>)
    requires Honest(cfg) && 0 < |open| < |st.toks| && PrintableStacks(cfg, st.s)
    requires (forall e <- first :: e in st.s.args) && forall e <- args :: e in st.s.args
    ensures PrintableOutcome(cfg, StepCall(cfg, st, name, first, args, open))
    decreases |open|, 1
  {
    hide ParseArgs, Honest, Printable, MakeCall;
    ArgsPrintable(cfg, open, st.lit);
    var r := ParseCall(cfg, name, first, open, st.lit);
    if r.Ok? { CallPrintable(cfg, name, first + ParseArgs(cfg, open, st.lit).value.node); }
  }

  lemma {:induction false} StepPipePrintable(cfg: Config, st: LoopState)
    requires Honest(cfg) && st.toks != [] && PrintableStacks(cfg, st.s)
    ensures PrintableOutcome(cfg, StepPipe(cfg, st))
    decreases |st.toks| - 1, 2
  {
    hide ParseCall, Honest, Printable, MakeCall;
    var s := st.s;
    if First(st.toks[1..]).kind.Id? && s.args != [] {
      var operand, below := s.args[|s.args| - 1..], s.args[..|s.args| - 1];
      if First(st.toks[2..]).kind.LeftParen? {
        StepCallPrintable(cfg, st, st.toks[1].text, operand, below, st.toks[2..]);
        assert StepPipe(cfg, st) == StepCall(cfg, st, st.toks[1].text, operand, below, st.toks[2..]);
      } else if MakeCall(cfg, st.toks[1].text, operand).Ok? {
        CallPrintable(cfg, st.toks[1].text, operand);
      }
    }
  }

  lemma StepLiteralPrintable(cfg: Config, st: LoopState)
    requires Honest(cfg) && st.toks != [] && PrintableStacks(cfg, st.s)
    ensures PrintableOutcome(cfg, StepLiteral(cfg, st))
  {
    hide LiteralText;
  }

  lemma StepOperatorPrintable(cfg: Config, st: LoopState, op: Operation)
    requires st.toks != [] && PrintableStacks(cfg, st.s) && (IsBinary(op) || op.Not?)
    ensures PrintableOutcome(cfg, StepOperator(st, op))
  {
    hide Printable;
    if PopWhile(st.s, Some(op)).Ok? { PopWhilePrintable(cfg, st.s, Some(op)); }
  }

  lemma {:induction false} StepPrintable(cfg: Config, st: LoopState)
    requires Honest(cfg) && PrintableStacks(cfg, st.s)
    ensures PrintableOutcome(cfg, Step(cfg, st))
    decreases |st.toks|, 0
  {
    hide ParseExpr, ParseCall, Honest, StepLiteral, StepOperator, PrintableStacks;
    if st.toks != [] {
      var t := st.toks[0];
      if OperatorOf(t).Some? {
        StepOperatorPrintable(cfg, st, OperatorOf(t).value);
      } else if t.kind.LeftParen? {
        assert Step(cfg, st) == StepParen(cfg, st);
        ParsedIsPrintable(cfg, st.toks[1..], st.lit);
        StepParenPrintable(cfg, st);
      } else if t.kind.Pipe? {
        assert Step(cfg, st) == StepPipe(cfg, st);
        StepPipePrintable(cfg, st);
      } else if t.kind.Id? && !IsConstant(t) && First(st.toks[1..]).kind.LeftParen? {
        assert Step(cfg, st) == StepCall(cfg, st, t.text, [], st.s.args, st.toks[1..]);
        StepCallPrintable(cfg, st, t.text, [], st.s.args, st.toks[1..]);
      } else {
        StepPlainPrintable(cfg, st);
      }
    }
  }

  lemma StepParenPrintable(cfg: Config, st: LoopState)
    requires st.toks != [] && PrintableStacks(cfg, st.s)
    requires var r := ParseExpr(cfg, st.toks[1..], st.lit); r.Ok? && r.value.node.Some? ==> Printable(cfg, r.value.node.value)
    ensures PrintableOutcome(cfg, StepParen(cfg, st))
  {
    hide ParseExpr, Printable;
  }

  // Literals, names and brackets.
  lemma StepPlainPrintable(cfg: Config, st: LoopState)
    requires Honest(cfg) && PrintableStacks(cfg, st.s) && st.toks != [] && OperatorOf(st.toks[0]).None?
    requires var t := st.toks[0];
             !t.kind.LeftParen? && !t.kind.Pipe? && !(t.kind.Id? && !IsConstant(t) && First(st.toks[1..]).kind.LeftParen?)
    ensures PrintableOutcome(cfg, Step(cfg, st))
  {
    hide StepLiteral, Honest;
    StepLiteralPrintable(cfg, st.(lit := st.toks));
    StepLiteralPrintable(cfg, st.(bracket := 0));
    StepLiteralPrintable(cfg, st.(brace := 0));
  }

  lemma {:induction false} LoopPrintable(cfg: Config, st: LoopState)
    requires Honest(cfg) && PrintableStacks(cfg, st.s)
    ensures var r := Loop(cfg, st); r.Ok? && r.value.node.Some? ==> Printable(cfg, r.value.node.value)
    decreases |st.toks|, 1
  {
    hide Step, Honest, Printable;
    StepPrintable(cfg, st);
    match Step(cfg, st)
    case Next(next) => LoopPrintable(cfg, next);
    case Done => if PopWhile(st.s, None).Ok? { PopWhilePrintable(cfg, st.s, None); }
    case Fail(_) =>
  }

  // With a JSON reader that takes only JSON texts, whatever the parser makes of any tokens can be printed.
  lemma {:induction false} ParsedIsPrintable(cfg: Config, toks: seq<Token>, lit: seq<Token>)
    requires Honest(cfg)
    ensures var r := ParseExpr(cfg, toks, lit); r.Ok? && r.value.node.Some? ==> Printable(cfg, r.value.node.value)
    decreases |toks|, 2
  {
    hide Loop, Honest, Printable;
    LoopPrintable(cfg, At(toks, lit, 0, 0, L.EMPTY));
  }

  // So it is parsed again from its print: printing what was read gives its normal form.
  lemma PrintedParsesAgain(cfg: Config, toks: seq<Token>, lit: seq<Token>, rest: seq<Token>)
    requires Honest(cfg) && Stops(rest) && ParseExpr(cfg, toks, lit).Ok? && ParseExpr(cfg, toks, lit).value.node.Some?
    ensures var e := ParseExpr(cfg, toks, lit).value.node.value;
            var r := ParseExpr(cfg, Print(e, 0) + rest, lit);
            r.Ok? && r.value.node == Some(e) && r.value.rest == rest
  {
    hide ParseExpr, Print, Printable, Honest, Stops;
    ParsedIsPrintable(cfg, toks, lit);
    RoundTrip(cfg, ParseExpr(cfg, toks, lit).value.node.value, rest, lit);
  }
}
