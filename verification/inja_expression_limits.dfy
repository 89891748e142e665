// Where the expression parser does something else than the grammar suggests, and exactly when: `not` after an
// operator that binds as tightly, and pipes without an operand.
module InjaExpressionLimits {
  import opened Wrappers
  import opened InjaSyntax
  import opened InjaExpression

  const NOT := OperatorToken(Not)

  function NotOf(e: Expr): Expr { Function(Not, "", [e]) }

  function BinaryOf(op: Operation, l: Expr, r: Expr): Expr { Function(op, "", [l, r]) }

  // ---------------------------------------------------------------- not after an operator

  // Reading `not` while an operator awaits its right operand. One that binds more loosely goes on waiting; any other
  // is popped and takes what stands to its left instead, or fails if nothing does.
  lemma NotAfterOperator(cfg: Config, op: Operation, l: Expr, rest: seq<Token>, lit: seq<Token>, s: Stacks)
    requires IsBinary(op)
    ensures Loop(cfg, Here([NOT] + rest, lit, Stacks(s.args + [l], s.ops + [op]))) ==
            if Precedence(op) < 4 then Loop(cfg, Here(rest, lit, Stacks(s.args + [l], s.ops + [op, Not])))
            else if s.args == [] then Err(TooFewArguments)
            else Loop(cfg, Here([NOT] + rest, lit, Taken(s, op, l)))
  {
    hide Loop;
    var t := Stacks(s.args + [l], s.ops + [op]);
    assert ([NOT] + rest)[1..] == rest;
    assert t.ops[..|s.ops|] == s.ops;
    assert t.ops + [Not] == s.ops + [op, Not];
    NotRead(cfg, rest, lit, t);
    if Precedence(op) >= 4 && s.args != [] {
      var n := |s.args| - 1;
      assert t.args[..n] == s.args[..n] && t.args[n..] == [s.args[n], l];
      assert AddOperator(t) == Ok(Taken(s, op, l));
      NotRead(cfg, rest, lit, Taken(s, op, l));
    }
  }

  // The stacks once `op` has taken its left neighbour and `l`.
  function Taken(s: Stacks, op: Operation, l: Expr): Stacks
    requires s.args != []
  {
    var n := |s.args| - 1;
    Stacks(s.args[..n] + [BinaryOf(op, s.args[n], l)], s.ops)
  }

  // The same for a `not` that awaits its operand: it never goes on waiting.
  lemma NotAfterNot(cfg: Config, rest: seq<Token>, lit: seq<Token>, s: Stacks)
    ensures Loop(cfg, Here([NOT] + rest, lit, s.(ops := s.ops + [Not]))) ==
            if s.args == [] then Err(TooFewArguments)
            else Loop(cfg, Here([NOT] + rest, lit, s.(args := s.args[..|s.args| - 1] + [NotOf(s.args[|s.args| - 1])])))
  {
    hide Loop;
    var t := s.(ops := s.ops + [Not]);
    assert t.ops[..|s.ops|] == s.ops;
    NotRead(cfg, rest, lit, t);
    if s.args != [] {
      var t' := s.(args := s.args[..|s.args| - 1] + [NotOf(s.args[|s.args| - 1])]);
      assert s.args[|s.args| - 1..] == [s.args[|s.args| - 1]];
      assert AddOperator(t) == Ok(t');
      NotRead(cfg, rest, lit, t');
    }
  }

  lemma NotRead(cfg: Config, rest: seq<Token>, lit: seq<Token>, s: Stacks)
    ensures Loop(cfg, Here([NOT] + rest, lit, s)) ==
            var p := PopWhile(s, Some(Not));
            if p.Err? then Err(p.error) else Loop(cfg, Here(rest, lit, p.value.(ops := p.value.ops + [Not])))
  {
    OperatorStep(cfg, Not, rest, lit, s);
    assert ([NOT] + rest)[1..] == rest;
  }

  // ---------------------------------------------------------------- when the tree comes back

  // How many operators hang on the right edge of a tree.
  function Edge(e: Expr): nat {
    if e.Function? && e.fname == "" && e.args != [] then 1 + Edge(e.args[|e.args| - 1]) else 0
  }

  function LastArg(s: Stacks): Expr
    requires s.args != []
  {
    s.args[|s.args| - 1]
  }

  lemma AddOperatorEdge(s: Stacks)
    requires s.ops != [] && AddOperator(s).Ok?
    ensures var r := AddOperator(s).value;
            s.args != [] && r.args != [] && Edge(LastArg(r)) == Edge(LastArg(s)) + 1 && r.ops == s.ops[..|s.ops| - 1]
  {
  }

  // At the end every pending operator goes onto the right edge of the result.
  lemma {:induction false} PopAllEdge(s: Stacks)
    requires s.args != [] && PopWhile(s, None).Ok?
    ensures var r := PopWhile(s, None).value; r.args != [] && Edge(LastArg(r)) == |s.ops| + Edge(LastArg(s))
    decreases |s.ops|
  {
    if s.ops != [] {
      AddOperatorEdge(s);
      PopAllEdge(AddOperator(s).value);
    }
  }

  lemma {:induction false} PopWhileShrinks(s: Stacks, incoming: Option<Operation>)
    requires PopWhile(s, incoming).Ok?
    ensures |PopWhile(s, incoming).value.ops| <= |s.ops| && (s.args != [] ==> PopWhile(s, incoming).value.args != [])
    ensures s.ops != [] && Pops(s.ops[|s.ops| - 1], incoming) ==> |PopWhile(s, incoming).value.ops| < |s.ops|
    decreases |s.ops|
  {
    if s.ops != [] && Pops(s.ops[|s.ops| - 1], incoming) {
      AddOperatorEdge(s);
      PopWhileShrinks(AddOperator(s).value, incoming);
    }
  }

  // The rest of an expression that ends with `not r`, from the state before it.
  lemma RunNotOperand(cfg: Config, r: Expr, rest: seq<Token>, lit: seq<Token>, s: Stacks)
    returns (lit': seq<Token>)
    requires Printable(cfg, r) && Stops(rest)
    ensures Loop(cfg, Here([NOT] + (Print(r, 5) + rest), lit, s)) ==
            var p := PopWhile(s, Some(Not));
            if p.Err? then Err(p.error)
            else Finish(Here(rest, lit', Stacks(p.value.args + [r], p.value.ops + [Not])))
  {
    hide Loop, Print, PopWhile, Printable;
    NotRead(cfg, Print(r, 5) + rest, lit, s);
    lit' := lit;
    var p := PopWhile(s, Some(Not));
    if p.Ok? {
      var t := p.value.(ops := p.value.ops + [Not]);
      lit' := Run(cfg, r, 5, rest, lit, t);
      EndsHere(cfg, Here(rest, lit', Onto(t, Pending(r, 5))));
      PendingCollapses(t, r, 5, None);
      assert Pushed(t, r) == Stacks(p.value.args + [r], p.value.ops + [Not]);
      hide Pending;
      assert Finish(Here(rest, lit', Onto(t, Pending(r, 5)))) == Finish(Here(rest, lit', Pushed(t, r)));
    }
  }

  lemma EndsHere(cfg: Config, st: LoopState)
    requires Stops(st.toks) && st.bracket == st.brace == 0
    ensures Loop(cfg, st) == Finish(st)
  {
    assert Step(cfg, st) == Done;
  }

  // What an expression whose last operand is `e` yields, the stacks before that operand being s.
  function Completed(s: Stacks, e: Expr): ExprResult<Expr> {
    var r := PopWhile(Pushed(s, e), None);
    if r.Err? then Err(r.error)
    else if |r.value.args| != 1 then Err(Malformed)
    else Ok(r.value.args[0])
  }

  lemma CompletedBinary(s: Stacks, op: Operation, l: Expr, r: Expr)
    requires IsBinary(op)
    ensures PopWhile(Stacks(s.args + [l, r], s.ops + [op, Not]), None) == PopWhile(Pushed(s, BinaryOf(op, l, NotOf(r))), None)
  {
    var t := Stacks(s.args + [l], s.ops + [op]);
    var e := BinaryOf(op, l, NotOf(r));
    Assembles(t, NotOf(r));
    Assembles(s, e);
    assert t.args + [r] == s.args + [l, r] && t.ops + [Not] == s.ops + [op, Not];
    assert Pushed(t, NotOf(r)) == Stacks(s.args + e.args, s.ops + [op]);
  }

  lemma CompletedEdge(s: Stacks, e: Expr)
    requires Completed(s, e).Ok?
    ensures Edge(Completed(s, e).value) == |s.ops| + Edge(e)
  {
    PopAllEdge(Pushed(s, e));
  }

  lemma FinishEdge(st: LoopState)
    requires st.s.args != [] && Finish(st).Ok? && Finish(st).value.node.Some?
    ensures Edge(Finish(st).value.node.value) == |st.s.ops| + Edge(LastArg(st.s))
  {
    PopAllEdge(st.s);
  }

  // In every context in which `l op (not r)` may stand last and that then completes: written without the
  // parentheses the tree comes back if and only if `op` binds more loosely than `not`.
  lemma NotComesBack(cfg: Config, op: Operation, l: Expr, r: Expr, rest: seq<Token>, lit: seq<Token>, s: Stacks, level: nat)
    requires Printable(cfg, l) && Printable(cfg, r) && IsBinary(op) && Stops(rest)
    requires Holds(s.ops, level) && level <= Precedence(op) && Completed(s, BinaryOf(op, l, NotOf(r))).Ok?
    ensures var tree := Completed(s, BinaryOf(op, l, NotOf(r))).value;
            var text := Print(l, LeftLevel(op)) + ([OperatorToken(op)] + ([NOT] + (Print(r, 5) + rest)));
            var out := Loop(cfg, Here(text, lit, s));
            (out.Ok? && out.value.node == Some(tree)) <==> Precedence(op) < 4
  {
    hide Loop, Print, Printable, PopWhile;
    var after := [NOT] + (Print(r, 5) + rest);
    HoldsForOperands(s.ops, op, level);
    var lit1 := Run(cfg, l, LeftLevel(op), [OperatorToken(op)] + after, lit, s);
    OperatorAfterOperand(cfg, op, l, after, lit1, s, level);
    var t := Stacks(s.args + [l], s.ops + [op]);
    var lit2 := RunNotOperand(cfg, r, rest, lit1, t);
    NotDecides(s, op, l, r, rest, lit2);
  }

  lemma NotDecides(s: Stacks, op: Operation, l: Expr, r: Expr, rest: seq<Token>, lit: seq<Token>)
    requires IsBinary(op) && Completed(s, BinaryOf(op, l, NotOf(r))).Ok?
    ensures var p := PopWhile(Stacks(s.args + [l], s.ops + [op]), Some(Not));
            var out := if p.Err? then Err(p.error)
                       else Finish(Here(rest, lit, Stacks(p.value.args + [r], p.value.ops + [Not])));
            (out.Ok? && out.value.node == Some(Completed(s, BinaryOf(op, l, NotOf(r))).value)) <==> Precedence(op) < 4
  {
    var t := Stacks(s.args + [l], s.ops + [op]);
    var p := PopWhile(t, Some(Not));
    if Precedence(op) < 4 {
      assert p == Ok(t);
      CompletedBinary(s, op, l, r);
      assert t.args + [r] == s.args + [l, r] && t.ops + [Not] == s.ops + [op, Not];
    } else if p.Ok? {
      TooShallow(s, BinaryOf(op, l, NotOf(r)), t, r, rest, lit);
    }
  }

  // A stack from which `not` pops an operator cannot complete to a tree with as long an edge.
  lemma TooShallow(s: Stacks, e: Expr, t: Stacks, r: Expr, rest: seq<Token>, lit: seq<Token>)
    requires Completed(s, e).Ok? && Edge(e) == 2 + Edge(r)
    requires |t.ops| == |s.ops| + 1 && Pops(t.ops[|s.ops|], Some(Not)) && PopWhile(t, Some(Not)).Ok?
    ensures var p := PopWhile(t, Some(Not)).value;
            var out := Finish(Here(rest, lit, Stacks(p.args + [r], p.ops + [Not])));
            out.Ok? ==> out.value.node != Some(Completed(s, e).value)
  {
    PopWhileShrinks(t, Some(Not));
    CompletedEdge(s, e);
    hide PopWhile, Completed, Finish;
    var p := PopWhile(t, Some(Not)).value;
    var end := Here(rest, lit, Stacks(p.args + [r], p.ops + [Not]));
    if Finish(end).Ok? && Finish(end).value.node.Some? { FinishEdge(end); }
  }

  // And a second `not` right after a first never comes back.
  lemma NotNotNeverComesBack(cfg: Config, r: Expr, rest: seq<Token>, lit: seq<Token>, s: Stacks, level: nat)
    requires Printable(cfg, r) && Stops(rest) && Holds(s.ops, level) && level <= 4
    requires Completed(s, NotOf(NotOf(r))).Ok?
    ensures var out := Loop(cfg, Here([NOT] + ([NOT] + (Print(r, 5) + rest)), lit, s));
            out.Ok? ==> out.value.node != Some(Completed(s, NotOf(NotOf(r))).value)
  {
    hide Loop, Print, Printable, PopWhile, Completed, Finish;
    NotBeforeOperand(cfg, [NOT] + (Print(r, 5) + rest), lit, s, level);
    var t := s.(ops := s.ops + [Not]);
    var lit' := RunNotOperand(cfg, r, rest, lit, t);
    if PopWhile(t, Some(Not)).Ok? { TooShallow(s, NotOf(NotOf(r)), t, r, rest, lit'); }
  }

  // ---------------------------------------------------------------- what comes back instead

  const EMPTY := Stacks([], [])

  // `y op0 not r`, once y has been read and op0 awaits its right operand.
  lemma LooseBeforeNot(cfg: Config, op0: Operation, y: Expr, r: Expr, rest: seq<Token>, lit: seq<Token>)
    requires Printable(cfg, r) && IsBinary(op0) && Precedence(op0) < 4 && Stops(rest)
    ensures var out := Loop(cfg, Here([NOT] + (Print(r, 5) + rest), lit, Stacks([y], [op0])));
            out.Ok? && out.value.node == Some(BinaryOf(op0, y, NotOf(r))) && out.value.rest == rest
  {
    hide Loop, Print, Printable;
    var t := Stacks([y], [op0]);
    var lit' := RunNotOperand(cfg, r, rest, lit, t);
    assert PopWhile(t, Some(Not)) == Ok(t);
    CompletedBinary(EMPTY, op0, y, r);
    assert t.args + [r] == EMPTY.args + [y, r] && t.ops + [Not] == EMPTY.ops + [op0, Not];
    var e := BinaryOf(op0, y, NotOf(r));
    assert PopWhile(Pushed(EMPTY, e), None) == Ok(Pushed(EMPTY, e));
  }

  lemma FirstOperand(cfg: Config, op0: Operation, x: Expr, after: seq<Token>, lit: seq<Token>) returns (lit': seq<Token>)
    requires Printable(cfg, x) && IsBinary(op0)
    ensures ParseExpr(cfg, Print(x, LeftLevel(op0)) + ([OperatorToken(op0)] + after), lit) ==
            Loop(cfg, Here(after, lit', Stacks([x], [op0])))
  {
    hide Loop, Print, Printable;
    HoldsForOperands(EMPTY.ops, op0, 0);
    lit' := Run(cfg, x, LeftLevel(op0), [OperatorToken(op0)] + after, lit, EMPTY);
    OperatorAfterOperand(cfg, op0, x, after, lit', EMPTY, 0);
    assert EMPTY.args + [x] == [x] && EMPTY.ops + [op0] == [op0];
  }

  // `x op0 l op not r`, with op binding as tightly as `not` and op0 not, is read as `(x op l) op0 (not r)`: so
  // `x + a * not b` becomes `(x * a) + not b`.
  lemma NotTakesLeftNeighbour(cfg: Config, op0: Operation, op: Operation, x: Expr, l: Expr, r: Expr,
                              rest: seq<Token>, lit: seq<Token>)
    requires Printable(cfg, x) && Printable(cfg, l) && Printable(cfg, r) && IsBinary(op0) && IsBinary(op)
    requires Precedence(op0) < 4 <= Precedence(op) && Stops(rest)
    ensures var last := Print(l, LeftLevel(op)) + ([OperatorToken(op)] + ([NOT] + (Print(r, 5) + rest)));
            var out := ParseExpr(cfg, Print(x, LeftLevel(op0)) + ([OperatorToken(op0)] + last), lit);
            out.Ok? && out.value.node == Some(BinaryOf(op0, BinaryOf(op, x, l), NotOf(r))) && out.value.rest == rest
  {
    hide Loop, Print, Printable;
    var after := [NOT] + (Print(r, 5) + rest);
    var last := Print(l, LeftLevel(op)) + ([OperatorToken(op)] + after);
    var lit1 := FirstOperand(cfg, op0, x, last, lit);
    var s := Stacks([x], [op0]);
    HoldsForOperands(s.ops, op, 4);
    var lit2 := Run(cfg, l, LeftLevel(op), [OperatorToken(op)] + after, lit1, s);
    OperatorAfterOperand(cfg, op, l, after, lit2, s, 4);
    NotAfterOperator(cfg, op, l, Print(r, 5) + rest, lit2, s);
    assert Taken(s, op, l) == Stacks([BinaryOf(op, x, l)], [op0]);
    LooseBeforeNot(cfg, op0, BinaryOf(op, x, l), r, rest, lit2);
  }

  // `x op0 not not r` is read as `(not x) op0 (not r)`.
  lemma NotNotTakesLeftNeighbour(cfg: Config, op0: Operation, x: Expr, r: Expr, rest: seq<Token>, lit: seq<Token>)
    requires Printable(cfg, x) && Printable(cfg, r) && IsBinary(op0) && Precedence(op0) < 4 && Stops(rest)
    ensures var last := [NOT] + ([NOT] + (Print(r, 5) + rest));
            var out := ParseExpr(cfg, Print(x, LeftLevel(op0)) + ([OperatorToken(op0)] + last), lit);
            out.Ok? && out.value.node == Some(BinaryOf(op0, NotOf(x), NotOf(r))) && out.value.rest == rest
  {
    hide Loop, Print, Printable;
    var after := [NOT] + (Print(r, 5) + rest);
    var lit1 := FirstOperand(cfg, op0, x, [NOT] + after, lit);
    var s := Stacks([x], [op0]);
    NotBeforeOperand(cfg, after, lit1, s, 4);
    NotAfterNot(cfg, Print(r, 5) + rest, lit1, s);
    assert s.(args := s.args[..0] + [NotOf(x)]) == Stacks([NotOf(x)], [op0]);
    LooseBeforeNot(cfg, op0, NotOf(x), r, rest, lit1);
  }

  // With nothing to its left `not not r` fails.
  lemma NotNotFailsAtStart(cfg: Config, r: seq<Token>, lit: seq<Token>)
    ensures ParseExpr(cfg, [NOT] + ([NOT] + r), lit) == Err(TooFewArguments)
  {
    hide Loop;
    NotBeforeOperand(cfg, [NOT] + r, lit, EMPTY, 0);
    NotAfterNot(cfg, r, lit, EMPTY);
  }

  // `x + a * not b`, token by token.
  lemma TimesNotBecomesSum(cfg: Config)
    ensures var name := (n: string) => Token(Id, n);
            var toks := [name("x"), Token(Plus, "+"), name("a"), Token(Times, "*"), name("not"), name("b")];
            var out := ParseExpr(cfg, toks, []);
            out.Ok? && out.value.node ==
              Some(BinaryOf(Add, BinaryOf(Multiplication, Data("x"), Data("a")), NotOf(Data("b"))))
  {
    NotTakesLeftNeighbour(cfg, Add, Multiplication, Data("x"), Data("a"), Data("b"), [], []);
    hide ParseExpr, Printable, Print;
    NamePrints("x", LeftLevel(Add));
    NamePrints("a", LeftLevel(Multiplication));
    NamePrints("b", 5);
    var toks := [Token(Id, "x"), Token(Plus, "+"), Token(Id, "a"), Token(Times, "*"), Token(Id, "not"), Token(Id, "b")];
    assert toks == [Token(Id, "x")] + ([Token(Plus, "+")] + ([Token(Id, "a")] + ([Token(Times, "*")] +
                   ([Token(Id, "not")] + ([Token(Id, "b")] + [])))));
  }

  lemma NamePrints(name: string, level: nat)
    requires level <= 9
    ensures Print(Data(name), level) == [Token(Id, name)]
  {
  }

  // ---------------------------------------------------------------- pipes without an operand

  // The tokens from here on reach a pipe and a name before any operand is complete: only operators that all go on
  // waiting, and the inside of a bracketed literal, stand before it. `ops` are the operators read so far.
  predicate PipeFirst(toks: seq<Token>, ops: seq<Operation>, bracket: nat, brace: nat) {
    toks != [] &&
    var rest := toks[1..];
    var inside := bracket + brace > 0;
    if OperatorOf(toks[0]).Some? then
      var op := OperatorOf(toks[0]).value;
      (ops == [] || !Pops(ops[|ops| - 1], Some(op))) && PipeFirst(rest, ops + [op], bracket, brace)
    else match toks[0].kind
      case Pipe => First(rest).kind.Id?
      case LeftBracket => PipeFirst(rest, ops, bracket + 1, brace)
      case LeftBrace => PipeFirst(rest, ops, bracket, brace + 1)
      case RightBracket => bracket > 0 && bracket + brace > 1 && PipeFirst(rest, ops, bracket - 1, brace)
      case RightBrace => brace > 0 && bracket + brace > 1 && PipeFirst(rest, ops, bracket, brace - 1)
      case String | Number | Comma | Colon => inside && PipeFirst(rest, ops, bracket, brace)
      case Id => IsConstant(toks[0]) && inside && PipeFirst(rest, ops, bracket, brace)
      case _ => false
  }

  // Some argument of the call that opens here starves.
  ghost predicate ArgsStarve(cfg: Config, toks: seq<Token>, lit: seq<Token>)
    requires toks != []
    decreases |toks|, 0
  {
    Starves(cfg, toks[1..], lit) ||
    var r := ParseExpr(cfg, toks[1..], lit);
    r.Ok? && r.value.node.Some? && First(r.value.rest).kind.Comma? && ArgsStarve(cfg, r.value.rest, r.value.lit)
  }

  // The parenthesis or call that opens at this step holds an expression that starves.
  ghost predicate InnerStarves(cfg: Config, st: LoopState)
    decreases |st.toks|, 0
  {
    st.toks != [] && OperatorOf(st.toks[0]).None? &&
    match st.toks[0].kind
    case LeftParen => Starves(cfg, st.toks[1..], st.lit)
    case Id => !IsConstant(st.toks[0]) && First(st.toks[1..]).kind.LeftParen? && ArgsStarve(cfg, st.toks[1..], st.lit)
    case Pipe =>
      st.s.args != [] && First(st.toks[1..]).kind.Id? && First(st.toks[2..]).kind.LeftParen? && ArgsStarve(cfg, st.toks[2..], st.lit)
    case _ => false
  }

  ghost predicate LaterStarves(cfg: Config, st: LoopState)
    decreases |st.toks|, 1
  {
    InnerStarves(cfg, st) || (Step(cfg, st).Next? && LaterStarves(cfg, Step(cfg, st).st))
  }

  // An expression starves if it, or an expression inside it that is reached, comes to a pipe before an operand.
  ghost predicate Starves(cfg: Config, toks: seq<Token>, lit: seq<Token>)
    decreases |toks|, 2
  {
    PipeFirst(toks, [], 0, 0) || LaterStarves(cfg, At(toks, lit, 0, 0, EMPTY))
  }

  // Once an operand has been read, there always is one.
  lemma OperandsStay(cfg: Config, st: LoopState)
    requires st.s.args != [] && Step(cfg, st).Next?
    ensures Step(cfg, st).st.s.args != []
  {
    hide ParseExpr, ParseCall, ParseArgs, PopWhile, StepOperator;
    var t := st.toks[0];
    if OperatorOf(t).Some? {
      OperatorKeepsOperands(st, OperatorOf(t).value);
    } else if t.kind.Pipe? {
      PipeKeepsOperands(cfg, st);
    } else if t.kind.LeftParen? {
      assert Step(cfg, st) == StepParen(cfg, st);
    }
  }

  lemma PipeKeepsOperands(cfg: Config, st: LoopState)
    requires st.toks != [] && st.s.args != [] && StepPipe(cfg, st).Next?
    ensures StepPipe(cfg, st).st.s.args != []
  {
    hide ParseCall;
    var operand, below := st.s.args[|st.s.args| - 1..], st.s.args[..|st.s.args| - 1];
    if First(st.toks[2..]).kind.LeftParen? {
      assert StepPipe(cfg, st) == StepCall(cfg, st, st.toks[1].text, operand, below, st.toks[2..]);
    }
  }

  lemma OperatorKeepsOperands(st: LoopState, op: Operation)
    requires st.toks != [] && st.s.args != [] && StepOperator(st, op).Next?
    ensures StepOperator(st, op).st.s.args != []
  {
    PopWhileShrinks(st.s, Some(op));
  }

  lemma {:induction false} PopWhileFails(s: Stacks, incoming: Option<Operation>)
    ensures PopWhile(s, incoming).Err? ==> PopWhile(s, incoming).error == TooFewArguments
    decreases |s.ops|
  {
    if s.ops != [] && AddOperator(s).Ok? { PopWhileFails(AddOperator(s).value, incoming); }
  }

  predicate BarePipe(st: LoopState) {
    st.toks != [] && st.toks[0].kind.Pipe? && First(st.toks[1..]).kind.Id? && st.s.args == []
  }

  // Without an operand so far, one step leads on towards a pipe exactly if the tokens do.
  lemma PipeFirstStep(cfg: Config, st: LoopState)
    requires st.s.args == []
    ensures PipeFirst(st.toks, st.s.ops, st.bracket, st.brace) <==>
            BarePipe(st) ||
            var o := Step(cfg, st);
            o.Next? && o.st.s.args == [] && PipeFirst(o.st.toks, o.st.s.ops, o.st.bracket, o.st.brace)
  {
    hide ParseExpr, ParseCall, ParseArgs, StepOperator, PopWhile, Pops;
    if st.toks != [] && OperatorOf(st.toks[0]).Some? {
      OperatorBeforeOperand(st, OperatorOf(st.toks[0]).value);
    }
  }

  lemma OperatorBeforeOperand(st: LoopState, op: Operation)
    requires st.toks != [] && st.s.args == []
    ensures StepOperator(st, op) ==
            if st.s.ops == [] || !Pops(st.s.ops[|st.s.ops| - 1], Some(op))
            then Next(st.(toks := st.toks[1..], s := st.s.(ops := st.s.ops + [op])))
            else Fail(TooFewArguments)
  {
    if st.s.ops != [] && Pops(st.s.ops[|st.s.ops| - 1], Some(op)) {
      assert AddOperator(st.s) == Err(TooFewArguments);
    }
  }

  // A single step fails for want of a pipe's operand only at a bare pipe or inside what opens there.
  lemma {:induction false} StepStarves(cfg: Config, st: LoopState)
    ensures Step(cfg, st) == Fail(NoPipeOperand) <==> BarePipe(st) || InnerStarves(cfg, st)
    decreases |st.toks|, 0
  {
    hide Starves, ParseExpr, ParseArgs, ArgsStarve, PopWhile;
    if st.toks != [] {
      var t := st.toks[0];
      if OperatorOf(t).Some? {
        var op := OperatorOf(t).value;
        PopWhileFails(st.s, Some(op));
        assert Step(cfg, st) == StepOperator(st, op);
      } else if t.kind.LeftParen? {
        StarvesExactly(cfg, st.toks[1..], st.lit);
        assert Step(cfg, st) == StepParen(cfg, st);
      } else if t.kind.Id? && !IsConstant(t) && First(st.toks[1..]).kind.LeftParen? {
        CallStarves(cfg, st, t.text, [], st.s.args, st.toks[1..]);
        assert Step(cfg, st) == StepCall(cfg, st, t.text, [], st.s.args, st.toks[1..]);
      } else if t.kind.Pipe? {
        assert Step(cfg, st) == StepPipe(cfg, st);
        if st.s.args != [] && First(st.toks[1..]).kind.Id? && First(st.toks[2..]).kind.LeftParen? {
          var operand, below := st.s.args[|st.s.args| - 1..], st.s.args[..|st.s.args| - 1];
          CallStarves(cfg, st, st.toks[1].text, operand, below, st.toks[2..]);
          assert StepPipe(cfg, st) == StepCall(cfg, st, st.toks[1].text, operand, below, st.toks[2..]);
        }
      }
    }
  }

  lemma {:induction false} CallStarves(cfg: Config, st: LoopState, name: string, first: seq<Expr>, args: seq<Expr>, open: seq<Token>)
    requires 0 < |open| < |st.toks|
    ensures StepCall(cfg, st, name, first, args, open) == Fail(NoPipeOperand) <==> ArgsStarve(cfg, open, st.lit)
    decreases |open|, 1
  {
    hide ParseArgs, ArgsStarve;
    ArgsStarveExactly(cfg, open, st.lit);
    var r := ParseCall(cfg, name, first, open, st.lit);
    assert StepCall(cfg, st, name, first, args, open) == Fail(NoPipeOperand) <==> r == Err(NoPipeOperand);
  }

  lemma {:induction false} ArgsStarveExactly(cfg: Config, toks: seq<Token>, lit: seq<Token>)
    requires toks != []
    ensures ParseArgs(cfg, toks, lit) == Err(NoPipeOperand) <==> ArgsStarve(cfg, toks, lit)
    decreases |toks|, 0
  {
    hide Starves, ParseExpr;
    StarvesExactly(cfg, toks[1..], lit);
    var r := ParseExpr(cfg, toks[1..], lit);
    if r.Ok? && r.value.node.Some? && First(r.value.rest).kind.Comma? {
      ArgsStarveExactly(cfg, r.value.rest, r.value.lit);
    }
  }

  lemma {:induction false} LoopStarves(cfg: Config, st: LoopState)
    ensures Loop(cfg, st) == Err(NoPipeOperand) <==>
            (st.s.args == [] && PipeFirst(st.toks, st.s.ops, st.bracket, st.brace)) || LaterStarves(cfg, st)
    decreases |st.toks|, 1
  {
    hide Step, InnerStarves, PipeFirst;
    StepStarves(cfg, st);
    if st.s.args == [] { PipeFirstStep(cfg, st); }
    match Step(cfg, st)
    case Next(next) =>
      if st.s.args != [] { OperandsStay(cfg, st); }
      LoopStarves(cfg, next);
    case Done => PopWhileFails(st.s, None);
    case Fail(_) =>
  }

  // Parsing reads the back of an empty argument list exactly when the expression, or one inside it, comes to a pipe
  // before its first operand.
  lemma {:induction false} StarvesExactly(cfg: Config, toks: seq<Token>, lit: seq<Token>)
    ensures ParseExpr(cfg, toks, lit) == Err(NoPipeOperand) <==> Starves(cfg, toks, lit)
    decreases |toks|, 2
  {
    hide Loop, PipeFirst, LaterStarves;
    LoopStarves(cfg, At(toks, lit, 0, 0, EMPTY));
  }

  // `| f` and everything that begins like that.
  lemma BarePipeStarves(cfg: Config, f: string, rest: seq<Token>, lit: seq<Token>)
    ensures ParseExpr(cfg, [PIPE, Token(Id, f)] + rest, lit) == Err(NoPipeOperand)
  {
    var toks := [PIPE, Token(Id, f)] + rest;
    assert toks[1..] == [Token(Id, f)] + rest;
    StarvesExactly(cfg, toks, lit);
  }
}
