// What the statement parser accepts besides well-nested tags, and where it reads what is not there.
module InjaTemplateLimits {
  import opened Wrappers
  import opened InjaSyntax
  import opened InjaStatement
  import T = InjaTemplate
  import X = InjaExpression
  import L = InjaExpressionLimits
  import O = InjaOperands
  import N = InjaTrees

  // At the end of the input only the if and for stacks are looked at: a named block may stay open.
  lemma UnclosedBlockAccepted(env: Environment, name: string)
    ensures var r := ParseInto(env, Start(T.Tag([T.Word("block"), T.Word(name)]), []));
            r.Ok? && r.value.blocks != [] && r.value.current != Root
  {
    var p := Start(T.Tag([T.Word("block"), T.Word(name)]), []);
    assert p.toks == T.Tag([T.Word("block"), T.Word(name)]) + [];
    var q := T.OpenBlock(env, p, name, []);
    assert ParseInto(env, q) == Ok(q);
  }

  lemma TextAtEnd(env: Environment, p: Parser, text: string)
    requires p.toks == [Token(Kind.Text, text)] && p.ifs == p.fors == []
    ensures ParseInto(env, p) == Ok(AddNode(p, TextNode(text)).(toks := []))
  {
    assert Step(env, p) == Ok(AddNode(p, TextNode(text)).(toks := []));
  }

  // The if and for stacks are separate, so crossed closing tags are accepted too: after
  // `if`, `for`, `endif`, `endfor` the parser is back inside the closed if, and what follows is put there.
  lemma CrossedTagsAccepted(env: Environment, c: Expr, x: string, text: string)
    requires X.Printable(env.expr, c)
    ensures var r := ParseInto(env, Start(T.IfTag(c) + (T.ForTag(None, x, c) + (T.Tag([T.Word("endif")]) +
                                          (T.Tag([T.Word("endfor")]) + [Token(Kind.Text, text)]))), []));
            r.Ok? && r.value.current == TrueOf(0) && ValidRef(r.value.h, TrueOf(0)) &&
            r.value.h.cells[0].trueStatement == [ForNode(1), TextNode(text)]
  {
    hide ParseInto, T.IfTag, T.ForTag;
    var t4 := [Token(Kind.Text, text)];
    var t3 := T.Tag([T.Word("endfor")]) + t4;
    var t2 := T.Tag([T.Word("endif")]) + t3;
    var p0 := Start(T.IfTag(c) + (T.ForTag(None, x, c) + t2), []);
    var p1 := T.OpenIf(env, p0, c, T.ForTag(None, x, c) + t2);
    var p2 := T.OpenFor(env, p1, None, x, c, t2);
    var p3 := p2.(current := Root, ifs := [], toks := [T.CLOSE] + t3);
    assert p2.ifs == [0] + [] && p2.fors == [1];
    T.EndifStep(env, p2, [0], [], t3, p3);
    var p5 := p3.(current := TrueOf(0), fors := [], toks := t4);
    T.EndforStep(env, p3.(toks := t3), 1, t4, p5);
    TextAtEnd(env, p5, text);
  }

  // `{{ }}` is accepted, as an output without an expression, which no tree has.
  lemma EmptyOutputAccepted(env: Environment)
    ensures var r := ParseInto(env, Start([T.EXPR_OPEN, T.EXPR_CLOSE], []));
            r.Ok? && r.value.h.root == [ExpressionNode(None)] &&
            forall ss :: !T.Represents(r.value.h, r.value.h.root, ss, 0, |r.value.h.cells|)
  {
    var p := Start([T.EXPR_OPEN, T.EXPR_CLOSE], []);
    var toks := [T.EXPR_CLOSE];
    assert p.toks[1..] == toks && toks[1..] == [];
    assert X.Step(env.expr, X.At(toks, [], 0, 0, X.Stacks([], []))) == X.Done;
    assert X.ParseExpr(env.expr, toks, []) == Ok(X.Parsed(None, toks, []));
    var q := AddNode(p, ExpressionNode(None)).(toks := []);
    assert Step(env, p) == Ok(q) && ParseInto(env, q) == Ok(q);
  }

  // `{{ [ 1 }}` is accepted too: the bracket that is left open takes its contents away.
  lemma UnclosedBracketOutput(env: Environment, one: Token)
    requires one.kind.Number?
    ensures var r := ParseInto(env, Start([T.EXPR_OPEN, Token(LeftBracket, "["), one, T.EXPR_CLOSE], []));
            r.Ok? && r.value.h.root == [ExpressionNode(None)]
  {
    hide X.ParseExpr;
    var open := Token(LeftBracket, "[");
    var p := Start([T.EXPR_OPEN, open, one, T.EXPR_CLOSE], []);
    var toks := [Token(Id, "x"), open, one] + [T.EXPR_CLOSE];
    O.UnclosedBracketAccepted(env.expr, "x", one, [T.EXPR_CLOSE], []);
    assert p.toks[1..] == toks[1..];
    var r := X.ParseExpr(env.expr, p.toks[1..], []);
    var q := AddNode(p, ExpressionNode(None)).(toks := [], lit := r.value.lit);
    assert Step(env, p) == Ok(q) && ParseInto(env, q) == Ok(q);
  }

  // `{{ | f }}` makes the parser read the back of an empty argument list.
  lemma EmptyPipeRead(env: Environment, f: string)
    ensures ParseInto(env, Start([T.EXPR_OPEN, X.PIPE, Token(Id, f), T.EXPR_CLOSE], [])) ==
            Err(InExpression(X.NoPipeOperand))
  {
    var p := Start([T.EXPR_OPEN, X.PIPE, Token(Id, f), T.EXPR_CLOSE], []);
    hide X.ParseExpr;
    assert p.toks[1..] == [X.PIPE, Token(Id, f)] + [T.EXPR_CLOSE];
    L.BarePipeStarves(env.expr, f, [T.EXPR_CLOSE], []);
    assert Step(env, p) == Err(InExpression(X.NoPipeOperand));
  }

  // The else of an if does not close it: a second one is accepted, and both branches become one.
  lemma DoubleElseAccepted(env: Environment, c: Expr, a: string, b: string)
    requires X.Printable(env.expr, c)
    ensures var elseTag := T.Tag([T.Word("else")]);
            var r := ParseInto(env, Start(T.IfTag(c) + (elseTag + ([Token(Kind.Text, a)] + (elseTag + ([Token(Kind.Text, b)] +
                                          (T.Tag([T.Word("endif")]) + []))))), []));
            r.Ok? && r.value.current == Root && r.value.ifs == r.value.fors == r.value.blocks == [] &&
            T.Represents(r.value.h, r.value.h.root, [T.If(c, [], T.ElseBlock([T.Text(a), T.Text(b)]))], 0, |r.value.h.cells|)
  {
    hide ParseInto, T.IfTag;
    var elseTag := T.Tag([T.Word("else")]);
    var t5 := T.Tag([T.Word("endif")]) + [];
    var t4 := [Token(Kind.Text, b)] + t5;
    var t3 := elseTag + t4;
    var t2 := [Token(Kind.Text, a)] + t3;
    var p0 := Start(T.IfTag(c) + (elseTag + t2), []);
    var p1 := T.OpenIf(env, p0, c, elseTag + t2);
    var p2 := T.OpenElse(env, p1, t2);
    var p3 := TextRead(env, p2, a, t3);
    var p4 := T.OpenElse(env, p3, t4);
    var p5 := TextRead(env, p4, b, t5);
    var cell := IfCell(Some(c), [], [TextNode(a), TextNode(b)], Root, false, true);
    assert p1.h == Heap([IfNode(0)], [cell.(falseStatement := [], hasFalse := false)]);
    assert p2.h == Heap([IfNode(0)], [cell.(falseStatement := [])]) && p2.current == FalseOf(0);
    assert p3.h == Append(p2.h, FalseOf(0), [TextNode(a)]);
    assert [] + [TextNode(a)] == [TextNode(a)];
    assert p3.h == Heap([IfNode(0)], [cell.(falseStatement := [TextNode(a)])]);
    assert p4.h == p3.h && p4.current == FalseOf(0);
    assert [TextNode(a)] + [TextNode(b)] == [TextNode(a), TextNode(b)];
    assert p5.h == Heap([IfNode(0)], [cell]);
    var p6 := p5.(current := Root, ifs := [], toks := [T.CLOSE] + []);
    T.EndifStep(env, p5, [0], [], [], p6);
    EndAccepted(env, p6.(toks := []));
    BothBranches(p5.h, c, a, b);
  }

  // An else-if after an else is accepted, but its if is not alone in the false branch then, which no tree has.
  lemma LateElseIfAccepted(env: Environment, c: Expr, a: string)
    requires X.Printable(env.expr, c)
    ensures var toks := T.IfTag(c) + (T.Tag([T.Word("else")]) + ([Token(Kind.Text, a)] +
                                     (T.ElseIfTag(c) + (T.Tag([T.Word("endif")]) + []))));
            var r := ParseInto(env, Start(toks, []));
            r.Ok? && r.value.current == Root && r.value.ifs == r.value.fors == r.value.blocks == [] &&
            forall ss :: !T.Represents(r.value.h, r.value.h.root, ss, 0, |r.value.h.cells|)
  {
    hide ParseInto, T.IfTag, T.ElseIfTag;
    var elseTag := T.Tag([T.Word("else")]);
    var t4 := T.Tag([T.Word("endif")]) + [];
    var t3 := T.ElseIfTag(c) + t4;
    var t2 := [Token(Kind.Text, a)] + t3;
    var p0 := Start(T.IfTag(c) + (elseTag + t2), []);
    var p1 := T.OpenIf(env, p0, c, elseTag + t2);
    var p2 := T.OpenElse(env, p1, t2);
    var p3 := TextRead(env, p2, a, t3);
    var p4 := T.OpenElseIf(env, p3, c, t4);
    assert p2.h == Heap([IfNode(0)], [IfCell(Some(c), [], [], Root, false, true)]) && p2.current == FalseOf(0);
    assert p3.h == Heap([IfNode(0)], [IfCell(Some(c), [], [] + [TextNode(a)], Root, false, true)]);
    assert [] + [TextNode(a)] == [TextNode(a)];
    assert p4.h == Heap([IfNode(0)], [IfCell(Some(c), [], [TextNode(a)] + [IfNode(1)], Root, false, true),
                                      IfCell(Some(c), [], [], FalseOf(0), true, false)]);
    assert [TextNode(a)] + [IfNode(1)] == [TextNode(a), IfNode(1)];
    var p5 := p4.(current := Root, ifs := [], toks := [T.CLOSE] + []);
    T.EndifStep(env, p4, [0], [1], [], p5);
    EndAccepted(env, p5.(toks := []));
    LateElseIfIsNoTree(p4.h, c, a);
  }

  lemma LateElseIfIsNoTree(h: Heap, c: Expr, a: string)
    requires h == Heap([IfNode(0)], [IfCell(Some(c), [], [TextNode(a), IfNode(1)], Root, false, true),
                                     IfCell(Some(c), [], [], FalseOf(0), true, false)])
    ensures forall ss :: !T.Represents(h, h.root, ss, 0, 2)
  {
    forall ss: seq<T.Stmt> ensures !T.Represents(h, h.root, ss, 0, 2) {
      if T.Represents(h, h.root, ss, 0, 2) {
        var s := N.ElementTree(h, h.root, ss, IfNode(0));
        N.FalseIsCellTree(h, h.cells[0], s.els, h.cells[0].falseStatement[1]);
        assert false;
      }
    }
  }

  lemma TextRead(env: Environment, p: Parser, text: string, rest: seq<Token>) returns (q: Parser)
    requires p.toks == [Token(Kind.Text, text)] + rest
    ensures q == AddNode(p, TextNode(text)).(toks := rest) && ParseInto(env, p) == ParseInto(env, q)
  {
    q := AddNode(p, TextNode(text)).(toks := rest);
    assert p.toks[1..] == rest;
    assert Step(env, p) == Ok(q);
  }

  lemma EndAccepted(env: Environment, p: Parser)
    requires p.toks == [] && p.ifs == p.fors == []
    ensures ParseInto(env, p) == Ok(p)
  {
  }

  lemma BothBranches(h: Heap, c: Expr, a: string, b: string)
    requires h == Heap([IfNode(0)], [IfCell(Some(c), [], [TextNode(a), TextNode(b)], Root, false, true)])
    ensures T.Represents(h, h.root, [T.If(c, [], T.ElseBlock([T.Text(a), T.Text(b)]))], 0, |h.cells|)
  {
    var texts, nodes := [T.Text(a), T.Text(b)], [TextNode(a), TextNode(b)];
    assert texts[1..] == [T.Text(b)] && nodes[1..] == [TextNode(b)];
    assert T.Represents(h, [], [], 0, 1);
    assert T.IsTree(h, TextNode(b), T.Text(b), 0, 1) && texts[1..][1..] == [] && nodes[1..][1..] == [];
    assert T.Represents(h, nodes[1..], texts[1..], 0, 1);
    assert T.IsTree(h, TextNode(a), T.Text(a), 0, 1);
    assert T.Represents(h, nodes, texts, 0, 1);
    assert T.IsElse(h, h.cells[0], T.ElseBlock(texts), 0, 1);
    assert T.Represents(h, [], [], 0, 1);
  }
}
