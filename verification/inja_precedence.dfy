// How expressions group, operator by operator: a table of the operators, loosest first, and for every chain of operands
// the tree that it stands for.
module InjaPrecedence {
  import opened Wrappers
  import opened InjaSyntax
  import opened InjaExpression
  import L = InjaExpressionLimits

  // ---------------------------------------------------------------- the table

  // The binary operators as they are written, with their rows, the loosest row first. The operators of one row group to
  // the left, but for `^`, which is alone in its row.
  function Place(op: Operation): Option<(Token, nat)> {
    match op
    case And => Some((Token(Id, "and"), 0))
    case Or => Some((Token(Id, "or"), 0))
    case In => Some((Token(Id, "in"), 1))
    case EqualOp => Some((Token(Equal, "=="), 1))
    case NotEqualOp => Some((Token(NotEqual, "!="), 1))
    case Greater => Some((Token(GreaterThan, ">"), 1))
    case GreaterEqualOp => Some((Token(GreaterEqual, ">="), 1))
    case Less => Some((Token(LessThan, "<"), 1))
    case LessEqualOp => Some((Token(LessEqual, "<="), 1))
    case Add => Some((Token(Plus, "+"), 2))
    case Subtract => Some((Token(Minus, "-"), 2))
    case Multiplication => Some((Token(Times, "*"), 3))
    case Division => Some((Token(Slash, "/"), 3))
    case Modulo => Some((Token(Percent, "%"), 3))
    case PowerOp => Some((Token(Power, "^"), 4))
    case AtId => Some((Token(Dot, "."), 5))
    case _ => None
  }

  const POWER_ROW := 4

  predicate InTable(op: Operation) { Place(op).Some? }

  type Binary = op: Operation | InTable(op) witness And

  function Row(op: Binary): nat
  {
    Place(op).value.1
  }

  function Sign(op: Binary): Token
  {
    Place(op).value.0
  }

  lemma TableIs(op: Operation)
    ensures InTable(op) <==> IsBinary(op)
    ensures InTable(op) ==>
              OperatorToken(op) == Sign(op) && Row(op) <= 5 && Precedence(op) == (if Row(op) == 5 then 8 else Row(op) + 1) &&
              AssociativityOf(op) == if Row(op) == POWER_ROW then Right else Left
  {
  }

  // ---------------------------------------------------------------- chains of operands

  // Names, literals and calls.
  predicate IsOperand(e: Expr) { e.Function? ==> e.fname != "" }

  function OperandTokens(e: Expr): seq<Token> {
    match e
    case Literal(text) => text
    case Data(name) => [Token(Id, name)]
    case Function(_, name, args) => [Token(Id, name), Token(LeftParen, "(")] + PrintArgs(args) + [Token(RightParen, ")")]
  }

  ghost predicate IsChain(cfg: Config, es: seq<Expr>, ops: seq<Binary>) {
    |es| == |ops| + 1 && (forall e <- es :: IsOperand(e) && Printable(cfg, e))
  }

  // The operands with the operators between them.
  function Flat(es: seq<Expr>, ops: seq<Binary>): seq<Token>
    requires |es| == |ops| + 1
  {
    if ops == [] then OperandTokens(es[0])
    else OperandTokens(es[0]) + [Sign(ops[0])] + Flat(es[1..], ops[1..])
  }

  // Where a chain comes apart: at its loosest operator, the last one of them; at the first one if that is `^`.
  function Split(ops: seq<Binary>): (k: nat)
    requires ops != []
    ensures k < |ops| && forall i :: 0 <= i < |ops| ==> Row(ops[k]) <= Row(ops[i])
    ensures Row(ops[k]) != POWER_ROW ==> forall i :: k < i < |ops| ==> Row(ops[k]) < Row(ops[i])
    ensures Row(ops[k]) == POWER_ROW ==> forall i :: 0 <= i < k ==> Row(ops[k]) < Row(ops[i])
  {
    if |ops| == 1 then 0
    else
      var k := Split(ops[1..]) + 1;
      assert forall i :: 0 < i < |ops| ==> ops[i] == ops[1..][i - 1];
      if Row(ops[0]) < Row(ops[k]) || Row(ops[0]) == Row(ops[k]) == POWER_ROW then 0 else k
  }

  function Group(es: seq<Expr>, ops: seq<Binary>): Expr
    requires |es| == |ops| + 1
    decreases |ops|
  {
    if ops == [] then es[0]
    else
      var k := Split(ops);
      Function(ops[k], "", [Group(es[..k + 1], ops[..k]), Group(es[k + 1..], ops[k + 1..])])
  }

  lemma {:induction false} FlatSplit(es: seq<Expr>, ops: seq<Binary>, k: nat)
    requires |es| == |ops| + 1 && k < |ops|
    ensures Flat(es, ops) == Flat(es[..k + 1], ops[..k]) + [Sign(ops[k])] + Flat(es[k + 1..], ops[k + 1..])
    decreases k
  {
    hide OperandTokens, Sign;
    var first := OperandTokens(es[0]) + [Sign(ops[0])];
    assert Flat(es, ops) == first + Flat(es[1..], ops[1..]);
    if k == 0 {
      assert Flat(es[..1], ops[..0]) == OperandTokens(es[0]);
    } else {
      FlatSplit(es[1..], ops[1..], k - 1);
      assert es[1..][..k] == es[..k + 1][1..] && ops[1..][..k - 1] == ops[..k][1..];
      assert es[1..][k..] == es[k + 1..] && ops[1..][k..] == ops[k + 1..];
      assert Flat(es[..k + 1], ops[..k]) == first + Flat(es[..k + 1][1..], ops[..k][1..]);
    }
  }

  // An operator between operands that bind tightly enough.
  lemma BinaryPrints(cfg: Config, op: Binary, l: Expr, r: Expr)
    requires Printable(cfg, l) && Printable(cfg, r) && Level(l) >= LeftLevel(op) && Level(r) >= RightLevel(op)
    ensures var e := Function(op, "", [l, r]);
            Printable(cfg, e) && PrintBare(e) == PrintBare(l) + [Sign(op)] + PrintBare(r) && Level(e) == Precedence(op)
  {
    TableIs(op);
    hide Precedence, AssociativityOf, Place;
    assert forall a <- [l, r] :: a == l || a == r;
  }

  // The tree of a chain is printed as the chain, without parentheses.
  lemma {:induction false} GroupPrints(cfg: Config, es: seq<Expr>, ops: seq<Binary>)
    requires IsChain(cfg, es, ops)
    ensures var e := Group(es, ops);
            Printable(cfg, e) && PrintBare(e) == Flat(es, ops) &&
            Level(e) == if ops == [] then 9 else Precedence(ops[Split(ops)])
    decreases |ops|
  {
    if ops == [] {
      assert es[0] in es;
    } else {
      hide Precedence, AssociativityOf, Place, Printable, PrintBare, Level, LeftLevel, RightLevel, Flat;
      var k := Split(ops);
      FlatSplit(es, ops, k);
      PartIsChain(cfg, es, ops, k);
      GroupPrints(cfg, es[..k + 1], ops[..k]);
      GroupPrints(cfg, es[k + 1..], ops[k + 1..]);
      LeftBindsTighter(ops, k);
      RightBindsTighter(ops, k);
      BinaryPrints(cfg, ops[k], Group(es[..k + 1], ops[..k]), Group(es[k + 1..], ops[k + 1..]));
    }
  }

  lemma PartIsChain(cfg: Config, es: seq<Expr>, ops: seq<Binary>, k: nat)
    requires IsChain(cfg, es, ops) && k < |ops|
    ensures IsChain(cfg, es[..k + 1], ops[..k]) && IsChain(cfg, es[k + 1..], ops[k + 1..])
  {
  }

  lemma LeftBindsTighter(ops: seq<Binary>, k: nat)
    requires ops != [] && k == Split(ops)
    ensures k > 0 ==> Precedence(ops[..k][Split(ops[..k])]) >= LeftLevel(ops[k])
    ensures LeftLevel(ops[k]) <= 9
  {
    TableIs(ops[k]);
    if k > 0 { TableIs(ops[..k][Split(ops[..k])]); }
  }

  lemma RightBindsTighter(ops: seq<Binary>, k: nat)
    requires ops != [] && k == Split(ops)
    ensures k + 1 < |ops| ==> Precedence(ops[k + 1..][Split(ops[k + 1..])]) >= RightLevel(ops[k])
    ensures RightLevel(ops[k]) <= 9
  {
    TableIs(ops[k]);
    if k + 1 < |ops| { TableIs(ops[k + 1..][Split(ops[k + 1..])]); }
  }

  // Every chain of operands is parsed to the tree that the table says.
  lemma ChainGroups(cfg: Config, es: seq<Expr>, ops: seq<Binary>, rest: seq<Token>, lit: seq<Token>)
    requires IsChain(cfg, es, ops) && Stops(rest)
    ensures var r := ParseExpr(cfg, Flat(es, ops) + rest, lit);
            r.Ok? && r.value.node == Some(Group(es, ops)) && r.value.rest == rest
  {
    hide ParseExpr, Printable, PrintBare, Flat, Group, Stops;
    GroupPrints(cfg, es, ops);
    assert Print(Group(es, ops), 0) == PrintBare(Group(es, ops));
    RoundTrip(cfg, Group(es, ops), rest, lit);
  }

  // ---------------------------------------------------------------- short chains, written out

  // `a op1 b op2 c`: the tighter operator takes b; of one row the first, but for `^` the second.
  lemma TwoOperators(cfg: Config, a: Expr, f: Binary, b: Expr, g: Binary, c: Expr, rest: seq<Token>, lit: seq<Token>)
    requires IsChain(cfg, [a, b, c], [f, g]) && Stops(rest)
    ensures var toks := OperandTokens(a) + [Sign(f)] + OperandTokens(b) + [Sign(g)] + OperandTokens(c);
            var r := ParseExpr(cfg, toks + rest, lit);
            r.Ok? && r.value.rest == rest &&
            r.value.node == Some(if Row(f) > Row(g) || (Row(f) == Row(g) && Row(f) != POWER_ROW)
                                 then Function(g, "", [Function(f, "", [a, b]), c])
                                 else Function(f, "", [a, Function(g, "", [b, c])]))
  {
    hide ParseExpr, Printable, OperandTokens, Group, Flat, Stops, Row, Sign;
    ChainGroups(cfg, [a, b, c], [f, g], rest, lit);
    FlatThree(a, f, b, g, c);
    GroupThree(a, f, b, g, c);
  }

  lemma FlatThree(a: Expr, f: Binary, b: Expr, g: Binary, c: Expr)
    ensures Flat([a, b, c], [f, g]) == OperandTokens(a) + [Sign(f)] + OperandTokens(b) + [Sign(g)] + OperandTokens(c)
  {
    hide OperandTokens, Sign;
    assert [a, b, c][1..] == [b, c] && [f, g][1..] == [g];
    FlatTwo(b, g, c);
  }

  lemma GroupThree(a: Expr, f: Binary, b: Expr, g: Binary, c: Expr)
    ensures Group([a, b, c], [f, g]) ==
            if Row(f) > Row(g) || (Row(f) == Row(g) && Row(f) != POWER_ROW) then Function(g, "", [Function(f, "", [a, b]), c])
            else Function(f, "", [a, Function(g, "", [b, c])])
  {
    hide Row;
    var es, ops: seq<Binary> := [a, b, c], [f, g];
    assert ops[1..] == [g] && Split([g]) == 0;
    assert es[..2] == [a, b] && es[..1] == [a] && es[1..] == [b, c] && es[2..] == [c];
    assert ops[..1] == [f] && ops[..0] == [] && ops[2..] == [];
    TwoGroup(a, f, b);
    TwoGroup(b, g, c);
    TwoGroup(c, g, c);
  }

  lemma TwoGroup(a: Expr, f: Binary, b: Expr)
    ensures Group([a, b], [f]) == Function(f, "", [a, b]) && Group([a], []) == a
  {
    assert [a, b][..1] == [a] && [a, b][1..] == [b] && [f][..0] == [] && [f][1..] == [];
    assert Group([b], []) == b;
  }

  // `a cmp b and c cmp d`, and the same with `or`: both comparisons first.
  lemma ComparisonsJoined(cfg: Config, a: Expr, f: Binary, b: Expr, join: Binary, c: Expr, g: Binary, d: Expr,
                          rest: seq<Token>, lit: seq<Token>)
    requires IsChain(cfg, [a, b, c, d], [f, join, g]) && Stops(rest)
    requires Row(f) == Row(g) == 1 && Row(join) == 0
    ensures (join == And && Sign(join) == Token(Id, "and")) || (join == Or && Sign(join) == Token(Id, "or"))
    ensures var left := OperandTokens(a) + [Sign(f)] + OperandTokens(b);
            var right := OperandTokens(c) + [Sign(g)] + OperandTokens(d);
            var r := ParseExpr(cfg, left + [Sign(join)] + right + rest, lit);
            r.Ok? && r.value.rest == rest &&
            r.value.node == Some(Function(join, "", [Function(f, "", [a, b]), Function(g, "", [c, d])]))
  {
    hide ParseExpr, Printable, OperandTokens, Group, Flat, Stops;
    ChainGroups(cfg, [a, b, c, d], [f, join, g], rest, lit);
    FourFlat(a, f, b, join, c, g, d);
    FourGroup(a, f, b, join, c, g, d);
  }

  lemma FourFlat(a: Expr, f: Binary, b: Expr, join: Binary, c: Expr, g: Binary, d: Expr)
    ensures Flat([a, b, c, d], [f, join, g]) ==
            OperandTokens(a) + [Sign(f)] + OperandTokens(b) + [Sign(join)] + (OperandTokens(c) + [Sign(g)] + OperandTokens(d))
  {
    hide OperandTokens, Sign;
    var es, ops: seq<Binary> := [a, b, c, d], [f, join, g];
    FlatSplit(es, ops, 1);
    assert es[..2] == [a, b] && es[2..] == [c, d] && ops[..1] == [f] && ops[2..] == [g];
    FlatTwo(a, f, b);
    FlatTwo(c, g, d);
  }

  lemma FourGroup(a: Expr, f: Binary, b: Expr, join: Binary, c: Expr, g: Binary, d: Expr)
    requires Row(f) == Row(g) == 1 && Row(join) == 0
    ensures Group([a, b, c, d], [f, join, g]) == Function(join, "", [Function(f, "", [a, b]), Function(g, "", [c, d])])
  {
    hide Row;
    var es, ops: seq<Binary> := [a, b, c, d], [f, join, g];
    assert ops[1..] == [join, g] && ops[1..][1..] == [g] && Split([g]) == 0 && Split([join, g]) == 0;
    assert es[..2] == [a, b] && es[2..] == [c, d] && ops[..1] == [f] && ops[2..] == [g];
    TwoGroup(a, f, b);
    TwoGroup(c, g, d);
  }

  lemma FlatTwo(a: Expr, f: Binary, b: Expr)
    ensures Flat([a, b], [f]) == OperandTokens(a) + [Sign(f)] + OperandTokens(b)
  {
    assert [a, b][1..] == [b] && [f][1..] == [];
  }

  // ---------------------------------------------------------------- not

  // `not a op b`: `not` takes a alone, unless the operator is `^` or `.`.
  lemma NotGroups(cfg: Config, a: Expr, f: Binary, b: Expr, rest: seq<Token>, lit: seq<Token>)
    requires IsChain(cfg, [a, b], [f]) && Stops(rest)
    ensures var r := ParseExpr(cfg, [Token(Id, "not")] + (OperandTokens(a) + [Sign(f)] + OperandTokens(b)) + rest, lit);
            r.Ok? && r.value.rest == rest &&
            r.value.node == Some(if Row(f) < POWER_ROW then Function(f, "", [Function(Not, "", [a]), b])
                                 else Function(Not, "", [Function(f, "", [a, b])]))
  {
    assert a in [a, b] && b in [a, b] && f in [f];
    TableIs(f);
    hide ParseExpr, Printable;
    OperandPrints(cfg, a, 9);
    OperandPrints(cfg, b, 9);
    var flat := OperandTokens(a) + [Sign(f)] + OperandTokens(b);
    var e := if Row(f) < POWER_ROW then Function(f, "", [Function(Not, "", [a]), b])
             else Function(Not, "", [Function(f, "", [a, b])]);
    NotPrints(cfg, a, f, b);
    assert [Token(Id, "not")] + flat == [Token(Id, "not")] + OperandTokens(a) + [Sign(f)] + OperandTokens(b);
    RoundTrip(cfg, e, rest, lit);
  }

  lemma OperandPrints(cfg: Config, e: Expr, level: nat)
    requires IsOperand(e) && Printable(cfg, e) && level <= 9
    ensures Print(e, level) == PrintBare(e) == OperandTokens(e) && Level(e) == 9
  {
  }

  lemma NotPrints(cfg: Config, a: Expr, f: Binary, b: Expr)
    requires IsChain(cfg, [a, b], [f])
    ensures var e := if Row(f) < POWER_ROW then Function(f, "", [Function(Not, "", [a]), b])
                     else Function(Not, "", [Function(f, "", [a, b])]);
            Printable(cfg, e) && Print(e, 0) == [Token(Id, "not")] + OperandTokens(a) + [Sign(f)] + OperandTokens(b)
  {
    assert a in [a, b] && b in [a, b];
    TableIs(f);
    OperandPrints(cfg, a, 9);
    OperandPrints(cfg, b, 9);
    hide Place, PrintBare, Printable, OperandTokens, Sign;
    if Row(f) < POWER_ROW {
      PrefixPrints(cfg, a);
      BinaryPrints(cfg, f, Function(Not, "", [a]), b);
    } else {
      BinaryPrints(cfg, f, a, b);
      PrefixPrints(cfg, Function(f, "", [a, b]));
    }
  }

  lemma PrefixPrints(cfg: Config, e: Expr)
    requires Printable(cfg, e) && Level(e) >= 5
    ensures var n := Function(Not, "", [e]);
            Printable(cfg, n) && PrintBare(n) == [Token(Id, "not")] + PrintBare(e) && Level(n) == 4
  {
    assert forall x <- [e] :: x == e;
  }

  // `l op not r` comes back without parentheses exactly for the rows above `*`.
  lemma NotComesBackByRow(cfg: Config, f: Binary, l: Expr, r: Expr, rest: seq<Token>, lit: seq<Token>)
    requires IsChain(cfg, [l, r], [f]) && Stops(rest)
    ensures var tree := Function(f, "", [l, Function(Not, "", [r])]);
            var out := ParseExpr(cfg, OperandTokens(l) + ([Sign(f)] + ([Token(Id, "not")] + (OperandTokens(r) + rest))), lit);
            (out.Ok? && out.value.node == Some(tree)) <==> Row(f) < 3
  {
    assert l in [l, r] && r in [l, r] && f in [f];
    TableIs(f);
    hide Printable, Loop;
    OperandPrints(cfg, l, LeftLevel(f));
    OperandPrints(cfg, r, 5);
    L.NotComesBack(cfg, f, l, r, rest, lit, L.EMPTY, 0);
  }
}
