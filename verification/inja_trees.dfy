// When the nodes of an accepted template are a template tree: exactly if every expression holds an operand and every
// else-if finds the false branch it goes to still empty.
module InjaTrees {
  import opened Wrappers
  import opened InjaSyntax
  import opened InjaStatement
  import opened InjaTags
  import opened InjaNesting
  import opened InjaPlaces
  import opened InjaEnds
  import opened InjaReading
  import O = InjaOperands
  import T = InjaTemplate
  import X = InjaExpression

  // ---------------------------------------------------------------- trees in the heap

  ghost predicate IsNestedCell(h: Heap, i: nat) {
    i < |h.cells| && h.cells[i].IfCell? && h.cells[i].isNested
  }

  // Chained ifs are alone in their false branches.
  ghost predicate Lone(h: Heap) {
    forall i: nat :: IsNestedCell(h, i) ==> ValidRef(h, h.cells[i].parent) && |BlockOf(h, h.cells[i].parent)| == 1
  }

  lemma BlockIsBody(h: Heap, r: BlockRef)
    requires Woven(h) && ValidRef(h, r)
    ensures Linked(h, BlockOf(h, r), LowOf(r)) && (!r.FalseOf? ==> Plain(h, BlockOf(h, r)))
  {
    forall n | n in BlockOf(h, r)
      ensures IsLeaf(n) || (LowOf(r) <= n.id < |h.cells| && n == NodeFor(h, n.id) && Hung(h, n.id) && h.cells[n.id].parent == r)
    {
      WovenBelongs(h, r, n);
      if !IsLeaf(n) { WovenHung(h, n.id); }
    }
  }

  lemma FalseBranch(h: Heap, id: nat)
    requires Woven(h) && Lone(h) && ValidRef(h, FalseOf(id))
    ensures var els := h.cells[id].falseStatement; Plain(h, els) || IsChained(h, els)
  {
    var els := h.cells[id].falseStatement;
    assert els == BlockOf(h, FalseOf(id));
    if n :| n in els && n.IfNode? && n.id < |h.cells| && h.cells[n.id].IfCell? && h.cells[n.id].isNested {
      WovenBelongs(h, FalseOf(id), n);
      assert IsNestedCell(h, n.id) && |els| == 1;
    }
  }

  lemma WovenIsSound(h: Heap)
    requires Woven(h) && Lone(h)
    ensures Sound(h)
  {
    hide Woven, Lone, Linked, Plain, IsChained;
    BlockIsBody(h, Root);
    forall i | 0 <= i < |h.cells| ensures SoundCell(h, h.cells[i], i + 1) {
      match h.cells[i]
      case IfCell(_, _, _, _, _, _) =>
        WovenHung(h, i);
        BlockIsBody(h, TrueOf(i));
        BlockIsBody(h, FalseOf(i));
        FalseBranch(h, i);
      case ForCell(_, _, _, _, _) => BlockIsBody(h, BodyOf(i));
      case NamedCell(_, _, _) => BlockIsBody(h, NamedOf(i));
    }
  }

  // What a tree says of the blocks of one cell.
  ghost predicate IsCellTree(h: Heap, c: Cell) {
    match c
    case IfCell(cond, thn, _, _, _, _) =>
      cond.Some? && (exists ss :: T.Represents(h, thn, ss, 0, |h.cells|)) && exists els :: T.IsElse(h, c, els, 0, |h.cells|)
    case ForCell(_, _, cond, body, _) => cond.Some? && exists ss :: T.Represents(h, body, ss, 0, |h.cells|)
    case NamedCell(_, block, _) => exists ss :: T.Represents(h, block, ss, 0, |h.cells|)
  }

  lemma {:induction false} ElementTree(h: Heap, ns: seq<Node>, ss: seq<T.Stmt>, n: Node) returns (s: T.Stmt)
    requires T.Represents(h, ns, ss, 0, |h.cells|) && n in ns
    ensures T.IsTree(h, n, s, 0, |h.cells|)
    decreases |ns|
  {
    hide T.IsTree;
    if n == ns[0] { s := ss[0]; } else { s := ElementTree(h, ns[1..], ss[1..], n); }
  }

  lemma NodeIsCellTree(h: Heap, n: Node, s: T.Stmt)
    requires T.IsTree(h, n, s, 0, |h.cells|) && !IsLeaf(n)
    ensures n.id < |h.cells| && IsCellTree(h, h.cells[n.id]) && (n.IfNode? ==> h.cells[n.id].IfCell? && !h.cells[n.id].isNested)
  {
    hide T.Represents, T.IsElse;
  }

  lemma FalseIsCellTree(h: Heap, c: Cell, els: T.Else, n: Node)
    requires c.IfCell? && T.IsElse(h, c, els, 0, |h.cells|) && n in c.falseStatement && !IsLeaf(n)
    ensures n.id < |h.cells| && IsCellTree(h, h.cells[n.id])
    ensures n.IfNode? && h.cells[n.id].IfCell? && h.cells[n.id].isNested ==> |c.falseStatement| == 1
  {
    hide T.Represents;
    match els
    case ElseBlock(ss) =>
      var s := ElementTree(h, c.falseStatement, ss, n);
      NodeIsCellTree(h, n, s);
    case ElseIf(cond, thn, more) => assert n == c.falseStatement[0];
    case NoElse =>
  }

  // In a heap that is a tree every cell is in it.
  lemma {:induction false} EveryCellIsTree(h: Heap, ss: seq<T.Stmt>, i: nat)
    requires Woven(h) && T.Represents(h, h.root, ss, 0, |h.cells|) && i < |h.cells|
    ensures IsCellTree(h, h.cells[i])
    ensures h.cells[i].IfCell? && h.cells[i].isNested ==> ValidRef(h, h.cells[i].parent) && |BlockOf(h, h.cells[i].parent)| == 1
    decreases i
  {
    hide Woven, T.Represents, T.IsElse, T.IsTree;
    WovenHung(h, i);
    var r, n := h.cells[i].parent, NodeFor(h, i);
    assert n in BlockOf(h, r);
    if r != Root { EveryCellIsTree(h, ss, LowOf(r) - 1); }
    if r.FalseOf? {
      var els :| T.IsElse(h, h.cells[r.id], els, 0, |h.cells|);
      FalseIsCellTree(h, h.cells[r.id], els, n);
    } else {
      var ss' := BlockTree(h, ss, r);
      var s := ElementTree(h, BlockOf(h, r), ss', n);
      NodeIsCellTree(h, n, s);
    }
  }

  lemma BlockTree(h: Heap, ss: seq<T.Stmt>, r: BlockRef) returns (ss': seq<T.Stmt>)
    requires T.Represents(h, h.root, ss, 0, |h.cells|) && ValidRef(h, r) && !r.FalseOf?
    requires r != Root ==> IsCellTree(h, h.cells[LowOf(r) - 1])
    ensures T.Represents(h, BlockOf(h, r), ss', 0, |h.cells|)
  {
    match r
    case Root => ss' := ss;
    case TrueOf(i) => ss' :| T.Represents(h, h.cells[i].trueStatement, ss', 0, |h.cells|);
    case BodyOf(i) => ss' :| T.Represents(h, h.cells[i].body, ss', 0, |h.cells|);
    case NamedOf(i) => ss' :| T.Represents(h, h.cells[i].block, ss', 0, |h.cells|);
  }

  lemma TreeIsFilled(h: Heap, ns: seq<Node>, ss: seq<T.Stmt>)
    requires T.Represents(h, ns, ss, 0, |h.cells|)
    ensures FilledNodes(ns)
  {
    forall n | n in ns ensures (n.ExpressionNode? ==> n.root.Some?) && (n.SetNode? ==> n.expression.Some?) {
      var s := ElementTree(h, ns, ss, n);
    }
  }

  lemma ElseIsFilled(h: Heap, c: Cell, els: T.Else)
    requires c.IfCell? && T.IsElse(h, c, els, 0, |h.cells|)
    ensures FilledNodes(c.falseStatement)
  {
    hide T.Represents;
    match els
    case ElseBlock(ss) => TreeIsFilled(h, c.falseStatement, ss);
    case _ =>
  }

  lemma CellTreeIsFilled(h: Heap, c: Cell)
    requires IsCellTree(h, c)
    ensures FilledCell(c)
  {
    hide T.Represents, T.IsElse, FilledNodes;
    match c
    case IfCell(_, thn, _, _, _, _) =>
      var ss :| T.Represents(h, thn, ss, 0, |h.cells|);
      TreeIsFilled(h, thn, ss);
      var els :| T.IsElse(h, c, els, 0, |h.cells|);
      ElseIsFilled(h, c, els);
    case ForCell(_, _, _, body, _) =>
      var ss :| T.Represents(h, body, ss, 0, |h.cells|);
      TreeIsFilled(h, body, ss);
    case NamedCell(_, block, _) =>
      var ss :| T.Represents(h, block, ss, 0, |h.cells|);
      TreeIsFilled(h, block, ss);
  }

  ghost predicate IsTemplateTree(h: Heap) {
    exists ss :: T.Represents(h, h.root, ss, 0, |h.cells|)
  }

  lemma HeapIsTreeExactly(h: Heap)
    requires Woven(h)
    ensures IsTemplateTree(h) <==> Filled(h) && Lone(h)
  {
    hide Woven, T.Represents, FilledCell, FilledNodes, IsCellTree, BlockOf;
    if Filled(h) && Lone(h) {
      WovenIsSound(h);
      SoundRoot(h);
      FilledRoot(h);
      var ss := TreeOf(h, h.root, 0);
    }
    if IsTemplateTree(h) {
      var ss :| T.Represents(h, h.root, ss, 0, |h.cells|);
      TreeIsFilled(h, h.root, ss);
      forall i | 0 <= i < |h.cells| ensures FilledCell(h.cells[i]) {
        EveryCellIsTree(h, ss, i);
        CellTreeIsFilled(h, h.cells[i]);
      }
      forall i: nat | IsNestedCell(h, i)
        ensures ValidRef(h, h.cells[i].parent) && |BlockOf(h, h.cells[i].parent)| == 1
      {
        WovenHung(h, i);
        EveryCellIsTree(h, ss, i);
      }
    }
  }

  lemma SoundRoot(h: Heap)
    requires Sound(h)
    ensures IsBody(h, h.root, 0)
  {
  }

  // ---------------------------------------------------------------- expressions with operands

  function Drop(toks: seq<Token>, n: nat): seq<Token> { if n <= |toks| then toks[n..] else [] }

  // Where the expression of a tag begins, from its keyword on.
  function TagExpression(toks: seq<Token>): Option<seq<Token>> {
    match KeywordOf(First(toks))
    case KwIf => Some(Drop(toks, 1))
    case KwElse => if IsKeyword(First(Tail(toks)), "if") then Some(Drop(toks, 2)) else None
    case KwFor => Some(Drop(toks, if First(Drop(toks, 2)).kind.Comma? then 5 else 3))
    case KwSet => Some(Drop(toks, 3))
    case _ => None
  }

  function ExpressionAt(toks: seq<Token>): Option<seq<Token>>
    requires toks != []
  {
    if toks[0].kind.ExpressionOpen? then Some(toks[1..])
    else if OpensStatement(toks[0].kind) then TagExpression(toks[1..])
    else None
  }

  predicate Filling(toks: seq<Token>)
    requires toks != []
  {
    ExpressionAt(toks).Some? ==> !O.NoOperand(ExpressionAt(toks).value, 0, 0)
  }

  // Every expression of the template holds an operand.
  predicate Operands(toks: seq<Token>) {
    toks != [] ==> Filling(toks) && Operands(toks[1..])
  }

  lemma {:induction false} QuietOperands(toks: seq<Token>, rest: seq<Token>)
    requires Quiet(toks, rest)
    ensures Operands(toks) == Operands(rest)
    decreases |toks|
  {
    hide O.NoOperand;
    if |rest| < |toks| {
      assert toks[1..][|toks| - 1 - |rest|..] == rest;
      assert forall i :: 0 <= i < |toks| - 1 - |rest| ==> toks[1..][i] == toks[i + 1];
      QuietOperands(toks[1..], rest);
      assert ExpressionAt(toks).None?;
    } else {
      assert toks == rest;
    }
  }

  lemma FilledWithNode(h: Heap, at: BlockRef, n: Node, added: seq<Cell>)
    requires ValidRef(h, at)
    ensures Filled(WithNode(h, at, n, added)) <==> Filled(h) && FilledNodes([n]) && forall c <- added :: FilledCell(c)
  {
    hide WithNode, FilledNodes;
    var h' := WithNode(h, at, n, added);
    WithNodeShape(h, at, n, added);
    NewCell(h, at, n, added);
    forall c | c in added ensures exists i :: |h.cells| <= i < |h'.cells| && h'.cells[i] == c {
      var i :| 0 <= i < |added| && added[i] == c;
      assert h'.cells[|h.cells|..][i] == c;
    }
    forall i | |h.cells| <= i < |h'.cells| ensures h'.cells[i] in added { assert h'.cells[|h.cells|..][i - |h.cells|] == h'.cells[i]; }
    if at == Root {
      FilledPlus(h.root, n);
    } else {
      var k := LowOf(at) - 1;
      WithNodeCell(h, at, n, added);
      FilledPlus(BlockOf(h, at), n);
      assert FilledCell(h'.cells[k]) <==> FilledCell(h.cells[k]) && FilledNodes([n]);
    }
  }

  lemma FilledPlus(ns: seq<Node>, n: Node)
    ensures FilledNodes(ns + [n]) <==> FilledNodes(ns) && FilledNodes([n])
  {
    assert forall m :: m in ns + [n] <==> m in ns || m in [n];
  }

  lemma FilledMarked(h: Heap, id: nat)
    requires ValidRef(h, FalseOf(id))
    ensures Filled(Marked(h, id)) <==> Filled(h)
  {
    var h' := Marked(h, id);
    assert FilledCell(h'.cells[id]) == FilledCell(h.cells[id]);
    if Filled(h') { forall i | 0 <= i < |h.cells| ensures FilledCell(h.cells[i]) { assert FilledCell(h'.cells[i]); } }
  }

  // Entering a fresh statement, or adding a leaf.
  lemma FilledEnter(p: Parser, node: Node, cell: Cell, inner: BlockRef)
    requires ValidRef(p.h, p.current) && !IsLeaf(node)
    ensures Filled(Enter(p, p.current, node, cell, inner).h) <==> Filled(p.h) && FilledCell(cell)
  {
    hide FilledCell;
    EnterIsWithNode(p.h, p.current, node, cell);
    FilledWithNode(p.h, p.current, node, [cell]);
  }

  lemma FilledLeaf(p: Parser, n: Node)
    requires ValidRef(p.h, p.current)
    ensures Filled(AddNode(p, n).h) <==> Filled(p.h) && FilledNodes([n])
  {
    FilledWithNode(p.h, p.current, n, []);
    assert WithNode(p.h, p.current, n, []) == AddNode(p, n).h;
  }

  lemma ConditionFilled(env: Environment, p: Parser, closing: Kind)
    requires Condition(env, p, closing).Ok?
    ensures Condition(env, p, closing).value.1.None? <==> O.NoOperand(p.toks, 0, 0)
  {
    hide X.ParseExpr, O.NoOperand;
    O.EmptyExactly(env.expr, p.toks, p.lit);
  }

  // What each statement adds is filled exactly if its expression is.
  lemma IfFilled(env: Environment, p: Parser, closing: Kind, nested: bool)
    requires ValidRef(p.h, p.current) && ParseIf(env, p, closing, nested).Ok?
    ensures Filled(ParseIf(env, p, closing, nested).value.h) <==> Filled(p.h) && !O.NoOperand(p.toks, 0, 0)
  {
    hide Condition, Filled, O.NoOperand, Append;
    ConditionFilled(env, p, closing);
    var (q, cond) := Condition(env, p, closing).value;
    FilledEnter(q, IfNode(|q.h.cells|), IfCell(cond, [], [], q.current, nested, false), TrueOf(|q.h.cells|));
  }

  lemma ElseFilled(env: Environment, p: Parser, closing: Kind)
    requires ParseElse(env, p, closing).Ok?
    ensures Filled(ParseElse(env, p, closing).value.h) <==>
            Filled(p.h) && (IsKeyword(First(p.toks), "if") ==> !O.NoOperand(Tail(p.toks), 0, 0))
  {
    hide Condition, Filled, O.NoOperand, ParseIf;
    var id := Last(p.ifs);
    FilledMarked(p.h, id);
    MarkedBlocks(p.h, id);
    var q := T.EnterElse(p);
    if IsKeyword(First(p.toks), "if") { IfFilled(env, Advance(q), closing, true); }
  }

  lemma ForInFilled(env: Environment, p: Parser, closing: Kind, key: Option<string>, value: string)
    requires ValidRef(p.h, p.current) && ParseForIn(env, p, closing, key, value).Ok?
    ensures Filled(ParseForIn(env, p, closing, key, value).value.h) <==> Filled(p.h) && !O.NoOperand(Tail(p.toks), 0, 0)
  {
    hide Condition, Filled, O.NoOperand, Append;
    ConditionFilled(env, Advance(p), closing);
    var (q, cond) := Condition(env, Advance(p), closing).value;
    FilledEnter(q, ForNode(|q.h.cells|), ForCell(key, value, cond, [], q.current), BodyOf(|q.h.cells|));
  }

  lemma ForFilled(env: Environment, p: Parser, closing: Kind)
    requires ValidRef(p.h, p.current) && ParseFor(env, p, closing).Ok?
    ensures Filled(ParseFor(env, p, closing).value.h) <==>
            Filled(p.h) && !O.NoOperand(Drop(p.toks, if First(Drop(p.toks, 1)).kind.Comma? then 4 else 2), 0, 0)
  {
    hide ParseForIn, Filled, O.NoOperand;
    Drops(p.toks);
    if First(Tail(p.toks)).kind.Comma? {
      ForInFilled(env, Advance(Advance(Advance(p))), closing, Some(First(p.toks).text), First(Tail(Tail(p.toks))).text);
    } else {
      ForInFilled(env, Advance(p), closing, None, First(p.toks).text);
    }
  }

  lemma Drops(toks: seq<Token>)
    ensures Drop(toks, 0) == toks && Drop(toks, 1) == Tail(toks) && Drop(toks, 2) == Tail(Tail(toks))
    ensures Drop(toks, 3) == Tail(Tail(Tail(toks))) && Drop(toks, 4) == Tail(Tail(Tail(Tail(toks))))
    ensures forall n: nat :: Drop(Tail(toks), n) == Drop(toks, n + 1)
  {
    forall n: nat ensures Drop(Tail(toks), n) == Drop(toks, n + 1) {}
  }

  lemma BlockFilled(p: Parser)
    requires ValidRef(p.h, p.current) && ParseBlock(p).Ok?
    ensures Filled(ParseBlock(p).value.h) <==> Filled(p.h)
  {
    hide Filled, Append;
    FilledEnter(p, NamedBlockNode(|p.h.cells|), NamedCell(First(p.toks).text, [], p.current), NamedOf(|p.h.cells|));
  }

  lemma SetFilled(env: Environment, p: Parser, closing: Kind)
    requires ValidRef(p.h, p.current) && ParseSet(env, p, closing).Ok?
    ensures Filled(ParseSet(env, p, closing).value.h) <==> Filled(p.h) && !O.NoOperand(Drop(p.toks, 2), 0, 0)
  {
    hide Condition, Filled, O.NoOperand, Append;
    Drops(p.toks);
    var q := Advance(Advance(p));
    ConditionFilled(env, q, closing);
    var c := Condition(env, q, closing).value;
    FilledLeaf(c.0, SetNode(First(p.toks).text, c.1));
  }

  lemma FileFilled(env: Environment, p: Parser, isExtends: bool)
    requires ValidRef(p.h, p.current) && ParseFileNode(env, p, isExtends).Ok?
    ensures Filled(ParseFileNode(env, p, isExtends).value.h) <==> Filled(p.h)
  {
    hide Filled, Append;
    var f := ParseFile(env, p).value;
    FilledLeaf(p, if isExtends then ExtendsNode(f) else IncludeNode(f));
  }

  lemma StatementFilled(env: Environment, p: Parser, closing: Kind)
    requires ValidRef(p.h, p.current) && ParseStatement(env, p, closing).Ok?
    ensures var e := TagExpression(p.toks);
            Filled(ParseStatement(env, p, closing).value.h) <==> Filled(p.h) && (e.Some? ==> !O.NoOperand(e.value, 0, 0))
  {
    hide KeywordOf, ParseIf, ParseElse, ParseBlock, ParseFor, ParseSet, ParseFileNode, Filled, O.NoOperand, Drop;
    var q := Advance(p);
    Drops(p.toks);
    match KeywordOf(First(p.toks))
    case KwIf => IfFilled(env, q, closing, false);
    case KwElse => ElseFilled(env, q, closing);
    case KwBlock => BlockFilled(q);
    case KwFor => ForFilled(env, q, closing);
    case KwInclude => FileFilled(env, q, false);
    case KwExtends => FileFilled(env, q, true);
    case KwSet => SetFilled(env, q, closing);
    case _ =>
  }

  lemma StepFilled(env: Environment, p: Parser)
    requires ValidRef(p.h, p.current) && p.toks != [] && Step(env, p).Ok?
    ensures Filled(Step(env, p).value.h) <==> Filled(p.h) && Filling(p.toks)
  {
    hide ParseStatement, X.ParseExpr, Filled, O.NoOperand, Append, TagExpression;
    var q := Advance(p);
    match p.toks[0].kind
    case Text => FilledLeaf(p, TextNode(p.toks[0].text));
    case StatementOpen => StatementFilled(env, q, StatementClose);
    case LineStatementOpen => StatementFilled(env, q, LineStatementClose);
    case ExpressionOpen =>
      O.EmptyExactly(env.expr, q.toks, q.lit);
      FilledLeaf(p, ExpressionNode(X.ParseExpr(env.expr, q.toks, q.lit).value.node));
    case _ =>
  }

  lemma {:induction false} RunFilled(env: Environment, p: Parser)
    requires Invariant(p) && IsInput(p.toks) && ParseInto(env, p).Ok?
    ensures Filled(ParseInto(env, p).value.h) <==> Filled(p.h) && Operands(p.toks)
    decreases |p.toks|
  {
    hide Step, Filled, Filling;
    if p.toks != [] {
      assert p.toks[0] in p.toks;
      var q := Step(env, p).value;
      StepFilled(env, p);
      StepReads(env, p);
      QuietOperands(p.toks[1..], q.toks);
      QuietInput(p.toks[1..], q.toks);
      StepKeepsInvariant(env, p);
      RunFilled(env, q);
    }
  }

  // ---------------------------------------------------------------- else-ifs of their own

  // The m-th tag puts a node into block r.
  predicate PutsInto(tags: seq<Tag>, m: nat, r: BlockRef)
    requires m < |tags|
  {
    Adds(tags[m]) && Target(tags, m) == r
  }

  // Every else-if finds the false branch it goes to still empty.
  ghost predicate ElseIfsFirst(tags: seq<Tag>) {
    forall k, m :: 0 <= m < k < |tags| && tags[k].ElseIfTag? ==> !PutsInto(tags, m, Target(tags, k))
  }

  lemma {:induction false} HeldNone(tags: seq<Tag>, r: BlockRef)
    ensures Held(tags, r) == 0 <==> forall m :: 0 <= m < |tags| ==> !PutsInto(tags, m, r)
    decreases |tags|
  {
    if tags != [] {
      var front := Front(tags);
      assert tags == front + [Last(tags)];
      TagsPlus(front, Last(tags));
      HeldNone(front, r);
      assert PutsInto(tags, |front|, r) <==> Adds(Last(tags)) && Target(tags, |front|) == r;
      assert forall m :: 0 <= m < |front| ==> PutsInto(tags, m, r) == PutsInto(front, m, r);
    }
  }

  lemma ElseIfsPlus(tags: seq<Tag>, t: Tag)
    ensures ElseIfsFirst(tags + [t]) <==>
            ElseIfsFirst(tags) && (t.ElseIfTag? ==> Held(tags, Target(tags + [t], |tags|)) == 0)
  {
    hide Target, Held, Adds;
    var all := tags + [t];
    TagsPlus(tags, t);
    HeldNone(tags, Target(all, |tags|));
    assert forall m, r :: 0 <= m < |tags| ==> PutsInto(all, m, r) == PutsInto(tags, m, r);
    if ElseIfsFirst(all) {
      forall k, m | 0 <= m < k < |tags| && tags[k].ElseIfTag? ensures !PutsInto(tags, m, Target(tags, k)) {
        assert !PutsInto(all, m, Target(all, k));
      }
    }
  }

  // On the stack an if is followed by the if chained to it.
  ghost predicate Paired(ifs: seq<nat>, id: nat, nid: nat) {
    forall j :: 0 <= j < |ifs| && ifs[j] == id ==> j + 1 < |ifs| && ifs[j + 1] == nid
  }

  // The parser never comes back to a false branch that holds only a chained if.
  ghost predicate SealedAt(p: Parser, i: nat)
    requires i < |p.h.cells|
  {
    var r := p.h.cells[i].parent;
    ValidRef(p.h, r) && r.FalseOf? && (|BlockOf(p.h, r)| == 1 ==> p.current != r && Paired(p.ifs, r.id, i))
  }

  ghost predicate Ascending(ids: seq<nat>) { forall a, b :: 0 <= a < b < |ids| ==> ids[a] < ids[b] }

  ghost predicate Sealed(p: Parser) {
    Ascending(p.ifs) && forall i: nat :: IsNestedCell(p.h, i) ==> SealedAt(p, i)
  }

  // What a step does to the block that a chained if is in.
  lemma BlockStep(p: Parser, q: Parser, tags: seq<Tag>, t: Tag, n: Node, added: seq<Cell>, r: BlockRef)
    requires Follows(p, tags) && Effect(p, q, t, n, added) && ValidRef(p.h, r)
    ensures ValidRef(q.h, r)
    ensures BlockOf(q.h, r) == if Adds(t) && Into(p, t) == r then BlockOf(p.h, r) + [n] else BlockOf(p.h, r)
  {
    hide WithNode, PopNested, Follows;
    IntoIsTarget(p, q, tags, t, n, added);
    if Adds(t) {
      WithNodeShape(Before(p, t), Into(p, t), n, added);
      ValidKept(Before(p, t), q.h, r);
      BlockAfter(Before(p, t), Into(p, t), n, added, r);
    }
  }

  lemma InvariantIds(p: Parser)
    requires Invariant(p)
    ensures forall id <- p.ifs :: id < |p.h.cells|
    ensures forall id <- p.fors :: id < |p.h.cells| && p.h.cells[id].ForCell?
    ensures forall id <- p.blocks :: id < |p.h.cells| && p.h.cells[id].NamedCell?
  {
  }

  // Closing something goes to a block that holds more than a chained if.
  lemma ParentHoldsMore(h: Heap, i: nat, c: nat)
    requires Woven(h) && IsNestedCell(h, i) && c < |h.cells| && !IsNestedCell(h, c) && ValidRef(h, h.cells[i].parent)
    requires |BlockOf(h, h.cells[i].parent)| == 1
    ensures h.cells[c].parent != h.cells[i].parent
  {
    WovenHung(h, i);
    WovenHung(h, c);
    var ns := BlockOf(h, h.cells[i].parent);
    assert NodeFor(h, i) == ns[0] != NodeFor(h, c);
  }

  lemma CurrentSealed(p: Parser, q: Parser, tags: seq<Tag>, t: Tag, n: Node, added: seq<Cell>, i: nat)
    requires Follows(p, tags) && Effect(p, q, t, n, added) && IsNestedCell(p.h, i) && SealedAt(p, i)
    requires |BlockOf(p.h, p.h.cells[i].parent)| == 1
    ensures q.current != p.h.cells[i].parent && Into(p, t) != p.h.cells[i].parent
  {
    hide WithNode, PopNested, IsNodeOf, BlockOf, Woven, Stacked, Shaped, Counted;
    InvariantIds(p);
    match t
    case EndifTag =>
      PopNestedIsDefined(p.h, p.ifs);
      ParentHoldsMore(p.h, i, Last(PopNested(p.h, p.ifs).value));
    case EndforTag =>
      assert Last(p.fors) in p.fors;
      ParentHoldsMore(p.h, i, Last(p.fors));
    case EndblockTag =>
      assert Last(p.blocks) in p.blocks;
      ParentHoldsMore(p.h, i, Last(p.blocks));
    case _ =>
  }

  lemma PairedStep(p: Parser, q: Parser, tags: seq<Tag>, t: Tag, n: Node, added: seq<Cell>, i: nat)
    requires Follows(p, tags) && Effect(p, q, t, n, added) && IsNestedCell(p.h, i) && SealedAt(p, i)
    requires |BlockOf(p.h, p.h.cells[i].parent)| == 1
    ensures Paired(q.ifs, p.h.cells[i].parent.id, i)
  {
    hide WithNode, PopNested, IsNodeOf, BlockOf, Woven, Stacked, Shaped, Counted;
    InvariantIds(p);
    if t.EndifTag? { PopNestedIsDefined(p.h, p.ifs); }
  }

  lemma AscendingStep(p: Parser, q: Parser, tags: seq<Tag>, t: Tag, n: Node, added: seq<Cell>)
    requires Follows(p, tags) && Effect(p, q, t, n, added) && Ascending(p.ifs)
    ensures Ascending(q.ifs)
  {
    hide WithNode, PopNested, IsNodeOf, Woven, Stacked, Shaped, Counted;
    InvariantIds(p);
    assert forall j :: 0 <= j < |p.ifs| ==> p.ifs[j] in p.ifs;
    if t.EndifTag? { PopNestedIsDefined(p.h, p.ifs); }
  }

  // The chained if that an else-if adds.
  lemma NewNested(p: Parser, q: Parser, tags: seq<Tag>, t: Tag, n: Node, added: seq<Cell>)
    requires Follows(p, tags) && Effect(p, q, t, n, added) && AddsCell(t)
    ensures |p.h.cells| < |q.h.cells| && q.h.cells[|p.h.cells|].parent == Into(p, t) && IsCellOf(q.h.cells[|p.h.cells|], t)
  {
    hide WithNode, PopNested, Follows;
    IntoIsTarget(p, q, tags, t, n, added);
    NewCell(Before(p, t), Into(p, t), n, added);
    WithNodeShape(Before(p, t), Into(p, t), n, added);
    assert q.h.cells[|p.h.cells|] == added[0] && added[0] in added;
  }

  lemma SealedStep(p: Parser, q: Parser, tags: seq<Tag>, t: Tag, n: Node, added: seq<Cell>)
    requires Follows(p, tags) && Sealed(p) && Effect(p, q, t, n, added)
    ensures Sealed(q)
  {
    hide Follows, Effect, Woven, WithNode, BlockOf;
    ShapeStep(p, q, tags, t, n, added);
    CellsPlus(tags, t);
    SizesFollow(p, tags);
    AscendingStep(p, q, tags, t, n, added);
    forall i: nat | IsNestedCell(q.h, i) ensures SealedAt(q, i) {
      if i < |p.h.cells| {
        assert SameCellShape(p.h.cells[i], q.h.cells[i]);
        OldSealed(p, q, tags, t, n, added, i);
      } else {
        NewSealed(p, q, tags, t, n, added);
      }
    }
  }

  lemma SizesFollow(p: Parser, tags: seq<Tag>)
    requires Follows(p, tags)
    ensures |p.h.cells| == Cells(tags)
  {
  }

  lemma HoldsNode(p: Parser, tags: seq<Tag>, i: nat)
    requires Follows(p, tags) && IsNestedCell(p.h, i)
    ensures ValidRef(p.h, p.h.cells[i].parent) && |BlockOf(p.h, p.h.cells[i].parent)| >= 1 && p.h.cells[i].parent.FalseOf?
  {
    WovenHung(p.h, i);
  }

  lemma OldSealed(p: Parser, q: Parser, tags: seq<Tag>, t: Tag, n: Node, added: seq<Cell>, i: nat)
    requires Follows(p, tags) && Effect(p, q, t, n, added) && IsNestedCell(p.h, i) && SealedAt(p, i)
    requires i < |q.h.cells| && q.h.cells[i].parent == p.h.cells[i].parent
    ensures SealedAt(q, i)
    ensures |BlockOf(q.h, q.h.cells[i].parent)| == 1 <==> |BlockOf(p.h, p.h.cells[i].parent)| == 1
  {
    hide Follows, Effect, BlockOf;
    HoldsNode(p, tags, i);
    var r := p.h.cells[i].parent;
    BlockStep(p, q, tags, t, n, added, r);
    if |BlockOf(p.h, r)| == 1 {
      CurrentSealed(p, q, tags, t, n, added, i);
      PairedStep(p, q, tags, t, n, added, i);
    }
  }

  lemma NewSealed(p: Parser, q: Parser, tags: seq<Tag>, t: Tag, n: Node, added: seq<Cell>)
    requires Follows(p, tags) && Ascending(p.ifs) && Effect(p, q, t, n, added) && AddsCell(t) && IsNestedCell(q.h, |p.h.cells|)
    ensures SealedAt(q, |p.h.cells|) && t.ElseIfTag?
    ensures ValidRef(p.h, Into(p, t))
    ensures |BlockOf(q.h, q.h.cells[|p.h.cells|].parent)| == 1 <==> BlockOf(p.h, Into(p, t)) == []
  {
    NewNested(p, q, tags, t, n, added);
    hide Follows, WithNode, IsNodeOf, BlockOf, PopNested, Ascending, Paired;
    BlockStep(p, q, tags, t, n, added, Into(p, t));
    TopIfIsCell(p, tags);
    PairedNew(p.ifs, |p.h.cells|);
  }

  lemma PairedNew(ifs: seq<nat>, nid: nat)
    requires Ascending(ifs) && ifs != [] && Last(ifs) < nid
    ensures Paired(ifs + [nid], Last(ifs), nid)
  {
  }

  // All chained ifs are alone so far exactly if all else-ifs so far have found their false branches empty.
  lemma LoneStep(p: Parser, q: Parser, tags: seq<Tag>, t: Tag, n: Node, added: seq<Cell>)
    requires Follows(p, tags) && Sealed(p) && Effect(p, q, t, n, added)
    ensures Lone(q.h) <==> Lone(p.h) && (t.ElseIfTag? ==> Held(tags, Target(tags + [t], |tags|)) == 0)
  {
    hide Effect, Woven, WithNode, BlockOf, Stacked, Shaped, Invariant, Target, Held;
    ShapeStep(p, q, tags, t, n, added);
    CellsPlus(tags, t);
    IntoIsTarget(p, q, tags, t, n, added);
    forall i: nat | IsNestedCell(p.h, i)
      ensures IsNestedCell(q.h, i) && ValidRef(p.h, p.h.cells[i].parent) && ValidRef(q.h, q.h.cells[i].parent)
      ensures |BlockOf(q.h, q.h.cells[i].parent)| == 1 <==> |BlockOf(p.h, p.h.cells[i].parent)| == 1
    {
      assert SameCellShape(p.h.cells[i], q.h.cells[i]);
      OldSealed(p, q, tags, t, n, added, i);
    }
    forall i: nat | IsNestedCell(q.h, i) && i < |p.h.cells| ensures IsNestedCell(p.h, i) {
      assert SameCellShape(p.h.cells[i], q.h.cells[i]);
    }
    if t.ElseIfTag? {
      NewNested(p, q, tags, t, n, added);
      HeldIs(p, tags, Into(p, t));
    }
    if IsNestedCell(q.h, |p.h.cells|) { NewSealed(p, q, tags, t, n, added); }
  }

  lemma {:induction false} RunSealed(env: Environment, p: Parser, tags: seq<Tag>)
    requires Follows(p, tags) && Sealed(p) && IsInput(p.toks) && ParseInto(env, p).Ok?
    requires Lone(p.h) <==> ElseIfsFirst(tags)
    ensures Lone(ParseInto(env, p).value.h) <==> ElseIfsFirst(tags + Tags(p.toks))
    decreases |p.toks|
  {
    hide Step, Follows, Effect, Invariant, TagOf, Sealed, Lone, ElseIfsFirst, Held, Target;
    if p.toks == [] {
      assert tags + Tags(p.toks) == tags;
    } else {
      assert p.toks[0] in p.toks;
      FollowsFacts(p, tags);
      StepTags(env, p);
      StepKeepsInvariant(env, p);
      var q := Step(env, p).value;
      if Starts(p.toks[0].kind) {
        var t := TagOf(p.toks);
        var n, added := StepEffect(env, p);
        StepFollows(p, q, tags, t, n, added);
        SealedStep(p, q, tags, t, n, added);
        LoneStep(p, q, tags, t, n, added);
        ElseIfsPlus(tags, t);
        RunSealed(env, q, tags + [t]);
        assert tags + Tags(p.toks) == tags + [t] + Tags(q.toks);
      } else {
        OtherSteps(env, p);
        SameFollows(p, q, tags);
        SameSealed(p, q);
        RunSealed(env, q, tags);
        assert Tags(p.toks) == Tags(q.toks);
      }
    }
  }

  lemma SameSealed(p: Parser, q: Parser)
    requires Sealed(p) && q == p.(toks := q.toks)
    ensures Sealed(q)
  {
    forall i: nat | IsNestedCell(q.h, i) ensures SealedAt(q, i) { assert SealedAt(p, i); }
  }

  // ---------------------------------------------------------------- the tags of the tree

  // Cells of one kind that hold nodes in the same order.
  ghost predicate SameCell(h: Heap, h': Heap, i: nat)
    requires i < |h.cells| && i < |h'.cells|
  {
    var c, c' := h.cells[i], h'.cells[i];
    match c
    case IfCell(_, thn, els, _, isNested, hasFalse) =>
      c'.IfCell? && c'.isNested == isNested && c'.hasFalse == hasFalse &&
      Skeleton(c'.trueStatement) == Skeleton(thn) && Skeleton(c'.falseStatement) == Skeleton(els)
    case ForCell(_, _, _, body, _) => c'.ForCell? && Skeleton(c'.body) == Skeleton(body)
    case NamedCell(_, block, _) => c'.NamedCell? && Skeleton(c'.block) == Skeleton(block)
  }

  ghost predicate SameHeap(h: Heap, h': Heap) {
    |h.cells| == |h'.cells| && forall i :: 0 <= i < |h.cells| ==> SameCell(h, h', i)
  }

  // The tags fix the heap up to what the leaves and expressions are.
  lemma TagsFixHeap(p: Parser, p': Parser, tags: seq<Tag>)
    requires Follows(p, tags) && Follows(p', tags)
    ensures SameHeap(p.h, p'.h) && Skeleton(p.h.root) == Skeleton(p'.h.root)
  {
    hide Skeleton, Nodes, Target, Where, IfStack, Elses, Woven, Invariant, Stacked;
    RootFollows(p, tags);
    RootFollows(p', tags);
    forall i | 0 <= i < |p.h.cells| ensures SameCell(p.h, p'.h, i) {
      var k := CellsGrow(tags, i);
      assert CellFor(p.h, tags, k) && CellFor(p'.h, tags, k);
      CellFollows(p, tags, i);
      CellFollows(p', tags, i);
    }
  }

  lemma RootFollows(p: Parser, tags: seq<Tag>)
    requires Follows(p, tags)
    ensures Skeleton(p.h.root) == Nodes(tags, Root)
  {
    assert ValidRef(p.h, Root);
  }

  lemma CellFollows(p: Parser, tags: seq<Tag>, i: nat)
    requires Follows(p, tags) && i < |p.h.cells|
    ensures match p.h.cells[i]
            case IfCell(_, thn, els, _, _, hasFalse) =>
              Skeleton(thn) == Nodes(tags, TrueOf(i)) && Skeleton(els) == Nodes(tags, FalseOf(i)) && (hasFalse <==> i in Elses(tags))
            case ForCell(_, _, _, body, _) => Skeleton(body) == Nodes(tags, BodyOf(i))
            case NamedCell(_, block, _) => Skeleton(block) == Nodes(tags, NamedOf(i))
  {
    hide Skeleton, Nodes, Elses, Woven, Invariant, Stacked, Shaped;
    match p.h.cells[i]
    case IfCell(_, _, _, _, _, _) => assert ValidRef(p.h, TrueOf(i)) && ValidRef(p.h, FalseOf(i));
    case ForCell(_, _, _, _, _) => assert ValidRef(p.h, BodyOf(i));
    case NamedCell(_, _, _) => assert ValidRef(p.h, NamedOf(i));
  }

  lemma {:induction false} CellsGrow(tags: seq<Tag>, id: nat) returns (k: nat)
    requires id < Cells(tags)
    ensures k < |tags| && AddsCell(tags[k]) && Cells(tags[..k]) == id
    decreases |tags|
  {
    var front := Front(tags);
    if id < Cells(front) {
      k := CellsGrow(front, id);
      assert tags[..k] == front[..k];
    } else {
      k := |front|;
      assert tags[..k] == front;
    }
  }

  lemma SkeletonFirst(ns: seq<Node>, ns': seq<Node>)
    requires Skeleton(ns) == Skeleton(ns') && ns != []
    ensures ns' != [] && Skeleton(ns[1..]) == Skeleton(ns'[1..])
    ensures IsLeaf(ns[0]) == IsLeaf(ns'[0]) && (!IsLeaf(ns[0]) ==> ns[0].id == ns'[0].id)
  {
    assert Skeleton(ns)[0] == Skeleton(ns')[0];
    forall i | 0 <= i < |ns| - 1 ensures Skeleton(ns[1..])[i] == Skeleton(ns'[1..])[i] {
      assert Skeleton(ns)[i + 1] == Skeleton(ns')[i + 1];
    }
  }

  lemma {:induction false} SameTags(h: Heap, ns: seq<Node>, ss: seq<T.Stmt>, h': Heap, ns': seq<Node>, ss': seq<T.Stmt>)
    requires SameHeap(h, h') && Skeleton(ns) == Skeleton(ns')
    requires T.Represents(h, ns, ss, 0, |h.cells|) && T.Represents(h', ns', ss', 0, |h'.cells|)
    ensures StmtsTags(ss) == StmtsTags(ss')
    decreases ss, 0
  {
    hide SameHeap, Skeleton, T.IsTree, StmtTags;
    if ns != [] {
      SkeletonFirst(ns, ns');
      SameStmtTags(h, ns[0], ss[0], h', ns'[0], ss'[0]);
      SameTags(h, ns[1..], ss[1..], h', ns'[1..], ss'[1..]);
    }
  }

  lemma {:induction false} SameStmtTags(h: Heap, n: Node, s: T.Stmt, h': Heap, n': Node, s': T.Stmt)
    requires SameHeap(h, h') && IsLeaf(n) == IsLeaf(n') && (!IsLeaf(n) ==> n.id == n'.id)
    requires T.IsTree(h, n, s, 0, |h.cells|) && T.IsTree(h', n', s', 0, |h'.cells|)
    ensures StmtTags(s) == StmtTags(s')
    decreases s, 1
  {
    hide Skeleton, T.Represents, T.IsElse, StmtsTags, ElseTags;
    if !IsLeaf(n) {
      var c, c' := h.cells[n.id], h'.cells[n.id];
      assert SameCell(h, h', n.id);
      match s
      case If(_, thn, els) =>
        SameTags(h, c.trueStatement, thn, h', c'.trueStatement, s'.thn);
        SameElseTags(h, c, els, h', c', s'.els);
      case For(_, _, _, body) => SameTags(h, c.body, body, h', c'.body, s'.body);
      case Block(_, inner) => SameTags(h, c.block, inner, h', c'.block, s'.inner);
    }
  }

  lemma {:induction false} SameElseTags(h: Heap, c: Cell, els: T.Else, h': Heap, c': Cell, els': T.Else)
    requires SameHeap(h, h') && c.IfCell? && c'.IfCell? && c.hasFalse == c'.hasFalse
    requires Skeleton(c.falseStatement) == Skeleton(c'.falseStatement)
    requires T.IsElse(h, c, els, 0, |h.cells|) && T.IsElse(h', c', els', 0, |h'.cells|)
    ensures ElseTags(els) == ElseTags(els')
    decreases els, 0
  {
    hide Skeleton, T.Represents, StmtsTags;
    if c.falseStatement != [] {
      SkeletonFirst(c.falseStatement, c'.falseStatement);
      var n, n' := c.falseStatement[0], c'.falseStatement[0];
      FirstOfElse(h, c, els);
      FirstOfElse(h', c', els');
      if !IsLeaf(n) { assert SameCell(h, h', n.id); }
      assert els.ElseIf? == els'.ElseIf?;
    }
    if els.ElseIf? {
      var n := c.falseStatement[0];
      SameTags(h, h.cells[n.id].trueStatement, els.thn, h', h'.cells[n.id].trueStatement, els'.thn);
      SameElseTags(h, h.cells[n.id], els.els, h', h'.cells[n.id], els'.els);
    } else if els.ElseBlock? && els'.ElseBlock? {
      SameTags(h, c.falseStatement, els.stmts, h', c'.falseStatement, els'.stmts);
    }
  }

  // The first node of a false branch tells an else-if from an else.
  lemma FirstOfElse(h: Heap, c: Cell, els: T.Else)
    requires c.IfCell? && T.IsElse(h, c, els, 0, |h.cells|) && c.falseStatement != []
    ensures var n := c.falseStatement[0];
            (n.IfNode? ==> n.id < |h.cells| && h.cells[n.id].IfCell?) &&
            (els.ElseIf? <==> n.IfNode? && h.cells[n.id].isNested) && (els.ElseIf? || els.ElseBlock?) &&
            (!IsLeaf(n) ==> n.id < |h.cells| && n == NodeFor(h, n.id))
  {
    match els
    case ElseBlock(ss) => assert T.IsTree(h, c.falseStatement[0], ss[0], 0, |h.cells|);
    case _ =>
  }

  // ---------------------------------------------------------------- the theorems

  // However its tags cross, an accepted template is a template tree if and only if each of its expressions holds an
  // operand and each else-if finds the false branch it goes to still empty.
  lemma AcceptedIsTreeExactly(env: Environment, toks: seq<Token>, lit: seq<Token>)
    requires IsInput(toks) && ParseInto(env, Start(toks, lit)).Ok?
    ensures IsTemplateTree(ParseInto(env, Start(toks, lit)).value.h) <==> Operands(toks) && ElseIfsFirst(Tags(toks))
  {
    hide ParseInto, Operands, ElseIfsFirst, IsTemplateTree, Follows;
    var p := Start(toks, lit);
    var q := ParseInto(env, p).value;
    EndsExactly(env, toks, lit);
    StartFilled(toks, lit);
    StartFollows(toks, lit);
    StartSealed(toks, lit);
    RunSealed(env, p, []);
    assert [] + Tags(toks) == Tags(toks);
    RunFilled(env, p);
    FollowsWoven(q, Tags(toks));
    HeapIsTreeExactly(q.h);
  }

  lemma FollowsWoven(p: Parser, tags: seq<Tag>)
    requires Follows(p, tags)
    ensures Woven(p.h)
  {
  }

  // In a sound heap chained ifs are alone.
  lemma SoundIsLone(h: Heap)
    requires Woven(h) && Sound(h)
    ensures Lone(h)
  {
    forall i: nat | IsNestedCell(h, i)
      ensures ValidRef(h, h.cells[i].parent) && |BlockOf(h, h.cells[i].parent)| == 1
    {
      WovenHung(h, i);
      var id := h.cells[i].parent.id;
      assert SoundCell(h, h.cells[id], id + 1);
      assert NodeFor(h, i) in h.cells[id].falseStatement && NodeFor(h, i) == IfNode(i);
    }
  }

  // The tree that the nodes of an accepted template are has the tags of the template if and only if those nest.
  lemma TreeHasTheTags(env: Environment, toks: seq<Token>, lit: seq<Token>, ss: seq<T.Stmt>)
    requires IsInput(toks) && ParseInto(env, Start(toks, lit)).Ok?
    requires var h := ParseInto(env, Start(toks, lit)).value.h; T.Represents(h, h.root, ss, 0, |h.cells|)
    ensures StmtsTags(ss) == Tags(toks) <==> WellNested(toks)
  {
    hide ParseInto, T.Represents, Follows, StmtsTags, SameHeap, Skeleton;
    StmtsNest(ss, [], []);
    assert StmtsTags(ss) + [] == StmtsTags(ss);
    if WellNested(toks) {
      var plain := TreeOfTags(Tags(toks));
      var toks' := T.PrintStmts(plain);
      PrintedTags(PLAIN, plain);
      T.RoundTrip(PLAIN, plain, lit);
      EndsExactly(env, toks, lit);
      EndsExactly(PLAIN, toks', lit);
      var q, q' := ParseInto(env, Start(toks, lit)).value, ParseInto(PLAIN, Start(toks', lit)).value;
      TagsFixHeap(q, q', Tags(toks));
      SameTags(q.h, q.h.root, ss, q'.h, q'.h.root, plain);
    }
  }

  // An accepted template with well-nested tags ends in the root block, with every construct closed; its nodes are a
  // template tree if and only if each of its expressions holds an operand; and that tree has the template's tags.
  lemma WellNestedIsTree(env: Environment, toks: seq<Token>, lit: seq<Token>)
    requires IsInput(toks) && WellNested(toks) && ParseInto(env, Start(toks, lit)).Ok?
    ensures var q := ParseInto(env, Start(toks, lit)).value;
            q.current == Root && q.ifs == q.fors == q.blocks == [] &&
            (IsTemplateTree(q.h) <==> Operands(toks)) &&
            forall ss | T.Represents(q.h, q.h.root, ss, 0, |q.h.cells|) :: StmtsTags(ss) == Tags(toks)
  {
    hide ParseInto, Operands, ElseIfsFirst, IsTemplateTree, Follows, Tags, Woven, Lone, Filled, T.Represents, StmtsTags;
    var p := Start(toks, lit);
    assert Opened(p, []);
    NestedRun(env, p, []);
    var q := ParseInto(env, p).value;
    forall ss | T.Represents(q.h, q.h.root, ss, 0, |q.h.cells|) ensures StmtsTags(ss) == Tags(toks) {
      TreeHasTheTags(env, toks, lit, ss);
    }
    EndsExactly(env, toks, lit);
    FollowsWoven(q, Tags(toks));
    SoundIsLone(q.h);
    HeapIsTreeExactly(q.h);
    RunFilled(env, p);
    StartFilled(toks, lit);
  }

  lemma StartSealed(toks: seq<Token>, lit: seq<Token>)
    ensures Sealed(Start(toks, lit)) && Lone(Start(toks, lit).h) && ElseIfsFirst([])
  {
  }

  lemma StartFilled(toks: seq<Token>, lit: seq<Token>)
    ensures Filled(Start(toks, lit).h) && Invariant(Start(toks, lit))
  {
  }
}
