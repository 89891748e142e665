// The normal form of an accepted template: its tree can be printed, and the print is parsed to that tree again.
module InjaNormal {
  import opened Wrappers
  import opened InjaSyntax
  import opened InjaStatement
  import opened InjaTags
  import opened InjaNesting
  import opened InjaPlaces
  import opened InjaEnds
  import opened InjaTrees
  import O = InjaOperands
  import T = InjaTemplate
  import X = InjaExpression

  // ---------------------------------------------------------------- expressions, files and names in the heap

  ghost predicate FitExpr(env: Environment, e: Option<Expr>) { e.Some? ==> X.Printable(env.expr, e.value) }

  ghost predicate FitNode(env: Environment, n: Node) {
    match n
    case ExpressionNode(root) => FitExpr(env, root)
    case SetNode(_, e) => FitExpr(env, e)
    case IncludeNode(file) => env.load(file) == Some(file)
    case ExtendsNode(file) => env.load(file) == Some(file)
    case _ => true
  }

  ghost predicate FitNodes(env: Environment, ns: seq<Node>) { forall n <- ns :: FitNode(env, n) }

  // A named block is stored under its name.
  ghost predicate FitCell(env: Environment, storage: map<string, nat>, i: nat, c: Cell) {
    match c
    case IfCell(cond, thn, els, _, _, _) => FitExpr(env, cond) && FitNodes(env, thn) && FitNodes(env, els)
    case ForCell(_, _, cond, body, _) => FitExpr(env, cond) && FitNodes(env, body)
    case NamedCell(name, block, _) => FitNodes(env, block) && name in storage && storage[name] == i
  }

  // The expressions can be printed, the files are stored under their own names, the named blocks under theirs.
  ghost predicate Fit(env: Environment, h: Heap, storage: map<string, nat>) {
    FitNodes(env, h.root) && forall i :: 0 <= i < |h.cells| ==> FitCell(env, storage, i, h.cells[i])
  }

  // Loading a file under the name it is stored under finds that file, as add_to_template_storage does with what it has
  // stored.
  ghost predicate Settles(env: Environment) {
    forall file :: env.load(file).Some? ==> env.load(env.load(file).value) == env.load(file)
  }

  lemma FitPlus(env: Environment, ns: seq<Node>, n: Node)
    requires FitNodes(env, ns) && FitNode(env, n)
    ensures FitNodes(env, ns + [n])
  {
  }

  lemma FitWithNode(env: Environment, h: Heap, storage: map<string, nat>, at: BlockRef, n: Node, added: seq<Cell>)
    requires ValidRef(h, at) && Fit(env, h, storage) && FitNode(env, n)
    requires |added| <= 1 && forall c <- added :: FitCell(env, storage, |h.cells|, c)
    ensures Fit(env, WithNode(h, at, n, added), storage)
  {
    hide WithNode, FitNode;
    var h' := WithNode(h, at, n, added);
    WithNodeShape(h, at, n, added);
    NewCell(h, at, n, added);
    forall i | |h.cells| <= i < |h'.cells| ensures FitCell(env, storage, i, h'.cells[i]) {
      assert h'.cells[|h.cells|..][i - |h.cells|] == h'.cells[i] == added[0] && added[0] in added;
    }
    if at == Root {
      FitPlus(env, h.root, n);
    } else {
      WithNodeCell(h, at, n, added);
      var k := LowOf(at) - 1;
      assert FitCell(env, storage, k, h.cells[k]);
      FitPlus(env, BlockOf(h, at), n);
    }
  }

  ghost predicate Keeps(env: Environment, p: Parser, r: StatementResult<Parser>) {
    r.Ok? ==> Fit(env, r.value.h, r.value.storage)
  }

  lemma FitEnter(env: Environment, p: Parser, node: Node, cell: Cell, inner: BlockRef, storage: map<string, nat>)
    requires ValidRef(p.h, p.current) && Fit(env, p.h, storage) && FitNode(env, node)
    requires FitCell(env, storage, |p.h.cells|, cell)
    ensures Fit(env, Enter(p, p.current, node, cell, inner).h, storage)
  {
    hide FitCell;
    EnterIsWithNode(p.h, p.current, node, cell);
    FitWithNode(env, p.h, storage, p.current, node, [cell]);
  }

  lemma FitLeaf(env: Environment, p: Parser, n: Node)
    requires ValidRef(p.h, p.current) && Fit(env, p.h, p.storage) && FitNode(env, n)
    ensures Fit(env, AddNode(p, n).h, p.storage)
  {
    hide Fit, FitNode;
    FitWithNode(env, p.h, p.storage, p.current, n, []);
    assert WithNode(p.h, p.current, n, []) == AddNode(p, n).h;
  }

  lemma FitMarked(env: Environment, h: Heap, storage: map<string, nat>, id: nat)
    requires ValidRef(h, FalseOf(id)) && Fit(env, h, storage)
    ensures Fit(env, Marked(h, id), storage)
  {
    assert FitCell(env, storage, id, h.cells[id]);
  }

  lemma ConditionFit(env: Environment, p: Parser, closing: Kind)
    requires O.Honest(env.expr) && Condition(env, p, closing).Ok?
    ensures FitExpr(env, Condition(env, p, closing).value.1)
  {
    hide X.ParseExpr, O.Honest, X.Printable;
    O.ParsedIsPrintable(env.expr, p.toks, p.lit);
  }

  // Every statement keeps the heap fit.
  lemma IfFit(env: Environment, p: Parser, closing: Kind, nested: bool)
    requires O.Honest(env.expr) && ValidRef(p.h, p.current) && Fit(env, p.h, p.storage)
    ensures Keeps(env, p, ParseIf(env, p, closing, nested))
  {
    hide Condition, Fit, FitExpr, Append, O.Honest;
    if Condition(env, p, closing).Ok? {
      ConditionFit(env, p, closing);
      var (q, cond) := Condition(env, p, closing).value;
      FitEnter(env, q, IfNode(|q.h.cells|), IfCell(cond, [], [], q.current, nested, false), TrueOf(|q.h.cells|), q.storage);
    }
  }

  lemma ElseFit(env: Environment, p: Parser, closing: Kind)
    requires O.Honest(env.expr) && Fit(env, p.h, p.storage)
    ensures Keeps(env, p, ParseElse(env, p, closing))
  {
    hide Fit, ParseIf, O.Honest;
    if HasIf(p) {
      FitMarked(env, p.h, p.storage, Last(p.ifs));
      MarkedBlocks(p.h, Last(p.ifs));
      if IsKeyword(First(p.toks), "if") { IfFit(env, Advance(T.EnterElse(p)), closing, true); }
    }
  }

  lemma ForInFit(env: Environment, p: Parser, closing: Kind, key: Option<string>, value: string)
    requires O.Honest(env.expr) && ValidRef(p.h, p.current) && Fit(env, p.h, p.storage)
    ensures Keeps(env, p, ParseForIn(env, p, closing, key, value))
  {
    hide Condition, Fit, FitExpr, Append, O.Honest;
    if Condition(env, Advance(p), closing).Ok? {
      ConditionFit(env, Advance(p), closing);
      var (q, cond) := Condition(env, Advance(p), closing).value;
      FitEnter(env, q, ForNode(|q.h.cells|), ForCell(key, value, cond, [], q.current), BodyOf(|q.h.cells|), q.storage);
    }
  }

  lemma ForFit(env: Environment, p: Parser, closing: Kind)
    requires O.Honest(env.expr) && ValidRef(p.h, p.current) && Fit(env, p.h, p.storage)
    ensures Keeps(env, p, ParseFor(env, p, closing))
  {
    hide ParseForIn, Fit, O.Honest;
    ForInFit(env, Advance(p), closing, None, First(p.toks).text);
    ForInFit(env, Advance(Advance(Advance(p))), closing, Some(First(p.toks).text), First(Tail(Tail(p.toks))).text);
  }

  lemma FitStorage(env: Environment, h: Heap, storage: map<string, nat>, name: string, id: nat)
    requires Fit(env, h, storage) && name !in storage
    ensures Fit(env, h, storage[name := id])
  {
    hide FitNodes, FitExpr;
    forall i | 0 <= i < |h.cells| ensures FitCell(env, storage[name := id], i, h.cells[i]) {
      assert FitCell(env, storage, i, h.cells[i]);
    }
  }

  lemma BlockFit(env: Environment, p: Parser)
    requires ValidRef(p.h, p.current) && Fit(env, p.h, p.storage)
    ensures Keeps(env, p, ParseBlock(p))
  {
    hide Fit, Append;
    var name, id := First(p.toks).text, |p.h.cells|;
    if name !in p.storage {
      FitStorage(env, p.h, p.storage, name, id);
      FitEnter(env, p, NamedBlockNode(id), NamedCell(name, [], p.current), NamedOf(id), p.storage[name := id]);
    }
  }

  lemma SetFit(env: Environment, p: Parser, closing: Kind)
    requires O.Honest(env.expr) && ValidRef(p.h, p.current) && Fit(env, p.h, p.storage)
    ensures Keeps(env, p, ParseSet(env, p, closing))
  {
    hide Condition, Fit, FitExpr, Append, O.Honest;
    var q := Advance(Advance(p));
    if Condition(env, q, closing).Ok? {
      ConditionFit(env, q, closing);
      var c := Condition(env, q, closing).value;
      FitLeaf(env, c.0, SetNode(First(p.toks).text, c.1));
    }
  }

  lemma FileFit(env: Environment, p: Parser, isExtends: bool)
    requires Settles(env) && ValidRef(p.h, p.current) && Fit(env, p.h, p.storage)
    ensures Keeps(env, p, ParseFileNode(env, p, isExtends))
  {
    hide Fit, Append;
    var f := ParseFile(env, p);
    if f.Ok? { FitLeaf(env, p, if isExtends then ExtendsNode(f.value) else IncludeNode(f.value)); }
  }

  lemma ClosingFit(env: Environment, p: Parser)
    requires Fit(env, p.h, p.storage)
    ensures Keeps(env, p, ParseEndif(p)) && Keeps(env, p, ParseEndfor(p)) && Keeps(env, p, ParseEndblock(p))
  {
    hide Fit, PopNested;
  }

  lemma StatementFit(env: Environment, p: Parser, closing: Kind)
    requires O.Honest(env.expr) && Settles(env) && ValidRef(p.h, p.current) && Fit(env, p.h, p.storage)
    ensures Keeps(env, p, ParseStatement(env, p, closing))
  {
    hide KeywordOf, ParseIf, ParseElse, ParseBlock, ParseFor, ParseSet, ParseFileNode, ParseEndif, ParseEndfor, ParseEndblock,
      Fit, O.Honest, Settles;
    var q := Advance(p);
    match KeywordOf(First(p.toks))
    case KwIf => IfFit(env, q, closing, false);
    case KwElse => ElseFit(env, q, closing);
    case KwBlock => BlockFit(env, q);
    case KwFor => ForFit(env, q, closing);
    case KwInclude => FileFit(env, q, false);
    case KwExtends => FileFit(env, q, true);
    case KwSet => SetFit(env, q, closing);
    case _ => ClosingFit(env, q);
  }

  lemma StepFit(env: Environment, p: Parser)
    requires O.Honest(env.expr) && Settles(env) && ValidRef(p.h, p.current) && Fit(env, p.h, p.storage) && p.toks != []
    ensures Keeps(env, p, Step(env, p))
  {
    hide ParseStatement, X.ParseExpr, Fit, O.Honest, Settles, Append, X.Printable;
    var q := Advance(p);
    match p.toks[0].kind
    case Text => FitLeaf(env, p, TextNode(p.toks[0].text));
    case StatementOpen => StatementFit(env, q, StatementClose);
    case LineStatementOpen => StatementFit(env, q, LineStatementClose);
    case ExpressionOpen =>
      O.ParsedIsPrintable(env.expr, q.toks, q.lit);
      var r := X.ParseExpr(env.expr, q.toks, q.lit);
      if r.Ok? { FitLeaf(env, p, ExpressionNode(r.value.node)); }
    case _ =>
  }

  lemma {:induction false} RunFit(env: Environment, p: Parser)
    requires O.Honest(env.expr) && Settles(env) && Invariant(p) && Fit(env, p.h, p.storage)
    ensures Keeps(env, p, ParseInto(env, p))
    decreases |p.toks|
  {
    hide Step, Fit, O.Honest, Settles;
    if p.toks != [] && Step(env, p).Ok? {
      StepFit(env, p);
      StepKeepsInvariant(env, p);
      RunFit(env, Step(env, p).value);
    }
  }

  // ---------------------------------------------------------------- trees of a fit heap

  lemma {:induction false} FitStmts(env: Environment, h: Heap, storage: map<string, nat>, ns: seq<Node>, ss: seq<T.Stmt>)
    requires Fit(env, h, storage) && FitNodes(env, ns) && T.Represents(h, ns, ss, 0, |h.cells|)
    ensures T.WellFormed(env, ss)
    decreases ss, 0
  {
    hide Fit, T.IsTree, T.WellFormedStmt, FitNode;
    if ss != [] {
      assert ns[0] in ns;
      FitStmt(env, h, storage, ns[0], ss[0]);
      FitStmts(env, h, storage, ns[1..], ss[1..]);
    }
  }

  lemma {:induction false} FitStmt(env: Environment, h: Heap, storage: map<string, nat>, n: Node, s: T.Stmt)
    requires Fit(env, h, storage) && FitNode(env, n) && T.IsTree(h, n, s, 0, |h.cells|)
    ensures T.WellFormedStmt(env, s)
    decreases s, 1
  {
    hide T.Represents, T.IsElse, T.WellFormed, T.WellFormedElse, FitNodes;
    if !IsLeaf(n) {
      var c := h.cells[n.id];
      assert FitCell(env, storage, n.id, c);
      match s
      case If(_, thn, els) =>
        FitStmts(env, h, storage, c.trueStatement, thn);
        FitElse(env, h, storage, n.id, els);
      case For(_, _, _, body) => FitStmts(env, h, storage, c.body, body);
      case Block(_, inner) => FitStmts(env, h, storage, c.block, inner);
    }
  }

  lemma {:induction false} FitElse(env: Environment, h: Heap, storage: map<string, nat>, i: nat, els: T.Else)
    requires Fit(env, h, storage) && i < |h.cells| && h.cells[i].IfCell? && T.IsElse(h, h.cells[i], els, 0, |h.cells|)
    ensures T.WellFormedElse(env, els)
    decreases els, 0
  {
    hide T.Represents, T.WellFormed, FitNodes;
    assert FitCell(env, storage, i, h.cells[i]);
    match els
    case NoElse =>
    case ElseBlock(ss) => FitStmts(env, h, storage, h.cells[i].falseStatement, ss);
    case ElseIf(_, thn, more) =>
      var id := h.cells[i].falseStatement[0].id;
      assert FitCell(env, storage, id, h.cells[id]);
      FitStmts(env, h, storage, h.cells[id].trueStatement, thn);
      FitElse(env, h, storage, id, more);
  }

  // ---------------------------------------------------------------- no node stands twice

  // A cell and the cells around it.
  function Up(h: Heap, i: nat): set<nat> {
    {i} +
    if i < |h.cells| && 0 < LowOf(h.cells[i].parent) <= i then Up(h, LowOf(h.cells[i].parent) - 1) else {}
  }

  lemma {:induction false} UpBelow(h: Heap, i: nat, k: nat)
    requires k in Up(h, i)
    ensures k <= i
    decreases i
  {
    if k != i { UpBelow(h, LowOf(h.cells[i].parent) - 1, k); }
  }

  // Of two cells around a third, one is around the other.
  lemma {:induction false} UpStep(h: Heap, i: nat, k: nat, k': nat)
    requires k in Up(h, i) && k' in Up(h, i) && k' < k
    ensures k < |h.cells| && 0 < LowOf(h.cells[k].parent) <= k && k' in Up(h, LowOf(h.cells[k].parent) - 1)
    decreases i
  {
    if k != i {
      UpBelow(h, i, k);
      UpStep(h, LowOf(h.cells[i].parent) - 1, k, k');
    }
  }

  // At most one child of a cell, and at most one cell at the root, is around a third.
  lemma OneChild(h: Heap, i: nat, k: nat, k': nat)
    requires Woven(h) && k in Up(h, i) && k' in Up(h, i) && k < |h.cells| && k' < |h.cells|
    requires LowOf(h.cells[k].parent) == LowOf(h.cells[k'].parent)
    ensures k == k'
  {
    WovenHung(h, k);
    WovenHung(h, k');
    if k' < k {
      UpStep(h, i, k, k');
      UpBelow(h, LowOf(h.cells[k].parent) - 1, k');
    } else if k < k' {
      UpStep(h, i, k', k);
      UpBelow(h, LowOf(h.cells[k'].parent) - 1, k);
    }
  }

  // What is around a child of a cell is around that cell's child, and the cell is too.
  lemma {:induction false} UpOwner(h: Heap, i: nat, c: nat)
    requires Woven(h) && c in Up(h, i) && c < |h.cells| && LowOf(h.cells[c].parent) > 0
    ensures LowOf(h.cells[c].parent) - 1 in Up(h, i)
    decreases i
  {
    WovenHung(h, c);
    if c != i { UpOwner(h, LowOf(h.cells[i].parent) - 1, c); }
  }

  // The nodes of a block are of different cells.
  ghost predicate Differ(ns: seq<Node>) {
    forall a, b :: 0 <= a < b < |ns| && !IsLeaf(ns[a]) && !IsLeaf(ns[b]) ==> ns[a].id != ns[b].id
  }

  lemma {:induction false} NodesAscend(tags: seq<Tag>, r: BlockRef)
    ensures var ids := Nodes(tags, r);
            (forall a :: 0 <= a < |ids| && ids[a].Some? ==> ids[a].value < Cells(tags)) &&
            forall a, b :: 0 <= a < b < |ids| && ids[a].Some? && ids[b].Some? ==> ids[a].value != ids[b].value
    decreases |tags|
  {
    hide Target, Where;
    if tags != [] {
      var front := Front(tags);
      NodesAscend(front, r);
      assert Nodes(tags, r) == Nodes(front, r) ||
             Nodes(tags, r) == Nodes(front, r) + [if AddsCell(Last(tags)) then Some(Cells(front)) else None];
    }
  }

  lemma BlocksDiffer(p: Parser, tags: seq<Tag>, r: BlockRef)
    requires Follows(p, tags) && ValidRef(p.h, r)
    ensures Differ(BlockOf(p.h, r))
  {
    hide Woven, Shaped, Elsed, Stacked, Invariant, BlockOf;
    NodesAscend(tags, r);
    var ns := BlockOf(p.h, r);
    assert Skeleton(ns) == Nodes(tags, r);
    forall a, b | 0 <= a < b < |ns| && !IsLeaf(ns[a]) && !IsLeaf(ns[b]) ensures ns[a].id != ns[b].id {
      assert Skeleton(ns)[a] == Some(ns[a].id) && Skeleton(ns)[b] == Some(ns[b].id);
    }
  }

  ghost predicate Simple(h: Heap) {
    Woven(h) && forall r :: ValidRef(h, r) ==> Differ(BlockOf(h, r))
  }

  // ---------------------------------------------------------------- the names of a tree

  // Different named cells, with these names.
  ghost predicate Lists(h: Heap, ids: seq<nat>, names: seq<string>) {
    |ids| == |names| &&
    (forall k :: 0 <= k < |ids| ==> ids[k] < |h.cells| && h.cells[ids[k]].NamedCell? && h.cells[ids[k]].name == names[k]) &&
    forall a, b :: 0 <= a < b < |ids| ==> ids[a] != ids[b]
  }

  // Each of them below one of the nodes.
  ghost predicate Below(h: Heap, ids: seq<nat>, ns: seq<Node>) {
    forall id <- ids :: exists n :: n in ns && !IsLeaf(n) && n.id in Up(h, id)
  }

  // Nodes of one block of the heap.
  ghost predicate Siblings(h: Heap, ns: seq<Node>, low: nat) {
    Differ(ns) && forall n <- ns :: !IsLeaf(n) ==> n.id < |h.cells| && LowOf(h.cells[n.id].parent) == low
  }

  lemma BlockSiblings(h: Heap, r: BlockRef)
    requires Simple(h) && ValidRef(h, r)
    ensures Siblings(h, BlockOf(h, r), LowOf(r))
  {
    forall n | n in BlockOf(h, r) && !IsLeaf(n) ensures n.id < |h.cells| && LowOf(h.cells[n.id].parent) == LowOf(r) {
      WovenBelongs(h, r, n);
    }
  }

  lemma ListsJoin(h: Heap, a: seq<nat>, x: seq<string>, b: seq<nat>, y: seq<string>)
    requires Lists(h, a, x) && Lists(h, b, y) && forall id <- a :: id !in b
    ensures Lists(h, a + b, x + y)
  {
    var ids := a + b;
    forall i, j | 0 <= i < j < |ids| ensures ids[i] != ids[j] {
      if i < |a| <= j { assert ids[i] == a[i] && a[i] in a && ids[j] == b[j - |a|] && b[j - |a|] in b; }
    }
  }

  lemma {:induction false} StmtsIds(h: Heap, ns: seq<Node>, ss: seq<T.Stmt>, low: nat) returns (ids: seq<nat>)
    requires Simple(h) && Siblings(h, ns, low) && T.Represents(h, ns, ss, 0, |h.cells|)
    ensures Lists(h, ids, T.Names(ss)) && Below(h, ids, ns)
    decreases ss, 0
  {
    hide Simple, T.IsTree, T.NamesOf;
    ids := [];
    if ss != [] {
      var n, rest := ns[0], ns[1..];
      assert n in ns;
      var first := StmtIds(h, n, ss[0]);
      var more := StmtsIds(h, rest, ss[1..], low);
      forall id | id in first ensures id !in more {
        if id in more {
          var m :| m in rest && !IsLeaf(m) && m.id in Up(h, id);
          SimpleWoven(h);
          OneChild(h, id, n.id, m.id);
          assert false;
        }
      }
      ListsJoin(h, first, T.NamesOf(ss[0]), more, T.Names(ss[1..]));
      ids := first + more;
    }
  }

  lemma SimpleWoven(h: Heap)
    requires Simple(h)
    ensures Woven(h)
  {
  }

  lemma {:induction false} StmtIds(h: Heap, n: Node, s: T.Stmt) returns (ids: seq<nat>)
    requires Simple(h) && T.IsTree(h, n, s, 0, |h.cells|)
    ensures Lists(h, ids, T.NamesOf(s)) && (ids != [] ==> !IsLeaf(n)) && forall id <- ids :: n.id in Up(h, id)
    decreases s, 1
  {
    hide Simple, T.Represents, T.IsElse, T.Names, T.ElseNames, Lists;
    match s
    case If(_, thn, els) =>
      var a := BlockIds(h, TrueOf(n.id), thn);
      var b := ElseIds(h, n.id, els);
      BranchesDiffer(h, n.id, a, b);
      ListsJoin(h, a, T.Names(thn), b, T.ElseNames(els));
      ids := a + b;
    case For(_, _, _, body) => ids := BlockIds(h, BodyOf(n.id), body);
    case Block(name, inner) =>
      var a := BlockIds(h, NamedOf(n.id), inner);
      Alone(h, n.id);
      InnerDiffers(h, n.id, a);
      ListsJoin(h, [n.id], [name], a, T.Names(inner));
      ids := [n.id] + a;
    case _ =>
      ids := [];
      NoNames(h);
  }

  lemma NoNames(h: Heap)
    ensures Lists(h, [], [])
  {
  }

  lemma Alone(h: Heap, i: nat)
    requires i < |h.cells| && h.cells[i].NamedCell?
    ensures Lists(h, [i], [h.cells[i].name])
  {
  }

  // The blocks in a branch: below a cell whose parent it is.
  ghost predicate In(h: Heap, ids: seq<nat>, r: BlockRef) {
    forall id <- ids :: exists c: nat :: c < |h.cells| && h.cells[c].parent == r && c in Up(h, id)
  }

  lemma {:induction false} BlockIds(h: Heap, r: BlockRef, ss: seq<T.Stmt>) returns (ids: seq<nat>)
    requires Simple(h) && ValidRef(h, r) && r != Root && T.Represents(h, BlockOf(h, r), ss, 0, |h.cells|)
    ensures Lists(h, ids, T.Names(ss)) && In(h, ids, r) && forall id <- ids :: LowOf(r) - 1 in Up(h, id)
    decreases ss, 1
  {
    hide Simple, T.Represents, T.Names, BlockOf, Lists, Siblings;
    BlockSiblings(h, r);
    SimpleWoven(h);
    ids := StmtsIds(h, BlockOf(h, r), ss, LowOf(r));
    forall id | id in ids
      ensures LowOf(r) - 1 in Up(h, id) && exists c: nat :: c < |h.cells| && h.cells[c].parent == r && c in Up(h, id)
    {
      var n :| n in BlockOf(h, r) && !IsLeaf(n) && n.id in Up(h, id);
      WovenBelongs(h, r, n);
      UpOwner(h, id, n.id);
    }
  }

  lemma {:induction false} ElseIds(h: Heap, i: nat, els: T.Else) returns (ids: seq<nat>)
    requires Simple(h) && i < |h.cells| && h.cells[i].IfCell? && T.IsElse(h, h.cells[i], els, 0, |h.cells|)
    ensures Lists(h, ids, T.ElseNames(els)) && In(h, ids, FalseOf(i)) && forall id <- ids :: i in Up(h, id)
    decreases els, 0
  {
    hide Simple, T.Represents, T.Names, Lists;
    ids := [];
    match els
    case NoElse => NoNames(h);
    case ElseBlock(ss) => ids := BlockIds(h, FalseOf(i), ss);
    case ElseIf(_, thn, more) =>
      var n := h.cells[i].falseStatement[0];
      var a := BlockIds(h, TrueOf(n.id), thn);
      var b := ElseIds(h, n.id, more);
      BranchesDiffer(h, n.id, a, b);
      ListsJoin(h, a, T.Names(thn), b, T.ElseNames(more));
      ids := a + b;
      ChainedIn(h, i, n, ids);
  }

  // What is below the chained if of an else is in the false branch.
  lemma ChainedIn(h: Heap, i: nat, n: Node, ids: seq<nat>)
    requires Simple(h) && ValidRef(h, FalseOf(i)) && n in h.cells[i].falseStatement && n.IfNode? && forall id <- ids :: n.id in Up(h, id)
    ensures In(h, ids, FalseOf(i)) && forall id <- ids :: i in Up(h, id)
  {
    WovenBelongs(h, FalseOf(i), n);
    forall id | id in ids ensures i in Up(h, id) && exists c: nat :: c < |h.cells| && h.cells[c].parent == FalseOf(i) && c in Up(h, id) {
      UpOwner(h, id, n.id);
    }
  }

  // Nothing is in both branches of an if.
  lemma BranchesDiffer(h: Heap, i: nat, a: seq<nat>, b: seq<nat>)
    requires Simple(h) && In(h, a, TrueOf(i)) && In(h, b, FalseOf(i))
    ensures forall id <- a :: id !in b
  {
    forall id | id in a ensures id !in b {
      if id in b {
        var c: nat :| c < |h.cells| && h.cells[c].parent == TrueOf(i) && c in Up(h, id);
        var c': nat :| c' < |h.cells| && h.cells[c'].parent == FalseOf(i) && c' in Up(h, id);
        OneChild(h, id, c, c');
        assert false;
      }
    }
  }

  // A block is not inside itself.
  lemma InnerDiffers(h: Heap, i: nat, ids: seq<nat>)
    requires Simple(h) && In(h, ids, NamedOf(i))
    ensures i !in ids
  {
    if i in ids {
      var c: nat :| c < |h.cells| && h.cells[c].parent == NamedOf(i) && c in Up(h, i);
      WovenHung(h, c);
      UpBelow(h, i, c);
      assert false;
    }
  }

  lemma NamesDiffer(env: Environment, h: Heap, storage: map<string, nat>, ids: seq<nat>, names: seq<string>)
    requires Fit(env, h, storage) && Lists(h, ids, names)
    ensures T.Distinct(names)
  {
    hide FitNodes;
    forall i, j | 0 <= i < j < |names| ensures names[i] != names[j] {
      assert FitCell(env, storage, ids[i], h.cells[ids[i]]) && FitCell(env, storage, ids[j], h.cells[ids[j]]);
    }
  }

  // ---------------------------------------------------------------- the theorem

  // The tree of an accepted template, if there is one, is well formed, with distinct block names: with a JSON reader that
  // takes only JSON texts and files that are stored under their own names.
  lemma TreeIsWellFormed(env: Environment, toks: seq<Token>, lit: seq<Token>, ss: seq<T.Stmt>)
    requires IsInput(toks) && ParseInto(env, Start(toks, lit)).Ok? && O.Honest(env.expr) && Settles(env)
    requires var h := ParseInto(env, Start(toks, lit)).value.h; T.Represents(h, h.root, ss, 0, |h.cells|)
    ensures T.WellFormed(env, ss) && T.Distinct(T.Names(ss))
  {
    hide ParseInto, T.Represents, Follows, O.Honest, Settles, Lists, Fit, Siblings;
    var p, q := Start(toks, lit), ParseInto(env, Start(toks, lit)).value;
    EndsExactly(env, toks, lit);
    StartFit(env, toks, lit);
    RunFit(env, p);
    FitRoot(env, q.h, q.storage);
    FitStmts(env, q.h, q.storage, q.h.root, ss);
    assert Simple(q.h) by { FollowsSimple(q, Tags(toks)); }
    BlockSiblings(q.h, Root);
    var ids := StmtsIds(q.h, q.h.root, ss, 0);
    NamesDiffer(env, q.h, q.storage, ids, T.Names(ss));
  }

  lemma StartFit(env: Environment, toks: seq<Token>, lit: seq<Token>)
    ensures Fit(env, Start(toks, lit).h, Start(toks, lit).storage) && Invariant(Start(toks, lit))
  {
  }

  lemma FitRoot(env: Environment, h: Heap, storage: map<string, nat>)
    requires Fit(env, h, storage)
    ensures FitNodes(env, h.root)
  {
  }

  lemma FollowsSimple(p: Parser, tags: seq<Tag>)
    requires Follows(p, tags)
    ensures Simple(p.h)
  {
    hide Follows, Woven, Differ;
    FollowsWoven(p, tags);
    forall r | ValidRef(p.h, r) ensures Differ(BlockOf(p.h, r)) { BlocksDiffer(p, tags, r); }
  }

  // So its print is parsed to that tree again and to no other: the print is the normal form of the template.
  lemma NormalForm(env: Environment, toks: seq<Token>, lit: seq<Token>, ss: seq<T.Stmt>, lit': seq<Token>)
    requires IsInput(toks) && ParseInto(env, Start(toks, lit)).Ok? && O.Honest(env.expr) && Settles(env)
    requires var h := ParseInto(env, Start(toks, lit)).value.h; T.Represents(h, h.root, ss, 0, |h.cells|)
    ensures var r := ParseInto(env, Start(T.PrintStmts(ss), lit'));
            r.Ok? && r.value.current == Root && r.value.ifs == r.value.fors == r.value.blocks == [] &&
            forall tt :: T.Represents(r.value.h, r.value.h.root, tt, 0, |r.value.h.cells|) <==> tt == ss
  {
    hide ParseInto, T.Represents, O.Honest, Settles, T.WellFormed, T.Distinct;
    TreeIsWellFormed(env, toks, lit, ss);
    T.RoundTrip(env, ss, lit');
  }

  // ---------------------------------------------------------------- why files have to settle

  lemma IncludeRead(env: Environment, file: string, lit: seq<Token>)
    ensures ParseInto(env, Start(T.FileTag("include", file), lit)) ==
            match env.load(file)
            case None => Err(FileFailed)
            case Some(name) => Ok(Start([], lit).(h := Heap([IncludeNode(name)], [])))
  {
    var p := Start(T.FileTag("include", file), lit);
    var quoted := Token(String, "\"" + file + "\"");
    assert quoted.text[1..|quoted.text| - 1] == file;
    var body := [T.Word("include"), quoted];
    var start := p.(toks := body + [T.CLOSE] + []);
    assert start.toks[1..] == [quoted, T.CLOSE] && start.toks[1..][1..] == [T.CLOSE];
    if env.load(file).None? {
      assert ParseStatement(env, start, StatementClose) == Err(FileFailed);
      assert p.toks[1..] == start.toks && Step(env, p) == Err(FileFailed);
    } else {
      var q := AddNode(p, IncludeNode(env.load(file).value)).(toks := [T.CLOSE] + []);
      assert [T.CLOSE] + [] == [T.CLOSE];
      assert ParseStatement(env, start, StatementClose) == Ok(q);
      assert p.toks == T.Tag(body) + [];
      T.TagStep(env, p, body, [], q);
      assert [] + [IncludeNode(env.load(file).value)] == [IncludeNode(env.load(file).value)];
      Ends(env, q.(toks := []));
    }
  }

  lemma Ends(env: Environment, p: Parser)
    requires p.toks == [] && p.ifs == p.fors == []
    ensures ParseInto(env, p) == Ok(p)
  {
  }

  // A template that includes one file comes back from its print exactly if that file is stored under its own name.
  lemma IncludeComesBackExactly(env: Environment, file: string, lit: seq<Token>, lit': seq<Token>)
    requires env.load(file).Some?
    ensures var tree := [T.Include(env.load(file).value)];
            var (r, again) := (ParseInto(env, Start(T.FileTag("include", file), lit)), ParseInto(env, Start(T.PrintStmts(tree), lit')));
            r.Ok? && T.Represents(r.value.h, r.value.h.root, tree, 0, 0) && r.value.h.cells == [] &&
            (again.Ok? && T.Represents(again.value.h, again.value.h.root, tree, 0, |again.value.h.cells|) <==>
             env.load(env.load(file).value) == env.load(file))
  {
    hide ParseInto;
    var name := env.load(file).value;
    var tree := [T.Include(name)];
    IncludeRead(env, file, lit);
    IncludeRead(env, name, lit');
    assert tree[1..] == [] && T.PrintStmts(tree) == T.FileTag("include", name) + [];
    assert T.FileTag("include", name) + [] == T.FileTag("include", name);
    OneInclude(name, name);
    if env.load(name).Some? { OneInclude(name, env.load(name).value); }
  }

  lemma OneInclude(name: string, stored: string)
    ensures var h := Heap([IncludeNode(stored)], []); T.Represents(h, h.root, [T.Include(name)], 0, 0) <==> stored == name
  {
    var h, tree := Heap([IncludeNode(stored)], []), [T.Include(name)];
    assert tree[1..] == [] && h.root[1..] == [];
    assert T.Represents(h, [], [], 0, 0);
  }
}
