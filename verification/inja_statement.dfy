// The statement parser of the template engine: it walks `current_block` and three stacks of pointers
// over the nodes it has allocated. Nodes live in a heap of cells and pointers are cell numbers, so that
// two pointers to one node see each other's changes, as in the program.
module InjaStatement {
  import opened Wrappers
  import opened InjaSyntax
  import X = InjaExpression

  // A pointer to a block: the template's root, or a block embedded in a statement node.
  datatype BlockRef = Root | TrueOf(id: nat) | FalseOf(id: nat) | BodyOf(id: nat) | NamedOf(id: nat)

  datatype Node =
    | TextNode(text: string)
    | ExpressionNode(root: Option<Expr>)
    | IfNode(id: nat)
    | ForNode(id: nat)
    | NamedBlockNode(id: nat)
    | SetNode(key: string, expression: Option<Expr>)
    | IncludeNode(file: string)
    | ExtendsNode(file: string)

  datatype Cell =
    | IfCell(condition: Option<Expr>, trueStatement: seq<Node>, falseStatement: seq<Node>,
             parent: BlockRef, isNested: bool, hasFalse: bool)
    | ForCell(key: Option<string>, value: string, condition: Option<Expr>, body: seq<Node>, parent: BlockRef)
    | NamedCell(name: string, block: seq<Node>, parent: BlockRef)

  datatype Heap = Heap(root: seq<Node>, cells: seq<Cell>)

  predicate ValidRef(h: Heap, r: BlockRef) {
    match r
    case Root => true
    case TrueOf(i) => i < |h.cells| && h.cells[i].IfCell?
    case FalseOf(i) => i < |h.cells| && h.cells[i].IfCell?
    case BodyOf(i) => i < |h.cells| && h.cells[i].ForCell?
    case NamedOf(i) => i < |h.cells| && h.cells[i].NamedCell?
  }

  // Appends nodes to the block a pointer denotes.
  function Append(h: Heap, r: BlockRef, ns: seq<Node>): (h': Heap)
    ensures |h'.cells| == |h.cells|
  {
    if !ValidRef(h, r) then h
    else match r
      case Root => h.(root := h.root + ns)
      case TrueOf(i) => h.(cells := h.cells[i := h.cells[i].(trueStatement := h.cells[i].trueStatement + ns)])
      case FalseOf(i) => h.(cells := h.cells[i := h.cells[i].(falseStatement := h.cells[i].falseStatement + ns)])
      case BodyOf(i) => h.(cells := h.cells[i := h.cells[i].(body := h.cells[i].body + ns)])
      case NamedOf(i) => h.(cells := h.cells[i := h.cells[i].(block := h.cells[i].block + ns)])
  }

  datatype StatementError =
    | InExpression(error: X.ParseError) | ExpectedStatement | ExpectedStatementClose | ExpectedLineStatementClose
    | ExpectedExpressionClose | ExpectedCommentClose | UnexpectedToken | ElseWithoutIf | EndifWithoutIf
    | EndblockWithoutBlock | EndforWithoutFor | ExpectedBlockName | DuplicateBlock | ExpectedId | ExpectedIn
    | ExpectedVariable | ExpectedAssignment | ExpectedFilename | FileFailed | UnmatchedIf | UnmatchedFor
    | Undefined  // a stack is read while empty, or a pointer does not denote a node of its type

  type StatementResult<+T> = Result<T, StatementError>

  // Besides the expression oracles, `load` says under which name an included template is stored, if it is.
  datatype Environment = Environment(expr: Config, load: string -> Option<string>)

  datatype Parser = Parser(
    toks: seq<Token>, lit: seq<Token>, h: Heap, current: BlockRef,
    ifs: seq<nat>, fors: seq<nat>, blocks: seq<nat>, storage: map<string, nat>)

  function Advance(p: Parser): Parser {
    p.(toks := Tail(p.toks))
  }

  predicate IsKeyword(t: Token, word: string) {
    t.kind.Id? && t.text == word
  }

  // parse_expression(tmpl, closing): the expression, if it is followed by the closing token.
  function Condition(env: Environment, p: Parser, closing: Kind): (r: StatementResult<(Parser, Option<Expr>)>)
    ensures r.Ok? ==> |r.value.0.toks| <= |p.toks| && r.value.0 == p.(toks := r.value.0.toks, lit := r.value.0.lit)
  {
    var r := X.ParseExpr(env.expr, p.toks, p.lit);
    if r.Err? then Err(InExpression(r.error))
    else if First(r.value.rest).kind != closing then Err(ExpectedStatement)
    else Ok((p.(toks := r.value.rest, lit := r.value.lit), r.value.node))
  }

  // Allocates a statement node, links it into `at`, and enters the given block of it.
  function Enter(p: Parser, at: BlockRef, node: Node, cell: Cell, inner: BlockRef): Parser {
    p.(h := Heap(Append(p.h, at, [node]).root, Append(p.h, at, [node]).cells + [cell]), current := inner)
  }

  function ParseIf(env: Environment, p: Parser, closing: Kind, nested: bool): (r: StatementResult<Parser>)
    ensures r.Ok? ==> |r.value.toks| <= |p.toks|
  {
    var c := Condition(env, p, closing);
    if c.Err? then Err(c.error)
    else
      var (q, cond) := c.value;
      var id := |q.h.cells|;
      var q' := Enter(q, q.current, IfNode(id), IfCell(cond, [], [], q.current, nested, false), TrueOf(id));
      Ok(q'.(ifs := q.ifs + [id]))
  }

  function ParseElse(env: Environment, p: Parser, closing: Kind): (r: StatementResult<Parser>)
    ensures r.Ok? ==> |r.value.toks| <= |p.toks|
  {
    if p.ifs == [] then Err(ElseWithoutIf)
    else
      var id := p.ifs[|p.ifs| - 1];
      if !ValidRef(p.h, FalseOf(id)) then Err(Undefined)
      else
        var q := p.(h := p.h.(cells := p.h.cells[id := p.h.cells[id].(hasFalse := true)]), current := FalseOf(id));
        if IsKeyword(First(p.toks), "if") then ParseIf(env, Advance(q), closing, true) else Ok(q)
  }

  // Drops the nested nodes of an else-if chain from the top of the stack.
  function PopNested(h: Heap, ifs: seq<nat>): StatementResult<seq<nat>> {
    if ifs == [] then Err(Undefined)
    else
      var id := ifs[|ifs| - 1];
      if !ValidRef(h, TrueOf(id)) then Err(Undefined)
      else if h.cells[id].isNested then PopNested(h, ifs[..|ifs| - 1])
      else Ok(ifs)
  }

  function ParseEndif(p: Parser): (r: StatementResult<Parser>)
    ensures r.Ok? ==> r.value.toks == p.toks
  {
    if p.ifs == [] then Err(EndifWithoutIf)
    else
      var s := PopNested(p.h, p.ifs);
      if s.Err? then Err(s.error)
      else if s.value == [] || !ValidRef(p.h, TrueOf(s.value[|s.value| - 1])) then Err(Undefined)
      else Ok(p.(current := p.h.cells[s.value[|s.value| - 1]].parent, ifs := s.value[..|s.value| - 1]))
  }

  function ParseBlock(p: Parser): (r: StatementResult<Parser>)
    ensures r.Ok? ==> |r.value.toks| <= |p.toks|
  {
    if !First(p.toks).kind.Id? then Err(ExpectedBlockName)
    else
      var name := First(p.toks).text;
      var id := |p.h.cells|;
      if name in p.storage then Err(DuplicateBlock)
      else
        var q := Enter(p, p.current, NamedBlockNode(id), NamedCell(name, [], p.current), NamedOf(id));
        Ok(Advance(q.(blocks := p.blocks + [id], storage := p.storage[name := id])))
  }

  function ParseEndblock(p: Parser): (r: StatementResult<Parser>)
    ensures r.Ok? ==> r.value.toks == p.toks
  {
    if p.blocks == [] then Err(EndblockWithoutBlock)
    else
      var id := p.blocks[|p.blocks| - 1];
      if !ValidRef(p.h, NamedOf(id)) then Err(Undefined)
      else Ok(p.(current := p.h.cells[id].parent, blocks := p.blocks[..|p.blocks| - 1]))
  }

  function ParseFor(env: Environment, p: Parser, closing: Kind): (r: StatementResult<Parser>)
    ensures r.Ok? ==> |r.value.toks| <= |p.toks|
  {
    if !First(p.toks).kind.Id? then Err(ExpectedId)
    else if First(Tail(p.toks)).kind.Comma? then
      if !First(Tail(Tail(p.toks))).kind.Id? then Err(ExpectedId)
      else ParseForIn(env, Advance(Advance(Advance(p))), closing, Some(First(p.toks).text), First(Tail(Tail(p.toks))).text)
    else ParseForIn(env, Advance(p), closing, None, First(p.toks).text)
  }

  function ParseForIn(env: Environment, p: Parser, closing: Kind, key: Option<string>, value: string): (r: StatementResult<Parser>)
    ensures r.Ok? ==> |r.value.toks| <= |p.toks|
  {
    if !IsKeyword(First(p.toks), "in") then Err(ExpectedIn)
    else
      var c := Condition(env, Advance(p), closing);
      if c.Err? then Err(c.error)
      else
        var (q, cond) := c.value;
        var id := |q.h.cells|;
        var q' := Enter(q, q.current, ForNode(id), ForCell(key, value, cond, [], q.current), BodyOf(id));
        Ok(q'.(fors := q.fors + [id]))
  }

  function ParseEndfor(p: Parser): (r: StatementResult<Parser>)
    ensures r.Ok? ==> r.value.toks == p.toks
  {
    if p.fors == [] then Err(EndforWithoutFor)
    else
      var id := p.fors[|p.fors| - 1];
      if !ValidRef(p.h, BodyOf(id)) then Err(Undefined)
      else Ok(p.(current := p.h.cells[id].parent, fors := p.fors[..|p.fors| - 1]))
  }

  function AddNode(p: Parser, n: Node): Parser {
    p.(h := Append(p.h, p.current, [n]))
  }

  function ParseSet(env: Environment, p: Parser, closing: Kind): (r: StatementResult<Parser>)
    ensures r.Ok? ==> |r.value.toks| <= |p.toks|
  {
    if !First(p.toks).kind.Id? then Err(ExpectedVariable)
    else if First(Tail(p.toks)).text != "=" then Err(ExpectedAssignment)
    else
      var c := Condition(env, Advance(Advance(p)), closing);
      if c.Err? then Err(c.error) else Ok(AddNode(c.value.0, SetNode(First(p.toks).text, c.value.1)))
  }

  // The name of an included template: a string token without its quotes.
  function ParseFile(env: Environment, p: Parser): StatementResult<string> {
    var t := First(p.toks);
    if !t.kind.String? || |t.text| < 2 then Err(ExpectedFilename)
    else
      var name := env.load(t.text[1..|t.text| - 1]);
      if name.None? then Err(FileFailed) else Ok(name.value)
  }

  datatype Keyword = KwIf | KwElse | KwEndif | KwBlock | KwEndblock | KwFor | KwEndfor | KwInclude | KwExtends | KwSet | KwNone

  function KeywordOf(t: Token): Keyword {
    if !t.kind.Id? then KwNone
    else if t.text == "if" then KwIf
    else if t.text == "else" then KwElse
    else if t.text == "endif" then KwEndif
    else if t.text == "block" then KwBlock
    else if t.text == "endblock" then KwEndblock
    else if t.text == "for" then KwFor
    else if t.text == "endfor" then KwEndfor
    else if t.text == "include" then KwInclude
    else if t.text == "extends" then KwExtends
    else if t.text == "set" then KwSet
    else KwNone
  }

  // The node of an include or extends statement; the file name is the current token.
  function ParseFileNode(env: Environment, p: Parser, isExtends: bool): (r: StatementResult<Parser>)
    ensures r.Ok? ==> |r.value.toks| <= |p.toks|
  {
    var f := ParseFile(env, p);
    if f.Err? then Err(f.error)
    else Ok(Advance(AddNode(p, if isExtends then ExtendsNode(f.value) else IncludeNode(f.value))))
  }

  // The current token is the first one of a statement.
  function ParseStatement(env: Environment, p: Parser, closing: Kind): (r: StatementResult<Parser>)
    ensures r.Ok? ==> |r.value.toks| < |p.toks|
  {
    var q := Advance(p);
    match KeywordOf(First(p.toks))
    case KwIf => ParseIf(env, q, closing, false)
    case KwElse => ParseElse(env, q, closing)
    case KwEndif => ParseEndif(q)
    case KwBlock => ParseBlock(q)
    case KwEndblock => ParseEndblock(q)
    case KwFor => ParseFor(env, q, closing)
    case KwEndfor => ParseEndfor(q)
    case KwInclude => ParseFileNode(env, q, false)
    case KwExtends => ParseFileNode(env, q, true)
    case KwSet => ParseSet(env, q, closing)
    case KwNone => Err(ExpectedStatement)
  }

  // One iteration of parse_into on a token other than Eof.
  function Step(env: Environment, p: Parser): (r: StatementResult<Parser>)
    requires p.toks != []
    ensures r.Ok? ==> |r.value.toks| < |p.toks|
  {
    var q := Advance(p);
    match p.toks[0].kind
    case Text => Ok(AddNode(q, TextNode(p.toks[0].text)))
    case StatementOpen =>
      var r := ParseStatement(env, q, StatementClose);
      if r.Err? then r
      else if !First(r.value.toks).kind.StatementClose? then Err(ExpectedStatementClose)
      else Ok(Advance(r.value))
    case LineStatementOpen =>
      var r := ParseStatement(env, q, LineStatementClose);
      if r.Err? then r
      else if !First(r.value.toks).kind.LineStatementClose? && !First(r.value.toks).kind.Eof? then
        Err(ExpectedLineStatementClose)
      else Ok(Advance(r.value))
    case ExpressionOpen =>
      var r := X.ParseExpr(env.expr, q.toks, q.lit);
      if r.Err? then Err(InExpression(r.error))
      else if !First(r.value.rest).kind.ExpressionClose? then Err(ExpectedExpressionClose)
      else Ok(AddNode(Advance(q.(toks := r.value.rest, lit := r.value.lit)), ExpressionNode(r.value.node)))
    case CommentOpen =>
      if !First(q.toks).kind.CommentClose? then Err(ExpectedCommentClose) else Ok(Advance(q))
    case _ => Err(UnexpectedToken)
  }

  function ParseInto(env: Environment, p: Parser): (r: StatementResult<Parser>)
    decreases |p.toks|
  {
    if First(p.toks).kind.Eof? then
      if p.ifs != [] then Err(UnmatchedIf) else if p.fors != [] then Err(UnmatchedFor) else Ok(p)
    else
      var r := Step(env, p);
      if r.Err? then r else ParseInto(env, r.value)
  }

  function Start(toks: seq<Token>, lit: seq<Token>): Parser {
    Parser(toks, lit, Heap([], []), Root, [], [], [], map[])
  }

  // ---------------------------------------------------------------- safety over every run

  // An if that is not the else-if of another one.
  predicate IsOuterIf(h: Heap, id: nat) {
    ValidRef(h, TrueOf(id)) && !h.cells[id].isNested
  }

  // What every run keeps: pointers denote nodes of their type, and the bottom of the if stack is no else-if.
  ghost predicate Invariant(p: Parser) {
    && ValidRef(p.h, p.current)
    && (forall i | 0 <= i < |p.h.cells| :: ValidRef(p.h, p.h.cells[i].parent))
    && (forall id <- p.ifs :: ValidRef(p.h, TrueOf(id)))
    && (forall id <- p.fors :: ValidRef(p.h, BodyOf(id)))
    && (forall id <- p.blocks :: ValidRef(p.h, NamedOf(id)))
    && (p.ifs != [] ==> IsOuterIf(p.h, p.ifs[0]))
  }

  // Both heaps hold the same kinds of cells with the same parents and nesting, the second possibly more.
  ghost predicate SameShape(h: Heap, h': Heap) {
    && |h.cells| <= |h'.cells|
    && forall i | 0 <= i < |h.cells| :: SameCellShape(h.cells[i], h'.cells[i])
  }

  predicate SameCellShape(c: Cell, c': Cell) {
    && c.IfCell? == c'.IfCell? && c.ForCell? == c'.ForCell? && c.parent == c'.parent
    && (c.IfCell? ==> c.isNested == c'.isNested)
  }

  lemma AppendKeepsShape(h: Heap, r: BlockRef, ns: seq<Node>)
    ensures SameShape(h, Append(h, r, ns))
  {
  }

  lemma ShapeKeepsInvariant(p: Parser, p': Parser)
    requires Invariant(p) && SameShape(p.h, p'.h) && |p'.h.cells| == |p.h.cells|
    requires p'.current == p.current && p'.ifs == p.ifs && p'.fors == p.fors && p'.blocks == p.blocks
    ensures Invariant(p')
  {
    forall i | 0 <= i < |p'.h.cells| ensures ValidRef(p'.h, p'.h.cells[i].parent) {
      assert SameCellShape(p.h.cells[i], p'.h.cells[i]) && ValidRef(p.h, p.h.cells[i].parent);
    }
    if p.ifs != [] { assert p.ifs[0] in p.ifs && SameCellShape(p.h.cells[p.ifs[0]], p'.h.cells[p.ifs[0]]); }
  }

  // Popping the chained ifs stops at an outer one, and with one at the bottom it does not run out of ifs.
  lemma {:induction false} PopNestedIsDefined(h: Heap, ifs: seq<nat>)
    ensures ifs != [] && (forall id <- ifs :: ValidRef(h, TrueOf(id))) && IsOuterIf(h, ifs[0]) ==> PopNested(h, ifs).Ok?
    ensures PopNested(h, ifs).Ok? ==>
              var s := PopNested(h, ifs).value;
              s != [] && s <= ifs && IsOuterIf(h, s[|s| - 1])
    decreases |ifs|
  {
    if ifs != [] {
      var front := ifs[..|ifs| - 1];
      PopNestedIsDefined(h, front);
      assert ifs[|ifs| - 1] in ifs && forall i <- front :: i in ifs;
    }
  }

  lemma EnterKeepsInvariant(p: Parser, node: Node, cell: Cell, inner: BlockRef)
    requires Invariant(p) && cell.parent == p.current
    requires inner == (match cell case IfCell(_, _, _, _, _, _) => TrueOf(|p.h.cells|)
                                  case ForCell(_, _, _, _, _) => BodyOf(|p.h.cells|)
                                  case NamedCell(_, _, _) => NamedOf(|p.h.cells|))
    ensures var q := Enter(p, p.current, node, cell, inner);
            Invariant(q) && |q.h.cells| == |p.h.cells| + 1 && q.h.cells[|p.h.cells|] == cell
  {
    var q := Enter(p, p.current, node, cell, inner);
    AppendKeepsShape(p.h, p.current, [node]);
    assert SameShape(p.h, q.h);
    forall i | 0 <= i < |q.h.cells| ensures ValidRef(q.h, q.h.cells[i].parent) {
      if i < |p.h.cells| { assert ValidRef(p.h, p.h.cells[i].parent); }
    }
    if p.ifs != [] { assert SameCellShape(p.h.cells[p.ifs[0]], q.h.cells[p.ifs[0]]); }
  }

  lemma IfKeepsInvariant(env: Environment, p: Parser, closing: Kind, nested: bool)
    requires Invariant(p) && (nested ==> p.ifs != [])
    ensures var r := ParseIf(env, p, closing, nested); if r.Ok? then Invariant(r.value) else !r.error.Undefined?
  {
    var c := Condition(env, p, closing);
    if c.Ok? {
      var (q, cond) := c.value;
      EnterKeepsInvariant(q, IfNode(|q.h.cells|), IfCell(cond, [], [], q.current, nested, false), TrueOf(|q.h.cells|));
    }
  }

  // Marking the false branch of an if and entering it.
  lemma EnterElseKeepsInvariant(p: Parser, id: nat, toks: seq<Token>)
    requires Invariant(p) && id in p.ifs
    ensures ValidRef(p.h, FalseOf(id))
    ensures Invariant(p.(toks := toks, h := p.h.(cells := p.h.cells[id := p.h.cells[id].(hasFalse := true)]), current := FalseOf(id)))
  {
    var q := p.(h := p.h.(cells := p.h.cells[id := p.h.cells[id].(hasFalse := true)]));
    ShapeKeepsInvariant(p, q);
  }

  lemma ElseKeepsInvariant(env: Environment, p: Parser, closing: Kind)
    requires Invariant(p)
    ensures var r := ParseElse(env, p, closing); if r.Ok? then Invariant(r.value) else !r.error.Undefined?
  {
    hide Invariant, ParseIf;
    if p.ifs != [] {
      var id := p.ifs[|p.ifs| - 1];
      EnterElseKeepsInvariant(p, id, p.toks);
      EnterElseKeepsInvariant(p, id, Tail(p.toks));
      var q := p.(h := p.h.(cells := p.h.cells[id := p.h.cells[id].(hasFalse := true)]), current := FalseOf(id));
      IfKeepsInvariant(env, Advance(q), closing, true);
    }
  }

  lemma EndifKeepsInvariant(p: Parser)
    requires Invariant(p)
    ensures var r := ParseEndif(p); if r.Ok? then Invariant(r.value) else !r.error.Undefined?
  {
    if p.ifs != [] {
      PopNestedIsDefined(p.h, p.ifs);
      var s := PopNested(p.h, p.ifs).value;
      assert s[|s| - 1] in p.ifs;
      forall id <- s[..|s| - 1] ensures id in p.ifs {}
    }
  }

  lemma EndblockKeepsInvariant(p: Parser)
    requires Invariant(p)
    ensures var r := ParseEndblock(p); if r.Ok? then Invariant(r.value) else !r.error.Undefined?
  {
  }

  lemma EndforKeepsInvariant(p: Parser)
    requires Invariant(p)
    ensures var r := ParseEndfor(p); if r.Ok? then Invariant(r.value) else !r.error.Undefined?
  {
  }

  lemma BlockKeepsInvariant(p: Parser)
    requires Invariant(p)
    ensures var r := ParseBlock(p); if r.Ok? then Invariant(r.value) else !r.error.Undefined?
  {
    EnterKeepsInvariant(p, NamedBlockNode(|p.h.cells|), NamedCell(First(p.toks).text, [], p.current), NamedOf(|p.h.cells|));
  }

  lemma ForInKeepsInvariant(env: Environment, p: Parser, closing: Kind, key: Option<string>, value: string)
    requires Invariant(p)
    ensures var r := ParseForIn(env, p, closing, key, value); if r.Ok? then Invariant(r.value) else !r.error.Undefined?
  {
    var c := Condition(env, Advance(p), closing);
    if c.Ok? {
      var (q, cond) := c.value;
      EnterKeepsInvariant(q, ForNode(|q.h.cells|), ForCell(key, value, cond, [], q.current), BodyOf(|q.h.cells|));
    }
  }

  lemma SameButTokens(p: Parser, q: Parser)
    requires q == p.(toks := q.toks)
    ensures Invariant(p) == Invariant(q)
  {
  }

  lemma ForKeepsInvariant(env: Environment, p: Parser, closing: Kind)
    requires Invariant(p)
    ensures var r := ParseFor(env, p, closing); if r.Ok? then Invariant(r.value) else !r.error.Undefined?
  {
    hide Invariant, ParseForIn;
    var (n1, n2) := (Advance(p), Advance(Advance(Advance(p))));
    SameButTokens(p, n1);
    SameButTokens(p, n2);
    ForInKeepsInvariant(env, n1, closing, None, First(p.toks).text);
    ForInKeepsInvariant(env, n2, closing, Some(First(p.toks).text), First(Tail(Tail(p.toks))).text);
  }

  lemma NodeKeepsInvariant(p: Parser, q: Parser, n: Node)
    requires Invariant(p) && q == AddNode(p, n).(toks := q.toks, lit := q.lit)
    ensures Invariant(q)
  {
    AppendKeepsShape(p.h, p.current, [n]);
    ShapeKeepsInvariant(p, q);
  }

  lemma SetKeepsInvariant(env: Environment, p: Parser, closing: Kind)
    requires Invariant(p)
    ensures var r := ParseSet(env, p, closing); if r.Ok? then Invariant(r.value) else !r.error.Undefined?
  {
    var r := ParseSet(env, p, closing);
    if r.Ok? {
      var c := Condition(env, Advance(Advance(p)), closing);
      NodeKeepsInvariant(p, r.value, SetNode(First(p.toks).text, c.value.1));
    }
  }

  lemma FileKeepsInvariant(env: Environment, p: Parser, isExtends: bool)
    requires Invariant(p)
    ensures var r := ParseFileNode(env, p, isExtends); if r.Ok? then Invariant(r.value) else !r.error.Undefined?
  {
    var r := ParseFileNode(env, p, isExtends);
    if r.Ok? {
      var f := ParseFile(env, p).value;
      NodeKeepsInvariant(p, r.value, if isExtends then ExtendsNode(f) else IncludeNode(f));
    }
  }

  lemma StatementKeepsInvariant(env: Environment, p: Parser, closing: Kind)
    requires Invariant(p)
    ensures var r := ParseStatement(env, p, closing); if r.Ok? then Invariant(r.value) else !r.error.Undefined?
  {
    hide Invariant, KeywordOf, ParseIf, ParseElse, ParseEndif, ParseBlock, ParseEndblock, ParseFor, ParseEndfor, ParseSet,
      ParseFileNode;
    var q := Advance(p);
    SameButTokens(p, q);
    match KeywordOf(First(p.toks))
    case KwIf => IfKeepsInvariant(env, q, closing, false);
    case KwElse => ElseKeepsInvariant(env, q, closing);
    case KwEndif => EndifKeepsInvariant(q);
    case KwBlock => BlockKeepsInvariant(q);
    case KwEndblock => EndblockKeepsInvariant(q);
    case KwFor => ForKeepsInvariant(env, q, closing);
    case KwEndfor => EndforKeepsInvariant(q);
    case KwInclude => FileKeepsInvariant(env, q, false);
    case KwExtends => FileKeepsInvariant(env, q, true);
    case KwSet => SetKeepsInvariant(env, q, closing);
    case KwNone =>
  }

  lemma StepKeepsInvariant(env: Environment, p: Parser)
    requires Invariant(p) && p.toks != []
    ensures var r := Step(env, p); if r.Ok? then Invariant(r.value) else !r.error.Undefined?
  {
    var q := Advance(p);
    match p.toks[0].kind
    case StatementOpen => StatementKeepsInvariant(env, q, StatementClose);
    case LineStatementOpen => StatementKeepsInvariant(env, q, LineStatementClose);
    case Text =>
      AppendKeepsShape(p.h, p.current, [TextNode(p.toks[0].text)]);
      ShapeKeepsInvariant(p, Step(env, p).value);
    case ExpressionOpen =>
      var r := X.ParseExpr(env.expr, q.toks, q.lit);
      if r.Ok? {
        AppendKeepsShape(p.h, p.current, [ExpressionNode(r.value.node)]);
        if Step(env, p).Ok? { ShapeKeepsInvariant(p, Step(env, p).value); }
      }
    case _ =>
  }

  // No token sequence whatsoever makes the statement parser read an empty if, for or block stack or follow a wrong
  // pointer. (What the expression parser reads is another matter: its errors are InExpression.)
  lemma {:induction false} NeverUndefined(env: Environment, p: Parser)
    requires Invariant(p)
    ensures var r := ParseInto(env, p); if r.Ok? then Invariant(r.value) && r.value.ifs == r.value.fors == [] else !r.error.Undefined?
    decreases |p.toks|
  {
    if !First(p.toks).kind.Eof? {
      StepKeepsInvariant(env, p);
      if Step(env, p).Ok? { NeverUndefined(env, Step(env, p).value); }
    }
  }
}
