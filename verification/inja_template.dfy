// Template trees, their printed tokens, and the proof that the statement parser rebuilds them.
module InjaTemplate {
  import opened Wrappers
  import opened InjaSyntax
  import opened InjaStatement
  import X = InjaExpression

  datatype Stmt =
    | Text(text: string)
    | Output(expr: Expr)
    | If(cond: Expr, thn: seq<Stmt>, els: Else)
    | For(key: Option<string>, value: string, over: Expr, body: seq<Stmt>)
    | Block(name: string, inner: seq<Stmt>)
    | Set(target: string, expr: Expr)
    | Include(file: string)
    | Extends(file: string)

  datatype Else = NoElse | ElseBlock(stmts: seq<Stmt>) | ElseIf(cond: Expr, thn: seq<Stmt>, els: Else)

  // ---------------------------------------------------------------- printing

  function Word(w: string): Token { Token(Id, w) }

  const OPEN := Token(StatementOpen, "{%")
  const CLOSE := Token(StatementClose, "%}")
  const EXPR_OPEN := Token(ExpressionOpen, "{{")
  const EXPR_CLOSE := Token(ExpressionClose, "}}")

  function Tag(body: seq<Token>): seq<Token> {
    [OPEN] + body + [CLOSE]
  }

  function IfTag(cond: Expr): seq<Token> { Tag([Word("if")] + X.Print(cond, 0)) }

  function ElseIfTag(cond: Expr): seq<Token> { Tag([Word("else"), Word("if")] + X.Print(cond, 0)) }

  function ForTag(key: Option<string>, value: string, over: Expr): seq<Token> {
    Tag([Word("for")] + ForVars(key) + [Word(value), Word("in")] + X.Print(over, 0))
  }

  function FileTag(word: string, file: string): seq<Token> {
    Tag([Word(word), Token(String, "\"" + file + "\"")])
  }

  function PrintStmt(s: Stmt): seq<Token>
    decreases s, 1
  {
    match s
    case Text(text) => [Token(Kind.Text, text)]
    case Output(e) => [EXPR_OPEN] + X.Print(e, 0) + [EXPR_CLOSE]
    case If(cond, thn, els) => IfTag(cond) + PrintStmts(thn) + PrintElse(els) + Tag([Word("endif")])
    case For(key, value, over, body) => ForTag(key, value, over) + PrintStmts(body) + Tag([Word("endfor")])
    case Block(name, inner) => Tag([Word("block"), Word(name)]) + PrintStmts(inner) + Tag([Word("endblock")])
    case Set(target, e) => Tag([Word("set"), Word(target), Token(Unknown, "=")] + X.Print(e, 0))
    case Include(file) => FileTag("include", file)
    case Extends(file) => FileTag("extends", file)
  }

  function PrintStmts(ss: seq<Stmt>): seq<Token>
    decreases ss, 0
  {
    if ss == [] then [] else PrintStmt(ss[0]) + PrintStmts(ss[1..])
  }

  function PrintElse(els: Else): seq<Token>
    decreases els, 0
  {
    match els
    case NoElse => []
    case ElseBlock(ss) => Tag([Word("else")]) + PrintStmts(ss)
    case ElseIf(cond, thn, more) => ElseIfTag(cond) + PrintStmts(thn) + PrintElse(more)
  }

  // The names of the named blocks, in the order their tags open.
  function Names(ss: seq<Stmt>): seq<string>
    decreases ss, 0
  {
    if ss == [] then [] else NamesOf(ss[0]) + Names(ss[1..])
  }

  function NamesOf(s: Stmt): seq<string>
    decreases s, 1
  {
    match s
    case If(_, thn, els) => Names(thn) + ElseNames(els)
    case For(_, _, _, body) => Names(body)
    case Block(name, inner) => [name] + Names(inner)
    case _ => []
  }

  function ElseNames(els: Else): seq<string>
    decreases els, 0
  {
    match els
    case NoElse => []
    case ElseBlock(ss) => Names(ss)
    case ElseIf(_, thn, more) => Names(thn) + ElseNames(more)
  }

  ghost predicate Distinct(names: seq<string>) {
    forall i, j :: 0 <= i < j < |names| ==> names[i] != names[j]
  }

  // Trees whose expressions can be printed and whose included files are stored under their own names.
  ghost predicate WellFormed(env: Environment, ss: seq<Stmt>)
    decreases ss, 0
  {
    ss != [] ==> WellFormedStmt(env, ss[0]) && WellFormed(env, ss[1..])
  }

  ghost predicate WellFormedStmt(env: Environment, s: Stmt)
    decreases s, 1
  {
    match s
    case Text(_) => true
    case Output(e) => X.Printable(env.expr, e)
    case If(cond, thn, els) => X.Printable(env.expr, cond) && WellFormed(env, thn) && WellFormedElse(env, els)
    case For(_, _, over, body) => X.Printable(env.expr, over) && WellFormed(env, body)
    case Block(_, inner) => WellFormed(env, inner)
    case Set(_, e) => X.Printable(env.expr, e)
    case Include(file) => env.load(file) == Some(file)
    case Extends(file) => env.load(file) == Some(file)
  }

  ghost predicate WellFormedElse(env: Environment, els: Else)
    decreases els, 0
  {
    match els
    case NoElse => true
    case ElseBlock(ss) => WellFormed(env, ss)
    case ElseIf(cond, thn, more) => X.Printable(env.expr, cond) && WellFormed(env, thn) && WellFormedElse(env, more)
  }

  // ---------------------------------------------------------------- reading a tree off the heap

  // The nodes `ns`, with everything they point to in cells lo..hi, are the tree `ss`.
  ghost predicate Represents(h: Heap, ns: seq<Node>, ss: seq<Stmt>, lo: nat, hi: nat)
    decreases ss, 0
  {
    |ns| == |ss| && (ss != [] ==> IsTree(h, ns[0], ss[0], lo, hi) && Represents(h, ns[1..], ss[1..], lo, hi))
  }

  ghost predicate IsTree(h: Heap, n: Node, s: Stmt, lo: nat, hi: nat)
    decreases s, 1
  {
    match s
    case Text(text) => n == TextNode(text)
    case Output(e) => n == ExpressionNode(Some(e))
    case Set(target, e) => n == SetNode(target, Some(e))
    case Include(file) => n == IncludeNode(file)
    case Extends(file) => n == ExtendsNode(file)
    case If(cond, thn, els) =>
      && n.IfNode? && lo <= n.id < hi <= |h.cells| && h.cells[n.id].IfCell? && !h.cells[n.id].isNested
      && var c := h.cells[n.id];
         c.condition == Some(cond) && Represents(h, c.trueStatement, thn, lo, hi) && IsElse(h, c, els, lo, hi)
    case For(key, value, over, body) =>
      && n.ForNode? && lo <= n.id < hi <= |h.cells| && h.cells[n.id].ForCell?
      && var c := h.cells[n.id];
         c.key == key && c.value == value && c.condition == Some(over) && Represents(h, c.body, body, lo, hi)
    case Block(name, inner) =>
      && n.NamedBlockNode? && lo <= n.id < hi <= |h.cells| && h.cells[n.id].NamedCell?
      && h.cells[n.id].name == name && Represents(h, h.cells[n.id].block, inner, lo, hi)
  }

  // A chained else-if is a nested if, alone in the false branch.
  ghost predicate IsElse(h: Heap, c: Cell, els: Else, lo: nat, hi: nat)
    requires c.IfCell?
    decreases els, 0
  {
    match els
    case NoElse => !c.hasFalse && c.falseStatement == []
    case ElseBlock(ss) => c.hasFalse && Represents(h, c.falseStatement, ss, lo, hi)
    case ElseIf(cond, thn, more) =>
      && c.hasFalse && |c.falseStatement| == 1
      && var n := c.falseStatement[0];
         && n.IfNode? && lo <= n.id < hi <= |h.cells| && h.cells[n.id].IfCell? && h.cells[n.id].isNested
         && h.cells[n.id].condition == Some(cond) && Represents(h, h.cells[n.id].trueStatement, thn, lo, hi)
         && IsElse(h, h.cells[n.id], more, lo, hi)
  }

  // Trees survive any change to the heap outside their own cells.
  ghost predicate Agree(h: Heap, h': Heap, lo: nat, hi: nat, lo': nat, hi': nat) {
    lo' <= lo && hi <= hi' <= |h'.cells| && hi <= |h.cells| && forall i | lo <= i < hi :: h'.cells[i] == h.cells[i]
  }

  lemma {:induction false} RepresentsFrame(h: Heap, h': Heap, ns: seq<Node>, ss: seq<Stmt>, lo: nat, hi: nat, lo': nat, hi': nat)
    requires Represents(h, ns, ss, lo, hi) && Agree(h, h', lo, hi, lo', hi')
    ensures Represents(h', ns, ss, lo', hi')
    decreases ss, 0
  {
    if ss != [] {
      TreeFrame(h, h', ns[0], ss[0], lo, hi, lo', hi');
      RepresentsFrame(h, h', ns[1..], ss[1..], lo, hi, lo', hi');
    }
  }

  lemma {:induction false} TreeFrame(h: Heap, h': Heap, n: Node, s: Stmt, lo: nat, hi: nat, lo': nat, hi': nat)
    requires IsTree(h, n, s, lo, hi) && Agree(h, h', lo, hi, lo', hi')
    ensures IsTree(h', n, s, lo', hi')
    decreases s, 1
  {
    match s
    case If(_, thn, els) =>
      RepresentsFrame(h, h', h.cells[n.id].trueStatement, thn, lo, hi, lo', hi');
      ElseFrame(h, h', h.cells[n.id], els, lo, hi, lo', hi');
    case For(_, _, _, body) => RepresentsFrame(h, h', h.cells[n.id].body, body, lo, hi, lo', hi');
    case Block(_, inner) => RepresentsFrame(h, h', h.cells[n.id].block, inner, lo, hi, lo', hi');
    case _ =>
  }

  lemma {:induction false} ElseFrame(h: Heap, h': Heap, c: Cell, els: Else, lo: nat, hi: nat, lo': nat, hi': nat)
    requires c.IfCell? && IsElse(h, c, els, lo, hi) && Agree(h, h', lo, hi, lo', hi')
    ensures IsElse(h', c, els, lo', hi')
    decreases els, 0
  {
    match els
    case NoElse =>
    case ElseBlock(ss) => RepresentsFrame(h, h', c.falseStatement, ss, lo, hi, lo', hi');
    case ElseIf(_, thn, more) =>
      var d := h.cells[c.falseStatement[0].id];
      RepresentsFrame(h, h', d.trueStatement, thn, lo, hi, lo', hi');
      ElseFrame(h, h', d, more, lo, hi, lo', hi');
  }

  // The heap determines the tree.
  lemma {:induction false} RepresentsUnique(h: Heap, ns: seq<Node>, ss: seq<Stmt>, tt: seq<Stmt>, lo: nat, hi: nat)
    requires Represents(h, ns, ss, lo, hi) && Represents(h, ns, tt, lo, hi)
    ensures ss == tt
    decreases ss, 0
  {
    if ss != [] {
      TreeUnique(h, ns[0], ss[0], tt[0], lo, hi);
      RepresentsUnique(h, ns[1..], ss[1..], tt[1..], lo, hi);
      assert ss == [ss[0]] + ss[1..] && tt == [tt[0]] + tt[1..];
    }
  }

  lemma {:induction false} TreeUnique(h: Heap, n: Node, s: Stmt, t: Stmt, lo: nat, hi: nat)
    requires IsTree(h, n, s, lo, hi) && IsTree(h, n, t, lo, hi)
    ensures s == t
    decreases s, 1
  {
    match s
    case If(_, thn, els) =>
      RepresentsUnique(h, h.cells[n.id].trueStatement, thn, t.thn, lo, hi);
      ElseUnique(h, h.cells[n.id], els, t.els, lo, hi);
    case For(_, _, _, body) => RepresentsUnique(h, h.cells[n.id].body, body, t.body, lo, hi);
    case Block(_, inner) => RepresentsUnique(h, h.cells[n.id].block, inner, t.inner, lo, hi);
    case _ =>
  }

  // Whether a false branch is a chained else-if can be read off the heap.
  lemma ElseShape(h: Heap, c: Cell, els: Else, lo: nat, hi: nat)
    requires c.IfCell? && IsElse(h, c, els, lo, hi)
    ensures els.NoElse? <==> !c.hasFalse
    ensures els.ElseIf? <==> |c.falseStatement| == 1 && c.falseStatement[0].IfNode? &&
                             c.falseStatement[0].id < |h.cells| && h.cells[c.falseStatement[0].id].IfCell? &&
                             h.cells[c.falseStatement[0].id].isNested
  {
    if els.ElseBlock? && els.stmts != [] { assert IsTree(h, c.falseStatement[0], els.stmts[0], lo, hi); }
  }

  lemma {:induction false} ElseUnique(h: Heap, c: Cell, d: Else, e: Else, lo: nat, hi: nat)
    requires c.IfCell? && IsElse(h, c, d, lo, hi) && IsElse(h, c, e, lo, hi)
    ensures d == e
    decreases d, 0
  {
    ElseShape(h, c, d, lo, hi);
    ElseShape(h, c, e, lo, hi);
    match d
    case NoElse =>
    case ElseBlock(ss) => RepresentsUnique(h, c.falseStatement, ss, e.stmts, lo, hi);
    case ElseIf(_, thn, more) =>
      var k := h.cells[c.falseStatement[0].id];
      RepresentsUnique(h, k.trueStatement, thn, e.thn, lo, hi);
      ElseUnique(h, k, more, e.els, lo, hi);
  }

  // ---------------------------------------------------------------- what parsing a list of statements does

  // From p to p': the nodes `ns` were appended to the current block, new cells follow the old ones,
  // and the pointer, the three stacks and every other old cell are back where they were.
  ghost predicate Grown(p: Parser, p': Parser, ns: seq<Node>) {
    var h := Append(p.h, p.current, ns);
    && ValidRef(p.h, p.current)
    && p'.current == p.current && p'.ifs == p.ifs && p'.fors == p.fors && p'.blocks == p.blocks
    && p'.h.root == h.root && |h.cells| <= |p'.h.cells|
    && (forall i | 0 <= i < |h.cells| :: p'.h.cells[i] == h.cells[i])
  }

  ghost predicate Fresh(p: Parser, names: seq<string>) {
    Distinct(names) && forall n <- names :: n !in p.storage
  }

  ghost predicate Stored(p: Parser, p': Parser, names: seq<string>) {
    forall n :: n in p'.storage <==> n in p.storage || n in names
  }

  lemma GrownTransitive(p: Parser, q: Parser, r: Parser, ns: seq<Node>, ms: seq<Node>)
    requires Grown(p, q, ns) && Grown(q, r, ms)
    ensures Grown(p, r, ns + ms)
  {
    var c := p.current;
    var h1, h2 := Append(q.h, c, ms), Append(p.h, c, ns + ms);
    forall i | 0 <= i < |p.h.cells| ensures r.h.cells[i] == h2.cells[i] {
      assert r.h.cells[i] == h1.cells[i];
      assert q.h.cells[i] == Append(p.h, c, ns).cells[i];
    }
    assert r.h.root == h2.root;
  }

  lemma FreshLeft(p: Parser, a: seq<string>, b: seq<string>)
    requires Fresh(p, a + b)
    ensures Fresh(p, a)
  {
    forall i, j | 0 <= i < j < |a| ensures a[i] != a[j] { assert (a + b)[i] != (a + b)[j]; }
    forall n | n in a ensures n !in p.storage { assert n in a + b; }
  }

  lemma FreshRight(p: Parser, q: Parser, a: seq<string>, b: seq<string>)
    requires Fresh(p, a + b) && Stored(p, q, a)
    ensures Fresh(q, b)
  {
    forall i, j | 0 <= i < j < |b| ensures b[i] != b[j] { assert (a + b)[|a| + i] != (a + b)[|a| + j]; }
    forall i, j | 0 <= i < |a| && 0 <= j < |b| ensures a[i] != b[j] { assert (a + b)[i] != (a + b)[|a| + j]; }
    forall n | n in b ensures n !in p.storage { assert n in a + b; }
  }

  lemma SameStorage(p: Parser, q: Parser, names: seq<string>)
    requires p.storage == q.storage
    ensures Fresh(p, names) == Fresh(q, names)
  {
  }

  lemma StoredTransfer(p: Parser, p': Parser, q: Parser, q': Parser, names: seq<string>)
    requires Stored(p, p', names) && p.storage == q.storage && p'.storage == q'.storage
    ensures Stored(q, q', names)
  {
  }

  lemma StoredJoin(p: Parser, q: Parser, r: Parser, a: seq<string>, b: seq<string>)
    requires Stored(p, q, a) && Stored(q, r, b)
    ensures Stored(p, r, a + b)
  {
  }

  // ---------------------------------------------------------------- one tag at a time

  lemma ConditionRead(env: Environment, p: Parser, e: Expr, closing: Kind, rest: seq<Token>) returns (q: Parser)
    requires X.Printable(env.expr, e) && p.toks == X.Print(e, 0) + rest && X.Stops(rest) && First(rest).kind == closing
    ensures q == p.(toks := rest, lit := q.lit)
    ensures Condition(env, p, closing) == Ok((q, Some(e)))
  {
    X.RoundTrip(env.expr, e, rest, p.lit);
    q := p.(toks := rest, lit := X.ParseExpr(env.expr, p.toks, p.lit).value.lit);
  }

  // A tag whose statement leaves the closing token is one step of the parser.
  lemma TagStep(env: Environment, p: Parser, body: seq<Token>, rest: seq<Token>, q: Parser)
    requires p.toks == Tag(body) + rest && q.toks == [CLOSE] + rest
    requires ParseStatement(env, p.(toks := body + [CLOSE] + rest), StatementClose) == Ok(q)
    ensures ParseInto(env, p) == ParseInto(env, q.(toks := rest))
  {
    hide ParseStatement, X.ParseExpr;
    assert p.toks[1..] == body + [CLOSE] + rest;
    assert ([CLOSE] + rest)[1..] == rest;
    assert Step(env, p) == Ok(q.(toks := rest));
  }

  function NewIf(p: Parser, cond: Expr, nested: bool): Parser {
    var id := |p.h.cells|;
    Enter(p, p.current, IfNode(id), IfCell(Some(cond), [], [], p.current, nested, false), TrueOf(id)).(ifs := p.ifs + [id])
  }

  lemma OpenIf(env: Environment, p: Parser, cond: Expr, rest: seq<Token>) returns (q: Parser)
    requires X.Printable(env.expr, cond) && p.toks == IfTag(cond) + rest
    ensures q == NewIf(p, cond, false).(toks := rest, lit := q.lit)
    ensures ParseInto(env, p) == ParseInto(env, q)
  {
    hide ParseInto, X.Print, Condition, Append;
    var body := [Word("if")] + X.Print(cond, 0);
    var start := p.(toks := body + [CLOSE] + rest);
    assert start.toks[1..] == X.Print(cond, 0) + ([CLOSE] + rest);
    var c := ConditionRead(env, Advance(start), cond, StatementClose, [CLOSE] + rest);
    var q' := NewIf(p, cond, false).(toks := [CLOSE] + rest, lit := c.lit);
    TagStep(env, p, body, rest, q');
    q := q'.(toks := rest);
  }

  // Marks the false branch of the topmost if as present and enters it.
  function EnterElse(p: Parser): Parser
    requires p.ifs != [] && ValidRef(p.h, FalseOf(p.ifs[|p.ifs| - 1]))
  {
    var id := p.ifs[|p.ifs| - 1];
    p.(h := p.h.(cells := p.h.cells[id := p.h.cells[id].(hasFalse := true)]), current := FalseOf(id))
  }

  lemma OpenElse(env: Environment, p: Parser, rest: seq<Token>) returns (q: Parser)
    requires p.ifs != [] && ValidRef(p.h, FalseOf(p.ifs[|p.ifs| - 1])) && p.toks == Tag([Word("else")]) + rest
    ensures q == EnterElse(p).(toks := rest)
    ensures ParseInto(env, p) == ParseInto(env, q)
  {
    var start := p.(toks := [Word("else")] + [CLOSE] + rest);
    assert start.toks[1..] == [CLOSE] + rest;
    TagStep(env, p, [Word("else")], rest, EnterElse(p).(toks := [CLOSE] + rest));
    q := EnterElse(p).(toks := rest);
  }

  lemma OpenElseIf(env: Environment, p: Parser, cond: Expr, rest: seq<Token>) returns (q: Parser)
    requires p.ifs != [] && ValidRef(p.h, FalseOf(p.ifs[|p.ifs| - 1])) && p.toks == ElseIfTag(cond) + rest
    requires X.Printable(env.expr, cond)
    ensures q == NewIf(EnterElse(p), cond, true).(toks := rest, lit := q.lit)
    ensures ParseInto(env, p) == ParseInto(env, q)
  {
    hide ParseInto, X.Print, Condition, Append;
    var body := [Word("else"), Word("if")] + X.Print(cond, 0);
    var start := p.(toks := body + [CLOSE] + rest);
    assert start.toks[1..] == [Word("if")] + X.Print(cond, 0) + ([CLOSE] + rest);
    var mid := EnterElse(p).(toks := X.Print(cond, 0) + ([CLOSE] + rest));
    assert start.toks[1..][1..] == mid.toks;
    var c := ConditionRead(env, mid, cond, StatementClose, [CLOSE] + rest);
    var q' := NewIf(EnterElse(p), cond, true).(toks := [CLOSE] + rest, lit := c.lit);
    assert ParseElse(env, Advance(start), StatementClose) == Ok(q');
    TagStep(env, p, body, rest, q');
    q := q'.(toks := rest);
  }

  function NewFor(p: Parser, key: Option<string>, value: string, over: Expr): Parser {
    var id := |p.h.cells|;
    Enter(p, p.current, ForNode(id), ForCell(key, value, Some(over), [], p.current), BodyOf(id)).(fors := p.fors + [id])
  }

  lemma ForInRead(env: Environment, p: Parser, key: Option<string>, value: string, over: Expr, rest: seq<Token>)
    returns (q: Parser)
    requires X.Printable(env.expr, over) && p.toks == [Word("in")] + X.Print(over, 0) + ([CLOSE] + rest)
    ensures q == NewFor(p, key, value, over).(toks := [CLOSE] + rest, lit := q.lit)
    ensures ParseForIn(env, p, StatementClose, key, value) == Ok(q)
  {
    hide X.Print, Condition, Append;
    assert p.toks[1..] == X.Print(over, 0) + ([CLOSE] + rest);
    var c := ConditionRead(env, Advance(p), over, StatementClose, [CLOSE] + rest);
    q := NewFor(p, key, value, over).(toks := [CLOSE] + rest, lit := c.lit);
  }

  function ForVars(key: Option<string>): seq<Token> {
    if key.Some? then [Word(key.value), X.COMMA] else []
  }

  lemma ForRead(env: Environment, p: Parser, key: Option<string>, value: string, atIn: seq<Token>, r: StatementResult<Parser>)
    requires p.toks == ForVars(key) + ([Word(value)] + atIn) && atIn != [] && !atIn[0].kind.Comma?
    requires ParseForIn(env, p.(toks := atIn), StatementClose, key, value) == r
    ensures ParseFor(env, p, StatementClose) == r
  {
    hide ParseForIn;
    var named := [Word(value)] + atIn;
    assert named[1..] == atIn;
    if key.Some? {
      assert p.toks[1..] == [X.COMMA] + named;
      assert p.toks[1..][1..] == named;
    } else {
      assert p.toks == named;
    }
  }

  lemma ForText(key: Option<string>, value: string, over: seq<Token>, rest: seq<Token>)
    ensures ([Word("for")] + ForVars(key) + [Word(value), Word("in")] + over + rest)[1..] ==
            ForVars(key) + ([Word(value)] + ([Word("in")] + over + rest))
    ensures [Word("in")] + over + rest == [Word("in")] + (over + rest)
  {
  }

  lemma OpenFor(env: Environment, p: Parser, key: Option<string>, value: string, over: Expr, rest: seq<Token>)
    returns (q: Parser)
    requires X.Printable(env.expr, over) && p.toks == ForTag(key, value, over) + rest
    ensures q == NewFor(p, key, value, over).(toks := rest, lit := q.lit)
    ensures ParseInto(env, p) == ParseInto(env, q)
  {
    hide ParseFor, ParseForIn, ParseInto, X.Print;
    var body := [Word("for")] + ForVars(key) + [Word(value), Word("in")] + X.Print(over, 0);
    var atIn := [Word("in")] + X.Print(over, 0) + ([CLOSE] + rest);
    var q' := ForInRead(env, p.(toks := atIn), key, value, over, rest);
    var start := p.(toks := body + [CLOSE] + rest);
    assert start.toks == body + ([CLOSE] + rest);
    assert start.toks[1..] == ForVars(key) + ([Word(value)] + atIn) by { ForText(key, value, X.Print(over, 0), [CLOSE] + rest); }
    ForRead(env, Advance(start), key, value, atIn, Ok(q'));
    assert ParseStatement(env, start, StatementClose) == ParseFor(env, Advance(start), StatementClose);
    TagStep(env, p, body, rest, q');
    q := q'.(toks := rest);
  }

  function NewBlock(p: Parser, name: string): Parser {
    var id := |p.h.cells|;
    Enter(p, p.current, NamedBlockNode(id), NamedCell(name, [], p.current), NamedOf(id))
      .(blocks := p.blocks + [id], storage := p.storage[name := id])
  }

  lemma OpenBlock(env: Environment, p: Parser, name: string, rest: seq<Token>) returns (q: Parser)
    requires name !in p.storage && p.toks == Tag([Word("block"), Word(name)]) + rest
    ensures q == NewBlock(p, name).(toks := rest)
    ensures ParseInto(env, p) == ParseInto(env, q)
  {
    var start := p.(toks := [Word("block"), Word(name)] + [CLOSE] + rest);
    assert start.toks[1..] == [Word(name)] + ([CLOSE] + rest);
    assert start.toks[1..][1..] == [CLOSE] + rest;
    TagStep(env, p, [Word("block"), Word(name)], rest, NewBlock(p, name).(toks := [CLOSE] + rest));
    q := NewBlock(p, name).(toks := rest);
  }

  // The closing tag `word`, whose statement turns p into q without reading further.
  lemma CloseTag(env: Environment, p: Parser, word: string, rest: seq<Token>, q: Parser)
    requires p.toks == Tag([Word(word)]) + rest && q.toks == [CLOSE] + rest
    requires ParseStatement(env, p.(toks := [Word(word)] + ([CLOSE] + rest)), StatementClose) == Ok(q)
    ensures ParseInto(env, p) == ParseInto(env, q.(toks := rest))
  {
    hide ParseInto, ParseStatement;
    assert [Word(word)] + [CLOSE] + rest == [Word(word)] + ([CLOSE] + rest);
    TagStep(env, p, [Word(word)], rest, q);
  }

  lemma RunOutput(env: Environment, e: Expr, p: Parser, rest: seq<Token>) returns (p': Parser)
    requires X.Printable(env.expr, e) && p.toks == PrintStmt(Output(e)) + rest
    ensures ParseInto(env, p) == ParseInto(env, p')
    ensures p' == AddNode(p, ExpressionNode(Some(e))).(toks := rest, lit := p'.lit)
  {
    hide X.Print;
    var tail := [EXPR_CLOSE] + rest;
    assert p.toks[1..] == X.Print(e, 0) + tail;
    X.RoundTrip(env.expr, e, tail, p.lit);
    assert tail[1..] == rest;
    p' := Step(env, p).value;
  }

  lemma SetRead(env: Environment, p: Parser, target: string, e: Expr, rest: seq<Token>) returns (q: Parser)
    requires X.Printable(env.expr, e)
    requires p.toks == [Word(target), Token(Unknown, "=")] + (X.Print(e, 0) + ([CLOSE] + rest))
    ensures q == AddNode(p, SetNode(target, Some(e))).(toks := [CLOSE] + rest, lit := q.lit)
    ensures ParseSet(env, p, StatementClose) == Ok(q)
  {
    hide X.Print, Condition;
    var tail := X.Print(e, 0) + ([CLOSE] + rest);
    assert p.toks[1..] == [Token(Unknown, "=")] + tail;
    assert p.toks[1..][1..] == tail;
    var c := ConditionRead(env, Advance(Advance(p)), e, StatementClose, [CLOSE] + rest);
    q := AddNode(c, SetNode(target, Some(e)));
  }

  lemma RunSet(env: Environment, target: string, e: Expr, p: Parser, rest: seq<Token>) returns (p': Parser)
    requires X.Printable(env.expr, e) && p.toks == PrintStmt(Set(target, e)) + rest
    ensures ParseInto(env, p) == ParseInto(env, p')
    ensures p' == AddNode(p, SetNode(target, Some(e))).(toks := rest, lit := p'.lit)
  {
    hide X.Print, ParseInto, ParseSet;
    var body := [Word("set"), Word(target), Token(Unknown, "=")] + X.Print(e, 0);
    var start := p.(toks := body + [CLOSE] + rest);
    assert start.toks[1..] == [Word(target), Token(Unknown, "=")] + (X.Print(e, 0) + ([CLOSE] + rest));
    var q := SetRead(env, Advance(start), target, e, rest);
    TagStep(env, p, body, rest, q);
    p' := q.(toks := rest);
  }

  // Statements without a body: one node is appended.
  lemma RunLeaf(env: Environment, s: Stmt, p: Parser, rest: seq<Token>) returns (p': Parser, n: Node)
    requires WellFormedStmt(env, s) && ValidRef(p.h, p.current) && p.toks == PrintStmt(s) + rest
    requires s.Text? || s.Output? || s.Set? || s.Include? || s.Extends?
    ensures ParseInto(env, p) == ParseInto(env, p')
    ensures p' == AddNode(p, n).(toks := rest, lit := p'.lit)
    ensures IsTree(p'.h, n, s, |p.h.cells|, |p'.h.cells|)
  {
    hide X.Print;
    match s
    case Text(text) =>
      n := TextNode(text);
      p' := AddNode(p, n).(toks := rest);
      assert Step(env, p) == Ok(p');
    case Output(e) =>
      n := ExpressionNode(Some(e));
      p' := RunOutput(env, e, p, rest);
    case Set(target, e) =>
      n := SetNode(target, Some(e));
      p' := RunSet(env, target, e, p, rest);
    case Include(file) => p', n := RunFile(env, p, "include", file, IncludeNode(file), rest);
    case Extends(file) => p', n := RunFile(env, p, "extends", file, ExtendsNode(file), rest);
  }

  lemma RunFile(env: Environment, p: Parser, word: string, file: string, node: Node, rest: seq<Token>)
    returns (p': Parser, n: Node)
    requires env.load(file) == Some(file) && p.toks == FileTag(word, file) + rest
    requires (word == "include" && node == IncludeNode(file)) || (word == "extends" && node == ExtendsNode(file))
    ensures n == node && p' == AddNode(p, node).(toks := rest) && ParseInto(env, p) == ParseInto(env, p')
  {
    n := node;
    p' := AddNode(p, node).(toks := rest);
    var quoted := Token(String, "\"" + file + "\"");
    assert quoted.text[1..|quoted.text| - 1] == file;
    var start := p.(toks := [Word(word), quoted] + [CLOSE] + rest);
    assert start.toks[1..] == [quoted] + ([CLOSE] + rest);
    assert start.toks[1..][1..] == [CLOSE] + rest;
    TagStep(env, p, [Word(word), quoted], rest, AddNode(p, node).(toks := [CLOSE] + rest));
  }

  // ---------------------------------------------------------------- whole trees

  lemma {:induction false} PopNestedDrops(h: Heap, base: seq<nat>, extra: seq<nat>)
    requires base != [] && IsOuterIf(h, base[|base| - 1])
    requires forall id <- extra :: ValidRef(h, TrueOf(id)) && h.cells[id].isNested
    ensures PopNested(h, base + extra) == Ok(base)
    decreases |extra|
  {
    if extra == [] {
      assert base + extra == base;
    } else {
      var id := extra[|extra| - 1];
      assert id in extra;
      assert (base + extra)[..|base + extra| - 1] == base + extra[..|extra| - 1];
      forall i <- extra[..|extra| - 1] ensures i in extra {}
      PopNestedDrops(h, base, extra[..|extra| - 1]);
    }
  }

  lemma RunNothing(env: Environment, p: Parser, rest: seq<Token>) returns (p': Parser, ns: seq<Node>)
    requires ValidRef(p.h, p.current) && p.toks == [] + rest
    ensures p' == p && ns == [] && p.toks == rest && Grown(p, p', ns) && Stored(p, p', [])
  {
    p', ns := p, [];
    assert [] + rest == rest;
  }

  lemma GrownValid(p: Parser, q: Parser, ns: seq<Node>)
    requires Grown(p, q, ns)
    ensures ValidRef(q.h, q.current)
  {
  }

  // New trees of a later statement leave the cells of an earlier one alone.
  lemma GrownAgrees(p: Parser, q: Parser, r: Parser, n: Node, ms: seq<Node>)
    requires Grown(p, q, [n]) && Grown(q, r, ms)
    ensures Agree(q.h, r.h, |p.h.cells|, |q.h.cells|, |p.h.cells|, |r.h.cells|)
    ensures Agree(r.h, r.h, |q.h.cells|, |r.h.cells|, |p.h.cells|, |r.h.cells|)
  {
  }

  lemma {:induction false} Run(env: Environment, ss: seq<Stmt>, p: Parser, rest: seq<Token>) returns (p': Parser, ns: seq<Node>)
    requires WellFormed(env, ss) && Fresh(p, Names(ss)) && ValidRef(p.h, p.current) && p.toks == PrintStmts(ss) + rest
    ensures ParseInto(env, p) == ParseInto(env, p') && p'.toks == rest
    ensures Grown(p, p', ns) && Stored(p, p', Names(ss))
    ensures Represents(p'.h, ns, ss, |p.h.cells|, |p'.h.cells|)
    decreases ss, 0
  {
    hide ParseInto, PrintStmt, NamesOf, Grown, IsTree, Fresh, Stored;
    if ss == [] {
      p', ns := RunNothing(env, p, rest);
    } else {
      var after := PrintStmts(ss[1..]) + rest;
      assert p.toks == PrintStmt(ss[0]) + after;
      FreshLeft(p, NamesOf(ss[0]), Names(ss[1..]));
      var q, n := RunStmt(env, ss[0], p, after);
      FreshRight(p, q, NamesOf(ss[0]), Names(ss[1..]));
      GrownValid(p, q, [n]);
      var ms;
      p', ms := Run(env, ss[1..], q, rest);
      ns := [n] + ms;
      StoredJoin(p, q, p', NamesOf(ss[0]), Names(ss[1..]));
      GrownTransitive(p, q, p', [n], ms);
      GrownAgrees(p, q, p', n, ms);
      TreeFrame(q.h, p'.h, n, ss[0], |p.h.cells|, |q.h.cells|, |p.h.cells|, |p'.h.cells|);
      RepresentsFrame(p'.h, p'.h, ms, ss[1..], |q.h.cells|, |p'.h.cells|, |p.h.cells|, |p'.h.cells|);
    }
  }

  lemma {:induction false} RunStmt(env: Environment, s: Stmt, p: Parser, rest: seq<Token>) returns (p': Parser, n: Node)
    requires WellFormedStmt(env, s) && Fresh(p, NamesOf(s)) && ValidRef(p.h, p.current) && p.toks == PrintStmt(s) + rest
    ensures ParseInto(env, p) == ParseInto(env, p') && p'.toks == rest
    ensures Grown(p, p', [n]) && Stored(p, p', NamesOf(s))
    ensures IsTree(p'.h, n, s, |p.h.cells|, |p'.h.cells|)
    decreases s, 1
  {
    match s
    case If(_, _, _) => p', n := RunIf(env, s, p, rest);
    case For(_, _, _, _) => p', n := RunFor(env, s, p, rest);
    case Block(_, _) => p', n := RunBlock(env, s, p, rest);
    case _ => p', n := RunLeaf(env, s, p, rest);
  }

  lemma {:induction false} RunFor(env: Environment, s: Stmt, p: Parser, rest: seq<Token>) returns (p': Parser, n: Node)
    requires s.For? && WellFormedStmt(env, s) && Fresh(p, NamesOf(s)) && ValidRef(p.h, p.current)
    requires p.toks == PrintStmt(s) + rest
    ensures ParseInto(env, p) == ParseInto(env, p') && p'.toks == rest
    ensures Grown(p, p', [n]) && Stored(p, p', NamesOf(s))
    ensures IsTree(p'.h, n, s, |p.h.cells|, |p'.h.cells|)
    decreases s, 0
  {
    hide ParseInto, PrintStmts;
    var id := |p.h.cells|;
    var end := Tag([Word("endfor")]) + rest;
    assert p.toks == ForTag(s.key, s.value, s.over) + (PrintStmts(s.body) + end);
    var p1 := OpenFor(env, p, s.key, s.value, s.over, PrintStmts(s.body) + end);
    var p2, ns := Run(env, s.body, p1, end);
    RepresentsFrame(p2.h, p2.h, ns, s.body, id + 1, |p2.h.cells|, id, |p2.h.cells|);
    assert p2.h.cells[id] == ForCell(s.key, s.value, Some(s.over), ns, p.current);
    var p3 := p2.(current := p.current, fors := p.fors, toks := rest);
    EndforStep(env, p2, id, rest, p3);
    p', n := p3, ForNode(id);
  }

  lemma {:induction false} RunBlock(env: Environment, s: Stmt, p: Parser, rest: seq<Token>) returns (p': Parser, n: Node)
    requires s.Block? && WellFormedStmt(env, s) && Fresh(p, NamesOf(s)) && ValidRef(p.h, p.current)
    requires p.toks == PrintStmt(s) + rest
    ensures ParseInto(env, p) == ParseInto(env, p') && p'.toks == rest
    ensures Grown(p, p', [n]) && Stored(p, p', NamesOf(s))
    ensures IsTree(p'.h, n, s, |p.h.cells|, |p'.h.cells|)
    decreases s, 0
  {
    hide ParseInto, PrintStmts;
    var id := |p.h.cells|;
    var end := Tag([Word("endblock")]) + rest;
    assert p.toks == Tag([Word("block"), Word(s.name)]) + (PrintStmts(s.inner) + end);
    assert s.name in NamesOf(s);
    var p1 := OpenBlock(env, p, s.name, PrintStmts(s.inner) + end);
    assert Stored(p, p1, [s.name]);
    FreshRight(p, p1, [s.name], Names(s.inner));
    var p2, ns := Run(env, s.inner, p1, end);
    StoredJoin(p, p1, p2, [s.name], Names(s.inner));
    RepresentsFrame(p2.h, p2.h, ns, s.inner, id + 1, |p2.h.cells|, id, |p2.h.cells|);
    assert p2.h.cells[id] == NamedCell(s.name, ns, p.current);
    var p3 := p2.(current := p.current, blocks := p.blocks, toks := [CLOSE] + rest);
    assert ParseEndblock(p2.(toks := [CLOSE] + rest)) == Ok(p3);
    assert ([Word("endblock")] + ([CLOSE] + rest))[1..] == [CLOSE] + rest;
    CloseTag(env, p2, "endblock", rest, p3);
    p', n := p3.(toks := rest), NamedBlockNode(id);
  }

  lemma {:induction false} RunIf(env: Environment, s: Stmt, p: Parser, rest: seq<Token>) returns (p': Parser, n: Node)
    requires s.If? && WellFormedStmt(env, s) && Fresh(p, NamesOf(s)) && ValidRef(p.h, p.current)
    requires p.toks == PrintStmt(s) + rest
    ensures ParseInto(env, p) == ParseInto(env, p') && p'.toks == rest
    ensures Grown(p, p', [n]) && Stored(p, p', NamesOf(s))
    ensures IsTree(p'.h, n, s, |p.h.cells|, |p'.h.cells|)
    decreases s, 0
  {
    hide ParseInto, PrintStmts, PrintElse, IfTag, Fresh, Stored;
    var id := |p.h.cells|;
    var end := Tag([Word("endif")]) + rest;
    var mid := PrintElse(s.els) + end;
    assert p.toks == IfTag(s.cond) + (PrintStmts(s.thn) + mid);
    var p1 := OpenIf(env, p, s.cond, PrintStmts(s.thn) + mid);
    SameStorage(p, p1, NamesOf(s));
    FreshLeft(p1, Names(s.thn), ElseNames(s.els));
    var p2, ns := Run(env, s.thn, p1, mid);
    FreshRight(p1, p2, Names(s.thn), ElseNames(s.els));
    assert p2.h.cells[id] == IfCell(Some(s.cond), ns, [], p.current, false, false);
    var p3, extra := RunElse(env, s.els, p2, id, end);
    StoredJoin(p1, p2, p3, Names(s.thn), ElseNames(s.els));
    RepresentsFrame(p2.h, p3.h, ns, s.thn, id + 1, |p2.h.cells|, id, |p3.h.cells|);
    ElseFrame(p3.h, p3.h, p3.h.cells[id], s.els, |p2.h.cells|, |p3.h.cells|, id, |p3.h.cells|);
    var p4 := p3.(current := p.current, ifs := p.ifs, toks := [CLOSE] + rest);
    EndifStep(env, p3, p.ifs + [id], extra, rest, p4);
    p', n := p4.(toks := rest), IfNode(id);
    StoredTransfer(p1, p3, p, p', NamesOf(s));
  }

  lemma EndifStep(env: Environment, p: Parser, base: seq<nat>, extra: seq<nat>, rest: seq<Token>, q: Parser)
    requires p.toks == Tag([Word("endif")]) + rest && base != [] && p.ifs == base + extra
    requires IsOuterIf(p.h, base[|base| - 1])
    requires forall i <- extra :: ValidRef(p.h, TrueOf(i)) && p.h.cells[i].isNested
    requires q == p.(current := p.h.cells[base[|base| - 1]].parent, ifs := base[..|base| - 1], toks := [CLOSE] + rest)
    ensures ParseInto(env, p) == ParseInto(env, q.(toks := rest))
  {
    PopNestedDrops(p.h, base, extra);
    assert ParseEndif(p.(toks := [CLOSE] + rest)) == Ok(q);
    assert ([Word("endif")] + ([CLOSE] + rest))[1..] == [CLOSE] + rest;
    CloseTag(env, p, "endif", rest, q);
  }

  lemma EndforStep(env: Environment, p: Parser, id: nat, rest: seq<Token>, q: Parser)
    requires p.toks == Tag([Word("endfor")]) + rest && p.fors != [] && p.fors[|p.fors| - 1] == id && ValidRef(p.h, BodyOf(id))
    requires q == p.(current := p.h.cells[id].parent, fors := p.fors[..|p.fors| - 1], toks := rest)
    ensures ParseInto(env, p) == ParseInto(env, q)
  {
    assert ParseEndfor(p.(toks := [CLOSE] + rest)) == Ok(q.(toks := [CLOSE] + rest));
    assert ([Word("endfor")] + ([CLOSE] + rest))[1..] == [CLOSE] + rest;
    CloseTag(env, p, "endfor", rest, q.(toks := [CLOSE] + rest));
  }

  // From p to p': only the false branch of cell `id` was filled, and nested ifs were pushed on its stack.
  ghost predicate Branched(p: Parser, p': Parser, id: nat, extra: seq<nat>)
    requires ValidRef(p.h, FalseOf(id))
  {
    && p'.fors == p.fors && p'.blocks == p.blocks && p'.ifs == p.ifs + extra
    && p'.h.root == p.h.root && |p.h.cells| <= |p'.h.cells|
    && (forall i | 0 <= i < |p.h.cells| && i != id :: p'.h.cells[i] == p.h.cells[i])
    && ValidRef(p'.h, FalseOf(id))
    && p'.h.cells[id] == p.h.cells[id].(hasFalse := p'.h.cells[id].hasFalse, falseStatement := p'.h.cells[id].falseStatement)
    && (forall i <- extra :: ValidRef(p'.h, TrueOf(i)) && p'.h.cells[i].isNested)
  }

  lemma {:induction false} RunElse(env: Environment, els: Else, p: Parser, id: nat, rest: seq<Token>)
    returns (p': Parser, extra: seq<nat>)
    requires WellFormedElse(env, els) && Fresh(p, ElseNames(els)) && p.toks == PrintElse(els) + rest
    requires p.ifs != [] && p.ifs[|p.ifs| - 1] == id && ValidRef(p.h, FalseOf(id))
    requires !p.h.cells[id].hasFalse && p.h.cells[id].falseStatement == []
    ensures ParseInto(env, p) == ParseInto(env, p') && p'.toks == rest
    ensures Branched(p, p', id, extra) && Stored(p, p', ElseNames(els))
    ensures IsElse(p'.h, p'.h.cells[id], els, |p.h.cells|, |p'.h.cells|)
    decreases els, 1
  {
    hide ParseInto, PrintStmts;
    match els
    case NoElse =>
      assert p.toks == rest;
      p', extra := p, [];
    case ElseBlock(ss) =>
      assert p.toks == Tag([Word("else")]) + (PrintStmts(ss) + rest);
      var p1 := OpenElse(env, p, PrintStmts(ss) + rest);
      var ns;
      p', ns := Run(env, ss, p1, rest);
      extra := [];
      assert p'.h.cells[id] == p.h.cells[id].(hasFalse := true, falseStatement := ns);
    case ElseIf(cond, thn, more) =>
      p', extra := RunElseIf(env, els, p, id, rest);
  }

  // What filling the false branch with a nested if and then filling that if amounts to for the outer one.
  lemma ElseIfBranched(p: Parser, p1: Parser, p2: Parser, p': Parser, id: nat, cond: Expr, ns: seq<Node>, more: seq<nat>)
    requires p.ifs != [] && p.ifs[|p.ifs| - 1] == id && ValidRef(p.h, FalseOf(id))
    requires p1 == NewIf(EnterElse(p), cond, true).(toks := p1.toks, lit := p1.lit)
    requires p.h.cells[id].falseStatement == []
    requires Grown(p1, p2, ns) && ValidRef(p2.h, FalseOf(|p.h.cells|)) && Branched(p2, p', |p.h.cells|, more)
    ensures var nid := |p.h.cells|;
            && Branched(p, p', id, [nid] + more) && nid < |p2.h.cells|
            && p2.h.cells[nid] == IfCell(Some(cond), ns, [], FalseOf(id), true, false)
            && p'.h.cells[id].falseStatement == [IfNode(nid)] && p'.h.cells[id].hasFalse
            && p'.h.cells[nid] == p2.h.cells[nid].(hasFalse := p'.h.cells[nid].hasFalse, falseStatement := p'.h.cells[nid].falseStatement)
            && Agree(p2.h, p'.h, nid + 1, |p2.h.cells|, nid, |p'.h.cells|)
  {
    var nid := |p.h.cells|;
    assert p2.h.cells[nid] == IfCell(Some(cond), ns, [], FalseOf(id), true, false);
    assert p2.h.cells[id] == p.h.cells[id].(hasFalse := true, falseStatement := [IfNode(nid)]);
    assert p2.ifs == p.ifs + [nid];
    assert p.ifs + ([nid] + more) == p2.ifs + more;
  }

  lemma NestedStart(p: Parser, p1: Parser, p2: Parser, id: nat, cond: Expr, ns: seq<Node>)
    requires p.ifs != [] && p.ifs[|p.ifs| - 1] == id && ValidRef(p.h, FalseOf(id))
    requires p1 == NewIf(EnterElse(p), cond, true).(toks := p1.toks, lit := p1.lit) && Grown(p1, p2, ns)
    ensures var nid := |p.h.cells|;
            && p2.ifs != [] && p2.ifs[|p2.ifs| - 1] == nid && ValidRef(p2.h, FalseOf(nid))
            && !p2.h.cells[nid].hasFalse && p2.h.cells[nid].falseStatement == []
  {
    assert p2.ifs == p.ifs + [|p.h.cells|];
  }

  lemma {:induction false} RunElseIf(env: Environment, els: Else, p: Parser, id: nat, rest: seq<Token>)
    returns (p': Parser, extra: seq<nat>)
    requires els.ElseIf? && WellFormedElse(env, els) && Fresh(p, ElseNames(els)) && p.toks == PrintElse(els) + rest
    requires p.ifs != [] && p.ifs[|p.ifs| - 1] == id && ValidRef(p.h, FalseOf(id))
    requires !p.h.cells[id].hasFalse && p.h.cells[id].falseStatement == []
    ensures ParseInto(env, p) == ParseInto(env, p') && p'.toks == rest
    ensures Branched(p, p', id, extra) && Stored(p, p', ElseNames(els))
    ensures IsElse(p'.h, p'.h.cells[id], els, |p.h.cells|, |p'.h.cells|)
    decreases els, 0
  {
    hide ParseInto, PrintStmts, ElseIfTag, Grown, Branched, Fresh, Stored;
    var nid := |p.h.cells|;
    var mid := PrintElse(els.els) + rest;
    assert p.toks == ElseIfTag(els.cond) + (PrintStmts(els.thn) + mid);
    var p1 := OpenElseIf(env, p, els.cond, PrintStmts(els.thn) + mid);
    SameStorage(p, p1, ElseNames(els));
    FreshLeft(p1, Names(els.thn), ElseNames(els.els));
    var p2, ns := Run(env, els.thn, p1, mid);
    FreshRight(p1, p2, Names(els.thn), ElseNames(els.els));
    NestedStart(p, p1, p2, id, els.cond, ns);
    var more;
    p', more := RunElse(env, els.els, p2, nid, rest);
    extra := [nid] + more;
    StoredJoin(p1, p2, p', Names(els.thn), ElseNames(els.els));
    StoredTransfer(p1, p', p, p', ElseNames(els));
    ElseIfBranched(p, p1, p2, p', id, els.cond, ns, more);
    RepresentsFrame(p2.h, p'.h, ns, els.thn, nid + 1, |p2.h.cells|, nid, |p'.h.cells|);
    ElseFrame(p'.h, p'.h, p'.h.cells[nid], els.els, |p2.h.cells|, |p'.h.cells|, nid, |p'.h.cells|);
  }

  // Parsing a printed template succeeds, ends in the root block with all three stacks empty, records
  // exactly its named blocks, and leaves under the root that template and no other.
  lemma {:induction false} RoundTrip(env: Environment, ss: seq<Stmt>, lit: seq<Token>)
    requires WellFormed(env, ss) && Distinct(Names(ss))
    ensures var r := ParseInto(env, Start(PrintStmts(ss), lit));
            && r.Ok? && r.value.current == Root && r.value.ifs == r.value.fors == r.value.blocks == []
            && (forall n :: n in r.value.storage <==> n in Names(ss))
            && Represents(r.value.h, r.value.h.root, ss, 0, |r.value.h.cells|)
            && (forall tt | Represents(r.value.h, r.value.h.root, tt, 0, |r.value.h.cells|) :: tt == ss)
  {
    var p := Start(PrintStmts(ss), lit);
    assert PrintStmts(ss) + [] == PrintStmts(ss);
    var p', ns := Run(env, ss, p, []);
    assert ParseInto(env, p') == Ok(p');
    assert p'.h.root == ns;
    forall tt | Represents(p'.h, ns, tt, 0, |p'.h.cells|) ensures tt == ss {
      RepresentsUnique(p'.h, ns, tt, ss, 0, |p'.h.cells|);
    }
  }
}
