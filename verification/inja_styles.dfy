// The ways to write a template: every tag as a statement tag or as a line statement, comments anywhere between them, the
// last line statement closed by the end of the input. What is parsed depends on the items alone.
module InjaStyles {
  import opened Wrappers
  import opened InjaSyntax
  import opened InjaStatement
  import R = InjaReading
  import T = InjaTemplate
  import X = InjaExpression

  // ---------------------------------------------------------------- items

  // A tag without what opens and closes it.
  datatype Body =
    | IfBody(cond: Expr) | ElseBody | ElseIfBody(cond: Expr) | EndifBody
    | ForBody(key: Option<string>, value: string, over: Expr) | EndforBody
    | BlockBody(name: string) | EndblockBody
    | SetBody(target: string, source: Expr) | IncludeBody(file: string) | ExtendsBody(file: string)

  datatype Item = TextItem(text: string) | OutputItem(expr: Expr) | TagItem(body: Body)

  function Word(w: string): Token { Token(Id, w) }

  function Quoted(file: string): Token { Token(String, "\"" + file + "\"") }

  function BodyTokens(b: Body): seq<Token> {
    match b
    case IfBody(cond) => [Word("if")] + X.Print(cond, 0)
    case ElseBody => [Word("else")]
    case ElseIfBody(cond) => [Word("else"), Word("if")] + X.Print(cond, 0)
    case EndifBody => [Word("endif")]
    case ForBody(key, value, over) =>
      [Word("for")] + (if key.Some? then [Word(key.value), Token(Comma, ",")] else []) + [Word(value), Word("in")] + X.Print(over, 0)
    case EndforBody => [Word("endfor")]
    case BlockBody(name) => [Word("block"), Word(name)]
    case EndblockBody => [Word("endblock")]
    case SetBody(target, value) => [Word("set"), Word(target), Token(Unknown, "=")] + X.Print(value, 0)
    case IncludeBody(file) => [Word("include"), Quoted(file)]
    case ExtendsBody(file) => [Word("extends"), Quoted(file)]
  }

  // How an item is written: as a line statement or a statement tag, with what delimiters, after what comments.
  datatype Written = Written(item: Item, line: bool, open: string, close: string, comments: seq<(string, string)>)

  function Comments(cs: seq<(string, string)>): seq<Token> {
    if cs == [] then [] else [Token(CommentOpen, cs[0].0), Token(CommentClose, cs[0].1)] + Comments(cs[1..])
  }

  function Opening(w: Written): Token { Token(if w.line then LineStatementOpen else StatementOpen, w.open) }

  function Closing(w: Written): Token { Token(if w.line then LineStatementClose else StatementClose, w.close) }

  function ItemTokens(w: Written): seq<Token> {
    match w.item
    case TextItem(text) => [Token(Kind.Text, text)]
    case OutputItem(e) => [Token(ExpressionOpen, w.open)] + (X.Print(e, 0) + [Token(ExpressionClose, w.close)])
    case TagItem(b) => [Opening(w)] + (BodyTokens(b) + [Closing(w)])
  }

  function Tokens(ws: seq<Written>): seq<Token> {
    if ws == [] then [] else Comments(ws[0].comments) + (ItemTokens(ws[0]) + Tokens(ws[1..]))
  }

  function Items(ws: seq<Written>): (r: seq<Item>)
    ensures |r| == |ws|
  {
    seq(|ws|, i requires 0 <= i < |ws| => ws[i].item)
  }

  // ---------------------------------------------------------------- what an item does

  ghost predicate FitsBody(env: Environment, b: Body) {
    match b
    case IfBody(e) => X.Printable(env.expr, e)
    case ElseIfBody(e) => X.Printable(env.expr, e)
    case ForBody(_, _, e) => X.Printable(env.expr, e)
    case SetBody(_, e) => X.Printable(env.expr, e)
    case _ => true
  }

  ghost predicate FitsItem(env: Environment, item: Item) {
    match item
    case TextItem(_) => true
    case OutputItem(e) => X.Printable(env.expr, e)
    case TagItem(b) => FitsBody(env, b)
  }

  function OnElse(p: Parser): StatementResult<Parser> {
    if p.ifs == [] then Err(ElseWithoutIf)
    else if !ValidRef(p.h, FalseOf(p.ifs[|p.ifs| - 1])) then Err(Undefined)
    else Ok(T.EnterElse(p))
  }

  function OnFile(env: Environment, p: Parser, file: string, isExtends: bool): StatementResult<Parser> {
    match env.load(file)
    case None => Err(FileFailed)
    case Some(name) => Ok(AddNode(p, if isExtends then ExtendsNode(name) else IncludeNode(name)))
  }

  // The effect of a tag on the parser, whatever closes it.
  function OnBody(env: Environment, p: Parser, b: Body): StatementResult<Parser> {
    match b
    case IfBody(cond) => Ok(T.NewIf(p, cond, false))
    case ElseBody => OnElse(p)
    case ElseIfBody(cond) => if OnElse(p).Err? then OnElse(p) else Ok(T.NewIf(OnElse(p).value, cond, true))
    case EndifBody => ParseEndif(p)
    case ForBody(key, value, over) => Ok(T.NewFor(p, key, value, over))
    case EndforBody => ParseEndfor(p)
    case BlockBody(name) => if name in p.storage then Err(DuplicateBlock) else Ok(T.NewBlock(p, name))
    case EndblockBody => ParseEndblock(p)
    case SetBody(target, value) => Ok(AddNode(p, SetNode(target, Some(value))))
    case IncludeBody(file) => OnFile(env, p, file, false)
    case ExtendsBody(file) => OnFile(env, p, file, true)
  }

  function OnItem(env: Environment, p: Parser, item: Item): StatementResult<Parser> {
    match item
    case TextItem(text) => Ok(AddNode(p, TextNode(text)))
    case OutputItem(e) => Ok(AddNode(p, ExpressionNode(Some(e))))
    case TagItem(b) => OnBody(env, p, b)
  }

  function OnItems(env: Environment, p: Parser, items: seq<Item>): StatementResult<Parser>
    decreases |items|
  {
    if items == [] then Ok(p)
    else
      var r := OnItem(env, p, items[0]);
      if r.Err? then r else OnItems(env, r.value, items[1..])
  }

  // The parser after r, at other tokens.
  function Moved(r: StatementResult<Parser>, toks: seq<Token>, lit: seq<Token>): StatementResult<Parser> {
    if r.Err? then r else Ok(r.value.(toks := toks, lit := lit))
  }

  // Items do not look at the tokens that are left.
  lemma OnBodyMoved(env: Environment, p: Parser, b: Body, toks: seq<Token>, lit: seq<Token>)
    ensures OnBody(env, p.(toks := toks, lit := lit), b) == Moved(OnBody(env, p, b), toks, lit)
  {
    hide Append, PopNested;
  }

  lemma OnItemMoved(env: Environment, p: Parser, item: Item, toks: seq<Token>, lit: seq<Token>)
    ensures OnItem(env, p.(toks := toks, lit := lit), item) == Moved(OnItem(env, p, item), toks, lit)
  {
    hide Append, OnBody;
    if item.TagItem? { OnBodyMoved(env, p, item.body, toks, lit); }
  }

  lemma {:induction false} OnItemsMoved(env: Environment, p: Parser, items: seq<Item>, toks: seq<Token>, lit: seq<Token>)
    ensures OnItems(env, p.(toks := toks, lit := lit), items) == Moved(OnItems(env, p, items), toks, lit)
    decreases |items|
  {
    hide OnItem;
    if items != [] {
      OnItemMoved(env, p, items[0], toks, lit);
      var r := OnItem(env, p, items[0]);
      if r.Ok? { OnItemsMoved(env, r.value, items[1..], toks, lit); }
    }
  }

  // ---------------------------------------------------------------- reading a tag

  predicate Closes(t: Token) { t.kind.StatementClose? || t.kind.LineStatementClose? }

  // A body followed by a close of the kind that is asked for.
  ghost predicate At(p: Parser, body: seq<Token>, close: Token, rest: seq<Token>) {
    p.toks == body + ([close] + rest) && Closes(close)
  }

  lemma IfParsed(env: Environment, p: Parser, e: Expr, close: Token, rest: seq<Token>, nested: bool) returns (lit: seq<Token>)
    requires X.Printable(env.expr, e) && At(p, X.Print(e, 0), close, rest)
    ensures ParseIf(env, p, close.kind, nested) == Ok(T.NewIf(p, e, nested).(toks := [close] + rest, lit := lit))
  {
    hide X.Print, Condition, Append;
    var c := T.ConditionRead(env, p, e, close.kind, [close] + rest);
    lit := c.lit;
  }

  lemma ElseParsed(env: Environment, p: Parser, close: Token, rest: seq<Token>)
    requires At(p, [], close, rest)
    ensures ParseElse(env, p, close.kind) == Moved(OnElse(p), [close] + rest, p.lit)
  {
    assert p.toks == [close] + rest;
  }

  lemma ElseIfParsed(env: Environment, p: Parser, e: Expr, close: Token, rest: seq<Token>) returns (lit: seq<Token>)
    requires X.Printable(env.expr, e) && At(p, [Word("if")] + X.Print(e, 0), close, rest)
    ensures ParseElse(env, p, close.kind) == Moved(OnBody(env, p, ElseIfBody(e)), [close] + rest, lit)
  {
    hide X.Print, ParseIf, Append;
    lit := [];
    assert p.toks[1..] == X.Print(e, 0) + ([close] + rest);
    if OnElse(p).Ok? {
      lit := IfParsed(env, Advance(T.EnterElse(p)), e, close, rest, true);
    }
  }

  lemma ForInParsed(env: Environment, p: Parser, key: Option<string>, value: string, e: Expr, close: Token, rest: seq<Token>)
    returns (lit: seq<Token>)
    requires X.Printable(env.expr, e) && At(p, [Word("in")] + X.Print(e, 0), close, rest)
    ensures ParseForIn(env, p, close.kind, key, value) == Ok(T.NewFor(p, key, value, e).(toks := [close] + rest, lit := lit))
  {
    hide X.Print, Condition, Append;
    assert p.toks[1..] == X.Print(e, 0) + ([close] + rest);
    var c := T.ConditionRead(env, Advance(p), e, close.kind, [close] + rest);
    lit := c.lit;
  }

  // The variables of a loop, up to the word `in`.
  lemma ForVarsParsed(env: Environment, p: Parser, key: Option<string>, value: string, atIn: seq<Token>, closing: Kind)
    requires p.toks == T.ForVars(key) + ([Word(value)] + atIn) && atIn != [] && !atIn[0].kind.Comma?
    ensures ParseFor(env, p, closing) == ParseForIn(env, p.(toks := atIn), closing, key, value)
  {
    hide ParseForIn;
    var named := [Word(value)] + atIn;
    assert named[1..] == atIn;
    if key.Some? {
      var comma := [Token(Comma, ",")] + named;
      assert p.toks == [Word(key.value)] + comma;
      assert p.toks[1..] == comma && comma[1..] == named;
    } else {
      assert p.toks == named;
    }
  }

  // The tokens of a loop tag after its keyword, and what follows it.
  lemma ForTokens(b: Body, rest: seq<Token>)
    requires b.ForBody?
    ensures BodyTokens(b)[1..] + rest == T.ForVars(b.key) + ([Word(b.value)] + ([Word("in")] + (X.Print(b.over, 0) + rest)))
  {
    hide X.Print;
    assert BodyTokens(b) == [Word("for")] + (T.ForVars(b.key) + ([Word(b.value)] + ([Word("in")] + X.Print(b.over, 0))));
  }

  lemma ForParsed(env: Environment, p: Parser, b: Body, close: Token, rest: seq<Token>) returns (lit: seq<Token>)
    requires b.ForBody? && FitsBody(env, b) && At(p, BodyTokens(b)[1..], close, rest)
    ensures ParseFor(env, p, close.kind) == Ok(T.NewFor(p, b.key, b.value, b.over).(toks := [close] + rest, lit := lit))
  {
    hide X.Print, ParseForIn, ParseFor, Append, BodyTokens, T.ForVars;
    var atIn := [Word("in")] + (X.Print(b.over, 0) + ([close] + rest));
    ForTokens(b, [close] + rest);
    assert atIn == [Word("in")] + X.Print(b.over, 0) + ([close] + rest);
    ForVarsParsed(env, p, b.key, b.value, atIn, close.kind);
    lit := ForInParsed(env, p.(toks := atIn), b.key, b.value, b.over, close, rest);
  }

  lemma SetParsed(env: Environment, p: Parser, target: string, e: Expr, close: Token, rest: seq<Token>) returns (lit: seq<Token>)
    requires X.Printable(env.expr, e) && At(p, [Word(target), Token(Unknown, "=")] + X.Print(e, 0), close, rest)
    ensures ParseSet(env, p, close.kind) == Ok(AddNode(p, SetNode(target, Some(e))).(toks := [close] + rest, lit := lit))
  {
    hide X.Print, Condition, Append;
    var tail := X.Print(e, 0) + ([close] + rest);
    assert p.toks[1..] == [Token(Unknown, "=")] + tail;
    assert p.toks[1..][1..] == tail;
    var c := T.ConditionRead(env, Advance(Advance(p)), e, close.kind, [close] + rest);
    lit := c.lit;
  }

  lemma FileParsed(env: Environment, p: Parser, file: string, isExtends: bool, close: Token, rest: seq<Token>)
    requires At(p, [Quoted(file)], close, rest)
    ensures ParseFileNode(env, p, isExtends) == Moved(OnFile(env, p, file, isExtends), [close] + rest, p.lit)
  {
    hide Append;
    assert Quoted(file).text[1..|Quoted(file).text| - 1] == file;
    assert p.toks[1..] == [close] + rest;
  }

  lemma BlockParsed(p: Parser, name: string, close: Token, rest: seq<Token>)
    requires At(p, [Word(name)], close, rest)
    ensures ParseBlock(p) == if name in p.storage then Err(DuplicateBlock) else Ok(T.NewBlock(p, name).(toks := [close] + rest))
  {
    hide Append;
    assert p.toks[1..] == [close] + rest;
  }

  function KeywordOfBody(b: Body): Keyword {
    match b
    case IfBody(_) => KwIf
    case ElseBody => KwElse
    case ElseIfBody(_) => KwElse
    case EndifBody => KwEndif
    case ForBody(_, _, _) => KwFor
    case EndforBody => KwEndfor
    case BlockBody(_) => KwBlock
    case EndblockBody => KwEndblock
    case SetBody(_, _) => KwSet
    case IncludeBody(_) => KwInclude
    case ExtendsBody(_) => KwExtends
  }

  // What follows the keyword.
  lemma AfterKeyword(p: Parser, b: Body, close: Token, rest: seq<Token>)
    requires At(p, BodyTokens(b), close, rest)
    ensures KeywordOf(First(p.toks)) == KeywordOfBody(b) && At(Advance(p), BodyTokens(b)[1..], close, rest)
  {
    hide X.Print;
    assert p.toks[0] == BodyTokens(b)[0];
    assert p.toks[1..] == BodyTokens(b)[1..] + ([close] + rest);
  }

  // Tags that are one word.
  lemma WordParsed(env: Environment, p: Parser, b: Body, close: Token, rest: seq<Token>)
    requires At(Advance(p), BodyTokens(b)[1..], close, rest) && KeywordOf(First(p.toks)) == KeywordOfBody(b)
    requires b.ElseBody? || b.EndifBody? || b.EndforBody? || b.EndblockBody?
    ensures ParseStatement(env, p, close.kind) == Moved(OnBody(env, p, b), [close] + rest, p.lit)
  {
    hide ParseElse, ParseEndif, ParseEndfor, ParseEndblock, OnElse, KeywordOf;
    var q := Advance(p);
    OnBodyMoved(env, p, b, q.toks, p.lit);
    assert q.toks == [close] + rest by { assert [] + ([close] + rest) == [close] + rest; }
    if b.ElseBody? { ElseParsed(env, q, close, rest); }
  }

  lemma TailParsed(env: Environment, p: Parser, b: Body, close: Token, rest: seq<Token>) returns (lit: seq<Token>)
    requires At(Advance(p), BodyTokens(b)[1..], close, rest) && KeywordOf(First(p.toks)) == KeywordOfBody(b)
    requires FitsBody(env, b) && (b.IfBody? || b.ElseIfBody? || b.SetBody? || b.IncludeBody? || b.ExtendsBody? || b.BlockBody?)
    ensures ParseStatement(env, p, close.kind) == Moved(OnBody(env, p, b), [close] + rest, lit)
  {
    hide X.Print, X.Printable, ParseIf, ParseElse, ParseSet, ParseFileNode, ParseBlock, OnElse, OnFile, KeywordOf, Append;
    lit := p.lit;
    var q, after := Advance(p), BodyTokens(b)[1..];
    OnBodyMoved(env, p, b, q.toks, p.lit);
    match b
    case IfBody(e) =>
      assert after == X.Print(e, 0);
      lit := IfParsed(env, q, e, close, rest, false);
    case ElseIfBody(e) =>
      assert after == [Word("if")] + X.Print(e, 0);
      lit := ElseIfParsed(env, q, e, close, rest);
    case BlockBody(name) =>
      assert after == [Word(name)];
      BlockParsed(q, name, close, rest);
    case SetBody(target, e) =>
      assert after == [Word(target), Token(Unknown, "=")] + X.Print(e, 0);
      lit := SetParsed(env, q, target, e, close, rest);
    case IncludeBody(file) =>
      assert after == [Quoted(file)];
      FileParsed(env, q, file, false, close, rest);
    case ExtendsBody(file) =>
      assert after == [Quoted(file)];
      FileParsed(env, q, file, true, close, rest);
  }

  lemma BodyParsed(env: Environment, p: Parser, b: Body, close: Token, rest: seq<Token>) returns (lit: seq<Token>)
    requires FitsBody(env, b) && At(p, BodyTokens(b), close, rest)
    ensures ParseStatement(env, p, close.kind) == Moved(OnBody(env, p, b), [close] + rest, lit)
  {
    AfterKeyword(p, b, close, rest);
    hide KeywordOf, BodyTokens, ParseFor, X.Printable, Append;
    match b
    case ForBody(_, _, _) =>
      lit := ForParsed(env, Advance(p), b, close, rest);
    case IfBody(_) => lit := TailParsed(env, p, b, close, rest);
    case ElseIfBody(_) => lit := TailParsed(env, p, b, close, rest);
    case SetBody(_, _) => lit := TailParsed(env, p, b, close, rest);
    case BlockBody(_) => lit := TailParsed(env, p, b, close, rest);
    case IncludeBody(_) => lit := TailParsed(env, p, b, close, rest);
    case ExtendsBody(_) => lit := TailParsed(env, p, b, close, rest);
    case _ =>
      lit := p.lit;
      WordParsed(env, p, b, close, rest);
  }

  // ---------------------------------------------------------------- reading items

  // What is parsed of the rest, from what an item has left.
  function Onward(env: Environment, r: StatementResult<Parser>, rest: seq<Token>, lit: seq<Token>): StatementResult<Parser> {
    if r.Err? then r else ParseInto(env, r.value.(toks := rest, lit := lit))
  }

  lemma TagRead(env: Environment, p: Parser, w: Written, b: Body, rest: seq<Token>) returns (lit: seq<Token>)
    requires w.item == TagItem(b) && FitsBody(env, b) && p.toks == ItemTokens(w) + rest
    ensures ParseInto(env, p) == Onward(env, OnBody(env, p, b), rest, lit)
  {
    hide BodyTokens, ParseStatement, OnBody;
    var q, close := Advance(p), Closing(w);
    assert p.toks[1..] == BodyTokens(b) + ([close] + rest);
    OnBodyMoved(env, p, b, q.toks, p.lit);
    lit := BodyParsed(env, q, b, close, rest);
    assert ([close] + rest)[1..] == rest;
    var r := OnBody(env, p, b);
    assert Step(env, p) == if r.Err? then r else Ok(r.value.(toks := rest, lit := lit));
  }

  lemma OutputRead(env: Environment, p: Parser, w: Written, e: Expr, rest: seq<Token>) returns (lit: seq<Token>)
    requires w.item == OutputItem(e) && X.Printable(env.expr, e) && p.toks == ItemTokens(w) + rest
    ensures ParseInto(env, p) == Onward(env, OnItem(env, p, w.item), rest, lit)
  {
    hide X.Print, X.ParseExpr, Append;
    var tail := [Token(ExpressionClose, w.close)] + rest;
    assert p.toks[1..] == X.Print(e, 0) + tail;
    X.RoundTrip(env.expr, e, tail, p.lit);
    assert tail[1..] == rest;
    lit := X.ParseExpr(env.expr, p.toks[1..], p.lit).value.lit;
    assert Step(env, p) == Ok(AddNode(p, ExpressionNode(Some(e))).(toks := rest, lit := lit));
  }

  lemma ItemRead(env: Environment, p: Parser, w: Written, rest: seq<Token>) returns (lit: seq<Token>)
    requires FitsItem(env, w.item) && p.toks == ItemTokens(w) + rest
    ensures ParseInto(env, p) == Onward(env, OnItem(env, p, w.item), rest, lit)
  {
    match w.item
    case TextItem(text) =>
      hide Append;
      lit := p.lit;
      assert p.toks[1..] == rest;
      assert Step(env, p) == Ok(AddNode(p, TextNode(text)).(toks := rest));
    case OutputItem(e) => lit := OutputRead(env, p, w, e, rest);
    case TagItem(b) => lit := TagRead(env, p, w, b, rest);
  }

  // Comments leave nothing behind.
  lemma {:induction false} CommentsRead(env: Environment, p: Parser, cs: seq<(string, string)>, rest: seq<Token>)
    requires p.toks == Comments(cs) + rest
    ensures ParseInto(env, p) == ParseInto(env, p.(toks := rest))
    decreases |cs|
  {
    if cs == [] {
      assert p.toks == rest;
    } else {
      var more := Comments(cs[1..]) + rest;
      assert p.toks[1..] == [Token(CommentClose, cs[0].1)] + more;
      assert p.toks[1..][1..] == more;
      assert Step(env, p) == Ok(p.(toks := more));
      CommentsRead(env, p.(toks := more), cs[1..], rest);
    }
  }

  lemma {:induction false} ItemsRead(env: Environment, p: Parser, ws: seq<Written>, rest: seq<Token>) returns (lit: seq<Token>)
    requires (forall w <- ws :: FitsItem(env, w.item)) && p.toks == Tokens(ws) + rest
    ensures ParseInto(env, p) == Onward(env, OnItems(env, p, Items(ws)), rest, lit)
    decreases |ws|
  {
    hide ItemTokens, OnItem, FitsItem, ParseInto;
    if ws == [] {
      lit := p.lit;
      assert p.toks == rest && Items(ws) == [];
    } else {
      var w, more := ws[0], Tokens(ws[1..]) + rest;
      assert w in ws;
      assert p.toks == Comments(w.comments) + (ItemTokens(w) + more);
      CommentsRead(env, p, w.comments, ItemTokens(w) + more);
      var q := p.(toks := ItemTokens(w) + more);
      lit := ItemRead(env, q, w, more);
      OnItemMoved(env, p, w.item, q.toks, p.lit);
      var r := OnItem(env, p, w.item);
      assert Items(ws)[1..] == Items(ws[1..]) && Items(ws)[0] == w.item;
      if r.Ok? {
        OnItemMoved(env, p, w.item, q.toks, p.lit);
        var t := r.value.(toks := more, lit := lit);
        OnItemsMoved(env, r.value, Items(ws[1..]), more, lit);
        lit := ItemsRead(env, t, ws[1..], rest);
      }
    }
  }

  // ---------------------------------------------------------------- the end of the input

  // The whole outcome of parsing: what the items do, and that no if and no loop is left open.
  function Outcome(env: Environment, items: seq<Item>): StatementResult<Parser> {
    var r := OnItems(env, Start([], []), items);
    if r.Err? then r
    else if r.value.ifs != [] then Err(UnmatchedIf)
    else if r.value.fors != [] then Err(UnmatchedFor)
    else r
  }

  // However its items are written, a template is parsed to what they do: as statement tags or line statements, with any
  // delimiters, and comments before, between and after them.
  lemma ParsedByItems(env: Environment, ws: seq<Written>, last: seq<(string, string)>, lit: seq<Token>) returns (lit': seq<Token>)
    requires forall w <- ws :: FitsItem(env, w.item)
    ensures ParseInto(env, Start(Tokens(ws) + Comments(last), lit)) == Moved(Outcome(env, Items(ws)), [], lit')
  {
    hide FitsItem, Tokens, OnItems;
    var p := Start(Tokens(ws) + Comments(last), lit);
    OnItemsMoved(env, Start([], []), Items(ws), p.toks, lit);
    lit' := ItemsRead(env, p, ws, Comments(last));
    var r := OnItems(env, Start([], []), Items(ws));
    if r.Ok? {
      var q := r.value.(toks := Comments(last), lit := lit');
      assert q.toks == Comments(last) + [];
      CommentsRead(env, q, last, []);
    }
  }

  predicate EndsInExpression(b: Body) { b.IfBody? || b.ElseIfBody? || b.ForBody? || b.SetBody? }

  // A line statement that nothing closes.
  function OpenEnd(open: string, b: Body): seq<Token> { [Token(LineStatementOpen, open)] + BodyTokens(b) }

  // An expression with nothing after it is followed by the end of the input, not by what closes its tag.
  lemma ConditionUnclosed(env: Environment, p: Parser, e: Expr)
    requires X.Printable(env.expr, e) && p.toks == X.Print(e, 0)
    ensures Condition(env, p, LineStatementClose) == Err(ExpectedStatement)
  {
    hide X.Print;
    assert X.Print(e, 0) + [] == X.Print(e, 0);
    X.RoundTrip(env.expr, e, [], p.lit);
  }

  lemma ForInUnclosed(env: Environment, p: Parser, e: Expr, key: Option<string>, value: string)
    requires X.Printable(env.expr, e) && p.toks == [Word("in")] + X.Print(e, 0)
    ensures ParseForIn(env, p, LineStatementClose, key, value) == Err(ExpectedStatement)
  {
    hide X.Print, Condition, Append;
    assert p.toks[1..] == X.Print(e, 0);
    ConditionUnclosed(env, Advance(p), e);
  }

  lemma ForUnclosed(env: Environment, p: Parser, b: Body)
    requires b.ForBody? && FitsBody(env, b) && p.toks == BodyTokens(b)[1..]
    ensures ParseFor(env, p, LineStatementClose) == Err(ExpectedStatement)
  {
    hide X.Print, ParseForIn, ParseFor, BodyTokens, T.ForVars;
    var atIn := [Word("in")] + (X.Print(b.over, 0) + []);
    ForTokens(b, []);
    assert p.toks + [] == p.toks && X.Print(b.over, 0) + [] == X.Print(b.over, 0);
    ForVarsParsed(env, p, b.key, b.value, atIn, LineStatementClose);
    ForInUnclosed(env, p.(toks := atIn), b.over, b.key, b.value);
  }

  lemma ElseIfUnclosed(env: Environment, p: Parser, e: Expr)
    requires X.Printable(env.expr, e) && p.toks == [Word("if")] + X.Print(e, 0)
    ensures ParseElse(env, p, LineStatementClose) == if OnElse(p).Err? then OnElse(p) else Err(ExpectedStatement)
  {
    hide X.Print, Condition, Append;
    assert p.toks[1..] == X.Print(e, 0);
    if OnElse(p).Ok? { ConditionUnclosed(env, Advance(T.EnterElse(p)), e); }
  }

  lemma SetUnclosed(env: Environment, p: Parser, target: string, e: Expr)
    requires X.Printable(env.expr, e) && p.toks == [Word(target), Token(Unknown, "=")] + X.Print(e, 0)
    ensures ParseSet(env, p, LineStatementClose) == Err(ExpectedStatement)
  {
    hide X.Print, Condition, Append;
    assert p.toks[1..] == [Token(Unknown, "=")] + X.Print(e, 0);
    assert p.toks[1..][1..] == X.Print(e, 0);
    ConditionUnclosed(env, Advance(Advance(p)), e);
  }

  lemma ExpressionUnclosed(env: Environment, p: Parser, b: Body)
    requires FitsBody(env, b) && EndsInExpression(b) && p.toks == BodyTokens(b)
    ensures ParseStatement(env, p, LineStatementClose) ==
            if OnBody(env, p, b).Err? then OnBody(env, p, b) else Err(ExpectedStatement)
  {
    hide X.Print, X.Printable, ParseElse, ParseFor, ParseSet, Condition, Append, OnElse;
    var q, after := Advance(p), BodyTokens(b)[1..];
    assert q.toks == after;
    OnBodyMoved(env, p, b, q.toks, p.lit);
    match b
    case IfBody(e) =>
      assert after == X.Print(e, 0);
      ConditionUnclosed(env, q, e);
    case ElseIfBody(e) =>
      assert after == [Word("if")] + X.Print(e, 0);
      ElseIfUnclosed(env, q, e);
    case ForBody(_, _, _) => ForUnclosed(env, q, b);
    case SetBody(target, e) =>
      assert after == [Word(target), Token(Unknown, "=")] + X.Print(e, 0);
      SetUnclosed(env, q, target, e);
  }

  lemma WordsUnclosed(env: Environment, p: Parser, b: Body)
    requires !EndsInExpression(b) && p.toks == BodyTokens(b)
    ensures ParseStatement(env, p, LineStatementClose) == Moved(OnBody(env, p, b), [], p.lit)
  {
    hide ParseEndif, ParseEndfor, ParseEndblock, Append;
    var q := Advance(p);
    OnBodyMoved(env, p, b, q.toks, p.lit);
    match b
    case BlockBody(name) => assert q.toks == [Word(name)] && q.toks[1..] == [];
    case IncludeBody(file) =>
      assert q.toks == [Quoted(file)] && q.toks[1..] == [];
      assert Quoted(file).text[1..|Quoted(file).text| - 1] == file;
    case ExtendsBody(file) =>
      assert q.toks == [Quoted(file)] && q.toks[1..] == [];
      assert Quoted(file).text[1..|Quoted(file).text| - 1] == file;
    case ElseBody => assert q.toks == [];
    case EndifBody => assert q.toks == [];
    case EndforBody => assert q.toks == [];
    case EndblockBody => assert q.toks == [];
  }

  // A last line statement that only the end of the input closes does what it says, unless it ends in an expression: then
  // the template is rejected.
  lemma OpenEndRead(env: Environment, p: Parser, open: string, b: Body)
    requires FitsBody(env, b) && p.toks == OpenEnd(open, b)
    ensures ParseInto(env, p) ==
            if OnBody(env, p, b).Ok? && EndsInExpression(b) then Err(ExpectedStatement) else Onward(env, OnBody(env, p, b), [], p.lit)
  {
    hide BodyTokens, OnBody, ParseStatement;
    var q := Advance(p);
    assert p.toks[1..] == BodyTokens(b);
    OnBodyMoved(env, p, b, q.toks, p.lit);
    var r := OnBody(env, p, b);
    if EndsInExpression(b) {
      ExpressionUnclosed(env, q, b);
      assert Step(env, p) == if r.Err? then r else Err(ExpectedStatement);
    } else {
      WordsUnclosed(env, q, b);
      assert Step(env, p) == Moved(r, [], p.lit);
    }
  }

  lemma OnItemsPlus(env: Environment, p: Parser, items: seq<Item>, item: Item)
    ensures OnItems(env, p, items + [item]) ==
            var r := OnItems(env, p, items); if r.Err? then r else OnItem(env, r.value, item)
    decreases |items|
  {
    hide OnItem;
    if items == [] {
      assert items + [item] == [item];
      assert OnItems(env, p, [item]) == OnItem(env, p, item);
    } else {
      assert (items + [item])[1..] == items[1..] + [item];
      var r := OnItem(env, p, items[0]);
      if r.Ok? { OnItemsPlus(env, r.value, items[1..], item); }
    }
  }

  // The same for a whole template: without the last close it is parsed as with it, or, ending in an expression, rejected.
  lemma ParsedWithOpenEnd(env: Environment, ws: seq<Written>, open: string, b: Body, lit: seq<Token>) returns (lit': seq<Token>)
    requires (forall w <- ws :: FitsItem(env, w.item)) && FitsBody(env, b)
    ensures var items := Items(ws) + [TagItem(b)];
            ParseInto(env, Start(Tokens(ws) + OpenEnd(open, b), lit)) ==
            if OnItems(env, Start([], []), items).Ok? && EndsInExpression(b) then Err(ExpectedStatement)
            else Moved(Outcome(env, items), [], lit')
  {
    hide FitsItem, Tokens, OnItems, OpenEnd, OnBody, BodyTokens;
    var p := Start(Tokens(ws) + OpenEnd(open, b), lit);
    OnItemsMoved(env, Start([], []), Items(ws), p.toks, lit);
    lit' := ItemsRead(env, p, ws, OpenEnd(open, b));
    OnItemsPlus(env, Start([], []), Items(ws), TagItem(b));
    var r := OnItems(env, Start([], []), Items(ws));
    if r.Ok? {
      OpenEndRead(env, r.value.(toks := OpenEnd(open, b), lit := lit'), open, b);
      OnBodyMoved(env, r.value, b, OpenEnd(open, b), lit');
    }
  }

  // ---------------------------------------------------------------- trees

  function StmtsItems(ss: seq<T.Stmt>): seq<Item>
    decreases ss, 0
  {
    if ss == [] then [] else StmtItems(ss[0]) + StmtsItems(ss[1..])
  }

  function StmtItems(s: T.Stmt): seq<Item>
    decreases s, 1
  {
    match s
    case Text(text) => [TextItem(text)]
    case Output(e) => [OutputItem(e)]
    case If(cond, thn, els) => [TagItem(IfBody(cond))] + StmtsItems(thn) + ElseItems(els) + [TagItem(EndifBody)]
    case For(key, value, over, body) => [TagItem(ForBody(key, value, over))] + StmtsItems(body) + [TagItem(EndforBody)]
    case Block(name, inner) => [TagItem(BlockBody(name))] + StmtsItems(inner) + [TagItem(EndblockBody)]
    case Set(target, e) => [TagItem(SetBody(target, e))]
    case Include(file) => [TagItem(IncludeBody(file))]
    case Extends(file) => [TagItem(ExtendsBody(file))]
  }

  function ElseItems(els: T.Else): seq<Item>
    decreases els, 0
  {
    match els
    case NoElse => []
    case ElseBlock(ss) => [TagItem(ElseBody)] + StmtsItems(ss)
    case ElseIf(cond, thn, more) => [TagItem(ElseIfBody(cond))] + StmtsItems(thn) + ElseItems(more)
  }

  // The way trees are printed: statement tags and no comments.
  function Plain(item: Item): Written {
    if item.OutputItem? then Written(item, false, "{{", "}}", []) else Written(item, false, "{%", "%}", [])
  }

  function Plainly(items: seq<Item>): (ws: seq<Written>)
    ensures |ws| == |items| && forall i :: 0 <= i < |items| ==> ws[i] == Plain(items[i])
  {
    seq(|items|, i requires 0 <= i < |items| => Plain(items[i]))
  }

  function PlainTokens(items: seq<Item>): seq<Token> {
    if items == [] then [] else ItemTokens(Plain(items[0])) + PlainTokens(items[1..])
  }

  lemma {:induction false} PlainlyTokens(items: seq<Item>)
    ensures Tokens(Plainly(items)) == PlainTokens(items) && Items(Plainly(items)) == items
    decreases |items|
  {
    hide ItemTokens;
    if items != [] {
      PlainlyTokens(items[1..]);
      assert Plainly(items)[1..] == Plainly(items[1..]);
      assert Comments([]) + (ItemTokens(Plain(items[0])) + PlainTokens(items[1..])) == PlainTokens(items);
    }
  }

  lemma {:induction false} PlainJoin(a: seq<Item>, b: seq<Item>)
    ensures PlainTokens(a + b) == PlainTokens(a) + PlainTokens(b)
    decreases |a|
  {
    hide ItemTokens;
    if a == [] {
      assert a + b == b;
    } else {
      PlainJoin(a[1..], b);
      assert (a + b)[1..] == a[1..] + b;
    }
  }

  lemma OnePlain(item: Item)
    ensures PlainTokens([item]) == ItemTokens(Plain(item))
  {
    assert [item][1..] == [] && PlainTokens([]) == [];
  }

  lemma {:induction false} StmtsPrinted(ss: seq<T.Stmt>)
    ensures PlainTokens(StmtsItems(ss)) == T.PrintStmts(ss)
    decreases ss, 0
  {
    hide StmtItems, T.PrintStmt;
    if ss != [] {
      StmtPrinted(ss[0]);
      StmtsPrinted(ss[1..]);
      PlainJoin(StmtItems(ss[0]), StmtsItems(ss[1..]));
    }
  }

  // Items between two tags.
  lemma BetweenTags(open: Body, inner: seq<Item>, close: Body)
    ensures PlainTokens([TagItem(open)] + inner + [TagItem(close)]) ==
            ItemTokens(Plain(TagItem(open))) + PlainTokens(inner) + ItemTokens(Plain(TagItem(close)))
  {
    hide PlainTokens, ItemTokens;
    PlainJoin([TagItem(open)] + inner, [TagItem(close)]);
    PlainJoin([TagItem(open)], inner);
    OnePlain(TagItem(open));
    OnePlain(TagItem(close));
  }

  lemma PlainTag(b: Body)
    ensures ItemTokens(Plain(TagItem(b))) == T.Tag(BodyTokens(b))
  {
  }

  lemma {:induction false} StmtPrinted(s: T.Stmt)
    ensures PlainTokens(StmtItems(s)) == T.PrintStmt(s)
    decreases s, 1
  {
    hide StmtItems, T.PrintStmt;
    match s
    case If(_, _, _) => BranchPrinted(s);
    case For(_, _, _, _) => ForPrinted(s);
    case Block(_, _) => BlockPrinted(s);
    case _ => LeafPrinted(s);
  }

  lemma {:induction false} ForPrinted(s: T.Stmt)
    requires s.For?
    ensures PlainTokens(StmtItems(s)) == T.PrintStmt(s)
    decreases s, 0
  {
    hide StmtsItems, T.PrintStmts, PlainTokens, X.Print, ItemTokens, T.Tag;
    BetweenTags(ForBody(s.key, s.value, s.over), StmtsItems(s.body), EndforBody);
    PlainTag(ForBody(s.key, s.value, s.over));
    PlainTag(EndforBody);
    StmtsPrinted(s.body);
  }

  lemma {:induction false} BlockPrinted(s: T.Stmt)
    requires s.Block?
    ensures PlainTokens(StmtItems(s)) == T.PrintStmt(s)
    decreases s, 0
  {
    hide StmtsItems, T.PrintStmts, PlainTokens, ItemTokens, T.Tag;
    BetweenTags(BlockBody(s.name), StmtsItems(s.inner), EndblockBody);
    PlainTag(BlockBody(s.name));
    PlainTag(EndblockBody);
    StmtsPrinted(s.inner);
  }

  lemma LeafPrinted(s: T.Stmt)
    requires !s.If? && !s.For? && !s.Block?
    ensures PlainTokens(StmtItems(s)) == T.PrintStmt(s)
  {
    hide X.Print, PlainTokens;
    OnePlain(StmtItems(s)[0]);
  }

  lemma {:induction false} BranchPrinted(s: T.Stmt)
    requires s.If?
    ensures PlainTokens(StmtItems(s)) == T.PrintStmt(s)
    decreases s, 0
  {
    hide StmtsItems, ElseItems, T.PrintStmts, T.PrintElse, PlainTokens, X.Print, ItemTokens, T.Tag;
    var thn, els := StmtsItems(s.thn), ElseItems(s.els);
    assert StmtItems(s) == [TagItem(IfBody(s.cond))] + (thn + els) + [TagItem(EndifBody)];
    BetweenTags(IfBody(s.cond), thn + els, EndifBody);
    PlainJoin(thn, els);
    PlainTag(IfBody(s.cond));
    PlainTag(EndifBody);
    StmtsPrinted(s.thn);
    ElsePrinted(s.els);
    assert T.PrintStmt(s) == T.IfTag(s.cond) + (T.PrintStmts(s.thn) + T.PrintElse(s.els)) + T.Tag([Word("endif")]);
  }

  lemma {:induction false} ElsePrinted(els: T.Else)
    ensures PlainTokens(ElseItems(els)) == T.PrintElse(els)
    decreases els, 0
  {
    hide X.Print, StmtsItems, T.PrintStmts, PlainTokens;
    match els
    case NoElse => assert PlainTokens([]) == [] by { NothingPlain(); }
    case ElseBlock(ss) =>
      PlainJoin([TagItem(ElseBody)], StmtsItems(ss));
      OnePlain(TagItem(ElseBody));
      StmtsPrinted(ss);
    case ElseIf(cond, thn, more) =>
      var a := [TagItem(ElseIfBody(cond))];
      PlainJoin(a + StmtsItems(thn), ElseItems(more));
      PlainJoin(a, StmtsItems(thn));
      OnePlain(a[0]);
      StmtsPrinted(thn);
      ElsePrinted(more);
  }

  lemma NothingPlain()
    ensures PlainTokens([]) == []
  {
  }

  lemma {:induction false} StmtsFit(env: Environment, ss: seq<T.Stmt>)
    requires T.WellFormed(env, ss)
    ensures forall item <- StmtsItems(ss) :: FitsItem(env, item)
    decreases ss, 0
  {
    hide FitsItem;
    if ss != [] {
      StmtFits(env, ss[0]);
      StmtsFit(env, ss[1..]);
    }
  }

  lemma {:induction false} StmtFits(env: Environment, s: T.Stmt)
    requires T.WellFormedStmt(env, s)
    ensures forall item <- StmtItems(s) :: FitsItem(env, item)
    decreases s, 1
  {
    match s
    case If(_, thn, els) =>
      StmtsFit(env, thn);
      ElseFits(env, els);
    case For(_, _, _, body) => StmtsFit(env, body);
    case Block(_, inner) => StmtsFit(env, inner);
    case _ =>
  }

  lemma {:induction false} ElseFits(env: Environment, els: T.Else)
    requires T.WellFormedElse(env, els)
    ensures forall item <- ElseItems(els) :: FitsItem(env, item)
    decreases els, 0
  {
    match els
    case NoElse =>
    case ElseBlock(ss) => StmtsFit(env, ss);
    case ElseIf(_, thn, more) =>
      StmtsFit(env, thn);
      ElseFits(env, more);
  }

  // What the items of a tree do: exactly what parsing its print does.
  lemma TreeOutcome(env: Environment, ss: seq<T.Stmt>)
    requires T.WellFormed(env, ss) && T.Distinct(T.Names(ss))
    ensures var r := Outcome(env, StmtsItems(ss));
            r.Ok? && r.value.current == Root && r.value.ifs == r.value.fors == r.value.blocks == [] &&
            forall tt :: T.Represents(r.value.h, r.value.h.root, tt, 0, |r.value.h.cells|) <==> tt == ss
  {
    hide T.Represents, T.WellFormed, T.Distinct, ParseInto, Tokens, Outcome, FitsItem;
    var items := StmtsItems(ss);
    StmtsFit(env, ss);
    PlainlyTokens(items);
    StmtsPrinted(ss);
    var ws := Plainly(items);
    forall w | w in ws ensures FitsItem(env, w.item) {
      var i :| 0 <= i < |ws| && ws[i] == w;
      assert items[i] in items;
    }
    var lit := ParsedByItems(env, ws, [], []);
    assert Tokens(ws) + Comments([]) == T.PrintStmts(ss);
    T.RoundTrip(env, ss, []);
  }

  // The round trip in every style: whichever tags of a tree are written as statement tags and whichever as line statements,
  // whatever the delimiters, and with comments anywhere, it is parsed back to that tree and to no other.
  lemma RoundTripInAnyStyle(env: Environment, ss: seq<T.Stmt>, ws: seq<Written>, last: seq<(string, string)>, lit: seq<Token>)
    requires T.WellFormed(env, ss) && T.Distinct(T.Names(ss)) && Items(ws) == StmtsItems(ss)
    ensures var r := ParseInto(env, Start(Tokens(ws) + Comments(last), lit));
            r.Ok? && r.value.current == Root && r.value.ifs == r.value.fors == r.value.blocks == [] &&
            forall tt :: T.Represents(r.value.h, r.value.h.root, tt, 0, |r.value.h.cells|) <==> tt == ss
  {
    hide T.Represents, T.WellFormed, T.Distinct, ParseInto, Tokens, Outcome, FitsItem, StmtsItems;
    StmtsFit(env, ss);
    forall w | w in ws ensures FitsItem(env, w.item) {
      var i :| 0 <= i < |ws| && ws[i] == w;
      assert Items(ws)[i] in Items(ws);
    }
    TreeOutcome(env, ss);
    var lit' := ParsedByItems(env, ws, last, lit);
  }

  // And if the last tag is a line statement that only the end of the input closes: unless it ends in an expression.
  lemma RoundTripWithOpenEnd(env: Environment, ss: seq<T.Stmt>, ws: seq<Written>, open: string, b: Body, lit: seq<Token>)
    requires T.WellFormed(env, ss) && T.Distinct(T.Names(ss)) && Items(ws) + [TagItem(b)] == StmtsItems(ss)
    ensures var r := ParseInto(env, Start(Tokens(ws) + OpenEnd(open, b), lit));
            if EndsInExpression(b) then r == Err(ExpectedStatement)
            else r.Ok? && r.value.current == Root && r.value.ifs == r.value.fors == r.value.blocks == [] &&
                 forall tt :: T.Represents(r.value.h, r.value.h.root, tt, 0, |r.value.h.cells|) <==> tt == ss
  {
    hide T.Represents, T.WellFormed, T.Distinct, ParseInto, Tokens, FitsItem, StmtsItems, OnItems, OpenEnd;
    StmtsFit(env, ss);
    var items := StmtsItems(ss);
    assert items[|ws|] == TagItem(b) && items[|ws|] in items;
    forall w | w in ws ensures FitsItem(env, w.item) {
      var i :| 0 <= i < |ws| && ws[i] == w;
      assert items[i] == Items(ws)[i] && items[i] in items;
    }
    assert FitsBody(env, b) by { BodyOfItem(env, b); }
    TreeOutcome(env, ss);
    var lit' := ParsedWithOpenEnd(env, ws, open, b, lit);
  }

  lemma BodyOfItem(env: Environment, b: Body)
    requires FitsItem(env, TagItem(b))
    ensures FitsBody(env, b)
  {
  }

  // ---------------------------------------------------------------- openings of any text

  predicate IsOpening(k: Kind) { k.StatementOpen? || k.ExpressionOpen? }

  ghost predicate NoOpenings(ts: seq<Token>) { forall t <- ts :: !IsOpening(t.kind) }

  ghost predicate SameButOpenings(a: seq<Token>, b: seq<Token>) {
    |a| == |b| && forall i :: 0 <= i < |a| ==> b[i] == a[i] || (IsOpening(a[i].kind) && b[i].kind == a[i].kind)
  }

  lemma ExpressionIsSilent(env: Environment, e: Expr)
    requires X.Printable(env.expr, e)
    ensures NoOpenings(X.Print(e, 0))
  {
    hide X.Print, X.Printable;
    R.PrintIsSilent(env.expr, e, 0);
  }

  lemma BodyIsSilent(env: Environment, b: Body)
    requires FitsBody(env, b)
    ensures NoOpenings(BodyTokens(b))
  {
    hide X.Print, X.Printable;
    match b
    case IfBody(e) => ExpressionIsSilent(env, e);
    case ElseIfBody(e) => ExpressionIsSilent(env, e);
    case ForBody(_, _, e) => ExpressionIsSilent(env, e);
    case SetBody(_, e) => ExpressionIsSilent(env, e);
    case _ =>
  }

  lemma SilentSame(a: seq<Token>, b: seq<Token>)
    requires SameButOpenings(a, b) && NoOpenings(a)
    ensures a == b
  {
    forall i | 0 <= i < |a| ensures a[i] == b[i] { assert a[i] in a; }
  }

  lemma SameParts(a: seq<Token>, b: seq<Token>, c: seq<Token>)
    requires SameButOpenings(a + b, c)
    ensures |c| == |a| + |b| && SameButOpenings(a, c[..|a|]) && SameButOpenings(b, c[|a|..]) && c == c[..|a|] + c[|a|..]
  {
    forall i | 0 <= i < |a| ensures c[..|a|][i] == a[i] || (IsOpening(a[i].kind) && c[..|a|][i].kind == a[i].kind) {
      assert (a + b)[i] == a[i];
    }
    forall i | 0 <= i < |b| ensures c[|a|..][i] == b[i] || (IsOpening(b[i].kind) && c[|a|..][i].kind == b[i].kind) {
      assert (a + b)[|a| + i] == b[i];
    }
  }

  lemma ReopenItem(env: Environment, item: Item, toks: seq<Token>) returns (w: Written)
    requires FitsItem(env, item) && SameButOpenings(ItemTokens(Plain(item)), toks)
    ensures ItemTokens(w) == toks && w.item == item && w.comments == []
  {
    hide X.Print, X.Printable, BodyTokens, FitsBody;
    w := Plain(item);
    var first := ItemTokens(w);
    SameParts(first[..1], first[1..], toks);
    assert first[..1] + first[1..] == first;
    if item.OutputItem? {
      ExpressionIsSilent(env, item.expr);
      assert first[1..] == X.Print(item.expr, 0) + [Token(ExpressionClose, "}}")];
    } else if item.TagItem? {
      BodyIsSilent(env, item.body);
      assert first[1..] == BodyTokens(item.body) + [Closing(w)];
    }
    assert NoOpenings(first[1..]);
    SilentSame(first[1..], toks[1..]);
    w := w.(open := toks[0].text);
    assert toks == [toks[0]] + first[1..];
  }

  lemma {:induction false} Reopen(env: Environment, items: seq<Item>, toks: seq<Token>) returns (ws: seq<Written>)
    requires (forall item <- items :: FitsItem(env, item)) && SameButOpenings(PlainTokens(items), toks)
    ensures Tokens(ws) == toks && Items(ws) == items
    decreases |items|
  {
    hide FitsItem, ItemTokens, SameButOpenings;
    ws := [];
    if items == [] {
      assert toks == [] by { NoneSame(toks); }
    } else {
      var first, more := ItemTokens(Plain(items[0])), PlainTokens(items[1..]);
      SameParts(first, more, toks);
      assert items[0] in items;
      var w := ReopenItem(env, items[0], toks[..|first|]);
      var rest := Reopen(env, items[1..], toks[|first|..]);
      ws := [w] + rest;
      assert ws[1..] == rest && Comments([]) + (ItemTokens(w) + Tokens(rest)) == ItemTokens(w) + Tokens(rest);
      assert Items(ws) == [w.item] + Items(rest);
    }
  }

  lemma NoneSame(toks: seq<Token>)
    requires SameButOpenings([], toks)
    ensures toks == []
  {
  }

  // The text of an opening does not matter.
  lemma RoundTripReopened(env: Environment, ss: seq<T.Stmt>, toks: seq<Token>, lit: seq<Token>)
    requires T.WellFormed(env, ss) && T.Distinct(T.Names(ss)) && SameButOpenings(T.PrintStmts(ss), toks)
    ensures var r := ParseInto(env, Start(toks, lit));
            r.Ok? && r.value.current == Root && r.value.ifs == r.value.fors == r.value.blocks == [] &&
            forall tt :: T.Represents(r.value.h, r.value.h.root, tt, 0, |r.value.h.cells|) <==> tt == ss
  {
    hide T.Represents, T.WellFormed, T.Distinct, ParseInto, FitsItem, StmtsItems, SameButOpenings;
    StmtsFit(env, ss);
    StmtsPrinted(ss);
    var ws := Reopen(env, StmtsItems(ss), toks);
    assert toks + Comments([]) == toks;
    RoundTripInAnyStyle(env, ss, ws, [], lit);
  }
}
