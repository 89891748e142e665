// Where the statement parser stands and what its blocks hold, told from the tags alone, however they cross.
module InjaPlaces {
  import opened Wrappers
  import opened InjaSyntax
  import opened InjaStatement
  import opened InjaTags
  import opened InjaNesting
  import T = InjaTemplate
  import X = InjaExpression

  // ---------------------------------------------------------------- places in a sequence of tags

  datatype Construct = If | For | Block

  function Opening(c: Construct): Tag {
    match c case If => IfTag case For => ForTag case Block => BlockTag
  }

  function Closing(c: Construct): Tag {
    match c case If => EndifTag case For => EndforTag case Block => EndblockTag
  }

  function Last<A>(s: seq<A>): A
    requires s != []
  {
    s[|s| - 1]
  }

  function Front<A>(s: seq<A>): seq<A>
    requires s != []
  {
    s[..|s| - 1]
  }

  // The places where constructs of one kind are open, closing tags of other kinds left aside.
  function OpenAt(tags: seq<Tag>, c: Construct): (r: seq<nat>)
    ensures forall i :: 0 <= i < |r| ==> r[i] < |tags| && tags[r[i]] == Opening(c)
  {
    if tags == [] then []
    else
      var before := OpenAt(Front(tags), c);
      if Last(tags) == Opening(c) then before + [|tags| - 1]
      else if Last(tags) == Closing(c) && before != [] then Front(before)
      else before
  }

  // Tags with a block of their own; nodes are numbered as their tags come.
  predicate AddsCell(t: Tag) { t.IfTag? || t.ElseIfTag? || t.ForTag? || t.BlockTag? }

  function Cells(tags: seq<Tag>): nat {
    if tags == [] then 0 else Cells(Front(tags)) + if AddsCell(Last(tags)) then 1 else 0
  }

  // The ifs and else-ifs that are open: an endif takes away everything since the if it closes.
  function IfStack(tags: seq<Tag>): seq<nat>
    decreases |tags|
  {
    if tags == [] then []
    else
      match Last(tags)
      case IfTag => IfStack(Front(tags)) + [Cells(Front(tags))]
      case ElseIfTag => IfStack(Front(tags)) + [Cells(Front(tags))]
      case EndifTag =>
        var open := OpenAt(Front(tags), If);
        if open == [] then IfStack(Front(tags)) else IfStack(tags[..Last(open)])
      case _ => IfStack(Front(tags))
  }

  function TopIf(tags: seq<Tag>): nat {
    if IfStack(tags) == [] then 0 else Last(IfStack(tags))
  }

  // The block that text after these tags goes to: after a closing tag it is the one in which its construct was opened.
  function Where(tags: seq<Tag>): BlockRef
    decreases |tags|
  {
    if tags == [] then Root
    else
      match Last(tags)
      case LeafTag => Where(Front(tags))
      case IfTag => TrueOf(Cells(Front(tags)))
      case ElseIfTag => TrueOf(Cells(Front(tags)))
      case ForTag => BodyOf(Cells(Front(tags)))
      case BlockTag => NamedOf(Cells(Front(tags)))
      case ElseTag => FalseOf(TopIf(Front(tags)))
      case EndifTag => OpenedIn(Front(tags), If)
      case EndforTag => OpenedIn(Front(tags), For)
      case EndblockTag => OpenedIn(Front(tags), Block)
  }

  function OpenedIn(tags: seq<Tag>, c: Construct): BlockRef
    decreases |tags|, 0
  {
    var open := OpenAt(tags, c);
    if open == [] then Root else Where(tags[..Last(open)])
  }

  // Tags that put a node into a block, and that block: an else-if goes to the false branch of the if it follows.
  predicate Adds(t: Tag) { t.LeafTag? || AddsCell(t) }

  function Target(tags: seq<Tag>, k: nat): BlockRef
    requires k < |tags|
  {
    if tags[k].ElseIfTag? then FalseOf(TopIf(tags[..k])) else Where(tags[..k])
  }

  // The nodes a block holds: leaves, and the cells of the others.
  function Nodes(tags: seq<Tag>, r: BlockRef): seq<Option<nat>> {
    if tags == [] then []
    else
      Nodes(Front(tags), r) +
      if Adds(Last(tags)) && Target(tags, |tags| - 1) == r
      then [if AddsCell(Last(tags)) then Some(Cells(Front(tags))) else None]
      else []
  }

  function Held(tags: seq<Tag>, r: BlockRef): nat { |Nodes(tags, r)| }

  // The ifs that have had an else.
  function Elses(tags: seq<Tag>): set<nat> {
    if tags == [] then {}
    else Elses(Front(tags)) + if IsElseTag(Last(tags)) then {TopIf(Front(tags))} else {}
  }

  predicate IsElseTag(t: Tag) { t.ElseTag? || t.ElseIfTag? }

  predicate IsLeaf(n: Node) { !n.IfNode? && !n.ForNode? && !n.NamedBlockNode? }

  function Skeleton(ns: seq<Node>): (r: seq<Option<nat>>)
    ensures |r| == |ns|
  {
    seq(|ns|, i requires 0 <= i < |ns| => if IsLeaf(ns[i]) then None else Some(ns[i].id))
  }

  lemma TagsPlus(tags: seq<Tag>, t: Tag)
    ensures Front(tags + [t]) == tags && Last(tags + [t]) == t
    ensures forall k :: 0 <= k <= |tags| ==> (tags + [t])[..k] == tags[..k]
    ensures forall k :: 0 <= k < |tags| ==> Target(tags + [t], k) == Target(tags, k)
  {
    assert Front(tags + [t]) == tags;
    forall k | 0 <= k <= |tags| ensures (tags + [t])[..k] == tags[..k] {}
  }

  lemma OpenAtPlus(tags: seq<Tag>, t: Tag, c: Construct)
    ensures OpenAt(tags + [t], c) ==
            if t == Opening(c) then OpenAt(tags, c) + [|tags|]
            else if t == Closing(c) && OpenAt(tags, c) != [] then Front(OpenAt(tags, c))
            else OpenAt(tags, c)
  {
    TagsPlus(tags, t);
  }

  lemma Shorter(tags: seq<Tag>, n: nat, m: nat)
    requires m <= n <= |tags|
    ensures tags[..n][..m] == tags[..m]
  {
  }

  // Before the innermost open construct all but it are open.
  lemma {:induction false} OpenBefore(tags: seq<Tag>, c: Construct)
    requires OpenAt(tags, c) != []
    ensures OpenAt(tags[..Last(OpenAt(tags, c))], c) == Front(OpenAt(tags, c))
    decreases |tags|
  {
    assert tags != [];
    hide OpenAt, Opening, Closing;
    var n := |tags| - 1;
    var front := tags[..n];
    assert tags == front + [tags[n]];
    OpenAtPlus(front, tags[n], c);
    var before, open := OpenAt(front, c), OpenAt(tags, c);
    if tags[n] == Opening(c) {
      assert Front(open) == before;
    } else {
      OpenBefore(front, c);
      Shorter(tags, n, Last(before));
      if open != before { OpenBefore(front[..Last(before)], c); }
    }
    if open != [] && before != [] && Last(open) <= Last(before) { Shorter(tags, Last(before), Last(open)); }
  }

  // ---------------------------------------------------------------- what a tag does to the parser

  function Marked(h: Heap, id: nat): Heap
    requires ValidRef(h, FalseOf(id))
  {
    h.(cells := h.cells[id := h.cells[id].(hasFalse := true)])
  }

  predicate HasIf(p: Parser) { p.ifs != [] && ValidRef(p.h, FalseOf(Last(p.ifs))) }

  // The heap when a tag's node is linked, and the block it is linked into.
  function Before(p: Parser, t: Tag): Heap {
    if IsElseTag(t) && HasIf(p) then Marked(p.h, Last(p.ifs)) else p.h
  }

  function Into(p: Parser, t: Tag): BlockRef {
    if t.ElseIfTag? && HasIf(p) then FalseOf(Last(p.ifs)) else p.current
  }

  predicate IsCellOf(c: Cell, t: Tag) {
    match t
    case IfTag => c.IfCell? && !c.isNested
    case ElseIfTag => c.IfCell? && c.isNested
    case ForTag => c.ForCell?
    case BlockTag => c.NamedCell?
    case _ => false
  }

  // The node and cell of a tag.
  ghost predicate IsNodeOf(n: Node, added: seq<Cell>, at: BlockRef, t: Tag, id: nat) {
    Fits(n, added, id) && (AddsCell(t) <==> added != []) &&
    forall c <- added :: IsFresh(c) && c.parent == at && IsCellOf(c, t)
  }

  // A tag links its node, if it has one, and moves on; n and added are the node and its cell.
  ghost predicate Effect(p: Parser, q: Parser, t: Tag, n: Node, added: seq<Cell>) {
    (IsElseTag(t) ==> HasIf(p)) &&
    (Adds(t) ==> IsNodeOf(n, added, Into(p, t), t, |p.h.cells|)) &&
    q.h == (if Adds(t) then WithNode(Before(p, t), Into(p, t), n, added) else Before(p, t)) &&
    (t != IfTag && t != ElseIfTag && t != EndifTag ==> q.ifs == p.ifs) &&
    (t != ForTag && t != EndforTag ==> q.fors == p.fors) &&
    (t != BlockTag && t != EndblockTag ==> q.blocks == p.blocks) &&
    match t
    case LeafTag => q.current == p.current
    case IfTag => q.current == TrueOf(|p.h.cells|) && q.ifs == p.ifs + [|p.h.cells|]
    case ElseIfTag => q.current == TrueOf(|p.h.cells|) && q.ifs == p.ifs + [|p.h.cells|]
    case ForTag => q.current == BodyOf(|p.h.cells|) && q.fors == p.fors + [|p.h.cells|]
    case BlockTag => q.current == NamedOf(|p.h.cells|) && q.blocks == p.blocks + [|p.h.cells|]
    case ElseTag => q.current == FalseOf(Last(p.ifs))
    case EndifTag =>
      var s := PopNested(p.h, p.ifs);
      s.Ok? && s.value != [] && ValidRef(p.h, TrueOf(Last(s.value))) &&
      q.current == p.h.cells[Last(s.value)].parent && q.ifs == Front(s.value)
    case EndforTag =>
      p.fors != [] && Last(p.fors) < |p.h.cells| && q.current == p.h.cells[Last(p.fors)].parent && q.fors == Front(p.fors)
    case EndblockTag =>
      p.blocks != [] && Last(p.blocks) < |p.h.cells| && q.current == p.h.cells[Last(p.blocks)].parent &&
      q.blocks == Front(p.blocks)
  }

  lemma IfEffect(env: Environment, p: Parser, closing: Kind) returns (n: Node, added: seq<Cell>)
    ensures var r := ParseIf(env, p, closing, false); r.Ok? ==> Effect(p, r.value, IfTag, n, added)
  {
    hide Condition, Append;
    n, added := TextNode(""), [];
    var c := Condition(env, p, closing);
    if c.Ok? {
      var (q, cond) := c.value;
      n, added := IfNode(|q.h.cells|), [IfCell(cond, [], [], q.current, false, false)];
      EnterIsWithNode(q.h, q.current, n, added[0]);
    }
  }

  lemma ElseEffect(env: Environment, p: Parser, closing: Kind) returns (n: Node, added: seq<Cell>)
    ensures var r := ParseElse(env, p, closing);
            r.Ok? ==> Effect(p, r.value, if IsKeyword(First(p.toks), "if") then ElseIfTag else ElseTag, n, added)
  {
    hide Condition, Append;
    n, added := TextNode(""), [];
    if HasIf(p) && IsKeyword(First(p.toks), "if") {
      var q := T.EnterElse(p);
      var c := Condition(env, Advance(q), closing);
      if c.Ok? {
        var (q', cond) := c.value;
        n, added := IfNode(|q'.h.cells|), [IfCell(cond, [], [], q'.current, true, false)];
        EnterIsWithNode(q'.h, q'.current, n, added[0]);
      }
    }
  }

  lemma ForInEffect(env: Environment, p: Parser, closing: Kind, key: Option<string>, value: string)
    returns (n: Node, added: seq<Cell>)
    ensures var r := ParseForIn(env, p, closing, key, value); r.Ok? ==> Effect(p, r.value, ForTag, n, added)
  {
    hide Condition, Append;
    n, added := TextNode(""), [];
    var c := Condition(env, Advance(p), closing);
    if c.Ok? {
      var (q, cond) := c.value;
      n, added := ForNode(|q.h.cells|), [ForCell(key, value, cond, [], q.current)];
      EnterIsWithNode(q.h, q.current, n, added[0]);
    }
  }

  lemma ForEffect(env: Environment, p: Parser, closing: Kind) returns (n: Node, added: seq<Cell>)
    ensures var r := ParseFor(env, p, closing); r.Ok? ==> Effect(p, r.value, ForTag, n, added)
  {
    hide ParseForIn, WithNode, PopNested;
    if First(Tail(p.toks)).kind.Comma? {
      n, added := ForInEffect(env, Advance(Advance(Advance(p))), closing, Some(First(p.toks).text), First(Tail(Tail(p.toks))).text);
    } else {
      n, added := ForInEffect(env, Advance(p), closing, None, First(p.toks).text);
    }
  }

  lemma BlockEffect(p: Parser) returns (n: Node, added: seq<Cell>)
    ensures var r := ParseBlock(p); r.Ok? ==> Effect(p, r.value, BlockTag, n, added)
  {
    hide Append;
    n, added := NamedBlockNode(|p.h.cells|), [NamedCell(First(p.toks).text, [], p.current)];
    EnterIsWithNode(p.h, p.current, n, added[0]);
  }

  lemma ClosingEffects(p: Parser, n: Node)
    ensures var r := ParseEndif(p); r.Ok? ==> Effect(p, r.value, EndifTag, n, [])
    ensures var r := ParseEndfor(p); r.Ok? ==> Effect(p, r.value, EndforTag, n, [])
    ensures var r := ParseEndblock(p); r.Ok? ==> Effect(p, r.value, EndblockTag, n, [])
  {
    hide PopNested;
  }

  lemma NodeEffect(p: Parser, n: Node)
    requires IsLeaf(n)
    ensures Effect(p, AddNode(p, n), LeafTag, n, [])
  {
    hide Append;
    assert WithNode(p.h, p.current, n, []) == Append(p.h, p.current, [n]);
  }

  lemma SetEffect(env: Environment, p: Parser, closing: Kind) returns (n: Node)
    ensures var r := ParseSet(env, p, closing); r.Ok? ==> Effect(p, r.value, LeafTag, n, [])
  {
    hide Condition, Append, WithNode, PopNested;
    n := TextNode("");
    var c := Condition(env, Advance(Advance(p)), closing);
    if c.Ok? {
      n := SetNode(First(p.toks).text, c.value.1);
      NodeEffect(c.value.0, n);
    }
  }

  lemma FileEffect(env: Environment, p: Parser, isExtends: bool) returns (n: Node)
    ensures var r := ParseFileNode(env, p, isExtends); r.Ok? ==> Effect(p, r.value, LeafTag, n, [])
  {
    hide Append, WithNode, PopNested;
    n := TextNode("");
    var f := ParseFile(env, p);
    if f.Ok? {
      n := if isExtends then ExtendsNode(f.value) else IncludeNode(f.value);
      NodeEffect(p, n);
    }
  }

  // The effect is not about tokens.
  lemma EffectOnly(p: Parser, q: Parser, p': Parser, q': Parser, t: Tag, n: Node, added: seq<Cell>)
    requires Effect(p, q, t, n, added) && p' == p.(toks := p'.toks, lit := p'.lit) && q' == q.(toks := q'.toks, lit := q'.lit)
    ensures Effect(p', q', t, n, added)
  {
    hide WithNode, PopNested, IsNodeOf;
  }

  lemma StatementEffect(env: Environment, p: Parser, closing: Kind) returns (n: Node, added: seq<Cell>)
    requires ParseStatement(env, p, closing).Ok?
    ensures Effect(p, ParseStatement(env, p, closing).value, TagAt(p.toks), n, added)
  {
    hide Effect, KeywordOf, ParseIf, ParseElse, ParseEndif, ParseBlock, ParseEndblock, ParseFor, ParseEndfor, ParseSet,
      ParseFileNode;
    var q := Advance(p);
    n, added := TextNode(""), [];
    match KeywordOf(First(p.toks)) {
      case KwIf => n, added := IfEffect(env, q, closing);
      case KwElse => n, added := ElseEffect(env, q, closing);
      case KwEndif => ClosingEffects(q, n);
      case KwBlock => n, added := BlockEffect(q);
      case KwEndblock => ClosingEffects(q, n);
      case KwFor => n, added := ForEffect(env, q, closing);
      case KwEndfor => ClosingEffects(q, n);
      case KwInclude => n := FileEffect(env, q, false);
      case KwExtends => n := FileEffect(env, q, true);
      case KwSet => n := SetEffect(env, q, closing);
      case KwNone =>
    }
    EffectOnly(q, ParseStatement(env, p, closing).value, p, ParseStatement(env, p, closing).value, TagAt(p.toks), n, added);
  }

  lemma StepEffect(env: Environment, p: Parser) returns (n: Node, added: seq<Cell>)
    requires p.toks != [] && Step(env, p).Ok? && Starts(p.toks[0].kind)
    ensures Effect(p, Step(env, p).value, TagOf(p.toks), n, added)
  {
    hide Effect, ParseStatement, TagAt, X.ParseExpr, Append;
    var q, end := Advance(p), Step(env, p).value;
    n, added := TextNode(p.toks[0].text), [];
    match p.toks[0].kind
    case StatementOpen =>
      n, added := StatementEffect(env, q, StatementClose);
      EffectOnly(q, ParseStatement(env, q, StatementClose).value, p, end, TagAt(q.toks), n, added);
    case LineStatementOpen =>
      n, added := StatementEffect(env, q, LineStatementClose);
      EffectOnly(q, ParseStatement(env, q, LineStatementClose).value, p, end, TagAt(q.toks), n, added);
    case Text =>
      NodeEffect(p, n);
      EffectOnly(p, AddNode(p, n), p, end, LeafTag, n, []);
    case ExpressionOpen =>
      n := ExpressionNode(X.ParseExpr(env.expr, q.toks, q.lit).value.node);
      NodeEffect(p, n);
      EffectOnly(p, AddNode(p, n), p, end, LeafTag, n, []);
  }

  // A comment does nothing.
  lemma OtherSteps(env: Environment, p: Parser)
    requires p.toks != [] && Step(env, p).Ok? && !Starts(p.toks[0].kind)
    ensures var q := Step(env, p).value; q == p.(toks := q.toks)
  {
  }

  // ---------------------------------------------------------------- the heap

  function NodeFor(h: Heap, i: nat): Node
    requires i < |h.cells|
  {
    match h.cells[i]
    case IfCell(_, _, _, _, _, _) => IfNode(i)
    case ForCell(_, _, _, _, _) => ForNode(i)
    case NamedCell(_, _, _) => NamedBlockNode(i)
  }

  // A cell has its node in its parent block, which is an earlier cell's; only else-ifs are chained.
  ghost predicate Hung(h: Heap, i: nat)
    requires i < |h.cells|
  {
    var c := h.cells[i];
    ValidRef(h, c.parent) && LowOf(c.parent) <= i && NodeFor(h, i) in BlockOf(h, c.parent) &&
    (c.IfCell? ==> (c.isNested ==> c.parent.FalseOf?) && (!c.hasFalse ==> c.falseStatement == []))
  }

  // The node of a cell stands in the parent block and nowhere else.
  ghost predicate Belongs(h: Heap, r: BlockRef, n: Node) {
    IsLeaf(n) || (n.id < |h.cells| && n == NodeFor(h, n.id) && h.cells[n.id].parent == r)
  }

  ghost predicate Woven(h: Heap) {
    (forall i :: 0 <= i < |h.cells| ==> Hung(h, i)) &&
    forall r, n | ValidRef(h, r) && n in BlockOf(h, r) :: Belongs(h, r, n)
  }

  lemma NodeForKept(h: Heap, h': Heap, i: nat)
    requires SameShape(h, h') && i < |h.cells|
    ensures NodeFor(h', i) == NodeFor(h, i) && h'.cells[i].parent == h.cells[i].parent
  {
    assert SameCellShape(h.cells[i], h'.cells[i]);
  }

  lemma BelongsKept(h: Heap, h': Heap, r: BlockRef, n: Node)
    requires SameShape(h, h') && Belongs(h, r, n)
    ensures Belongs(h', r, n)
  {
    if !IsLeaf(n) { NodeForKept(h, h', n.id); }
  }

  lemma MarkedBlocks(h: Heap, id: nat)
    requires ValidRef(h, FalseOf(id))
    ensures SameShape(h, Marked(h, id)) && |Marked(h, id).cells| == |h.cells|
    ensures forall r :: ValidRef(Marked(h, id), r) == ValidRef(h, r)
    ensures forall r :: ValidRef(h, r) ==> BlockOf(Marked(h, id), r) == BlockOf(h, r)
  {
  }

  lemma MarkedWoven(h: Heap, id: nat)
    requires Woven(h) && ValidRef(h, FalseOf(id))
    ensures Woven(Marked(h, id))
  {
    var h' := Marked(h, id);
    MarkedBlocks(h, id);
    forall i | 0 <= i < |h'.cells| ensures Hung(h', i) {
      assert Hung(h, i);
      NodeForKept(h, h', i);
    }
    forall r, n | ValidRef(h', r) && n in BlockOf(h', r) ensures Belongs(h', r, n) {
      assert Belongs(h, r, n);
      BelongsKept(h, h', r, n);
    }
  }

  // What the blocks hold once a node has been linked.
  lemma BlockAfter(h: Heap, at: BlockRef, n: Node, added: seq<Cell>, r: BlockRef)
    requires ValidRef(h, at) && |added| <= 1 && forall c <- added :: IsFresh(c)
    requires ValidRef(WithNode(h, at, n, added), r)
    ensures BlockOf(WithNode(h, at, n, added), r) ==
            if r == at then BlockOf(h, at) + [n] else if ValidRef(h, r) then BlockOf(h, r) else []
  {
    hide WithNode;
    WithNodeShape(h, at, n, added);
    var h' := WithNode(h, at, n, added);
    if r != at && r != Root {
      var i := LowOf(r) - 1;
      if i >= |h.cells| {
        NewCell(h, at, n, added);
        assert h'.cells[|h.cells|..] == added && h'.cells[i] == added[0] && added[0] in added;
      } else if i + 1 != LowOf(at) {
        assert h'.cells[i] == h.cells[i];
      } else {
        WithNodeCell(h, at, n, added);
        assert SameCellShape(h.cells[i], h'.cells[i]);
      }
    }
  }

  lemma CellAfter(h: Heap, at: BlockRef, n: Node, added: seq<Cell>, i: nat)
    requires ValidRef(h, at) && i < |h.cells|
    ensures var c, c' := h.cells[i], WithNode(h, at, n, added).cells[i];
            c.IfCell? ==> c'.IfCell? && c'.hasFalse == c.hasFalse && c'.isNested == c.isNested &&
                          (c'.falseStatement == c.falseStatement || at == FalseOf(i))
  {
    WithNodeShape(h, at, n, added);
    if at != Root && i + 1 == LowOf(at) { WithNodeCell(h, at, n, added); }
  }

  lemma HungAfter(h: Heap, at: BlockRef, n: Node, added: seq<Cell>, i: nat)
    requires Woven(h) && ValidRef(h, at) && (at.FalseOf? ==> h.cells[at.id].hasFalse) && i < |h.cells|
    requires |added| <= 1 && forall c <- added :: IsFresh(c)
    ensures |WithNode(h, at, n, added).cells| >= |h.cells| && Hung(WithNode(h, at, n, added), i)
  {
    hide Woven, WithNode;
    WithNodeShape(h, at, n, added);
    var h' := WithNode(h, at, n, added);
    assert Hung(h, i) by { assert Woven(h); WovenHung(h, i); }
    NodeForKept(h, h', i);
    CellAfter(h, at, n, added, i);
    var r := h.cells[i].parent;
    ValidKept(h, h', r);
    BlockAfter(h, at, n, added, r);
  }

  lemma WovenHung(h: Heap, i: nat)
    requires Woven(h) && i < |h.cells|
    ensures Hung(h, i)
  {
  }

  lemma WovenBelongs(h: Heap, r: BlockRef, n: Node)
    requires Woven(h) && ValidRef(h, r) && n in BlockOf(h, r)
    ensures Belongs(h, r, n)
  {
  }

  lemma ValidKept(h: Heap, h': Heap, r: BlockRef)
    requires SameShape(h, h') && ValidRef(h, r)
    ensures ValidRef(h', r)
  {
    if r != Root { assert SameCellShape(h.cells[LowOf(r) - 1], h'.cells[LowOf(r) - 1]); }
  }

  lemma WovenAfter(h: Heap, at: BlockRef, n: Node, added: seq<Cell>, t: Tag)
    requires Woven(h) && ValidRef(h, at) && (at.FalseOf? ==> h.cells[at.id].hasFalse)
    requires IsNodeOf(n, added, at, t, |h.cells|) && (t.ElseIfTag? ==> at.FalseOf?)
    ensures Woven(WithNode(h, at, n, added))
  {
    hide Woven, WithNode;
    WithNodeShape(h, at, n, added);
    var h', id := WithNode(h, at, n, added), |h.cells|;
    forall i | 0 <= i < |h'.cells| ensures Hung(h', i) {
      if i < id { HungAfter(h, at, n, added, i); } else { NewHung(h, at, n, added, t); }
    }
    forall r, m | ValidRef(h', r) && m in BlockOf(h', r) ensures Belongs(h', r, m) {
      BlockAfter(h, at, n, added, r);
      if r == at && m == n {
        NewBelongs(h, at, n, added, t);
      } else {
        WovenBelongs(h, r, m);
        BelongsKept(h, h', r, m);
      }
    }
    WovenBy(h');
  }

  lemma WovenBy(h: Heap)
    requires forall i :: 0 <= i < |h.cells| ==> Hung(h, i)
    requires forall r, n | ValidRef(h, r) && n in BlockOf(h, r) :: Belongs(h, r, n)
    ensures Woven(h)
  {
  }

  lemma NewCell(h: Heap, at: BlockRef, n: Node, added: seq<Cell>)
    requires ValidRef(h, at)
    ensures WithNode(h, at, n, added).cells[|h.cells|..] == added
  {
  }

  lemma NewBelongs(h: Heap, at: BlockRef, n: Node, added: seq<Cell>, t: Tag)
    requires ValidRef(h, at) && IsNodeOf(n, added, at, t, |h.cells|)
    ensures Belongs(WithNode(h, at, n, added), at, n)
  {
    hide WithNode;
    WithNodeShape(h, at, n, added);
    NewCell(h, at, n, added);
    if added != [] { assert WithNode(h, at, n, added).cells[|h.cells|] == added[0]; }
  }

  lemma NewHung(h: Heap, at: BlockRef, n: Node, added: seq<Cell>, t: Tag)
    requires ValidRef(h, at) && IsNodeOf(n, added, at, t, |h.cells|) && added != [] && (t.ElseIfTag? ==> at.FalseOf?)
    ensures |h.cells| < |WithNode(h, at, n, added).cells| && Hung(WithNode(h, at, n, added), |h.cells|)
  {
    hide WithNode;
    WithNodeShape(h, at, n, added);
    NewCell(h, at, n, added);
    var h' := WithNode(h, at, n, added);
    assert h'.cells[|h.cells|] == added[0] && added[0] in added;
    BlockAfter(h, at, n, added, at);
    NewBelongs(h, at, n, added, t);
  }
}
