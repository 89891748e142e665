// Well-nested tags, and what the statement parser's heap holds while it reads them.
module InjaNesting {
  import opened Wrappers
  import opened InjaSyntax
  import opened InjaStatement
  import opened InjaTags
  import T = InjaTemplate
  import X = InjaExpression

  // ---------------------------------------------------------------- well-nested tags

  // An open construct; an if remembers whether its else has come and how many else-ifs before it.
  datatype Frame = InIf(elseSeen: bool, nested: nat) | InFor | InBlock

  // The open constructs after a tag, the innermost last; None if the tag does not belong there.
  function Nest(frames: seq<Frame>, t: Tag): Option<seq<Frame>> {
    var n := |frames| - 1;
    match t
    case IfTag => Some(frames + [InIf(false, 0)])
    case ForTag => Some(frames + [InFor])
    case BlockTag => Some(frames + [InBlock])
    case LeafTag => Some(frames)
    case ElseTag =>
      if n >= 0 && frames[n].InIf? && !frames[n].elseSeen then Some(frames[..n] + [frames[n].(elseSeen := true)]) else None
    case ElseIfTag =>
      if n >= 0 && frames[n].InIf? && !frames[n].elseSeen then Some(frames[..n] + [InIf(false, frames[n].nested + 1)]) else None
    case EndifTag => if n >= 0 && frames[n].InIf? then Some(frames[..n]) else None
    case EndforTag => if n >= 0 && frames[n].InFor? then Some(frames[..n]) else None
    case EndblockTag => if n >= 0 && frames[n].InBlock? then Some(frames[..n]) else None
  }

  // The tags close what they open, in reverse order, and an else is the last branch of its if.
  predicate Nested(frames: seq<Frame>, tags: seq<Tag>)
    decreases |tags|
  {
    if tags == [] then frames == []
    else Nest(frames, tags[0]).Some? && Nested(Nest(frames, tags[0]).value, tags[1..])
  }

  predicate WellNested(toks: seq<Token>) { Nested([], Tags(toks)) }

  // ---------------------------------------------------------------- what the heap holds meanwhile

  // Nodes point to cells of their kind from `lo` on.
  ghost predicate Linked(h: Heap, ns: seq<Node>, lo: nat) {
    forall n <- ns ::
      (n.IfNode? ==> lo <= n.id < |h.cells| && h.cells[n.id].IfCell?) &&
      (n.ForNode? ==> lo <= n.id < |h.cells| && h.cells[n.id].ForCell?) &&
      (n.NamedBlockNode? ==> lo <= n.id < |h.cells| && h.cells[n.id].NamedCell?)
  }

  // No node is the chained if of an else.
  ghost predicate Plain(h: Heap, ns: seq<Node>) {
    forall n <- ns :: n.IfNode? && n.id < |h.cells| && h.cells[n.id].IfCell? ==> !h.cells[n.id].isNested
  }

  ghost predicate IsChained(h: Heap, ns: seq<Node>) {
    |ns| == 1 && ns[0].IfNode? && ns[0].id < |h.cells| && h.cells[ns[0].id].IfCell? && h.cells[ns[0].id].isNested
  }

  // A list of statements, in cells from lo on.
  ghost predicate IsBody(h: Heap, ns: seq<Node>, lo: nat) { Linked(h, ns, lo) && Plain(h, ns) }

  ghost predicate SoundCell(h: Heap, c: Cell, lo: nat) {
    match c
    case IfCell(_, thn, els, _, _, hasFalse) =>
      IsBody(h, thn, lo) && Linked(h, els, lo) && (if hasFalse then Plain(h, els) || IsChained(h, els) else els == [])
    case ForCell(_, _, _, body, _) => IsBody(h, body, lo)
    case NamedCell(_, block, _) => IsBody(h, block, lo)
  }

  ghost predicate Sound(h: Heap) {
    IsBody(h, h.root, 0) && forall i :: 0 <= i < |h.cells| ==> SoundCell(h, h.cells[i], i + 1)
  }

  // The pointer and the stacks belong to the open constructs, in cells below `bound`: each frame's cells lie after
  // those of the frames around it, whose innermost block is its parent.
  ghost predicate Open(h: Heap, frames: seq<Frame>, current: BlockRef, ifs: seq<nat>, fors: seq<nat>, blocks: seq<nat>, bound: nat)
    decreases |frames|
  {
    bound <= |h.cells| &&
    if frames == [] then current == Root && ifs == fors == blocks == []
    else
      var n := |frames| - 1;
      match frames[n]
      case InFor =>
        fors != [] && var id := fors[|fors| - 1];
        id < bound && h.cells[id].ForCell? && current == BodyOf(id) &&
        Open(h, frames[..n], h.cells[id].parent, ifs, fors[..|fors| - 1], blocks, id)
      case InBlock =>
        blocks != [] && var id := blocks[|blocks| - 1];
        id < bound && h.cells[id].NamedCell? && current == NamedOf(id) &&
        Open(h, frames[..n], h.cells[id].parent, ifs, fors, blocks[..|blocks| - 1], id)
      case InIf(elseSeen, nested) =>
        nested < |ifs| &&
        var k := |ifs| - 1 - nested;
        IsChain(h, ifs[k..], bound) && IsTop(h, ifs[|ifs| - 1], elseSeen, current) &&
        Open(h, frames[..n], h.cells[ifs[k]].parent, ifs[..k], fors, blocks, ifs[k])
  }

  // An if and the else-ifs chained to it.
  ghost predicate IsChain(h: Heap, ids: seq<nat>, bound: nat) {
    ids != [] && bound <= |h.cells| &&
    (forall i :: 0 <= i < |ids| ==> ids[0] <= ids[i] < bound && h.cells[ids[i]].IfCell?) &&
    !h.cells[ids[0]].isNested && forall i :: 0 < i < |ids| ==> h.cells[ids[i]].isNested
  }

  ghost predicate IsTop(h: Heap, id: nat, elseSeen: bool, current: BlockRef) {
    id < |h.cells| && h.cells[id].IfCell? && h.cells[id].hasFalse == elseSeen &&
    current == (if elseSeen then FalseOf(id) else TrueOf(id)) && Plain(h, h.cells[id].falseStatement)
  }

  ghost predicate Opened(p: Parser, frames: seq<Frame>) {
    Sound(p.h) && Open(p.h, frames, p.current, p.ifs, p.fors, p.blocks, |p.h.cells|)
  }

  // ---------------------------------------------------------------- changes that keep it

  lemma BodyKept(h: Heap, h': Heap, ns: seq<Node>, lo: nat)
    requires SameShape(h, h') && Linked(h, ns, lo)
    ensures Linked(h', ns, lo) && (Plain(h, ns) ==> Plain(h', ns)) && (IsChained(h, ns) ==> IsChained(h', ns))
  {
    forall n | n in ns && (n.IfNode? || n.ForNode? || n.NamedBlockNode?)
      ensures n.id < |h.cells| && SameCellShape(h.cells[n.id], h'.cells[n.id])
    {
    }
    if IsChained(h, ns) { assert ns[0] in ns; }
  }

  lemma CellKept(h: Heap, h': Heap, c: Cell, lo: nat)
    requires SameShape(h, h') && SoundCell(h, c, lo)
    ensures SoundCell(h', c, lo)
  {
    hide SameShape, Linked, Plain, IsChained;
    match c
    case IfCell(_, thn, els, _, _, hasFalse) =>
      BodyKept(h, h', thn, lo);
      BodyKept(h, h', els, lo);
      if !hasFalse { assert els == []; }
    case ForCell(_, _, _, body, _) => BodyKept(h, h', body, lo);
    case NamedCell(_, block, _) => BodyKept(h, h', block, lo);
  }

  // Open frames do not mind what happens to cells from their bound on.
  lemma {:induction false} OpenKept(h: Heap, h': Heap, frames: seq<Frame>, current: BlockRef, ifs: seq<nat>, fors: seq<nat>,
                                    blocks: seq<nat>, bound: nat, bound': nat)
    requires Open(h, frames, current, ifs, fors, blocks, bound) && Sound(h)
    requires SameShape(h, h') && bound <= bound' <= |h'.cells|
    requires forall i :: 0 <= i < bound ==> h'.cells[i] == h.cells[i]
    ensures Open(h', frames, current, ifs, fors, blocks, bound')
    decreases |frames|
  {
    hide SameShape, Sound, Plain;
    if frames != [] {
      var n := |frames| - 1;
      match frames[n]
      case InFor =>
        var id := fors[|fors| - 1];
        OpenKept(h, h', frames[..n], h.cells[id].parent, ifs, fors[..|fors| - 1], blocks, id, id);
      case InBlock =>
        var id := blocks[|blocks| - 1];
        OpenKept(h, h', frames[..n], h.cells[id].parent, ifs, fors, blocks[..|blocks| - 1], id, id);
      case InIf(elseSeen, nested) =>
        var k := |ifs| - 1 - nested;
        ChainIds(h, ifs, k, bound);
        TopKept(h, h', ifs[|ifs| - 1]);
        OpenKept(h, h', frames[..n], h.cells[ifs[k]].parent, ifs[..k], fors, blocks, ifs[k], ifs[k]);
    }
  }

  lemma ChainIds(h: Heap, ifs: seq<nat>, k: nat, bound: nat)
    requires k < |ifs| && IsChain(h, ifs[k..], bound)
    ensures ifs[k] < bound && ifs[k] <= ifs[|ifs| - 1] < bound
  {
    assert ifs[k..][0] == ifs[k] && ifs[k..][|ifs| - 1 - k] == ifs[|ifs| - 1];
  }

  lemma TopKept(h: Heap, h': Heap, id: nat)
    requires Sound(h) && SameShape(h, h') && id < |h.cells| && h.cells[id].IfCell? && Plain(h, h.cells[id].falseStatement)
    ensures Plain(h', h.cells[id].falseStatement)
  {
    assert SoundCell(h, h.cells[id], id + 1);
    BodyKept(h, h', h.cells[id].falseStatement, id + 1);
  }

  // ---------------------------------------------------------------- linking a node into the current block

  function BlockOf(h: Heap, r: BlockRef): seq<Node>
    requires ValidRef(h, r)
  {
    match r
    case Root => h.root
    case TrueOf(i) => h.cells[i].trueStatement
    case FalseOf(i) => h.cells[i].falseStatement
    case BodyOf(i) => h.cells[i].body
    case NamedOf(i) => h.cells[i].block
  }

  function LowOf(r: BlockRef): nat {
    match r case Root => 0 case TrueOf(i) => i + 1 case FalseOf(i) => i + 1 case BodyOf(i) => i + 1 case NamedOf(i) => i + 1
  }

  // Nodes may be appended here; a chained if only to an empty false branch.
  ghost predicate Accepts(h: Heap, at: BlockRef, chained: bool) {
    ValidRef(h, at) &&
    if at.FalseOf? then h.cells[at.id].hasFalse && Plain(h, h.cells[at.id].falseStatement) && (chained ==> h.cells[at.id].falseStatement == [])
    else !chained
  }

  // The heap with one more node in a block, and perhaps one more, empty, cell.
  function WithNode(h: Heap, at: BlockRef, n: Node, added: seq<Cell>): Heap {
    Heap(Append(h, at, [n]).root, Append(h, at, [n]).cells + added)
  }

  predicate IsFresh(c: Cell) {
    match c
    case IfCell(_, thn, els, _, _, hasFalse) => thn == els == [] && !hasFalse
    case ForCell(_, _, _, body, _) => body == []
    case NamedCell(_, block, _) => block == []
  }

  // A leaf, or a node for the fresh cell at `id`.
  predicate Fits(n: Node, added: seq<Cell>, id: nat) {
    match n
    case IfNode(i) => |added| == 1 && added[0].IfCell? && i == id
    case ForNode(i) => |added| == 1 && added[0].ForCell? && i == id
    case NamedBlockNode(i) => |added| == 1 && added[0].NamedCell? && i == id
    case _ => added == []
  }

  predicate Chained(added: seq<Cell>) { added != [] && added[0].IfCell? && added[0].isNested }

  lemma WithNodeShape(h: Heap, at: BlockRef, n: Node, added: seq<Cell>)
    requires ValidRef(h, at)
    ensures var h' := WithNode(h, at, n, added);
            SameShape(h, h') && |h'.cells| == |h.cells| + |added| && ValidRef(h', at) &&
            BlockOf(h', at) == BlockOf(h, at) + [n] && (at != Root ==> h'.root == h.root)
    ensures var h' := WithNode(h, at, n, added);
            forall i :: 0 <= i < |h.cells| && (at == Root || i + 1 != LowOf(at)) ==> h'.cells[i] == h.cells[i]
  {
  }

  lemma WithNodeCell(h: Heap, at: BlockRef, n: Node, added: seq<Cell>)
    requires ValidRef(h, at) && at != Root
    ensures var c, c' := h.cells[LowOf(at) - 1], WithNode(h, at, n, added).cells[LowOf(at) - 1];
            match at
            case TrueOf(_) => c' == c.(trueStatement := c.trueStatement + [n])
            case FalseOf(_) => c' == c.(falseStatement := c.falseStatement + [n])
            case BodyOf(_) => c' == c.(body := c.body + [n])
            case NamedOf(_) => c' == c.(block := c.block + [n])
            case Root => true
  {
  }

  // A list of statements with a fitting node at its end.
  lemma BodyPlus(h: Heap, h': Heap, ns: seq<Node>, n: Node, added: seq<Cell>, lo: nat)
    requires SameShape(h, h') && IsBody(h, ns, lo) && lo <= |h.cells| && Fits(n, added, |h.cells|)
    requires |h'.cells| == |h.cells| + |added| && h'.cells[|h.cells|..] == added
    ensures Linked(h', ns + [n], lo) && (!Chained(added) ==> Plain(h', ns + [n]))
    ensures Chained(added) && n.IfNode? && ns == [] ==> IsChained(h', ns + [n])
  {
    BodyKept(h, h', ns, lo);
    assert added != [] ==> h'.cells[|h.cells|] == added[0];
  }

  lemma SoundWithNode(h: Heap, at: BlockRef, n: Node, added: seq<Cell>)
    requires Sound(h) && Accepts(h, at, Chained(added)) && Fits(n, added, |h.cells|) && forall c <- added :: IsFresh(c)
    ensures Sound(WithNode(h, at, n, added))
  {
    var h' := WithNode(h, at, n, added);
    WithNodeShape(h, at, n, added);
    assert h'.cells[|h.cells|..] == added;
    if at == Root { BodyPlus(h, h', h.root, n, added, 0); } else { BodyKept(h, h', h.root, 0); }
    forall i | 0 <= i < |h'.cells| ensures SoundCell(h', h'.cells[i], i + 1) {
      if i >= |h.cells| {
        assert h'.cells[i] == added[i - |h.cells|];
        FreshIsSound(h', h'.cells[i], i + 1);
      } else if at == Root || i + 1 != LowOf(at) {
        CellKept(h, h', h.cells[i], i + 1);
      } else {
        SoundHolder(h, at, n, added);
      }
    }
  }

  lemma FreshIsSound(h: Heap, c: Cell, lo: nat)
    requires IsFresh(c)
    ensures SoundCell(h, c, lo)
  {
  }

  lemma SoundHolder(h: Heap, at: BlockRef, n: Node, added: seq<Cell>)
    requires Sound(h) && at != Root && Accepts(h, at, Chained(added)) && Fits(n, added, |h.cells|)
    ensures SoundCell(WithNode(h, at, n, added), WithNode(h, at, n, added).cells[LowOf(at) - 1], LowOf(at))
  {
    var h', i := WithNode(h, at, n, added), LowOf(at) - 1;
    WithNodeShape(h, at, n, added);
    WithNodeCell(h, at, n, added);
    assert h'.cells[|h.cells|..] == added;
    assert SoundCell(h, h.cells[i], i + 1);
    hide WithNode, SameShape, Linked, Plain, IsChained, Sound;
    match at
    case TrueOf(_) =>
      BodyPlus(h, h', h.cells[i].trueStatement, n, added, i + 1);
      BodyKept(h, h', h.cells[i].falseStatement, i + 1);
    case FalseOf(_) =>
      BodyKept(h, h', h.cells[i].trueStatement, i + 1);
      BodyPlus(h, h', h.cells[i].falseStatement, n, added, i + 1);
    case BodyOf(_) => BodyPlus(h, h', h.cells[i].body, n, added, i + 1);
    case NamedOf(_) => BodyPlus(h, h', h.cells[i].block, n, added, i + 1);
  }

  lemma OpenAccepts(h: Heap, frames: seq<Frame>, current: BlockRef, ifs: seq<nat>, fors: seq<nat>, blocks: seq<nat>, bound: nat)
    requires Open(h, frames, current, ifs, fors, blocks, bound)
    ensures Accepts(h, current, false) && LowOf(current) <= bound
  {
    if frames != [] && frames[|frames| - 1].InIf? {
      ChainIds(h, ifs, |ifs| - 1 - frames[|frames| - 1].nested, bound);
    }
  }

  // A node in the current block leaves all frames as they are.
  lemma OpenWithNode(h: Heap, frames: seq<Frame>, current: BlockRef, ifs: seq<nat>, fors: seq<nat>, blocks: seq<nat>,
                     n: Node, added: seq<Cell>)
    requires Sound(h) && Open(h, frames, current, ifs, fors, blocks, |h.cells|)
    requires ValidRef(h, current) && Fits(n, added, |h.cells|) && !Chained(added)
    ensures Open(WithNode(h, current, n, added), frames, current, ifs, fors, blocks, |h.cells|)
  {
    hide Sound, SameShape, WithNode, Linked, Plain;
    var h' := WithNode(h, current, n, added);
    WithNodeShape(h, current, n, added);
    if frames != [] {
      WithNodeCell(h, current, n, added);
      var k := |frames| - 1;
      var id := LowOf(current) - 1;
      SameAt(h, h', id);
      match frames[k]
      case InFor => OpenKept(h, h', frames[..k], h.cells[id].parent, ifs, fors[..|fors| - 1], blocks, id, id);
      case InBlock => OpenKept(h, h', frames[..k], h.cells[id].parent, ifs, fors, blocks[..|blocks| - 1], id, id);
      case InIf(elseSeen, nested) =>
        var j := |ifs| - 1 - nested;
        ChainIds(h, ifs, j, |h.cells|);
        SameAt(h, h', ifs[j]);
        OpenKept(h, h', frames[..k], h.cells[ifs[j]].parent, ifs[..j], fors, blocks, ifs[j], ifs[j]);
        ChainKept(h, h', ifs[j..], |h.cells|);
        TopWithNode(h, current, n, added, id, elseSeen);
    }
  }

  lemma SameAt(h: Heap, h': Heap, id: nat)
    requires SameShape(h, h') && id < |h.cells|
    ensures SameCellShape(h.cells[id], h'.cells[id])
  {
  }

  lemma ChainKept(h: Heap, h': Heap, ids: seq<nat>, bound: nat)
    requires IsChain(h, ids, bound) && SameShape(h, h')
    ensures IsChain(h', ids, bound)
  {
    forall i | 0 <= i < |ids| ensures SameCellShape(h.cells[ids[i]], h'.cells[ids[i]]) { SameAt(h, h', ids[i]); }
  }

  lemma TopWithNode(h: Heap, current: BlockRef, n: Node, added: seq<Cell>, id: nat, elseSeen: bool)
    requires Sound(h) && IsTop(h, id, elseSeen, current) && Fits(n, added, |h.cells|) && !Chained(added)
    ensures IsTop(WithNode(h, current, n, added), id, elseSeen, current)
  {
    var h' := WithNode(h, current, n, added);
    WithNodeShape(h, current, n, added);
    WithNodeCell(h, current, n, added);
    assert h'.cells[|h.cells|..] == added;
    assert SoundCell(h, h.cells[id], id + 1);
    if elseSeen { BodyPlus(h, h', h.cells[id].falseStatement, n, added, id + 1); } else { TopKept(h, h', id); }
  }

  // ---------------------------------------------------------------- one step

  lemma OpenedLeaf(p: Parser, frames: seq<Frame>, n: Node, q: Parser)
    requires Opened(p, frames) && Fits(n, [], |p.h.cells|) && q == AddNode(p, n).(toks := q.toks, lit := q.lit)
    ensures Opened(q, frames)
  {
    hide Sound, Open;
    OpenAccepts(p.h, frames, p.current, p.ifs, p.fors, p.blocks, |p.h.cells|);
    SoundWithNode(p.h, p.current, n, []);
    OpenWithNode(p.h, frames, p.current, p.ifs, p.fors, p.blocks, n, []);
    WithNodeShape(p.h, p.current, n, []);
    assert q.h == WithNode(p.h, p.current, n, []);
  }

  // Entering a fresh statement node opens its frame.
  lemma OpenedEnter(p: Parser, frames: seq<Frame>, node: Node, cell: Cell, inner: BlockRef)
    requires Opened(p, frames) && Fits(node, [cell], |p.h.cells|) && IsFresh(cell) && !Chained([cell]) && cell.parent == p.current
    requires inner == (match cell case IfCell(_, _, _, _, _, _) => TrueOf(|p.h.cells|)
                                  case ForCell(_, _, _, _, _) => BodyOf(|p.h.cells|)
                                  case NamedCell(_, _, _) => NamedOf(|p.h.cells|))
    ensures var id, q := |p.h.cells|, Enter(p, p.current, node, cell, inner);
            match cell
            case IfCell(_, _, _, _, _, _) => Opened(q.(ifs := p.ifs + [id]), frames + [InIf(false, 0)])
            case ForCell(_, _, _, _, _) => Opened(q.(fors := p.fors + [id]), frames + [InFor])
            case NamedCell(_, _, _) => Opened(q.(blocks := p.blocks + [id]), frames + [InBlock])
  {
    hide Sound, Linked;
    OpenAccepts(p.h, frames, p.current, p.ifs, p.fors, p.blocks, |p.h.cells|);
    SoundWithNode(p.h, p.current, node, [cell]);
    OpenWithNode(p.h, frames, p.current, p.ifs, p.fors, p.blocks, node, [cell]);
    WithNodeShape(p.h, p.current, node, [cell]);
    var id, q := |p.h.cells|, Enter(p, p.current, node, cell, inner);
    assert q.h == WithNode(p.h, p.current, node, [cell]) && q.h.cells[id] == cell;
    OpenTop(q.h, frames, cell, p.current, p.ifs, p.fors, p.blocks, id);
  }

  lemma OpenTop(h: Heap, frames: seq<Frame>, cell: Cell, current: BlockRef, ifs: seq<nat>, fors: seq<nat>, blocks: seq<nat>, id: nat)
    requires Open(h, frames, current, ifs, fors, blocks, id) && id + 1 == |h.cells| && h.cells[id] == cell
    requires IsFresh(cell) && !Chained([cell]) && cell.parent == current
    ensures match cell
            case IfCell(_, _, _, _, _, _) => Open(h, frames + [InIf(false, 0)], TrueOf(id), ifs + [id], fors, blocks, id + 1)
            case ForCell(_, _, _, _, _) => Open(h, frames + [InFor], BodyOf(id), ifs, fors + [id], blocks, id + 1)
            case NamedCell(_, _, _) => Open(h, frames + [InBlock], NamedOf(id), ifs, fors, blocks + [id], id + 1)
  {
    match cell
    case IfCell(_, _, _, _, _, _) =>
      var fs, ids := frames + [InIf(false, 0)], ifs + [id];
      assert fs[..|frames|] == frames && ids[..|ifs|] == ifs && ids[|ifs|..] == [id];
    case ForCell(_, _, _, _, _) =>
      var fs, ids := frames + [InFor], fors + [id];
      assert fs[..|frames|] == frames && ids[..|fors|] == fors;
    case NamedCell(_, _, _) =>
      var fs, ids := frames + [InBlock], blocks + [id];
      assert fs[..|frames|] == frames && ids[..|blocks|] == blocks;
  }

  lemma OpenedIf(env: Environment, p: Parser, closing: Kind, frames: seq<Frame>)
    requires Opened(p, frames) && ParseIf(env, p, closing, false).Ok?
    ensures Opened(ParseIf(env, p, closing, false).value, frames + [InIf(false, 0)])
  {
    hide Sound, Open, Condition;
    var (q, cond) := Condition(env, p, closing).value;
    var id := |q.h.cells|;
    OpenedEnter(q, frames, IfNode(id), IfCell(cond, [], [], q.current, false, false), TrueOf(id));
  }

  lemma OpenedForIn(env: Environment, p: Parser, closing: Kind, key: Option<string>, value: string, frames: seq<Frame>)
    requires Opened(p, frames) && ParseForIn(env, p, closing, key, value).Ok?
    ensures Opened(ParseForIn(env, p, closing, key, value).value, frames + [InFor])
  {
    hide Sound, Open, Condition;
    var (q, cond) := Condition(env, Advance(p), closing).value;
    var id := |q.h.cells|;
    OpenedEnter(q, frames, ForNode(id), ForCell(key, value, cond, [], q.current), BodyOf(id));
  }

  lemma OpenedFor(env: Environment, p: Parser, closing: Kind, frames: seq<Frame>)
    requires Opened(p, frames) && ParseFor(env, p, closing).Ok?
    ensures Opened(ParseFor(env, p, closing).value, frames + [InFor])
  {
    hide Sound, Open, ParseForIn;
    if First(Tail(p.toks)).kind.Comma? {
      OpenedForIn(env, Advance(Advance(Advance(p))), closing, Some(First(p.toks).text), First(Tail(Tail(p.toks))).text, frames);
    } else {
      OpenedForIn(env, Advance(p), closing, None, First(p.toks).text, frames);
    }
  }

  lemma OpenedBlock(p: Parser, frames: seq<Frame>)
    requires Opened(p, frames) && ParseBlock(p).Ok?
    ensures Opened(ParseBlock(p).value, frames + [InBlock])
  {
    hide Sound, Open;
    var id := |p.h.cells|;
    OpenedEnter(p, frames, NamedBlockNode(id), NamedCell(First(p.toks).text, [], p.current), NamedOf(id));
  }

  lemma OpenedSet(env: Environment, p: Parser, closing: Kind, frames: seq<Frame>)
    requires Opened(p, frames) && ParseSet(env, p, closing).Ok?
    ensures Opened(ParseSet(env, p, closing).value, frames)
  {
    hide Sound, Open, Condition;
    var c := Condition(env, Advance(Advance(p)), closing).value;
    OpenedLeaf(p, frames, SetNode(First(p.toks).text, c.1), ParseSet(env, p, closing).value);
  }

  lemma OpenedFile(env: Environment, p: Parser, isExtends: bool, frames: seq<Frame>)
    requires Opened(p, frames) && ParseFileNode(env, p, isExtends).Ok?
    ensures Opened(ParseFileNode(env, p, isExtends).value, frames)
  {
    hide Sound, Open;
    var f := ParseFile(env, p).value;
    OpenedLeaf(p, frames, if isExtends then ExtendsNode(f) else IncludeNode(f), ParseFileNode(env, p, isExtends).value);
  }

  // ---------------------------------------------------------------- else and the closing tags

  lemma ShapeJoins(a: Heap, b: Heap, c: Heap)
    requires SameShape(a, b) && SameShape(b, c)
    ensures SameShape(a, c)
  {
    forall i | 0 <= i < |a.cells| ensures SameCellShape(a.cells[i], c.cells[i]) {
      SameAt(a, b, i);
      SameAt(b, c, i);
    }
  }

  // The frames around an open if.
  lemma AroundIf(h: Heap, h': Heap, frames: seq<Frame>, current: BlockRef, ifs: seq<nat>, fors: seq<nat>, blocks: seq<nat>,
                 bound': nat)
    requires Sound(h) && Open(h, frames, current, ifs, fors, blocks, |h.cells|)
    requires frames != [] && frames[|frames| - 1].InIf?
    requires SameShape(h, h') && forall i :: 0 <= i < |h.cells| && i != ifs[|ifs| - 1] ==> h'.cells[i] == h.cells[i]
    requires var j := |ifs| - 1 - frames[|frames| - 1].nested; ifs[j] <= bound' <= |h'.cells|
    ensures var j := |ifs| - 1 - frames[|frames| - 1].nested;
            IsChain(h', ifs[j..], |h.cells|) && h'.cells[ifs[j]].parent == h.cells[ifs[j]].parent &&
            Open(h', frames[..|frames| - 1], h.cells[ifs[j]].parent, ifs[..j], fors, blocks, bound')
  {
    hide SameShape, Sound;
    var j := |ifs| - 1 - frames[|frames| - 1].nested;
    ChainIds(h, ifs, j, |h.cells|);
    ChainKept(h, h', ifs[j..], |h.cells|);
    SameAt(h, h', ifs[j]);
    OpenKept(h, h', frames[..|frames| - 1], h.cells[ifs[j]].parent, ifs[..j], fors, blocks, ifs[j], bound');
  }

  lemma MarkedIsSound(h: Heap, id: nat)
    requires Sound(h) && ValidRef(h, FalseOf(id)) && !h.cells[id].hasFalse
    ensures var h' := h.(cells := h.cells[id := h.cells[id].(hasFalse := true)]);
            Sound(h') && SameShape(h, h') && h.cells[id].falseStatement == []
  {
    var h' := h.(cells := h.cells[id := h.cells[id].(hasFalse := true)]);
    assert SoundCell(h, h.cells[id], id + 1);
    assert SameShape(h, h');
    BodyKept(h, h', h.root, 0);
    forall i | 0 <= i < |h'.cells| ensures SoundCell(h', h'.cells[i], i + 1) {
      CellKept(h, h', h.cells[i], i + 1);
    }
  }

  // A frame for an if, from what it consists of.
  lemma IfFrame(h: Heap, frames: seq<Frame>, elseSeen: bool, nested: nat, current: BlockRef, ifs: seq<nat>, fors: seq<nat>,
                blocks: seq<nat>, bound: nat)
    requires nested < |ifs|
    requires var j := |ifs| - 1 - nested;
             IsChain(h, ifs[j..], bound) && IsTop(h, ifs[|ifs| - 1], elseSeen, current) && ifs[j..][0] == ifs[j] &&
             Open(h, frames, h.cells[ifs[j]].parent, ifs[..j], fors, blocks, ifs[j])
    ensures Open(h, frames + [InIf(elseSeen, nested)], current, ifs, fors, blocks, bound)
  {
    assert (frames + [InIf(elseSeen, nested)])[..|frames|] == frames;
  }

  lemma OpenedElse(p: Parser, frames: seq<Frame>, toks: seq<Token>)
    requires Opened(p, frames) && Nest(frames, ElseTag).Some?
    ensures p.ifs != [] && ValidRef(p.h, FalseOf(p.ifs[|p.ifs| - 1])) && !p.h.cells[p.ifs[|p.ifs| - 1]].hasFalse
    ensures Opened(T.EnterElse(p).(toks := toks), Nest(frames, ElseTag).value)
  {
    hide Sound, SameShape, IsChain;
    var k := |frames| - 1;
    var j := |p.ifs| - 1 - frames[k].nested;
    var id := p.ifs[|p.ifs| - 1];
    var q := T.EnterElse(p);
    MarkedIsSound(p.h, id);
    ChainIds(p.h, p.ifs, j, |p.h.cells|);
    AroundIf(p.h, q.h, frames, p.current, p.ifs, p.fors, p.blocks, p.ifs[j]);
    assert IsTop(q.h, id, true, FalseOf(id));
    hide Open, IsTop;
    IfFrame(q.h, frames[..k], true, frames[k].nested, FalseOf(id), p.ifs, p.fors, p.blocks, |q.h.cells|);
  }

  // The heap after an else-if: the if on top has its else, and in it, alone, a chained if.
  lemma ElseIfHeap(p: Parser, frames: seq<Frame>, cond: Option<Expr>)
    requires Opened(p, frames) && Nest(frames, ElseIfTag).Some?
    requires p.ifs != [] && ValidRef(p.h, FalseOf(p.ifs[|p.ifs| - 1]))
    ensures var id, h1, nid := p.ifs[|p.ifs| - 1], T.EnterElse(p).h, |p.h.cells|;
            var cell := IfCell(cond, [], [], FalseOf(id), true, false);
            var h2 := WithNode(h1, FalseOf(id), IfNode(nid), [cell]);
            Sound(h2) && SameShape(p.h, h2) && |h2.cells| == nid + 1 && h2.cells[nid] == cell &&
            forall i :: 0 <= i < nid && i != id ==> h2.cells[i] == p.h.cells[i]
  {
    hide Sound, SameShape, Linked, Open;
    OpenedElse(p, frames, p.toks);
    var id, h1, nid := p.ifs[|p.ifs| - 1], T.EnterElse(p).h, |p.h.cells|;
    var cell := IfCell(cond, [], [], FalseOf(id), true, false);
    MarkedIsSound(p.h, id);
    SoundWithNode(h1, FalseOf(id), IfNode(nid), [cell]);
    WithNodeShape(h1, FalseOf(id), IfNode(nid), [cell]);
    EnterIsWithNode(h1, FalseOf(id), IfNode(nid), cell);
    ShapeJoins(p.h, h1, WithNode(h1, FalseOf(id), IfNode(nid), [cell]));
  }

  lemma OpenedElseIf(env: Environment, p: Parser, closing: Kind, frames: seq<Frame>, toks: seq<Token>)
    requires Opened(p, frames) && Nest(frames, ElseIfTag).Some?
    requires p.ifs != [] && ValidRef(p.h, FalseOf(p.ifs[|p.ifs| - 1]))
    requires ParseIf(env, T.EnterElse(p).(toks := toks), closing, true).Ok?
    ensures Opened(ParseIf(env, T.EnterElse(p).(toks := toks), closing, true).value, Nest(frames, ElseIfTag).value)
  {
    hide Sound, SameShape, Condition, WithNode, Append, Open, Nest;
    var id, p1 := p.ifs[|p.ifs| - 1], T.EnterElse(p).(toks := toks);
    var (c, cond) := Condition(env, p1, closing).value;
    var nid := |p.h.cells|;
    ElseIfHeap(p, frames, cond);
    EnterIsWithNode(p1.h, FalseOf(id), IfNode(nid), IfCell(cond, [], [], FalseOf(id), true, false));
    ElseIfOpens(p.h, ParseIf(env, p1, closing, true).value.h, frames, p.current, p.ifs, p.fors, p.blocks);
  }

  lemma ElseIfOpens(h: Heap, h': Heap, frames: seq<Frame>, current: BlockRef, ifs: seq<nat>, fors: seq<nat>, blocks: seq<nat>)
    requires Sound(h) && Open(h, frames, current, ifs, fors, blocks, |h.cells|) && Nest(frames, ElseIfTag).Some?
    requires SameShape(h, h') && |h'.cells| == |h.cells| + 1 && ifs != []
    requires forall i :: 0 <= i < |h.cells| && i != ifs[|ifs| - 1] ==> h'.cells[i] == h.cells[i]
    requires var c := h'.cells[|h.cells|]; c.IfCell? && c.isNested && !c.hasFalse && c.falseStatement == []
    ensures Open(h', Nest(frames, ElseIfTag).value, TrueOf(|h.cells|), ifs + [|h.cells|], fors, blocks, |h'.cells|)
  {
    hide Sound, SameShape, IsChain;
    var nid, n := |h.cells|, frames[|frames| - 1].nested;
    var j := |ifs| - 1 - n;
    ChainIds(h, ifs, j, nid);
    AroundIf(h, h', frames, current, ifs, fors, blocks, ifs[j]);
    ChainGrows(h', ifs[j..], nid);
    assert IsTop(h', nid, false, TrueOf(nid));
    hide Open, IsTop;
    var ifs' := ifs + [nid];
    assert ifs'[j..] == ifs[j..] + [nid] && ifs'[..j] == ifs[..j];
    IfFrame(h', frames[..|frames| - 1], false, n + 1, TrueOf(nid), ifs', fors, blocks, nid + 1);
  }

  lemma EnterIsWithNode(h: Heap, at: BlockRef, n: Node, cell: Cell)
    ensures WithNode(h, at, n, [cell]) == Heap(Append(h, at, [n]).root, Append(h, at, [n]).cells + [cell])
    ensures WithNode(h, at, n, [cell]).cells[|h.cells|] == cell
  {
  }

  lemma ChainGrows(h: Heap, ids: seq<nat>, id: nat)
    requires IsChain(h, ids, id) && id + 1 == |h.cells| && h.cells[id].IfCell? && h.cells[id].isNested
    ensures IsChain(h, ids + [id], id + 1)
  {
  }

  lemma OpenedEndif(p: Parser, frames: seq<Frame>)
    requires Opened(p, frames) && Nest(frames, EndifTag).Some?
    ensures ParseEndif(p).Ok? && Opened(ParseEndif(p).value, Nest(frames, EndifTag).value)
  {
    hide Sound, SameShape, Plain;
    var k := |frames| - 1;
    var j := |p.ifs| - 1 - frames[k].nested;
    ChainIds(p.h, p.ifs, j, |p.h.cells|);
    SameAlways(p.h);
    AroundIf(p.h, p.h, frames, p.current, p.ifs, p.fors, p.blocks, |p.h.cells|);
    EndifPops(p, j);
  }

  lemma EndifPops(p: Parser, j: nat)
    requires j < |p.ifs| && IsChain(p.h, p.ifs[j..], |p.h.cells|)
    ensures p.ifs[j] < |p.h.cells|
    ensures ParseEndif(p) == Ok(p.(current := p.h.cells[p.ifs[j]].parent, ifs := p.ifs[..j]))
  {
    ChainIds(p.h, p.ifs, j, |p.h.cells|);
    var base, extra := p.ifs[..j + 1], p.ifs[j + 1..];
    assert base + extra == p.ifs && base[j] == p.ifs[j] && p.ifs[j..][0] == p.ifs[j];
    forall id | id in extra ensures ValidRef(p.h, TrueOf(id)) && p.h.cells[id].isNested {
      var i :| 0 <= i < |extra| && extra[i] == id;
      assert p.ifs[j..][i + 1] == id;
    }
    T.PopNestedDrops(p.h, base, extra);
    assert base[..j] == p.ifs[..j];
  }

  lemma SameAlways(h: Heap)
    ensures SameShape(h, h)
  {
  }

  lemma OpenedEndfor(p: Parser, frames: seq<Frame>)
    requires Opened(p, frames) && Nest(frames, EndforTag).Some?
    ensures ParseEndfor(p).Ok? && Opened(ParseEndfor(p).value, Nest(frames, EndforTag).value)
  {
    hide Sound, SameShape;
    SameAlways(p.h);
    var k, id := |frames| - 1, p.fors[|p.fors| - 1];
    OpenKept(p.h, p.h, frames[..k], p.h.cells[id].parent, p.ifs, p.fors[..|p.fors| - 1], p.blocks, id, |p.h.cells|);
  }

  lemma OpenedEndblock(p: Parser, frames: seq<Frame>)
    requires Opened(p, frames) && Nest(frames, EndblockTag).Some?
    ensures ParseEndblock(p).Ok? && Opened(ParseEndblock(p).value, Nest(frames, EndblockTag).value)
  {
    hide Sound, SameShape;
    SameAlways(p.h);
    var k, id := |frames| - 1, p.blocks[|p.blocks| - 1];
    OpenKept(p.h, p.h, frames[..k], p.h.cells[id].parent, p.ifs, p.fors, p.blocks[..|p.blocks| - 1], id, |p.h.cells|);
  }

  // ---------------------------------------------------------------- whole runs

  lemma OpenedStatement(env: Environment, p: Parser, closing: Kind, frames: seq<Frame>)
    requires Opened(p, frames) && ParseStatement(env, p, closing).Ok? && Nest(frames, TagAt(p.toks)).Some?
    ensures Opened(ParseStatement(env, p, closing).value, Nest(frames, TagAt(p.toks)).value)
  {
    hide Sound, Open, KeywordOf, ParseIf, ParseEndif, ParseBlock, ParseEndblock, ParseFor, ParseEndfor, ParseSet, ParseFileNode, Nest;
    var q := Advance(p);
    assert Opened(q, frames) && First(q.toks) == First(Tail(p.toks));
    match KeywordOf(First(p.toks))
    case KwIf =>
      OpenedIf(env, q, closing, frames);
      NestPushes(frames);
    case KwElse => OpenedElseTag(env, q, closing, frames, TagAt(p.toks));
    case KwEndif => OpenedEndif(q, frames);
    case KwBlock =>
      OpenedBlock(q, frames);
      NestPushes(frames);
    case KwEndblock => OpenedEndblock(q, frames);
    case KwFor =>
      OpenedFor(env, q, closing, frames);
      NestPushes(frames);
    case KwEndfor => OpenedEndfor(q, frames);
    case KwInclude =>
      OpenedFile(env, q, false, frames);
      NestPushes(frames);
    case KwExtends =>
      OpenedFile(env, q, true, frames);
      NestPushes(frames);
    case KwSet =>
      OpenedSet(env, q, closing, frames);
      NestPushes(frames);
    case KwNone =>
  }

  lemma NestPushes(frames: seq<Frame>)
    ensures Nest(frames, IfTag) == Some(frames + [InIf(false, 0)]) && Nest(frames, ForTag) == Some(frames + [InFor])
    ensures Nest(frames, BlockTag) == Some(frames + [InBlock]) && Nest(frames, LeafTag) == Some(frames)
    ensures Nest(frames, ElseTag).Some? == Nest(frames, ElseIfTag).Some?
  {
  }

  lemma OpenedElseTag(env: Environment, p: Parser, closing: Kind, frames: seq<Frame>, tag: Tag)
    requires Opened(p, frames) && ParseElse(env, p, closing).Ok? && Nest(frames, tag).Some?
    requires tag == if IsKeyword(First(p.toks), "if") then ElseIfTag else ElseTag
    ensures Opened(ParseElse(env, p, closing).value, Nest(frames, tag).value)
  {
    hide Sound, Open, ParseIf, Nest;
    NestPushes(frames);
    OpenedElse(p, frames, p.toks);
    if tag.ElseIfTag? { OpenedElseIf(env, p, closing, frames, Tail(p.toks)); }
  }

  lemma OpenedStep(env: Environment, p: Parser, frames: seq<Frame>)
    requires p.toks != [] && Opened(p, frames) && Step(env, p).Ok?
    requires OpensStatement(p.toks[0].kind) ==> Nest(frames, TagAt(p.toks[1..])).Some?
    ensures Opened(Step(env, p).value, if OpensStatement(p.toks[0].kind) then Nest(frames, TagAt(p.toks[1..])).value else frames)
  {
    hide Sound, Open, ParseStatement, X.ParseExpr, Nest, TagAt;
    var q := Advance(p);
    assert Opened(q, frames);
    match p.toks[0].kind
    case Text => OpenedLeaf(q, frames, TextNode(p.toks[0].text), Step(env, p).value);
    case StatementOpen => OpenedStatement(env, q, StatementClose, frames);
    case LineStatementOpen => OpenedStatement(env, q, LineStatementClose, frames);
    case ExpressionOpen =>
      var r := X.ParseExpr(env.expr, q.toks, q.lit);
      OpenedLeaf(q, frames, ExpressionNode(r.value.node), Step(env, p).value);
    case _ =>
  }

  lemma {:induction false} NestedRun(env: Environment, p: Parser, frames: seq<Frame>)
    requires IsInput(p.toks) && Opened(p, frames) && Nested(frames, Tags(p.toks)) && ParseInto(env, p).Ok?
    ensures Opened(ParseInto(env, p).value, [])
    decreases |p.toks|
  {
    hide Step, Opened, Nest, TagAt;
    if p.toks != [] {
      assert p.toks[0] in p.toks;
      StepTags(env, p);
      OpenedStep(env, p, frames);
      var q, tags := Step(env, p).value, Tags(p.toks);
      NestPushes(frames);
      if Starts(p.toks[0].kind) {
        assert tags[0] == TagOf(p.toks) && tags[1..] == Tags(q.toks);
        NestedRun(env, q, Nest(frames, tags[0]).value);
      } else {
        assert tags == Tags(q.toks);
        NestedRun(env, q, frames);
      }
    }
  }

  // ---------------------------------------------------------------- the tree that is represented

  ghost predicate FilledNodes(ns: seq<Node>) {
    forall n <- ns :: (n.ExpressionNode? ==> n.root.Some?) && (n.SetNode? ==> n.expression.Some?)
  }

  // No expression that was read is empty.
  ghost predicate Filled(h: Heap) {
    FilledNodes(h.root) && forall i :: 0 <= i < |h.cells| ==> FilledCell(h.cells[i])
  }

  ghost predicate FilledCell(c: Cell) {
    match c
    case IfCell(cond, thn, els, _, _, _) => cond.Some? && FilledNodes(thn) && FilledNodes(els)
    case ForCell(_, _, cond, body, _) => cond.Some? && FilledNodes(body)
    case NamedCell(_, block, _) => FilledNodes(block)
  }

  lemma {:induction false} TreeOf(h: Heap, ns: seq<Node>, lo: nat) returns (ss: seq<T.Stmt>)
    requires Sound(h) && Filled(h) && IsBody(h, ns, lo) && FilledNodes(ns) && lo <= |h.cells|
    ensures T.Represents(h, ns, ss, 0, |h.cells|)
    decreases |h.cells| - lo, |ns|
  {
    hide Sound, Filled, T.IsTree;
    ss := [];
    if ns != [] {
      assert ns[0] in ns;
      var s := NodeTree(h, ns[0], lo);
      var rest := TreeOf(h, ns[1..], lo);
      ss := [s] + rest;
    }
  }

  lemma {:induction false} NodeTree(h: Heap, n: Node, lo: nat) returns (s: T.Stmt)
    requires Sound(h) && Filled(h) && IsBody(h, [n], lo) && FilledNodes([n]) && lo <= |h.cells|
    ensures T.IsTree(h, n, s, 0, |h.cells|)
    decreases |h.cells| - lo, 0
  {
    hide Linked, Plain, FilledNodes, T.Represents, T.IsElse;
    NodeFacts(h, n, lo);
    match n
    case TextNode(text) => s := T.Text(text);
    case ExpressionNode(root) => s := T.Output(root.value);
    case SetNode(key, e) => s := T.Set(key, e.value);
    case IncludeNode(file) => s := T.Include(file);
    case ExtendsNode(file) => s := T.Extends(file);
    case IfNode(id) =>
      CellFacts(h, id);
      var thn := TreeOf(h, h.cells[id].trueStatement, id + 1);
      var els := ElseTree(h, id);
      s := T.If(h.cells[id].condition.value, thn, els);
    case ForNode(id) =>
      CellFacts(h, id);
      var c := h.cells[id];
      var body := TreeOf(h, c.body, id + 1);
      s := T.For(c.key, c.value, c.condition.value, body);
    case NamedBlockNode(id) =>
      CellFacts(h, id);
      var inner := TreeOf(h, h.cells[id].block, id + 1);
      s := T.Block(h.cells[id].name, inner);
  }

  lemma NodeFacts(h: Heap, n: Node, lo: nat)
    requires IsBody(h, [n], lo) && FilledNodes([n])
    ensures (n.ExpressionNode? ==> n.root.Some?) && (n.SetNode? ==> n.expression.Some?)
    ensures n.IfNode? ==> lo <= n.id < |h.cells| && h.cells[n.id].IfCell? && !h.cells[n.id].isNested
    ensures n.ForNode? ==> lo <= n.id < |h.cells| && h.cells[n.id].ForCell?
    ensures n.NamedBlockNode? ==> lo <= n.id < |h.cells| && h.cells[n.id].NamedCell?
  {
    assert n in [n];
  }

  lemma CellFacts(h: Heap, id: nat)
    requires Sound(h) && Filled(h) && id < |h.cells|
    ensures SoundCell(h, h.cells[id], id + 1) && FilledCell(h.cells[id])
  {
  }

  lemma {:induction false} ElseTree(h: Heap, id: nat) returns (els: T.Else)
    requires Sound(h) && Filled(h) && id < |h.cells| && h.cells[id].IfCell?
    ensures T.IsElse(h, h.cells[id], els, 0, |h.cells|)
    decreases |h.cells| - id - 1, |h.cells[id].falseStatement| + 1
  {
    hide Linked, Plain, FilledNodes, T.Represents;
    CellFacts(h, id);
    var c := h.cells[id];
    if !c.hasFalse {
      els := T.NoElse;
    } else if IsChained(h, c.falseStatement) {
      var nid := c.falseStatement[0].id;
      ChainedLater(h, c.falseStatement, id + 1);
      CellFacts(h, nid);
      var thn := TreeOf(h, h.cells[nid].trueStatement, nid + 1);
      var more := ElseTree(h, nid);
      els := T.ElseIf(h.cells[nid].condition.value, thn, more);
    } else {
      var ss := TreeOf(h, c.falseStatement, id + 1);
      els := T.ElseBlock(ss);
    }
  }

  lemma ChainedLater(h: Heap, ns: seq<Node>, lo: nat)
    requires Linked(h, ns, lo) && IsChained(h, ns)
    ensures lo <= ns[0].id
  {
    assert ns[0] in ns;
  }

  lemma FilledRoot(h: Heap)
    requires Filled(h)
    ensures FilledNodes(h.root)
  {
  }
}
