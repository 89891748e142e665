// The statement parser against the tags: after every step the current block, the stacks and what the blocks hold are
// those that the tags read so far tell.
module InjaEnds {
  import opened Wrappers
  import opened InjaSyntax
  import opened InjaStatement
  import opened InjaTags
  import opened InjaNesting
  import opened InjaPlaces

  // ---------------------------------------------------------------- the parser against the tags

  // The cells of the constructs that opened at these places.
  function Ids(tags: seq<Tag>, places: seq<nat>): (r: seq<nat>)
    requires forall i :: 0 <= i < |places| ==> places[i] < |tags|
    ensures |r| == |places|
  {
    seq(|places|, i requires 0 <= i < |places| => Cells(tags[..places[i]]))
  }

  ghost predicate Stacked(p: Parser, tags: seq<Tag>) {
    p.current == Where(tags) && p.ifs == IfStack(tags) &&
    p.fors == Ids(tags, OpenAt(tags, For)) && p.blocks == Ids(tags, OpenAt(tags, Block))
  }

  // The k-th tag's cell, of its kind and below its target.
  ghost predicate CellFor(h: Heap, tags: seq<Tag>, k: nat)
    requires k < |tags|
  {
    var id := Cells(tags[..k]);
    id < |h.cells| && IsCellOf(h.cells[id], tags[k]) && h.cells[id].parent == Target(tags, k)
  }

  ghost predicate Shaped(h: Heap, tags: seq<Tag>) {
    forall k :: 0 <= k < |tags| && AddsCell(tags[k]) ==> CellFor(h, tags, k)
  }

  ghost predicate Counted(h: Heap, tags: seq<Tag>) {
    forall r :: Nodes(tags, r) == if ValidRef(h, r) then Skeleton(BlockOf(h, r)) else []
  }

  ghost predicate Elsed(h: Heap, tags: seq<Tag>) {
    (forall i <- Elses(tags) :: i < |h.cells|) &&
    forall i :: 0 <= i < |h.cells| && h.cells[i].IfCell? ==> (h.cells[i].hasFalse <==> i in Elses(tags))
  }

  // In a false branch the else has been marked.
  ghost predicate Lit(h: Heap, r: BlockRef) { r.FalseOf? ==> ValidRef(h, r) && h.cells[r.id].hasFalse }

  ghost predicate Follows(p: Parser, tags: seq<Tag>) {
    Invariant(p) && Woven(p.h) && Lit(p.h, p.current) && |p.h.cells| == Cells(tags) &&
    Stacked(p, tags) && Shaped(p.h, tags) && Counted(p.h, tags) && Elsed(p.h, tags)
  }

  // ---------------------------------------------------------------- the stacks

  // A stack of cells is pushed and popped as the places are.
  lemma IdsPlus(tags: seq<Tag>, t: Tag, c: Construct)
    ensures var ids := Ids(tags, OpenAt(tags, c));
            Ids(tags + [t], OpenAt(tags + [t], c)) ==
            if t == Opening(c) then ids + [Cells(tags)]
            else if t == Closing(c) && ids != [] then Front(ids)
            else ids
  {
    hide OpenAt, Cells;
    TagsPlus(tags, t);
    OpenAtPlus(tags, t, c);
    assert (tags + [t])[..|tags|] == tags;
  }

  lemma IfStackPlus(tags: seq<Tag>, t: Tag)
    ensures IfStack(tags + [t]) ==
            if t.IfTag? || t.ElseIfTag? then IfStack(tags) + [Cells(tags)]
            else if t.EndifTag? && OpenAt(tags, If) != [] then IfStack(tags[..Last(OpenAt(tags, If))])
            else IfStack(tags)
  {
    hide OpenAt;
    TagsPlus(tags, t);
  }

  lemma PopPushed(h: Heap, tags: seq<Tag>, t: Tag)
    requires Shaped(h, tags + [t]) && (t.IfTag? || t.ElseIfTag?)
    ensures PopNested(h, IfStack(tags) + [Cells(tags)]) ==
            if t.IfTag? then Ok(IfStack(tags) + [Cells(tags)]) else PopNested(h, IfStack(tags))
  {
    hide IfStack, Target;
    assert CellFor(h, tags + [t], |tags|) && (tags + [t])[..|tags|] == tags;
    assert Front(IfStack(tags) + [Cells(tags)]) == IfStack(tags);
  }

  // Popping the chained ifs comes down to the if opened last: what was on the stack before it, and its cell.
  lemma {:induction false} PopsTo(h: Heap, tags: seq<Tag>)
    requires Shaped(h, tags)
    ensures var open := OpenAt(tags, If);
            if open == [] then PopNested(h, IfStack(tags)).Err?
            else PopNested(h, IfStack(tags)) == Ok(IfStack(tags[..Last(open)]) + [Cells(tags[..Last(open)])])
    decreases |tags|
  {
    hide Shaped, PopNested, OpenAt, IfStack, Cells;
    if tags == [] {
      NothingOpen(h);
    } else {
      var front, t := Front(tags), Last(tags);
      var open := OpenAt(front, If);
      assert tags == front + [t];
      ShapedFront(h, front, t);
      IfStackPlus(front, t);
      OpenAtPlus(front, t, If);
      if t.EndifTag? && open != [] {
        var cut := tags[..Last(open)];
        assert cut == front[..Last(open)];
        ShapedPart(h, front, Last(open));
        OpenBefore(front, If);
        PopsTo(h, cut);
        if Front(open) != [] { assert cut[..Last(Front(open))] == tags[..Last(Front(open))]; }
      } else {
        PopsTo(h, front);
        if t.IfTag? || t.ElseIfTag? { PopPushed(h, front, t); }
        if t.IfTag? { assert tags[..|front|] == front; }
        if open != [] { assert front[..Last(open)] == tags[..Last(open)]; }
      }
    }
  }

  lemma NothingOpen(h: Heap)
    ensures OpenAt([], If) == [] && IfStack([]) == [] && PopNested(h, []).Err?
  {
  }

  lemma ShapedFront(h: Heap, tags: seq<Tag>, t: Tag)
    requires Shaped(h, tags + [t])
    ensures Shaped(h, tags)
  {
    TagsPlus(tags, t);
    forall k | 0 <= k < |tags| && AddsCell(tags[k]) ensures CellFor(h, tags, k) {
      assert CellFor(h, tags + [t], k);
    }
  }

  lemma ShapedPart(h: Heap, tags: seq<Tag>, n: nat)
    requires Shaped(h, tags) && n <= |tags|
    ensures Shaped(h, tags[..n])
  {
    forall k | 0 <= k < n && AddsCell(tags[k]) ensures CellFor(h, tags[..n], k) {
      assert CellFor(h, tags, k) && tags[..n][..k] == tags[..k];
    }
  }

  // The parent of a construct that is open is where it was opened.
  lemma OpenParent(h: Heap, tags: seq<Tag>, c: Construct)
    requires Shaped(h, tags) && OpenAt(tags, c) != []
    ensures var k := Last(OpenAt(tags, c));
            Cells(tags[..k]) < |h.cells| && h.cells[Cells(tags[..k])].parent == OpenedIn(tags, c)
  {
    var k := Last(OpenAt(tags, c));
    assert CellFor(h, tags, k);
  }

  lemma StackStep(p: Parser, q: Parser, tags: seq<Tag>, t: Tag, n: Node, added: seq<Cell>)
    requires Follows(p, tags) && Effect(p, q, t, n, added)
    ensures Stacked(q, tags + [t])
  {
    hide WithNode, IsNodeOf, PopNested, OpenAt, Invariant, Woven, Counted, Shaped, Elsed;
    TagsPlus(tags, t);
    IdsPlus(tags, t, For);
    IdsPlus(tags, t, Block);
    match t
    case EndifTag =>
      PopsTo(p.h, tags);
      OpenParent(p.h, tags, If);
      var k := Last(OpenAt(tags, If));
      assert (tags + [t])[..k] == tags[..k];
    case EndforTag => OpenParent(p.h, tags, For);
    case EndblockTag => OpenParent(p.h, tags, Block);
    case _ =>
  }

  // ---------------------------------------------------------------- the heap

  // Where the tag's node goes is where the tags say.
  lemma IntoIsTarget(p: Parser, q: Parser, tags: seq<Tag>, t: Tag, n: Node, added: seq<Cell>)
    requires Follows(p, tags) && Effect(p, q, t, n, added)
    ensures Target(tags + [t], |tags|) == Into(p, t) && ValidRef(Before(p, t), Into(p, t)) && Lit(Before(p, t), Into(p, t))
    ensures SameShape(p.h, Before(p, t)) && |Before(p, t).cells| == |p.h.cells| && Woven(Before(p, t))
    ensures forall r :: ValidRef(Before(p, t), r) == ValidRef(p.h, r)
    ensures forall r :: ValidRef(p.h, r) ==> BlockOf(Before(p, t), r) == BlockOf(p.h, r)
  {
    hide WithNode, IsNodeOf, PopNested, Woven, Counted, Shaped;
    TagsPlus(tags, t);
    assert (tags + [t])[..|tags|] == tags;
    SameAlways(p.h);
    if IsElseTag(t) {
      MarkedBlocks(p.h, Last(p.ifs));
      MarkedWoven(p.h, Last(p.ifs));
    }
  }

  lemma CellsPlus(tags: seq<Tag>, t: Tag)
    ensures Cells(tags + [t]) == Cells(tags) + if AddsCell(t) then 1 else 0
  {
    TagsPlus(tags, t);
  }

  lemma ShapeStep(p: Parser, q: Parser, tags: seq<Tag>, t: Tag, n: Node, added: seq<Cell>)
    requires Follows(p, tags) && Effect(p, q, t, n, added)
    ensures Shaped(q.h, tags + [t]) && |q.h.cells| == Cells(tags + [t]) && SameShape(p.h, q.h)
  {
    hide WithNode, PopNested, Woven, Counted, Target, Invariant, Stacked;
    IntoIsTarget(p, q, tags, t, n, added);
    CellsPlus(tags, t);
    TagsPlus(tags, t);
    var h1, at := Before(p, t), Into(p, t);
    if Adds(t) {
      WithNodeShape(h1, at, n, added);
      NewCell(h1, at, n, added);
      ShapeJoins(p.h, h1, q.h);
      assert added != [] ==> q.h.cells[|p.h.cells|] == added[0] && added[0] in added;
    }
    forall k | 0 <= k < |tags| + 1 && AddsCell((tags + [t])[k]) ensures CellFor(q.h, tags + [t], k) {
      if k < |tags| {
        assert CellFor(p.h, tags, k);
        assert SameCellShape(p.h.cells[Cells(tags[..k])], q.h.cells[Cells(tags[..k])]);
      } else {
        assert (tags + [t])[..k] == tags;
      }
    }
  }

  lemma SkeletonPlus(ns: seq<Node>, n: Node)
    ensures Skeleton(ns + [n]) == Skeleton(ns) + [if IsLeaf(n) then None else Some(n.id)]
  {
  }

  lemma CountStep(p: Parser, q: Parser, tags: seq<Tag>, t: Tag, n: Node, added: seq<Cell>)
    requires Follows(p, tags) && Effect(p, q, t, n, added)
    ensures Counted(q.h, tags + [t])
  {
    hide WithNode, PopNested, Woven, Shaped, Invariant, Stacked, Target, Skeleton, Elsed;
    IntoIsTarget(p, q, tags, t, n, added);
    TagsPlus(tags, t);
    var h1, at := Before(p, t), Into(p, t);
    forall r ensures Nodes(tags + [t], r) == if ValidRef(q.h, r) then Skeleton(BlockOf(q.h, r)) else [] {
      assert Nodes(tags, r) == if ValidRef(p.h, r) then Skeleton(BlockOf(p.h, r)) else [];
      if Adds(t) {
        WithNodeShape(h1, at, n, added);
        if ValidRef(h1, r) { ValidKept(h1, q.h, r); }
        if ValidRef(q.h, r) { BlockAfter(h1, at, n, added, r); }
        SkeletonPlus(BlockOf(p.h, at), n);
        EmptySkeleton();
      }
    }
  }

  lemma EmptySkeleton()
    ensures Skeleton([]) == []
  {
  }

  lemma ElseStep(p: Parser, q: Parser, tags: seq<Tag>, t: Tag, n: Node, added: seq<Cell>)
    requires Follows(p, tags) && Effect(p, q, t, n, added)
    ensures Elsed(q.h, tags + [t])
  {
    hide WithNode, PopNested, Follows, Elsed, IsNodeOf;
    IntoIsTarget(p, q, tags, t, n, added);
    ElseMarked(p, tags, t);
    if Adds(t) { ElsedWithNode(Before(p, t), tags + [t], Into(p, t), n, added, t, |p.h.cells|); }
  }

  lemma ElseMarked(p: Parser, tags: seq<Tag>, t: Tag)
    requires Follows(p, tags) && (IsElseTag(t) ==> HasIf(p))
    ensures Elsed(Before(p, t), tags + [t])
  {
    hide PopNested, Woven, Shaped, Counted, Invariant, TopIf;
    TagsPlus(tags, t);
    TopIfIsCell(p, tags);
    assert Elses(tags + [t]) == Elses(tags) + if IsElseTag(t) then {TopIf(tags)} else {};
  }

  lemma ElsedWithNode(h: Heap, tags: seq<Tag>, at: BlockRef, n: Node, added: seq<Cell>, t: Tag, id: nat)
    requires Elsed(h, tags) && ValidRef(h, at) && IsNodeOf(n, added, at, t, id)
    ensures Elsed(WithNode(h, at, n, added), tags)
  {
    hide WithNode, Elses;
    var h' := WithNode(h, at, n, added);
    WithNodeShape(h, at, n, added);
    NewCell(h, at, n, added);
    forall i | 0 <= i < |h'.cells| && h'.cells[i].IfCell? ensures h'.cells[i].hasFalse <==> i in Elses(tags) {
      if i < |h.cells| {
        assert SameCellShape(h.cells[i], h'.cells[i]);
        CellAfter(h, at, n, added, i);
      } else {
        assert h'.cells[i] == h'.cells[|h.cells|..][i - |h.cells|] && added[i - |h.cells|] in added;
      }
    }
  }

  lemma TopIfIsCell(p: Parser, tags: seq<Tag>)
    requires Follows(p, tags)
    ensures p.ifs != [] ==> Last(p.ifs) < |p.h.cells| && TopIf(tags) == Last(p.ifs)
  {
    hide Woven, Shaped, Counted, Elsed;
    assert p.ifs != [] ==> Last(p.ifs) in p.ifs;
  }

  lemma HeldIs(p: Parser, tags: seq<Tag>, r: BlockRef)
    requires Follows(p, tags) && ValidRef(p.h, r)
    ensures Held(tags, r) == |BlockOf(p.h, r)|
  {
    hide Woven, Shaped, Elsed, Stacked;
  }

  lemma WovenStep(p: Parser, q: Parser, tags: seq<Tag>, t: Tag, n: Node, added: seq<Cell>)
    requires Follows(p, tags) && Effect(p, q, t, n, added)
    ensures Woven(q.h)
  {
    hide WithNode, PopNested, Woven, Counted, Shaped, Invariant, Stacked, IsNodeOf;
    IntoIsTarget(p, q, tags, t, n, added);
    if Adds(t) { WovenAfter(Before(p, t), Into(p, t), n, added, t); }
  }

  // A block that holds a node has its else marked if it is a false branch.
  lemma ParentIsLit(h: Heap, i: nat)
    requires Woven(h) && i < |h.cells|
    ensures Lit(h, h.cells[i].parent)
  {
    WovenHung(h, i);
    var r := h.cells[i].parent;
    if r.FalseOf? { WovenHung(h, r.id); }
  }

  lemma LitStep(p: Parser, q: Parser, tags: seq<Tag>, t: Tag, n: Node, added: seq<Cell>)
    requires Follows(p, tags) && Effect(p, q, t, n, added)
    ensures Lit(q.h, q.current)
  {
    hide WithNode, PopNested, Woven, Counted, Shaped, Stacked, IsNodeOf;
    IntoIsTarget(p, q, tags, t, n, added);
    match t
    case LeafTag => if p.current.FalseOf? { CellAfter(p.h, p.current, n, added, p.current.id); LeafValid(p, n, added); }
    case EndifTag => ParentIsLit(p.h, Last(PopNested(p.h, p.ifs).value));
    case EndforTag => ParentIsLit(p.h, Last(p.fors));
    case EndblockTag => ParentIsLit(p.h, Last(p.blocks));
    case _ =>
  }

  lemma LeafValid(p: Parser, n: Node, added: seq<Cell>)
    requires ValidRef(p.h, p.current)
    ensures ValidRef(WithNode(p.h, p.current, n, added), p.current)
  {
    WithNodeShape(p.h, p.current, n, added);
  }

  // Every tag leaves the parser where the tags read so far say.
  lemma StepFollows(p: Parser, q: Parser, tags: seq<Tag>, t: Tag, n: Node, added: seq<Cell>)
    requires Follows(p, tags) && Effect(p, q, t, n, added) && Invariant(q)
    ensures Follows(q, tags + [t])
  {
    StackStep(p, q, tags, t, n, added);
    ShapeStep(p, q, tags, t, n, added);
    CountStep(p, q, tags, t, n, added);
    ElseStep(p, q, tags, t, n, added);
    WovenStep(p, q, tags, t, n, added);
    LitStep(p, q, tags, t, n, added);
  }

  // ---------------------------------------------------------------- the run

  lemma {:induction false} RunFollows(env: Environment, p: Parser, tags: seq<Tag>)
    requires Follows(p, tags) && IsInput(p.toks) && ParseInto(env, p).Ok?
    ensures Follows(ParseInto(env, p).value, tags + Tags(p.toks))
    decreases |p.toks|
  {
    hide Step, Follows, Effect, Invariant, TagOf;
    if p.toks == [] {
      assert tags + Tags(p.toks) == tags;
    } else {
      assert p.toks[0] in p.toks;
      assert Invariant(p) by { FollowsFacts(p, tags); }
      StepTags(env, p);
      StepKeepsInvariant(env, p);
      var q := Step(env, p).value;
      if Starts(p.toks[0].kind) {
        var t := TagOf(p.toks);
        var n, added := StepEffect(env, p);
        StepFollows(p, q, tags, t, n, added);
        RunFollows(env, q, tags + [t]);
        assert tags + Tags(p.toks) == tags + [t] + Tags(q.toks);
      } else {
        OtherSteps(env, p);
        SameFollows(p, q, tags);
        RunFollows(env, q, tags);
        assert Tags(p.toks) == Tags(q.toks);
      }
    }
  }

  lemma SameFollows(p: Parser, q: Parser, tags: seq<Tag>)
    requires Follows(p, tags) && q == p.(toks := q.toks)
    ensures Follows(q, tags)
  {
    SameButTokens(p, q);
  }

  lemma FollowsFacts(p: Parser, tags: seq<Tag>)
    requires Follows(p, tags)
    ensures Invariant(p) && Stacked(p, tags)
  {
  }

  lemma StartFollows(toks: seq<Token>, lit: seq<Token>)
    ensures Follows(Start(toks, lit), [])
  {
    var p := Start(toks, lit);
    assert Ids([], []) == [];
    forall r ensures Nodes([], r) == if ValidRef(p.h, r) then Skeleton(BlockOf(p.h, r)) else [] {}
  }

  // However its tags cross, an accepted template ends in the block that its tags tell, with the constructs open that
  // their own kind has left open.
  lemma EndsExactly(env: Environment, toks: seq<Token>, lit: seq<Token>)
    requires IsInput(toks) && ParseInto(env, Start(toks, lit)).Ok?
    ensures var q, tags := ParseInto(env, Start(toks, lit)).value, Tags(toks);
            q.current == Where(tags) && q.blocks == Ids(tags, OpenAt(tags, Block)) &&
            OpenAt(tags, If) == OpenAt(tags, For) == []
    ensures Follows(ParseInto(env, Start(toks, lit)).value, Tags(toks))
  {
    var p := Start(toks, lit);
    StartFollows(toks, lit);
    RunFollows(env, p, []);
    assert [] + Tags(toks) == Tags(toks);
    var q := ParseInto(env, p).value;
    FollowsFacts(q, Tags(toks));
    NeverUndefined(env, p);
    NoIfOpen(q.h, Tags(toks));
  }

  lemma NoIfOpen(h: Heap, tags: seq<Tag>)
    requires IfStack(tags) == [] && Shaped(h, tags)
    ensures OpenAt(tags, If) == []
  {
    PopsTo(h, tags);
  }

  // It ends at the root with every block closed if and only if its last closing tag says so, and as many block tags
  // open as close.
  lemma EndsAtRootExactly(env: Environment, toks: seq<Token>, lit: seq<Token>)
    requires IsInput(toks) && ParseInto(env, Start(toks, lit)).Ok?
    ensures var q := ParseInto(env, Start(toks, lit)).value;
            q.current == Root && q.ifs == q.fors == q.blocks == [] <==>
            Where(Tags(toks)) == Root && Count(Tags(toks), BlockTag) == Count(Tags(toks), EndblockTag)
  {
    EndsExactly(env, toks, lit);
    NeverUndefined(env, Start(toks, lit));
    BlocksAreClosed(env, toks, lit);
  }
}
