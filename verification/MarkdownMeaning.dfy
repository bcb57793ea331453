/** What a preview means: for the events of a document, the arena is the document's tree of blocks and
  * the preview is that tree converted directly. */
module MarkdownMeaning {
  import opened Ordering
  import opened MarkdownArena
  import opened MarkdownBlocks
  import opened MarkdownPreview

  // ----- documents -----

  /** A document as the parser walks it: tags around what they hold, and inline events. */
  datatype Element = Tagged(tag: Tag, offset: nat, inner: seq<Element>) | Inline(event: Event)

  function EventsOf(e: Element): seq<Event> {
    match e
    case Tagged(tag, offset, inner) => [Start(tag, offset)] + Events(inner) + [End(tag)]
    case Inline(event) => [event]
  }

  /** The balanced stream of events of a document. */
  function Events(es: seq<Element>): seq<Event> {
    if es == [] then [] else EventsOf(es[0]) + Events(es[1..])
  }

  ghost predicate InlineOnly(e: Element) {
    match e
    case Tagged(_, _, inner) => AllInlineOnly(inner)
    case Inline(event) => !event.Start? && !event.End?
  }

  ghost predicate AllInlineOnly(es: seq<Element>) {
    es != [] ==> InlineOnly(es[0]) && AllInlineOnly(es[1..])
  }

  // ----- the tree of blocks of a document -----

  datatype Tree = Tree(node: DraftNode, kids: seq<Tree>)

  /** The text directly in a block: its inline events and those within tags that open no block. */
  function DirectText(es: seq<Element>): string {
    if es == [] then [] else TextOf(es[0]) + DirectText(es[1..])
  }

  function TextOf(e: Element): string {
    match e
    case Tagged(tag, _, inner) => if tag.OtherTag? then DirectText(inner) else []
    case Inline(event) => InlineText(event)
  }

  /** The line of a heading is the number of line breaks before it; other blocks carry none. */
  function LineOf(tag: Tag, offset: nat, text: Bytes): nat {
    if tag.HeadingTag? && offset <= |text| then Newlines(text, 0, offset) else 0
  }

  function TreesOf(e: Element, text: Bytes): seq<Tree> {
    match e
    case Tagged(tag, offset, inner) =>
      var node := NodeFor(tag, LineOf(tag, offset, text));
      if node.None? then Trees(inner, text) else [Tree(AddText(node.value, DirectText(inner)), Trees(inner, text))]
    case Inline(_) => []
  }

  function Trees(es: seq<Element>, text: Bytes): seq<Tree> {
    if es == [] then [] else TreesOf(es[0], text) + Trees(es[1..], text)
  }

  // ----- when an arena is a tree -----

  /** The drafts from `id` up to `end` are the tree. */
  ghost predicate Represents(drafts: Drafts, id: nat, end: nat, tree: Tree)
    requires id < end <= |drafts|
    decreases end - id, 0
  {
    drafts[id].node == tree.node && KidsRepresent(drafts, drafts[id].children, tree.kids, 0, id + 1, end)
  }

  ghost predicate KidsRepresent(drafts: Drafts, kids: seq<nat>, trees: seq<Tree>, k: nat, from: nat, end: nat)
    requires k <= |kids| && from <= end <= |drafts|
    decreases end - from, 1
  {
    && |kids| == |trees|
    && if k == |kids| then from == end
       else
         var next := if k + 1 < |kids| then kids[k + 1] else end;
         && kids[k] == from < next <= end
         && Represents(drafts, from, next, trees[k]) && KidsRepresent(drafts, kids, trees, k + 1, next, end)
  }

  ghost predicate SameDrafts(a: Drafts, b: Drafts, from: nat, upto: nat) {
    upto <= |a| && upto <= |b| && forall i :: from <= i < upto ==> a[i] == b[i]
  }

  lemma {:induction false} RepresentsFrame(a: Drafts, b: Drafts, id: nat, end: nat, tree: Tree)
    requires id < end && SameDrafts(a, b, id, end) && Represents(a, id, end, tree)
    ensures Represents(b, id, end, tree)
    decreases end - id, 0
  {
    KidsFrame(a, b, a[id].children, tree.kids, 0, id + 1, end);
  }

  lemma {:induction false} KidsFrame(a: Drafts, b: Drafts, kids: seq<nat>, trees: seq<Tree>, k: nat, from: nat, end: nat)
    requires k <= |kids| && from <= end && SameDrafts(a, b, from, end) && KidsRepresent(a, kids, trees, k, from, end)
    ensures KidsRepresent(b, kids, trees, k, from, end)
    decreases end - from, 1
  {
    if k < |kids| {
      var next := if k + 1 < |kids| then kids[k + 1] else end;
      RepresentsFrame(a, b, from, next, trees[k]);
      KidsFrame(a, b, kids, trees, k + 1, next, end);
    }
  }

  /** Subtrees one after the other. */
  lemma {:induction false} KidsJoin(
    drafts: Drafts, kids: seq<nat>, trees: seq<Tree>, more: seq<nat>, moreTrees: seq<Tree>, k: nat, from: nat, mid: nat, end: nat
  )
    requires k <= |kids| && from <= mid <= end <= |drafts|
    requires KidsRepresent(drafts, kids, trees, k, from, mid) && KidsRepresent(drafts, more, moreTrees, 0, mid, end)
    ensures KidsRepresent(drafts, kids + more, trees + moreTrees, k, from, end)
    decreases |kids| - k
  {
    if k == |kids| {
      KidsShift(drafts, kids, trees, more, moreTrees, 0, mid, end);
    } else {
      var next := if k + 1 < |kids| then kids[k + 1] else mid;
      KidsJoin(drafts, kids, trees, more, moreTrees, k + 1, next, mid, end);
      assert (kids + more)[k] == kids[k] && (trees + moreTrees)[k] == trees[k];
      if k + 1 == |kids| {
        assert more != [] ==> (kids + more)[k + 1] == more[0] == mid;
      } else {
        assert (kids + more)[k + 1] == kids[k + 1];
      }
    }
  }

  lemma {:induction false} KidsShift(
    drafts: Drafts, kids: seq<nat>, trees: seq<Tree>, more: seq<nat>, moreTrees: seq<Tree>, j: nat, from: nat, end: nat
  )
    requires |kids| == |trees| && j <= |more| && from <= end <= |drafts|
    requires KidsRepresent(drafts, more, moreTrees, j, from, end)
    ensures KidsRepresent(drafts, kids + more, trees + moreTrees, |kids| + j, from, end)
    decreases |more| - j
  {
    if j < |more| {
      var next := if j + 1 < |more| then more[j + 1] else end;
      KidsShift(drafts, kids, trees, more, moreTrees, j + 1, next, end);
      assert (kids + more)[|kids| + j] == more[j] && (trees + moreTrees)[|kids| + j] == moreTrees[j];
      if j + 1 < |more| {
        assert (kids + more)[|kids| + j + 1] == more[j + 1];
      }
    }
  }

  // ----- folding events together -----

  lemma {:induction false} FoldOfSum(b: Build, e1: seq<Event>, e2: seq<Event>, text: Bytes)
    requires Sane(b) && AllInOrder(b, e1 + e2, text)
    ensures AllInOrder(b, e1, text) && AllInOrder(Fold(b, e1, text), e2, text)
    ensures Fold(b, e1 + e2, text) == Fold(Fold(b, e1, text), e2, text)
    decreases |e1|
  {
    if e1 == [] {
      assert e1 + e2 == e2;
    } else {
      assert (e1 + e2)[0] == e1[0] && (e1 + e2)[1..] == e1[1..] + e2;
      TakeIsSane(b, e1[0], text);
      FoldOfSum(Take(b, e1[0], text), e1[1..], e2, text);
    }
  }

  lemma FoldOfOne(b: Build, event: Event, text: Bytes)
    requires Sane(b) && AllInOrder(b, [event], text)
    ensures InOrder(b, event, text) && Fold(b, [event], text) == Take(b, event, text)
  {
    assert [event][1..] == [];
  }

  // ----- what a stretch of a document does to the arena -----

  /** On top of the open draft: its text grows, it gets the trees as further children, and nothing else changes. */
  ghost predicate Grown(b: Build, r: Build, added: string, trees: seq<Tree>, text: Bytes)
    requires Sane(b)
  {
    var t, n := Top(b), |b.drafts|;
    && r.stack == b.stack && n <= |r.drafts| && LineExact(r, text)
    && (forall i :: 0 <= i < n && i != t ==> r.drafts[i] == b.drafts[i])
    && r.drafts[t].node == AddText(b.drafts[t].node, added)
    && |b.drafts[t].children| <= |r.drafts[t].children|
    && r.drafts[t].children[..|b.drafts[t].children|] == b.drafts[t].children
    && KidsRepresent(r.drafts, r.drafts[t].children[|b.drafts[t].children|..], trees, 0, n, |r.drafts|)
  }

  lemma AddTextJoins(node: DraftNode, a: string, b: string)
    ensures AddText(AddText(node, a), b) == AddText(node, a + b)
  {
    match node
    case Paragraph(t) => assert (t + a) + b == t + (a + b);
    case Heading(_, t, _) => assert (t + a) + b == t + (a + b);
    case Code(_, t) => assert (t + a) + b == t + (a + b);
    case Item(t) => assert (t + a) + b == t + (a + b);
    case _ =>
  }

  lemma AddNoText(node: DraftNode)
    ensures AddText(node, []) == node
  {
    match node
    case Paragraph(t) => assert t + [] == t;
    case Heading(_, t, _) => assert t + [] == t;
    case Code(_, t) => assert t + [] == t;
    case Item(t) => assert t + [] == t;
    case _ =>
  }

  lemma GrownBySteps(b: Build, m: Build, r: Build, s1: string, t1: seq<Tree>, s2: string, t2: seq<Tree>, text: Bytes)
    requires Sane(b) && Sane(m) && Grown(b, m, s1, t1, text) && Grown(m, r, s2, t2, text)
    ensures Grown(b, r, s1 + s2, t1 + t2, text)
  {
    var t, n, mid := Top(b), |b.drafts|, |m.drafts|;
    var before, kids1 := b.drafts[t].children, m.drafts[t].children[|b.drafts[t].children|..];
    var kids2 := r.drafts[t].children[|m.drafts[t].children|..];
    AddTextJoins(b.drafts[t].node, s1, s2);
    KidsFrame(m.drafts, r.drafts, kids1, t1, 0, n, mid);
    KidsJoin(r.drafts, kids1, t1, kids2, t2, 0, n, mid, |r.drafts|);
    assert r.drafts[t].children == m.drafts[t].children + kids2;
    assert m.drafts[t].children == before + kids1;
    assert r.drafts[t].children[|before|..] == kids1 + kids2;
  }

  lemma NothingGrows(b: Build, text: Bytes)
    requires Sane(b) && LineExact(b, text)
    ensures Grown(b, b, [], [], text)
  {
    AddNoText(b.drafts[Top(b)].node);
    assert b.drafts[Top(b)].children[|b.drafts[Top(b)].children|..] == [];
  }

  lemma InlineGrows(b: Build, event: Event, text: Bytes)
    requires Sane(b) && LineExact(b, text) && !event.Start? && !event.End? && InOrder(b, event, text)
    ensures Grown(b, Take(b, event, text), InlineText(event), [], text)
  {
    assert b.drafts[Top(b)].children[|b.drafts[Top(b)].children|..] == [];
  }

  /** A tag that opens a block: its draft, with all that follows up to the end of the tag, is its tree. */
  lemma BlockGrows(b: Build, tag: Tag, offset: nat, inner: Build, added: string, trees: seq<Tree>, text: Bytes)
    requires Sane(b) && LineExact(b, text) && InOrder(b, Start(tag, offset), text) && !tag.OtherTag?
    requires var first := Take(b, Start(tag, offset), text); Sane(first) && Sane(inner) && Grown(first, inner, added, trees, text)
    ensures InOrder(inner, End(tag), text)
    ensures var tree := Tree(AddText(NodeFor(tag, LineOf(tag, offset, text)).value, added), trees);
      Grown(b, Take(inner, End(tag), text), [], [tree], text)
  {
    HeadingLineIsExact(b, Start(tag, offset), text);
    var first, t, n := Take(b, Start(tag, offset), text), Top(b), |b.drafts|;
    assert Top(first) == n && first.stack == b.stack + [n];
    assert first.drafts[n] == Draft(NodeFor(tag, LineOf(tag, offset, text)).value, []);
    var r := Take(inner, End(tag), text);
    assert r.drafts == inner.drafts && r.stack == b.stack;
    assert first.drafts[n].children == [] && inner.drafts[n].children[0..] == inner.drafts[n].children;
    var tree := Tree(AddText(NodeFor(tag, LineOf(tag, offset, text)).value, added), trees);
    assert Represents(r.drafts, n, |r.drafts|, tree);
    AddNoText(b.drafts[t].node);
    assert r.drafts[t].children[|b.drafts[t].children|..] == [n];
    assert KidsRepresent(r.drafts, [n], [tree], 1, |r.drafts|, |r.drafts|);
  }

  /** Where the events of a tag come apart. */
  lemma TagFolds(b: Build, tag: Tag, offset: nat, inner: seq<Element>, text: Bytes)
    requires Sane(b) && AllInOrder(b, EventsOf(Tagged(tag, offset, inner)), text)
    ensures InOrder(b, Start(tag, offset), text)
    ensures var first := Take(b, Start(tag, offset), text);
      && Sane(first) && AllInOrder(first, Events(inner), text)
      && var r := Fold(first, Events(inner), text);
         InOrder(r, End(tag), text) && Fold(b, EventsOf(Tagged(tag, offset, inner)), text) == Take(r, End(tag), text)
  {
    var start, end := [Start(tag, offset)], [End(tag)];
    assert EventsOf(Tagged(tag, offset, inner)) == start + (Events(inner) + end);
    FoldOfSum(b, start, Events(inner) + end, text);
    FoldOfOne(b, Start(tag, offset), text);
    TakeIsSane(b, Start(tag, offset), text);
    var first := Take(b, Start(tag, offset), text);
    FoldOfSum(first, Events(inner), end, text);
    FoldOfOne(Fold(first, Events(inner), text), End(tag), text);
  }

  lemma {:induction false} ElementGrows(b: Build, e: Element, text: Bytes)
    requires Sane(b) && LineExact(b, text) && InlineOnly(e) && AllInOrder(b, EventsOf(e), text)
    ensures Grown(b, Fold(b, EventsOf(e), text), TextOf(e), TreesOf(e, text), text)
    decreases e, 0
  {
    match e
    case Inline(event) =>
      FoldOfOne(b, event, text);
      InlineGrows(b, event, text);
    case Tagged(tag, offset, inner) =>
      TagFolds(b, tag, offset, inner, text);
      HeadingLineIsExact(b, Start(tag, offset), text);
      var first := Take(b, Start(tag, offset), text);
      ElementsGrow(first, inner, text);
      if !tag.OtherTag? {
        BlockGrows(b, tag, offset, Fold(first, Events(inner), text), DirectText(inner), Trees(inner, text), text);
      }
  }

  lemma {:induction false} ElementsGrow(b: Build, es: seq<Element>, text: Bytes)
    requires Sane(b) && LineExact(b, text) && AllInlineOnly(es) && AllInOrder(b, Events(es), text)
    ensures Grown(b, Fold(b, Events(es), text), DirectText(es), Trees(es, text), text)
    decreases es, 1
  {
    if es == [] {
      NothingGrows(b, text);
    } else {
      FoldOfSum(b, EventsOf(es[0]), Events(es[1..]), text);
      ElementGrows(b, es[0], text);
      var mid := Fold(b, EventsOf(es[0]), text);
      ElementsGrow(mid, es[1..], text);
      GrownBySteps(b, mid, Fold(mid, Events(es[1..]), text), TextOf(es[0]), TreesOf(es[0], text),
        DirectText(es[1..]), Trees(es[1..], text), text);
    }
  }

  /** For the events of any document the stack ends at the root, and the arena is the document's tree of
    * blocks: every block with the text directly in it, headings with the line they stand on. */
  lemma ArenaIsDocument(es: seq<Element>, text: Bytes)
    requires AllInlineOnly(es) && AllInOrder(EMPTY, Events(es), text)
    ensures var end := Fold(EMPTY, Events(es), text);
      && end.stack == [0] && end.drafts != []
      && Represents(end.drafts, 0, |end.drafts|, Tree(Root, Trees(es, text)))
  {
    ElementsGrow(EMPTY, es, text);
    var end := Fold(EMPTY, Events(es), text);
    assert end.drafts[0].children[0..] == end.drafts[0].children;
  }

  // ----- the document converted directly -----

  /** The blocks for trees from the `k`-th on, as entries of a list or not. */
  function TreeBlocks<T>(wrap: Wrapper<T>, trees: seq<Tree>, entries: bool, k: nat): seq<T>
    requires k <= |trees|
    decreases trees, |trees| - k
  {
    if k == |trees| then []
    else
      var node := trees[k].node;
      var within := if Descends(entries, node) then TreeBlocks(wrap, trees[k].kids, HoldsEntries(entries, node), 0) else [];
      wrap(entries, node, within) + TreeBlocks(wrap, trees, entries, k + 1)
  }

  /** How many blocks of the document the preview shows or runs through. */
  function TreeCount(trees: seq<Tree>, entries: bool, k: nat): nat
    requires k <= |trees|
    decreases trees, |trees| - k
  {
    if k == |trees| then 0
    else
      var node := trees[k].node;
      1 + (if Descends(entries, node) then TreeCount(trees[k].kids, HoldsEntries(entries, node), 0) else 0)
      + TreeCount(trees, entries, k + 1)
  }

  lemma {:induction false} RenderIsTree<T>(
    wrap: Wrapper<T>, drafts: Drafts, id: nat, trees: seq<Tree>, entries: bool, k: nat, from: nat, end: nat
  )
    requires Forward(drafts) && id < |drafts| && k <= |drafts[id].children| && from <= end <= |drafts|
    requires KidsRepresent(drafts, drafts[id].children, trees, k, from, end)
    ensures Render(wrap, drafts, id, entries, k) == TreeBlocks(wrap, trees, entries, k)
    decreases |drafts| - id, |drafts[id].children| - k
  {
    var kids := drafts[id].children;
    if k < |kids| {
      assert ForwardAt(drafts, id);
      var next := if k + 1 < |kids| then kids[k + 1] else end;
      if Descends(entries, trees[k].node) {
        RenderIsTree(wrap, drafts, from, trees[k].kids, HoldsEntries(entries, trees[k].node), 0, from + 1, next);
      }
      RenderIsTree(wrap, drafts, id, trees, entries, k + 1, next, end);
    }
  }

  lemma {:induction false} BelowIsTree(
    drafts: Drafts, id: nat, trees: seq<Tree>, entries: bool, k: nat, from: nat, end: nat
  )
    requires Forward(drafts) && id < |drafts| && k <= |drafts[id].children| && from <= end <= |drafts|
    requires KidsRepresent(drafts, drafts[id].children, trees, k, from, end)
    ensures Below(drafts, id, entries, k) == TreeCount(trees, entries, k)
    decreases |drafts| - id, |drafts[id].children| - k
  {
    var kids := drafts[id].children;
    if k < |kids| {
      assert ForwardAt(drafts, id);
      var next := if k + 1 < |kids| then kids[k + 1] else end;
      if Descends(entries, trees[k].node) {
        BelowIsTree(drafts, from, trees[k].kids, HoldsEntries(entries, trees[k].node), 0, from + 1, next);
      }
      BelowIsTree(drafts, id, trees, entries, k + 1, next, end);
    }
  }

  lemma WrapIsOneEach()
    ensures OneEach(Wrap)
  {
  }

  lemma ArenaConverts<T>(wrap: Wrapper<T>, es: seq<Element>, text: Bytes)
    requires AllInlineOnly(es) && AllInOrder(EMPTY, Events(es), text)
    ensures var drafts, trees := Fold(EMPTY, Events(es), text).drafts, Trees(es, text);
      && OnlyRoot(drafts) && Forward(drafts)
      && Below(drafts, 0, false, 0) == TreeCount(trees, false, 0)
      && Render(wrap, drafts, 0, false, 0) == TreeBlocks(wrap, trees, false, 0)
  {
    var drafts, trees := Fold(EMPTY, Events(es), text).drafts, Trees(es, text);
    ArenaIsDocument(es, text);
    FoldIsArena(Events(es), text);
    ArenaIsForward(drafts);
    BelowIsTree(drafts, 0, trees, false, 0, 1, |drafts|);
    RenderIsTree(wrap, drafts, 0, trees, false, 0, 1, |drafts|);
  }

  /** From events to blocks: when a document comes to at most 512 blocks, its preview is the document's
    * tree converted directly; when it comes to more, just that is reported. */
  lemma PreviewIsDocument(es: seq<Element>, text: Bytes)
    requires AllInlineOnly(es) && AllInOrder(EMPTY, Events(es), text)
    ensures var drafts, trees := Fold(EMPTY, Events(es), text).drafts, Trees(es, text);
      && drafts != [] && Forward(drafts)
      && Below(drafts, 0, false, 0) == TreeCount(trees, false, 0)
      && (TreeCount(trees, false, 0) <= MAX_BLOCKS ==>
            Cap(Wrap, drafts, 0, false, 0, MAX_BLOCKS) == TreeBlocks(Wrap, trees, false, 0))
  {
    var trees := Trees(es, text);
    ArenaConverts(Wrap, es, text);
    if TreeCount(trees, false, 0) <= MAX_BLOCKS {
      CapIsRender(Wrap, Fold(EMPTY, Events(es), text).drafts, 0, false, 0, MAX_BLOCKS);
    }
  }

  /** However large the document: nested ones included, the preview has at most 512 blocks. */
  lemma PreviewFits(es: seq<Element>, text: Bytes)
    requires AllInlineOnly(es) && AllInOrder(EMPTY, Events(es), text)
    ensures var drafts := Fold(EMPTY, Events(es), text).drafts;
      && drafts != [] && Forward(drafts)
      && Total(Cap(Wrap, drafts, 0, false, 0, MAX_BLOCKS)) <= Min(MAX_BLOCKS, TreeCount(Trees(es, text), false, 0))
  {
    ArenaConverts(Wrap, es, text);
    PreviewSize(Fold(EMPTY, Events(es), text).drafts, MAX_BLOCKS);
  }

  /** However large the document: all top-level blocks of the preview but the last are the document's. */
  lemma PreviewBeginsAsDocument(es: seq<Element>, text: Bytes, preview: seq<Block>, j: nat)
    requires AllInlineOnly(es) && AllInOrder(EMPTY, Events(es), text)
    requires var drafts := Fold(EMPTY, Events(es), text).drafts;
      drafts != [] && Forward(drafts) && preview == Cap(Wrap, drafts, 0, false, 0, MAX_BLOCKS)
    requires j + 1 < |preview|
    ensures j < |TreeBlocks(Wrap, Trees(es, text), false, 0)| && preview[j] == TreeBlocks(Wrap, Trees(es, text), false, 0)[j]
  {
    ArenaConverts(Wrap, es, text);
    WrapIsOneEach();
    CappedIsPrefix(Wrap, Fold(EMPTY, Events(es), text).drafts, 0, 0, MAX_BLOCKS, j);
  }
}
