/** What a preview says: the words of its blocks, read in order, against the text of the document, and the
  * kind and the data of every block against its tag. */
module MarkdownReading {
  import opened Ordering
  import opened Sequences
  import opened Text
  import opened TextWords
  import opened MarkdownArena
  import opened MarkdownBlocks
  import opened MarkdownPreview
  import opened MarkdownMeaning

  // ----- the words of blocks -----

  /** The words of a block and of all blocks in it, in order. */
  function BlockWords(block: Block): seq<string>
    decreases block, 0
  {
    match block
    case HeadingBlock(_, text, _) => Words(text)
    case ParagraphBlock(text) => Words(text)
    case CodeBlock(_, text) => Words(text)
    case QuoteBlock(quoted) => WordsTo(quoted, |quoted|)
    case ListBlock(_, entries) => WordsTo(entries, |entries|)
    case Entry(blocks) => WordsTo(blocks, |blocks|)
  }

  function WordsTo(blocks: seq<Block>, n: nat): seq<string>
    requires n <= |blocks|
    decreases blocks, n
  {
    if n == 0 then [] else WordsTo(blocks, n - 1) + BlockWords(blocks[n - 1])
  }

  function WordsShown(blocks: seq<Block>): seq<string> {
    WordsTo(blocks, |blocks|)
  }

  lemma {:induction false} WordsToOfPrefix(a: seq<Block>, b: seq<Block>, n: nat)
    requires n <= |a| <= |b| && forall i :: 0 <= i < n ==> a[i] == b[i]
    ensures WordsTo(a, n) == WordsTo(b, n)
    decreases n
  {
    if n > 0 {
      WordsToOfPrefix(a, b, n - 1);
    }
  }

  lemma {:induction false} WordsToOfSum(a: seq<Block>, b: seq<Block>, n: nat)
    requires n <= |b|
    ensures WordsTo(a + b, |a| + n) == WordsShown(a) + WordsTo(b, n)
    decreases n
  {
    if n == 0 {
      WordsToOfPrefix(a, a + b, |a|);
      assert WordsShown(a) + [] == WordsShown(a);
    } else {
      WordsToOfSum(a, b, n - 1);
      ConcatAssociates(WordsShown(a), WordsTo(b, n - 1), BlockWords(b[n - 1]));
    }
  }

  lemma WordsShownOfSum(a: seq<Block>, b: seq<Block>)
    ensures WordsShown(a + b) == WordsShown(a) + WordsShown(b)
  {
    WordsToOfSum(a, b, |b|);
  }

  lemma WordsShownOfOne(block: Block)
    ensures WordsShown([block]) == BlockWords(block)
  {
    assert WordsTo([block], 1) == WordsTo([block], 0) + BlockWords(block);
    assert [] + BlockWords(block) == BlockWords(block);
  }

  /** The words of the texts that blocks carry themselves. */
  function OwnWords(blocks: seq<Block>): seq<string> {
    WordsOfAll(Texts(blocks))
  }

  lemma OwnWordsOfSum(a: seq<Block>, b: seq<Block>)
    ensures OwnWords(a + b) == OwnWords(a) + OwnWords(b)
  {
    assert Texts(a + b) == Texts(a) + Texts(b);
    WordsOfAllSum(Texts(a), Texts(b));
  }

  lemma OwnWordsOfOne(block: Block)
    ensures OwnWords([block]) == Words(BlockText(block))
  {
    assert Texts([block]) == [BlockText(block)];
    WordsOfAllOne(BlockText(block));
  }

  // ----- texts as they are shown -----

  lemma NormalizedShows(text: string)
    ensures Words(Normalized(text)) == Words(text) && Tidy(Normalized(text))
  {
    var gaps := TextIsWordsAndGaps(Trim(text));
    WordsOfTrim(text);
    WordsOfSpaced(Words(Trim(text)));
    WordsOfSolids(Words(Trim(text)));
    SpacedIsTidy(Words(Trim(text)));
  }

  /** The text without the line breaks at its end. */
  ghost predicate CodeOf(shown: string, text: string) {
    && shown <= text && (forall i :: |shown| <= i < |text| ==> text[i] == '\n')
    && (shown != [] ==> shown[|shown| - 1] != '\n')
  }

  lemma {:induction false} TrimNewlinesIsCode(text: string)
    ensures CodeOf(TrimNewlines(text), text)
    decreases |text|
  {
    if text != [] && text[|text| - 1] == '\n' {
      TrimNewlinesIsCode(text[..|text| - 1]);
    }
  }

  lemma TrimNewlinesShows(text: string)
    ensures Words(TrimNewlines(text)) == Words(text)
  {
    TrimNewlinesIsCode(text);
    var n := |TrimNewlines(text)|;
    assert TrimNewlines(text) == text[..n];
    BlankTail(text, n);
  }

  lemma {:induction false} BlankHasNoWords(s: string)
    ensures Blank(s) <==> Words(s) == []
    ensures Blank(s) <==> Trim(s) == []
    decreases |s|
  {
    var from, to := TrimShape(s);
    if Trim(s) == [] {
      WordsOfTrim(s);
    } else {
      SolidEndHasWords(Trim(s));
      WordsOfTrim(s);
      assert !IsWhitespace(s[from]);
    }
  }

  // ----- the words of one wrapped draft -----

  /** The text a draft carries itself, if any. */
  function OwnText(node: DraftNode): seq<string> {
    match node
    case Heading(_, text, _) => [text]
    case Paragraph(text) => [text]
    case Code(_, text) => [text]
    case Item(text) => [text]
    case _ => []
  }

  lemma LeadWords(node: DraftNode)
    ensures var words := if node.Item? then Words(node.text) else [];
      WordsShown(Lead(node)) == words && OwnWords(Lead(node)) == words
  {
    if node.Item? {
      NormalizedShows(node.text);
      BlankHasNoWords(node.text);
      if Lead(node) != [] {
        assert Lead(node) == [ParagraphBlock(Normalized(node.text))];
        WordsShownOfOne(ParagraphBlock(Normalized(node.text)));
        OwnWordsOfOne(ParagraphBlock(Normalized(node.text)));
      }
    }
  }

  lemma EntryWords(node: DraftNode, within: seq<Block>)
    ensures WordsShown(Wrap(true, node, within))
         == WordsOfAll(if node.Item? then OwnText(node) else []) + WordsShown(within)
  {
    LeadWords(node);
    WordsShownOfSum(Lead(node), within);
    WordsShownOfOne(Entry(Lead(node) + within));
    if node.Item? {
      WordsOfAllOne(node.text);
    }
  }

  /** The words of the block of a draft around the blocks within it, read as a whole and by itself. */
  lemma WrapWords(node: DraftNode, within: seq<Block>)
    requires !Descends(false, node) ==> within == []
    ensures var wrapped := Wrap(false, node, within);
      && WordsShown(wrapped)
         == WordsOfAll(OwnText(node)) + (if node.Item? then OwnWords(within) else WordsShown(within))
      && OwnWords(wrapped) == WordsOfAll(OwnText(node)) + (if node.Item? then OwnWords(within) else [])
  {
    var wrapped := Wrap(false, node, within);
    if wrapped != [] {
      assert wrapped == [wrapped[0]];
      WordsShownOfOne(wrapped[0]);
      OwnWordsOfOne(wrapped[0]);
    }
    if OwnText(node) != [] {
      assert OwnText(node) == [node.text];
      WordsOfAllOne(node.text);
      NormalizedShows(node.text);
      TrimNewlinesShows(node.text);
    }
    if node.Item? {
      LeadWords(node);
      OwnWordsOfSum(Lead(node), within);
      WordsOfSpaced(Texts(Lead(node) + within));
    }
    assert forall words: seq<string> :: words + [] == words && [] + words == words;
  }

  // ----- what is read of a document -----

  /** Where a part of a document stands: among blocks, as an entry of a list, in an item that is no entry of
    * a list, or where nothing is shown. */
  datatype Place = Flow | Entries | Stray | Nowhere

  /** The texts of a document that are shown, block by block in its order: those of headings, paragraphs,
    * code and items. An item outside a list shows no quotes and lists within it, and an entry of a list
    * that is no item does not show its own text. */
  function Readings(es: seq<Element>, place: Place): seq<string> {
    if es == [] then [] else ReadingsOf(es[0], place) + Readings(es[1..], place)
  }

  function ReadingsOf(e: Element, place: Place): seq<string> {
    match e
    case Inline(_) => []
    case Tagged(tag, _, inner) =>
      if tag.OtherTag? then Readings(inner, place)
      else
        TagReadings(tag, place, DirectText(inner), Readings(inner, Flow), Readings(inner, Entries), Readings(inner, Stray))
  }

  /** What is read of a tag that opens a block, given what is read within it in each place. */
  function TagReadings(
    tag: Tag, place: Place, own: string, flow: seq<string>, entries: seq<string>, stray: seq<string>
  ): seq<string> {
    if place.Nowhere? then []
    else if place.Entries? then (if tag.ItemTag? then [own] else []) + flow
    else
      match tag
      case QuoteTag => if place.Stray? then [] else flow
      case ListTag(_) => if place.Stray? then [] else entries
      case ItemTag => [own] + stray
      case _ => [own]
  }

  /** What is read of a draft, given what is read below it in each place. */
  function NodeReadings(node: DraftNode, place: Place, flow: seq<string>, entries: seq<string>, stray: seq<string>): seq<string> {
    if place.Nowhere? then []
    else if place.Entries? then (if node.Item? then OwnText(node) else []) + flow
    else
      match node
      case Quote => if place.Stray? then [] else flow
      case List(_) => if place.Stray? then [] else entries
      case Item(_) => OwnText(node) + stray
      case _ => OwnText(node)
  }

  /** The same, of trees of blocks. */
  function TreeReadings(trees: seq<Tree>, place: Place): seq<string>
    decreases trees
  {
    if trees == [] then []
    else
      var kids := trees[0].kids;
      NodeReadings(trees[0].node, place, TreeReadings(kids, Flow), TreeReadings(kids, Entries), TreeReadings(kids, Stray))
      + TreeReadings(trees[1..], place)
  }

  lemma {:induction false} TreeReadingsOfSum(a: seq<Tree>, b: seq<Tree>, place: Place)
    ensures TreeReadings(a + b, place) == TreeReadings(a, place) + TreeReadings(b, place)
    decreases |a|
  {
    if a == [] {
      assert a + b == b;
    } else {
      assert (a + b)[1..] == a[1..] + b;
      TreeReadingsOfSum(a[1..], b, place);
    }
  }

  lemma NodeReadsAsTag(
    tag: Tag, line: nat, own: string, place: Place, flow: seq<string>, entries: seq<string>, stray: seq<string>
  )
    requires !tag.OtherTag?
    ensures NodeReadings(AddText(NodeFor(tag, line).value, own), place, flow, entries, stray)
         == TagReadings(tag, place, own, flow, entries, stray)
  {
    assert [] + own == own;
  }

  lemma TreeReadingsOfOne(node: DraftNode, kids: seq<Tree>, place: Place)
    ensures TreeReadings([Tree(node, kids)], place)
         == NodeReadings(node, place, TreeReadings(kids, Flow), TreeReadings(kids, Entries), TreeReadings(kids, Stray))
  {
    assert [Tree(node, kids)][1..] == [];
    assert forall texts: seq<string> :: texts + [] == texts;
  }

  lemma BlockReadsAsTag(tag: Tag, offset: nat, inner: seq<Element>, text: Bytes, place: Place)
    requires !tag.OtherTag?
    requires TreeReadings(Trees(inner, text), Flow) == Readings(inner, Flow)
    requires TreeReadings(Trees(inner, text), Entries) == Readings(inner, Entries)
    requires TreeReadings(Trees(inner, text), Stray) == Readings(inner, Stray)
    ensures TreeReadings(TreesOf(Tagged(tag, offset, inner), text), place) == ReadingsOf(Tagged(tag, offset, inner), place)
  {
    var line, own := LineOf(tag, offset, text), DirectText(inner);
    TreeReadingsOfOne(AddText(NodeFor(tag, line).value, own), Trees(inner, text), place);
    NodeReadsAsTag(tag, line, own, place, Readings(inner, Flow), Readings(inner, Entries), Readings(inner, Stray));
  }

  lemma {:induction false} TreesReadAsElements(es: seq<Element>, text: Bytes, place: Place)
    ensures TreeReadings(Trees(es, text), place) == Readings(es, place)
    decreases es, 1
  {
    if es != [] {
      TreeReadsAsElement(es[0], text, place);
      TreesReadAsElements(es[1..], text, place);
      TreeReadingsOfSum(TreesOf(es[0], text), Trees(es[1..], text), place);
    }
  }

  lemma {:induction false} TreeReadsAsElement(e: Element, text: Bytes, place: Place)
    ensures TreeReadings(TreesOf(e, text), place) == ReadingsOf(e, place)
    decreases e, 0
  {
    if e.Tagged? {
      if e.tag.OtherTag? {
        TreesReadAsElements(e.inner, text, place);
      } else {
        TreesReadAsElements(e.inner, text, Flow);
        TreesReadAsElements(e.inner, text, Entries);
        TreesReadAsElements(e.inner, text, Stray);
        BlockReadsAsTag(e.tag, e.offset, e.inner, text, place);
      }
    }
  }

  // ----- the words of a converted document -----

  /** One tree: its block says what is read of it. */
  lemma NodeSays(
    node: DraftNode, within: seq<Block>, flow: seq<string>, entries: seq<string>, stray: seq<string>
  )
    requires !Descends(false, node) ==> within == []
    requires Descends(false, node) ==> WordsShown(within) == WordsOfAll(if node.List? then entries else flow)
    requires node.Item? ==> OwnWords(within) == WordsOfAll(stray)
    ensures WordsShown(Wrap(false, node, within)) == WordsOfAll(NodeReadings(node, Flow, flow, entries, stray))
    ensures OwnWords(Wrap(false, node, within)) == WordsOfAll(NodeReadings(node, Stray, flow, entries, stray))
  {
    WrapWords(node, within);
    WordsOfAllSum(OwnText(node), stray);
    assert forall words: seq<string> :: words + [] == words && [] + words == words;
  }

  lemma EntrySays(node: DraftNode, within: seq<Block>, flow: seq<string>, entries: seq<string>, stray: seq<string>)
    requires WordsShown(within) == WordsOfAll(flow)
    ensures WordsShown(Wrap(true, node, within)) == WordsOfAll(NodeReadings(node, Entries, flow, entries, stray))
  {
    EntryWords(node, within);
    WordsOfAllSum(if node.Item? then OwnText(node) else [], flow);
  }

  lemma {:induction false} TreesSay(trees: seq<Tree>, entries: bool, k: nat)
    requires k <= |trees|
    ensures WordsShown(TreeBlocks(Wrap, trees, entries, k)) == WordsOfAll(TreeReadings(trees[k..], if entries then Entries else Flow))
    ensures !entries ==> OwnWords(TreeBlocks(Wrap, trees, entries, k)) == WordsOfAll(TreeReadings(trees[k..], Stray))
    decreases trees, |trees| - k
  {
    if k < |trees| {
      var node, kids := trees[k].node, trees[k].kids;
      var within := if Descends(entries, node) then TreeBlocks(Wrap, kids, HoldsEntries(entries, node), 0) else [];
      var flow, listed, stray := TreeReadings(kids, Flow), TreeReadings(kids, Entries), TreeReadings(kids, Stray);
      if Descends(entries, node) {
        TreesSay(kids, HoldsEntries(entries, node), 0);
        assert kids[0..] == kids;
      }
      if entries {
        EntrySays(node, within, flow, listed, stray);
      } else {
        NodeSays(node, within, flow, listed, stray);
      }
      TreesSay(trees, entries, k + 1);
      TreesSayNext(trees, entries, k, Wrap(entries, node, within));
    }
  }

  lemma TreesSayNext(trees: seq<Tree>, entries: bool, k: nat, first: seq<Block>)
    requires k < |trees|
    requires var node, kids := trees[k].node, trees[k].kids;
      var flow, listed, stray := TreeReadings(kids, Flow), TreeReadings(kids, Entries), TreeReadings(kids, Stray);
      && WordsShown(first) == WordsOfAll(NodeReadings(node, if entries then Entries else Flow, flow, listed, stray))
      && (!entries ==> OwnWords(first) == WordsOfAll(NodeReadings(node, Stray, flow, listed, stray)))
    requires var rest := TreeBlocks(Wrap, trees, entries, k + 1);
      && WordsShown(rest) == WordsOfAll(TreeReadings(trees[k + 1..], if entries then Entries else Flow))
      && (!entries ==> OwnWords(rest) == WordsOfAll(TreeReadings(trees[k + 1..], Stray)))
    ensures var all := first + TreeBlocks(Wrap, trees, entries, k + 1);
      && WordsShown(all) == WordsOfAll(TreeReadings(trees[k..], if entries then Entries else Flow))
      && (!entries ==> OwnWords(all) == WordsOfAll(TreeReadings(trees[k..], Stray)))
  {
    var rest := TreeBlocks(Wrap, trees, entries, k + 1);
    var node, kids := trees[k].node, trees[k].kids;
    var flow, listed, stray := TreeReadings(kids, Flow), TreeReadings(kids, Entries), TreeReadings(kids, Stray);
    var place := if entries then Entries else Flow;
    assert trees[k..][0] == trees[k] && trees[k..][1..] == trees[k + 1..];
    WordsShownOfSum(first, rest);
    OwnWordsOfSum(first, rest);
    WordsOfAllSum(NodeReadings(node, place, flow, listed, stray), TreeReadings(trees[k + 1..], place));
    WordsOfAllSum(NodeReadings(node, Stray, flow, listed, stray), TreeReadings(trees[k + 1..], Stray));
  }

  // ----- what the cap leaves -----

  /** In both measures the one says the beginning of what the other says. */
  ghost predicate SaysBeginning<T>(whole: seq<T> -> seq<string>, own: seq<T> -> seq<string>, a: seq<T>, b: seq<T>) {
    whole(a) <= whole(b) && own(a) <= own(b)
  }

  ghost predicate Additive<T(!new)>(f: seq<T> -> seq<string>) {
    f([]) == [] && forall a, b :: f(a + b) == f(a) + f(b)
  }

  /** Measures that add up, and around a beginning give a beginning. */
  ghost predicate Gradual<T(!new)>(wrap: Wrapper<T>, whole: seq<T> -> seq<string>, own: seq<T> -> seq<string>) {
    && Additive(whole) && Additive(own)
    && forall entry, node, a, b :: SaysBeginning(whole, own, a, b) && (!Descends(entry, node) ==> a == b == []) ==>
         SaysBeginning(whole, own, wrap(entry, node, a), wrap(entry, node, b))
  }

  lemma BeginningOfSum<T(!new)>(
    whole: seq<T> -> seq<string>, own: seq<T> -> seq<string>, first: seq<T>, rest: seq<T>, full: seq<T>, others: seq<T>
  )
    requires Additive(whole) && Additive(own)
    requires (first == full && SaysBeginning(whole, own, rest, others)) || (rest == [] && SaysBeginning(whole, own, first, full))
    ensures SaysBeginning(whole, own, first + rest, full + others)
  {
    if rest == [] {
      assert first + rest == first;
    }
  }

  /** What is said under a budget is the beginning of what is said without. */
  lemma {:induction false} CapIsBeginning<T(!new)>(
    wrap: Wrapper<T>, whole: seq<T> -> seq<string>, own: seq<T> -> seq<string>,
    drafts: Drafts, id: nat, entries: bool, k: nat, budget: nat
  )
    requires Gradual(wrap, whole, own)
    requires Forward(drafts) && id < |drafts| && k <= |drafts[id].children|
    ensures SaysBeginning(whole, own, Cap(wrap, drafts, id, entries, k, budget), Render(wrap, drafts, id, entries, k))
    decreases |drafts| - id, |drafts[id].children| - k
  {
    if k < |drafts[id].children| && budget > 0 {
      assert ForwardAt(drafts, id);
      var kid := drafts[id].children[k];
      var left := Left(budget - 1, Within(drafts, kid, entries));
      if Within(drafts, kid, entries) <= budget - 1 {
        CapOneIsRenderOne(wrap, drafts, kid, entries, budget - 1);
        CapIsBeginning(wrap, whole, own, drafts, id, entries, k + 1, left);
      } else {
        CapOneIsBeginning(wrap, whole, own, drafts, kid, entries, budget - 1);
        assert Cap(wrap, drafts, id, entries, k + 1, left) == [];
      }
      BeginningOfSum(whole, own,
        CapOne(wrap, drafts, kid, entries, budget - 1), Cap(wrap, drafts, id, entries, k + 1, left),
        RenderOne(wrap, drafts, kid, entries), Render(wrap, drafts, id, entries, k + 1));
    }
  }

  lemma {:induction false} CapOneIsBeginning<T(!new)>(
    wrap: Wrapper<T>, whole: seq<T> -> seq<string>, own: seq<T> -> seq<string>,
    drafts: Drafts, id: nat, entry: bool, budget: nat
  )
    requires Gradual(wrap, whole, own)
    requires Forward(drafts) && id < |drafts|
    ensures SaysBeginning(whole, own, CapOne(wrap, drafts, id, entry, budget), RenderOne(wrap, drafts, id, entry))
    decreases |drafts| - id, |drafts[id].children| + 1
  {
    if Descends(entry, drafts[id].node) {
      CapIsBeginning(wrap, whole, own, drafts, id, HoldsEntries(entry, drafts[id].node), 0, budget);
    }
  }

  lemma WrapIsGradual(entry: bool, node: DraftNode, a: seq<Block>, b: seq<Block>)
    requires SaysBeginning(WordsShown, OwnWords, a, b)
    requires !Descends(entry, node) ==> a == b == []
    ensures SaysBeginning(WordsShown, OwnWords, Wrap(entry, node, a), Wrap(entry, node, b))
  {
    if entry {
      EntryWords(node, a);
      EntryWords(node, b);
      OwnWordsOfOne(Entry(Lead(node) + a));
      OwnWordsOfOne(Entry(Lead(node) + b));
    } else {
      WrapWords(node, a);
      WrapWords(node, b);
    }
  }

  lemma BlocksAreGradual()
    ensures Gradual(Wrap, WordsShown, OwnWords)
  {
    forall a, b ensures WordsShown(a + b) == WordsShown(a) + WordsShown(b) && OwnWords(a + b) == OwnWords(a) + OwnWords(b) {
      WordsShownOfSum(a, b);
      OwnWordsOfSum(a, b);
    }
    forall entry, node, a, b | SaysBeginning(WordsShown, OwnWords, a, b) && (!Descends(entry, node) ==> a == b == [])
      ensures SaysBeginning(WordsShown, OwnWords, Wrap(entry, node, a), Wrap(entry, node, b))
    {
      WrapIsGradual(entry, node, a, b);
    }
  }

  /** For any document: the words of the preview's blocks, read in order, are the beginning of the words of
    * the texts that are shown, and all of them when the document comes to at most 512 blocks. */
  lemma PreviewSaysDocument(es: seq<Element>, text: Bytes, preview: seq<Block>)
    requires AllInlineOnly(es) && AllInOrder(EMPTY, Events(es), text)
    requires var drafts := Fold(EMPTY, Events(es), text).drafts;
      drafts != [] && Forward(drafts) && preview == Cap(Wrap, drafts, 0, false, 0, 512)
    ensures WordsShown(preview) <= WordsOfAll(Readings(es, Flow))
    ensures TreeCount(Trees(es, text), false, 0) <= 512 ==> WordsShown(preview) == WordsOfAll(Readings(es, Flow))
  {
    var drafts, trees := Fold(EMPTY, Events(es), text).drafts, Trees(es, text);
    ArenaConverts(Wrap, es, text);
    BlocksAreGradual();
    CapIsBeginning(Wrap, WordsShown, OwnWords, drafts, 0, false, 0, 512);
    DocumentSays(es, text);
    if TreeCount(trees, false, 0) <= 512 {
      CapIsRender(Wrap, drafts, 0, false, 0, 512);
    }
  }

  lemma DocumentSays(es: seq<Element>, text: Bytes)
    ensures WordsShown(TreeBlocks(Wrap, Trees(es, text), false, 0)) == WordsOfAll(Readings(es, Flow))
  {
    var trees := Trees(es, text);
    TreesSay(trees, false, 0);
    assert trees[0..] == trees;
    TreesReadAsElements(es, text, Flow);
  }

  // ----- the kind and the data of every block -----

  /** The blocks of part of a document, as entries of a list or not. */
  function BlocksOf(es: seq<Element>, text: Bytes, entries: bool): seq<Block> {
    TreeBlocks(Wrap, Trees(es, text), entries, 0)
  }

  lemma {:induction false} TreeBlocksOfSum<T>(wrap: Wrapper<T>, a: seq<Tree>, b: seq<Tree>, entries: bool, k: nat)
    requires k <= |a|
    ensures TreeBlocks(wrap, a + b, entries, k) == TreeBlocks(wrap, a, entries, k) + TreeBlocks(wrap, b, entries, 0)
    decreases |a| - k
  {
    if k == |a| {
      TreeBlocksShift(wrap, a, b, entries, 0);
    } else {
      TreeBlocksOfSum(wrap, a, b, entries, k + 1);
      assert (a + b)[k] == a[k];
    }
  }

  lemma {:induction false} TreeBlocksShift<T>(wrap: Wrapper<T>, a: seq<Tree>, b: seq<Tree>, entries: bool, j: nat)
    requires j <= |b|
    ensures TreeBlocks(wrap, a + b, entries, |a| + j) == TreeBlocks(wrap, b, entries, j)
    decreases |b| - j
  {
    if j < |b| {
      TreeBlocksShift(wrap, a, b, entries, j + 1);
      assert (a + b)[|a| + j] == b[j];
    }
  }

  lemma TreeBlocksOfOne<T>(wrap: Wrapper<T>, tree: Tree, entries: bool)
    ensures var within := if Descends(entries, tree.node) then TreeBlocks(wrap, tree.kids, HoldsEntries(entries, tree.node), 0) else [];
      TreeBlocks(wrap, [tree], entries, 0) == wrap(entries, tree.node, within)
  {
    assert forall blocks: seq<T> :: blocks + [] == blocks;
  }

  /** The blocks of a document come element by element; inline events give none, and tags that open no
    * block give those within them. */
  lemma BlocksComeByElement(es: seq<Element>, text: Bytes, entries: bool)
    ensures BlocksOf([], text, entries) == []
    ensures es != [] ==> BlocksOf(es, text, entries) == BlocksOf([es[0]], text, entries) + BlocksOf(es[1..], text, entries)
    ensures es != [] && es[0].Inline? ==> BlocksOf([es[0]], text, entries) == []
    ensures es != [] && es[0].Tagged? && es[0].tag.OtherTag? ==>
      BlocksOf([es[0]], text, entries) == BlocksOf(es[0].inner, text, entries)
  {
    if es != [] {
      assert Trees([es[0]], text) == TreesOf(es[0], text) by {
        assert [es[0]][1..] == [];
        assert TreesOf(es[0], text) + [] == TreesOf(es[0], text);
      }
      TreeBlocksOfSum(Wrap, TreesOf(es[0], text), Trees(es[1..], text), entries, 0);
    }
  }

  /** Words with single spaces, and the same words as the text. */
  ghost predicate Retells(shown: string, text: string) {
    Tidy(shown) && Words(shown) == Words(text)
  }

  /** The draft of a tag with its text. */
  function NodeOf(tag: Tag, line: nat, own: string): DraftNode
    requires !tag.OtherTag?
  {
    AddText(NodeFor(tag, line).value, own)
  }

  lemma BlockOfTag(tag: Tag, offset: nat, inner: seq<Element>, text: Bytes, entries: bool)
    requires !tag.OtherTag?
    ensures var node := NodeOf(tag, LineOf(tag, offset, text), DirectText(inner));
      BlocksOf([Tagged(tag, offset, inner)], text, entries)
      == Wrap(entries, node, if Descends(entries, node) then BlocksOf(inner, text, HoldsEntries(entries, node)) else [])
  {
    var tree := Tree(NodeOf(tag, LineOf(tag, offset, text), DirectText(inner)), Trees(inner, text));
    assert Trees([Tagged(tag, offset, inner)], text) == [tree] by {
      assert [Tagged(tag, offset, inner)][1..] == [];
      assert [tree] + [] == [tree];
    }
    TreeBlocksOfOne(Wrap, tree, entries);
  }

  lemma NormalizedRetells(text: string)
    ensures Retells(Normalized(text), text)
  {
    NormalizedShows(text);
  }

  /** The block is of the tag's kind, with its data and around these blocks. */
  ghost predicate ShowsTag(block: Block, tag: Tag, line: nat, own: string, within: seq<Block>) {
    match tag
    case HeadingTag(level) => block.HeadingBlock? && block.level == level && block.line == line && Retells(block.text, own)
    case ParagraphTag => block.ParagraphBlock? && Retells(block.text, own)
    case FencedTag(info) =>
      && block.CodeBlock? && CodeOf(block.text, own)
      && block.language == if Words(info) == [] then "" else Words(info)[0]
    case IndentedTag => block.CodeBlock? && block.language == "" && CodeOf(block.text, own)
    case QuoteTag => block == QuoteBlock(within)
    case ListTag(ordered) => block == ListBlock(ordered, within)
    case ItemTag => block.ParagraphBlock?
    case OtherTag(_) => false
  }

  lemma WrapShowsText(tag: Tag, line: nat, own: string)
    requires tag.HeadingTag? || tag.ParagraphTag?
    ensures var wrapped := Wrap(false, NodeOf(tag, line, own), []);
      |wrapped| == 1 && ShowsTag(wrapped[0], tag, line, own, [])
  {
    assert [] + own == own;
    NormalizedRetells(own);
  }

  lemma WrapShowsCode(tag: Tag, line: nat, own: string)
    requires tag.FencedTag? || tag.IndentedTag?
    ensures var wrapped := Wrap(false, NodeOf(tag, line, own), []);
      |wrapped| == 1 && ShowsTag(wrapped[0], tag, line, own, [])
  {
    assert [] + own == own;
    TrimNewlinesIsCode(own);
  }

  lemma WrapShowsBlocks(tag: Tag, line: nat, own: string, within: seq<Block>)
    requires tag.QuoteTag? || tag.ListTag? || tag.ItemTag?
    ensures var wrapped := Wrap(false, NodeOf(tag, line, own), within);
      |wrapped| == 1 && ShowsTag(wrapped[0], tag, line, own, within)
  {
  }

  lemma TagDescends(tag: Tag, line: nat, own: string)
    requires !tag.OtherTag?
    ensures Descends(false, NodeOf(tag, line, own)) <==> tag.QuoteTag? || tag.ListTag? || tag.ItemTag?
    ensures HoldsEntries(false, NodeOf(tag, line, own)) <==> tag.ListTag?
  {
  }

  /** Outside a list every tag that opens a block gives one block, of its kind and with its data: a heading
    * its level and line, code the first word after the fence, a list whether it is ordered, and quotes and
    * lists the blocks of what they hold. */
  lemma BlockShowsTag(tag: Tag, offset: nat, inner: seq<Element>, text: Bytes)
    requires !tag.OtherTag? && offset <= |text|
    ensures var blocks := BlocksOf([Tagged(tag, offset, inner)], text, false);
      && |blocks| == 1
      && var line := if tag.HeadingTag? then Newlines(text, 0, offset) else 0;
         ShowsTag(blocks[0], tag, line, DirectText(inner), BlocksOf(inner, text, tag.ListTag?))
  {
    var line, own := LineOf(tag, offset, text), DirectText(inner);
    BlockOfTag(tag, offset, inner, text, false);
    TagDescends(tag, line, own);
    match tag
    case HeadingTag(_) => WrapShowsText(tag, line, own);
    case ParagraphTag => WrapShowsText(tag, line, own);
    case FencedTag(_) => WrapShowsCode(tag, line, own);
    case IndentedTag => WrapShowsCode(tag, line, own);
    case _ => WrapShowsBlocks(tag, line, own, BlocksOf(inner, text, tag.ListTag?));
  }

  lemma LeadRetells(own: string)
    ensures Blank(own) ==> Lead(Item(own)) == []
    ensures !Blank(own) ==> exists t :: Lead(Item(own)) == [ParagraphBlock(t)] && Retells(t, own)
  {
    BlankHasNoWords(own);
    if !Blank(own) {
      NormalizedRetells(own);
      assert Lead(Item(own)) == [ParagraphBlock(Normalized(own))];
    }
  }

  lemma EntryRetells(own: string, within: seq<Block>)
    ensures var entries := Wrap(true, Item(own), within);
      if Blank(own) then entries == [Entry(within)]
      else exists t :: entries == [Entry([ParagraphBlock(t)] + within)] && Retells(t, own)
  {
    LeadRetells(own);
    assert [] + within == within;
  }

  /** In a list every item gives an entry: its own text, if there is any, as a first paragraph, and then the
    * blocks within it. */
  lemma EntryShowsItem(offset: nat, inner: seq<Element>, text: Bytes)
    ensures var entries, own := BlocksOf([Tagged(ItemTag, offset, inner)], text, true), DirectText(inner);
      if Blank(own) then entries == [Entry(BlocksOf(inner, text, false))]
      else exists t :: entries == [Entry([ParagraphBlock(t)] + BlocksOf(inner, text, false))] && Retells(t, own)
  {
    var own := DirectText(inner);
    BlockOfTag(ItemTag, offset, inner, text, true);
    assert NodeOf(ItemTag, 0, own) == Item(own) by {
      assert [] + own == own;
    }
    EntryRetells(own, BlocksOf(inner, text, false));
  }
}
