/** Turning the arena of drafts into preview blocks, no more than the cap allows. */
module MarkdownBlocks {
  import opened Ordering
  import opened Sequences
  import opened Text
  import opened TextWords
  import opened MarkdownArena

  const MAX_BLOCKS := 512

  /** A block of the preview, or an entry of a list with its blocks. Heading anchors are not part of this model. */
  datatype Block =
    | HeadingBlock(level: nat, text: string, line: nat)
    | ParagraphBlock(text: string)
    | CodeBlock(language: string, text: string)
    | QuoteBlock(quoted: seq<Block>)
    | ListBlock(ordered: bool, entries: seq<Block>)
    | Entry(blocks: seq<Block>)

  // ----- texts -----

  /** The words of a text with single spaces between them. */
  function Normalized(text: string): string {
    Spaced(Words(Trim(text)))
  }

  /** What is still to be written of `s`, in the middle of a word or after a space. */
  function Pending(s: string, lastSpace: bool): string {
    if lastSpace then Spaced(Words(s))
    else
      var word := FirstWord(s);
      var rest := Words(s[|word|..]);
      if rest == [] then word else word + " " + Spaced(rest)
  }

  /** At the beginning of a word it makes no difference that a space came before. */
  lemma PendingAtWord(s: string)
    requires s != [] && !IsWhitespace(s[0])
    ensures Pending(s, true) == Pending(s, false)
  {
    WordsTakeFirst(s);
  }

  lemma DropTwice(s: string, n: nat)
    requires 1 + n <= |s|
    ensures s[1..][n..] == s[1 + n..]
  {
  }

  lemma PendingInWord(s: string)
    requires s != [] && !IsWhitespace(s[0])
    ensures Pending(s, false) == [s[0]] + Pending(s[1..], false)
  {
    var later := FirstWord(s[1..]);
    DropTwice(s, |later|);
    assert FirstWord(s) == [s[0]] + later;
    var rest := Words(s[1..][|later|..]);
    assert [s[0]] + later + " " + Spaced(rest) == [s[0]] + (later + " " + Spaced(rest));
  }

  lemma PendingAtSpace(s: string, lastSpace: bool)
    requires s != [] && EndsSolid(s) && IsWhitespace(s[0])
    ensures Pending(s, lastSpace) == (if lastSpace then [] else " ") + Pending(s[1..], true)
  {
    WordsSkipSpace(s);
    if !lastSpace {
      SolidEndHasWords(s);
      assert FirstWord(s) == [] && s[0..] == s;
    }
  }

  /** What the loop writes for one character. */
  function Piece(c: char, lastSpace: bool): string {
    if !IsWhitespace(c) then [c] else if lastSpace then [] else " "
  }

  /** What the loop writes for `s`. */
  function Emit(s: string, lastSpace: bool): string {
    if s == [] then [] else Piece(s[0], lastSpace) + Emit(s[1..], IsWhitespace(s[0]))
  }

  lemma EmitStep(whole: string, out: string, s: string, lastSpace: bool)
    requires s != [] && whole == out + Emit(s, lastSpace)
    ensures whole == (out + Piece(s[0], lastSpace)) + Emit(s[1..], IsWhitespace(s[0]))
  {
    ConcatAssociates(out, Piece(s[0], lastSpace), Emit(s[1..], IsWhitespace(s[0])));
  }

  lemma PendingStep(s: string, lastSpace: bool)
    requires s != [] && EndsSolid(s)
    ensures Pending(s, lastSpace) == Piece(s[0], lastSpace) + Pending(s[1..], IsWhitespace(s[0]))
  {
    if IsWhitespace(s[0]) {
      PendingAtSpace(s, lastSpace);
    } else {
      PendingInWord(s);
      PendingAtWord(s);
    }
  }

  ghost predicate StepsAt(f: (string, bool) -> string, s: string, lastSpace: bool) {
    s != [] && EndsSolid(s) ==> f(s, lastSpace) == Piece(s[0], lastSpace) + f(s[1..], IsWhitespace(s[0]))
  }

  /** What goes on piece by piece like the loop is what the loop writes. */
  lemma {:induction false} EmitIsUnique(f: (string, bool) -> string, s: string, lastSpace: bool)
    requires EndsSolid(s) && f([], true) == f([], false) == []
    requires forall rest, space :: StepsAt(f, rest, space)
    ensures Emit(s, lastSpace) == f(s, lastSpace)
    decreases |s|
  {
    if s != [] {
      assert StepsAt(f, s, lastSpace);
      EmitIsUnique(f, s[1..], IsWhitespace(s[0]));
    }
  }

  lemma EmitIsPending(s: string)
    requires EndsSolid(s)
    ensures Emit(s, true) == Pending(s, true)
  {
    forall rest, space ensures StepsAt(Pending, rest, space) {
      if rest != [] && EndsSolid(rest) {
        PendingStep(rest, space);
      }
    }
    EmitIsUnique(Pending, s, true);
  }

  method NormalizeSpace(text: string) returns (out: string)
    ensures out == Normalized(text)
  {
    var trimmed := Trim(text);
    TrimEndShape(TrimStart(text));
    EmitIsPending(trimmed);
    out := CollapseSpaces(trimmed);
  }

  method CollapseSpaces(trimmed: string) returns (out: string)
    ensures out == Emit(trimmed, true)
  {
    out := [];
    var lastSpace := true;
    ghost var rest := trimmed;
    for i := 0 to |trimmed|
      invariant rest == trimmed[i..]
      invariant Emit(trimmed, true) == out + Emit(rest, lastSpace)
    {
      var character := trimmed[i];
      EmitStep(Emit(trimmed, true), out, rest, lastSpace);
      assert out + [] == out;
      if IsWhitespace(character) {
        if !lastSpace {
          out := out + " ";
          lastSpace := true;
        }
      } else {
        out := out + [character];
        lastSpace := false;
      }
      rest := rest[1..];
    }
  }

  function TrimNewlines(text: string): string {
    if text != [] && text[|text| - 1] == '\n' then TrimNewlines(text[..|text| - 1]) else text
  }

  // ----- single drafts -----

  function BlockText(block: Block): string {
    match block
    case HeadingBlock(_, text, _) => text
    case ParagraphBlock(text) => text
    case CodeBlock(_, text) => text
    case _ => []
  }

  function Texts(blocks: seq<Block>): seq<string> {
    seq(|blocks|, i requires 0 <= i < |blocks| => BlockText(blocks[i]))
  }

  /** The text directly in a list item, as a paragraph of its own. */
  function Lead(node: DraftNode): seq<Block> {
    if node.Item? && Trim(node.text) != [] then [ParagraphBlock(Normalized(node.text))] else []
  }

  /** Whether the conversion goes below a draft. As an entry of a list every draft is gone into. */
  predicate Descends(entry: bool, node: DraftNode) {
    entry || node.Item? || node.Quote? || node.List?
  }

  /** The children of a list are its entries, unless the list is itself taken as an entry. */
  predicate HoldsEntries(entry: bool, node: DraftNode) {
    !entry && node.List?
  }

  /** The block of a draft around the blocks within it; the root has none. */
  function Wrap(entry: bool, node: DraftNode, within: seq<Block>): seq<Block> {
    if entry then [Entry(Lead(node) + within)]
    else
      match node
      case Root => []
      case Item(_) => [ParagraphBlock(Spaced(Texts(Lead(node) + within)))]
      case Heading(level, text, line) => [HeadingBlock(level, Normalized(text), line)]
      case Paragraph(text) => [ParagraphBlock(Normalized(text))]
      case Code(language, text) => [CodeBlock(language, TrimNewlines(text))]
      case Quote => [QuoteBlock(within)]
      case List(ordered) => [ListBlock(ordered, within)]
  }

  // ----- the preview without the cap, for any way of making blocks -----

  /** Makes the blocks of a draft, an entry of a list or not, around the blocks within it. */
  type Wrapper<!T> = (bool, DraftNode, seq<T>) -> seq<T>

  /** The blocks for the children of a draft from the `k`-th on, as entries of a list or not. */
  function Render<T>(wrap: Wrapper<T>, drafts: Drafts, id: nat, entries: bool, k: nat): seq<T>
    requires Forward(drafts) && id < |drafts| && k <= |drafts[id].children|
    decreases |drafts| - id, |drafts[id].children| - k
  {
    if k == |drafts[id].children| then []
    else
      assert ForwardAt(drafts, id);
      RenderOne(wrap, drafts, drafts[id].children[k], entries) + Render(wrap, drafts, id, entries, k + 1)
  }

  function RenderOne<T>(wrap: Wrapper<T>, drafts: Drafts, id: nat, entry: bool): seq<T>
    requires Forward(drafts) && id < |drafts|
    decreases |drafts| - id, |drafts[id].children| + 1
  {
    var node := drafts[id].node;
    wrap(entry, node, if Descends(entry, node) then Render(wrap, drafts, id, HoldsEntries(entry, node), 0) else [])
  }

  /** How many drafts the conversion comes to: nothing below headings, paragraphs and code. */
  function Below(drafts: Drafts, id: nat, entries: bool, k: nat): nat
    requires Forward(drafts) && id < |drafts| && k <= |drafts[id].children|
    decreases |drafts| - id, |drafts[id].children| - k
  {
    if k == |drafts[id].children| then 0
    else
      assert ForwardAt(drafts, id);
      1 + Within(drafts, drafts[id].children[k], entries) + Below(drafts, id, entries, k + 1)
  }

  function Within(drafts: Drafts, id: nat, entry: bool): nat
    requires Forward(drafts) && id < |drafts|
    decreases |drafts| - id, |drafts[id].children| + 1
  {
    if Descends(entry, drafts[id].node) then Below(drafts, id, HoldsEntries(entry, drafts[id].node), 0) else 0
  }

  // ----- the preview under a budget of drafts -----

  /** What a budget leaves after a need is met as far as it goes. */
  function Left(budget: nat, need: nat): nat {
    if need <= budget then budget - need else 0
  }

  /** The same under a budget: every draft come to costs one. */
  function Cap<T>(wrap: Wrapper<T>, drafts: Drafts, id: nat, entries: bool, k: nat, budget: nat): seq<T>
    requires Forward(drafts) && id < |drafts| && k <= |drafts[id].children|
    decreases |drafts| - id, |drafts[id].children| - k
  {
    if k == |drafts[id].children| || budget == 0 then []
    else
      assert ForwardAt(drafts, id);
      var kid := drafts[id].children[k];
      CapOne(wrap, drafts, kid, entries, budget - 1) + Cap(wrap, drafts, id, entries, k + 1, Left(budget - 1, Within(drafts, kid, entries)))
  }

  function CapOne<T>(wrap: Wrapper<T>, drafts: Drafts, id: nat, entry: bool, budget: nat): seq<T>
    requires Forward(drafts) && id < |drafts|
    decreases |drafts| - id, |drafts[id].children| + 1
  {
    var node := drafts[id].node;
    wrap(entry, node, if Descends(entry, node) then Cap(wrap, drafts, id, HoldsEntries(entry, node), 0, budget) else [])
  }

  /** Within the budget nothing is lost. */
  lemma {:induction false} CapIsRender<T>(wrap: Wrapper<T>, drafts: Drafts, id: nat, entries: bool, k: nat, budget: nat)
    requires Forward(drafts) && id < |drafts| && k <= |drafts[id].children|
    requires Below(drafts, id, entries, k) <= budget
    ensures Cap(wrap, drafts, id, entries, k, budget) == Render(wrap, drafts, id, entries, k)
    decreases |drafts| - id, |drafts[id].children| - k
  {
    if k < |drafts[id].children| {
      assert ForwardAt(drafts, id);
      var kid := drafts[id].children[k];
      CapOneIsRenderOne(wrap, drafts, kid, entries, budget - 1);
      CapIsRender(wrap, drafts, id, entries, k + 1, budget - 1 - Within(drafts, kid, entries));
    }
  }

  lemma {:induction false} CapOneIsRenderOne<T>(wrap: Wrapper<T>, drafts: Drafts, id: nat, entry: bool, budget: nat)
    requires Forward(drafts) && id < |drafts| && Within(drafts, id, entry) <= budget
    ensures CapOne(wrap, drafts, id, entry, budget) == RenderOne(wrap, drafts, id, entry)
    decreases |drafts| - id, |drafts[id].children| + 1
  {
    if Descends(entry, drafts[id].node) {
      CapIsRender(wrap, drafts, id, HoldsEntries(entry, drafts[id].node), 0, budget);
    }
  }

  ghost predicate OneEach<T(!new)>(wrap: Wrapper<T>) {
    forall entry, node: DraftNode, within :: !node.Root? ==> |wrap(entry, node, within)| == 1
  }

  /** When the budget gets past the first child, that child is converted as without the cap. */
  lemma FirstFits<T(!new)>(wrap: Wrapper<T>, drafts: Drafts, id: nat, k: nat, budget: nat) returns (one: seq<T>, left: nat)
    requires OnlyRoot(drafts) && Forward(drafts) && id < |drafts| && k <= |drafts[id].children| && OneEach(wrap)
    requires |Cap(wrap, drafts, id, false, k, budget)| >= 2
    ensures |one| == 1 && k < |drafts[id].children|
    ensures Cap(wrap, drafts, id, false, k, budget) == one + Cap(wrap, drafts, id, false, k + 1, left)
    ensures Render(wrap, drafts, id, false, k) == one + Render(wrap, drafts, id, false, k + 1)
  {
    assert ForwardAt(drafts, id);
    var kid := drafts[id].children[k];
    one, left := CapOne(wrap, drafts, kid, false, budget - 1), Left(budget - 1, Within(drafts, kid, false));
    assert |one| == 1 && left > 0;
    CapOneIsRenderOne(wrap, drafts, kid, false, budget - 1);
  }

  /** Beyond the budget, every block but the last is as it would be without the cap. */
  lemma {:induction false} CappedIsPrefix<T(!new)>(wrap: Wrapper<T>, drafts: Drafts, id: nat, k: nat, budget: nat, j: nat)
    requires OnlyRoot(drafts) && Forward(drafts) && id < |drafts| && k <= |drafts[id].children| && OneEach(wrap)
    requires j + 1 < |Cap(wrap, drafts, id, false, k, budget)|
    ensures j < |Render(wrap, drafts, id, false, k)|
    ensures Cap(wrap, drafts, id, false, k, budget)[j] == Render(wrap, drafts, id, false, k)[j]
    decreases |drafts[id].children| - k
  {
    var one, left := FirstFits(wrap, drafts, id, k, budget);
    if j > 0 {
      CappedIsPrefix(wrap, drafts, id, k + 1, left, j - 1);
    }
  }

  // ----- the size of a preview -----

  /** A block with all blocks in it; an entry of a list is not one itself. */
  function BlockCount(block: Block): nat
    decreases block, 0
  {
    match block
    case QuoteBlock(quoted) => 1 + TotalTo(quoted, |quoted|)
    case ListBlock(_, entries) => 1 + TotalTo(entries, |entries|)
    case Entry(blocks) => TotalTo(blocks, |blocks|)
    case _ => 1
  }

  function TotalTo(blocks: seq<Block>, n: nat): nat
    requires n <= |blocks|
    decreases blocks, n
  {
    if n == 0 then 0 else TotalTo(blocks, n - 1) + BlockCount(blocks[n - 1])
  }

  function Total(blocks: seq<Block>): nat {
    TotalTo(blocks, |blocks|)
  }

  lemma {:induction false} TotalOfPrefix(a: seq<Block>, b: seq<Block>, n: nat)
    requires n <= |a| <= |b| && forall i :: 0 <= i < n ==> a[i] == b[i]
    ensures TotalTo(a, n) == TotalTo(b, n)
    decreases n
  {
    if n > 0 {
      TotalOfPrefix(a, b, n - 1);
    }
  }

  lemma {:induction false} TotalOfSumTo(a: seq<Block>, b: seq<Block>, n: nat)
    requires n <= |b|
    ensures TotalTo(a + b, |a| + n) == Total(a) + TotalTo(b, n)
    decreases n
  {
    if n == 0 {
      TotalOfPrefix(a, a + b, |a|);
    } else {
      TotalOfSumTo(a, b, n - 1);
    }
  }

  lemma TotalOfSum(a: seq<Block>, b: seq<Block>)
    ensures Total(a + b) == Total(a) + Total(b)
  {
    TotalOfSumTo(a, b, |b|);
  }

  lemma TotalOfOne(block: Block)
    ensures Total([block]) == BlockCount(block)
  {
    assert TotalTo([block], 1) == TotalTo([block], 0) + BlockCount(block);
  }

  lemma WrapSize(entry: bool, node: DraftNode, within: seq<Block>)
    requires !Descends(entry, node) ==> within == []
    ensures Total(Wrap(entry, node, within)) <= 1 + Total(within)
  {
    var wrapped := Wrap(entry, node, within);
    if wrapped != [] {
      assert wrapped == [wrapped[0]];
      TotalOfOne(wrapped[0]);
    }
    if Lead(node) != [] {
      TotalOfOne(Lead(node)[0]);
      assert Lead(node) == [Lead(node)[0]];
    }
    TotalOfSum(Lead(node), within);
  }

  /** A size that adds up, and grows by at most one around the blocks within a draft. */
  ghost predicate Modest<T(!new)>(wrap: Wrapper<T>, size: seq<T> -> nat) {
    && size([]) == 0
    && (forall a, b :: size(a + b) == size(a) + size(b))
    && forall entry, node, within :: (!Descends(entry, node) ==> within == []) ==>
         size(wrap(entry, node, within)) <= 1 + size(within)
  }

  lemma {:induction false} CapSize<T(!new)>(
    wrap: Wrapper<T>, size: seq<T> -> nat, drafts: Drafts, id: nat, entries: bool, k: nat, budget: nat
  )
    requires Modest(wrap, size)
    requires Forward(drafts) && id < |drafts| && k <= |drafts[id].children|
    ensures size(Cap(wrap, drafts, id, entries, k, budget)) <= Min(budget, Below(drafts, id, entries, k))
    decreases |drafts| - id, |drafts[id].children| - k
  {
    if k < |drafts[id].children| && budget > 0 {
      assert ForwardAt(drafts, id);
      var kid := drafts[id].children[k];
      var node, left := drafts[kid].node, Left(budget - 1, Within(drafts, kid, entries));
      if Descends(entries, node) {
        CapSize(wrap, size, drafts, kid, HoldsEntries(entries, node), 0, budget - 1);
      }
      CapSize(wrap, size, drafts, id, entries, k + 1, left);
    }
  }

  lemma BlocksAreModest()
    ensures Modest(Wrap, Total)
  {
    forall a, b ensures Total(a + b) == Total(a) + Total(b) {
      TotalOfSum(a, b);
    }
    forall entry, node, within | !Descends(entry, node) ==> within == []
      ensures Total(Wrap(entry, node, within)) <= 1 + Total(within)
    {
      WrapSize(entry, node, within);
    }
  }

  /** Nested blocks included, there are no more blocks than budget, nor than drafts come to. */
  lemma PreviewSize(drafts: Drafts, budget: nat)
    requires drafts != [] && Forward(drafts)
    ensures Total(Cap(Wrap, drafts, 0, false, 0, budget)) <= Min(budget, Below(drafts, 0, false, 0))
  {
    BlocksAreModest();
    CapSize(Wrap, Total, drafts, 0, false, 0, budget);
  }

  // ----- the conversion itself -----

  /** What is done and what is to come, one child further. */
  lemma CapNext<T>(wrap: Wrapper<T>, drafts: Drafts, id: nat, entries: bool, k: nat, budget: nat, all: seq<T>, out: seq<T>)
    requires Forward(drafts) && id < |drafts| && k < |drafts[id].children| && budget > 0
    requires ForwardAt(drafts, id) && all == out + Cap(wrap, drafts, id, entries, k, budget)
    ensures var kid := drafts[id].children[k];
      all == (out + CapOne(wrap, drafts, kid, entries, budget - 1))
             + Cap(wrap, drafts, id, entries, k + 1, Left(budget - 1, Within(drafts, kid, entries)))
  {
    var kid := drafts[id].children[k];
    ConcatAssociates(out, CapOne(wrap, drafts, kid, entries, budget - 1),
      Cap(wrap, drafts, id, entries, k + 1, Left(budget - 1, Within(drafts, kid, entries))));
  }

  /** Where counting ends up: drafts are counted up to the cap, and one more than fits is noticed. */
  datatype Tally = Tally(truncated: bool, count: nat)

  function Tallied(t: Tally, need: nat): Tally {
    Tally(t.truncated || t.count + need > MAX_BLOCKS, Min(MAX_BLOCKS, t.count + need))
  }

  lemma TallyStep(t: Tally, within: nat, rest: nat)
    requires t.count < MAX_BLOCKS
    ensures Tallied(Tallied(t.(count := t.count + 1), within), rest) == Tallied(t, 1 + within + rest)
    ensures MAX_BLOCKS - Tallied(t.(count := t.count + 1), within).count == Left(MAX_BLOCKS - t.count - 1, within)
  {
  }

  /** When the budget is spent while drafts are left, nothing more comes and that is noticed. */
  lemma BudgetSpent<T>(wrap: Wrapper<T>, drafts: Drafts, id: nat, entries: bool, k: nat, t: Tally)
    requires Forward(drafts) && id < |drafts| && k < |drafts[id].children| && t.count == MAX_BLOCKS
    ensures Cap(wrap, drafts, id, entries, k, 0) == [] && Tallied(t, Below(drafts, id, entries, k)) == Tally(true, MAX_BLOCKS)
  {
    assert ForwardAt(drafts, id);
    assert Below(drafts, id, entries, k) >= 1;
  }

  /** How many drafts may still be come to. */
  function Room(t: Tally): nat {
    if t.count <= MAX_BLOCKS then MAX_BLOCKS - t.count else 0
  }

  /** What the way through the children of a draft comes to, from the `k`-th on, with `out` made so far. */
  function Outcome<T>(
    wrap: Wrapper<T>, drafts: Drafts, id: nat, entries: bool, k: nat, out: seq<T>, t: Tally
  ): (seq<T>, Tally)
    requires Forward(drafts) && id < |drafts| && k <= |drafts[id].children|
  {
    (out + Cap(wrap, drafts, id, entries, k, Room(t)), Tallied(t, Below(drafts, id, entries, k)))
  }

  lemma OutcomeStarts<T>(wrap: Wrapper<T>, drafts: Drafts, id: nat, entries: bool, t: Tally)
    requires Forward(drafts) && id < |drafts|
    ensures Outcome(wrap, drafts, id, entries, 0, [], t)
         == (Cap(wrap, drafts, id, entries, 0, Room(t)), Tallied(t, Below(drafts, id, entries, 0)))
  {
    assert [] + Cap(wrap, drafts, id, entries, 0, Room(t)) == Cap(wrap, drafts, id, entries, 0, Room(t));
  }

  /** At the last child, or when the budget is spent before it, everything has been made. */
  lemma OutcomeEnds<T>(wrap: Wrapper<T>, drafts: Drafts, id: nat, entries: bool, k: nat, out: seq<T>, t: Tally)
    requires Forward(drafts) && id < |drafts| && k <= |drafts[id].children| && t.count <= MAX_BLOCKS
    ensures k == |drafts[id].children| ==> Outcome(wrap, drafts, id, entries, k, out, t) == (out, t)
    ensures k < |drafts[id].children| && t.count == MAX_BLOCKS ==>
      Outcome(wrap, drafts, id, entries, k, out, t) == (out, Tally(true, MAX_BLOCKS))
  {
    assert out + [] == out;
    if k < |drafts[id].children| && t.count == MAX_BLOCKS {
      BudgetSpent(wrap, drafts, id, entries, k, t);
    }
  }

  /** A child has been counted and converted within the budget: `blocks` are made, and `after` is the tally. */
  lemma ChildDone<T>(
    wrap: Wrapper<T>, drafts: Drafts, id: nat, entries: bool, k: nat, out: seq<T>, t: Tally, blocks: seq<T>, after: Tally
  )
    requires Forward(drafts) && id < |drafts| && k < |drafts[id].children| && ForwardAt(drafts, id) && t.count < MAX_BLOCKS
    requires blocks == CapOne(wrap, drafts, drafts[id].children[k], entries, Room(t.(count := t.count + 1)))
    requires after == Tallied(t.(count := t.count + 1), Within(drafts, drafts[id].children[k], entries))
    ensures after.count <= MAX_BLOCKS
    ensures Outcome(wrap, drafts, id, entries, k + 1, out + blocks, after) == Outcome(wrap, drafts, id, entries, k, out, t)
  {
    CapNext(wrap, drafts, id, entries, k, MAX_BLOCKS - t.count, Outcome(wrap, drafts, id, entries, k, out, t).0, out);
    TallyStep(t, Within(drafts, drafts[id].children[k], entries), Below(drafts, id, entries, k + 1));
  }

  lemma EntryIsWrapped(drafts: Drafts, id: nat, budget: nat)
    requires Forward(drafts) && id < |drafts|
    ensures CapOne(Wrap, drafts, id, true, budget) == [Entry(Lead(drafts[id].node) + Cap(Wrap, drafts, id, false, 0, budget))]
  {
  }

  class Converter {
    const drafts: Drafts
    var count: nat
    var truncated: bool

    constructor (drafts: Drafts, truncated: bool)
      ensures this.drafts == drafts && this.count == 0 && this.truncated == truncated
    {
      this.drafts, this.count, this.truncated := drafts, 0, truncated;
    }

    function State(): Tally
      reads this
    {
      Tally(truncated, count)
    }

    /** Converts the children of a draft until they or the budget end. */
    method AppendChildren(id: nat) returns (out: seq<Block>)
      requires Forward(drafts) && id < |drafts| && count <= MAX_BLOCKS
      modifies this
      ensures out == Cap(Wrap, drafts, id, false, 0, Room(old(State())))
      ensures State() == Tallied(old(State()), Below(drafts, id, false, 0))
      decreases |drafts| - id, 0, 1
    {
      out := [];
      OutcomeStarts(Wrap, drafts, id, false, State());
      for k := 0 to |drafts[id].children|
        invariant count <= MAX_BLOCKS
        invariant Outcome(Wrap, drafts, id, false, k, out, State()) == Outcome(Wrap, drafts, id, false, 0, [], old(State()))
      {
        OutcomeEnds(Wrap, drafts, id, false, k, out, State());
        if count == MAX_BLOCKS {
          truncated := true;
          return;
        }
        var blocks := AppendChild(id, k, out);
        out := out + blocks;
      }
      OutcomeEnds(Wrap, drafts, id, false, |drafts[id].children|, out, State());
    }

    /** Counts the `k`-th child and converts it. */
    method AppendChild(id: nat, k: nat, ghost out: seq<Block>) returns (blocks: seq<Block>)
      requires Forward(drafts) && id < |drafts| && k < |drafts[id].children| && count < MAX_BLOCKS
      modifies this
      ensures count <= MAX_BLOCKS
      ensures Outcome(Wrap, drafts, id, false, k + 1, out + blocks, State())
           == Outcome(Wrap, drafts, id, false, k, out, old(State()))
      decreases |drafts| - id, 0, 0
    {
      assert ForwardAt(drafts, id);
      count := count + 1;
      blocks := AppendOne(drafts[id].children[k]);
      ChildDone(Wrap, drafts, id, false, k, out, old(State()), blocks, State());
    }

    method AppendOne(child: nat) returns (blocks: seq<Block>)
      requires Forward(drafts) && child < |drafts| && count <= MAX_BLOCKS
      modifies this
      ensures blocks == CapOne(Wrap, drafts, child, false, Room(old(State())))
      ensures State() == Tallied(old(State()), Within(drafts, child, false))
      decreases |drafts| - child, 1, 0
    {
      match drafts[child].node
      case Root => blocks := [];
      case Item(text) =>
        var nested := AppendChildren(child);
        blocks := [ParagraphBlock(Spaced(Texts(Lead(drafts[child].node) + nested)))];
      case Heading(level, text, line) =>
        var normalized := NormalizeSpace(text);
        blocks := [HeadingBlock(level, normalized, line)];
      case Paragraph(text) =>
        var normalized := NormalizeSpace(text);
        blocks := [ParagraphBlock(normalized)];
      case Code(language, text) => blocks := [CodeBlock(language, TrimNewlines(text))];
      case Quote =>
        var nested := AppendChildren(child);
        blocks := [QuoteBlock(nested)];
      case List(ordered) =>
        var entries := AppendItems(child);
        blocks := [ListBlock(ordered, entries)];
    }

    /** Converts the entries of a list until they or the budget end. */
    method AppendItems(list: nat) returns (entries: seq<Block>)
      requires Forward(drafts) && list < |drafts| && count <= MAX_BLOCKS
      modifies this
      ensures entries == Cap(Wrap, drafts, list, true, 0, Room(old(State())))
      ensures State() == Tallied(old(State()), Below(drafts, list, true, 0))
      decreases |drafts| - list, 0, 1
    {
      entries := [];
      OutcomeStarts(Wrap, drafts, list, true, State());
      for k := 0 to |drafts[list].children|
        invariant count <= MAX_BLOCKS
        invariant Outcome(Wrap, drafts, list, true, k, entries, State()) == Outcome(Wrap, drafts, list, true, 0, [], old(State()))
      {
        OutcomeEnds(Wrap, drafts, list, true, k, entries, State());
        if count == MAX_BLOCKS {
          truncated := true;
          return;
        }
        var entry := AppendEntry(list, k, entries);
        entries := entries + [entry];
      }
      OutcomeEnds(Wrap, drafts, list, true, |drafts[list].children|, entries, State());
    }

    /** Counts the `k`-th entry of a list and converts it: the text of the item, then what is below it. */
    method AppendEntry(list: nat, k: nat, ghost out: seq<Block>) returns (entry: Block)
      requires Forward(drafts) && list < |drafts| && k < |drafts[list].children| && count < MAX_BLOCKS
      modifies this
      ensures count <= MAX_BLOCKS
      ensures Outcome(Wrap, drafts, list, true, k + 1, out + [entry], State())
           == Outcome(Wrap, drafts, list, true, k, out, old(State()))
      decreases |drafts| - list, 0, 0
    {
      assert ForwardAt(drafts, list);
      count := count + 1;
      entry := EntryOf(drafts[list].children[k]);
      ChildDone(Wrap, drafts, list, true, k, out, old(State()), [entry], State());
    }

    method EntryOf(item: nat) returns (entry: Block)
      requires Forward(drafts) && item < |drafts| && count <= MAX_BLOCKS
      modifies this
      ensures [entry] == CapOne(Wrap, drafts, item, true, Room(old(State())))
      ensures State() == Tallied(old(State()), Within(drafts, item, true))
      decreases |drafts| - item, 1, 0
    {
      EntryIsWrapped(drafts, item, Room(State()));
      var nested := AppendChildren(item);
      entry := Entry(Lead(drafts[item].node) + nested);
    }
  }
}
