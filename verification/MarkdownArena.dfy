/** Building the arena of Markdown drafts from a stream of parser events. */
module MarkdownArena {
  import opened Options
  import opened Ordering
  import opened Text

  datatype Tag =
    | ParagraphTag
    | HeadingTag(level: nat)
    | FencedTag(info: string)
    | IndentedTag
    | QuoteTag
    | ListTag(ordered: bool)
    | ItemTag
    | OtherTag(name: string)

  /** An event of the parser, with the place in the text where it starts. */
  datatype Event =
    | Start(tag: Tag, offset: nat)
    | End(tag: Tag)
    | Plain(value: string)
    | CodeSpan(value: string)
    | Break
    | TaskMarker(checked: bool)
    | Other

  datatype DraftNode =
    | Root
    | Heading(level: nat, text: string, line: nat)
    | Paragraph(text: string)
    | Code(language: string, text: string)
    | Quote
    | List(ordered: bool)
    | Item(text: string)

  datatype Draft = Draft(node: DraftNode, children: seq<nat>)

  type Drafts = seq<Draft>

  // ----- single events -----

  function Language(info: string): string {
    var words := Words(info);
    if words == [] then [] else words[0]
  }

  /** The draft a tag opens; inline and uncommon tags open none. */
  function NodeFor(tag: Tag, line: nat): Option<DraftNode> {
    match tag
    case ParagraphTag => Some(Paragraph([]))
    case HeadingTag(level) => Some(Heading(level, [], line))
    case FencedTag(info) => Some(Code(Language(info), []))
    case IndentedTag => Some(Code([], []))
    case QuoteTag => Some(Quote)
    case ListTag(ordered) => Some(List(ordered))
    case ItemTag => Some(Item([]))
    case OtherTag(_) => None
  }

  /** The tags whose end leaves a draft. */
  predicate Pops(tag: Tag) {
    !tag.OtherTag?
  }

  function AddText(node: DraftNode, value: string): DraftNode {
    match node
    case Paragraph(text) => Paragraph(text + value)
    case Heading(level, text, line) => Heading(level, text + value, line)
    case Code(language, text) => Code(language, text + value)
    case Item(text) => Item(text + value)
    case _ => node
  }

  function InlineText(event: Event): string {
    match event
    case Plain(value) => value
    case CodeSpan(value) => value
    case Break => " "
    case TaskMarker(checked) => if checked then "[done] " else "[ ] "
    case _ => []
  }

  /** The line breaks in the text from one place to another. */
  function Newlines(text: Bytes, from: nat, upto: nat): nat
    requires upto <= |text|
  {
    if upto <= from then 0 else Newlines(text, from, upto - 1) + (if text[upto - 1] == NEWLINE then 1 else 0)
  }

  lemma {:induction false} NewlinesAdd(text: Bytes, from: nat, mid: nat, upto: nat)
    requires from <= mid <= upto <= |text|
    ensures Newlines(text, from, upto) == Newlines(text, from, mid) + Newlines(text, mid, upto)
    decreases upto
  {
    if mid < upto {
      NewlinesAdd(text, from, mid, upto - 1);
    }
  }

  // ----- the state of the parse -----

  /** Drafts, open drafts from the root, and how far line breaks have been counted. */
  datatype Build = Build(drafts: Drafts, stack: seq<nat>, line: nat, scanned: nat)

  const EMPTY := Build([Draft(Root, [])], [0], 0, 0)

  ghost predicate Sane(b: Build) {
    && b.stack != [] && b.stack[0] == 0
    && forall i :: 0 <= i < |b.stack| ==> b.stack[i] < |b.drafts|
  }

  function Top(b: Build): nat
    requires b.stack != []
  {
    b.stack[|b.stack| - 1]
  }

  /** The drafts with one more below `parent`. */
  function Opened(drafts: Drafts, parent: nat, node: DraftNode): Drafts
    requires parent < |drafts|
  {
    drafts[parent := drafts[parent].(children := drafts[parent].children + [|drafts|])] + [Draft(node, [])]
  }

  function Noted(drafts: Drafts, id: nat, value: string): Drafts
    requires id < |drafts|
  {
    drafts[id := drafts[id].(node := AddText(drafts[id].node, value))]
  }

  /** Headings come in the order of the text; what the parser reports of them lies in the text. */
  predicate InOrder(b: Build, event: Event, text: Bytes) {
    event.Start? && event.tag.HeadingTag? ==> b.scanned <= event.offset <= |text|
  }

  function Counted(b: Build, event: Event, text: Bytes): Build
    requires InOrder(b, event, text)
  {
    if event.Start? && event.tag.HeadingTag? then
      b.(line := b.line + Newlines(text, b.scanned, event.offset), scanned := event.offset)
    else b
  }

  function Take(b: Build, event: Event, text: Bytes): Build
    requires Sane(b) && InOrder(b, event, text)
  {
    match event
    case Start(tag, _) =>
      var c := Counted(b, event, text);
      var node := NodeFor(tag, c.line);
      if node.None? then c
      else c.(drafts := Opened(b.drafts, Top(b), node.value), stack := b.stack + [|b.drafts|])
    case End(tag) => if Pops(tag) && |b.stack| > 1 then b.(stack := b.stack[..|b.stack| - 1]) else b
    case _ => b.(drafts := Noted(b.drafts, Top(b), InlineText(event)))
  }

  lemma TakeIsSane(b: Build, event: Event, text: Bytes)
    requires Sane(b) && InOrder(b, event, text)
    ensures Sane(Take(b, event, text))
  {
  }

  ghost predicate AllInOrder(b: Build, events: seq<Event>, text: Bytes)
    requires Sane(b)
    decreases |events|
  {
    if events == [] then true
    else
      && InOrder(b, events[0], text)
      && (TakeIsSane(b, events[0], text); AllInOrder(Take(b, events[0], text), events[1..], text))
  }

  function Fold(b: Build, events: seq<Event>, text: Bytes): (r: Build)
    requires Sane(b) && AllInOrder(b, events, text)
    ensures Sane(r)
    decreases |events|
  {
    if events == [] then b else TakeIsSane(b, events[0], text); Fold(Take(b, events[0], text), events[1..], text)
  }

  // ----- in place -----

  class Arena {
    var drafts: Drafts

    constructor ()
      ensures drafts == [Draft(Root, [])]
    {
      drafts := [Draft(Root, [])];
    }

    method StartTag(parent: nat, tag: Tag, line: nat) returns (id: Option<nat>)
      requires parent < |drafts|
      modifies this
      ensures NodeFor(tag, line).None? ==> id.None? && drafts == old(drafts)
      ensures NodeFor(tag, line).Some? ==>
        id == Some(|old(drafts)|) && drafts == Opened(old(drafts), parent, NodeFor(tag, line).value)
    {
      var node := NodeFor(tag, line);
      if node.None? {
        return None;
      }
      var next := |drafts|;
      drafts := drafts + [Draft(node.value, [])];
      drafts := drafts[parent := drafts[parent].(children := drafts[parent].children + [next])];
      assert drafts == Opened(old(drafts), parent, node.value);
      id := Some(next);
    }

    method AppendInline(id: nat, value: string)
      requires id < |drafts|
      modifies this
      ensures drafts == Noted(old(drafts), id, value)
    {
      drafts := drafts[id := drafts[id].(node := AddText(drafts[id].node, value))];
    }

    method CountNewlines(text: Bytes, from: nat, upto: nat) returns (count: nat)
      requires from <= upto <= |text|
      ensures count == Newlines(text, from, upto)
    {
      count := 0;
      for i := from to upto
        invariant count == Newlines(text, from, i)
      {
        if text[i] == NEWLINE {
          count := count + 1;
        }
      }
    }

    /** The state of the parse with the given local variables. */
    function BuildOf(stack: seq<nat>, headingLine: nat, scanned: nat): Build
      reads this
    {
      Build(drafts, stack, headingLine, scanned)
    }

    /** What the loop does with one event. */
    method TakeEvent(event: Event, text: Bytes, stack0: seq<nat>, headingLine0: nat, scanned0: nat)
      returns (stack: seq<nat>, headingLine: nat, scanned: nat)
      requires Sane(BuildOf(stack0, headingLine0, scanned0))
      requires InOrder(BuildOf(stack0, headingLine0, scanned0), event, text)
      modifies this
      ensures BuildOf(stack, headingLine, scanned) == Take(old(BuildOf(stack0, headingLine0, scanned0)), event, text)
    {
      stack, headingLine, scanned := stack0, headingLine0, scanned0;
      var current := stack[|stack| - 1];
      match event
      case Start(tag, offset) =>
        var sourceLine := 0;
        if tag.HeadingTag? {
          var more := CountNewlines(text, scanned, offset);
          headingLine := headingLine + more;
          scanned := offset;
          sourceLine := headingLine;
        }
        var id := StartTag(current, tag, sourceLine);
        if id.Some? {
          stack := stack + [id.value];
        }
      case End(tag) =>
        if Pops(tag) && |stack| > 1 {
          stack := stack[..|stack| - 1];
        }
      case _ => AppendInline(current, InlineText(event));
    }

    /** The event loop. */
    method Parse(events: seq<Event>, text: Bytes) returns (ghost end: Build)
      requires drafts == EMPTY.drafts && AllInOrder(EMPTY, events, text)
      modifies this
      ensures end == Fold(EMPTY, events, text) && drafts == end.drafts
    {
      var stack: seq<nat>, headingLine: nat, scanned: nat := [0], 0, 0;
      end := EMPTY;
      assert events[0..] == events;
      for i := 0 to |events|
        invariant end == BuildOf(stack, headingLine, scanned) && Sane(end)
        invariant AllInOrder(end, events[i..], text)
        invariant Fold(EMPTY, events, text) == Fold(end, events[i..], text)
      {
        FoldNext(end, events, i, text);
        end := Take(end, events[i], text);
        stack, headingLine, scanned := TakeEvent(events[i], text, stack, headingLine, scanned);
      }
    }
  }

  lemma FoldNext(b: Build, events: seq<Event>, i: nat, text: Bytes)
    requires i < |events| && Sane(b) && AllInOrder(b, events[i..], text)
    ensures InOrder(b, events[i], text) && Sane(Take(b, events[i], text))
    ensures AllInOrder(Take(b, events[i], text), events[i + 1..], text)
    ensures Fold(b, events[i..], text) == Fold(Take(b, events[i], text), events[i + 1..], text)
  {
    assert events[i..][0] == events[i] && events[i..][1..] == events[i + 1..];
    TakeIsSane(b, events[i], text);
  }

  // ----- the shape of the arena, for any stream of events -----

  ghost predicate ForwardAt(drafts: Drafts, id: nat)
    requires id < |drafts|
  {
    forall k :: 0 <= k < |drafts[id].children| ==> id < drafts[id].children[k] < |drafts|
  }

  ghost predicate Forward(drafts: Drafts) {
    forall id :: 0 <= id < |drafts| ==> ForwardAt(drafts, id)
  }

  /** The subtree of `id` is exactly the drafts from `id` up to `end`. */
  ghost predicate Spans(drafts: Drafts, id: nat, end: nat)
    requires id < end <= |drafts|
    decreases end - id, 0
  {
    Tiled(drafts, drafts[id].children, 0, id + 1, end)
  }

  /** The subtrees of the children from the `k`-th on lie one after the other from `from` to `end`. */
  ghost predicate Tiled(drafts: Drafts, kids: seq<nat>, k: nat, from: nat, end: nat)
    requires k <= |kids| && from <= end <= |drafts|
    decreases end - from, 1
  {
    if k == |kids| then from == end
    else
      var next := if k + 1 < |kids| then kids[k + 1] else end;
      && kids[k] == from < next <= end
      && Spans(drafts, from, next) && Tiled(drafts, kids, k + 1, next, end)
  }

  /** The stack leads from the root, each step to the last child. */
  ghost predicate IsPath(drafts: Drafts, stack: seq<nat>) {
    && stack != [] && stack[0] == 0
    && (forall i :: 0 <= i < |stack| ==> stack[i] < |drafts|)
    && forall i :: 0 <= i < |stack| - 1 ==> LastChild(drafts, stack[i], stack[i + 1])
  }

  ghost predicate LastChild(drafts: Drafts, parent: nat, child: nat)
    requires parent < |drafts|
  {
    var kids := drafts[parent].children;
    kids != [] && kids[|kids| - 1] == child
  }

  ghost predicate OnlyRoot(drafts: Drafts) {
    && drafts != [] && drafts[0].node.Root?
    && forall i :: 0 < i < |drafts| ==> !drafts[i].node.Root?
  }

  ghost predicate IsArena(b: Build) {
    OnlyRoot(b.drafts) && IsPath(b.drafts, b.stack) && Spans(b.drafts, 0, |b.drafts|)
  }

  ghost predicate SameChildren(a: Drafts, b: Drafts, from: nat, upto: nat) {
    upto <= |a| && upto <= |b| && forall i :: from <= i < upto ==> a[i].children == b[i].children
  }

  lemma {:induction false} SpansFrame(a: Drafts, b: Drafts, id: nat, end: nat)
    requires id < end && SameChildren(a, b, id, end) && Spans(a, id, end)
    ensures Spans(b, id, end)
    decreases end - id, 0
  {
    TiledFrame(a, b, a[id].children, 0, id + 1, end);
  }

  lemma {:induction false} TiledFrame(a: Drafts, b: Drafts, kids: seq<nat>, k: nat, from: nat, end: nat)
    requires k <= |kids| && from <= end && SameChildren(a, b, from, end) && Tiled(a, kids, k, from, end)
    ensures Tiled(b, kids, k, from, end)
    decreases end - from, 1
  {
    if k < |kids| {
      var next := if k + 1 < |kids| then kids[k + 1] else end;
      SpansFrame(a, b, from, next);
      TiledFrame(a, b, kids, k + 1, next, end);
    }
  }

  /** One more subtree at the end. */
  lemma {:induction false} TiledAppend(a: Drafts, b: Drafts, kids: seq<nat>, k: nat, from: nat)
    requires k <= |kids| && from <= |a| && Tiled(a, kids, k, from, |a|)
    requires |b| == |a| + 1 && b[|a|].children == [] && SameChildren(a, b, from, |a|)
    ensures Tiled(b, kids + [|a|], k, from, |b|)
    decreases |a| - from
  {
    var more := kids + [|a|];
    if k == |kids| {
      assert Spans(b, |a|, |b|);
    } else {
      var next := if k + 1 < |kids| then kids[k + 1] else |a|;
      SpansFrame(a, b, from, next);
      TiledAppend(a, b, kids, k + 1, next);
      assert more[k] == kids[k] && (if k + 1 < |more| then more[k + 1] else |b|) == next;
    }
  }

  /** The last subtree grows. */
  lemma {:induction false} TiledGrow(a: Drafts, b: Drafts, kids: seq<nat>, k: nat, from: nat)
    requires k < |kids| && from <= |a| && Tiled(a, kids, k, from, |a|)
    requires |b| == |a| + 1 && kids[|kids| - 1] < |b| && SameChildren(a, b, from, kids[|kids| - 1])
    requires Spans(b, kids[|kids| - 1], |b|)
    ensures Tiled(b, kids, k, from, |b|)
    decreases |kids| - k
  {
    if k + 1 < |kids| {
      var next := kids[k + 1];
      TiledGrow(a, b, kids, k + 1, next);
      TiledAscends(a, kids, k + 1, next, |a|);
      SpansFrame(a, b, from, next);
    }
  }

  lemma {:induction false} TiledAscends(a: Drafts, kids: seq<nat>, k: nat, from: nat, end: nat)
    requires k < |kids| && from <= end <= |a| && Tiled(a, kids, k, from, end)
    ensures from <= kids[|kids| - 1] < end
    decreases |kids| - k
  {
    if k + 1 < |kids| {
      TiledAscends(a, kids, k + 1, kids[k + 1], end);
    }
  }

  /** A draft opened on top of the stack: every open draft's subtree grows by it. */
  lemma {:induction false} SpansGrow(a: Drafts, node: DraftNode, stack: seq<nat>, i: nat)
    requires IsPath(a, stack) && i < |stack| && Spans(a, stack[i], |a|)
    ensures Spans(Opened(a, stack[|stack| - 1], node), stack[i], |a| + 1)
    decreases |stack| - i
  {
    var top := stack[|stack| - 1];
    var b := Opened(a, top, node);
    var kids := a[stack[i]].children;
    if i == |stack| - 1 {
      TiledAppend(a, b, kids, 0, top + 1);
      assert b[top].children == kids + [|a|];
    } else {
      assert LastChild(a, stack[i], stack[i + 1]);
      TiledAscends(a, kids, 0, stack[i] + 1, |a|);
      LastChildSpans(a, kids, 0, stack[i] + 1, |a|);
      SpansGrow(a, node, stack, i + 1);
      StackAscends(a, stack, i + 1, |stack| - 1);
      TiledGrow(a, b, kids, 0, stack[i] + 1);
      assert b[stack[i]].children == kids;
    }
  }

  lemma {:induction false} LastChildSpans(a: Drafts, kids: seq<nat>, k: nat, from: nat, end: nat)
    requires k < |kids| && from <= end <= |a| && Tiled(a, kids, k, from, end)
    ensures kids[|kids| - 1] < end && Spans(a, kids[|kids| - 1], end)
    decreases |kids| - k
  {
    if k + 1 < |kids| {
      LastChildSpans(a, kids, k + 1, kids[k + 1], end);
    }
  }

  /** Along the stack ids ascend, and every open draft's subtree reaches to the end. */
  lemma {:induction false} StackAscends(a: Drafts, stack: seq<nat>, i: nat, j: nat)
    requires IsPath(a, stack) && i <= j < |stack| && Spans(a, stack[i], |a|)
    ensures stack[i] <= stack[j] && Spans(a, stack[j], |a|) && (i < j ==> stack[i] < stack[j])
    decreases j - i
  {
    if i < j {
      var kids := a[stack[i]].children;
      assert LastChild(a, stack[i], stack[i + 1]);
      TiledAscends(a, kids, 0, stack[i] + 1, |a|);
      LastChildSpans(a, kids, 0, stack[i] + 1, |a|);
      StackAscends(a, stack, i + 1, j);
    }
  }

  lemma OpeningKeepsArena(b: Build, node: DraftNode)
    requires IsArena(b) && !node.Root?
    ensures var drafts := Opened(b.drafts, Top(b), node);
      OnlyRoot(drafts) && IsPath(drafts, b.stack + [|b.drafts|]) && Spans(drafts, 0, |drafts|)
  {
    SpansGrow(b.drafts, node, b.stack, 0);
    var drafts, stack := Opened(b.drafts, Top(b), node), b.stack + [|b.drafts|];
    forall i | 0 <= i < |stack| - 1 ensures LastChild(drafts, stack[i], stack[i + 1]) {
      StackAscends(b.drafts, b.stack, 0, i);
      StackAscends(b.drafts, b.stack, i, |b.stack| - 1);
      assert stack[i] == b.stack[i];
      if i < |b.stack| - 1 {
        assert LastChild(b.drafts, b.stack[i], b.stack[i + 1]);
      }
    }
  }

  lemma NotingKeepsArena(b: Build, value: string)
    requires IsArena(b)
    ensures var drafts := Noted(b.drafts, Top(b), value);
      OnlyRoot(drafts) && IsPath(drafts, b.stack) && Spans(drafts, 0, |drafts|)
  {
    SpansFrame(b.drafts, Noted(b.drafts, Top(b), value), 0, |b.drafts|);
  }

  /** Whatever the events, the arena stays one tree in document order and the stack a path in it. */
  lemma TakeKeepsArena(b: Build, event: Event, text: Bytes)
    requires Sane(b) && IsArena(b) && InOrder(b, event, text)
    ensures IsArena(Take(b, event, text))
  {
    if event.Start? {
      var node := NodeFor(event.tag, Counted(b, event, text).line);
      if node.Some? {
        OpeningKeepsArena(b, node.value);
      }
    } else if !event.End? {
      NotingKeepsArena(b, InlineText(event));
    }
  }

  lemma {:induction false} FoldKeepsArena(b: Build, events: seq<Event>, text: Bytes)
    requires Sane(b) && IsArena(b) && AllInOrder(b, events, text)
    ensures IsArena(Fold(b, events, text))
    decreases |events|
  {
    if events != [] {
      TakeIsSane(b, events[0], text);
      TakeKeepsArena(b, events[0], text);
      FoldKeepsArena(Take(b, events[0], text), events[1..], text);
    }
  }

  /** Children come after their parent, for any arena built from events. */
  lemma ArenaIsForward(drafts: Drafts)
    requires drafts != [] && Spans(drafts, 0, |drafts|)
    ensures Forward(drafts)
  {
    forall id | 0 <= id < |drafts| ensures ForwardAt(drafts, id) {
      SpanIsForward(drafts, 0, |drafts|, id);
    }
  }

  lemma {:induction false} SpanIsForward(drafts: Drafts, id: nat, end: nat, x: nat)
    requires id < end <= |drafts| && Spans(drafts, id, end) && id <= x < end
    ensures ForwardAt(drafts, x)
    decreases end - id, 0
  {
    var kids := drafts[id].children;
    if x == id {
      forall k | 0 <= k < |kids| ensures id < kids[k] < |drafts| {
        TiledKidInRange(drafts, kids, 0, id + 1, end, k);
      }
    } else {
      TileIsForward(drafts, kids, 0, id + 1, end, x);
    }
  }

  lemma {:induction false} TileIsForward(drafts: Drafts, kids: seq<nat>, k: nat, from: nat, end: nat, x: nat)
    requires k <= |kids| && from <= end <= |drafts| && Tiled(drafts, kids, k, from, end) && from <= x < end
    ensures ForwardAt(drafts, x)
    decreases end - from, 1
  {
    var next := if k + 1 < |kids| then kids[k + 1] else end;
    if x < next {
      SpanIsForward(drafts, from, next, x);
    } else {
      TileIsForward(drafts, kids, k + 1, next, end, x);
    }
  }

  lemma {:induction false} TiledKidInRange(drafts: Drafts, kids: seq<nat>, k: nat, from: nat, end: nat, j: nat)
    requires k <= j < |kids| && from <= end <= |drafts| && Tiled(drafts, kids, k, from, end)
    ensures from <= kids[j] < end
    decreases |kids| - k
  {
    if k < j {
      TiledKidInRange(drafts, kids, k + 1, kids[k + 1], end, j);
    }
  }

  // ----- heading lines -----

  ghost predicate LineExact(b: Build, text: Bytes) {
    b.scanned <= |text| && b.line == Newlines(text, 0, b.scanned)
  }

  /** A heading's line is the number of line breaks before it, though each is counted only once. */
  lemma HeadingLineIsExact(b: Build, event: Event, text: Bytes)
    requires Sane(b) && InOrder(b, event, text) && LineExact(b, text)
    ensures LineExact(Take(b, event, text), text)
    ensures event.Start? && event.tag.HeadingTag? ==>
      var drafts := Take(b, event, text).drafts;
      drafts[|drafts| - 1].node == Heading(event.tag.level, [], Newlines(text, 0, event.offset))
  {
    if event.Start? && event.tag.HeadingTag? {
      NewlinesAdd(text, 0, b.scanned, event.offset);
    }
  }
}
