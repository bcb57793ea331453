/** The whole preview: cutting the text, building the arena, converting it; and what the result means
  * in terms of the document the events describe. */
module MarkdownPreview {
  import opened Ordering
  import opened Text
  import opened MarkdownArena
  import opened MarkdownBlocks

  const MAX_PREVIEW_BYTES := 1024 * 1024

  // ----- cutting the text -----

  /** A place between two characters of a UTF-8 text, section 3 of RFC 3629. */
  predicate IsBoundary(text: Bytes, i: nat)
    requires i <= |text|
  {
    i == 0 || i == |text| || !(0x80 <= text[i] < 0xC0)
  }

  /** Cuts an over-long text at the last boundary that keeps it within the limit. */
  method CutText(text: Bytes) returns (end: nat, cut: bool)
    ensures end <= |text| && IsBoundary(text, end) && (cut <==> |text| > MAX_PREVIEW_BYTES)
    ensures !cut ==> end == |text|
    ensures cut ==> end <= MAX_PREVIEW_BYTES && forall i :: end < i <= MAX_PREVIEW_BYTES ==> !IsBoundary(text, i)
  {
    end, cut := |text|, false;
    if |text| > MAX_PREVIEW_BYTES {
      end, cut := MAX_PREVIEW_BYTES, true;
      while !IsBoundary(text, end)
        invariant end <= MAX_PREVIEW_BYTES
        invariant forall i :: end < i <= MAX_PREVIEW_BYTES ==> !IsBoundary(text, i)
        decreases end
      {
        end := end - 1;
      }
    }
  }

  /** Of an encoded text, what is kept up to a boundary is a whole number of its characters. */
  lemma {:induction false} BoundaryKeepsCharacters(s: string, i: nat) returns (k: nat)
    requires i <= |Encode(s)| && IsBoundary(Encode(s), i)
    ensures k <= |s| && Encode(s)[..i] == Encode(s[..k])
    decreases |s|
  {
    if i == 0 {
      k := 0;
    } else {
      var first, rest := EncodeChar(s[0]), Encode(s[1..]);
      assert Encode(s) == first + rest;
      if i < |first| {
        LaterBytesContinue(s[0], i);
      }
      assert IsBoundary(rest, i - |first|);
      var m := BoundaryKeepsCharacters(s[1..], i - |first|);
      k := m + 1;
      assert s[..k][0] == s[0] && s[..k][1..] == s[1..][..m];
      assert (first + rest)[..i] == first + rest[..i - |first|];
    }
  }

  lemma LaterBytesContinue(c: char, i: nat)
    requires 0 < i < |EncodeChar(c)|
    ensures 0x80 <= EncodeChar(c)[i] < 0xC0
  {
  }

  // ----- the preview -----

  method Preview(events: seq<Event>, text: Bytes, inputTruncated: bool) returns (blocks: seq<Block>, truncated: bool)
    requires AllInOrder(EMPTY, events, text)
    ensures var drafts := Fold(EMPTY, events, text).drafts;
      && drafts != [] && Forward(drafts)
      && blocks == Cap(Wrap, drafts, 0, false, 0, MAX_BLOCKS)
      && (truncated <==> inputTruncated || Below(drafts, 0, false, 0) > MAX_BLOCKS)
      && (Grammatical(EMPTY, events, text) ==> (truncated <==> inputTruncated || |drafts| - 1 > MAX_BLOCKS))
  {
    var arena := new Arena();
    ghost var end := arena.Parse(events, text);
    FoldIsArena(events, text);
    ArenaIsForward(arena.drafts);
    var converter := new Converter(arena.drafts, inputTruncated);
    blocks := converter.AppendChildren(0);
    truncated := converter.truncated;
    if Grammatical(EMPTY, events, text) {
      GrammaticalCapIsExact(events, text);
    }
  }

  lemma FoldIsArena(events: seq<Event>, text: Bytes)
    requires AllInOrder(EMPTY, events, text)
    ensures IsArena(Fold(EMPTY, events, text))
  {
    assert Spans(EMPTY.drafts, 0, 1);
    FoldKeepsArena(EMPTY, events, text);
  }

  // ----- the cap is exact -----

  predicate IsLeaf(node: DraftNode) {
    node.Heading? || node.Paragraph? || node.Code?
  }

  /** The conversion leaves nothing below what it does not go into. */
  ghost predicate SeesAll(drafts: Drafts, id: nat, entries: bool, k: nat)
    requires Forward(drafts) && id < |drafts| && k <= |drafts[id].children|
    decreases |drafts| - id, |drafts[id].children| - k
  {
    k < |drafts[id].children| ==>
      assert ForwardAt(drafts, id);
      var kid := drafts[id].children[k];
      var node := drafts[kid].node;
      && (if Descends(entries, node) then SeesAll(drafts, kid, HoldsEntries(entries, node), 0) else drafts[kid].children == [])
      && SeesAll(drafts, id, entries, k + 1)
  }

  lemma BareIsAlone(drafts: Drafts, id: nat, end: nat)
    requires id < end <= |drafts| && Spans(drafts, id, end)
    ensures drafts[id].children == [] <==> end == id + 1
  {
    assert Tiled(drafts, drafts[id].children, 0, id + 1, end);
  }

  /** The conversion comes to at most all drafts, and to all of them exactly when it sees all. */
  lemma {:induction false} BelowCounts(drafts: Drafts, id: nat, entries: bool, k: nat, from: nat, end: nat)
    requires Forward(drafts) && id < |drafts| && k <= |drafts[id].children| && from <= end <= |drafts|
    requires Tiled(drafts, drafts[id].children, k, from, end)
    ensures Below(drafts, id, entries, k) <= end - from
    ensures Below(drafts, id, entries, k) == end - from <==> SeesAll(drafts, id, entries, k)
    decreases |drafts| - id, |drafts[id].children| - k
  {
    var kids := drafts[id].children;
    if k < |kids| {
      assert ForwardAt(drafts, id);
      var next := if k + 1 < |kids| then kids[k + 1] else end;
      var node := drafts[from].node;
      if Descends(entries, node) {
        BelowCounts(drafts, from, HoldsEntries(entries, node), 0, from + 1, next);
      } else {
        BareIsAlone(drafts, from, next);
      }
      BelowCounts(drafts, id, entries, k + 1, next, end);
    }
  }

  /** For any events the conversion comes to at most all drafts but the root, and to all exactly when it
    * sees all. So the number of drafts says whether the preview is cut, except exactly when the conversion
    * comes to no more drafts than fit although there are more. */
  lemma CapIsExact(events: seq<Event>, text: Bytes)
    requires AllInOrder(EMPTY, events, text)
    ensures var drafts := Fold(EMPTY, events, text).drafts;
      && drafts != [] && Forward(drafts)
      && Below(drafts, 0, false, 0) <= |drafts| - 1
      && (Below(drafts, 0, false, 0) == |drafts| - 1 <==> SeesAll(drafts, 0, false, 0))
      && ((Below(drafts, 0, false, 0) > MAX_BLOCKS <==> |drafts| - 1 > MAX_BLOCKS)
            <==> !(Below(drafts, 0, false, 0) <= MAX_BLOCKS < |drafts| - 1))
  {
    var drafts := Fold(EMPTY, events, text).drafts;
    FoldIsArena(events, text);
    ArenaIsForward(drafts);
    BelowCounts(drafts, 0, false, 0, 1, |drafts|);
  }

  ghost predicate LeavesBare(drafts: Drafts) {
    forall i :: 0 <= i < |drafts| && IsLeaf(drafts[i].node) ==> drafts[i].children == []
  }

  lemma {:induction false} BareIsSeen(drafts: Drafts, id: nat, entries: bool, k: nat)
    requires OnlyRoot(drafts) && Forward(drafts) && LeavesBare(drafts) && id < |drafts| && k <= |drafts[id].children|
    ensures SeesAll(drafts, id, entries, k)
    decreases |drafts| - id, |drafts[id].children| - k
  {
    if k < |drafts[id].children| {
      assert ForwardAt(drafts, id);
      var kid := drafts[id].children[k];
      if Descends(entries, drafts[kid].node) {
        BareIsSeen(drafts, kid, HoldsEntries(entries, drafts[kid].node), 0);
      }
      BareIsSeen(drafts, id, entries, k + 1);
    }
  }

  /** No block begins within a heading, a paragraph or a code block. */
  ghost predicate Grammatical(b: Build, events: seq<Event>, text: Bytes)
    requires Sane(b) && AllInOrder(b, events, text)
    decreases |events|
  {
    events != [] ==>
      && (events[0].Start? && Pops(events[0].tag) ==> !IsLeaf(b.drafts[Top(b)].node))
      && (TakeIsSane(b, events[0], text); Grammatical(Take(b, events[0], text), events[1..], text))
  }

  lemma {:induction false} GrammaticalKeepsBare(b: Build, events: seq<Event>, text: Bytes)
    requires Sane(b) && AllInOrder(b, events, text) && Grammatical(b, events, text) && LeavesBare(b.drafts)
    ensures LeavesBare(Fold(b, events, text).drafts)
    decreases |events|
  {
    if events != [] {
      TakeIsSane(b, events[0], text);
      TakeKeepsBare(b, events[0], text);
      GrammaticalKeepsBare(Take(b, events[0], text), events[1..], text);
    }
  }

  lemma TakeKeepsBare(b: Build, event: Event, text: Bytes)
    requires Sane(b) && InOrder(b, event, text) && LeavesBare(b.drafts)
    requires event.Start? && Pops(event.tag) ==> !IsLeaf(b.drafts[Top(b)].node)
    ensures LeavesBare(Take(b, event, text).drafts)
  {
  }

  /** For a grammatical stream the preview is cut exactly when there are more than 512 drafts besides the root. */
  lemma GrammaticalCapIsExact(events: seq<Event>, text: Bytes)
    requires AllInOrder(EMPTY, events, text) && Grammatical(EMPTY, events, text)
    ensures var drafts := Fold(EMPTY, events, text).drafts;
      drafts != [] && Forward(drafts) && Below(drafts, 0, false, 0) == |drafts| - 1
  {
    var drafts := Fold(EMPTY, events, text).drafts;
    CapIsExact(events, text);
    FoldIsArena(events, text);
    GrammaticalKeepsBare(EMPTY, events, text);
    BareIsSeen(drafts, 0, false, 0);
  }

  // ----- and for no others -----

  /** Directly in a list begin only its items. */
  ghost predicate ListsHoldItems(b: Build, events: seq<Event>, text: Bytes)
    requires Sane(b) && AllInOrder(b, events, text)
    decreases |events|
  {
    events != [] ==>
      && (events[0].Start? && Pops(events[0].tag) && b.drafts[Top(b)].node.List? ==> events[0].tag.ItemTag?)
      && (TakeIsSane(b, events[0], text); ListsHoldItems(Take(b, events[0], text), events[1..], text))
  }

  ghost predicate OnlyItems(drafts: Drafts) {
    forall i, k :: 0 <= i < |drafts| && drafts[i].node.List? && 0 <= k < |drafts[i].children|
      ==> drafts[i].children[k] < |drafts| && drafts[drafts[i].children[k]].node.Item?
  }

  lemma OpeningKeepsOnlyItems(drafts: Drafts, parent: nat, node: DraftNode)
    requires OnlyItems(drafts) && parent < |drafts| && (drafts[parent].node.List? ==> node.Item?)
    ensures OnlyItems(Opened(drafts, parent, node))
  {
    var after := Opened(drafts, parent, node);
    forall i, k | 0 <= i < |after| && after[i].node.List? && 0 <= k < |after[i].children|
      ensures after[i].children[k] < |after| && after[after[i].children[k]].node.Item?
    {
      if i < |drafts| && k < |drafts[i].children| {
        assert after[i].children[k] == drafts[i].children[k];
      }
    }
  }

  lemma NotingKeepsOnlyItems(drafts: Drafts, id: nat, value: string)
    requires OnlyItems(drafts) && id < |drafts|
    ensures OnlyItems(Noted(drafts, id, value))
  {
  }

  lemma TakeKeepsOnlyItems(b: Build, event: Event, text: Bytes)
    requires Sane(b) && InOrder(b, event, text) && OnlyItems(b.drafts)
    requires event.Start? && Pops(event.tag) && b.drafts[Top(b)].node.List? ==> event.tag.ItemTag?
    ensures OnlyItems(Take(b, event, text).drafts)
  {
    if event.Start? {
      var node := NodeFor(event.tag, Counted(b, event, text).line);
      if node.Some? {
        OpeningKeepsOnlyItems(b.drafts, Top(b), node.value);
      }
    } else if !event.End? {
      NotingKeepsOnlyItems(b.drafts, Top(b), InlineText(event));
    }
  }

  lemma {:induction false} FoldKeepsOnlyItems(b: Build, events: seq<Event>, text: Bytes)
    requires Sane(b) && AllInOrder(b, events, text) && ListsHoldItems(b, events, text) && OnlyItems(b.drafts)
    ensures OnlyItems(Fold(b, events, text).drafts)
    decreases |events|
  {
    if events != [] {
      TakeIsSane(b, events[0], text);
      TakeKeepsOnlyItems(b, events[0], text);
      FoldKeepsOnlyItems(Take(b, events[0], text), events[1..], text);
    }
  }

  /** What the conversion sees all of has nothing in its leaves. */
  lemma {:induction false} SeenIsBare(drafts: Drafts, id: nat, entries: bool, k: nat, from: nat, end: nat)
    requires Forward(drafts) && OnlyItems(drafts) && id < |drafts| && k <= |drafts[id].children| && from <= end <= |drafts|
    requires Tiled(drafts, drafts[id].children, k, from, end) && SeesAll(drafts, id, entries, k)
    requires entries ==> drafts[id].node.List?
    ensures forall i :: from <= i < end && IsLeaf(drafts[i].node) ==> drafts[i].children == []
    decreases |drafts| - id, |drafts[id].children| - k
  {
    var kids := drafts[id].children;
    if k < |kids| {
      assert ForwardAt(drafts, id);
      var next := if k + 1 < |kids| then kids[k + 1] else end;
      var node := drafts[from].node;
      if Descends(entries, node) {
        SeenIsBare(drafts, from, HoldsEntries(entries, node), 0, from + 1, next);
      } else {
        BareIsAlone(drafts, from, next);
      }
      SeenIsBare(drafts, id, entries, k + 1, next, end);
    }
  }

  ghost predicate Hides(drafts: Drafts, i: nat) {
    i < |drafts| && IsLeaf(drafts[i].node) && drafts[i].children != []
  }

  lemma TakeKeepsHidden(b: Build, event: Event, text: Bytes, i: nat)
    requires Sane(b) && InOrder(b, event, text) && Hides(b.drafts, i)
    ensures Hides(Take(b, event, text).drafts, i)
  {
  }

  lemma {:induction false} FoldKeepsHidden(b: Build, events: seq<Event>, text: Bytes, i: nat)
    requires Sane(b) && AllInOrder(b, events, text) && Hides(b.drafts, i)
    ensures Hides(Fold(b, events, text).drafts, i)
    decreases |events|
  {
    if events != [] {
      TakeIsSane(b, events[0], text);
      TakeKeepsHidden(b, events[0], text, i);
      FoldKeepsHidden(Take(b, events[0], text), events[1..], text, i);
    }
  }

  lemma {:induction false} BareIsGrammatical(b: Build, events: seq<Event>, text: Bytes)
    requires Sane(b) && AllInOrder(b, events, text) && LeavesBare(Fold(b, events, text).drafts)
    ensures Grammatical(b, events, text)
    decreases |events|
  {
    if events != [] {
      TakeIsSane(b, events[0], text);
      var next := Take(b, events[0], text);
      BareIsGrammatical(next, events[1..], text);
      if events[0].Start? && Pops(events[0].tag) && IsLeaf(b.drafts[Top(b)].node) {
        assert Hides(next.drafts, Top(b));
        FoldKeepsHidden(next, events[1..], text, Top(b));
        assert false;
      }
    }
  }

  /** Where lists hold items, the conversion comes to all drafts exactly when no block begins in a leaf. */
  lemma SeesAllIffGrammatical(events: seq<Event>, text: Bytes)
    requires AllInOrder(EMPTY, events, text) && ListsHoldItems(EMPTY, events, text)
    ensures var drafts := Fold(EMPTY, events, text).drafts;
      drafts != [] && Forward(drafts)
      && (Below(drafts, 0, false, 0) == |drafts| - 1 <==> Grammatical(EMPTY, events, text))
  {
    var drafts := Fold(EMPTY, events, text).drafts;
    CapIsExact(events, text);
    FoldIsArena(events, text);
    FoldKeepsOnlyItems(EMPTY, events, text);
    if Grammatical(EMPTY, events, text) {
      GrammaticalCapIsExact(events, text);
    } else if SeesAll(drafts, 0, false, 0) {
      SeenIsBare(drafts, 0, false, 0, 1, |drafts|);
      BareIsGrammatical(EMPTY, events, text);
    }
  }

  // ----- a stream whose drafts do not decide -----

  /** Paragraphs within paragraphs, all begun and then all ended. */
  function ParagraphStarts(n: nat, rest: seq<Event>): seq<Event> {
    if n == 0 then rest else [Start(ParagraphTag, 0)] + ParagraphStarts(n - 1, rest)
  }

  function ParagraphEnds(n: nat): seq<Event> {
    if n == 0 then [] else [End(ParagraphTag)] + ParagraphEnds(n - 1)
  }

  /** A root with one paragraph, which holds one, and so on to the `n`-th, all of them open. */
  ghost predicate IsNest(b: Build, n: nat) {
    && Sane(b) && |b.drafts| == n + 1 && |b.stack| == n + 1 && b.stack[n] == n
    && b.drafts[0] == Draft(Root, if n == 0 then [] else [1])
    && (n > 0 ==> b.drafts[1].node == Paragraph([]))
  }

  lemma NestGrows(b: Build, n: nat)
    requires IsNest(b, n)
    ensures IsNest(Take(b, Start(ParagraphTag, 0), []), n + 1)
  {
  }

  lemma {:induction false} EndsKeepDrafts(b: Build, n: nat)
    requires Sane(b)
    ensures AllInOrder(b, ParagraphEnds(n), []) && Fold(b, ParagraphEnds(n), []).drafts == b.drafts
    decreases n
  {
    if n > 0 {
      TakeIsSane(b, End(ParagraphTag), []);
      EndsKeepDrafts(Take(b, End(ParagraphTag), []), n - 1);
      assert ParagraphEnds(n)[1..] == ParagraphEnds(n - 1);
    }
  }

  lemma {:induction false} StartsNest(b: Build, m: nat, n: nat, ends: nat)
    requires IsNest(b, m)
    ensures var events := ParagraphStarts(n, ParagraphEnds(ends));
      && AllInOrder(b, events, [])
      && exists last :: IsNest(last, m + n) && Fold(b, events, []).drafts == last.drafts
    decreases n
  {
    if n == 0 {
      EndsKeepDrafts(b, ends);
    } else {
      var events := ParagraphStarts(n, ParagraphEnds(ends));
      NestGrows(b, m);
      StartsNest(Take(b, Start(ParagraphTag, 0), []), m + 1, n - 1, ends);
      assert events[0] == Start(ParagraphTag, 0) && events[1..] == ParagraphStarts(n - 1, ParagraphEnds(ends));
    }
  }

  /** Otherwise the number of drafts does not decide: of any number of paragraphs begun within each other
    * and then ended, the conversion comes to one. With more than 512 the preview is not cut. */
  lemma ParagraphHidesDrafts(n: nat) returns (events: seq<Event>)
    requires n >= 1
    ensures events == ParagraphStarts(n, ParagraphEnds(n)) && AllInOrder(EMPTY, events, [])
    ensures var drafts := Fold(EMPTY, events, []).drafts;
      |drafts| - 1 == n && Forward(drafts) && Below(drafts, 0, false, 0) == 1
  {
    events := ParagraphStarts(n, ParagraphEnds(n));
    StartsNest(EMPTY, 0, n, n);
    CapIsExact(events, []);
    var drafts := Fold(EMPTY, events, []).drafts;
    assert Below(drafts, 0, false, 1) == 0;
  }
}
