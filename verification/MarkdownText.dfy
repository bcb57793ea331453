/** The text of a document, event by event, and how much of it a preview shows, and in what order. */
module MarkdownText {
  import opened Ordering
  import opened Sequences
  import opened Text
  import opened TextWords
  import opened MarkdownArena
  import opened MarkdownBlocks
  import opened MarkdownMeaning
  import opened MarkdownReading

  // ----- what the events say -----

  /** Text as it stands; a space for a line break, and where a block begins or ends. */
  function Said(event: Event): string {
    match event
    case Start(tag, _) => if tag.OtherTag? then [] else " "
    case End(tag) => if tag.OtherTag? then [] else " "
    case Plain(value) => value
    case CodeSpan(value) => value
    case Break => " "
    case TaskMarker(checked) => if checked then "[done] " else "[ ] "
    case Other => []
  }

  function Spoken(events: seq<Event>): string {
    if events == [] then [] else Said(events[0]) + Spoken(events[1..])
  }

  lemma {:induction false} SpokenOfSum(a: seq<Event>, b: seq<Event>)
    ensures Spoken(a + b) == Spoken(a) + Spoken(b)
    decreases |a|
  {
    if a == [] {
      assert a + b == b;
    } else {
      assert (a + b)[1..] == a[1..] + b;
      SpokenOfSum(a[1..], b);
    }
  }

  lemma SpokenOfOne(event: Event)
    ensures Spoken([event]) == Said(event)
  {
    assert [event][1..] == [];
    assert Said(event) + [] == Said(event);
  }

  lemma SpokenOfTag(tag: Tag, offset: nat, inner: seq<Element>)
    ensures Spoken(EventsOf(Tagged(tag, offset, inner)))
         == Said(Start(tag, offset)) + Spoken(Events(inner)) + Said(End(tag))
  {
    SpokenOfSum([Start(tag, offset)] + Events(inner), [End(tag)]);
    SpokenOfSum([Start(tag, offset)], Events(inner));
    SpokenOfOne(Start(tag, offset));
    SpokenOfOne(End(tag));
  }

  lemma SpokenOfNext(es: seq<Element>)
    requires es != []
    ensures Spoken(Events(es)) == Spoken(EventsOf(es[0])) + Spoken(Events(es[1..]))
  {
    SpokenOfSum(EventsOf(es[0]), Events(es[1..]));
  }

  lemma SpokenOfOther(tag: Tag, offset: nat, inner: seq<Element>)
    requires tag.OtherTag?
    ensures Spoken(EventsOf(Tagged(tag, offset, inner))) == Spoken(Events(inner))
  {
    SpokenOfTag(tag, offset, inner);
    assert [] + Spoken(Events(inner)) + [] == Spoken(Events(inner));
  }

  lemma InlineSays(event: Event)
    requires !event.Start? && !event.End?
    ensures Spoken(EventsOf(Inline(event))) == Said(event) == InlineText(event)
  {
    SpokenOfOne(event);
  }

  // ----- how much of the text is shown -----

  /** The number of characters that are no white space. */
  function Solids(s: string): nat {
    if s == [] then 0 else (if IsWhitespace(s[0]) then 0 else 1) + Solids(s[1..])
  }

  lemma {:induction false} SolidsOfSum(a: string, b: string)
    ensures Solids(a + b) == Solids(a) + Solids(b)
    decreases |a|
  {
    if a == [] {
      assert a + b == b;
    } else {
      assert (a + b)[1..] == a[1..] + b;
      SolidsOfSum(a[1..], b);
    }
  }

  lemma {:induction false} SolidsOfSolid(w: string)
    requires forall i :: 0 <= i < |w| ==> !IsWhitespace(w[i])
    ensures Solids(w) == |w|
    decreases |w|
  {
    if w != [] {
      SolidsOfSolid(w[1..]);
    }
  }

  lemma {:induction false} SolidsAreInWords(s: string)
    ensures Solids(s) == TotalLength(Words(s))
    decreases |s|
  {
    if s != [] {
      if IsWhitespace(s[0]) {
        WordsSkipSpace(s);
        SolidsAreInWords(s[1..]);
      } else {
        var w := FirstWord(s);
        FirstWordShape(s);
        WordsTakeFirst(s);
        assert s == w + s[|w|..];
        SolidsOfSum(w, s[|w|..]);
        SolidsOfSolid(w);
        SolidsAreInWords(s[|w|..]);
        assert ([w] + Words(s[|w|..]))[1..] == Words(s[|w|..]);
      }
    }
  }

  lemma {:induction false} TotalLengthOfSum(a: seq<string>, b: seq<string>)
    ensures TotalLength(a + b) == TotalLength(a) + TotalLength(b)
    decreases |a|
  {
    if a == [] {
      assert a + b == b;
    } else {
      assert (a + b)[1..] == a[1..] + b;
      TotalLengthOfSum(a[1..], b);
    }
  }

  function SolidsOfAll(texts: seq<string>): nat {
    if texts == [] then 0 else Solids(texts[0]) + SolidsOfAll(texts[1..])
  }

  lemma {:induction false} SolidsOfAllSum(a: seq<string>, b: seq<string>)
    ensures SolidsOfAll(a + b) == SolidsOfAll(a) + SolidsOfAll(b)
    decreases |a|
  {
    if a == [] {
      assert a + b == b;
    } else {
      assert (a + b)[1..] == a[1..] + b;
      SolidsOfAllSum(a[1..], b);
    }
  }

  lemma {:induction false} SolidsOfAllAreInWords(texts: seq<string>)
    ensures SolidsOfAll(texts) == TotalLength(WordsOfAll(texts))
    decreases |texts|
  {
    if texts != [] {
      SolidsAreInWords(texts[0]);
      SolidsOfAllAreInWords(texts[1..]);
      TotalLengthOfSum(Words(texts[0]), WordsOfAll(texts[1..]));
    }
  }

  /** The place of what is within a tag, and whether text directly in it is shown. */
  datatype Spot = Spot(place: Place, kept: bool)

  function Inside(tag: Tag, spot: Spot): Spot {
    if tag.OtherTag? then spot
    else if spot.place.Nowhere? then Spot(Nowhere, false)
    else if spot.place.Entries? then Spot(Flow, tag.ItemTag?)
    else
      match tag
      case QuoteTag => Spot(if spot.place.Stray? then Nowhere else Flow, false)
      case ListTag(_) => Spot(if spot.place.Stray? then Nowhere else Entries, false)
      case ItemTag => Spot(Stray, true)
      case _ => Spot(Nowhere, true)
  }

  /** How many characters of text, white space not counted, stand where none is shown: directly in the
    * document, a quote or a list; in a block within a heading, a paragraph or code; directly in an entry of
    * a list that is no item; and in quotes and lists of an item outside a list. */
  function Lost(es: seq<Element>, spot: Spot): nat {
    if es == [] then 0 else LostIn(es[0], spot) + Lost(es[1..], spot)
  }

  function LostIn(e: Element, spot: Spot): nat {
    match e
    case Inline(event) => if spot.kept then 0 else Solids(Said(event))
    case Tagged(tag, _, inner) => Lost(inner, Inside(tag, spot))
  }

  /** The characters of the text: those directly in a block that shows them, those read block by block, and
    * those lost. */
  function Accounted(es: seq<Element>, spot: Spot): nat {
    (if spot.kept then Solids(DirectText(es)) else 0) + SolidsOfAll(Readings(es, spot.place)) + Lost(es, spot)
  }

  function AccountedIn(e: Element, spot: Spot): nat {
    (if spot.kept then Solids(TextOf(e)) else 0) + SolidsOfAll(ReadingsOf(e, spot.place)) + LostIn(e, spot)
  }

  lemma {:induction false} NothingReadNowhere(es: seq<Element>)
    ensures Readings(es, Nowhere) == []
    decreases es
  {
    if es != [] {
      if es[0].Tagged? && es[0].tag.OtherTag? {
        NothingReadNowhere(es[0].inner);
      }
      NothingReadNowhere(es[1..]);
    }
  }

  lemma {:induction false} TextIsAccountedFor(es: seq<Element>, spot: Spot)
    requires AllInlineOnly(es)
    ensures Solids(Spoken(Events(es))) == Accounted(es, spot)
    decreases es, 1
  {
    if es != [] {
      SpokenOfNext(es);
      SolidsOfSum(Spoken(EventsOf(es[0])), Spoken(Events(es[1..])));
      ElementIsAccountedFor(es[0], spot);
      TextIsAccountedFor(es[1..], spot);
      SolidsOfSum(TextOf(es[0]), DirectText(es[1..]));
      SolidsOfAllSum(ReadingsOf(es[0], spot.place), Readings(es[1..], spot.place));
    }
  }

  lemma {:induction false} ElementIsAccountedFor(e: Element, spot: Spot)
    requires InlineOnly(e)
    ensures Solids(Spoken(EventsOf(e))) == AccountedIn(e, spot)
    decreases e, 0
  {
    match e
    case Inline(event) => InlineSays(event);
    case Tagged(tag, offset, inner) =>
      TextIsAccountedFor(inner, Inside(tag, spot));
      if tag.OtherTag? {
        SpokenOfOther(tag, offset, inner);
      } else {
        BlockSolids(tag, offset, inner);
        BlockIsAccountedFor(tag, offset, inner, spot);
      }
  }

  lemma BlockSolids(tag: Tag, offset: nat, inner: seq<Element>)
    requires !tag.OtherTag?
    ensures Solids(Spoken(EventsOf(Tagged(tag, offset, inner)))) == Solids(Spoken(Events(inner)))
  {
    var within := Spoken(Events(inner));
    SpokenOfTag(tag, offset, inner);
    SolidsOfSum(" " + within, " ");
    SolidsOfSum(" ", within);
  }

  /** What is read of a tag that opens a block and lost in it is what is kept, read and lost within it. */
  lemma BlockIsAccountedFor(tag: Tag, offset: nat, inner: seq<Element>, spot: Spot)
    requires !tag.OtherTag?
    ensures AccountedIn(Tagged(tag, offset, inner), spot) == Accounted(inner, Inside(tag, spot))
  {
    var own, place := DirectText(inner), spot.place;
    if place.Nowhere? || (place.Stray? && (tag.QuoteTag? || tag.ListTag?)) {
      NothingReadNowhere(inner);
    } else if place.Entries? {
      OwnAndWithin(own, Readings(inner, Flow));
      assert [] + Readings(inner, Flow) == Readings(inner, Flow);
    } else if tag.ItemTag? {
      OwnAndWithin(own, Readings(inner, Stray));
    } else if !tag.QuoteTag? && !tag.ListTag? {
      NothingReadNowhere(inner);
      OwnAndWithin(own, []);
      assert [own] + [] == [own];
    }
  }

  lemma OwnAndWithin(own: string, within: seq<string>)
    ensures SolidsOfAll([own] + within) == Solids(own) + SolidsOfAll(within)
  {
    assert ([own] + within)[1..] == within;
  }

  /** For every document of at most 512 blocks: of its characters, white space not counted, the preview
    * shows as many as it says except those that are lost; so nothing is lost exactly when no text stands
    * where none is shown. */
  lemma NothingIsLostIff(es: seq<Element>, text: Bytes, preview: seq<Block>)
    requires AllInlineOnly(es) && AllInOrder(EMPTY, Events(es), text)
    requires TreeCount(Trees(es, text), false, 0) <= 512
    requires var drafts := Fold(EMPTY, Events(es), text).drafts;
      drafts != [] && Forward(drafts) && preview == Cap(Wrap, drafts, 0, false, 0, 512)
    ensures var shown, said := TotalLength(WordsShown(preview)), TotalLength(Words(Spoken(Events(es))));
      && shown + Lost(es, Spot(Flow, false)) == said
      && (shown == said <==> Lost(es, Spot(Flow, false)) == 0)
  {
    PreviewSaysDocument(es, text, preview);
    TextIsAccountedFor(es, Spot(Flow, false));
    SolidsAreInWords(Spoken(Events(es)));
    SolidsOfAllAreInWords(Readings(es, Flow));
  }

  // ----- in what order the text is shown -----

  /** Text and tags that open no block. */
  ghost predicate IsText(e: Element) {
    match e
    case Inline(_) => true
    case Tagged(tag, _, inner) => tag.OtherTag? && AllText(inner)
  }

  ghost predicate AllText(es: seq<Element>) {
    es != [] ==> IsText(es[0]) && AllText(es[1..])
  }

  /** An element among blocks, or in a list: text stands only in headings, paragraphs, code and items; the
    * first three hold no blocks; items stand exactly in lists, and their own text comes before their blocks. */
  ghost predicate InPlace(e: Element, list: bool)
    decreases e, 0
  {
    match e
    case Inline(event) => Said(event) == []
    case Tagged(tag, _, inner) =>
      if tag.OtherTag? then AllInPlace(inner, list)
      else if list then tag.ItemTag? && TextFirst(inner)
      else
        match tag
        case QuoteTag => AllInPlace(inner, false)
        case ListTag(_) => AllInPlace(inner, true)
        case ItemTag => false
        case _ => AllText(inner)
  }

  ghost predicate AllInPlace(es: seq<Element>, list: bool)
    decreases es, 1
  {
    es != [] ==> InPlace(es[0], list) && AllInPlace(es[1..], list)
  }

  ghost predicate TextFirst(es: seq<Element>)
    decreases es, 2
  {
    AllInPlace(es, false) || (es != [] && IsText(es[0]) && TextFirst(es[1..]))
  }

  predicate BeginsBlank(s: string) {
    s == [] || IsWhitespace(s[0])
  }

  lemma WordsApart(a: string, b: string)
    requires EndsBlank(a) || BeginsBlank(b)
    ensures Words(a + b) == Words(a) + Words(b)
  {
    if a == [] || b == [] {
      assert a + b == if a == [] then b else a;
      assert forall words: seq<string> :: [] + words == words && words + [] == words;
    } else if EndsBlank(a) {
      var n := |a| - 1;
      assert a + b == a[..n] + ([a[n]] + b) && a == a[..n] + [a[n]];
      WordsAroundSpace(a[..n], a[n], b);
      WordsBeforeSpace(a[..n], a[n]);
    } else {
      assert a + b == a + ([b[0]] + b[1..]);
      WordsAroundSpace(a, b[0], b[1..]);
      WordsSkipSpace(b);
    }
  }

  /** Text says what it is, and nothing is read of it as a block. */
  lemma {:induction false} TextSpeaks(es: seq<Element>, place: Place)
    requires AllInlineOnly(es) && AllText(es)
    ensures Spoken(Events(es)) == DirectText(es) && Readings(es, place) == []
    decreases es, 1
  {
    if es != [] {
      SpokenOfNext(es);
      TextElementSpeaks(es[0], place);
      TextSpeaks(es[1..], place);
    }
  }

  lemma {:induction false} TextElementSpeaks(e: Element, place: Place)
    requires InlineOnly(e) && IsText(e)
    ensures Spoken(EventsOf(e)) == TextOf(e) && ReadingsOf(e, place) == []
    decreases e, 0
  {
    match e
    case Inline(event) => InlineSays(event);
    case Tagged(tag, offset, inner) =>
      SpokenOfOther(tag, offset, inner);
      TextSpeaks(inner, place);
  }

  /** Among blocks there is no text. */
  lemma {:induction false} BlocksAreSilent(es: seq<Element>, list: bool)
    requires AllInlineOnly(es) && AllInPlace(es, list)
    ensures DirectText(es) == []
    decreases es
  {
    if es != [] {
      assert InPlace(es[0], list);
      if es[0].Inline? {
        InlineSays(es[0].event);
      } else if es[0].tag.OtherTag? {
        BlocksAreSilent(es[0].inner, list);
      }
      BlocksAreSilent(es[1..], list);
    }
  }

  /** What is said ends and begins with white space, and its words are those of the texts. */
  ghost predicate SaysTexts(said: string, texts: seq<string>) {
    EndsBlank(said) && BeginsBlank(said) && Words(said) == WordsOfAll(texts)
  }

  lemma SaysTextsOfSum(a: string, b: string, x: seq<string>, y: seq<string>)
    requires SaysTexts(a, x) && SaysTexts(b, y)
    ensures SaysTexts(a + b, x + y)
  {
    WordsApart(a, b);
    WordsOfAllSum(x, y);
    if b == [] {
      assert a + b == a;
    }
  }

  lemma SaysTextsWithin(within: string, texts: seq<string>)
    requires Words(within) == WordsOfAll(texts)
    ensures SaysTexts(" " + within + " ", texts)
  {
    WordsApart(" " + within, " ");
    WordsApart(" ", within);
    WordsSkipSpace(" ");
    assert Words([]) == [];
    assert [] + Words(within) + [] == Words(within);
  }

  lemma {:induction false} BlocksSayTexts(es: seq<Element>, list: bool)
    requires AllInlineOnly(es) && AllInPlace(es, list)
    ensures SaysTexts(Spoken(Events(es)), Readings(es, if list then Entries else Flow))
    decreases es, 2
  {
    if es != [] {
      SpokenOfNext(es);
      BlockSaysTexts(es[0], list);
      BlocksSayTexts(es[1..], list);
      SaysTextsOfSum(Spoken(EventsOf(es[0])), Spoken(Events(es[1..])),
        ReadingsOf(es[0], if list then Entries else Flow), Readings(es[1..], if list then Entries else Flow));
    }
  }

  lemma {:induction false} BlockSaysTexts(e: Element, list: bool)
    requires InlineOnly(e) && InPlace(e, list)
    ensures SaysTexts(Spoken(EventsOf(e)), ReadingsOf(e, if list then Entries else Flow))
    decreases e, 0
  {
    match e
    case Inline(event) => InlineSays(event);
    case Tagged(tag, offset, inner) =>
      if tag.OtherTag? {
        SpokenOfOther(tag, offset, inner);
        BlocksSayTexts(inner, list);
      } else {
        var place := if list then Entries else Flow;
        SpokenOfTag(tag, offset, inner);
        TagSaysTexts(tag, inner, list);
        SaysTextsWithin(Spoken(Events(inner)), ReadingsOf(e, place));
      }
  }

  lemma {:induction false} TagSaysTexts(tag: Tag, inner: seq<Element>, list: bool)
    requires !tag.OtherTag? && AllInlineOnly(inner) && InPlace(Tagged(tag, 0, inner), list)
    ensures Words(Spoken(Events(inner))) == WordsOfAll(ReadingsOf(Tagged(tag, 0, inner), if list then Entries else Flow))
    decreases inner, 5
  {
    if list {
      ItemSaysTexts(inner);
      WordsOfAllSum([DirectText(inner)], Readings(inner, Flow));
      WordsOfAllOne(DirectText(inner));
    } else if tag.QuoteTag? || tag.ListTag? {
      BlocksSayTexts(inner, tag.ListTag?);
    } else {
      TextSpeaks(inner, Flow);
      WordsOfAllOne(DirectText(inner));
    }
  }

  /** An item says its own text first, and then its blocks. */
  lemma ItemSaysTexts(es: seq<Element>)
    requires AllInlineOnly(es) && TextFirst(es)
    ensures Words(Spoken(Events(es))) == Words(DirectText(es)) + WordsOfAll(Readings(es, Flow))
    decreases es, 4
  {
    var blocks := TextThenBlocks(es);
    WordsApart(DirectText(es), blocks);
  }

  lemma {:induction false} TextThenBlocks(es: seq<Element>) returns (blocks: string)
    requires AllInlineOnly(es) && TextFirst(es)
    ensures Spoken(Events(es)) == DirectText(es) + blocks && SaysTexts(blocks, Readings(es, Flow))
    decreases es, 3
  {
    if AllInPlace(es, false) {
      BlocksSayTexts(es, false);
      BlocksAreSilent(es, false);
      blocks := Spoken(Events(es));
      assert [] + blocks == blocks;
    } else {
      SpokenOfNext(es);
      TextElementSpeaks(es[0], Flow);
      blocks := TextThenBlocks(es[1..]);
      ConcatAssociates(TextOf(es[0]), DirectText(es[1..]), blocks);
      assert [] + Readings(es[1..], Flow) == Readings(es[1..], Flow);
    }
  }

  /** For a document in which everything is in its place the words of the preview are the words of all the
    * text of the document, event by event, in order, as far as the cap goes. */
  lemma PreviewSaysAllInOrder(es: seq<Element>, text: Bytes, preview: seq<Block>)
    requires AllInlineOnly(es) && AllInOrder(EMPTY, Events(es), text) && AllInPlace(es, false)
    requires var drafts := Fold(EMPTY, Events(es), text).drafts;
      drafts != [] && Forward(drafts) && preview == Cap(Wrap, drafts, 0, false, 0, 512)
    ensures WordsShown(preview) <= Words(Spoken(Events(es)))
    ensures TreeCount(Trees(es, text), false, 0) <= 512 ==> WordsShown(preview) == Words(Spoken(Events(es)))
  {
    PreviewSaysDocument(es, text, preview);
    BlocksSayTexts(es, false);
  }

  // ----- text out of place -----

  lemma PartsOfNext(e: Element, rest: seq<Element>, spot: Spot)
    ensures var es := [e] + rest;
      && Spoken(Events(es)) == Spoken(EventsOf(e)) + Spoken(Events(rest))
      && DirectText(es) == TextOf(e) + DirectText(rest)
      && Readings(es, spot.place) == ReadingsOf(e, spot.place) + Readings(rest, spot.place)
      && Lost(es, spot) == LostIn(e, spot) + Lost(rest, spot)
      && (AllInlineOnly(es) <==> InlineOnly(e) && AllInlineOnly(rest))
  {
    assert ([e] + rest)[1..] == rest;
    SpokenOfNext([e] + rest);
  }

  lemma PartsOfOne(e: Element, spot: Spot)
    ensures var es := [e];
      && Spoken(Events(es)) == Spoken(EventsOf(e)) && DirectText(es) == TextOf(e)
      && Readings(es, spot.place) == ReadingsOf(e, spot.place) && Lost(es, spot) == LostIn(e, spot)
      && (AllInlineOnly(es) <==> InlineOnly(e))
  {
    PartsOfNext(e, [], spot);
    assert [e] + [] == [e];
    assert TextOf(e) + [] == TextOf(e);
    assert Spoken(EventsOf(e)) + [] == Spoken(EventsOf(e));
    assert ReadingsOf(e, spot.place) + [] == ReadingsOf(e, spot.place);
  }

  /** The content of an item with a heading between its texts. */
  lemma ItemWithLateText(x: string, y: string, z: string) returns (inner: seq<Element>)
    ensures AllInlineOnly(inner) && Spoken(Events(inner)) == x + (" " + y + " " + z) && DirectText(inner) == x + z
    ensures Readings(inner, Flow) == [y] && Lost(inner, Spot(Flow, true)) == 0
  {
    var word := [Inline(Plain(y))];
    var heading, late := Tagged(HeadingTag(1), 0, word), Inline(Plain(z));
    inner := [Inline(Plain(x))] + ([heading] + [late]);
    InlineSays(Plain(x));
    InlineSays(Plain(y));
    InlineSays(Plain(z));
    PartsOfOne(Inline(Plain(y)), Spot(Nowhere, true));
    SpokenOfTag(HeadingTag(1), 0, word);
    PartsOfOne(late, Spot(Flow, true));
    PartsOfNext(heading, [late], Spot(Flow, true));
    PartsOfNext(Inline(Plain(x)), [heading] + [late], Spot(Flow, true));
    assert [] + z == z;
    assert [y] + [] == [y] && [] + [y] == [y];
  }

  /** Text of an item that comes after a block in it is moved before that block, and onto the text there: an
    * item with the text x, a heading y and the text z is shown as the word xz and then y. */
  lemma LateTextIsMoved(x: string, y: string, z: string) returns (es: seq<Element>)
    requires Solid(x) && Solid(y) && Solid(z)
    ensures AllInlineOnly(es) && Lost(es, Spot(Flow, false)) == 0
    ensures Words(Spoken(Events(es))) == [x, y, z] && WordsOfAll(Readings(es, Flow)) == [x + z, y]
  {
    var inner := ItemWithLateText(x, y, z);
    var item := Tagged(ItemTag, 0, inner);
    var list := Tagged(ListTag(false), 0, [item]);
    es := [list];
    PartsOfOne(item, Spot(Entries, false));
    PartsOfOne(list, Spot(Flow, false));
    SpokenOfTag(ItemTag, 0, inner);
    SpokenOfTag(ListTag(false), 0, [item]);
    WordsOfLateText(x, y, z);
    assert Readings(es, Flow) == [x + z] + [y];
    WordsOfSolids([x + z] + [y]);
  }

  lemma WordsOfLateText(x: string, y: string, z: string)
    requires Solid(x) && Solid(y) && Solid(z)
    ensures Words(" " + (" " + (x + (" " + y + " " + z)) + " ") + " ") == [x, y, z]
  {
    var said := x + (" " + y + " " + z);
    SaysTextsWithin(said, [said]);
    WordsOfAllOne(said);
    SaysTextsWithin(" " + said + " ", [said]);
    assert " " + y + " " + z == " " + (y + (" " + z));
    WordsApart(x, " " + (y + (" " + z)));
    WordsSkipSpace(" " + (y + (" " + z)));
    assert (" " + (y + (" " + z)))[1..] == y + (" " + z);
    WordsApart(y, " " + z);
    WordsSkipSpace(" " + z);
    assert (" " + z)[1..] == z;
    WordsOfSolid(x);
    WordsOfSolid(y);
    WordsOfSolid(z);
  }
}
