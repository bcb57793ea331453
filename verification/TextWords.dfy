/** What the words of a text are, and how they come together when texts do. */
module TextWords {
  import opened Sequences
  import opened Text

  predicate EndsSolid(s: string) {
    s != [] ==> !IsWhitespace(s[|s| - 1])
  }

  lemma {:induction false} SolidEndHasWords(s: string)
    requires s != [] && EndsSolid(s)
    ensures Words(s) != []
    decreases |s|
  {
    if IsWhitespace(s[0]) {
      SolidEndHasWords(s[1..]);
    }
  }

  lemma WordsSkipSpace(s: string)
    requires s != [] && IsWhitespace(s[0])
    ensures Words(s) == Words(s[1..])
  {
    assert TrimStart(s) == TrimStart(s[1..]);
  }

  lemma WordsTakeFirst(s: string)
    requires s != [] && !IsWhitespace(s[0])
    ensures Words(s) == [FirstWord(s)] + Words(s[|FirstWord(s)|..])
  {
  }

  // ----- what the words are -----

  predicate Blank(s: string) {
    forall i :: 0 <= i < |s| ==> IsWhitespace(s[i])
  }

  /** Gaps and words in turn, beginning and ending with a gap. */
  function Interleaved(gaps: seq<string>, words: seq<string>): string
    requires |gaps| == |words| + 1
    decreases |words|
  {
    if words == [] then gaps[0] else gaps[0] + (words[0] + Interleaved(gaps[1..], words[1..]))
  }

  /** Nothing but white space lies between the words and around them, and some between any two. */
  ghost predicate Separates(gaps: seq<string>, words: seq<string>) {
    && |gaps| == |words| + 1
    && (forall i :: 0 <= i < |gaps| ==> Blank(gaps[i]))
    && (forall i :: 0 < i < |words| ==> gaps[i] != [])
  }

  /** A text is its words, which hold no white space, with nothing but white space between them. */
  lemma {:induction false} TextIsWordsAndGaps(s: string) returns (gaps: seq<string>)
    ensures Separates(gaps, Words(s)) && s == Interleaved(gaps, Words(s))
    ensures forall k :: 0 <= k < |Words(s)| ==> Solid(Words(s)[k])
    ensures s != [] && IsWhitespace(s[0]) ==> gaps[0] != []
    decreases |s|
  {
    if s == [] {
      gaps := [[]];
    } else if IsWhitespace(s[0]) {
      var later := TextIsWordsAndGaps(s[1..]);
      gaps := GapsAfterSpace(s, later);
    } else {
      var later := TextIsWordsAndGaps(s[|FirstWord(s)|..]);
      gaps := GapsAfterWord(s, later);
    }
  }

  lemma GapsAfterSpace(s: string, later: seq<string>) returns (gaps: seq<string>)
    requires s != [] && IsWhitespace(s[0])
    requires Separates(later, Words(s[1..])) && s[1..] == Interleaved(later, Words(s[1..]))
    ensures Separates(gaps, Words(s)) && s == Interleaved(gaps, Words(s)) && gaps[0] != []
    ensures Words(s) == Words(s[1..])
  {
    WordsSkipSpace(s);
    gaps := WiderGap(s[0], later, Words(s));
    assert s == [s[0]] + s[1..];
  }

  lemma GapsAfterWord(s: string, later: seq<string>) returns (gaps: seq<string>)
    requires s != [] && !IsWhitespace(s[0])
    requires var rest := s[|FirstWord(s)|..];
      && Separates(later, Words(rest)) && rest == Interleaved(later, Words(rest))
      && (rest != [] && IsWhitespace(rest[0]) ==> later[0] != [])
    ensures Separates(gaps, Words(s)) && s == Interleaved(gaps, Words(s))
    ensures Solid(FirstWord(s)) && Words(s) == [FirstWord(s)] + Words(s[|FirstWord(s)|..])
  {
    var w := FirstWord(s);
    FirstWordShape(s);
    WordsTakeFirst(s);
    assert s == w + s[|w|..];
    gaps := GapsOfNext(w, later, Words(s[|w|..]));
  }

  lemma WiderGap(c: char, later: seq<string>, words: seq<string>) returns (gaps: seq<string>)
    requires IsWhitespace(c) && Separates(later, words)
    ensures Separates(gaps, words) && Interleaved(gaps, words) == [c] + Interleaved(later, words) && gaps[0] != []
  {
    gaps := [[c] + later[0]] + later[1..];
    assert gaps[1..] == later[1..];
    if words != [] {
      ConcatAssociates([c], later[0], words[0] + Interleaved(later[1..], words[1..]));
    }
  }

  lemma GapsOfNext(w: string, later: seq<string>, words: seq<string>) returns (gaps: seq<string>)
    requires Separates(later, words) && (words != [] ==> later[0] != [])
    ensures Separates(gaps, [w] + words) && Interleaved(gaps, [w] + words) == w + Interleaved(later, words)
  {
    gaps := [[]] + later;
    assert gaps[1..] == later && ([w] + words)[1..] == words;
    assert [] + (w + Interleaved(later, words)) == w + Interleaved(later, words);
  }

  // ----- words of texts put together -----

  predicate EndsBlank(s: string) {
    s == [] || IsWhitespace(s[|s| - 1])
  }

  /** One character more: it begins a word or goes on with the last one. */
  function Lengthened(words: seq<string>, c: char, begins: bool): seq<string>
    requires begins || words != []
  {
    if begins then words + [[c]] else words[..|words| - 1] + [words[|words| - 1] + [c]]
  }

  lemma {:induction false} WordsOfNext(s: string, c: char)
    requires !IsWhitespace(c)
    ensures !EndsBlank(s) ==> Words(s) != []
    ensures Words(s + [c]) == Lengthened(Words(s), c, EndsBlank(s))
    decreases |s|
  {
    if s == [] {
      WordsOfSolid([c]);
      assert s + [c] == [c];
    } else if IsWhitespace(s[0]) {
      WordsSkipSpace(s);
      WordsSkipSpace(s + [c]);
      assert (s + [c])[1..] == s[1..] + [c];
      WordsOfNext(s[1..], c);
    } else {
      FirstWordShape(s);
      var w := FirstWord(s);
      if w == s {
        WordsOfSolid(s);
        WordsOfSolid(s + [c]);
      } else {
        var rest := s[|w|..];
        FirstWordOfMore(s, [c]);
        assert (s + [c])[|w|..] == rest + [c];
        WordsOfNext(rest, c);
        LengthenedLater(w, Words(rest), c, EndsBlank(s));
      }
    }
  }

  lemma LengthenedLater(w: string, words: seq<string>, c: char, begins: bool)
    requires begins || words != []
    ensures Lengthened([w] + words, c, begins) == [w] + Lengthened(words, c, begins)
  {
    if !begins {
      assert ([w] + words)[..|words|] == [w] + words[..|words| - 1];
    }
  }

  lemma WordsOfSolid(w: string)
    requires Solid(w)
    ensures Words(w) == [w]
  {
    FirstWordOfSolid(w);
    assert w[|w|..] == [];
  }

  lemma {:induction false} FirstWordOfSolid(w: string)
    requires forall i :: 0 <= i < |w| ==> !IsWhitespace(w[i])
    ensures FirstWord(w) == w
    decreases |w|
  {
    if w != [] {
      FirstWordOfSolid(w[1..]);
    }
  }

  /** What follows the first word does not change it. */
  lemma {:induction false} FirstWordOfMore(s: string, more: string)
    requires FirstWord(s) != s
    ensures FirstWord(s + more) == FirstWord(s)
    decreases |s|
  {
    if !IsWhitespace(s[0]) {
      assert (s + more)[1..] == s[1..] + more;
      assert s == [s[0]] + s[1..];
      FirstWordOfMore(s[1..], more);
    } else {
      assert (s + more)[0] == s[0];
    }
  }

  /** White space keeps apart the words before it and after it. */
  lemma {:induction false} WordsAroundSpace(a: string, c: char, b: string)
    requires IsWhitespace(c)
    ensures Words(a + ([c] + b)) == Words(a) + Words(b)
    decreases |a|
  {
    var s := a + ([c] + b);
    if a == [] {
      assert s == [c] + b && s[1..] == b;
      WordsSkipSpace(s);
    } else if IsWhitespace(a[0]) {
      WordsSkipSpace(a);
      WordsSkipSpace(s);
      assert s[1..] == a[1..] + ([c] + b);
      WordsAroundSpace(a[1..], c, b);
    } else {
      var w := FirstWord(a);
      FirstWordShape(a);
      FirstWordUpTo(a, c, b);
      WordsTakeFirst(a);
      WordsTakeFirst(s);
      assert s[|w|..] == a[|w|..] + ([c] + b);
      WordsAroundSpace(a[|w|..], c, b);
      ConcatAssociates([w], Words(a[|w|..]), Words(b));
    }
  }

  lemma {:induction false} FirstWordUpTo(a: string, c: char, b: string)
    requires IsWhitespace(c)
    ensures FirstWord(a + ([c] + b)) == FirstWord(a)
    decreases |a|
  {
    if a == [] {
      assert (a + ([c] + b))[0] == c;
    } else if !IsWhitespace(a[0]) {
      assert (a + ([c] + b))[1..] == a[1..] + ([c] + b);
      FirstWordUpTo(a[1..], c, b);
    }
  }

  lemma WordsBeforeSpace(a: string, c: char)
    requires IsWhitespace(c)
    ensures Words(a + [c]) == Words(a)
  {
    WordsAroundSpace(a, c, []);
    assert [c] + [] == [c];
    assert Words([]) == [];
    assert Words(a) + [] == Words(a);
  }

  lemma {:induction false} BlankTail(s: string, n: nat)
    requires n <= |s| && Blank(s[n..])
    ensures Words(s[..n]) == Words(s)
    decreases |s| - n
  {
    if n == |s| {
      assert s[..n] == s;
    } else {
      var shorter := s[..|s| - 1];
      assert s == shorter + [s[|s| - 1]] && s[|s| - 1] == s[n..][|s| - 1 - n];
      WordsBeforeSpace(shorter, s[|s| - 1]);
      forall i | 0 <= i < |shorter[n..]| ensures IsWhitespace(shorter[n..][i]) {
        assert shorter[n..][i] == s[n..][i];
      }
      BlankTail(shorter, n);
      assert shorter[..n] == s[..n];
    }
  }

  lemma {:induction false} WordsOfTrimStart(s: string)
    ensures Words(TrimStart(s)) == Words(s)
    decreases |s|
  {
    if s != [] && IsWhitespace(s[0]) {
      WordsSkipSpace(s);
      WordsOfTrimStart(s[1..]);
    }
  }

  /** Trimming changes no words. */
  lemma WordsOfTrim(s: string)
    ensures Words(Trim(s)) == Words(s)
  {
    var t := TrimStart(s);
    WordsOfTrimStart(s);
    TrimEndShape(t);
    assert TrimEnd(t) == t[..|TrimEnd(t)|];
    BlankTail(t, |TrimEnd(t)|);
  }

  // ----- words with single spaces -----

  /** Words with single spaces between them. */
  function Spaced(words: seq<string>): string {
    if words == [] then [] else if |words| == 1 then words[0] else words[0] + " " + Spaced(words[1..])
  }

  /** The words of several texts. */
  function WordsOfAll(texts: seq<string>): seq<string> {
    if texts == [] then [] else Words(texts[0]) + WordsOfAll(texts[1..])
  }

  lemma {:induction false} WordsOfAllSum(a: seq<string>, b: seq<string>)
    ensures WordsOfAll(a + b) == WordsOfAll(a) + WordsOfAll(b)
    decreases |a|
  {
    if a == [] {
      assert a + b == b;
    } else {
      assert (a + b)[1..] == a[1..] + b;
      WordsOfAllSum(a[1..], b);
      ConcatAssociates(Words(a[0]), WordsOfAll(a[1..]), WordsOfAll(b));
    }
  }

  lemma WordsOfAllOne(text: string)
    ensures WordsOfAll([text]) == Words(text)
  {
    assert [text][1..] == [];
    assert Words(text) + [] == Words(text);
  }

  /** Texts joined by spaces have the words of the texts. */
  lemma {:induction false} WordsOfSpaced(texts: seq<string>)
    ensures Words(Spaced(texts)) == WordsOfAll(texts)
    decreases |texts|
  {
    if |texts| == 1 {
      WordsOfAllOne(texts[0]);
      assert texts == [texts[0]];
    } else if texts != [] {
      WordsOfSpaced(texts[1..]);
      assert Spaced(texts) == texts[0] + ([' '] + Spaced(texts[1..]));
      WordsAroundSpace(texts[0], ' ', Spaced(texts[1..]));
    }
  }

  lemma {:induction false} WordsOfSolids(words: seq<string>)
    requires forall k :: 0 <= k < |words| ==> Solid(words[k])
    ensures WordsOfAll(words) == words
    decreases |words|
  {
    if words != [] {
      WordsOfSolid(words[0]);
      WordsOfSolids(words[1..]);
    }
  }

  /** No white space but single spaces within. */
  ghost predicate Tidy(s: string) {
    && (forall i :: 0 <= i < |s| && IsWhitespace(s[i]) ==> s[i] == ' ' && 0 < i < |s| - 1 && s[i - 1] != ' ')
  }

  lemma {:induction false} SpacedIsTidy(words: seq<string>)
    requires forall k :: 0 <= k < |words| ==> Solid(words[k])
    ensures Tidy(Spaced(words)) && (words != [] ==> Spaced(words) != [] && !IsWhitespace(Spaced(words)[0]))
    decreases |words|
  {
    if |words| > 1 {
      SpacedIsTidy(words[1..]);
      var w, rest := words[0], Spaced(words[1..]);
      var s := w + " " + rest;
      forall i | 0 <= i < |s| && IsWhitespace(s[i]) ensures s[i] == ' ' && 0 < i < |s| - 1 && s[i - 1] != ' ' {
        if i > |w| {
          assert s[i] == rest[i - |w| - 1];
          assert i > |w| + 1 ==> s[i - 1] == rest[i - |w| - 2];
        }
      }
    }
  }
}
