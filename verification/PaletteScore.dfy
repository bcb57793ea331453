/** Scoring a palette item against a query: the best field for every word, and the exact-phrase tiers. */
module PaletteScore {
  import opened Options
  import opened Ordering
  import opened Text
  import opened Fuzzy
  import opened PaletteQuery

  datatype Group = Commands | Layout | Session | App | Agents | Navigation | Files

  /** A palette row; its texts are held as their UTF-8 bytes. */
  datatype Item = Item(
    id: Bytes,
    rowLabel: Bytes,
    description: Bytes,
    group: Group,
    dispatch: Option<Bytes>,
    keybind: Option<Bytes>,
    shortcut: Option<Bytes>,
    keywords: seq<Bytes>,
    score: Option<FuzzyScore>)

  datatype Field = Field(text: Bytes, boost: int)

  function Present(text: Option<Bytes>, boost: int): seq<Field> {
    if text.Some? then [Field(text.value, boost)] else []
  }

  function KeywordFields(keywords: seq<Bytes>): (fields: seq<Field>)
    ensures |fields| == |keywords|
    ensures forall i :: 0 <= i < |keywords| ==> fields[i] == Field(keywords[i], 80)
  {
    seq(|keywords|, i requires 0 <= i < |keywords| => Field(keywords[i], 80))
  }

  function SearchableFields(item: Item): seq<Field> {
    [Field(item.rowLabel, 120), Field(item.description, 60), Field(item.id, 40)]
    + Present(item.dispatch, 30) + Present(item.keybind, 50) + Present(item.shortcut, 50)
    + KeywordFields(item.keywords)
  }

  function Boosted(field: Field, word: string): Option<FuzzyScore> {
    var found := FuzzyMatch(word, field.text);
    if found.None? then None else Some(found.value.(score := found.value.score + field.boost))
  }

  /** The best-scoring field for a word; of equals, the last. */
  function BestField(fields: seq<Field>, word: string): Option<FuzzyScore> {
    if fields == [] then None
    else
      var earlier := BestField(fields[..|fields| - 1], word);
      var last := Boosted(fields[|fields| - 1], word);
      if last.None? then earlier
      else if earlier.None? || last.value.score >= earlier.value.score then last
      else earlier
  }

  /** The sum over the words of their best fields; none if some word matches nowhere. */
  function WordsScore(fields: seq<Field>, words: seq<string>): Option<FuzzyScore>
    decreases |words|
  {
    if words == [] then Some(FuzzyScore(0, []))
    else
      var earlier := WordsScore(fields, words[..|words| - 1]);
      var best := BestField(fields, words[|words| - 1]);
      if earlier.None? || best.None? then None
      else Some(Plus(earlier.value, best.value))
  }

  function Plus(a: FuzzyScore, b: FuzzyScore): FuzzyScore {
    FuzzyScore(a.score + b.score, a.indices + b.indices)
  }

  function Join(texts: seq<Bytes>): Bytes {
    if texts == [] then []
    else if |texts| == 1 then texts[0]
    else texts[0] + [SPACE] + Join(texts[1..])
  }

  /** The id with its underscores read as spaces. */
  function Spaced(id: Bytes): (r: Bytes)
    ensures |r| == |id| && forall i :: 0 <= i < |id| ==> r[i] == if id[i] == 95 then SPACE else id[i]
  {
    seq(|id|, i requires 0 <= i < |id| => if id[i] == 95 then SPACE else id[i])
  }

  const NAME_BONUS := 1_000_000
  const KEYWORD_BONUS := 750_000
  const DESCRIPTION_BONUS := 250_000

  function ExactPhraseBonus(item: Item, query: string): int {
    var phrase := Needle(query);
    if phrase == [] then 0
    else if Contains(Lower(item.rowLabel), phrase) || Contains(Lower(Spaced(item.id)), phrase) then NAME_BONUS
    else if Contains(Lower(Join(item.keywords)), phrase) then KEYWORD_BONUS
    else if Contains(Lower(item.description), phrase) then DESCRIPTION_BONUS
    else 0
  }

  function ScoreItem(item: Item, query: string): Option<FuzzyScore> {
    var words := Words(query);
    if words == [] then Some(FuzzyScore(0, []))
    else
      var sum := WordsScore(SearchableFields(item), words);
      if sum.None? then None
      else Some(sum.value.(score := sum.value.score + ExactPhraseBonus(item, query)))
  }

  method SumWords(fields: seq<Field>, words: seq<string>) returns (result: Option<FuzzyScore>)
    ensures result == WordsScore(fields, words)
  {
    var total := 0;
    var indices: seq<nat> := [];
    for k := 0 to |words|
      invariant WordsScore(fields, words[..k]) == Some(FuzzyScore(total, indices))
    {
      NextWord(fields, words, k);
      var best := BestField(fields, words[k]);
      if best.None? {
        return None;
      }
      total := total + best.value.score;
      indices := indices + best.value.indices;
    }
    assert words[..|words|] == words;
    result := Some(FuzzyScore(total, indices));
  }

  /** One word more: its best field is added, or there is no score at all. */
  lemma NextWord(fields: seq<Field>, words: seq<string>, k: nat)
    requires k < |words| && WordsScore(fields, words[..k]).Some?
    ensures var earlier, best := WordsScore(fields, words[..k]).value, BestField(fields, words[k]);
      && (best.None? ==> WordsScore(fields, words).None?)
      && (best.Some? ==> WordsScore(fields, words[..k + 1]) == Some(Plus(earlier, best.value)))
  {
    var more := words[..k + 1];
    assert more[..|more| - 1] == words[..k] && more[|more| - 1] == words[k];
    assert WordsScore(fields, more).Some? ==> BestField(fields, words[k]).Some?;
    if WordsScore(fields, words).Some? {
      BeginningsMatch(fields, words, k + 1);
    }
  }

  /** Where all words match, so do the first `k`. */
  lemma {:induction false} BeginningsMatch(fields: seq<Field>, words: seq<string>, k: nat)
    requires k <= |words| && WordsScore(fields, words).Some?
    ensures WordsScore(fields, words[..k]).Some?
    decreases |words|
  {
    if k == |words| {
      assert words[..k] == words;
    } else {
      BeginningsMatch(fields, words[..|words| - 1], k);
      assert words[..|words| - 1][..k] == words[..k];
    }
  }

  method Score(item: Item, query: string) returns (result: Option<FuzzyScore>)
    ensures result == ScoreItem(item, query)
  {
    var words := Words(query);
    if words == [] {
      return Some(FuzzyScore(0, []));
    }
    result := SumWords(SearchableFields(item), words);
    if result.Some? {
      result := Some(result.value.(score := result.value.score + ExactPhraseBonus(item, query)));
    }
  }

  // ----- how large the fuzzy part can be -----

  lemma FieldBoosts(item: Item, i: nat)
    requires i < |SearchableFields(item)|
    ensures 30 <= SearchableFields(item)[i].boost <= 120
  {
  }

  ghost predicate BoostsInRange(fields: seq<Field>) {
    forall i :: 0 <= i < |fields| ==> 30 <= fields[i].boost <= 120
  }

  lemma BoostsOfItem(item: Item)
    ensures BoostsInRange(SearchableFields(item))
  {
    forall i | 0 <= i < |SearchableFields(item)| ensures 30 <= SearchableFields(item)[i].boost <= 120 {
      FieldBoosts(item, i);
    }
  }

  lemma {:induction false} TotalLengthGrows(words: seq<string>, k: nat)
    requires k <= |words|
    ensures TotalLength(words[..k]) <= TotalLength(words)
    ensures k < |words| ==> TotalLength(words[..k]) + |words[k]| <= TotalLength(words)
    decreases k
  {
    if k > 0 {
      TotalLengthGrows(words[1..], k - 1);
      assert words[..k][1..] == words[1..][..k - 1];
    }
  }

  lemma SolidNeedle(word: string)
    requires Solid(word)
    ensures Needle(word) == Lower(Encode(word)) && 1 <= |word| <= |Needle(word)| <= 4 * |word|
  {
    SolidIsTrimmed(word);
    EncodeLength(word);
  }

  lemma {:induction false} BestFieldBounds(fields: seq<Field>, word: string)
    requires BoostsInRange(fields) && Solid(word) && BestField(fields, word).Some?
    ensures 70 * |Needle(word)| + 20 <= BestField(fields, word).value.score <= 165 * |Needle(word)| + 95
    decreases |fields|
  {
    SolidNeedle(word);
    var last := Boosted(fields[|fields| - 1], word);
    if last.Some? {
      ScoreBounds(Needle(word), fields[|fields| - 1].text);
    }
    if BestField(fields[..|fields| - 1], word).Some? {
      BestFieldBounds(fields[..|fields| - 1], word);
    }
  }

  lemma {:induction false} WordsScoreBounds(fields: seq<Field>, words: seq<string>)
    requires BoostsInRange(fields) && WordsScore(fields, words).Some?
    requires forall k :: 0 <= k < |words| ==> Solid(words[k])
    ensures |words| <= WordsScore(fields, words).value.score <= 660 * TotalLength(words) + 95 * |words|
    decreases |words|
  {
    if words != [] {
      var last := words[|words| - 1];
      SolidNeedle(last);
      BestFieldBounds(fields, last);
      WordsScoreBounds(fields, words[..|words| - 1]);
      TotalLengthGrows(words, |words| - 1);
      assert words[..|words|] == words;
    }
  }

  lemma WordsAreSolid(s: string)
    ensures forall k :: 0 <= k < |Words(s)| ==> Solid(Words(s)[k])
  {
    forall k | 0 <= k < |Words(s)| ensures Solid(Words(s)[k]) {
      WordsAreSolidSlices(s, k);
    }
  }

  /** The fuzzy part of a match is positive and below every difference between two tiers. */
  lemma FuzzyPartBounds(item: Item, query: string)
    requires |query| <= QUERY_MAX_CHARS
    ensures Words(query) != [] && ScoreItem(item, query).Some? ==>
              0 < ScoreItem(item, query).value.score - ExactPhraseBonus(item, query) < 250_000
  {
    var words := Words(query);
    WordsAreSolid(query);
    WordsFit(query);
    TrimStartShape(query);
    BoostsOfItem(item);
    if WordsScore(SearchableFields(item), words).Some? {
      WordsScoreBounds(SearchableFields(item), words);
    }
  }

  // ----- the tiers -----

  /** The text contains the query's phrase, read without regard to ASCII case. */
  predicate HasPhrase(text: Bytes, query: string) {
    Contains(Lower(text), Needle(query))
  }

  /** The phrase is in the label, or in the id with its underscores read as spaces. */
  predicate NameHit(item: Item, query: string) {
    HasPhrase(item.rowLabel, query) || HasPhrase(Spaced(item.id), query)
  }

  predicate KeywordHit(item: Item, query: string) {
    HasPhrase(Join(item.keywords), query)
  }

  predicate DescriptionHit(item: Item, query: string) {
    HasPhrase(item.description, query)
  }

  predicate AnyHit(item: Item, query: string) {
    NameHit(item, query) || KeywordHit(item, query) || DescriptionHit(item, query)
  }

  /** A hit in the name is better than none there; among items without one, so is a hit in the keywords;
    * and among items without either, one in the description. */
  predicate BetterHit(a: Item, b: Item, query: string) {
    || (NameHit(a, query) && !NameHit(b, query))
    || (!NameHit(a, query) && !NameHit(b, query)
        && (|| (KeywordHit(a, query) && !KeywordHit(b, query))
            || (!KeywordHit(a, query) && !KeywordHit(b, query)
                && DescriptionHit(a, query) && !DescriptionHit(b, query))))
  }

  /** What is typed, if anything is left of it, gives a phrase and words to look for. */
  lemma TypedPhrase(input: string)
    requires ParseQuery(input).query != []
    ensures Needle(ParseQuery(input).query) != [] && Words(ParseQuery(input).query) != []
  {
    var query := ParseQuery(input).query;
    ParsedQueryIsClean(input);
    var from, to := TrimShape(query);
    TrimStartShape(query);
    WordsFit(query);
    EncodeLength(query);
  }

  lemma HitHasBonus(item: Item, query: string)
    requires Needle(query) != []
    ensures ExactPhraseBonus(item, query) > 0 <==> AnyHit(item, query)
  {
  }

  /** Tier dominance: for anything typed, an item with a better phrase hit is found and outranks every
    * item with a worse one, however well that matches fuzzily. */
  lemma TierDominates(a: Item, b: Item, input: string, query: string)
    requires query == ParseQuery(input).query && query != []
    requires BetterHit(a, b, query) && ScoreItem(b, query).Some?
    ensures ScoreItem(a, query).Some? && ScoreItem(a, query).value.score > ScoreItem(b, query).value.score
  {
    TypedPhrase(input);
    ParsedQueryIsClean(input);
    HitHasBonus(a, query);
    PhraseHitIsKept(a, query);
    FuzzyPartBounds(a, query);
    FuzzyPartBounds(b, query);
  }

  // ----- the fuzzy part -----

  /** `n` is the score of the word in this text, with the boost of the field. */
  ghost predicate FieldScores(text: Bytes, boost: int, word: string, n: int) {
    FuzzyMatch(word, text).Some? && n == FuzzyMatch(word, text).value.score + boost
  }

  /** `n` is the score of the word in one of the item's texts. */
  ghost predicate ItemScores(item: Item, word: string, n: int) {
    || FieldScores(item.rowLabel, 120, word, n)
    || (exists keyword :: keyword in item.keywords && FieldScores(keyword, 80, word, n))
    || FieldScores(item.description, 60, word, n)
    || (item.keybind.Some? && FieldScores(item.keybind.value, 50, word, n))
    || (item.shortcut.Some? && FieldScores(item.shortcut.value, 50, word, n))
    || FieldScores(item.id, 40, word, n)
    || (item.dispatch.Some? && FieldScores(item.dispatch.value, 30, word, n))
  }

  ghost predicate SomeFieldScores(fields: seq<Field>, word: string, n: int) {
    exists f :: f in fields && FieldScores(f.text, f.boost, word, n)
  }

  /** The best is the largest score there is, if there is one. */
  ghost predicate IsMaximum(fields: seq<Field>, word: string, best: Option<FuzzyScore>) {
    && (best.Some? ==> SomeFieldScores(fields, word, best.value.score))
    && forall n :: SomeFieldScores(fields, word, n) ==> best.Some? && n <= best.value.score
  }

  lemma {:induction false} BestFieldIsMaximum(fields: seq<Field>, word: string)
    ensures IsMaximum(fields, word, BestField(fields, word))
    decreases |fields|
  {
    if fields != [] {
      var earlier, last := fields[..|fields| - 1], fields[|fields| - 1];
      BestFieldIsMaximum(earlier, word);
      assert fields == earlier + [last];
      MaximumOfMore(earlier, last, word, BestField(earlier, word), BestField(fields, word));
    }
  }

  lemma MaximumOfMore(earlier: seq<Field>, last: Field, word: string, before: Option<FuzzyScore>, best: Option<FuzzyScore>)
    requires IsMaximum(earlier, word, before)
    requires var found := Boosted(last, word);
      best == if found.None? then before
              else if before.None? || found.value.score >= before.value.score then found else before
    ensures IsMaximum(earlier + [last], word, best)
  {
    forall n ensures SomeFieldScores(earlier + [last], word, n)
                <==> SomeFieldScores(earlier, word, n) || FieldScores(last.text, last.boost, word, n)
    {
      SomeFieldOfMore(earlier, last, word, n);
    }
  }

  lemma SomeFieldOfMore(earlier: seq<Field>, last: Field, word: string, n: int)
    ensures SomeFieldScores(earlier + [last], word, n)
       <==> SomeFieldScores(earlier, word, n) || FieldScores(last.text, last.boost, word, n)
  {
    if SomeFieldScores(earlier, word, n) {
      var f :| f in earlier && FieldScores(f.text, f.boost, word, n);
      assert f in earlier + [last];
    }
    if FieldScores(last.text, last.boost, word, n) {
      assert last in earlier + [last];
    }
  }

  lemma FieldsOfItem(item: Item, f: Field)
    ensures f in SearchableFields(item) <==>
      || f == Field(item.rowLabel, 120)
      || (f.text in item.keywords && f.boost == 80)
      || f == Field(item.description, 60)
      || (item.keybind.Some? && f == Field(item.keybind.value, 50))
      || (item.shortcut.Some? && f == Field(item.shortcut.value, 50))
      || f == Field(item.id, 40)
      || (item.dispatch.Some? && f == Field(item.dispatch.value, 30))
  {
    var keywords := KeywordFields(item.keywords);
    assert f in keywords <==> f.text in item.keywords && f.boost == 80 by {
      if f.text in item.keywords && f.boost == 80 {
        var i :| 0 <= i < |item.keywords| && item.keywords[i] == f.text;
        assert keywords[i] == f;
      }
    }
  }

  lemma SomeFieldOfItem(item: Item, word: string, n: int)
    ensures SomeFieldScores(SearchableFields(item), word, n) <==> ItemScores(item, word, n)
  {
    if SomeFieldScores(SearchableFields(item), word, n) {
      var f :| f in SearchableFields(item) && FieldScores(f.text, f.boost, word, n);
      FieldsOfItem(item, f);
    }
    if ItemScores(item, word, n) {
      ItemFieldScores(item, word, n);
    }
  }

  lemma ItemFieldScores(item: Item, word: string, n: int)
    requires ItemScores(item, word, n)
    ensures SomeFieldScores(SearchableFields(item), word, n)
  {
    if FieldScores(item.rowLabel, 120, word, n) {
      FieldsOfItem(item, Field(item.rowLabel, 120));
    } else if keyword :| keyword in item.keywords && FieldScores(keyword, 80, word, n) {
      FieldsOfItem(item, Field(keyword, 80));
    } else if FieldScores(item.description, 60, word, n) {
      FieldsOfItem(item, Field(item.description, 60));
    } else if item.keybind.Some? && FieldScores(item.keybind.value, 50, word, n) {
      FieldsOfItem(item, Field(item.keybind.value, 50));
    } else if item.shortcut.Some? && FieldScores(item.shortcut.value, 50, word, n) {
      FieldsOfItem(item, Field(item.shortcut.value, 50));
    } else if FieldScores(item.id, 40, word, n) {
      FieldsOfItem(item, Field(item.id, 40));
    } else {
      FieldsOfItem(item, Field(item.dispatch.value, 30));
    }
  }

  /** `n` is the largest score of the word in the item's texts. */
  ghost predicate IsBestScore(item: Item, word: string, n: int) {
    ItemScores(item, word, n) && forall m :: ItemScores(item, word, m) ==> m <= n
  }

  lemma BestFieldOfItem(item: Item, word: string)
    ensures BestField(SearchableFields(item), word).Some? <==> exists n :: ItemScores(item, word, n)
    ensures BestField(SearchableFields(item), word).Some? ==>
              IsBestScore(item, word, BestField(SearchableFields(item), word).value.score)
  {
    var fields := SearchableFields(item);
    BestFieldIsMaximum(fields, word);
    forall n ensures SomeFieldScores(fields, word, n) <==> ItemScores(item, word, n) {
      SomeFieldOfItem(item, word, n);
    }
  }

  function SumOf(numbers: seq<int>): int {
    if numbers == [] then 0 else SumOf(numbers[..|numbers| - 1]) + numbers[|numbers| - 1]
  }

  lemma {:induction false} WordsScoreIsSum(item: Item, words: seq<string>, best: seq<int>)
    requires |best| == |words| && forall k :: 0 <= k < |words| ==> IsBestScore(item, words[k], best[k])
    ensures WordsScore(SearchableFields(item), words).Some?
    ensures WordsScore(SearchableFields(item), words).value.score == SumOf(best)
    decreases |words|
  {
    if words != [] {
      var k := |words| - 1;
      WordsScoreIsSum(item, words[..k], best[..k]);
      BestFieldOfItem(item, words[k]);
      assert IsBestScore(item, words[k], best[k]);
    }
  }

  /** The score of an item: over the words of the query, the largest score each has in any of the item's
    * texts, and the bonus of the phrase on top. */
  lemma ScoreIsSumOfBest(item: Item, query: string, best: seq<int>)
    requires Words(query) != [] && |best| == |Words(query)|
    requires forall k :: 0 <= k < |best| ==> IsBestScore(item, Words(query)[k], best[k])
    ensures ScoreItem(item, query).Some?
    ensures ScoreItem(item, query).value.score == SumOf(best) + ExactPhraseBonus(item, query)
  {
    WordsScoreIsSum(item, Words(query), best);
  }

  /** The field that a word is shown in is one with its largest score, and of several the last. */
  lemma {:induction false} BestFieldIsLast(fields: seq<Field>, word: string) returns (j: nat)
    requires BestField(fields, word).Some?
    ensures j < |fields| && Boosted(fields[j], word) == BestField(fields, word)
    ensures forall m :: j < m < |fields| && Boosted(fields[m], word).Some? ==>
              Boosted(fields[m], word).value.score < BestField(fields, word).value.score
    decreases |fields|
  {
    var earlier, last := fields[..|fields| - 1], |fields| - 1;
    if Boosted(fields[last], word) == BestField(fields, word) {
      j := last;
    } else {
      j := BestFieldIsLast(earlier, word);
      assert earlier[j] == fields[j] && forall m :: 0 <= m < last ==> earlier[m] == fields[m];
    }
  }

  /** The places of the words in their best fields, word by word. */
  ghost function PlacesOfWords(item: Item, words: seq<string>): seq<nat> {
    if words == [] then []
    else
      var best := BestField(SearchableFields(item), words[|words| - 1]);
      PlacesOfWords(item, words[..|words| - 1]) + (if best.None? then [] else best.value.indices)
  }

  lemma {:induction false} PlacesInOrder(item: Item, words: seq<string>)
    requires WordsScore(SearchableFields(item), words).Some?
    ensures WordsScore(SearchableFields(item), words).value.indices == PlacesOfWords(item, words)
    decreases |words|
  {
    if words != [] {
      PlacesInOrder(item, words[..|words| - 1]);
    }
  }

  /** The places reported for an item are those of the words in their best fields, word by word. */
  lemma ReportedPlacesAreOfWords(item: Item, query: string)
    requires ScoreItem(item, query).Some?
    ensures ScoreItem(item, query).value.indices == PlacesOfWords(item, Words(query))
  {
    if Words(query) != [] {
      PlacesInOrder(item, Words(query));
    }
  }

  /** The word is in one of the item's texts. */
  ghost predicate Finds(item: Item, word: string) {
    exists n :: ItemScores(item, word, n)
  }

  ghost predicate FindsAll(item: Item, words: seq<string>) {
    forall k :: 0 <= k < |words| ==> Finds(item, words[k])
  }

  lemma {:induction false} WordsScoreNeedsEvery(item: Item, words: seq<string>)
    ensures WordsScore(SearchableFields(item), words).Some? <==> FindsAll(item, words)
    decreases |words|
  {
    if words != [] {
      WordsScoreNeedsEvery(item, words[..|words| - 1]);
      BestFieldOfItem(item, words[|words| - 1]);
      assert words == words[..|words| - 1] + [words[|words| - 1]];
    }
  }

  /** An item is found exactly when every word of the query is in one of its texts. */
  lemma FoundIffEveryWordMatches(item: Item, query: string)
    ensures ScoreItem(item, query).Some? <==> FindsAll(item, Words(query))
  {
    WordsScoreNeedsEvery(item, Words(query));
  }

  // ----- no sum overflows -----

  predicate Small(found: Option<FuzzyScore>) {
    found.Some? ==> 0 <= found.value.score < 250_000
  }

  lemma TypedWordsFit(input: string)
    ensures var words := Words(ParseQuery(input).query);
      && TotalLength(words) <= QUERY_MAX_CHARS && |words| <= QUERY_MAX_CHARS / 2 + 1
      && forall k :: 0 <= k < |words| ==> Solid(words[k])
  {
    var query := ParseQuery(input).query;
    ParsedQueryIsClean(input);
    WordsAreSolid(query);
    WordsFit(query);
    TrimStartShape(query);
    SolidWordsAreLong(Words(query));
  }

  lemma {:induction false} SolidWordsAreLong(words: seq<string>)
    requires forall k :: 0 <= k < |words| ==> Solid(words[k])
    ensures |words| <= TotalLength(words)
    decreases |words|
  {
    if words != [] {
      SolidWordsAreLong(words[1..]);
    }
  }

  lemma {:induction false} WordIsShort(words: seq<string>, k: nat)
    requires k < |words|
    ensures |words[k]| <= TotalLength(words)
    decreases k
  {
    if k > 0 {
      WordIsShort(words[1..], k - 1);
    }
  }

  /** The running sum of an item is in range after every word, whether or not the words to come match. */
  lemma RunningSumIsSmall(item: Item, input: string, k: nat)
    requires k <= |Words(ParseQuery(input).query)|
    ensures Small(WordsScore(SearchableFields(item), Words(ParseQuery(input).query)[..k]))
  {
    var fields, words := SearchableFields(item), Words(ParseQuery(input).query);
    TypedWordsFit(input);
    BoostsOfItem(item);
    if WordsScore(fields, words[..k]).Some? {
      WordsScoreBounds(fields, words[..k]);
      TotalLengthGrows(words, k);
    }
  }

  /** The matcher's own sum is in range after every byte of a word, whether or not the rest is found; and
    * so is a field's score with its boost. */
  lemma MatcherSumIsSmall(item: Item, input: string, k: nat, i: nat, n: nat)
    requires k < |Words(ParseQuery(input).query)| && i < |SearchableFields(item)|
    requires n <= |Needle(Words(ParseQuery(input).query)[k])|
    ensures var field, word := SearchableFields(item)[i], Words(ParseQuery(input).query)[k];
      Small(MatchFrom(Needle(word)[..n], field.text, 0, None)) && Small(Boosted(field, word))
  {
    var field, words := SearchableFields(item)[i], Words(ParseQuery(input).query);
    TypedWordsFit(input);
    WordIsShort(words, k);
    SolidNeedle(words[k]);
    FieldBoosts(item, i);
    RunningScoreBounds(Needle(words[k]), field.text, n);
    if Boosted(field, words[k]).Some? {
      ScoreBounds(Needle(words[k]), field.text);
    }
  }

  lemma ResultIsSmall(item: Item, input: string)
    requires ScoreItem(item, ParseQuery(input).query).Some?
    ensures 0 <= ScoreItem(item, ParseQuery(input).query).value.score < 1_250_000
  {
    var words := Words(ParseQuery(input).query);
    RunningSumIsSmall(item, input, |words|);
    assert words[..|words|] == words;
    BonusKeepsSmall(item, ParseQuery(input).query);
  }

  lemma BonusKeepsSmall(item: Item, query: string)
    requires ScoreItem(item, query).Some? && Small(WordsScore(SearchableFields(item), Words(query)))
    ensures 0 <= ScoreItem(item, query).value.score < 1_250_000
  {
  }

  /** For anything typed and any item, found or not: no sum on the way and no result leaves the range of
    * 32-bit integers. */
  lemma SumsFitInt32(item: Item, input: string)
    ensures var query, fields := ParseQuery(input).query, SearchableFields(item);
      && (forall k :: 0 <= k <= |Words(query)| ==> Small(WordsScore(fields, Words(query)[..k])))
      && (forall k, i, n :: 0 <= k < |Words(query)| && 0 <= i < |fields| && 0 <= n <= |Needle(Words(query)[k])|
            ==> Small(MatchFrom(Needle(Words(query)[k])[..n], fields[i].text, 0, None)))
      && (forall k, i :: 0 <= k < |Words(query)| && 0 <= i < |fields| ==> Small(Boosted(fields[i], Words(query)[k])))
      && (ScoreItem(item, query).Some? ==> 0 <= ScoreItem(item, query).value.score < 1_250_000)
  {
    var query, fields := ParseQuery(input).query, SearchableFields(item);
    var words := Words(query);
    forall k | 0 <= k <= |words| ensures Small(WordsScore(fields, words[..k])) {
      RunningSumIsSmall(item, input, k);
    }
    forall k, i, n | 0 <= k < |words| && 0 <= i < |fields| && 0 <= n <= |Needle(words[k])|
      ensures Small(MatchFrom(Needle(words[k])[..n], fields[i].text, 0, None))
    {
      MatcherSumIsSmall(item, input, k, i, n);
    }
    forall k, i | 0 <= k < |words| && 0 <= i < |fields| ensures Small(Boosted(fields[i], words[k])) {
      MatcherSumIsSmall(item, input, k, i, 0);
    }
    if ScoreItem(item, query).Some? {
      ResultIsSmall(item, input);
    }
  }

  // ----- no phrase hit is dropped -----

  lemma {:induction false} BestFieldFindsMatch(fields: seq<Field>, word: string, i: nat)
    requires i < |fields| && FuzzyMatch(word, fields[i].text).Some?
    ensures BestField(fields, word).Some?
    decreases |fields|
  {
    if i < |fields| - 1 {
      BestFieldFindsMatch(fields[..|fields| - 1], word, i);
    }
  }

  lemma {:induction false} WordsScoreIfEveryWordMatches(fields: seq<Field>, words: seq<string>)
    requires forall k :: 0 <= k < |words| ==> BestField(fields, words[k]).Some?
    ensures WordsScore(fields, words).Some?
    decreases |words|
  {
    if words != [] {
      WordsScoreIfEveryWordMatches(fields, words[..|words| - 1]);
    }
  }

  /** Every word of a query occurs in its phrase, and contains no space. */
  lemma WordOccursInPhrase(query: string, k: nat)
    requires k < |Words(query)|
    ensures var needle := Needle(Words(query)[k]);
      needle != [] && SPACE !in needle && Contains(Needle(query), needle)
  {
    var word := Words(query)[k];
    WordsAreSolidSlices(query, k);
    SolidNeedle(word);
    SolidSurvivesTrim(query, word);
    EncodedSliceOccurs(Trim(query), word);
    LowerSliceOccurs(Encode(Trim(query)), Encode(word));
    assert ' ' !in word;
    EncodeWithoutSpace(word);
    forall i | 0 <= i < |Needle(word)| ensures Needle(word)[i] != SPACE {
      assert Encode(word)[i] in Encode(word);
    }
  }

  /** What occurs in texts joined by spaces, and contains no space, occurs in one of them. */
  lemma {:induction false} OccursInOneOfJoined(texts: seq<Bytes>, part: Bytes) returns (j: nat)
    requires part != [] && SPACE !in part && Contains(Lower(Join(texts)), part)
    ensures j < |texts| && Contains(Lower(texts[j]), part)
    decreases |texts|
  {
    var all := Lower(Join(texts));
    var i :| 0 <= i <= |all| - |part| && OccursAt(all, part, i);
    if |texts| == 1 {
      j := 0;
    } else {
      var first, rest := texts[0], Join(texts[1..]);
      assert Join(texts) == first + [SPACE] + rest;
      OccurrenceAvoidsSpaces(all, part, i, |first|);
      if i < |first| {
        OccursInBeginning(first, [SPACE] + rest, part, i);
        j := 0;
      } else {
        assert first + [SPACE] + rest == first + ([SPACE] + rest);
        OccursInEnd(first + [SPACE], rest, part, i - |first| - 1);
        j := OccursInOneOfJoined(texts[1..], part);
        j := j + 1;
      }
    }
  }

  lemma OccurrenceAvoidsSpaces(all: Bytes, part: Bytes, i: nat, at: nat)
    requires i + |part| <= |all| && OccursAt(all, part, i) && SPACE !in part
    requires at < |all| && all[at] == SPACE
    ensures at < i || i + |part| <= at
  {
    forall k | i <= k < i + |part| ensures all[k] != SPACE {
      assert all[i..i + |part|][k - i] == part[k - i] && part[k - i] in part;
    }
  }

  lemma OccursInBeginning(a: Bytes, b: Bytes, part: Bytes, i: nat)
    requires i + |part| <= |a| && OccursAt(Lower(a + b), part, i)
    ensures Contains(Lower(a), part)
  {
    forall k | 0 <= k < |part| ensures Lower(a)[i + k] == part[k] {
      assert Lower(a + b)[i..i + |part|][k] == part[k];
    }
    assert OccursAt(Lower(a), part, i);
  }

  lemma OccursInEnd(a: Bytes, b: Bytes, part: Bytes, i: nat)
    requires i + |part| <= |b| && OccursAt(Lower(a + b), part, |a| + i)
    ensures Contains(Lower(b), part)
  {
    forall k | 0 <= k < |part| ensures Lower(b)[i + k] == part[k] {
      assert Lower(a + b)[|a| + i..|a| + i + |part|][k] == part[k];
    }
    assert OccursAt(Lower(b), part, i);
  }

  /** Reading underscores as spaces cannot create a match that contains no space. */
  lemma OccursInSpacedId(id: Bytes, part: Bytes)
    requires SPACE !in part && Contains(Lower(Spaced(id)), part)
    ensures Contains(Lower(id), part)
  {
    var i :| 0 <= i <= |id| - |part| && OccursAt(Lower(Spaced(id)), part, i);
    forall k | 0 <= k < |part| ensures Lower(id)[i + k] == part[k] {
      assert Lower(Spaced(id))[i..i + |part|][k] == part[k] && part[k] in part;
    }
    assert OccursAt(Lower(id), part, i);
  }

  lemma PhraseWordMatchesField(item: Item, query: string, k: nat)
    requires k < |Words(query)| && ExactPhraseBonus(item, query) > 0
    ensures BestField(SearchableFields(item), Words(query)[k]).Some?
  {
    var word := Words(query)[k];
    var phrase, needle := Needle(query), Needle(word);
    var fields := SearchableFields(item);
    WordOccursInPhrase(query, k);
    var i: nat := 0;
    if Contains(Lower(item.rowLabel), phrase) {
      ContainsTransitive(Lower(item.rowLabel), phrase, needle);
    } else if Contains(Lower(Spaced(item.id)), phrase) {
      ContainsTransitive(Lower(Spaced(item.id)), phrase, needle);
      OccursInSpacedId(item.id, needle);
      i := 2;
    } else if Contains(Lower(Join(item.keywords)), phrase) {
      ContainsTransitive(Lower(Join(item.keywords)), phrase, needle);
      var j := OccursInOneOfJoined(item.keywords, needle);
      i := |fields| - |item.keywords| + j;
      assert fields[i] == KeywordFields(item.keywords)[j];
    } else {
      ContainsTransitive(Lower(item.description), phrase, needle);
      i := 1;
    }
    ContainedMatches(needle, fields[i].text);
    BestFieldFindsMatch(fields, word, i);
  }

  /** No item in which the whole phrase occurs is ever filtered out. */
  lemma PhraseHitIsKept(item: Item, query: string)
    requires ExactPhraseBonus(item, query) > 0
    ensures ScoreItem(item, query).Some?
  {
    forall k | 0 <= k < |Words(query)| ensures BestField(SearchableFields(item), Words(query)[k]).Some? {
      PhraseWordMatchesField(item, query, k);
    }
    WordsScoreIfEveryWordMatches(SearchableFields(item), Words(query));
  }
}
