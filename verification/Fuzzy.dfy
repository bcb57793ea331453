/** The greedy subsequence matcher that the palette and quick open share. */
module Fuzzy {
  import opened Options
  import opened Ordering
  import opened Text

  datatype FuzzyScore = FuzzyScore(score: int, indices: seq<nat>)

  predicate IsAlphanumeric(b: Byte) {
    48 <= b <= 57 || 65 <= b <= 90 || 97 <= b <= 122
  }

  predicate IsWordBoundary(text: Bytes, i: nat)
    requires i < |text|
  {
    i == 0 || !IsAlphanumeric(text[i - 1])
  }

  /** What matching byte `i` of the text adds, given the byte matched before it. */
  function StepScore(text: Bytes, previous: Option<nat>, i: nat): int
    requires i < |text| && (previous.Some? ==> previous.value < i)
  {
    100
    + (if IsWordBoundary(text, i) then 25 else 0)
    + (if i == 0 then 15 else 0)
    + (if previous.None? then 0
       else if i == previous.value + 1 then 40
       else -Min(i - previous.value - 1, 30))
  }

  /** The place of the first `b` in the text at or after `from`. */
  function FindByte(text: Bytes, b: Byte, from: nat): (found: Option<nat>)
    ensures found.Some? ==> from <= found.value < |text|
    decreases |text| - from
  {
    if from >= |text| then None
    else if text[from] == b then Some(from)
    else FindByte(text, b, from + 1)
  }

  lemma {:induction false} FindByteFindsFirst(text: Bytes, b: Byte, from: nat)
    ensures var found := FindByte(text, b, from);
      && (found.Some? ==> text[found.value] == b && forall i :: from <= i < found.value ==> text[i] != b)
      && (found.None? ==> forall i :: from <= i < |text| ==> text[i] != b)
    decreases |text| - from
  {
    if from < |text| && text[from] != b {
      FindByteFindsFirst(text, b, from + 1);
    }
  }

  /** The greedy match of the lower-cased needle from `from` on, and the sum of its steps. */
  function MatchFrom(needle: Bytes, text: Bytes, from: nat, previous: Option<nat>): Option<FuzzyScore>
    requires previous.Some? ==> previous.value < from
    decreases |needle|
  {
    if needle == [] then Some(FuzzyScore(0, []))
    else
      var found := FindByte(Lower(text), needle[0], from);
      if found.None? then None
      else
        Stepped(StepScore(text, previous, found.value), found.value,
                MatchFrom(needle[1..], text, found.value + 1, found))
  }

  /** A match whose first byte is at `i` and adds `step`. */
  function Stepped(step: int, i: nat, rest: Option<FuzzyScore>): Option<FuzzyScore> {
    if rest.None? then None else Some(FuzzyScore(step + rest.value.score, [i] + rest.value.indices))
  }

  function MatchBytes(needle: Bytes, text: Bytes): Option<FuzzyScore> {
    var found := MatchFrom(needle, text, 0, None);
    if found.None? || found.value.indices == [] then found
    else Some(found.value.(score := found.value.score - Min(found.value.indices[0], 40)))
  }

  function Needle(query: string): Bytes {
    Lower(Encode(Trim(query)))
  }

  function FuzzyMatch(query: string, text: Bytes): Option<FuzzyScore> {
    MatchBytes(Needle(query), text)
  }

  method AddStep(text: Bytes, previous: Option<nat>, i: nat, before: int) returns (score: int)
    requires i < |text| && (previous.Some? ==> previous.value < i)
    ensures score == before + StepScore(text, previous, i)
  {
    score := before + 100;
    if IsWordBoundary(text, i) {
      score := score + 25;
    }
    if i == 0 {
      score := score + 15;
    }
    if previous.Some? {
      if i == previous.value + 1 {
        score := score + 40;
      } else {
        score := score - Min(i - previous.value - 1, 30);
      }
    }
  }

  method Match(query: string, text: Bytes) returns (result: Option<FuzzyScore>)
    ensures result == FuzzyMatch(query, text)
  {
    var needle := Lower(Encode(Trim(query)));
    if needle == [] {
      return Some(FuzzyScore(0, []));
    }
    result := MatchNeedle(needle, text);
  }

  /** The first `k` bytes of the needle have been matched; the search goes on after the last place. */
  ghost predicate Reached(
    needle: Bytes, text: Bytes, k: nat, score: int, indices: seq<nat>, previous: Option<nat>, searchFrom: nat
  )
    requires k <= |needle|
  {
    && |indices| == k && previous == (if indices == [] then None else Some(indices[|indices| - 1]))
    && searchFrom == (if previous.None? then 0 else previous.value + 1)
    && MatchFrom(needle[..k], text, 0, None) == Some(FuzzyScore(score, indices))
  }

  /** Matches one byte more, if it is found. */
  method MatchByte(
    needle: Bytes, text: Bytes, lowerText: Bytes, k: nat, score: int, indices: seq<nat>, previous: Option<nat>, searchFrom: nat
  )
    returns (found: Option<nat>, next: int)
    requires k < |needle| && lowerText == Lower(text)
    requires Reached(needle, text, k, score, indices, previous, searchFrom)
    ensures found.None? ==> MatchBytes(needle, text).None?
    ensures found.Some? ==> Reached(needle, text, k + 1, next, indices + [found.value], found, found.value + 1)
  {
    MatchGoesOn(needle, text, k);
    found := FindByte(lowerText, needle[k], searchFrom);
    next := score;
    if found.Some? {
      next := AddStep(text, previous, found.value, score);
    }
  }

  method MatchNeedle(needle: Bytes, text: Bytes) returns (result: Option<FuzzyScore>)
    requires needle != []
    ensures result == MatchBytes(needle, text)
  {
    var lowerText := Lower(text);
    var searchFrom: nat, score := 0, 0;
    var indices: seq<nat> := [];
    var previous: Option<nat> := None;
    for k := 0 to |needle|
      invariant Reached(needle, text, k, score, indices, previous, searchFrom)
    {
      var found, next := MatchByte(needle, text, lowerText, k, score, indices, previous, searchFrom);
      if found.None? {
        return None;
      }
      score, indices, previous, searchFrom := next, indices + [found.value], found, found.value + 1;
    }
    assert needle[..|needle|] == needle;
    score := score - Min(indices[0], 40);
    result := Some(FuzzyScore(score, indices));
  }

  /** A match, begun at `from`, with one byte more: found after its last place, or not at all. */
  function Continued(found: FuzzyScore, b: Byte, text: Bytes, from: nat, previous: Option<nat>): Option<FuzzyScore>
    requires previous.Some? ==> previous.value < from
  {
    var last := if found.indices == [] then previous else Some(found.indices[|found.indices| - 1]);
    var next := FindByte(Lower(text), b, if found.indices == [] then from else last.value + 1);
    if next.None? then None
    else Some(FuzzyScore(found.score + StepScore(text, last, next.value), found.indices + [next.value]))
  }

  lemma ContinuedAfterStep(
    whole: Option<FuzzyScore>, step: int, i: nat, rest: FuzzyScore, b: Byte, text: Bytes, from: nat, previous: Option<nat>
  )
    requires previous.Some? ==> previous.value < from
    requires whole == Stepped(step, i, Some(rest))
    ensures Continued(whole.value, b, text, from, previous) == Stepped(step, i, Continued(rest, b, text, i + 1, Some(i)))
  {
    var all := [i] + rest.indices;
    assert all[|all| - 1] == if rest.indices == [] then i else rest.indices[|rest.indices| - 1];
    var more := Continued(rest, b, text, i + 1, Some(i));
    if more.Some? {
      var next := more.value.indices[|rest.indices|];
      assert [i] + (rest.indices + [next]) == all + [next];
    }
  }

  lemma MatchUnfolds(begun: Bytes, b: Byte, text: Bytes, from: nat, previous: Option<nat>) returns (step: int, first: nat)
    requires previous.Some? ==> previous.value < from
    requires begun != [] && MatchFrom(begun, text, from, previous).Some?
    ensures MatchFrom(begun[1..], text, first + 1, Some(first)).Some?
    ensures MatchFrom(begun, text, from, previous) == Stepped(step, first, MatchFrom(begun[1..], text, first + 1, Some(first)))
    ensures MatchFrom(begun + [b], text, from, previous)
         == Stepped(step, first, MatchFrom(begun[1..] + [b], text, first + 1, Some(first)))
  {
    first := FindByte(Lower(text), begun[0], from).value;
    step := StepScore(text, previous, first);
    assert (begun + [b])[1..] == begun[1..] + [b];
  }

  lemma {:induction false} MatchNext(begun: Bytes, b: Byte, text: Bytes, from: nat, previous: Option<nat>)
    requires previous.Some? ==> previous.value < from
    requires MatchFrom(begun, text, from, previous).Some?
    ensures MatchFrom(begun + [b], text, from, previous)
         == Continued(MatchFrom(begun, text, from, previous).value, b, text, from, previous)
    decreases |begun|
  {
    if begun == [] {
      MatchOne(b, text, from, previous);
    } else {
      var step, first := MatchUnfolds(begun, b, text, from, previous);
      MatchNext(begun[1..], b, text, first + 1, Some(first));
      var rest := MatchFrom(begun[1..], text, first + 1, Some(first)).value;
      ContinuedAfterStep(MatchFrom(begun, text, from, previous), step, first, rest, b, text, from, previous);
    }
  }

  lemma MatchOne(b: Byte, text: Bytes, from: nat, previous: Option<nat>)
    requires previous.Some? ==> previous.value < from
    ensures MatchFrom([] + [b], text, from, previous) == Continued(FuzzyScore(0, []), b, text, from, previous)
  {
    assert [] + [b] == [b] && [b][1..] == [];
    var found := FindByte(Lower(text), b, from);
    if found.Some? {
      assert MatchFrom([b][1..], text, found.value + 1, found) == Some(FuzzyScore(0, []));
      assert [found.value] + [] == [] + [found.value];
    }
  }

  /** Where the whole needle matches, so do its first `k` bytes. */
  lemma {:induction false} BeginningMatches(needle: Bytes, text: Bytes, from: nat, previous: Option<nat>, k: nat)
    requires previous.Some? ==> previous.value < from
    requires k <= |needle| && MatchFrom(needle, text, from, previous).Some?
    ensures MatchFrom(needle[..k], text, from, previous).Some?
    decreases k
  {
    if k > 0 {
      var first := FindByte(Lower(text), needle[0], from);
      assert needle[..k][1..] == needle[1..][..k - 1];
      BeginningMatches(needle[1..], text, first.value + 1, first, k - 1);
    }
  }

  lemma MatchGoesOn(needle: Bytes, text: Bytes, k: nat)
    requires k < |needle| && MatchFrom(needle[..k], text, 0, None).Some?
    ensures var next := Continued(MatchFrom(needle[..k], text, 0, None).value, needle[k], text, 0, None);
      MatchFrom(needle[..k + 1], text, 0, None) == next && (next.None? ==> MatchBytes(needle, text).None?)
  {
    assert needle[..k + 1] == needle[..k] + [needle[k]];
    MatchNext(needle[..k], needle[k], text, 0, None);
    if MatchFrom(needle, text, 0, None).Some? {
      BeginningMatches(needle, text, 0, None, k + 1);
    }
  }

  // ----- what it means to match -----

  /** `indices` are places, in ascending order from `from` on, where the text spells the needle. */
  ghost predicate Spells(needle: Bytes, text: Bytes, from: nat, indices: seq<nat>) {
    && |indices| == |needle|
    && (forall k :: 0 <= k < |indices| ==> from <= indices[k] < |text| && LowerByte(text[indices[k]]) == needle[k])
    && (forall j, k :: 0 <= j < k < |indices| ==> indices[j] < indices[k])
  }

  lemma SpellsTail(needle: Bytes, text: Bytes, from: nat, indices: seq<nat>, next: nat)
    requires Spells(needle, text, from, indices) && needle != [] && next <= indices[0] + 1
    ensures Spells(needle[1..], text, next, indices[1..])
  {
  }

  /** The greedy match spells the needle at the earliest places there are. */
  lemma {:induction false} GreedyIsEarliest(needle: Bytes, text: Bytes, from: nat, previous: Option<nat>, other: seq<nat>)
    requires previous.Some? ==> previous.value < from
    requires Spells(needle, text, from, other)
    ensures var found := MatchFrom(needle, text, from, previous);
      && found.Some? && |found.value.indices| == |needle|
      && forall k :: 0 <= k < |needle| ==> found.value.indices[k] <= other[k]
    decreases |needle|
  {
    if needle != [] {
      assert Lower(text)[other[0]] == needle[0];
      FindByteFindsFirst(Lower(text), needle[0], from);
      var found := FindByte(Lower(text), needle[0], from);
      SpellsTail(needle, text, from, other, found.value + 1);
      GreedyIsEarliest(needle[1..], text, found.value + 1, found, other[1..]);
    }
  }

  lemma {:induction false} GreedySpells(needle: Bytes, text: Bytes, from: nat, previous: Option<nat>)
    requires previous.Some? ==> previous.value < from
    requires MatchFrom(needle, text, from, previous).Some?
    ensures Spells(needle, text, from, MatchFrom(needle, text, from, previous).value.indices)
    decreases |needle|
  {
    if needle != [] {
      FindByteFindsFirst(Lower(text), needle[0], from);
      var found := FindByte(Lower(text), needle[0], from);
      GreedySpells(needle[1..], text, found.value + 1, found);
      var rest := MatchFrom(needle[1..], text, found.value + 1, found).value.indices;
      SpellsFrom(needle, text, from, found.value, rest);
    }
  }

  lemma SpellsFrom(needle: Bytes, text: Bytes, from: nat, i: nat, rest: seq<nat>)
    requires needle != [] && from <= i < |text| && LowerByte(text[i]) == needle[0]
    requires Spells(needle[1..], text, i + 1, rest)
    ensures Spells(needle, text, from, [i] + rest)
  {
    var all := [i] + rest;
    forall k | 0 < k < |all| ensures i < all[k] < |text| && LowerByte(text[all[k]]) == needle[k] {
      assert all[k] == rest[k - 1] && needle[1..][k - 1] == needle[k];
    }
  }

  /** The matcher succeeds exactly on the texts that contain the query as a subsequence, ignoring
    * ASCII case, and then reports the pointwise earliest places. */
  lemma MatchesExactlySubsequences(query: string, text: Bytes)
    ensures FuzzyMatch(query, text).Some? <==> exists indices :: Spells(Needle(query), text, 0, indices)
    ensures FuzzyMatch(query, text).Some? ==> Spells(Needle(query), text, 0, FuzzyMatch(query, text).value.indices)
    ensures forall other :: Spells(Needle(query), text, 0, other) ==>
              FuzzyMatch(query, text).Some? && forall k :: 0 <= k < |other| ==> FuzzyMatch(query, text).value.indices[k] <= other[k]
  {
    var needle := Needle(query);
    if FuzzyMatch(query, text).Some? {
      GreedySpells(needle, text, 0, None);
    }
    forall other | Spells(needle, text, 0, other)
      ensures FuzzyMatch(query, text).Some? && forall k :: 0 <= k < |other| ==> FuzzyMatch(query, text).value.indices[k] <= other[k]
    {
      GreedyIsEarliest(needle, text, 0, None, other);
    }
  }

  /** A stretch of the text matches. */
  lemma ContainedMatches(needle: Bytes, text: Bytes)
    requires Contains(Lower(text), needle)
    ensures MatchBytes(needle, text).Some?
  {
    var i :| 0 <= i <= |Lower(text)| - |needle| && OccursAt(Lower(text), needle, i);
    var places := seq(|needle|, k requires 0 <= k => i + k);
    forall k | 0 <= k < |needle| ensures LowerByte(text[places[k]]) == needle[k] {
      assert Lower(text)[i..i + |needle|][k] == needle[k];
    }
    assert Spells(needle, text, 0, places);
    GreedyIsEarliest(needle, text, 0, None, places);
  }

  /** What matches the end of a text matches the whole text. */
  lemma SuffixMatchesWhole(needle: Bytes, text: Bytes, cut: nat)
    requires cut <= |text| && MatchBytes(needle, text[cut..]).Some?
    ensures MatchBytes(needle, text).Some?
  {
    GreedySpells(needle, text[cut..], 0, None);
    var inner := MatchFrom(needle, text[cut..], 0, None).value.indices;
    var places := seq(|inner|, k requires 0 <= k < |inner| => inner[k] + cut);
    assert Spells(needle, text, 0, places);
    GreedyIsEarliest(needle, text, 0, None, places);
  }

  // ----- how large a score can be -----

  /** Later bytes add between 70 and 165 each. */
  lemma {:induction false} LaterStepsBounded(needle: Bytes, text: Bytes, from: nat, previous: nat)
    requires previous < from && MatchFrom(needle, text, from, Some(previous)).Some?
    ensures 70 * |needle| <= MatchFrom(needle, text, from, Some(previous)).value.score <= 165 * |needle|
    decreases |needle|
  {
    if needle != [] {
      var found := FindByte(Lower(text), needle[0], from);
      LaterStepsBounded(needle[1..], text, found.value + 1, found.value);
    }
  }

  /** While a match is being made: after k bytes its sum is between 70k and 165k, whatever follows. */
  lemma RunningScoreBounds(needle: Bytes, text: Bytes, k: nat)
    requires k <= |needle|
    ensures var found := MatchFrom(needle[..k], text, 0, None);
      found.Some? ==> 70 * k <= found.value.score <= 165 * k
  {
    if k > 0 && MatchFrom(needle[..k], text, 0, None).Some? {
      var found := FindByte(Lower(text), needle[0], 0);
      LaterStepsBounded(needle[..k][1..], text, found.value + 1, found.value);
    }
  }

  /** A match of n bytes scores at least 70n - 10 and at most 165n - 25. */
  lemma ScoreBounds(needle: Bytes, text: Bytes)
    requires needle != [] && MatchBytes(needle, text).Some?
    ensures 70 * |needle| - 10 <= MatchBytes(needle, text).value.score <= 165 * |needle| - 25
  {
    var found := FindByte(Lower(text), needle[0], 0);
    LaterStepsBounded(needle[1..], text, found.value + 1, found.value);
  }

  // ----- what a score is made of -----

  /** After a letter or a digit of ASCII no word begins. */
  ghost predicate BeginsWord(text: Bytes, i: nat) {
    i == 0 || (i <= |text|
               && var b := text[i - 1]; !('0' as int <= b <= '9' as int)
                                        && !('a' as int <= b <= 'z' as int) && !('A' as int <= b <= 'Z' as int))
  }

  /** What the k-th matched byte adds: 100; 25 at the start of a word; 15 at the start of the text; and 40 right
    * after the byte before it, or else what was skipped is taken off, up to 30. */
  ghost function PlaceScore(text: Bytes, places: seq<nat>, k: nat): int
    requires k < |places|
  {
    var i: int := places[k];
    100
    + (if BeginsWord(text, i) then 25 else 0)
    + (if i == 0 then 15 else 0)
    + (if k == 0 then 0
       else
         var skipped := i - places[k - 1] - 1;
         if skipped == 0 then 40 else if skipped < 30 then -skipped else -30)
  }

  ghost function PlacesScore(text: Bytes, places: seq<nat>, k: nat): int
    requires k <= |places|
  {
    if k == 0 then 0 else PlacesScore(text, places, k - 1) + PlaceScore(text, places, k - 1)
  }

  lemma {:induction false} PlacesScoreOfBeginning(text: Bytes, places: seq<nat>, more: seq<nat>, k: nat)
    requires k <= |places|
    ensures PlacesScore(text, places + more, k) == PlacesScore(text, places, k)
    decreases k
  {
    if k > 0 {
      PlacesScoreOfBeginning(text, places, more, k - 1);
    }
  }

  lemma {:induction false} RunningScoreIsOfPlaces(needle: Bytes, text: Bytes, k: nat)
    requires k <= |needle| && MatchFrom(needle[..k], text, 0, None).Some?
    ensures var found := MatchFrom(needle[..k], text, 0, None).value;
      |found.indices| == k && found.score == PlacesScore(text, found.indices, k)
    decreases k
  {
    if k > 0 {
      assert needle[..k][..k - 1] == needle[..k - 1];
      BeginningMatches(needle[..k], text, 0, None, k - 1);
      RunningScoreIsOfPlaces(needle, text, k - 1);
      var before := MatchFrom(needle[..k - 1], text, 0, None).value;
      MatchGoesOn(needle, text, k - 1);
      LastPlaceScore(before, needle[k - 1], text);
    }
  }

  lemma LastPlaceScore(before: FuzzyScore, b: Byte, text: Bytes)
    requires before.score == PlacesScore(text, before.indices, |before.indices|)
    requires Continued(before, b, text, 0, None).Some?
    ensures var after := Continued(before, b, text, 0, None).value;
      |after.indices| == |before.indices| + 1 && after.score == PlacesScore(text, after.indices, |after.indices|)
  {
    var after, n := Continued(before, b, text, 0, None).value, |before.indices|;
    var next := after.indices[n];
    assert after.indices == before.indices + [next];
    PlacesScoreOfBeginning(text, before.indices, [next], n);
  }

  /** The score of a match is a function of its places alone: what each place adds, less the place of
    * the first one, up to 40. */
  lemma ScoreIsOfPlaces(query: string, text: Bytes)
    requires FuzzyMatch(query, text).Some?
    ensures var found := FuzzyMatch(query, text).value;
      var first := if found.indices == [] then 0 else found.indices[0];
      found.score == PlacesScore(text, found.indices, |found.indices|) - (if first < 40 then first else 40)
  {
    var needle := Needle(query);
    assert needle[..|needle|] == needle;
    RunningScoreIsOfPlaces(needle, text, |needle|);
  }
}
