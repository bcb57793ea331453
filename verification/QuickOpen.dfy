/** Ranking the index against a query. */
module QuickOpen {
  import opened Options
  import opened Ordering
  import opened Sequences
  import opened Text
  import opened Fuzzy
  import opened FileWalk

  const BASENAME_BONUS := 60
  const I32_MAX := 0x7FFF_FFFF

  datatype RankedFile = RankedFile(idx: nat, score: int)

  function SaturatingAdd(a: int, b: int): int {
    if a + b > I32_MAX then I32_MAX else a + b
  }

  function Max(a: int, b: int): int {
    if a >= b then a else b
  }

  function ScoreOf(found: Option<FuzzyScore>): Option<int> {
    if found.None? then None else Some(found.value.score)
  }

  // ----- the prefilter -----

  /** Walks the haystack once, stepping through the needle whenever its next byte comes by. */
  method IsSubsequence(needle: Bytes, haystack: Bytes) returns (yes: bool)
    ensures yes == MatchBytes(needle, haystack).Some?
  {
    var next: nat := 0;
    assert needle[0..] == needle;
    for i := 0 to |haystack|
      invariant next <= |needle|
      invariant MatchFrom(needle, haystack, 0, None).Some? <==> MatchFrom(needle[next..], haystack, i, None).Some?
    {
      if next == |needle| {
        return true;
      }
      assert needle[next..][0] == needle[next] && needle[next..][1..] == needle[next + 1..];
      if LowerByte(haystack[i]) == needle[next] {
        PreviousIsOnlyScore(needle[next + 1..], haystack, i + 1, Some(i), None);
        next := next + 1;
      } else {
        SkipByte(needle[next..], haystack, i);
      }
    }
    yes := next == |needle|;
  }

  /** The byte matched before changes the score of a match, not whether there is one. */
  lemma PreviousIsOnlyScore(needle: Bytes, text: Bytes, from: nat, a: Option<nat>, b: Option<nat>)
    requires (a.Some? ==> a.value < from) && (b.Some? ==> b.value < from)
    ensures MatchFrom(needle, text, from, a).Some? <==> MatchFrom(needle, text, from, b).Some?
  {
  }

  lemma SkipByte(needle: Bytes, text: Bytes, from: nat)
    requires needle != [] && from < |text| && LowerByte(text[from]) != needle[0]
    ensures MatchFrom(needle, text, from, None).Some? <==> MatchFrom(needle, text, from + 1, None).Some?
  {
    assert Lower(text)[from] != needle[0];
  }

  // ----- the naive ranker -----

  /** The score of an entry: the better of its path's and its boosted basename's; none if neither matches. */
  function EntryScore(entry: FileEntry, query: string): Option<int>
    requires entry.nameStart <= |entry.rel|
  {
    var path := ScoreOf(FuzzyMatch(query, entry.rel));
    var base := ScoreOf(FuzzyMatch(query, Name(entry)));
    if base.None? then path
    else if path.None? then Some(SaturatingAdd(base.value, BASENAME_BONUS))
    else Some(Max(path.value, SaturatingAdd(base.value, BASENAME_BONUS)))
  }

  ghost predicate NamesInside(entries: seq<FileEntry>) {
    forall i :: 0 <= i < |entries| ==> entries[i].nameStart <= |entries[i].rel|
  }

  /** Every matching entry with its score, in index order. */
  ghost function Matches(entries: seq<FileEntry>, query: string): seq<RankedFile>
    requires NamesInside(entries)
  {
    if entries == [] then []
    else
      var last := |entries| - 1;
      var score := EntryScore(entries[last], query);
      Matches(entries[..last], query) + (if score.None? then [] else [RankedFile(last, score.value)])
  }

  /** Better scores first, then by path. */
  predicate RankLeq(entries: seq<FileEntry>, a: RankedFile, b: RankedFile) {
    || a.score > b.score
    || (a.score == b.score && a.idx < |entries| && b.idx < |entries| && LexLeq(entries[a.idx].rel, entries[b.idx].rel))
    || (a.score == b.score && b.idx >= |entries|)
  }

  function ByRank(entries: seq<FileEntry>): (RankedFile, RankedFile) -> bool {
    (a: RankedFile, b: RankedFile) => RankLeq(entries, a, b)
  }

  lemma RankIsTotalPreorder(entries: seq<FileEntry>)
    ensures TotalPreorder(ByRank(entries))
  {
    forall a: RankedFile, b: RankedFile ensures ByRank(entries)(a, b) || ByRank(entries)(b, a) {
      if a.idx < |entries| && b.idx < |entries| {
        LexTrichotomy(entries[a.idx].rel, entries[b.idx].rel);
      }
    }
    forall a: RankedFile, b: RankedFile, c: RankedFile | ByRank(entries)(a, b) && ByRank(entries)(b, c)
      ensures ByRank(entries)(a, c)
    {
      if a.idx < |entries| && b.idx < |entries| && c.idx < |entries|
         && LexLess(entries[a.idx].rel, entries[b.idx].rel) && LexLess(entries[b.idx].rel, entries[c.idx].rel) {
        LexTransitive(entries[a.idx].rel, entries[b.idx].rel, entries[c.idx].rel);
      }
    }
  }

  /** The best matches and how many there were, with no prefilter and no shortcut. */
  ghost function NaiveRank(entries: seq<FileEntry>, query: string, limit: nat): (seq<RankedFile>, nat)
    requires NamesInside(entries)
  {
    if limit == 0 then ([], 0)
    else if Trim(query) == [] then
      (seq(Min(limit, |entries|), i requires 0 <= i => RankedFile(i, 0)), |entries|)
    else
      (FirstOf(Sort(ByRank(entries), Matches(entries, query)), limit), |Matches(entries, query)|)
  }

  /** What the prefilter rejects has no score, neither by path nor by basename. */
  lemma PrefilterIsSound(entry: FileEntry, query: string)
    requires entry.nameStart <= |entry.rel|
    ensures MatchBytes(Needle(query), entry.rel).None? ==> EntryScore(entry, query) == None
  {
    if FuzzyMatch(query, Name(entry)).Some? {
      SuffixMatchesWhole(Needle(query), entry.rel, entry.nameStart);
    }
  }

  /** An entry whose basename matches also matches by path, so its score is the better of the two. */
  lemma BasenameMatchImpliesPathMatch(entry: FileEntry, query: string)
    requires entry.nameStart <= |entry.rel| && FuzzyMatch(query, Name(entry)).Some?
    ensures FuzzyMatch(query, entry.rel).Some?
    ensures EntryScore(entry, query)
         == Some(Max(FuzzyMatch(query, entry.rel).value.score, SaturatingAdd(FuzzyMatch(query, Name(entry)).value.score, BASENAME_BONUS)))
  {
    SuffixMatchesWhole(Needle(query), entry.rel, entry.nameStart);
  }

  method ScoreEntry(entry: FileEntry, trimmed: string) returns (best: Option<int>)
    requires entry.nameStart <= |entry.rel|
    ensures best == EntryScore(entry, trimmed)
  {
    var path := Match(trimmed, entry.rel);
    var pathScore := ScoreOf(path);
    var baseScore := pathScore;
    if entry.nameStart != 0 {
      var base := Match(trimmed, Name(entry));
      baseScore := ScoreOf(base);
    } else {
      assert Name(entry) == entry.rel;
    }
    best := pathScore;
    if baseScore.Some? {
      var boosted := SaturatingAdd(baseScore.value, BASENAME_BONUS);
      best := if best.None? then Some(boosted) else Some(Max(best.value, boosted));
    }
  }

  method Candidates(entries: seq<FileEntry>, trimmed: string) returns (ranked: seq<RankedFile>)
    requires NamesInside(entries) && Trim(trimmed) == trimmed
    ensures ranked == Matches(entries, trimmed)
  {
    var needle := Lower(Encode(trimmed));
    ranked := [];
    for i := 0 to |entries|
      invariant ranked == Matches(entries[..i], trimmed)
    {
      assert entries[..i + 1][..i] == entries[..i];
      PrefilterIsSound(entries[i], trimmed);
      var passes := IsSubsequence(needle, entries[i].rel);
      if !passes {
        continue;
      }
      var score := ScoreEntry(entries[i], trimmed);
      if score.Some? {
        ranked := ranked + [RankedFile(i, score.value)];
      }
    }
    assert entries[..|entries|] == entries;
  }

  /** The ranker with its prefilter gives what the naive ranker gives. */
  method RankCounted(entries: seq<FileEntry>, query: string, limit: nat) returns (ranked: seq<RankedFile>, matched: nat)
    requires NamesInside(entries)
    ensures (ranked, matched) == NaiveRank(entries, query, limit)
  {
    if limit == 0 {
      return [], 0;
    }
    var trimmed := Trim(query);
    if trimmed == [] {
      return seq(Min(limit, |entries|), i requires 0 <= i => RankedFile(i, 0)), |entries|;
    }
    TrimIsIdempotent(query);
    SameNeedleSameMatches(entries, query, trimmed);
    var all := Candidates(entries, trimmed);
    var sorted := Sort(ByRank(entries), all);
    SortPermutes(ByRank(entries), all);
    matched := |sorted|;
    ranked := FirstOf(sorted, limit);
  }

  lemma {:induction false} SameNeedleSameMatches(entries: seq<FileEntry>, query: string, trimmed: string)
    requires NamesInside(entries) && trimmed == Trim(query) && Trim(trimmed) == trimmed
    ensures Matches(entries, trimmed) == Matches(entries, query)
    decreases |entries|
  {
    if entries != [] {
      SameNeedleSameMatches(entries[..|entries| - 1], query, trimmed);
    }
  }

  // ----- what the ranking promises -----

  ghost predicate IsMatch(entries: seq<FileEntry>, query: string, m: RankedFile)
    requires NamesInside(entries)
  {
    m.idx < |entries| && EntryScore(entries[m.idx], query) == Some(m.score)
  }

  lemma {:induction false} MatchesAreExact(entries: seq<FileEntry>, query: string, m: RankedFile)
    requires NamesInside(entries)
    ensures m in Matches(entries, query) <==> IsMatch(entries, query, m)
    decreases |entries|
  {
    if entries != [] {
      MatchesAreExact(entries[..|entries| - 1], query, m);
      MatchOfLast(entries, query, m);
    }
  }

  lemma MatchOfLast(entries: seq<FileEntry>, query: string, m: RankedFile)
    requires NamesInside(entries) && entries != []
    ensures IsMatch(entries, query, m)
       <==> if m.idx == |entries| - 1 then EntryScore(entries[|entries| - 1], query) == Some(m.score)
            else IsMatch(entries[..|entries| - 1], query, m)
  {
  }

  ghost predicate AscendingIndices(ranked: seq<RankedFile>, bound: nat) {
    && (forall i :: 0 <= i < |ranked| ==> ranked[i].idx < bound)
    && (forall i, j :: 0 <= i < j < |ranked| ==> ranked[i].idx < ranked[j].idx)
  }

  /** No entry is counted twice. */
  lemma {:induction false} MatchesAscend(entries: seq<FileEntry>, query: string)
    requires NamesInside(entries)
    ensures AscendingIndices(Matches(entries, query), |entries|)
    decreases |entries|
  {
    if entries != [] {
      MatchesAscend(entries[..|entries| - 1], query);
    }
  }

  ghost predicate InRankOrder(entries: seq<FileEntry>, ranked: seq<RankedFile>) {
    forall i, j :: 0 <= i < j < |ranked| ==> RankLeq(entries, ranked[i], ranked[j])
  }

  lemma SortedMatches(entries: seq<FileEntry>, query: string)
    requires NamesInside(entries)
    ensures InRankOrder(entries, Sort(ByRank(entries), Matches(entries, query)))
    ensures |Sort(ByRank(entries), Matches(entries, query))| == |Matches(entries, query)|
  {
    var all := Matches(entries, query);
    var sorted := Sort(ByRank(entries), all);
    RankIsTotalPreorder(entries);
    SortSorts(ByRank(entries), all);
    SortPermutes(ByRank(entries), all);
    forall i, j | 0 <= i < j < |sorted| ensures RankLeq(entries, sorted[i], sorted[j]) {
      assert ByRank(entries)(sorted[i], sorted[j]);
    }
  }

  lemma LeftOutComesAfter(entries: seq<FileEntry>, sorted: seq<RankedFile>, limit: nat, m: RankedFile, r: RankedFile)
    requires InRankOrder(entries, sorted)
    requires m in sorted && m !in FirstOf(sorted, limit) && r in FirstOf(sorted, limit)
    ensures RankLeq(entries, r, m)
  {
    var ranked := FirstOf(sorted, limit);
    var j :| 0 <= j < |sorted| && sorted[j] == m;
    var i :| 0 <= i < |ranked| && ranked[i] == r;
    assert forall k :: 0 <= k < |ranked| ==> sorted[k] in ranked;
    assert sorted[i] == r;
  }

  /** The first is not worse: its score is larger, or the scores are equal and its path does not come later. */
  ghost predicate NotWorse(entries: seq<FileEntry>, a: RankedFile, b: RankedFile) {
    && a.idx < |entries| && b.idx < |entries|
    && (a.score > b.score || (a.score == b.score && !LexLess(entries[b.idx].rel, entries[a.idx].rel)))
  }

  lemma RankLeqIsNotWorse(entries: seq<FileEntry>, a: RankedFile, b: RankedFile)
    requires a.idx < |entries| && b.idx < |entries|
    ensures RankLeq(entries, a, b) <==> NotWorse(entries, a, b)
  {
    LexTrichotomy(entries[a.idx].rel, entries[b.idx].rel);
  }

  /** For a real query and limit: the result holds only true matches, with scores that never rise and, among
    * equal scores, paths that never fall; and no match that is left out is better than one shown. */
  lemma RankedAreTheBest(entries: seq<FileEntry>, query: string, limit: nat, ranked: seq<RankedFile>, matched: nat)
    requires NamesInside(entries) && limit > 0 && Trim(query) != []
    requires (ranked, matched) == NaiveRank(entries, query, limit)
    ensures |ranked| == Min(limit, matched)
    ensures forall r :: r in ranked ==> IsMatch(entries, query, r)
    ensures forall i, j :: 0 <= i < j < |ranked| ==> NotWorse(entries, ranked[i], ranked[j])
    ensures forall m, r :: IsMatch(entries, query, m) && m !in ranked && r in ranked ==> NotWorse(entries, r, m)
  {
    var all := Matches(entries, query);
    var sorted := Sort(ByRank(entries), all);
    SortedMatches(entries, query);
    SortMembers(ByRank(entries), all);
    forall r | r in ranked ensures IsMatch(entries, query, r) {
      assert r in sorted;
      MatchesAreExact(entries, query, r);
    }
    forall i, j | 0 <= i < j < |ranked| ensures NotWorse(entries, ranked[i], ranked[j]) {
      assert ranked[i] in ranked && ranked[j] in ranked;
      RankLeqIsNotWorse(entries, ranked[i], ranked[j]);
    }
    forall m, r | IsMatch(entries, query, m) && m !in ranked && r in ranked ensures NotWorse(entries, r, m) {
      MatchesAreExact(entries, query, m);
      LeftOutComesAfter(entries, sorted, limit, m, r);
      RankLeqIsNotWorse(entries, r, m);
    }
  }

  /** An entry matches exactly when its path contains the query as a subsequence, ignoring ASCII case. Its
    * score is that of the path, or that of the last component and 60 more if that is better. */
  lemma EntryScoreIsBetter(entry: FileEntry, query: string)
    requires WellFormed(entry)
    ensures var path, name := FuzzyMatch(query, entry.rel), FuzzyMatch(query, entry.rel[entry.nameStart..]);
      && (EntryScore(entry, query).Some? <==> exists places :: Spells(Needle(query), entry.rel, 0, places))
      && (name.Some? ==> path.Some?)
      && (path.Some? ==>
            var whole := path.value.score;
            EntryScore(entry, query).value ==
              if name.None? then whole
              else
                var last := if name.value.score + 60 > 0x7FFF_FFFF then 0x7FFF_FFFF else name.value.score + 60;
                if last > whole then last else whole)
  {
    MatchesExactlySubsequences(query, entry.rel);
    if FuzzyMatch(query, Name(entry)).Some? {
      SuffixMatchesWhole(Needle(query), entry.rel, entry.nameStart);
    }
  }

  /** A blank query shows the first entries of the index, in its order, and counts them all. */
  lemma BlankQueryBrowses(entries: seq<FileEntry>, query: string, limit: nat)
    requires NamesInside(entries) && forall i :: 0 <= i < |query| ==> IsWhitespace(query[i])
    ensures var (ranked, matched) := NaiveRank(entries, query, limit);
      if limit == 0 then ranked == [] && matched == 0
      else
        && matched == |entries| && |ranked| == (if limit < |entries| then limit else |entries|)
        && forall i :: 0 <= i < |ranked| ==> ranked[i] == RankedFile(i, 0)
  {
    TrimStartShape(query);
    assert TrimStart(query) == [];
  }

  /** The reported count is the number of entries that match, each counted once. */
  lemma CountIsExact(entries: seq<FileEntry>, query: string, limit: nat)
    requires NamesInside(entries) && limit > 0 && Trim(query) != []
    ensures NaiveRank(entries, query, limit).1
         == |set i | 0 <= i < |entries| && EntryScore(entries[i], query).Some?|
  {
    MatchesAscend(entries, query);
    var all := Matches(entries, query);
    var hits := set i | 0 <= i < |entries| && EntryScore(entries[i], query).Some?;
    forall i | i in hits ensures i in Indices(all) {
      var m := RankedFile(i, EntryScore(entries[i], query).value);
      MatchesAreExact(entries, query, m);
    }
    forall i | i in Indices(all) ensures i in hits {
      var m :| m in all && m.idx == i;
      MatchesAreExact(entries, query, m);
    }
    assert hits == Indices(all);
    CountIndices(all, |entries|);
  }

  ghost function Indices(ranked: seq<RankedFile>): set<int> {
    set m | m in ranked :: m.idx
  }

  lemma {:induction false} CountIndices(ranked: seq<RankedFile>, bound: nat)
    requires AscendingIndices(ranked, bound)
    ensures |Indices(ranked)| == |ranked|
    decreases |ranked|
  {
    if ranked != [] {
      var earlier, last := ranked[..|ranked| - 1], ranked[|ranked| - 1];
      assert ranked == earlier + [last];
      CountIndices(earlier, bound);
      assert Indices(ranked) == Indices(earlier) + {last.idx};
      assert last.idx !in Indices(earlier);
    }
  }
}
