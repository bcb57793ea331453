/** Filtering and ordering the palette's items, and gathering them into groups. */
module PaletteRank {
  import opened Options
  import opened Ordering
  import opened Text
  import opened Fuzzy
  import opened PaletteQuery
  import opened PaletteScore

  function ScoreOf(item: Item): int {
    if item.score.Some? then item.score.value.score else 0
  }

  /** Higher scores first, then by lower-cased label, then by id. The lower-casing is the standard library's. */
  predicate RankLeq(fold: Bytes -> Bytes, a: Item, b: Item) {
    || ScoreOf(a) > ScoreOf(b)
    || (ScoreOf(a) == ScoreOf(b)
        && (LexLess(fold(a.rowLabel), fold(b.rowLabel))
            || (fold(a.rowLabel) == fold(b.rowLabel) && LexLeq(a.id, b.id))))
  }

  function ByRank(fold: Bytes -> Bytes): (Item, Item) -> bool {
    (a: Item, b: Item) => RankLeq(fold, a, b)
  }

  lemma RankIsTotal(fold: Bytes -> Bytes, a: Item, b: Item)
    ensures RankLeq(fold, a, b) || RankLeq(fold, b, a)
  {
    LexTrichotomy(fold(a.rowLabel), fold(b.rowLabel));
    LexTrichotomy(a.id, b.id);
  }

  lemma RankIsTransitive(fold: Bytes -> Bytes, a: Item, b: Item, c: Item)
    requires RankLeq(fold, a, b) && RankLeq(fold, b, c)
    ensures RankLeq(fold, a, c)
  {
    var x, y, z := fold(a.rowLabel), fold(b.rowLabel), fold(c.rowLabel);
    if LexLess(x, y) && LexLess(y, z) {
      LexTransitive(x, y, z);
    }
    if LexLess(a.id, b.id) && LexLess(b.id, c.id) {
      LexTransitive(a.id, b.id, c.id);
    }
  }

  lemma RankIsTotalPreorder(fold: Bytes -> Bytes)
    ensures TotalPreorder(ByRank(fold))
  {
    forall a: Item, b: Item ensures ByRank(fold)(a, b) || ByRank(fold)(b, a) {
      RankIsTotal(fold, a, b);
    }
    forall a: Item, b: Item, c: Item | ByRank(fold)(a, b) && ByRank(fold)(b, c) ensures ByRank(fold)(a, c) {
      RankIsTransitive(fold, a, b, c);
    }
  }

  /** The items that match, each carrying its score, in their original order. */
  function Scored(items: seq<Item>, query: string): seq<Item> {
    if items == [] then []
    else
      var earlier := Scored(items[..|items| - 1], query);
      var last := items[|items| - 1];
      var score := ScoreItem(last, query);
      if score.None? then earlier else earlier + [last.(score := score)]
  }

  function FilterAndRank(items: seq<Item>, query: string, fold: Bytes -> Bytes): seq<Item> {
    if Trim(query) == [] then items else Sort(ByRank(fold), Scored(items, query))
  }

  method ScoreAll(items: seq<Item>, query: string) returns (scored: seq<Item>)
    ensures scored == Scored(items, query)
  {
    scored := [];
    for i := 0 to |items|
      invariant scored == Scored(items[..i], query)
    {
      assert items[..i + 1][..i] == items[..i];
      var score := Score(items[i], query);
      if score.Some? {
        scored := scored + [items[i].(score := score)];
      }
    }
    assert items[..|items|] == items;
  }

  method Rank(items: seq<Item>, query: string, fold: Bytes -> Bytes) returns (ranked: seq<Item>)
    ensures ranked == FilterAndRank(items, query, fold)
  {
    if Trim(query) == [] {
      return items;
    }
    var scored := ScoreAll(items, query);
    ranked := Sort(ByRank(fold), scored);
  }

  // ----- what the ranking shows -----

  /** Scoring an item depends on its texts only, not on a score it already carries. */
  lemma ScoreIgnoresScore(item: Item, query: string, score: Option<FuzzyScore>)
    ensures ScoreItem(item.(score := score), query) == ScoreItem(item, query)
    ensures ExactPhraseBonus(item.(score := score), query) == ExactPhraseBonus(item, query)
  {
    assert SearchableFields(item.(score := score)) == SearchableFields(item);
  }

  lemma {:induction false} ScoredMembers(items: seq<Item>, query: string)
    ensures forall x :: x in Scored(items, query) ==>
              x.score.Some? && x.score == ScoreItem(x, query) && exists y :: y in items && x == y.(score := x.score)
    ensures forall y :: y in items && ScoreItem(y, query).Some? ==> y.(score := ScoreItem(y, query)) in Scored(items, query)
    decreases |items|
  {
    if items != [] {
      var last := items[|items| - 1];
      ScoredMembers(items[..|items| - 1], query);
      ScoreIgnoresScore(last, query, ScoreItem(last, query));
      assert items == items[..|items| - 1] + [last];
    }
  }

  lemma RankedMembers(items: seq<Item>, query: string, fold: Bytes -> Bytes)
    requires Trim(query) != []
    ensures forall x :: x in FilterAndRank(items, query, fold) ==>
              x.score.Some? && x.score == ScoreItem(x, query) && exists y :: y in items && x == y.(score := x.score)
    ensures forall y :: y in items && ScoreItem(y, query).Some? ==> y.(score := ScoreItem(y, query)) in FilterAndRank(items, query, fold)
  {
    ScoredMembers(items, query);
    SortMembers(ByRank(fold), Scored(items, query));
  }

  /** A blank query shows all items as they come. */
  lemma BlankQueryKeepsItems(items: seq<Item>, query: string, fold: Bytes -> Bytes)
    requires forall i :: 0 <= i < |query| ==> IsWhitespace(query[i])
    ensures FilterAndRank(items, query, fold) == items
  {
    TrimStartShape(query);
    assert TrimStart(query) == [];
  }

  lemma RankedFollowsRank(items: seq<Item>, query: string, fold: Bytes -> Bytes, i: nat, j: nat)
    requires Trim(query) != [] && i < j < |FilterAndRank(items, query, fold)|
    ensures RankLeq(fold, FilterAndRank(items, query, fold)[i], FilterAndRank(items, query, fold)[j])
  {
    var ranked := Sort(ByRank(fold), Scored(items, query));
    RankIsTotalPreorder(fold);
    SortSorts(ByRank(fold), Scored(items, query));
    assert ByRank(fold)(ranked[i], ranked[j]);
  }

  /** Scores never rise along the results; among equal scores the folded labels never fall; and among
    * equal ones of those neither do the ids. */
  lemma RankedInOrder(items: seq<Item>, query: string, fold: Bytes -> Bytes, i: nat, j: nat)
    requires Trim(query) != [] && i < j < |FilterAndRank(items, query, fold)|
    ensures var a, b := FilterAndRank(items, query, fold)[i], FilterAndRank(items, query, fold)[j];
      && a.score.Some? && b.score.Some? && a.score.value.score >= b.score.value.score
      && (a.score.value.score == b.score.value.score ==> !LexLess(fold(b.rowLabel), fold(a.rowLabel)))
      && (a.score.value.score == b.score.value.score && fold(a.rowLabel) == fold(b.rowLabel) ==> !LexLess(b.id, a.id))
  {
    var a, b := FilterAndRank(items, query, fold)[i], FilterAndRank(items, query, fold)[j];
    RankedFollowsRank(items, query, fold, i, j);
    RankedMembers(items, query, fold);
    assert a in FilterAndRank(items, query, fold) && b in FilterAndRank(items, query, fold);
    LexTrichotomy(fold(a.rowLabel), fold(b.rowLabel));
    LexTrichotomy(a.id, b.id);
  }

  /** For anything typed, the ranking keeps every item with a phrase hit, and no item ever precedes one
    * with a better hit: hits in the name before all others, then hits in the keywords, then hits in the
    * description. */
  lemma RankedByTier(items: seq<Item>, input: string, fold: Bytes -> Bytes)
    requires ParseQuery(input).query != []
    ensures var query := ParseQuery(input).query;
      var ranked := FilterAndRank(items, query, fold);
      && (forall i, j :: 0 <= i < j < |ranked| ==> !BetterHit(ranked[j], ranked[i], query))
      && (forall x :: x in items && AnyHit(x, query) ==> x.(score := ScoreItem(x, query)) in ranked)
  {
    var query := ParseQuery(input).query;
    var ranked := FilterAndRank(items, query, fold);
    ParsedQueryIsClean(input);
    TypedPhrase(input);
    RankedMembers(items, query, fold);
    forall x | x in items && AnyHit(x, query) ensures x.(score := ScoreItem(x, query)) in ranked {
      HitHasBonus(x, query);
      PhraseHitIsKept(x, query);
    }
    forall i, j | 0 <= i < j < |ranked| ensures !BetterHit(ranked[j], ranked[i], query) {
      assert ranked[i] in ranked && ranked[j] in ranked;
      RankedInOrder(items, query, fold, i, j);
      if BetterHit(ranked[j], ranked[i], query) {
        TierDominates(ranked[j], ranked[i], input, query);
      }
    }
  }

  // ----- groups -----

  datatype GroupView = GroupView(group: Group, items: seq<Item>)

  const GROUP_ORDER: seq<Group> := [Commands, Layout, Session, App, Group.Agents, Group.Navigation, Group.Files]

  function InGroup(items: seq<Item>, group: Group): seq<Item> {
    if items == [] then []
    else if items[0].group == group then [items[0]] + InGroup(items[1..], group)
    else InGroup(items[1..], group)
  }

  /** One view for each of the groups that has items, in the order given. */
  function Views(items: seq<Item>, groups: seq<Group>): seq<GroupView> {
    if groups == [] then []
    else
      var grouped := InGroup(items, groups[0]);
      (if grouped == [] then [] else [GroupView(groups[0], grouped)]) + Views(items, groups[1..])
  }

  function GroupRank(group: Group): nat {
    match group
    case Commands => 0
    case Layout => 1
    case Session => 2
    case App => 3
    case Agents => 4
    case Navigation => 5
    case Files => 6
  }

  lemma GroupRankIsPosition(group: Group)
    ensures GroupRank(group) < |GROUP_ORDER| && GROUP_ORDER[GroupRank(group)] == group
  {
  }

  /** The best score in a group; 0 when nothing in it has a score. */
  function BestScore(items: seq<Item>): int {
    if items == [] then 0
    else
      var rest := BestScore(items[1..]);
      if items[0].score.None? then rest
      else if |items| == 1 || !AnyScored(items[1..]) || items[0].score.value.score > rest then items[0].score.value.score
      else rest
  }

  predicate AnyScored(items: seq<Item>) {
    exists i :: 0 <= i < |items| && items[i].score.Some?
  }

  predicate ViewLeq(a: GroupView, b: GroupView) {
    || BestScore(a.items) > BestScore(b.items)
    || (BestScore(a.items) == BestScore(b.items) && GroupRank(a.group) <= GroupRank(b.group))
  }

  predicate AnyViewScored(views: seq<GroupView>) {
    exists i :: 0 <= i < |views| && AnyScored(views[i].items)
  }

  /** Views in the order of the groups, or by best score as soon as anything has been scored. */
  function Arranged(views: seq<GroupView>): seq<GroupView> {
    if AnyViewScored(views) then Sort(ViewLeq, views) else views
  }

  function GroupItems(items: seq<Item>): seq<GroupView> {
    Arranged(Views(items, GROUP_ORDER))
  }

  /** Every group once. */
  ghost predicate Complete(groups: seq<Group>) {
    && (forall g: Group :: g in groups)
    && (forall i, j :: 0 <= i < j < |groups| ==> groups[i] != groups[j])
  }

  lemma GroupOrderIsComplete()
    ensures Complete(GROUP_ORDER)
  {
    forall g: Group ensures g in GROUP_ORDER {
      GroupRankIsPosition(g);
    }
  }

  function Rows(views: seq<GroupView>): seq<Item> {
    if views == [] then [] else views[0].items + Rows(views[1..])
  }

  // ----- grouping loses nothing -----

  /** The items of any of the groups. */
  function InGroups(items: seq<Item>, groups: seq<Group>): seq<Item> {
    if items == [] then []
    else if items[0].group in groups then [items[0]] + InGroups(items[1..], groups)
    else InGroups(items[1..], groups)
  }

  lemma {:induction false} InGroupsSplits(items: seq<Item>, groups: seq<Group>)
    requires groups != [] && groups[0] !in groups[1..]
    ensures multiset(InGroups(items, groups)) == multiset(InGroup(items, groups[0])) + multiset(InGroups(items, groups[1..]))
    decreases |items|
  {
    if items != [] {
      InGroupsSplits(items[1..], groups);
    }
  }

  lemma {:induction false} ViewsConserve(items: seq<Item>, groups: seq<Group>)
    requires forall i, j :: 0 <= i < j < |groups| ==> groups[i] != groups[j]
    ensures multiset(Rows(Views(items, groups))) == multiset(InGroups(items, groups))
    decreases |groups|
  {
    if groups == [] {
      NoGroups(items);
    } else {
      ViewsConserve(items, groups[1..]);
      InGroupsSplits(items, groups);
      var views, rest := Views(items, groups), Views(items, groups[1..]);
      if InGroup(items, groups[0]) != [] {
        assert views[1..] == rest;
      } else {
        assert views == rest;
      }
    }
  }

  lemma {:induction false} NoGroups(items: seq<Item>)
    ensures InGroups(items, []) == []
    decreases |items|
  {
    if items != [] {
      NoGroups(items[1..]);
    }
  }

  lemma {:induction false} AllGroups(items: seq<Item>, groups: seq<Group>)
    requires Complete(groups)
    ensures InGroups(items, groups) == items
    decreases |items|
  {
    if items != [] {
      AllGroups(items[1..], groups);
    }
  }

  lemma {:induction false} RowsOfInsert(view: GroupView, views: seq<GroupView>)
    ensures multiset(Rows(Insert(ViewLeq, view, views))) == multiset(view.items) + multiset(Rows(views))
    decreases |views|
  {
    if views != [] && !ViewLeq(view, views[0]) {
      RowsOfInsert(view, views[1..]);
      assert Insert(ViewLeq, view, views)[1..] == Insert(ViewLeq, view, views[1..]);
    } else {
      assert ([view] + views)[1..] == views;
    }
  }

  lemma {:induction false} RowsOfSort(views: seq<GroupView>)
    ensures multiset(Rows(Sort(ViewLeq, views))) == multiset(Rows(views))
    decreases |views|
  {
    if views != [] {
      RowsOfSort(views[1..]);
      RowsOfInsert(views[0], Sort(ViewLeq, views[1..]));
    }
  }

  lemma ArrangingConserves(items: seq<Item>, groups: seq<Group>)
    requires Complete(groups)
    ensures multiset(Rows(Arranged(Views(items, groups)))) == multiset(items)
  {
    ViewsConserve(items, groups);
    AllGroups(items, groups);
    RowsOfSort(Views(items, groups));
  }

  /** Grouping shows every item exactly once. */
  lemma GroupingConserves(items: seq<Item>)
    ensures multiset(Rows(GroupItems(items))) == multiset(items)
  {
    GroupOrderIsComplete();
    ArrangingConserves(items, GROUP_ORDER);
  }

  // ----- what the groups are, and their order -----

  lemma {:induction false} InGroupMembers(items: seq<Item>, group: Group)
    ensures forall x :: x in InGroup(items, group) <==> x in items && x.group == group
    decreases |items|
  {
    if items != [] {
      InGroupMembers(items[1..], group);
      assert forall x :: x in items <==> x == items[0] || x in items[1..];
    }
  }

  lemma {:induction false} ViewsMembers(items: seq<Item>, groups: seq<Group>)
    ensures forall v :: v in Views(items, groups) <==> v.group in groups && v.items == InGroup(items, v.group) && v.items != []
    decreases |groups|
  {
    if groups != [] {
      ViewsMembers(items, groups[1..]);
      assert forall g :: g in groups <==> g == groups[0] || g in groups[1..];
    }
  }

  lemma ArrangedMembers(views: seq<GroupView>)
    ensures forall v :: v in Arranged(views) <==> v in views
  {
    SortMembers(ViewLeq, views);
  }

  /** The picked items stand at these places, in their order. */
  ghost predicate PickedAt(picked: seq<Item>, items: seq<Item>, places: seq<nat>) {
    && |places| == |picked| && (forall j, k :: 0 <= j < k < |places| ==> places[j] < places[k])
    && forall k :: 0 <= k < |places| ==> places[k] < |items| && picked[k] == items[places[k]]
  }

  function Shifted(places: seq<nat>): (shifted: seq<nat>)
    ensures |shifted| == |places| && forall k :: 0 <= k < |places| ==> shifted[k] == places[k] + 1
  {
    seq(|places|, k requires 0 <= k < |places| => places[k] + 1)
  }

  lemma PickedLater(picked: seq<Item>, items: seq<Item>, places: seq<nat>)
    requires items != [] && PickedAt(picked, items[1..], places)
    ensures PickedAt(picked, items, Shifted(places))
    ensures PickedAt([items[0]] + picked, items, [0] + Shifted(places))
  {
    forall k | 0 <= k < |places| ensures picked[k] == items[Shifted(places)[k]] {
      assert items[1..][places[k]] == items[places[k] + 1];
    }
  }

  lemma ShiftedPlaces(places: seq<nat>, i: nat)
    ensures i in Shifted(places) <==> i > 0 && i - 1 in places
  {
    if i > 0 && i - 1 in places {
      var k :| 0 <= k < |places| && places[k] == i - 1;
      assert Shifted(places)[k] == i;
    }
  }

  /** The items of a group are those of that kind, in the order in which they came. */
  lemma {:induction false} GroupKeepsOrder(items: seq<Item>, group: Group) returns (places: seq<nat>)
    ensures PickedAt(InGroup(items, group), items, places)
    ensures forall i: nat :: i in places <==> i < |items| && items[i].group == group
    decreases |items|
  {
    places := [];
    if items != [] {
      var later := GroupKeepsOrder(items[1..], group);
      PickedLater(InGroup(items[1..], group), items, later);
      places := if items[0].group == group then [0] + Shifted(later) else Shifted(later);
      forall i: nat ensures i in places <==> i < |items| && items[i].group == group {
        ShiftedPlaces(later, i);
      }
    }
  }

  /** There is a group for each kind of item there is, and it holds all of that kind. */
  lemma GroupsAreWhole(items: seq<Item>)
    ensures forall v :: v in GroupItems(items) <==> v.items == InGroup(items, v.group) && v.items != []
    ensures forall x :: x in items ==> GroupView(x.group, InGroup(items, x.group)) in GroupItems(items)
  {
    GroupOrderIsComplete();
    ViewsMembers(items, GROUP_ORDER);
    ArrangedMembers(Views(items, GROUP_ORDER));
    forall x | x in items ensures InGroup(items, x.group) != [] {
      InGroupMembers(items, x.group);
    }
  }

  /** The best score is the largest there is. */
  lemma {:induction false} BestScoreIsLargest(items: seq<Item>)
    ensures forall x :: x in items && x.score.Some? ==> x.score.value.score <= BestScore(items)
    ensures AnyScored(items) ==> exists x :: x in items && x.score.Some? && x.score.value.score == BestScore(items)
    ensures !AnyScored(items) ==> BestScore(items) == 0
    decreases |items|
  {
    if items != [] {
      BestScoreIsLargest(items[1..]);
      assert items == [items[0]] + items[1..];
      AnyScoredOfNext(items);
      assert items[0] in items;
    }
  }

  lemma AnyScoredOfNext(items: seq<Item>)
    requires items != []
    ensures AnyScored(items) <==> items[0].score.Some? || AnyScored(items[1..])
    ensures (exists x :: x in items[1..] && x.score.Some?) ==> AnyScored(items[1..])
  {
    if AnyScored(items[1..]) {
      var i :| 0 <= i < |items[1..]| && items[1..][i].score.Some?;
      assert items[i + 1].score.Some?;
    }
    if i :| 0 <= i < |items| && items[i].score.Some? {
      assert i > 0 ==> items[1..][i - 1].score.Some?;
    }
  }

  ghost predicate InMenuOrder(views: seq<GroupView>) {
    forall i, j :: 0 <= i < j < |views| ==> GroupRank(views[i].group) < GroupRank(views[j].group)
  }

  ghost predicate RanksRise(groups: seq<Group>) {
    forall i, j :: 0 <= i < j < |groups| ==> GroupRank(groups[i]) < GroupRank(groups[j])
  }

  /** The views of later groups come later, and no group has two. */
  lemma {:induction false} ViewsFollowGroups(items: seq<Item>, groups: seq<Group>)
    requires RanksRise(groups)
    ensures InMenuOrder(Views(items, groups))
    decreases |groups|
  {
    if groups != [] {
      ViewsFollowGroups(items, groups[1..]);
      ViewsMembers(items, groups[1..]);
      var rest := Views(items, groups[1..]);
      forall k | 0 <= k < |rest| ensures GroupRank(groups[0]) < GroupRank(rest[k].group) {
        assert rest[k] in rest;
        var m :| 0 <= m < |groups[1..]| && groups[1..][m] == rest[k].group;
        assert groups[m + 1] == rest[k].group;
      }
      var grouped := InGroup(items, groups[0]);
      FirstInMenu(GroupView(groups[0], grouped), rest);
      assert Views(items, groups) == if grouped == [] then rest else [GroupView(groups[0], grouped)] + rest;
    }
  }

  lemma FirstInMenu(view: GroupView, rest: seq<GroupView>)
    requires InMenuOrder(rest) && forall k :: 0 <= k < |rest| ==> GroupRank(view.group) < GroupRank(rest[k].group)
    ensures InMenuOrder([view] + rest)
  {
  }

  lemma ViewOrderIsTotalPreorder()
    ensures TotalPreorder(ViewLeq)
  {
  }

  lemma SortedViews(views: seq<GroupView>)
    ensures SortedBy(ViewLeq, Sort(ViewLeq, views))
  {
    ViewOrderIsTotalPreorder();
    SortSorts(ViewLeq, views);
  }

  /** With scores the larger best score comes first, and of equals the kind that is first in the menu; without
    * them only the menu counts. */
  ghost predicate ComesFirst(scored: bool, a: GroupView, b: GroupView) {
    var x, y := BestScore(a.items), BestScore(b.items);
    if scored && x != y then x > y else GroupRank(a.group) < GroupRank(b.group) || (scored && a.group == b.group)
  }

  lemma ArrangedInOrder(items: seq<Item>, groups: seq<Group>, i: nat, j: nat)
    requires Complete(groups) && RanksRise(groups) && i < j < |Arranged(Views(items, groups))|
    ensures ComesFirst(AnyScored(items), Arranged(Views(items, groups))[i], Arranged(Views(items, groups))[j])
  {
    var views := Views(items, groups);
    ScoredInSomeView(items, groups);
    if AnyViewScored(views) {
      ScoredViewsInOrder(views, i, j);
    } else {
      ViewsFollowGroups(items, groups);
      UnscoredViewsStay(views);
    }
  }

  lemma MenuRises()
    ensures RanksRise(GROUP_ORDER)
  {
  }

  /** As soon as anything has a score, the group with the better best score comes first, and of equals the
    * one of the kind that comes first in the menu; without scores that alone decides. */
  lemma GroupsInOrder(items: seq<Item>, i: nat, j: nat)
    requires i < j < |GroupItems(items)|
    ensures ComesFirst(AnyScored(items), GroupItems(items)[i], GroupItems(items)[j])
  {
    GroupOrderIsComplete();
    MenuRises();
    ArrangedInOrder(items, GROUP_ORDER, i, j);
  }

  lemma ScoredViewsInOrder(views: seq<GroupView>, i: nat, j: nat)
    requires AnyViewScored(views) && i < j < |Arranged(views)|
    ensures ComesFirst(true, Arranged(views)[i], Arranged(views)[j])
  {
    SortedViews(views);
    assert ViewLeq(Arranged(views)[i], Arranged(views)[j]);
  }

  lemma UnscoredViewsStay(views: seq<GroupView>)
    requires !AnyViewScored(views)
    ensures Arranged(views) == views
  {
  }

  lemma ScoredInSomeView(items: seq<Item>, groups: seq<Group>)
    requires Complete(groups)
    ensures AnyScored(items) <==> AnyViewScored(Views(items, groups))
  {
    var views := Views(items, groups);
    ViewsMembers(items, groups);
    if AnyScored(items) {
      var k :| 0 <= k < |items| && items[k].score.Some?;
      var view := GroupView(items[k].group, InGroup(items, items[k].group));
      InGroupMembers(items, view.group);
      assert items[k] in items && items[k] in view.items;
      assert view in views;
      var m :| 0 <= m < |view.items| && view.items[m] == items[k];
      assert AnyScored(view.items);
    }
    if AnyViewScored(views) {
      var i :| 0 <= i < |views| && AnyScored(views[i].items);
      ViewIsOfItems(items, views[i]);
    }
  }

  lemma ViewIsOfItems(items: seq<Item>, view: GroupView)
    requires view.items == InGroup(items, view.group) && AnyScored(view.items)
    ensures AnyScored(items)
  {
    var k :| 0 <= k < |view.items| && view.items[k].score.Some?;
    InGroupMembers(items, view.group);
    assert view.items[k] in items;
  }

  // ----- the first row is the best one -----

  ghost predicate Descending(items: seq<Item>) {
    forall i, j :: 0 <= i < j < |items| ==> ScoreOf(items[i]) >= ScoreOf(items[j])
  }

  ghost predicate Ranked(items: seq<Item>) {
    Descending(items) && forall i :: 0 <= i < |items| ==> items[i].score.Some?
  }

  lemma {:induction false} InGroupSorted(items: seq<Item>, group: Group)
    requires Descending(items)
    ensures Descending(InGroup(items, group))
    decreases |items|
  {
    if items != [] {
      InGroupSorted(items[1..], group);
      InGroupMembers(items[1..], group);
      var rest := InGroup(items[1..], group);
      forall k | 0 <= k < |rest| ensures ScoreOf(items[0]) >= ScoreOf(rest[k]) {
        assert rest[k] in items[1..];
        var m :| 0 <= m < |items[1..]| && items[1..][m] == rest[k];
        assert rest[k] == items[m + 1];
      }
      assert InGroup(items, group) == if items[0].group == group then [items[0]] + rest else rest;
    }
  }

  lemma {:induction false} BestScoreOfSorted(items: seq<Item>)
    requires items != [] && forall i :: 0 <= i < |items| ==> items[i].score.Some?
    requires Descending(items)
    ensures BestScore(items) == ScoreOf(items[0])
    decreases |items|
  {
    if |items| > 1 {
      BestScoreOfSorted(items[1..]);
    }
  }

  lemma FirstViewIsBest(views: seq<GroupView>, home: GroupView)
    requires home in views && AnyScored(home.items)
    ensures Arranged(views) != [] && Arranged(views)[0] in views
    ensures BestScore(Arranged(views)[0].items) >= BestScore(home.items)
  {
    var i :| 0 <= i < |views| && views[i] == home;
    var sorted := Sort(ViewLeq, views);
    assert Arranged(views) == sorted;
    SortMembers(ViewLeq, views);
    SortedViews(views);
    var j :| 0 <= j < |sorted| && sorted[j] == home;
    assert j == 0 || ViewLeq(sorted[0], sorted[j]);
  }

  lemma FirstRowOfArranged(items: seq<Item>, groups: seq<Group>)
    requires items != [] && Ranked(items) && Complete(groups)
    ensures var views := Arranged(Views(items, groups));
      views != [] && views[0].items != [] && ScoreOf(views[0].items[0]) >= ScoreOf(items[0])
  {
    var top := items[0];
    ViewsMembers(items, groups);
    InGroupMembers(items, top.group);
    var home := GroupView(top.group, InGroup(items, top.group));
    assert top in home.items;
    assert home in Views(items, groups);
    ViewOfRankedItems(items, home);
    FirstViewIsBest(Views(items, groups), home);
    ViewOfRankedItems(items, Arranged(Views(items, groups))[0]);
  }

  /** When the items come ranked, the first row of the first group is a best one overall. */
  lemma FirstRowIsBest(items: seq<Item>)
    requires items != [] && Ranked(items)
    ensures var views := GroupItems(items);
      views != [] && views[0].items != [] && forall i :: 0 <= i < |items| ==> ScoreOf(views[0].items[0]) >= ScoreOf(items[i])
  {
    GroupOrderIsComplete();
    FirstRowOfArranged(items, GROUP_ORDER);
  }

  lemma ViewOfRankedItems(items: seq<Item>, view: GroupView)
    requires Ranked(items)
    requires view.items == InGroup(items, view.group) && view.items != []
    ensures BestScore(view.items) == ScoreOf(view.items[0])
    ensures forall x :: x in view.items ==> x.score.Some? && ScoreOf(view.items[0]) >= ScoreOf(x)
  {
    InGroupSorted(items, view.group);
    InGroupMembers(items, view.group);
    forall i | 0 <= i < |view.items| ensures view.items[i].score.Some? {
      assert view.items[i] in items;
    }
    BestScoreOfSorted(view.items);
  }

  lemma RankedItemsDescend(items: seq<Item>, query: string, fold: Bytes -> Bytes)
    requires Trim(query) != []
    ensures Ranked(FilterAndRank(items, query, fold))
  {
    var ranked := FilterAndRank(items, query, fold);
    RankedMembers(items, query, fold);
    forall i | 0 <= i < |ranked| ensures ranked[i].score.Some? {
      assert ranked[i] in ranked;
    }
    forall i, j | 0 <= i < j < |ranked| ensures ScoreOf(ranked[i]) >= ScoreOf(ranked[j]) {
      RankedInOrder(items, query, fold, i, j);
    }
  }

  lemma FirstRowIsAnItem(items: seq<Item>)
    requires GroupItems(items) != [] && GroupItems(items)[0].items != []
    ensures GroupItems(items)[0].items[0] in items
  {
    GroupingConserves(items);
    var views := GroupItems(items);
    assert Rows(views)[0] == views[0].items[0];
    assert Rows(views)[0] in multiset(Rows(views));
    assert views[0].items[0] in multiset(items);
  }

  /** From what is typed to what is shown: when any item has a phrase hit, no item at all has a better
    * hit than the first row of the first group. */
  lemma FirstRowHasBestTier(items: seq<Item>, input: string, fold: Bytes -> Bytes, query: string, x: Item)
    requires query == ParseQuery(input).query && query != []
    requires x in items && AnyHit(x, query)
    ensures var views := GroupItems(FilterAndRank(items, query, fold));
      && views != [] && views[0].items != []
      && forall y :: y in items ==> !BetterHit(y, views[0].items[0], query)
  {
    var ranked := FilterAndRank(items, query, fold);
    ParsedQueryIsClean(input);
    RankedByTier(items, input, fold);
    RankedItemsDescend(items, query, fold);
    assert x.(score := ScoreItem(x, query)) in ranked;
    FirstRowIsBest(ranked);
    FirstRowIsAnItem(ranked);
    forall y | y in items ensures !BetterHit(y, GroupItems(ranked)[0].items[0], query) {
      NoneBetterThanFirst(items, input, fold, query, y);
    }
  }

  lemma NoneBetterThanFirst(items: seq<Item>, input: string, fold: Bytes -> Bytes, query: string, y: Item)
    requires query == ParseQuery(input).query && query != [] && Trim(query) != [] && y in items
    requires var ranked := FilterAndRank(items, query, fold);
      && Ranked(ranked) && GroupItems(ranked) != [] && GroupItems(ranked)[0].items != []
      && GroupItems(ranked)[0].items[0] in ranked
      && forall i :: 0 <= i < |ranked| ==> ScoreOf(GroupItems(ranked)[0].items[0]) >= ScoreOf(ranked[i])
    ensures !BetterHit(y, GroupItems(FilterAndRank(items, query, fold))[0].items[0], query)
  {
    var ranked := FilterAndRank(items, query, fold);
    var first := GroupItems(ranked)[0].items[0];
    RankedMembers(items, query, fold);
    if BetterHit(y, first, query) {
      TierDominates(y, first, input, query);
    }
  }
}
