/** Type-ahead selection, and the cycling that repeating one letter gives. */
module ExplorerTypeahead {
  import opened Options
  import opened Modular
  import opened ExplorerState
  import opened ExplorerInvariant
  import opened ExplorerVisible

  /** The character tables of the standard library that the search goes through. */
  datatype Casing = Casing(isControl: char -> bool, lowerChar: char -> string, lowerName: string -> string)

  /** One second, in the nanoseconds that instants are counted in here. */
  const PAUSE: nat := 1_000_000_000

  function FileName(row: Path): string {
    if row == [] then "" else row[|row| - 1]
  }

  /** A search goes on while the pause since the last key stays below a second. */
  predicate Continuing(s: State, now: nat) {
    s.typedAt.Some? && (if now >= s.typedAt.value then now - s.typedAt.value else 0) < PAUSE
  }

  /** For each row, whether its name starts with what has been typed. */
  function Hits(casing: Casing, rows: seq<Path>, typed: string): (hits: seq<bool>)
    ensures |hits| == |rows|
    ensures forall i :: 0 <= i < |rows| ==> hits[i] == (typed <= casing.lowerName(FileName(rows[i])))
  {
    seq(|rows|, i requires 0 <= i < |rows| => typed <= casing.lowerName(FileName(rows[i])))
  }

  /** The row so far below `start`, going on at the top after the last of `n` rows. */
  function RowAtOffset(start: nat, offset: nat, n: nat): (row: nat)
    requires start < n && offset <= n
    ensures offset < n ==> row < n
  {
    if start + offset < n then start + offset else start + offset - n
  }

  lemma RemainderOfOffset(start: nat, offset: nat, n: nat)
    requires start < n && offset < n
    ensures (start + offset) % n == RowAtOffset(start, offset, n)
  {
    if start + offset < n {
      RemainderOfSmall(start + offset, n);
    } else {
      RemainderOfSmall(start + offset - n, n);
      RemainderOfShift(start + offset - n, n);
    }
  }

  function RowBelow(current: nat, n: nat): (row: nat)
    requires current < n
    ensures row < n
  {
    if current + 1 < n then current + 1 else 0
  }

  lemma RemainderOfBelow(current: nat, n: nat)
    requires current < n
    ensures (current + 1) % n == RowBelow(current, n)
  {
    if current + 1 < n {
      RemainderOfSmall(current + 1, n);
    } else {
      RemainderOfShift(0, n);
      RemainderOfSmall(0, n);
    }
  }

  /** The first hit at or after `start`, wrapping around, from the given offset on. */
  function FirstHit(hits: seq<bool>, start: nat, offset: nat): (found: Option<nat>)
    requires start < |hits| && offset <= |hits|
    ensures found.Some? ==> found.value < |hits| && hits[found.value]
    decreases |hits| - offset
  {
    if offset == |hits| then None
    else if hits[RowAtOffset(start, offset, |hits|)] then Some(RowAtOffset(start, offset, |hits|))
    else FirstHit(hits, start, offset + 1)
  }

  function Position(rows: seq<Path>, row: Path): (found: Option<nat>)
    ensures found.Some? ==> found.value < |rows| && rows[found.value] == row
    ensures found.None? ==> row !in rows
  {
    if rows == [] then None
    else if rows[0] == row then Some(0)
    else
      var rest := Position(rows[1..], row);
      if rest.Some? then Some(rest.value + 1) else None
  }

  function CurrentRow(rows: seq<Path>, selected: Option<Path>): (i: nat)
    requires rows != []
    ensures i < |rows|
  {
    if selected.None? then 0
    else
      var found := Position(rows, selected.value);
      if found.Some? then found.value else 0
  }

  /** A letter goes on with a longer search; otherwise it starts a search over, or repeats it. */
  predicate Extending(s: State, input: string, now: nat) {
    Continuing(s, now) && s.typeahead != input
  }

  function RecordLetter(s: State, input: string, now: nat): State {
    s.(typeahead := if Extending(s, input, now) then s.typeahead + input else input, typedAt := Some(now))
  }

  /** Selects the first row that matches what has been typed, from the current row on if the search is
    * extended, else from the row below. */
  function Search(s: State, casing: Casing, extending: bool): State
    requires Shaped(s)
  {
    var rows := VisiblePaths(s);
    if rows == [] then s
    else
      var current := CurrentRow(rows, s.selected);
      var start := if extending then current else RowBelow(current, |rows|);
      var found := FirstHit(Hits(casing, rows, s.typeahead), start, 0);
      if found.Some? then Select(s, rows[found.value]) else s
  }

  function TypeToSelect(s: State, casing: Casing, character: char, now: nat): State
    requires Shaped(s)
  {
    if casing.isControl(character) then s
    else
      var input := casing.lowerChar(character);
      Search(RecordLetter(s, input, now), casing, Extending(s, input, now))
  }

  lemma SearchKeepsInv(s: State, casing: Casing, extending: bool)
    requires Inv(s)
    ensures Inv(Search(s, casing, extending))
  {
    forall x | x in VisiblePaths(s) ensures Inv(Select(s, x)) {
      RowIsSelectable(s, x);
      SelectKeepsInv(s, x);
    }
  }

  lemma TypingKeepsInv(s: State, casing: Casing, character: char, now: nat)
    requires Inv(s)
    ensures Inv(TypeToSelect(s, casing, character, now))
  {
    var input := casing.lowerChar(character);
    var recorded := RecordLetter(s, input, now);
    TypeaheadIsNotRemembered(s, recorded);
    SearchKeepsInv(recorded, casing, Extending(s, input, now));
  }

  lemma TypeaheadIsNotRemembered(s: State, t: State)
    requires Inv(s) && t == s.(typeahead := t.typeahead, typedAt := t.typedAt)
    ensures Inv(t)
  {
    forall p, x | ReadyAt(t, p) && x in Remembered(t) && p < x
      ensures Admits(t, p, EntriesAt(t, p), x)
    {
      assert ReadyAt(s, p) && x in Remembered(s) && Admits(s, p, EntriesAt(s, p), x);
    }
  }

  // ----- the hits in cyclic order -----

  /** All `n` rows in display order, starting below row `current` and wrapping around. */
  function Around(current: nat, n: nat): (rows: seq<nat>)
    requires current < n
  {
    seq(n, k requires 0 <= k < n => if current + 1 + k < n then current + 1 + k else current + 1 + k - n)
  }

  function Matching(hits: seq<bool>, rows: seq<nat>): seq<nat>
    requires forall k :: 0 <= k < |rows| ==> rows[k] < |hits|
  {
    if rows == [] then []
    else if hits[rows[0]] then [rows[0]] + Matching(hits, rows[1..])
    else Matching(hits, rows[1..])
  }

  /** The rows that match, in display order, starting below row `current` and wrapping around. */
  function CyclicOrder(hits: seq<bool>, current: nat): seq<nat>
    requires current < |hits|
  {
    Matching(hits, Around(current, |hits|))
  }

  lemma {:induction false} MatchingSplits(hits: seq<bool>, a: seq<nat>, b: seq<nat>)
    requires forall k :: 0 <= k < |a| ==> a[k] < |hits|
    requires forall k :: 0 <= k < |b| ==> b[k] < |hits|
    ensures Matching(hits, a + b) == Matching(hits, a) + Matching(hits, b)
    decreases |a|
  {
    if a == [] {
      assert a + b == b;
    } else {
      assert (a + b)[1..] == a[1..] + b;
      MatchingSplits(hits, a[1..], b);
    }
  }

  ghost predicate Ascending(order: seq<nat>) {
    forall j, k :: 0 <= j < k < |order| ==> order[j] < order[k]
  }

  lemma {:induction false} MatchingMembers(hits: seq<bool>, rows: seq<nat>)
    requires forall k :: 0 <= k < |rows| ==> rows[k] < |hits|
    ensures forall i :: i in Matching(hits, rows) <==> i in rows && hits[i]
    decreases |rows|
  {
    if rows != [] {
      MatchingMembers(hits, rows[1..]);
      assert forall i :: i in rows <==> i == rows[0] || i in rows[1..];
    }
  }

  lemma {:induction false} MatchingOfAscending(hits: seq<bool>, rows: seq<nat>)
    requires forall k :: 0 <= k < |rows| ==> rows[k] < |hits|
    requires Ascending(rows)
    ensures Ascending(Matching(hits, rows))
    decreases |rows|
  {
    if rows != [] {
      var rest := Matching(hits, rows[1..]);
      MatchingOfAscending(hits, rows[1..]);
      MatchingMembers(hits, rows[1..]);
      forall k | 0 <= k < |rest| ensures rows[0] < rest[k] {
        assert rest[k] in rest && rest[k] in rows[1..];
      }
      assert Matching(hits, rows) == if hits[rows[0]] then [rows[0]] + rest else rest;
    }
  }

  /** The cyclic order is the hits below the current row in ascending order, then those up to it. */
  lemma CyclicOrderIsEveryHitOnce(hits: seq<bool>, current: nat) returns (below: seq<nat>, above: seq<nat>)
    requires current < |hits|
    ensures CyclicOrder(hits, current) == below + above && Ascending(below) && Ascending(above)
    ensures forall i :: i in below <==> current < i < |hits| && hits[i]
    ensures forall i :: i in above <==> 0 <= i <= current && hits[i]
  {
    var n := |hits|;
    var after := seq(n - current - 1, k requires 0 <= k => current + 1 + k);
    var upTo := seq(current + 1, k requires 0 <= k => k);
    assert Around(current, n) == after + upTo;
    below, above := Matching(hits, after), Matching(hits, upTo);
    MatchingSplits(hits, after, upTo);
    MatchingMembers(hits, after);
    MatchingMembers(hits, upTo);
    MatchingOfAscending(hits, after);
    MatchingOfAscending(hits, upTo);
    forall i | current < i < n ensures i in after {
      assert after[i - current - 1] == i;
    }
    forall i | 0 <= i <= current ensures i in upTo {
      assert upTo[i] == i;
    }
  }

  lemma {:induction false} FirstHitIsHead(hits: seq<bool>, current: nat, offset: nat)
    requires current < |hits| && offset <= |hits|
    ensures var order := Matching(hits, Around(current, |hits|)[offset..]);
      FirstHit(hits, RowBelow(current, |hits|), offset) == if order == [] then None else Some(order[0])
    decreases |hits| - offset
  {
    if offset < |hits| {
      var rows := Around(current, |hits|);
      assert rows[offset..][1..] == rows[offset + 1..];
      assert rows[offset] == RowAtOffset(RowBelow(current, |hits|), offset, |hits|);
      FirstHitIsHead(hits, current, offset + 1);
    }
  }

  /** Seen from the row at place k, the rows after it come first and those up to it last. */
  lemma AroundTurns(current: nat, n: nat, k: nat)
    requires current < n && k < n
    ensures var rows := Around(current, n);
      rows[k] < n && Around(rows[k], n) == rows[k + 1..] + rows[..k + 1]
  {
  }

  /** Moving to the first hit turns the cyclic order by one place. */
  lemma MovingTurnsOrder(hits: seq<bool>, current: nat, order: seq<nat>)
    requires current < |hits| && order == CyclicOrder(hits, current) && order != []
    ensures order[0] < |hits| && CyclicOrder(hits, order[0]) == Turned(order)
  {
    var rows := Around(current, |hits|);
    var k := PlaceOfHead(hits, rows);
    AroundTurns(current, |hits|, k);
    assert rows == rows[..k] + ([rows[k]] + rows[k + 1..]);
    MatchingSplits(hits, rows[..k], [rows[k]] + rows[k + 1..]);
    assert ([rows[k]] + rows[k + 1..])[1..] == rows[k + 1..];
    assert order == [rows[k]] + Matching(hits, rows[k + 1..]);
    assert rows[..k + 1] == rows[..k] + [rows[k]];
    MatchingSplits(hits, rows[..k], [rows[k]]);
    MatchingSplits(hits, rows[k + 1..], rows[..k + 1]);
    assert Matching(hits, rows[..k + 1]) == [rows[k]] by {
      assert [rows[k]][1..] == [];
    }
  }

  lemma {:induction false} PlaceOfHead(hits: seq<bool>, rows: seq<nat>) returns (k: nat)
    requires forall i :: 0 <= i < |rows| ==> rows[i] < |hits|
    requires Matching(hits, rows) != []
    ensures k < |rows| && hits[rows[k]] && Matching(hits, rows[..k]) == []
    decreases |rows|
  {
    if hits[rows[0]] {
      k := 0;
    } else {
      var rest := PlaceOfHead(hits, rows[1..]);
      k := rest + 1;
      assert rows[..k][1..] == rows[1..][..rest];
    }
  }

  function Turned(order: seq<nat>): seq<nat> {
    if order == [] then [] else order[1..] + [order[0]]
  }

  // ----- moving from row to row -----

  /** The row a search starting below `current` moves to; it stays put when nothing matches. */
  function NextRow(hits: seq<bool>, current: nat): (next: nat)
    requires current < |hits|
    ensures next < |hits|
  {
    var found := FirstHit(hits, RowBelow(current, |hits|), 0);
    if found.Some? then found.value else current
  }

  function RowAfter(hits: seq<bool>, current: nat, presses: nat): (row: nat)
    requires current < |hits|
    ensures row < |hits|
    decreases presses
  {
    if presses == 0 then current else RowAfter(hits, NextRow(hits, current), presses - 1)
  }

  lemma NextRowTurnsOrder(hits: seq<bool>, current: nat, order: seq<nat>)
    requires current < |hits| && order == CyclicOrder(hits, current)
    ensures order == [] ==> NextRow(hits, current) == current
    ensures order != [] ==> NextRow(hits, current) == order[0] && CyclicOrder(hits, order[0]) == Turned(order)
  {
    assert Around(current, |hits|)[0..] == Around(current, |hits|);
    FirstHitIsHead(hits, current, 0);
    if order != [] {
      MovingTurnsOrder(hits, current, order);
    }
  }

  /** Moving again and again goes through the matching rows in cyclic order, and around again. */
  lemma {:induction false} RowsFollowOrder(hits: seq<bool>, current: nat, presses: nat, order: seq<nat>)
    requires current < |hits| && presses > 0 && order == CyclicOrder(hits, current)
    ensures RowAfter(hits, current, presses) == if order == [] then current else order[Wrap(presses - 1, |order|)]
    decreases presses
  {
    NextRowTurnsOrder(hits, current, order);
    if presses > 1 {
      RowsFollowOrder(hits, NextRow(hits, current), presses - 1, Turned(order));
      if order != [] {
        WrapOfSum(presses - 2, 1, |order|);
      }
    }
  }

  // ----- repeating one letter -----

  /** Pressing `character` starts or repeats a one-letter search rather than extending a longer one. */
  predicate RepeatsLetter(s: State, casing: Casing, character: char, now: nat) {
    && !casing.isControl(character)
    && (Continuing(s, now) ==> s.typeahead == casing.lowerChar(character))
  }

  function PressAll(s: State, casing: Casing, character: char, times: seq<nat>): State
    requires Shaped(s)
    decreases |times|
  {
    if times == [] then s
    else
      PressAll(TypeToSelect(s, casing, character, times[0]), casing, character, times[1..])
  }

  lemma SelectedRowIsCurrent(rows: seq<Path>, i: nat)
    requires NoDuplicates(rows) && i < |rows|
    ensures CurrentRow(rows, Some(rows[i])) == i
  {
    assert rows[i] in rows;
  }

  lemma FirstHitIfAny(hits: seq<bool>, current: nat)
    requires current < |hits|
    ensures FirstHit(hits, RowBelow(current, |hits|), 0).Some? <==> true in hits
  {
    NextRowTurnsOrder(hits, current, CyclicOrder(hits, current));
    assert Around(current, |hits|)[0..] == Around(current, |hits|);
    FirstHitIsHead(hits, current, 0);
    OrderIfAny(hits, current, CyclicOrder(hits, current));
  }

  lemma NextRowIsFirstHit(hits: seq<bool>, current: nat)
    requires current < |hits|
    ensures FirstHit(hits, RowBelow(current, |hits|), 0) == if true in hits then Some(NextRow(hits, current)) else None
  {
    FirstHitIfAny(hits, current);
  }

  /** A search that is not extended moves on from the row below the selection. */
  lemma SearchMoves(s: State, casing: Casing, rows: seq<Path>, hits: seq<bool>)
    requires Shaped(s) && rows == VisiblePaths(s) && rows != [] && hits == Hits(casing, rows, s.typeahead)
    ensures Search(s, casing, false)
         == if true in hits then Select(s, rows[NextRow(hits, CurrentRow(rows, s.selected))]) else s
  {
    NextRowIsFirstHit(hits, CurrentRow(rows, s.selected));
  }

  /** What one press of a repeated letter does: search from the row below the selection. */
  lemma OnePress(s: State, casing: Casing, character: char, now: nat, rows: seq<Path>, hits: seq<bool>)
    requires Shaped(s) && rows == VisiblePaths(s) && rows != [] && RepeatsLetter(s, casing, character, now)
    requires hits == Hits(casing, rows, casing.lowerChar(character))
    ensures var t := TypeToSelect(s, casing, character, now);
      && t == s.(typeahead := casing.lowerChar(character), typedAt := Some(now), selected := t.selected)
      && t.selected == (if true in hits then Some(rows[NextRow(hits, CurrentRow(rows, s.selected))]) else s.selected)
  {
    var recorded := RecordLetter(s, casing.lowerChar(character), now);
    SameTreeSameRows(s, recorded);
    SearchMoves(recorded, casing, rows, hits);
  }

  /** After it the rows are the same, and the selection is where the search has moved to. */
  lemma PressMoves(s: State, casing: Casing, character: char, now: nat, rows: seq<Path>, hits: seq<bool>)
    requires Shaped(s) && rows == VisiblePaths(s) && rows != [] && RepeatsLetter(s, casing, character, now)
    requires hits == Hits(casing, rows, casing.lowerChar(character))
    ensures var t, next := TypeToSelect(s, casing, character, now), NextRow(hits, CurrentRow(rows, s.selected));
      && Shaped(t) && VisiblePaths(t) == rows && t.typeahead == casing.lowerChar(character)
      && t.selected == (if true in hits then Some(rows[next]) else s.selected)
      && CurrentRow(rows, t.selected) == next
  {
    OnePress(s, casing, character, now, rows, hits);
    SameTreeSameRows(s, TypeToSelect(s, casing, character, now));
    VisibleRows(s);
    if true in hits {
      SelectedRowIsCurrent(rows, NextRow(hits, CurrentRow(rows, s.selected)));
    } else {
      FirstHitIfAny(hits, CurrentRow(rows, s.selected));
    }
  }

  lemma SameTreeSameRows(s: State, t: State)
    requires Shaped(s) && t.root == s.root && t.expanded == s.expanded && t.listings == s.listings
    ensures Shaped(t) && VisiblePaths(t) == VisiblePaths(s)
  {
    if s.root.Some? {
      SameTreeSameRowsFrom(s, t, s.root.value);
    }
  }

  lemma {:induction false} SameTreeSameRowsFrom(s: State, t: State, path: Path)
    requires Shaped(s) && Shaped(t) && t.expanded == s.expanded && t.listings == s.listings
    ensures RowsFrom(t, path) == RowsFrom(s, path)
    decreases MaxLength(s.expanded) + 1 - |path|, 0
  {
    if path in s.expanded && ReadyAt(s, path) {
      SameTreeSameRowsOfEntries(s, t, path, EntriesAt(s, path));
    }
  }

  lemma {:induction false} SameTreeSameRowsOfEntries(s: State, t: State, dir: Path, entries: seq<Entry>)
    requires Shaped(s) && Shaped(t) && t.expanded == s.expanded && t.listings == s.listings
    requires dir in s.expanded && ShapedAt(dir, entries)
    ensures RowsOfEntries(t, dir, entries) == RowsOfEntries(s, dir, entries)
    decreases MaxLength(s.expanded) - |dir|, |entries| + 1
  {
    if entries != [] {
      SameTreeSameRowsFrom(s, t, entries[0].path);
      SameTreeSameRowsOfEntries(s, t, dir, entries[1..]);
    }
  }

  /** Presses of a repeated letter move the selection like a search from row to row, whatever the pauses. */
  lemma {:induction false} PressesMove(s: State, casing: Casing, character: char, times: seq<nat>,
                                       rows: seq<Path>, hits: seq<bool>)
    requires Shaped(s) && rows == VisiblePaths(s) && rows != [] && times != []
    requires RepeatsLetter(s, casing, character, times[0])
    requires hits == Hits(casing, rows, casing.lowerChar(character))
    ensures PressAll(s, casing, character, times).selected
         == if true in hits then Some(rows[RowAfter(hits, CurrentRow(rows, s.selected), |times|)]) else s.selected
    decreases |times|
  {
    PressMoves(s, casing, character, times[0], rows, hits);
    if |times| > 1 {
      PressesMove(TypeToSelect(s, casing, character, times[0]), casing, character, times[1..], rows, hits);
    }
  }

  /** With no matching row the selection never moves. */
  lemma RepeatedLetterStays(s: State, casing: Casing, character: char, times: seq<nat>, rows: seq<Path>)
    requires Shaped(s) && rows == VisiblePaths(s) && rows != [] && times != []
    requires RepeatsLetter(s, casing, character, times[0])
    requires true !in Hits(casing, rows, casing.lowerChar(character))
    ensures PressAll(s, casing, character, times).selected == s.selected
  {
    PressesMove(s, casing, character, times, rows, Hits(casing, rows, casing.lowerChar(character)));
  }

  lemma PressesFollowOrder(s: State, casing: Casing, character: char, times: seq<nat>,
                           rows: seq<Path>, hits: seq<bool>, order: seq<nat>)
    requires Shaped(s) && rows == VisiblePaths(s) && rows != [] && times != []
    requires RepeatsLetter(s, casing, character, times[0])
    requires hits == Hits(casing, rows, casing.lowerChar(character)) && true in hits
    requires order == CyclicOrder(hits, CurrentRow(rows, s.selected))
    ensures order != [] && order[Wrap(|times| - 1, |order|)] < |rows|
    ensures PressAll(s, casing, character, times).selected == Some(rows[order[Wrap(|times| - 1, |order|)]])
  {
    OrderIfAny(hits, CurrentRow(rows, s.selected), order);
    RowsFollowOrder(hits, CurrentRow(rows, s.selected), |times|, order);
    PressesMove(s, casing, character, times, rows, hits);
  }

  /** Repeating a letter walks the matching rows in cyclic display order: the k-th press selects the
    * k-th of them, counting from the row below the selection and starting over after the last. */
  lemma RepeatedLetterCycles(s: State, casing: Casing, character: char, times: seq<nat>,
                             rows: seq<Path>, hits: seq<bool>, order: seq<nat>)
    requires Shaped(s) && rows == VisiblePaths(s) && rows != [] && times != []
    requires RepeatsLetter(s, casing, character, times[0])
    requires hits == Hits(casing, rows, casing.lowerChar(character)) && true in hits
    requires order == CyclicOrder(hits, CurrentRow(rows, s.selected))
    ensures order != [] && order[(|times| - 1) % |order|] < |rows|
    ensures PressAll(s, casing, character, times).selected == Some(rows[order[(|times| - 1) % |order|]])
  {
    PressesFollowOrder(s, casing, character, times, rows, hits, order);
    WrapIsRemainder(|times| - 1, |order|);
  }

  lemma OrderIfAny(hits: seq<bool>, current: nat, order: seq<nat>)
    requires current < |hits| && order == CyclicOrder(hits, current)
    ensures order != [] <==> true in hits
  {
    var below, above := CyclicOrderIsEveryHitOnce(hits, current);
    if true in hits {
      var i :| 0 <= i < |hits| && hits[i];
      assert i in below || i in above;
    }
    if order != [] {
      assert order[0] in below || order[0] in above;
    }
  }

  // ----- one letter -----

  /** Row k is the first match from row `from` on, going on at the top after the last row. */
  ghost predicate Nearest(hits: seq<bool>, from: nat, k: nat) {
    && k < |hits| && hits[k]
    && (if from <= k then forall e :: from <= e < k ==> !hits[e]
        else (forall e :: from <= e < |hits| ==> !hits[e]) && (forall e :: 0 <= e < k ==> !hits[e]))
  }

  lemma {:induction false} FirstHitIsNearest(hits: seq<bool>, start: nat, offset: nat)
    requires start < |hits| && offset <= |hits|
    requires forall d :: 0 <= d < offset ==> !hits[RowAtOffset(start, d, |hits|)]
    ensures var found := FirstHit(hits, start, offset);
      if true in hits then found.Some? && Nearest(hits, start, found.value) else found.None?
    decreases |hits| - offset
  {
    var n := |hits|;
    if offset == n {
      forall k | 0 <= k < n ensures !hits[k] {
        assert k == RowAtOffset(start, if start <= k then k - start else k + n - start, n);
      }
    } else {
      var k := RowAtOffset(start, offset, n);
      if hits[k] {
        forall e | 0 <= e < n && (if start <= k then start <= e < k else start <= e || e < k) ensures !hits[e] {
          assert e == RowAtOffset(start, if start <= e then e - start else e + n - start, n);
        }
      } else {
        FirstHitIsNearest(hits, start, offset + 1);
      }
    }
  }

  lemma SearchFindsNearest(s: State, casing: Casing, extending: bool, rows: seq<Path>, hits: seq<bool>)
    returns (from: nat, k: nat)
    requires Shaped(s) && rows == VisiblePaths(s) && rows != [] && hits == Hits(casing, rows, s.typeahead)
    ensures var current := CurrentRow(rows, s.selected);
      from == if extending then current else if current + 1 < |rows| then current + 1 else 0
    ensures k < |rows|
    ensures true in hits ==> Nearest(hits, from, k)
    ensures Search(s, casing, extending) == if true in hits then Select(s, rows[k]) else s
  {
    var current := CurrentRow(rows, s.selected);
    from := if extending then current else RowBelow(current, |rows|);
    FirstHitIsNearest(hits, from, 0);
    var found := FirstHit(hits, from, 0);
    k := if found.Some? then found.value else 0;
  }

  /** What a letter typed within a second of another does: it is added to what was typed, and the
    * selection stays on its row while that still matches, else moves on to the next row that does. */
  lemma LetterNarrowsSearch(s: State, casing: Casing, character: char, now: nat, rows: seq<Path>)
    returns (k: nat)
    requires Shaped(s) && rows == VisiblePaths(s) && rows != [] && !casing.isControl(character)
    requires s.typedAt.Some? && now < s.typedAt.value + 1_000_000_000 && s.typeahead != casing.lowerChar(character)
    ensures var t, typed := TypeToSelect(s, casing, character, now), s.typeahead + casing.lowerChar(character);
      && t.typeahead == typed && t.typedAt == Some(now)
      && var hits := seq(|rows|, i requires 0 <= i < |rows| => typed <= casing.lowerName(FileName(rows[i])));
         && k < |rows| && (true in hits ==> Nearest(hits, CurrentRow(rows, s.selected), k))
         && t.selected == if true in hits then Some(rows[k]) else s.selected
  {
    var typed := s.typeahead + casing.lowerChar(character);
    var recorded := RecordLetter(s, casing.lowerChar(character), now);
    SameTreeSameRows(s, recorded);
    var from;
    from, k := SearchFindsNearest(recorded, casing, true, rows, Hits(casing, rows, typed));
    assert Hits(casing, rows, typed)
        == seq(|rows|, i requires 0 <= i < |rows| => typed <= casing.lowerName(FileName(rows[i])));
  }

  /** After a pause of a second, or when the same letter comes again, the search is for that letter
    * alone, from the row below the current one on. */
  lemma LetterStartsOver(s: State, casing: Casing, character: char, now: nat, rows: seq<Path>)
    returns (from: nat, k: nat)
    requires Shaped(s) && rows == VisiblePaths(s) && rows != [] && !casing.isControl(character)
    requires || s.typedAt.None? || now >= s.typedAt.value + 1_000_000_000
             || s.typeahead == casing.lowerChar(character)
    ensures var t, typed := TypeToSelect(s, casing, character, now), casing.lowerChar(character);
      && t.typeahead == typed && t.typedAt == Some(now)
      && var hits := seq(|rows|, i requires 0 <= i < |rows| => typed <= casing.lowerName(FileName(rows[i])));
         && from == (if CurrentRow(rows, s.selected) + 1 < |rows| then CurrentRow(rows, s.selected) + 1 else 0)
         && k < |rows| && (true in hits ==> Nearest(hits, from, k))
         && t.selected == if true in hits then Some(rows[k]) else s.selected
  {
    var typed := casing.lowerChar(character);
    var recorded := RecordLetter(s, typed, now);
    SameTreeSameRows(s, recorded);
    from, k := SearchFindsNearest(recorded, casing, false, rows, Hits(casing, rows, typed));
    assert Hits(casing, rows, typed)
        == seq(|rows|, i requires 0 <= i < |rows| => typed <= casing.lowerName(FileName(rows[i])));
  }

  /** The current row is that of the selection, or the first when the selection is no row. */
  lemma CurrentRowMeans(rows: seq<Path>, selected: Option<Path>)
    requires rows != []
    ensures var i := CurrentRow(rows, selected);
      if selected.Some? && selected.value in rows then rows[i] == selected.value else i == 0
  {
  }
}
