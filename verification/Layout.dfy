/** Saving the pane layout: transient panes are taken out of the saved tabs, their shares go to their
  * neighbours, and the active pane and tab are moved to ones that are still there. */
module Layout {
  import opened Absorption

  datatype Pane = Pane(id: nat, content: string)

  type Ids = set<nat>

  /** The saved layout of a tab. */
  datatype Arrangement = Arrangement(
    panes: seq<seq<Pane>>,
    rowRatios: seq<real>,
    colRatios: seq<seq<real>>,
    activePane: nat
  )

  // ----- what stripping leaves -----

  function Drops(row: seq<Pane>, ids: Ids): seq<bool> {
    seq(|row|, i requires 0 <= i < |row| => row[i].id in ids)
  }

  /** The panes of a row that are not transient, in order. */
  function KeptPanes(row: seq<Pane>, ids: Ids): seq<Pane> {
    Filtered(Drops(row, ids), row, |row|)
  }

  function KeptRows(panes: seq<seq<Pane>>, ids: Ids): seq<seq<Pane>> {
    seq(|panes|, i requires 0 <= i < |panes| => KeptPanes(panes[i], ids))
  }

  /** A row goes when nothing in it stays. */
  function RowDrops(panes: seq<seq<Pane>>, ids: Ids): seq<bool> {
    seq(|panes|, i requires 0 <= i < |panes| => KeptPanes(panes[i], ids) == [])
  }

  function StrippedPanes(panes: seq<seq<Pane>>, ids: Ids): seq<seq<Pane>> {
    Filtered(RowDrops(panes, ids), KeptRows(panes, ids), |panes|)
  }

  function AbsorbedCols(panes: seq<seq<Pane>>, cols: seq<seq<real>>, ids: Ids): seq<seq<real>> {
    seq(|cols|, i requires 0 <= i < |cols| => if i < |panes| then Absorb(Drops(panes[i], ids), cols[i]) else cols[i])
  }

  function StrippedCols(panes: seq<seq<Pane>>, cols: seq<seq<real>>, ids: Ids): seq<seq<real>> {
    FilteredTo(RowDrops(panes, ids), cols, AbsorbedCols(panes, cols, ids), |panes|)
  }

  function Stripped(a: Arrangement, ids: Ids): Arrangement {
    var panes := StrippedPanes(a.panes, ids);
    Arrangement(
      panes,
      Absorb(RowDrops(a.panes, ids), a.rowRatios),
      StrippedCols(a.panes, a.colRatios, ids),
      if panes != [] && panes[0] != [] && a.activePane in ids then panes[0][0].id else a.activePane)
  }

  // ----- in place -----

  /** A row while its panes are looked at: what stands, the shares, and the pane to look at next. */
  datatype RowStage = RowStage(panes: seq<Pane>, shares: seq<real>, col: nat)

  /** The row when the first `n` of its panes have been looked at. */
  function RowStageAt(row: seq<Pane>, ratios: seq<real>, ids: Ids, n: nat): RowStage
    requires n <= |row|
  {
    var drops := Drops(row, ids);
    RowStage(FilteredTo(drops, row, row, n), AbsorbTo(drops, ratios, n), Survivors(drops, n))
  }

  function PaneStripped(s: RowStage, ids: Ids): RowStage
    requires s.col < |s.panes|
  {
    if s.panes[s.col].id in ids then RowStage(RemoveAt(s.panes, s.col), RemoveAndAbsorb(s.shares, s.col), s.col)
    else s.(col := s.col + 1)
  }

  lemma RowStageStarts(row: seq<Pane>, ratios: seq<real>, ids: Ids)
    ensures RowStageAt(row, ratios, ids, 0) == RowStage(row, ratios, 0)
  {
    FilteredStart(Drops(row, ids), row, row);
    AbsorbNothing(Drops(row, ids), ratios);
  }

  lemma RowStageEnds(row: seq<Pane>, ratios: seq<real>, ids: Ids, n: nat)
    requires n <= |row|
    ensures RowStageAt(row, ratios, ids, n).col < |RowStageAt(row, ratios, ids, n).panes| <==> n < |row|
    ensures RowStageAt(row, ratios, ids, |row|).panes == KeptPanes(row, ids)
    ensures RowStageAt(row, ratios, ids, |row|).shares == Absorb(Drops(row, ids), ratios)
  {
    FilteredSize(Drops(row, ids), row, row, n);
  }

  lemma PaneSettles(row: seq<Pane>, ratios: seq<real>, ids: Ids, n: nat)
    requires n < |row|
    ensures RowStageAt(row, ratios, ids, n).col < |RowStageAt(row, ratios, ids, n).panes|
    ensures PaneStripped(RowStageAt(row, ratios, ids, n), ids) == RowStageAt(row, ratios, ids, n + 1)
  {
    FilteredStep(Drops(row, ids), row, row, n);
    AbsorbStep(Drops(row, ids), ratios, n);
  }

  /** Takes a row's transient panes out, one after the other. */
  method StripRow(row: seq<Pane>, ratios: seq<real>, ids: Ids) returns (kept: seq<Pane>, shares: seq<real>)
    ensures kept == KeptPanes(row, ids) && shares == Absorb(Drops(row, ids), ratios)
  {
    ghost var n := 0;
    var col: nat := 0;
    kept, shares := row, ratios;
    RowStageStarts(row, ratios, ids);
    while col < |kept|
      invariant n <= |row| && RowStage(kept, shares, col) == RowStageAt(row, ratios, ids, n)
      decreases |row| - n
    {
      RowStageEnds(row, ratios, ids, n);
      PaneSettles(row, ratios, ids, n);
      if kept[col].id in ids {
        kept := RemoveAt(kept, col);
        shares := CloseShare(shares, col);
      } else {
        col := col + 1;
      }
      n := n + 1;
    }
    RowStageEnds(row, ratios, ids, n);
  }

  /** Removes a share and gives it to the one on its left, or to the next one. */
  method CloseShare(ratios: seq<real>, at: nat) returns (shares: seq<real>)
    ensures shares == RemoveAndAbsorb(ratios, at)
  {
    shares := ratios;
    if at < |shares| {
      var closed := shares[at];
      shares := shares[..at] + shares[at + 1..];
      assert shares == RemoveAt(ratios, at);
      if shares != [] {
        var absorb := if at > 0 then at - 1 else 0;
        shares := shares[absorb := shares[absorb] + closed];
      }
    }
  }

  /** The rows and shares of a tab, of which the next row to look at is the `row`-th. */
  datatype Stage = Stage(rows: seq<seq<Pane>>, colRows: seq<seq<real>>, ratioRows: seq<real>, row: nat)

  /** The tab when the first `n` of its rows have been looked at. */
  function StageAt(panes: seq<seq<Pane>>, cols: seq<seq<real>>, ratios: seq<real>, ids: Ids, n: nat): Stage
    requires n <= |panes|
  {
    var drops := RowDrops(panes, ids);
    Stage(FilteredTo(drops, panes, KeptRows(panes, ids), n), FilteredTo(drops, cols, AbsorbedCols(panes, cols, ids), n),
          AbsorbTo(drops, ratios, n), Survivors(drops, n))
  }

  /** A stage in which the row has been stripped to `line` and its shares to `shares`. */
  function RowSettled(s: Stage, line: seq<Pane>, shares: seq<real>): Stage
    requires s.row < |s.rows|
  {
    if line == [] then Stage(RemoveAt(s.rows, s.row), RemoveAt(s.colRows, s.row), RemoveAndAbsorb(s.ratioRows, s.row), s.row)
    else
      Stage(s.rows[s.row := line], if s.row < |s.colRows| then s.colRows[s.row := shares] else s.colRows,
            s.ratioRows, s.row + 1)
  }

  /** What becomes of a stage when its row is looked at. */
  function RowStripped(s: Stage, ids: Ids): Stage
    requires s.row < |s.rows|
  {
    var shares := if s.row < |s.colRows| then s.colRows[s.row] else [];
    RowSettled(s, KeptPanes(s.rows[s.row], ids), Absorb(Drops(s.rows[s.row], ids), shares))
  }

  lemma StageStarts(panes: seq<seq<Pane>>, cols: seq<seq<real>>, ratios: seq<real>, ids: Ids)
    ensures StageAt(panes, cols, ratios, ids, 0) == Stage(panes, cols, ratios, 0)
  {
    FilteredStart(RowDrops(panes, ids), panes, KeptRows(panes, ids));
    FilteredStart(RowDrops(panes, ids), cols, AbsorbedCols(panes, cols, ids));
    AbsorbNothing(RowDrops(panes, ids), ratios);
  }

  lemma StageEnds(panes: seq<seq<Pane>>, cols: seq<seq<real>>, ratios: seq<real>, ids: Ids, n: nat)
    requires n <= |panes|
    ensures StageAt(panes, cols, ratios, ids, n).row < |StageAt(panes, cols, ratios, ids, n).rows| <==> n < |panes|
    ensures var end := StageAt(panes, cols, ratios, ids, |panes|);
      && end.rows == StrippedPanes(panes, ids) && end.colRows == StrippedCols(panes, cols, ids)
      && end.ratioRows == Absorb(RowDrops(panes, ids), ratios)
  {
    FilteredSize(RowDrops(panes, ids), panes, KeptRows(panes, ids), n);
  }

  /** What stands at the next row, and what comes of it. */
  lemma RowOutcome(panes: seq<seq<Pane>>, ids: Ids, n: nat)
    requires n < |panes|
    ensures var drops, rows, kept := RowDrops(panes, ids), KeptRows(panes, ids), KeptPanes(panes[n], ids);
      var now, row := FilteredTo(drops, panes, rows, n), Survivors(drops, n);
      && row < |now| && now[row] == panes[n] && (drops[n] <==> kept == [])
      && FilteredTo(drops, panes, rows, n + 1) == (if kept == [] then RemoveAt(now, row) else now[row := kept])
      && Survivors(drops, n + 1) == (if kept == [] then row else row + 1)
  {
    FilteredStep(RowDrops(panes, ids), panes, KeptRows(panes, ids), n);
  }

  lemma ColsOutcome(panes: seq<seq<Pane>>, cols: seq<seq<real>>, ids: Ids, n: nat)
    requires n < |panes|
    ensures var drops, absorbed := RowDrops(panes, ids), AbsorbedCols(panes, cols, ids);
      var now, row := FilteredTo(drops, cols, absorbed, n), Survivors(drops, n);
      FilteredTo(drops, cols, absorbed, n + 1)
        == if KeptPanes(panes[n], ids) == [] then RemoveAt(now, row)
           else if row < |now| then now[row := Absorb(Drops(panes[n], ids), now[row])]
           else now
  {
    FilteredStep(RowDrops(panes, ids), cols, AbsorbedCols(panes, cols, ids), n);
  }

  lemma StageSettles(panes: seq<seq<Pane>>, cols: seq<seq<real>>, ratios: seq<real>, ids: Ids, n: nat)
    requires n < |panes|
    ensures StageAt(panes, cols, ratios, ids, n).row < |StageAt(panes, cols, ratios, ids, n).rows|
    ensures RowStripped(StageAt(panes, cols, ratios, ids, n), ids) == StageAt(panes, cols, ratios, ids, n + 1)
  {
    RowOutcome(panes, ids, n);
    ColsOutcome(panes, cols, ids, n);
    AbsorbStep(RowDrops(panes, ids), ratios, n);
  }

  class Tab {
    var panes: seq<seq<Pane>>
    var rowRatios: seq<real>
    var colRatios: seq<seq<real>>
    var activePane: nat

    constructor (a: Arrangement)
      ensures View() == a
    {
      panes, rowRatios, colRatios, activePane := a.panes, a.rowRatios, a.colRatios, a.activePane;
    }

    function View(): Arrangement
      reads this
    {
      Arrangement(panes, rowRatios, colRatios, activePane)
    }

    function StageOf(row: nat): Stage
      reads this
    {
      Stage(panes, colRatios, rowRatios, row)
    }

    /** Puts a stripped row in its place, or takes the row out when nothing is left of it. */
    method SettleRow(row: nat, line: seq<Pane>, shares: seq<real>)
      requires row < |panes|
      modifies this`panes, this`rowRatios, this`colRatios
      ensures StageOf(if line == [] then row else row + 1) == RowSettled(old(StageOf(row)), line, shares)
    {
      if line == [] {
        panes, colRatios := RemoveAt(panes, row), RemoveAt(colRatios, row);
        rowRatios := CloseShare(rowRatios, row);
      } else {
        panes := panes[row := line];
        if row < |colRatios| {
          colRatios := colRatios[row := shares];
        }
      }
    }

    /** Strips one row; the next to look at is the same again when the row is gone. */
    method StripRowAt(row: nat, ids: Ids) returns (next: nat)
      requires row < |panes|
      modifies this`panes, this`rowRatios, this`colRatios
      ensures StageOf(next) == RowStripped(old(StageOf(row)), ids)
    {
      var line, shares := StripRow(panes[row], if row < |colRatios| then colRatios[row] else [], ids);
      SettleRow(row, line, shares);
      next := if line == [] then row else row + 1;
    }

    /** Strips every row and takes out those that end up empty, with their shares. */
    method StripRows(ids: Ids)
      modifies this`panes, this`rowRatios, this`colRatios
      ensures panes == StrippedPanes(old(panes), ids)
      ensures rowRatios == Absorb(RowDrops(old(panes), ids), old(rowRatios))
      ensures colRatios == StrippedCols(old(panes), old(colRatios), ids)
    {
      ghost var all, cols, ratios, n := panes, colRatios, rowRatios, 0;
      var row: nat := 0;
      StageStarts(all, cols, ratios, ids);
      while row < |panes|
        invariant n <= |all| && StageOf(row) == StageAt(all, cols, ratios, ids, n)
        decreases |all| - n
      {
        StageEnds(all, cols, ratios, ids, n);
        StageSettles(all, cols, ratios, ids, n);
        row := StripRowAt(row, ids);
        n := n + 1;
      }
      StageEnds(all, cols, ratios, ids, n);
    }

    /** Takes the transient panes out; false when nothing is left of the tab. */
    method StripTransientPanes(ids: Ids) returns (kept: bool)
      modifies this
      ensures View() == Stripped(old(View()), ids)
      ensures kept == (StrippedPanes(old(panes), ids) != [])
    {
      StripRows(ids);
      if panes == [] {
        return false;
      }
      RowsHavePanes(old(panes), ids, 0);
      if activePane in ids {
        activePane := panes[0][0].id;
      }
      kept := true;
    }
  }

  /** No stripped row is empty. */
  lemma RowsHavePanes(panes: seq<seq<Pane>>, ids: Ids, k: nat)
    requires k < |StrippedPanes(panes, ids)|
    ensures StrippedPanes(panes, ids)[k] != []
  {
    var row := StrippedPanes(panes, ids)[k];
    FilteredMembers(RowDrops(panes, ids), KeptRows(panes, ids), |panes|);
    assert row in StrippedPanes(panes, ids);
  }

  // ----- what stripping promises -----

  /** There is a share for every row and for every pane. */
  ghost predicate Aligned(a: Arrangement) {
    && |a.rowRatios| == |a.panes| && |a.colRatios| == |a.panes|
    && forall i :: 0 <= i < |a.panes| ==> |a.colRatios[i]| == |a.panes[i]|
  }

  function AllPanes(rows: seq<seq<Pane>>, n: nat): seq<Pane>
    requires n <= |rows|
  {
    if n == 0 then [] else AllPanes(rows, n - 1) + rows[n - 1]
  }

  /** The panes that are not transient, picked out one by one. */
  function Lasting(panes: seq<Pane>, ids: Ids): seq<Pane> {
    if panes == [] then []
    else Lasting(panes[..|panes| - 1], ids) + (if panes[|panes| - 1].id in ids then [] else [panes[|panes| - 1]])
  }

  lemma {:induction false} LastingOfSum(a: seq<Pane>, b: seq<Pane>, ids: Ids)
    ensures Lasting(a + b, ids) == Lasting(a, ids) + Lasting(b, ids)
    decreases |b|
  {
    if b == [] {
      assert a + b == a;
    } else {
      LastingOfSum(a, b[..|b| - 1], ids);
      assert (a + b)[..|a + b| - 1] == a + b[..|b| - 1];
    }
  }

  lemma {:induction false} KeptAreLasting(row: seq<Pane>, ids: Ids, n: nat)
    requires n <= |row|
    ensures Filtered(Drops(row, ids), row, n) == Lasting(row[..n], ids)
    decreases n
  {
    if n > 0 {
      KeptAreLasting(row, ids, n - 1);
      assert row[..n][..n - 1] == row[..n - 1];
    }
  }

  lemma AllPanesGrow(rows: seq<seq<Pane>>, row: seq<Pane>)
    ensures AllPanes(rows + [row], |rows| + 1) == AllPanes(rows, |rows|) + row
  {
    PanesOfFirstRows(rows, rows + [row], |rows|);
  }

  lemma {:induction false} RowsHoldLasting(panes: seq<seq<Pane>>, ids: Ids, n: nat)
    requires n <= |panes|
    ensures var rows := Filtered(RowDrops(panes, ids), KeptRows(panes, ids), n);
      AllPanes(rows, |rows|) == Lasting(AllPanes(panes, n), ids)
    decreases n
  {
    if n > 0 {
      RowsHoldLasting(panes, ids, n - 1);
      RowHoldsLasting(Filtered(RowDrops(panes, ids), KeptRows(panes, ids), n - 1), AllPanes(panes, n - 1), panes[n - 1], ids);
      OneRowMore(panes, ids, n);
    }
  }

  lemma OneRowMore(panes: seq<seq<Pane>>, ids: Ids, n: nat)
    requires 0 < n <= |panes|
    ensures var drops, rows, kept := RowDrops(panes, ids), KeptRows(panes, ids), KeptPanes(panes[n - 1], ids);
      Filtered(drops, rows, n) == if kept == [] then Filtered(drops, rows, n - 1) else Filtered(drops, rows, n - 1) + [kept]
  {
  }

  /** One row more: what is kept of it, if anything. */
  lemma RowHoldsLasting(rows: seq<seq<Pane>>, before: seq<Pane>, row: seq<Pane>, ids: Ids)
    requires AllPanes(rows, |rows|) == Lasting(before, ids)
    ensures var kept := KeptPanes(row, ids);
      && (kept == [] ==> AllPanes(rows, |rows|) == Lasting(before + row, ids))
      && AllPanes(rows + [kept], |rows| + 1) == Lasting(before + row, ids)
  {
    LastingOfSum(before, row, ids);
    KeptAreLasting(row, ids, |row|);
    assert row[..|row|] == row;
    AllPanesGrow(rows, KeptPanes(row, ids));
  }

  lemma {:induction false} PanesOfFirstRows(a: seq<seq<Pane>>, b: seq<seq<Pane>>, n: nat)
    requires n <= |a| <= |b| && forall i :: 0 <= i < n ==> a[i] == b[i]
    ensures AllPanes(a, n) == AllPanes(b, n)
    decreases n
  {
    if n > 0 {
      PanesOfFirstRows(a, b, n - 1);
    }
  }

  /** What is left are exactly the panes that are not transient, in their order, in rows none of which is empty. */
  lemma StrippingKeepsLasting(panes: seq<seq<Pane>>, ids: Ids)
    ensures var rows := StrippedPanes(panes, ids);
      && AllPanes(rows, |rows|) == Lasting(AllPanes(panes, |panes|), ids)
      && forall k :: 0 <= k < |rows| ==> rows[k] != []
  {
    RowsHoldLasting(panes, ids, |panes|);
    forall k | 0 <= k < |StrippedPanes(panes, ids)| ensures StrippedPanes(panes, ids)[k] != [] {
      RowsHavePanes(panes, ids, k);
    }
  }

  /** Row `i` that survives, with what is left of it, and where it now stands. */
  lemma RowSurvives(a: Arrangement, ids: Ids, i: nat)
    requires Aligned(a) && i < |a.panes| && KeptPanes(a.panes[i], ids) != []
    ensures var b, k := Stripped(a, ids), Survivors(RowDrops(a.panes, ids), i);
      && k < |b.panes| == |b.colRatios|
      && b.panes[k] == KeptPanes(a.panes[i], ids)
      && b.colRatios[k] == Absorb(Drops(a.panes[i], ids), a.colRatios[i])
  {
    var drops := RowDrops(a.panes, ids);
    FilteredAt(drops, KeptRows(a.panes, ids), |drops|, i);
    FilteredAt(drops, AbsorbedCols(a.panes, a.colRatios, ids), |drops|, i);
    FilteredLength(drops, KeptRows(a.panes, ids), |drops|);
    FilteredSize(drops, a.colRatios, AbsorbedCols(a.panes, a.colRatios, ids), |drops|);
  }

  lemma KeptHaveShares(row: seq<Pane>, ratios: seq<real>, ids: Ids)
    requires |row| == |ratios|
    ensures |Absorb(Drops(row, ids), ratios)| == |KeptPanes(row, ids)|
    ensures KeptPanes(row, ids) != [] ==> Sum(Absorb(Drops(row, ids), ratios)) == Sum(ratios)
  {
    var drops := Drops(row, ids);
    AbsorbAll(drops, ratios);
    FilteredLength(drops, row, |row|);
    SomeSurvive(drops, |drops|);
    if KeptPanes(row, ids) != [] {
      SumIsPreserved(drops, ratios);
    }
  }

  lemma {:induction false} SurvivorBefore(drop: seq<bool>, k: nat, n: nat) returns (i: nat)
    requires n <= |drop| && k < Survivors(drop, n)
    ensures i < n && !drop[i] && Survivors(drop, i) == k
    decreases n
  {
    if k < Survivors(drop, n - 1) {
      i := SurvivorBefore(drop, k, n - 1);
    } else {
      i := n - 1;
    }
  }

  /** A tab whose shares match its panes still has matching shares. */
  lemma StrippingKeepsShape(a: Arrangement, ids: Ids)
    requires Aligned(a)
    ensures Aligned(Stripped(a, ids))
  {
    var b, drops := Stripped(a, ids), RowDrops(a.panes, ids);
    AbsorbAll(drops, a.rowRatios);
    FilteredLength(drops, KeptRows(a.panes, ids), |drops|);
    FilteredSize(drops, a.colRatios, AbsorbedCols(a.panes, a.colRatios, ids), |drops|);
    forall k | 0 <= k < |b.panes| ensures |b.colRatios[k]| == |b.panes[k]| {
      var i := SurvivorBefore(drops, k, |drops|);
      RowSurvives(a, ids, i);
      KeptHaveShares(a.panes[i], a.colRatios[i], ids);
    }
  }

  /** The rows still share what they shared, and so do the panes of every row that survives, which are its
    * lasting ones. */
  lemma StrippingKeepsSums(a: Arrangement, ids: Ids, i: nat)
    requires Aligned(a) && i < |a.panes| && KeptPanes(a.panes[i], ids) != []
    ensures var b, k := Stripped(a, ids), Survivors(RowDrops(a.panes, ids), i);
      && k < |b.panes| == |b.colRatios| && b.panes[k] == Lasting(a.panes[i], ids)
      && Sum(b.rowRatios) == Sum(a.rowRatios)
      && Sum(b.colRatios[k]) == Sum(a.colRatios[i])
  {
    var drops := RowDrops(a.panes, ids);
    RowSurvives(a, ids, i);
    KeptHaveShares(a.panes[i], a.colRatios[i], ids);
    KeptAreLasting(a.panes[i], ids, |a.panes[i]|);
    assert a.panes[i][..|a.panes[i]|] == a.panes[i];
    assert !drops[i];
    SumIsPreserved(drops, a.rowRatios);
  }

  ghost predicate HasPane(panes: seq<seq<Pane>>, id: nat) {
    exists r, c :: 0 <= r < |panes| && 0 <= c < |panes[r]| && panes[r][c].id == id
  }

  lemma LastingPaneIsKept(panes: seq<seq<Pane>>, ids: Ids, id: nat)
    ensures HasPane(StrippedPanes(panes, ids), id) <==> HasPane(panes, id) && id !in ids
  {
    var drops, rows := RowDrops(panes, ids), StrippedPanes(panes, ids);
    FilteredMembers(drops, KeptRows(panes, ids), |panes|);
    if HasPane(panes, id) && id !in ids {
      var r, c :| 0 <= r < |panes| && 0 <= c < |panes[r]| && panes[r][c].id == id;
      FilteredMembers(Drops(panes[r], ids), panes[r], |panes[r]|);
      assert panes[r][c] in KeptPanes(panes[r], ids);
      assert KeptRows(panes, ids)[r] in rows;
    }
    if HasPane(rows, id) {
      var k, c :| 0 <= k < |rows| && 0 <= c < |rows[k]| && rows[k][c].id == id;
      assert rows[k] in rows;
      var r :| 0 <= r < |panes| && KeptRows(panes, ids)[r] == rows[k];
      FilteredMembers(Drops(panes[r], ids), panes[r], |panes[r]|);
      assert rows[k][c] in KeptPanes(panes[r], ids);
    }
  }

  lemma {:induction false} FirstOfAll(rows: seq<seq<Pane>>, n: nat)
    requires 0 < n <= |rows| && rows[0] != []
    ensures AllPanes(rows, n) != [] && AllPanes(rows, n)[0] == rows[0][0]
    decreases n
  {
    if n > 1 {
      FirstOfAll(rows, n - 1);
    }
  }

  /** A lasting pane stays active; for a transient one the first lasting pane of the tab takes over. So the
    * active pane of what is left is one of its panes exactly when the active pane was transient or one of
    * the tab's panes to begin with. */
  lemma ActivePaneSurvives(a: Arrangement, ids: Ids)
    requires StrippedPanes(a.panes, ids) != []
    ensures var lasting := Lasting(AllPanes(a.panes, |a.panes|), ids);
      lasting != [] && Stripped(a, ids).activePane == if a.activePane in ids then lasting[0].id else a.activePane
    ensures HasPane(Stripped(a, ids).panes, Stripped(a, ids).activePane)
        <==> a.activePane in ids || HasPane(a.panes, a.activePane)
  {
    RowsHavePanes(a.panes, ids, 0);
    StrippingKeepsLasting(a.panes, ids);
    FirstOfAll(StrippedPanes(a.panes, ids), |StrippedPanes(a.panes, ids)|);
    LastingPaneIsKept(a.panes, ids, a.activePane);
    if a.activePane in ids {
      assert Stripped(a, ids).panes[0][0].id == Stripped(a, ids).activePane;
    }
  }

  // ----- all tabs of a workspace -----

  /** Which of the tabs are left with nothing. */
  function TabDrops(views: seq<Arrangement>, ids: Ids): (drops: seq<bool>)
    ensures |drops| == |views|
  {
    seq(|views|, i requires 0 <= i < |views| => StrippedPanes(views[i].panes, ids) == [])
  }

  /** The tabs when the first `n` of them have been stripped. */
  function StrippedTo(views: seq<Arrangement>, ids: Ids, n: nat): (r: seq<Arrangement>)
    ensures |r| == |views|
  {
    seq(|views|, i requires 0 <= i < |views| => if i < n then Stripped(views[i], ids) else views[i])
  }

  lemma OneMoreStripped(views: seq<Arrangement>, ids: Ids, n: nat)
    requires n < |views|
    ensures StrippedTo(views, ids, n)[n] == views[n]
    ensures StrippedTo(views, ids, n)[n := Stripped(views[n], ids)] == StrippedTo(views, ids, n + 1)
  {
  }

  /** The last survivor up to the active tab, counted among the survivors; the first if there is none. */
  function NewActive(drop: seq<bool>, active: nat, n: nat): nat
    requires n <= |drop|
  {
    if n == 0 then 0
    else if drop[n - 1] || n - 1 > active then NewActive(drop, active, n - 1)
    else Survivors(drop, n - 1)
  }

  /** The tabs kept of the first `n`, and where the active one is among them. */
  ghost predicate Chosen<T>(drop: seq<bool>, tabs: seq<T>, active: nat, n: nat, kept: seq<T>, newActive: nat)
    requires n <= |drop|
  {
    kept == Filtered(drop, tabs, n) && |kept| == Survivors(drop, n) && newActive == NewActive(drop, active, n)
  }

  /** Keeps one more tab or not. */
  method Choose<T>(ghost drop: seq<bool>, tabs: seq<T>, active: nat, idx: nat, keep: bool, before: seq<T>, activeBefore: nat)
    returns (kept: seq<T>, newActive: nat)
    requires idx < |drop| == |tabs| && keep == !drop[idx] && Chosen(drop, tabs, active, idx, before, activeBefore)
    ensures Chosen(drop, tabs, active, idx + 1, kept, newActive)
  {
    kept, newActive := before, activeBefore;
    if keep {
      if idx <= active {
        newActive := |kept|;
      }
      kept := kept + [tabs[idx]];
    }
  }

  /** What the tabs hold. */
  ghost function Views(tabs: seq<Tab>): (views: seq<Arrangement>)
    reads set t | t in tabs
    ensures |views| == |tabs|
  {
    seq(|tabs|, i requires 0 <= i < |tabs| reads set t | t in tabs => tabs[i].View())
  }

  ghost predicate Distinct(tabs: seq<Tab>) {
    forall i, j :: 0 <= i < j < |tabs| ==> tabs[i] != tabs[j]
  }

  /** Strips one of the tabs; the others stay as they are. */
  method StripTabAt(tabs: seq<Tab>, idx: nat, ids: Ids) returns (some: bool)
    requires idx < |tabs| && Distinct(tabs)
    modifies tabs[idx]
    ensures Views(tabs) == old(Views(tabs))[idx := Stripped(old(Views(tabs))[idx], ids)]
    ensures some == (StrippedPanes(old(Views(tabs))[idx].panes, ids) != [])
  {
    some := tabs[idx].StripTransientPanes(ids);
  }

  /** The first `n` of the tabs have been stripped, and kept or not. */
  ghost predicate StrippedSoFar(
    tabs: seq<Tab>, views: seq<Arrangement>, ids: Ids, active: nat, n: nat, kept: seq<Tab>, newActive: nat
  )
    requires |views| == |tabs| && n <= |tabs|
    reads set t | t in tabs
  {
    Views(tabs) == StrippedTo(views, ids, n) && Chosen(TabDrops(views, ids), tabs, active, n, kept, newActive)
  }

  /** Strips one more tab, and keeps it unless nothing is left of it. */
  method StripNext(
    tabs: seq<Tab>, activeTab: nat, ids: Ids, idx: nat, before: seq<Tab>, activeBefore: nat, ghost views: seq<Arrangement>
  )
    returns (kept: seq<Tab>, newActive: nat)
    requires idx < |tabs| == |views| && Distinct(tabs)
    requires StrippedSoFar(tabs, views, ids, activeTab, idx, before, activeBefore)
    modifies tabs[idx]
    ensures StrippedSoFar(tabs, views, ids, activeTab, idx + 1, kept, newActive)
  {
    OneMoreStripped(views, ids, idx);
    var some := StripTabAt(tabs, idx, ids);
    kept, newActive := Choose(TabDrops(views, ids), tabs, activeTab, idx, some, before, activeBefore);
  }

  lemma NothingStrippedYet(views: seq<Arrangement>, ids: Ids)
    ensures StrippedTo(views, ids, 0) == views
  {
  }

  method StripEach(tabs: seq<Tab>, activeTab: nat, ids: Ids, ghost views: seq<Arrangement>)
    returns (kept: seq<Tab>, newActive: nat)
    requires Distinct(tabs) && views == Views(tabs)
    modifies set t | t in tabs
    ensures StrippedSoFar(tabs, views, ids, activeTab, |tabs|, kept, newActive)
  {
    kept, newActive := [], 0;
    NothingStrippedYet(views, ids);
    for idx := 0 to |tabs|
      invariant StrippedSoFar(tabs, views, ids, activeTab, idx, kept, newActive)
    {
      kept, newActive := StripNext(tabs, activeTab, ids, idx, kept, newActive, views);
    }
  }

  /** Strips the tabs, drops those with nothing left, and says where the active one now is. */
  method StripTransientTabs(tabs: seq<Tab>, activeTab: nat, ids: Ids) returns (kept: seq<Tab>, newActive: nat)
    requires Distinct(tabs)
    modifies set t | t in tabs
    ensures ids == {} ==> kept == tabs && newActive == activeTab && Views(tabs) == old(Views(tabs))
    ensures ids != {} ==>
      && kept == Filtered(TabDrops(old(Views(tabs)), ids), tabs, |tabs|)
      && newActive == NewActive(TabDrops(old(Views(tabs)), ids), activeTab, |tabs|)
      && Views(tabs) == StrippedTo(old(Views(tabs)), ids, |tabs|)
  {
    if ids == {} {
      return tabs, activeTab;
    }
    kept, newActive := StripEach(tabs, activeTab, ids, Views(tabs));
  }

  /** The new active tab is the old one if it survived, else the nearest survivor to its left, else the first. */
  lemma {:induction false} ActiveTabIsNearest(drop: seq<bool>, active: nat, n: nat, j: nat)
    requires j < n <= |drop| && j <= active && !drop[j]
    requires forall i :: j < i < n && i <= active ==> drop[i]
    ensures NewActive(drop, active, n) == Survivors(drop, j)
    decreases n
  {
    if j < n - 1 {
      ActiveTabIsNearest(drop, active, n - 1, j);
    }
  }

  lemma {:induction false} NoTabToTheLeft(drop: seq<bool>, active: nat, n: nat)
    requires n <= |drop| && forall i :: 0 <= i < n && i <= active ==> drop[i]
    ensures NewActive(drop, active, n) == 0
    decreases n
  {
    if n > 0 {
      NoTabToTheLeft(drop, active, n - 1);
    }
  }

  /** In terms of the tabs themselves: `j` is the last tab up to the active one that survives. */
  lemma ActiveTabAfterStripping<T>(tabs: seq<T>, drop: seq<bool>, active: nat, j: nat)
    requires |drop| == |tabs| && j < |tabs| && j <= active && !drop[j]
    requires forall i :: j < i < |tabs| && i <= active ==> drop[i]
    ensures var kept, k := Filtered(drop, tabs, |tabs|), NewActive(drop, active, |tabs|);
      k < |kept| && kept[k] == tabs[j]
  {
    ActiveTabIsNearest(drop, active, |tabs|, j);
    FilteredAt(drop, tabs, |tabs|, j);
  }
}
