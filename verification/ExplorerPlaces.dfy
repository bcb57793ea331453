/** What becomes of the user's place in the tree when workspaces are switched, refreshed or collapsed. */
module ExplorerPlaces {
  import opened Options
  import opened ExplorerState
  import opened ExplorerInvariant
  import opened ExplorerVisible
  import opened ExplorerTypeahead
  import opened ExplorerRuns

  // ----- switching workspaces -----

  lemma AcceptKeepsPlaces(s: State, generation: nat, path: Path, listing: Listing)
    ensures var t := Accept(s, generation, path, listing); t.root == s.root && t.locations == s.locations
  {
  }

  lemma OtherStepsKeepPlaces(s: State, step: Step)
    requires Shaped(s) && !step.SwitchRoot?
    ensures Take(s, step).root == s.root && Take(s, step).locations == s.locations
  {
    match step
    case AcceptResult(generation, path, listing) => AcceptKeepsPlaces(s, generation, path, listing);
    case TypeLetter(casing, character, now) =>
      var t := TypeToSelect(s, casing, character, now);
      assert t.root == s.root && t.locations == s.locations;
    case _ =>
  }

  /** Leaving workspace `a` saves its place; elsewhere its place stays as it is. */
  ghost predicate KeepsPlace(s: State, t: State, a: Path) {
    && (s.root == Some(a) && t.root != Some(a) ==>
        a in t.locations && t.locations[a] == SavedLocation(s.expanded, s.selected))
    && (s.root != Some(a) ==>
        (a in t.locations <==> a in s.locations) && (a in s.locations ==> t.locations[a] == s.locations[a]))
  }

  lemma StepKeepsPlace(s: State, step: Step, a: Path)
    requires Shaped(s)
    ensures KeepsPlace(s, Take(s, step), a)
  {
    if !step.SwitchRoot? {
      OtherStepsKeepPlaces(s, step);
    }
  }

  ghost predicate PlacesStay(states: seq<State>, a: Path) {
    forall m :: 0 < m < |states| ==> KeepsPlace(states[m - 1], states[m], a)
  }

  lemma RunsKeepPlaces(states: seq<State>, steps: seq<Step>, a: Path)
    requires IsRun(states, steps)
    ensures PlacesStay(states, a)
  {
    forall m | 0 < m < |states| ensures KeepsPlace(states[m - 1], states[m], a) {
      StepKeepsPlace(states[m - 1], steps[m - 1], a);
    }
  }

  /** The place of a workspace left after state i is kept until the workspace is entered again. */
  lemma {:induction false} PlaceIsKept(states: seq<State>, a: Path, i: nat, j: nat)
    requires PlacesStay(states, a) && i < j < |states| && states[i].root == Some(a)
    requires forall m :: i < m <= j ==> states[m].root != Some(a)
    ensures a in states[j].locations && states[j].locations[a] == SavedLocation(states[i].expanded, states[i].selected)
    decreases j
  {
    assert KeepsPlace(states[j - 1], states[j], a);
    if i < j - 1 {
      PlaceIsKept(states, a, i, j - 1);
    }
  }

  /** Coming back to a workspace: however long ago it was left, and whatever happened in between in
    * others, what was expanded and selected is so again, the selection is to be restored, and
    * nothing is taken over from an old listing. */
  lemma ReturningRestoresPlace(states: seq<State>, steps: seq<Step>, a: Path, i: nat, j: nat)
    requires IsRun(states, steps) && i < j < |steps| && states[i].root == Some(a)
    requires (forall m :: i < m <= j ==> states[m].root != Some(a)) && states[j + 1].root == Some(a)
    ensures states[j + 1].expanded == states[i].expanded && states[j + 1].selected == states[i].selected
    ensures states[j + 1].restoreSelection == states[i].selected.Some?
    ensures states[j + 1].listings == map[] && states[j + 1].generation > states[j].generation
    ensures states[j + 1].typeahead == "" && states[j + 1].typedAt.None?
  {
    RunsKeepPlaces(states, steps, a);
    PlaceIsKept(states, a, i, j);
    EnteringIsSwitching(states, steps, a, j);
  }

  lemma EnteringIsSwitching(states: seq<State>, steps: seq<Step>, a: Path, j: nat)
    requires IsRun(states, steps) && j < |steps| && states[j].root != Some(a) && states[j + 1].root == Some(a)
    ensures steps[j] == SwitchRoot(Some(a)) && states[j + 1] == SetRoot(states[j], Some(a))
  {
    assert states[j + 1] == Take(states[j], steps[j]);
    if !steps[j].SwitchRoot? {
      OtherStepsKeepPlaces(states[j], steps[j]);
    }
  }

  lemma {:induction false} NeverEnteredHasNoPlace(states: seq<State>, a: Path, j: nat)
    requires PlacesStay(states, a) && j < |states| && a !in states[0].locations
    requires forall m :: 0 <= m <= j ==> states[m].root != Some(a)
    ensures a !in states[j].locations
    decreases j
  {
    if j > 0 {
      NeverEnteredHasNoPlace(states, a, j - 1);
      assert KeepsPlace(states[j - 1], states[j], a);
    }
  }

  /** The first visit to a workspace: the root alone is expanded and selected. */
  lemma FirstVisitStartsAtRoot(states: seq<State>, steps: seq<Step>, a: Path, j: nat)
    requires IsRun(states, steps) && j < |steps| && states[0] == INITIAL
    requires (forall m :: 0 <= m <= j ==> states[m].root != Some(a)) && states[j + 1].root == Some(a)
    ensures states[j + 1].expanded == {a} && states[j + 1].selected == Some(a) && !states[j + 1].restoreSelection
    ensures states[j + 1].listings == map[] && states[j + 1].generation > states[j].generation
    ensures states[j + 1].typeahead == "" && states[j + 1].typedAt.None?
  {
    RunsKeepPlaces(states, steps, a);
    NeverEnteredHasNoPlace(states, a, j);
    EnteringIsSwitching(states, steps, a, j);
  }

  /** Switching to the workspace one is in changes nothing; closing it leaves nothing remembered. */
  lemma StayingOrClosing(states: seq<State>, steps: seq<Step>, j: nat)
    requires IsRun(states, steps) && j < |steps| && steps[j].SwitchRoot?
    ensures steps[j].root == states[j].root ==> states[j + 1] == states[j]
    ensures states[j + 1].root == steps[j].root
    ensures steps[j].root.None? && states[j].root.Some? ==>
      Remembered(states[j + 1]) == {} && states[j + 1].generation > states[j].generation
  {
    assert states[j + 1] == Take(states[j], steps[j]);
  }

  // ----- refreshing and collapsing -----

  /** After a refresh the root is the only row, and it is selected. */
  lemma RefreshShowsRoot(states: seq<State>, steps: seq<Step>, j: nat)
    requires IsRun(states, steps) && j < |steps| && steps[j].RefreshAll?
    ensures var s, t := states[j], states[j + 1];
      && Shaped(t) && VisiblePaths(t) == (if s.root.Some? then [s.root.value] else [])
      && t.root == s.root && t.selected == s.root && t.listings == map[] && t.generation > s.generation
      && t.locations == s.locations && !t.restoreSelection && t.typeahead == "" && t.typedAt.None?
  {
    assert states[j + 1] == Take(states[j], steps[j]);
  }

  /** After collapsing, the rows are the root and, where it has been read, its entries. */
  lemma CollapseShowsRootAndEntries(states: seq<State>, steps: seq<Step>, j: nat, x: Path)
    requires IsRun(states, steps) && j < |steps| && steps[j].CollapseEverything?
    ensures var s, t := states[j], states[j + 1];
      && Shaped(t) && t.root == s.root && t.selected == s.root && t.listings == s.listings
      && t.generation == s.generation && t.locations == s.locations
      && (x in VisiblePaths(t) <==>
          s.root == Some(x) || (s.root.Some? && ReadyAt(s, s.root.value)
                                && exists e :: e in EntriesAt(s, s.root.value) && e.path == x))
  {
    var s, t := states[j], states[j + 1];
    assert t == Take(s, steps[j]);
    VisibleRows(t);
    if s.root.Some? {
      OnlyRootExpanded(t, s.root.value, x);
    }
  }

  lemma DeepRowNeedsExpanded(s: State, root: Path, x: Path)
    requires ShownUnder(s, root, x) && |x| > |root| + 1
    ensures exists d :: d in s.expanded && d != root
  {
    assert OpensToward(s, x[..|root| + 1], x);
  }

  /** Where only the root is expanded, exactly the root and its entries are shown. */
  lemma OnlyRootExpanded(s: State, root: Path, x: Path)
    requires Shaped(s) && s.expanded == {root}
    ensures ShownUnder(s, root, x)
       <==> x == root || (ReadyAt(s, root) && exists e :: e in EntriesAt(s, root) && e.path == x)
  {
    if ShownUnder(s, root, x) && x != root {
      assert OpensToward(s, x[..|root|], x) && x[..|root|] == root;
      if |x| > |root| + 1 {
        DeepRowNeedsExpanded(s, root, x);
      }
      assert ChildToward(root, x) == x;
      var i :| 0 <= i < |EntriesAt(s, root)| && EntriesAt(s, root)[i].path == x;
      assert EntriesAt(s, root)[i] in EntriesAt(s, root);
    }
    if ReadyAt(s, root) {
      forall i | 0 <= i < |EntriesAt(s, root)| && EntriesAt(s, root)[i].path == x ensures ShownUnder(s, root, x) {
        assert ChildToward(root, x) == x && x[..|root|] == root;
        assert OpensToward(s, root, x);
      }
    }
  }

  // ----- cancelling a reveal -----

  lemma RevisionAfterStep(s: State, step: Step)
    requires Shaped(s)
    ensures s.revealRevision <= Take(s, step).revealRevision
    ensures step.CancelReveal? || step.CollapseEverything? ==>
      s.revealRevision < Take(s, step).revealRevision && !Take(s, step).restoreSelection
  {
    match step
    case TypeLetter(casing, character, now) =>
      assert TypeToSelect(s, casing, character, now).revealRevision == s.revealRevision;
    case _ =>
  }

  ghost predicate RevisionsRise(states: seq<State>) {
    forall m :: 0 < m < |states| ==> states[m - 1].revealRevision <= states[m].revealRevision
  }

  lemma RunsRaiseRevisions(states: seq<State>, steps: seq<Step>)
    requires IsRun(states, steps)
    ensures RevisionsRise(states)
  {
    forall m | 0 < m < |states| ensures states[m - 1].revealRevision <= states[m].revealRevision {
      RevisionAfterStep(states[m - 1], steps[m - 1]);
    }
  }

  lemma {:induction false} RevisionNeverFalls(states: seq<State>, i: nat, j: nat)
    requires RevisionsRise(states) && i <= j < |states|
    ensures states[i].revealRevision <= states[j].revealRevision
    decreases j
  {
    if i < j {
      RevisionNeverFalls(states, i, j - 1);
    }
  }

  /** A reveal that began in state i, before the user navigated by hand, finds another revision ever after. */
  lemma NavigationMakesRevealStale(states: seq<State>, steps: seq<Step>, i: nat, k: nat, j: nat)
    requires IsRun(states, steps) && i <= k < j < |states| && (steps[k].CancelReveal? || steps[k].CollapseEverything?)
    ensures states[j].revealRevision != states[i].revealRevision && !states[k + 1].restoreSelection
  {
    RunsRaiseRevisions(states, steps);
    RevisionNeverFalls(states, i, k);
    RevisionAfterStep(states[k], steps[k]);
    RevisionNeverFalls(states, k + 1, j);
  }
}
