/** Whole runs of the explorer: any interleaving of user actions, refreshes, workspace switches and
  * results arriving from workers that may have started long ago. */
module ExplorerRuns {
  import opened Options
  import opened ExplorerState
  import opened ExplorerInvariant
  import opened ExplorerVisible
  import opened ExplorerTypeahead

  datatype Step =
    | SwitchRoot(root: Option<Path>)
    | RefreshAll
    | CollapseEverything
    | CancelReveal
    | TypeLetter(casing: Casing, character: char, now: nat)
    | ExpandDirectory(path: Path)
    | CollapseDirectory(path: Path)
    | LoadDirectory(path: Path)
    | SelectRow(path: Path)
    | SelectParent
    | AcceptResult(generation: nat, path: Path, listing: Listing)
    | UpdateResult(generation: nat, path: Path, previous: Shared, listing: Listing)

  /** When the application may take a step. Results of workers may arrive at any time; all that is
    * asked of them is the shape that reading a directory gives. */
  ghost predicate Enabled(s: State, step: Step)
    requires Shaped(s)
  {
    match step
    case ExpandDirectory(path) => IsDirectory(s, path)
    case LoadDirectory(path) => IsDirectory(s, path)
    case SelectRow(path) => path in VisiblePaths(s)
    case SelectParent => s.selected.Some? && s.selected != s.root
    case AcceptResult(_, path, listing) => ShapedListing(path, listing)
    case UpdateResult(_, path, _, listing) => ShapedListing(path, listing)
    case _ => true
  }

  function Take(s: State, step: Step): State
    requires Shaped(s)
  {
    match step
    case SwitchRoot(root) => SetRoot(s, root)
    case RefreshAll => Refresh(s)
    case CollapseEverything => CollapseAll(s)
    case CancelReveal => ClearTypeahead(CancelPendingReveal(s))
    case TypeLetter(casing, character, now) => TypeToSelect(s, casing, character, now)
    case ExpandDirectory(path) => Expand(s, path)
    case CollapseDirectory(path) => Collapse(s, path)
    case LoadDirectory(path) => BeginLoad(s, path)
    case SelectRow(path) => Select(s, path)
    case SelectParent =>
      if s.selected.Some? && s.selected.value != [] then Select(s, s.selected.value[..|s.selected.value| - 1]) else s
    case AcceptResult(generation, path, listing) => Accept(s, generation, path, listing)
    case UpdateResult(generation, path, previous, listing) => UpdateListing(s, generation, path, previous, listing)
  }

  lemma CancellingKeepsInv(s: State)
    requires Inv(s)
    ensures Inv(ClearTypeahead(CancelPendingReveal(s)))
  {
    var t := ClearTypeahead(CancelPendingReveal(s));
    forall p, x | ReadyAt(t, p) && x in Remembered(t) && p < x
      ensures Admits(t, p, EntriesAt(t, p), x)
    {
      assert ReadyAt(s, p) && x in Remembered(s) && Admits(s, p, EntriesAt(s, p), x);
    }
  }

  /** Every step keeps the tree free of ghosts. */
  lemma StepKeepsInv(s: State, step: Step)
    requires Inv(s) && Enabled(s, step)
    ensures Inv(Take(s, step))
  {
    match step
    case SwitchRoot(root) => SetRootKeepsInv(s, root);
    case RefreshAll => RefreshKeepsInv(s);
    case CollapseEverything => CollapseAllKeepsInv(s);
    case CancelReveal => CancellingKeepsInv(s);
    case TypeLetter(casing, character, now) => TypingKeepsInv(s, casing, character, now);
    case ExpandDirectory(path) => ExpandKeepsInv(s, path);
    case CollapseDirectory(path) => CollapseKeepsInv(s, path);
    case LoadDirectory(path) => BeginLoadKeepsInv(s, path);
    case SelectRow(path) => RowIsSelectable(s, path); SelectKeepsInv(s, path);
    case SelectParent => SelectParentKeepsInv(s);
    case AcceptResult(generation, path, listing) => AcceptKeepsInv(s, generation, path, listing);
    case UpdateResult(generation, path, previous, listing) => UpdateKeepsInv(s, generation, path, previous, listing);
  }

  lemma SelectParentKeepsInv(s: State)
    requires Inv(s) && Enabled(s, SelectParent)
    ensures Inv(Take(s, SelectParent))
  {
    var x := s.selected.value;
    assert x in Remembered(s);
    assert s.root.Some? && s.root.value <= x && s.root.value != x;
    ParentIsSelectable(s);
    SelectKeepsInv(s, s.selected.value[..|s.selected.value| - 1]);
  }

  // ----- runs -----

  /** A run: the states passed through, each one an enabled step from the one before. */
  ghost predicate IsRun(states: seq<State>, steps: seq<Step>) {
    && |states| == |steps| + 1
    && forall i :: 0 <= i < |steps| ==> Shaped(states[i]) && Enabled(states[i], steps[i]) && states[i + 1] == Take(states[i], steps[i])
  }

  lemma {:induction false} RunKeepsInv(states: seq<State>, steps: seq<Step>, i: nat)
    requires IsRun(states, steps) && Inv(states[0]) && i < |states|
    ensures Inv(states[i])
    decreases i
  {
    if i > 0 {
      RunKeepsInv(states, steps, i - 1);
      StepKeepsInv(states[i - 1], steps[i - 1]);
    }
  }

  /** No ghosts in any state reachable from the empty explorer: what is remembered below a directory
    * that has been read goes through an entry of its listing, and through a directory entry whenever
    * the path goes deeper or is itself listed or expanded. */
  lemma ReachableIsGhostFree(states: seq<State>, steps: seq<Step>, i: nat, p: Path, x: Path)
    requires IsRun(states, steps) && states[0] == INITIAL && i < |states|
    requires ReadyAt(states[i], p) && x in Remembered(states[i]) && p < x
    ensures exists entry :: entry in EntriesAt(states[i], p) && entry.path == ChildToward(p, x)
              && (|x| > |p| + 1 || x in states[i].listings || x in states[i].expanded ==> entry.directory)
  {
    InitialInv();
    RunKeepsInv(states, steps, i);
    var s := states[i];
    assert Admits(s, p, EntriesAt(s, p), x);
    var k :| 0 <= k < |EntriesAt(s, p)| && EntriesAt(s, p)[k].path == ChildToward(p, x)
             && (NeedsDirectory(s, p, x) ==> EntriesAt(s, p)[k].directory);
    assert EntriesAt(s, p)[k] in EntriesAt(s, p);
  }

  // ----- stale results -----

  /** Listing objects stay at their path or disappear; what appears is a new object. */
  ghost predicate MovesNoObject(s: State, t: State) {
    && s.nextId <= t.nextId && s.generation <= t.generation && (t.root != s.root ==> s.generation < t.generation)
    && forall p :: p in t.listings ==> s.nextId <= t.listings[p].id || (p in s.listings && t.listings[p] == s.listings[p])
  }

  lemma LandedMovesNoObject(s: State, path: Path, listing: Listing)
    ensures MovesNoObject(s, Landed(s, path, listing))
  {
  }

  lemma AcceptMovesNoObject(s: State, generation: nat, path: Path, listing: Listing)
    ensures MovesNoObject(s, Accept(s, generation, path, listing))
  {
    if Accepts(s, generation, path) {
      var listed := EnsureListed(s, path);
      LandedMovesNoObject(listed, path, listing);
      assert MovesNoObject(s, listed);
    }
  }

  lemma TypingMovesNoObject(s: State, casing: Casing, character: char, now: nat)
    requires Shaped(s)
    ensures MovesNoObject(s, TypeToSelect(s, casing, character, now))
  {
    var t := TypeToSelect(s, casing, character, now);
    assert t.listings == s.listings && t.nextId == s.nextId && t.generation == s.generation && t.root == s.root;
  }

  lemma SwitchingMovesNoObject(s: State, root: Option<Path>)
    ensures MovesNoObject(s, SetRoot(s, root))
  {
    assert root != s.root ==> SetRoot(s, root).listings == map[];
  }

  lemma StepMovesNoObject(s: State, step: Step)
    requires Shaped(s)
    ensures MovesNoObject(s, Take(s, step))
  {
    match step
    case SwitchRoot(root) => SwitchingMovesNoObject(s, root);
    case RefreshAll =>
    case CollapseEverything =>
    case CancelReveal =>
    case TypeLetter(casing, character, now) => TypingMovesNoObject(s, casing, character, now);
    case ExpandDirectory(path) =>
    case CollapseDirectory(path) =>
    case LoadDirectory(path) =>
    case SelectRow(path) =>
    case SelectParent =>
    case AcceptResult(generation, path, listing) => AcceptMovesNoObject(s, generation, path, listing);
    case UpdateResult(generation, path, previous, listing) => LandedMovesNoObject(s, path, listing);
  }

  /** A sequence of states none of which moves a listing object. */
  ghost predicate ObjectsStay(states: seq<State>) {
    forall i :: 0 < i < |states| ==> MovesNoObject(states[i - 1], states[i])
  }

  lemma RunsMoveNoObject(states: seq<State>, steps: seq<Step>)
    requires IsRun(states, steps)
    ensures ObjectsStay(states)
  {
    forall i | 0 < i < |states| ensures MovesNoObject(states[i - 1], states[i]) {
      StepMovesNoObject(states[i - 1], steps[i - 1]);
    }
  }

  lemma {:induction false} AbsentStaysAbsent(states: seq<State>, i: nat, j: nat, path: Path, id: nat)
    requires ObjectsStay(states) && i <= j < |states|
    requires id < states[i].nextId && (path in states[i].listings ==> states[i].listings[path].id != id)
    ensures states[i].nextId <= states[j].nextId && (path in states[j].listings ==> states[j].listings[path].id != id)
    decreases j
  {
    if i < j {
      AbsentStaysAbsent(states, i, j - 1, path, id);
      assert MovesNoObject(states[j - 1], states[j]);
    }
  }

  lemma {:induction false} GenerationNeverFalls(states: seq<State>, i: nat, j: nat)
    requires ObjectsStay(states) && i <= j < |states|
    ensures states[i].generation <= states[j].generation
    ensures states[i].generation == states[j].generation ==> states[i].root == states[j].root
    decreases j
  {
    if i < j {
      GenerationNeverFalls(states, i, j - 1);
      assert MovesNoObject(states[j - 1], states[j]);
    }
  }

  /** A later listing that carries the id of an earlier one at the same path is the earlier object. */
  lemma {:induction false} SameIdSameObject(states: seq<State>, i: nat, m: nat, path: Path)
    requires ObjectsStay(states) && i <= m < |states|
    requires path in states[i].listings && states[i].listings[path].id < states[i].nextId
    ensures states[i].nextId <= states[m].nextId
    ensures path in states[m].listings && states[m].listings[path].id == states[i].listings[path].id
        ==> states[m].listings[path] == states[i].listings[path]
    decreases m
  {
    if i < m {
      SameIdSameObject(states, i, m - 1, path);
      assert MovesNoObject(states[m - 1], states[m]);
    }
  }

  /** A worker takes its snapshot in state i and its result is applied in state j. That happens only
    * if in every state in between the generation and the root were the same and the directory's
    * listing was the very object of the snapshot: nothing intervened. */
  lemma AppliedMeansNothingIntervened(states: seq<State>, steps: seq<Step>, i: nat, m: nat, j: nat,
                                      path: Path, listing: Listing)
    requires IsRun(states, steps) && Inv(states[0]) && i <= m <= j < |states| && path in states[i].listings
    requires Lands(states[j], states[i].generation, path, states[i].listings[path], listing)
    ensures states[m].generation == states[i].generation && states[m].root == states[i].root
    ensures path in states[m].listings && states[m].listings[path] == states[i].listings[path]
  {
    RunsMoveNoObject(states, steps);
    RunKeepsInv(states, steps, i);
    GenerationNeverFalls(states, i, m);
    GenerationNeverFalls(states, m, j);
    SameIdSameObject(states, i, m, path);
    var id := states[i].listings[path].id;
    if !(path in states[m].listings && states[m].listings[path].id == id) {
      AbsentStaysAbsent(states, m, j, path, id);
    }
  }

  /** At most one result is ever applied over a given snapshot object, whatever else the later worker
    * claims about its path and generation. */
  lemma AppliedAtMostOnce(states: seq<State>, steps: seq<Step>, i: nat, j: nat)
    requires IsRun(states, steps) && Inv(states[0]) && i < j < |steps| && steps[i].UpdateResult? && steps[j].UpdateResult?
    requires steps[i].previous.id == steps[j].previous.id
    requires Lands(states[i], steps[i].generation, steps[i].path, steps[i].previous, steps[i].listing)
    ensures !Lands(states[j], steps[j].generation, steps[j].path, steps[j].previous, steps[j].listing)
  {
    RunKeepsInv(states, steps, i);
    RunsMoveNoObject(states, steps);
    var id := steps[i].previous.id;
    assert steps[j].path in states[i + 1].listings ==> states[i + 1].listings[steps[j].path].id != id;
    AbsentStaysAbsent(states, i + 1, j, steps[j].path, id);
  }

  /** After a refresh or a workspace switch, results from before it are never applied. */
  lemma OldGenerationNeverLands(states: seq<State>, steps: seq<Step>, i: nat, j: nat,
                                path: Path, previous: Shared, listing: Listing)
    requires IsRun(states, steps) && i < j < |states|
    requires steps[i].RefreshAll? || (steps[i].SwitchRoot? && steps[i].root != states[i].root)
    ensures forall g: nat :: g <= states[i].generation ==> !Lands(states[j], g, path, previous, listing)
  {
    RunsMoveNoObject(states, steps);
    GenerationNeverFalls(states, i + 1, j);
  }

  /** A result that lands changes only its own listing and what lies below children of its directory
    * that the new listing does not offer. */
  lemma LandedChangesOnlyItsSubtree(s: State, path: Path, listing: Listing, x: Path)
    requires Inv(s) && path in s.listings
    requires !(path < x && listing.Ready? && ChildToward(path, x) in Removed(s, path, listing.entries))
    ensures var t := Landed(s, path, listing);
      && (x in t.expanded <==> x in s.expanded)
      && (x != path ==> (x in t.listings <==> x in s.listings) && (x in s.listings ==> t.listings[x] == s.listings[x]))
      && (s.selected == Some(x) ==> t.selected == s.selected)
      && t == s.(listings := t.listings, expanded := t.expanded, selected := t.selected, nextId := t.nextId)
  {
    if listing.Ready? {
      DeletedLiesBelowRemovedChild(s, path, listing.entries, x);
    }
  }

  /** And everything it forgets lay below such a child. */
  lemma LandedForgetsOnlyOrphans(s: State, path: Path, listing: Listing, x: Path)
    requires Inv(s) && path in s.listings && x in Remembered(s) && x !in Remembered(Landed(s, path, listing))
    ensures listing.Ready? && path < x
    ensures exists y :: y in Remembered(s) && path < y && ChildToward(path, y) == ChildToward(path, x)
              && !Admits(s, path, listing.entries, y)
  {
    if !(path < x && listing.Ready? && ChildToward(path, x) in Removed(s, path, listing.entries)) {
      LandedChangesOnlyItsSubtree(s, path, listing, x);
    }
  }

  /** A worker's result that arrives while its snapshot is current is what the directory then lists;
    * any other changes nothing at all. */
  lemma FreshResultStands(states: seq<State>, steps: seq<Step>, i: nat, j: nat, path: Path, listing: Listing)
    requires IsRun(states, steps) && Inv(states[0]) && i <= j < |steps| && path in states[i].listings
    requires steps[j] == UpdateResult(states[i].generation, path, states[i].listings[path], listing)
    ensures var s, t := states[j], states[j + 1];
      if s.generation == states[i].generation && path in s.listings && s.listings[path] == states[i].listings[path] then
        path in t.listings && t.listings[path].listing == listing
      else
        t == s
  {
    RunsMoveNoObject(states, steps);
    RunKeepsInv(states, steps, i);
    SameIdSameObject(states, i, j, path);
    assert states[j + 1] == Take(states[j], steps[j]);
  }

  /** A listing that the loading of a directory delivers stands when it comes in the same generation for
    * the root, for a directory its parent lists, or where a listing is awaited; otherwise nothing changes. */
  lemma DeliveredListingStands(states: seq<State>, steps: seq<Step>, j: nat)
    requires IsRun(states, steps) && j < |steps| && steps[j].AcceptResult?
    ensures var s, t, path := states[j], states[j + 1], steps[j].path;
      if && steps[j].generation == s.generation
         && (|| s.root == Some(path)
             || (path in s.listings && s.listings[path].listing == Loading)
             || (path != [] && ReadyAt(s, path[..|path| - 1])
                 && exists e :: e in EntriesAt(s, path[..|path| - 1]) && e.path == path && e.directory))
      then path in t.listings && t.listings[path].listing == steps[j].listing
      else t == s
  {
    var s, path := states[j], steps[j].path;
    assert states[j + 1] == Take(s, steps[j]);
    if path != [] && ReadyAt(s, path[..|path| - 1]) {
      EntryByIndex(EntriesAt(s, path[..|path| - 1]), path);
    }
    AcceptedStands(s, steps[j].generation, path, steps[j].listing);
  }

  lemma EntryByIndex(entries: seq<Entry>, path: Path)
    ensures HasEntry(entries, path, true) <==> exists e :: e in entries && e.path == path && e.directory
  {
    if i :| 0 <= i < |entries| && entries[i].path == path && entries[i].directory {
      assert entries[i] in entries;
    }
  }

  lemma AcceptedStands(s: State, generation: nat, path: Path, listing: Listing)
    ensures var t := Accept(s, generation, path, listing);
      if Accepts(s, generation, path) then path in t.listings && t.listings[path].listing == listing else t == s
  {
  }

  /** A child of `dir` goes, with all below it, when something remembered under it finds no room in the
    * new entries: no entry for the child, or a file where a directory is needed. */
  ghost predicate Orphaned(s: State, dir: Path, entries: seq<Entry>, x: Path)
    requires dir < x
  {
    exists y :: y in Remembered(s) && dir < y && ChildToward(dir, y) == ChildToward(dir, x)
      && !exists e :: e in entries && e.path == ChildToward(dir, x)
           && (|y| > |dir| + 1 || y in s.listings || y in s.expanded ==> e.directory)
  }

  lemma RemovedIsOrphaned(s: State, dir: Path, entries: seq<Entry>, x: Path)
    requires dir < x
    ensures ChildToward(dir, x) in Removed(s, dir, entries) <==> Orphaned(s, dir, entries, x)
  {
    forall y | dir < y && ChildToward(dir, y) == ChildToward(dir, x)
      ensures Admits(s, dir, entries, y)
         <==> exists e :: e in entries && e.path == ChildToward(dir, x)
                && (|y| > |dir| + 1 || y in s.listings || y in s.expanded ==> e.directory)
    {
      if i :| 0 <= i < |entries| && entries[i].path == ChildToward(dir, y)
              && (NeedsDirectory(s, dir, y) ==> entries[i].directory) {
        assert entries[i] in entries;
      }
    }
  }

  /** What an arriving directory keeps: an expanded or listed path stays unless it lies under an orphaned
    * child, and a selection that does moves up to the directory that was re-read. */
  lemma LandedForgetsExactlyOrphans(s: State, path: Path, entries: seq<Entry>, x: Path)
    requires Inv(s) && path in s.listings
    ensures var t, gone := Landed(s, path, Ready(entries)), path < x && Orphaned(s, path, entries, x);
      && (x in t.expanded <==> x in s.expanded && !gone)
      && (x != path ==> (x in t.listings <==> x in s.listings && !gone))
      && (s.selected == Some(x) ==> t.selected == if gone then Some(path) else Some(x))
  {
    if path < x {
      RemovedIsOrphaned(s, path, entries, x);
    }
    DeletedLiesBelowRemovedChild(s, path, entries, x);
  }
}
