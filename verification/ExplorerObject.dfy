/** The explorer object, whose fields its operations update in place. */
module ExplorerObject {
  import opened Options
  import opened Sequences
  import opened ExplorerState
  import opened ExplorerInvariant
  import opened ExplorerVisible
  import opened ExplorerTypeahead

  class Explorer {
    var root: Option<Path>
    var expanded: set<Path>
    var listings: map<Path, Shared>
    var selected: Option<Path>
    var generation: nat
    var revealRevision: nat
    var typeahead: string
    var typedAt: Option<nat>
    var restoreSelection: bool
    var locations: map<Path, SavedLocation>
    var nextId: nat

    function View(): State
      reads this
    {
      State(root, expanded, listings, selected, generation, revealRevision, typeahead, typedAt,
            restoreSelection, locations, nextId)
    }

    constructor ()
      ensures View() == INITIAL
    {
      root, expanded, listings, selected := None, {}, map[], None;
      generation, revealRevision, typeahead, typedAt := 0, 0, "", None;
      restoreSelection, locations, nextId := false, map[], 0;
    }

    method CancelPendingReveal()
      modifies this
      ensures View() == ExplorerState.CancelPendingReveal(old(View()))
    {
      restoreSelection := false;
      revealRevision := revealRevision + 1;
    }

    method ClearTypeahead()
      modifies this
      ensures View() == ExplorerState.ClearTypeahead(old(View()))
    {
      typeahead := "";
      typedAt := None;
    }

    method CollapseAll()
      modifies this
      ensures View() == ExplorerState.CollapseAll(old(View()))
    {
      CancelPendingReveal();
      ClearTypeahead();
      expanded := {};
      if root.Some? {
        expanded := expanded + {root.value};
      }
      selected := root;
    }

    method Refresh()
      modifies this
      ensures View() == ExplorerState.Refresh(old(View()))
    {
      restoreSelection := false;
      ClearTypeahead();
      generation := generation + 1;
      listings := map[];
      expanded := {};
      selected := root;
      if root.Some? {
        expanded := expanded + {root.value};
      }
    }

    method SetRoot(newRoot: Option<Path>)
      modifies this
      ensures View() == ExplorerState.SetRoot(old(View()), newRoot)
    {
      if root != newRoot {
        if root.Some? {
          locations := locations[root.value := SavedLocation(expanded, selected)];
        }
        root := newRoot;
        Refresh();
        if root.Some? && root.value in locations {
          var location := locations[root.value];
          expanded := location.expanded;
          selected := location.selected;
          restoreSelection := selected.Some?;
        }
      }
    }

    method IsDirectory(path: Path) returns (yes: bool)
      ensures yes == ExplorerState.IsDirectory(View(), path)
    {
      if root == Some(path) {
        return true;
      }
      if path == [] || path[..|path| - 1] !in listings {
        return false;
      }
      var parent := listings[path[..|path| - 1]].listing;
      if !parent.Ready? {
        return false;
      }
      yes := exists entry :: entry in parent.entries && entry.path == path && entry.directory;
      assert yes <==> HasEntry(parent.entries, path, true);
    }

    method DirectoryVisible(path: Path) returns (yes: bool)
      ensures yes == ExplorerVisible.DirectoryVisible(View(), path)
    {
      if root == Some(path) {
        return true;
      }
      if root.None? || root.value !in expanded {
        return false;
      }
      yes := ExpandedToRoot(path);
    }

    function ExpandedToRoot(path: Path): (yes: bool)
      reads this
      ensures yes == ExpandedUpToRoot(View(), path)
      decreases |path|
    {
      root == Some(path) || (path in expanded && (path == [] || ExpandedToRoot(path[..|path| - 1])))
    }

    method VisiblePaths() returns (rows: seq<Path>)
      requires Shaped(View())
      ensures rows == ExplorerVisible.VisiblePaths(View())
    {
      rows := [];
      if root.Some? {
        rows := Append(View(), root.value, rows);
      }
    }

    static method Append(explorer: State, path: Path, out: seq<Path>) returns (rows: seq<Path>)
      requires Shaped(explorer)
      ensures rows == out + RowsFrom(explorer, path)
      decreases MaxLength(explorer.expanded) + 1 - |path|, 1
    {
      rows := out + [path];
      if path in explorer.expanded && path in explorer.listings && explorer.listings[path].listing.Ready? {
        rows := AppendEntries(explorer, path, explorer.listings[path].listing.entries, rows);
      }
    }

    static method AppendEntries(explorer: State, dir: Path, entries: seq<Entry>, out: seq<Path>) returns (rows: seq<Path>)
      requires Shaped(explorer) && dir in explorer.expanded && ShapedAt(dir, entries)
      ensures rows == out + RowsOfEntries(explorer, dir, entries)
      decreases MaxLength(explorer.expanded) + 1 - |dir|, 0
    {
      rows := out;
      ghost var left := RowsOfEntries(explorer, dir, entries);
      assert entries[0..] == entries;
      for i := 0 to |entries|
        invariant ShapedAt(dir, entries[i..]) && left == RowsOfEntries(explorer, dir, entries[i..])
        invariant rows + left == out + RowsOfEntries(explorer, dir, entries)
      {
        RowsOfNextEntry(explorer, dir, entries, i);
        ghost var head, rest := RowsFrom(explorer, entries[i].path), RowsOfEntries(explorer, dir, entries[i + 1..]);
        ConcatAssociates(rows, head, rest);
        rows := Append(explorer, entries[i].path, rows);
        left := rest;
      }
      assert entries[|entries|..] == [];
    }

    /** The first row from `start` on, wrapping around, whose name starts with what has been typed. */
    static method FindRow(casing: Casing, rows: seq<Path>, typed: string, start: nat) returns (found: Option<Path>)
      requires start < |rows|
      ensures var hit := FirstHit(Hits(casing, rows, typed), start, 0);
        found == if hit.Some? then Some(rows[hit.value]) else None
    {
      ghost var hits := Hits(casing, rows, typed);
      for offset := 0 to |rows|
        invariant FirstHit(hits, start, offset) == FirstHit(hits, start, 0)
      {
        RemainderOfOffset(start, offset, |rows|);
        var path := rows[(start + offset) % |rows|];
        if typed <= casing.lowerName(FileName(path)) {
          return Some(path);
        }
      }
      found := None;
    }

    /** Adds a letter to the search, or starts it over. */
    method RecordLetter(input: string, now: nat) returns (continuing: bool, cycle: bool)
      modifies `typeahead, `typedAt
      ensures View() == ExplorerTypeahead.RecordLetter(old(View()), input, now)
      ensures (continuing && !cycle) == Extending(old(View()), input, now)
    {
      continuing := typedAt.Some? && (if now >= typedAt.value then now - typedAt.value else 0) < PAUSE;
      cycle := continuing && typeahead == input;
      if !continuing || cycle {
        typeahead := input;
      } else {
        typeahead := typeahead + input;
      }
      typedAt := Some(now);
    }

    method Search(casing: Casing, extending: bool)
      requires Shaped(View())
      modifies `selected
      ensures View() == ExplorerTypeahead.Search(old(View()), casing, extending)
    {
      var rows := VisiblePaths();
      if rows == [] {
        return;
      }
      var current := CurrentRow(rows, selected);
      RemainderOfBelow(current, |rows|);
      var start := if extending then current else (current + 1) % |rows|;
      var found := FindRow(casing, rows, typeahead, start);
      if found.Some? {
        selected := found;
      }
    }

    method TypeToSelect(casing: Casing, character: char, now: nat) returns (handled: bool)
      requires Shaped(View())
      modifies this
      ensures View() == ExplorerTypeahead.TypeToSelect(old(View()), casing, character, now)
      ensures handled == !casing.isControl(character)
    {
      if casing.isControl(character) {
        return false;
      }
      var continuing, cycle := RecordLetter(casing.lowerChar(character), now);
      Search(casing, continuing && !cycle);
      handled := true;
    }

    method RefreshTargets() returns (targets: map<Path, Shared>)
      ensures targets == ExplorerVisible.RefreshTargets(View())
    {
      targets := map[];
      var rest := listings.Keys;
      while rest != {}
        invariant rest <= listings.Keys
        invariant targets == map p | p in listings && p !in rest && p in ExplorerVisible.RefreshTargets(View()) :: listings[p]
        decreases rest
      {
        var path :| path in rest;
        var visible := DirectoryVisible(path);
        if !listings[path].listing.Loading? && visible {
          targets := targets[path := listings[path]];
        }
        rest := rest - {path};
      }
    }

    method Accept(resultGeneration: nat, path: Path, listing: Listing)
      requires Shaped(View()) && ShapedListing(path, listing)
      modifies this
      ensures View() == ExplorerState.Accept(old(View()), resultGeneration, path, listing)
    {
      var directory := IsDirectory(path);
      if resultGeneration == generation
         && (directory || (path in listings && listings[path].listing.Loading?)) {
        if path !in listings {
          listings := listings[path := Shared(nextId, Loading)];
          nextId := nextId + 1;
        }
        assert View() == EnsureListed(old(View()), path);
        var previous := listings[path];
        var _ := UpdateListing(resultGeneration, path, previous, listing);
      }
    }

    method UpdateListing(resultGeneration: nat, path: Path, previous: Shared, listing: Listing) returns (applied: bool)
      requires ShapedListing(path, listing)
      modifies this
      ensures View() == ExplorerState.UpdateListing(old(View()), resultGeneration, path, previous, listing)
      ensures applied == Lands(old(View()), resultGeneration, path, previous, listing)
    {
      if resultGeneration != generation || path !in listings || listings[path].id != previous.id
         || previous.listing == listing {
        return false;
      }
      if listing.Ready? {
        Prune(path, listing.entries);
      }
      listings := listings[path := Shared(nextId, listing)];
      nextId := nextId + 1;
      applied := true;
    }

    /** Forget everything below children that the new entries of `dir` do not offer. */
    method Prune(dir: Path, entries: seq<Entry>)
      requires ShapedAt(dir, entries)
      modifies this
      ensures View() == ExplorerState.Prune(old(View()), dir, Removed(old(View()), dir, entries))
    {
      var surviving := Surviving(entries);
      var removed := FindRemoved(dir, entries, surviving);
      expanded := set p | p in expanded && !Deleted(removed, p);
      listings := map p | p in listings && !Deleted(removed, p) :: listings[p];
      if selected.Some? && Deleted(removed, selected.value) {
        selected := Some(dir);
      }
    }

    /** The children the new listing offers, each with whether it is a directory. */
    static method Surviving(entries: seq<Entry>) returns (surviving: map<Path, bool>)
      requires forall i, j :: 0 <= i < j < |entries| ==> entries[i].path != entries[j].path
      ensures forall p, needs :: HasEntry(entries, p, needs) <==> p in surviving && (needs ==> surviving[p])
    {
      surviving := map[];
      for i := 0 to |entries|
        invariant forall p :: p in surviving <==> exists k :: 0 <= k < i && entries[k].path == p
        invariant forall k :: 0 <= k < i ==> surviving[entries[k].path] == entries[k].directory
      {
        surviving := surviving[entries[i].path := entries[i].directory];
      }
    }

    /** Inspect every remembered path below `dir` and collect the children that must go. */
    method FindRemoved(dir: Path, entries: seq<Entry>, surviving: map<Path, bool>) returns (removed: set<Path>)
      requires forall p, needs :: HasEntry(entries, p, needs) <==> p in surviving && (needs ==> surviving[p])
      ensures removed == Removed(View(), dir, entries)
    {
      removed := {};
      var rest := listings.Keys + expanded + Singleton(selected);
      while rest != {}
        invariant rest <= Remembered(View())
        invariant removed == set x | x in Remembered(View()) - rest && dir < x && !Admits(View(), dir, entries, x) :: ChildToward(dir, x)
        decreases rest
      {
        var candidate :| candidate in rest;
        if dir < candidate {
          var child := ChildToward(dir, candidate);
          var needsDirectory := |candidate| > |dir| + 1 || candidate in listings || candidate in expanded;
          if !(child in surviving && (needsDirectory ==> surviving[child])) {
            removed := removed + {child};
          }
        }
        rest := rest - {candidate};
      }
    }
  }
}
