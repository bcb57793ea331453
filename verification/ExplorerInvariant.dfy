/** No ghosts: nothing the explorer remembers contradicts a listing it has read. */
module ExplorerInvariant {
  import opened Options
  import opened ExplorerState

  /** Entries as a directory read gives them: one component below the directory, no two alike. */
  predicate ShapedAt(dir: Path, entries: seq<Entry>) {
    && (forall i :: 0 <= i < |entries| ==> |entries[i].path| == |dir| + 1 && dir < entries[i].path)
    && (forall i, j :: 0 <= i < j < |entries| ==> entries[i].path != entries[j].path)
  }

  predicate ShapedListing(dir: Path, listing: Listing) {
    listing.Ready? ==> ShapedAt(dir, listing.entries)
  }

  predicate Shaped(s: State) {
    forall p :: p in s.listings ==> ShapedListing(p, s.listings[p].listing)
  }

  predicate AllWithin(root: Path, paths: set<Path>) {
    forall x :: x in paths ==> root <= x
  }

  predicate LocationsWithin(locations: map<Path, SavedLocation>) {
    forall r :: r in locations ==> AllWithin(r, locations[r].expanded) && AllWithin(r, Singleton(locations[r].selected))
  }

  /** Everything remembered lies within the root; without a root nothing is remembered. */
  predicate Rooted(s: State) {
    && (if s.root.Some? then AllWithin(s.root.value, Remembered(s)) else Remembered(s) == {})
    && LocationsWithin(s.locations)
  }

  /** Listing objects are never shared between paths, and the next one is new. */
  predicate DistinctObjects(s: State) {
    && (forall p :: p in s.listings ==> s.listings[p].id < s.nextId)
    && (forall p, q :: p in s.listings && q in s.listings && s.listings[p].id == s.listings[q].id ==> p == q)
  }

  ghost predicate NoGhosts(s: State) {
    forall p, x :: ReadyAt(s, p) && x in Remembered(s) && p < x ==> Admits(s, p, EntriesAt(s, p), x)
  }

  ghost predicate Inv(s: State) {
    Shaped(s) && Rooted(s) && DistinctObjects(s) && NoGhosts(s)
  }

  // ----- one lemma per way a state can change -----

  lemma InitialInv()
    ensures Inv(INITIAL)
  {
  }

  /** The ancestors of a path that is itself a directory of its parent's listing admit it. */
  lemma DirectoryIsAdmitted(s: State, d: Path, p: Path)
    requires NoGhosts(s) && Rooted(s) && IsDirectory(s, d)
    requires ReadyAt(s, p) && p < d
    ensures HasEntry(EntriesAt(s, p), ChildToward(p, d), true)
  {
    assert p in Remembered(s);
    if s.root == Some(d) {
      assert false;
    } else {
      var parent := d[..|d| - 1];
      if p == parent {
        assert ChildToward(p, d) == d;
      } else {
        assert parent in Remembered(s) && p < parent;
        assert Admits(s, p, EntriesAt(s, p), parent);
        assert ChildToward(p, d) == ChildToward(p, parent);
      }
    }
  }

  /** Remembering one more directory, as expanded or as listed-but-unread, keeps the tree ghost-free. */
  lemma RememberDirectoryKeepsGhosts(s: State, t: State, d: Path)
    requires NoGhosts(s) && Rooted(s) && IsDirectory(s, d)
    requires t.selected == s.selected
    requires s.expanded <= t.expanded <= s.expanded + {d}
    requires s.listings.Keys <= t.listings.Keys <= s.listings.Keys + {d}
    requires forall p :: p in s.listings ==> t.listings[p] == s.listings[p]
    requires d in t.listings && d !in s.listings ==> !t.listings[d].listing.Ready?
    ensures NoGhosts(t)
  {
    forall p, x | ReadyAt(t, p) && x in Remembered(t) && p < x
      ensures Admits(t, p, EntriesAt(t, p), x)
    {
      assert ReadyAt(s, p) && EntriesAt(s, p) == EntriesAt(t, p);
      if x == d {
        DirectoryIsAdmitted(s, d, p);
      } else {
        assert x in Remembered(s) && Admits(s, p, EntriesAt(s, p), x);
      }
    }
  }

  lemma ExpandKeepsInv(s: State, path: Path)
    requires Inv(s) && IsDirectory(s, path)
    ensures Inv(Expand(s, path))
  {
    DirectoryWithinRoot(s, path);
    RememberDirectoryKeepsGhosts(s, Expand(s, path), path);
  }

  lemma DirectoryWithinRoot(s: State, path: Path)
    requires Inv(s) && IsDirectory(s, path)
    ensures s.root.Some? && s.root.value <= path
  {
    if s.root != Some(path) {
      var parent := path[..|path| - 1];
      assert parent in Remembered(s);
    }
  }

  lemma CollapseKeepsInv(s: State, path: Path)
    requires Inv(s)
    ensures Inv(Collapse(s, path))
  {
    var t := Collapse(s, path);
    assert Remembered(t) <= Remembered(s);
    forall p, x | ReadyAt(t, p) && x in Remembered(t) && p < x
      ensures Admits(t, p, EntriesAt(t, p), x)
    {
      assert Admits(s, p, EntriesAt(s, p), x);
    }
  }

  /** A selection every listing above it has room for. */
  ghost predicate Selectable(s: State, path: Path) {
    && s.root.Some? && s.root.value <= path
    && forall p :: ReadyAt(s, p) && p < path ==> HasEntry(EntriesAt(s, p), ChildToward(p, path), |path| > |p| + 1)
  }

  lemma SelectKeepsInv(s: State, path: Path)
    requires Inv(s) && Selectable(s, path)
    ensures Inv(Select(s, path))
  {
    var t := Select(s, path);
    forall p, x | ReadyAt(t, p) && x in Remembered(t) && p < x
      ensures Admits(t, p, EntriesAt(t, p), x)
    {
      if x in Remembered(s) {
        assert Admits(s, p, EntriesAt(s, p), x);
      }
    }
  }

  lemma ParentIsSelectable(s: State)
    requires Inv(s) && s.selected.Some? && s.root.Some? && s.root.value < s.selected.value
    ensures var x := s.selected.value; Selectable(s, x[..|x| - 1])
  {
    var x := s.selected.value;
    var parent := x[..|x| - 1];
    forall p | ReadyAt(s, p) && p < parent
      ensures HasEntry(EntriesAt(s, p), ChildToward(p, parent), |parent| > |p| + 1)
    {
      assert x in Remembered(s) && p < x;
      assert Admits(s, p, EntriesAt(s, p), x);
      assert ChildToward(p, x) == ChildToward(p, parent);
    }
  }

  lemma BeginLoadKeepsInv(s: State, path: Path)
    requires Inv(s) && IsDirectory(s, path)
    ensures Inv(BeginLoad(s, path))
  {
    DirectoryWithinRoot(s, path);
    RememberDirectoryKeepsGhosts(s, BeginLoad(s, path), path);
    BeginLoadAddsObject(s, path);
  }

  lemma BeginLoadAddsObject(s: State, path: Path)
    requires Shaped(s) && Rooted(s) && DistinctObjects(s) && s.root.Some? && s.root.value <= path
    ensures var t := BeginLoad(s, path); Shaped(t) && Rooted(t) && DistinctObjects(t)
  {
  }

  // ----- applying a listing -----

  lemma PruneForgetsOnly(s: State, dir: Path, removed: set<Path>)
    requires dir in s.listings
    ensures var t := Prune(s, dir, removed);
      && Remembered(t) <= Remembered(s)
      && (forall p :: p in t.listings ==> p in s.listings && t.listings[p] == s.listings[p])
      && t.expanded <= s.expanded
  {
  }

  lemma PruneKeepsGhosts(s: State, dir: Path, removed: set<Path>)
    requires NoGhosts(s) && dir in s.listings
    ensures NoGhosts(Prune(s, dir, removed))
  {
    var t := Prune(s, dir, removed);
    PruneForgetsOnly(s, dir, removed);
    forall p, x | ReadyAt(t, p) && x in Remembered(t) && p < x
      ensures Admits(t, p, EntriesAt(t, p), x)
    {
      assert Admits(s, p, EntriesAt(s, p), x);
    }
  }

  /** What survives the pruning for a new listing is admitted by that listing. */
  lemma PruneAdmits(s: State, dir: Path, entries: seq<Entry>, x: Path)
    requires dir in s.listings
    requires x in Remembered(Prune(s, dir, Removed(s, dir, entries))) && dir < x
    ensures Admits(Prune(s, dir, Removed(s, dir, entries)), dir, entries, x)
  {
    var removed := Removed(s, dir, entries);
    var t := Prune(s, dir, removed);
    PruneForgetsOnly(s, dir, removed);
    if !Admits(s, dir, entries, x) {
      assert ChildToward(dir, x) in removed;
      assert x[..|dir| + 1] in removed;
      assert Deleted(removed, x);
    }
  }

  lemma InstallKeepsShape(s: State, path: Path, listing: Listing)
    requires Shaped(s) && Rooted(s) && DistinctObjects(s) && ShapedListing(path, listing)
    requires s.root.Some? && s.root.value <= path
    ensures Shaped(Install(s, path, listing)) && Rooted(Install(s, path, listing)) && DistinctObjects(Install(s, path, listing))
  {
  }

  lemma PruneKeepsShape(s: State, dir: Path, removed: set<Path>)
    requires Shaped(s) && Rooted(s) && DistinctObjects(s) && dir in s.listings
    ensures Shaped(Prune(s, dir, removed)) && Rooted(Prune(s, dir, removed)) && DistinctObjects(Prune(s, dir, removed))
  {
    PruneForgetsOnly(s, dir, removed);
    assert dir in Remembered(s);
  }

  lemma InstallKeepsGhosts(s: State, path: Path, listing: Listing)
    requires NoGhosts(s) && path in s.listings
    requires listing.Ready? ==> forall x :: x in Remembered(s) && path < x ==> Admits(s, path, listing.entries, x)
    ensures NoGhosts(Install(s, path, listing))
  {
    var t := Install(s, path, listing);
    assert Remembered(t) == Remembered(s);
    forall p, x | ReadyAt(t, p) && x in Remembered(t) && p < x
      ensures Admits(t, p, EntriesAt(t, p), x)
    {
      if p == path {
        assert Admits(s, path, listing.entries, x);
      } else {
        assert Admits(s, p, EntriesAt(s, p), x);
      }
    }
  }

  lemma LandedKeepsInv(s: State, path: Path, listing: Listing)
    requires Inv(s) && path in s.listings && ShapedListing(path, listing)
    ensures Inv(Landed(s, path, listing))
  {
    assert path in Remembered(s);
    if listing.Ready? {
      var removed := Removed(s, path, listing.entries);
      var t := Prune(s, path, removed);
      PruneKeepsShape(s, path, removed);
      PruneKeepsGhosts(s, path, removed);
      DirSurvivesPrune(s, path, listing.entries);
      forall x | x in Remembered(t) && path < x
        ensures Admits(t, path, listing.entries, x)
      {
        PruneAdmits(s, path, listing.entries, x);
      }
      InstallKeepsShape(t, path, listing);
      InstallKeepsGhosts(t, path, listing);
    } else {
      InstallKeepsShape(s, path, listing);
      InstallKeepsGhosts(s, path, listing);
    }
  }

  /** Pruning for a listing of `dir` touches exactly what lies below one of the removed children. */
  lemma DeletedLiesBelowRemovedChild(s: State, dir: Path, entries: seq<Entry>, x: Path)
    ensures Deleted(Removed(s, dir, entries), x) <==> dir < x && ChildToward(dir, x) in Removed(s, dir, entries)
  {
    var removed := Removed(s, dir, entries);
    forall k | 0 <= k <= |x| && x[..k] in removed
      ensures k == |dir| + 1 && dir < x[..k]
    {
    }
  }

  lemma DirSurvivesPrune(s: State, dir: Path, entries: seq<Entry>)
    ensures forall x :: !(dir < x) ==> !Deleted(Removed(s, dir, entries), x)
  {
    forall x | !(dir < x) ensures !Deleted(Removed(s, dir, entries), x) {
      DeletedLiesBelowRemovedChild(s, dir, entries, x);
    }
  }

  lemma UpdateKeepsInv(s: State, generation: nat, path: Path, previous: Shared, listing: Listing)
    requires Inv(s) && ShapedListing(path, listing)
    ensures Inv(UpdateListing(s, generation, path, previous, listing))
  {
    if Lands(s, generation, path, previous, listing) {
      LandedKeepsInv(s, path, listing);
    }
  }

  lemma AcceptKeepsInv(s: State, generation: nat, path: Path, listing: Listing)
    requires Inv(s) && ShapedListing(path, listing)
    ensures Inv(Accept(s, generation, path, listing))
  {
    if Accepts(s, generation, path) {
      var listed := EnsureListed(s, path);
      if path !in s.listings {
        BeginLoadKeepsInv(s, path);
      }
      UpdateKeepsInv(listed, generation, path, listed.listings[path], listing);
    }
  }

  lemma RefreshKeepsInv(s: State)
    requires Inv(s)
    ensures Inv(Refresh(s))
  {
  }

  lemma CollapseAllKeepsInv(s: State)
    requires Inv(s)
    ensures Inv(CollapseAll(s))
  {
    var t := CollapseAll(s);
    assert t.listings == s.listings;
    forall p, x | ReadyAt(t, p) && x in Remembered(t) && p < x
      ensures Admits(t, p, EntriesAt(t, p), x)
    {
      assert p in Remembered(s);
      if x in s.listings {
        assert x in Remembered(s) && Admits(s, p, EntriesAt(s, p), x);
      } else {
        assert false;
      }
    }
  }

  lemma SetRootKeepsInv(s: State, root: Option<Path>)
    requires Inv(s)
    ensures Inv(SetRoot(s, root))
  {
    if s.root != root {
      var t := SetRoot(s, root);
      assert s.root.Some? ==> s.expanded <= Remembered(s) && Singleton(s.selected) <= Remembered(s);
      assert LocationsWithin(SaveLocation(s));
      assert t.listings == map[];
      assert Rooted(t);
    }
  }
}
