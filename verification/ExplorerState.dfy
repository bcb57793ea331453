/** The explorer's cached tree as a value, and what each of its operations does to it.
  * The class `Explorer` is proved against these functions. */
module ExplorerState {
  import opened Options

  /** A path is the sequence of its components; `p <= q` says q is p or lies below it. */
  type Path = seq<string>

  datatype Entry = Entry(path: Path, name: string, directory: bool)

  datatype Listing = Loading | Ready(entries: seq<Entry>) | Failed(message: string)

  /** A shared listing object: two of them are the same object exactly when their ids agree. */
  datatype Shared = Shared(id: nat, listing: Listing)

  datatype SavedLocation = SavedLocation(expanded: set<Path>, selected: Option<Path>)

  datatype State = State(
    root: Option<Path>,
    expanded: set<Path>,
    listings: map<Path, Shared>,
    selected: Option<Path>,
    generation: nat,
    revealRevision: nat,
    typeahead: string,
    typedAt: Option<nat>,
    restoreSelection: bool,
    locations: map<Path, SavedLocation>,
    nextId: nat)

  const INITIAL: State :=
    State(None, {}, map[], None, 0, 0, "", None, false, map[], 0)

  function Singleton(path: Option<Path>): set<Path> {
    if path.Some? then {path.value} else {}
  }

  /** Every path the explorer remembers: cached, expanded or selected. */
  function Remembered(s: State): set<Path> {
    s.listings.Keys + s.expanded + Singleton(s.selected)
  }

  predicate ReadyAt(s: State, path: Path) {
    path in s.listings && s.listings[path].listing.Ready?
  }

  function EntriesAt(s: State, path: Path): seq<Entry>
    requires ReadyAt(s, path)
  {
    s.listings[path].listing.entries
  }

  predicate HasEntry(entries: seq<Entry>, path: Path, asDirectory: bool) {
    exists i :: 0 <= i < |entries| && entries[i].path == path && (asDirectory ==> entries[i].directory)
  }

  predicate IsDirectory(s: State, path: Path) {
    || s.root == Some(path)
    || (path != [] && var parent := path[..|path| - 1];
        ReadyAt(s, parent) && HasEntry(EntriesAt(s, parent), path, true))
  }

  /** The child of `dir` that `x`, strictly below `dir`, goes through. */
  function ChildToward(dir: Path, x: Path): (child: Path)
    requires dir < x
    ensures |child| == |dir| + 1 && dir < child && child <= x
  {
    x[..|dir| + 1]
  }

  predicate NeedsDirectory(s: State, dir: Path, x: Path) {
    |x| > |dir| + 1 || x in s.listings || x in s.expanded
  }

  /** A listing of `dir` with these entries leaves room for the remembered path `x` below it. */
  predicate Admits(s: State, dir: Path, entries: seq<Entry>, x: Path)
    requires dir < x
  {
    HasEntry(entries, ChildToward(dir, x), NeedsDirectory(s, dir, x))
  }

  /** The children of `dir` that some remembered path still needs and the new entries do not offer. */
  function Removed(s: State, dir: Path, entries: seq<Entry>): set<Path> {
    set x | x in Remembered(s) && dir < x && !Admits(s, dir, entries, x) :: ChildToward(dir, x)
  }

  predicate Deleted(removed: set<Path>, x: Path) {
    exists k :: 0 <= k <= |x| && x[..k] in removed
  }

  function Prune(s: State, dir: Path, removed: set<Path>): State {
    s.(expanded := (set x | x in s.expanded && !Deleted(removed, x)),
       listings := (map x | x in s.listings && !Deleted(removed, x) :: s.listings[x]),
       selected := if s.selected.Some? && Deleted(removed, s.selected.value) then Some(dir) else s.selected)
  }

  /** A worker's result is applied only over the very object it was based on. */
  predicate Lands(s: State, generation: nat, path: Path, previous: Shared, listing: Listing) {
    && generation == s.generation
    && path in s.listings
    && s.listings[path].id == previous.id
    && previous.listing != listing
  }

  function Install(s: State, path: Path, listing: Listing): State {
    s.(listings := s.listings[path := Shared(s.nextId, listing)], nextId := s.nextId + 1)
  }

  function Landed(s: State, path: Path, listing: Listing): State {
    var pruned := if listing.Ready? then Prune(s, path, Removed(s, path, listing.entries)) else s;
    Install(pruned, path, listing)
  }

  function UpdateListing(s: State, generation: nat, path: Path, previous: Shared, listing: Listing): State {
    if Lands(s, generation, path, previous, listing) then Landed(s, path, listing) else s
  }

  predicate Accepts(s: State, generation: nat, path: Path) {
    && generation == s.generation
    && (IsDirectory(s, path) || (path in s.listings && s.listings[path].listing.Loading?))
  }

  function EnsureListed(s: State, path: Path): State {
    if path in s.listings then s else Install(s, path, Loading)
  }

  function Accept(s: State, generation: nat, path: Path, listing: Listing): State {
    if Accepts(s, generation, path) then
      var listed := EnsureListed(s, path);
      UpdateListing(listed, generation, path, listed.listings[path], listing)
    else
      s
  }

  function CancelPendingReveal(s: State): State {
    s.(restoreSelection := false, revealRevision := s.revealRevision + 1)
  }

  function ClearTypeahead(s: State): State {
    s.(typeahead := "", typedAt := None)
  }

  function CollapseAll(s: State): State {
    ClearTypeahead(CancelPendingReveal(s)).(expanded := Singleton(s.root), selected := s.root)
  }

  function Refresh(s: State): State {
    ClearTypeahead(s).(
      restoreSelection := false,
      generation := s.generation + 1,
      listings := map[],
      expanded := Singleton(s.root),
      selected := s.root)
  }

  function SaveLocation(s: State): map<Path, SavedLocation> {
    if s.root.Some? then s.locations[s.root.value := SavedLocation(s.expanded, s.selected)] else s.locations
  }

  function SetRoot(s: State, root: Option<Path>): State {
    if s.root == root then s
    else
      var switched := Refresh(s.(locations := SaveLocation(s), root := root));
      if root.Some? && root.value in switched.locations then
        var saved := switched.locations[root.value];
        switched.(expanded := saved.expanded, selected := saved.selected, restoreSelection := saved.selected.Some?)
      else switched
  }

  // What the rest of the application does with the tree.

  function Expand(s: State, path: Path): State { s.(expanded := s.expanded + {path}) }

  function Collapse(s: State, path: Path): State { s.(expanded := s.expanded - {path}) }

  function Select(s: State, path: Path): State { s.(selected := Some(path)) }

  /** Start loading a directory that has no listing yet. */
  function BeginLoad(s: State, path: Path): State { EnsureListed(s, path) }
}
