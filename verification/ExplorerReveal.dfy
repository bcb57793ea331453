/** Revealing a file: reading its ancestor chain from disk, and opening the tree down to it. */
module ExplorerReveal {
  import opened Options
  import opened ExplorerState
  import opened ExplorerInvariant
  import opened ExplorerVisible

  /** What resolving symbolic links made of a path. */
  datatype Canonical = Resolved(path: Path) | Unresolved(message: string)

  datatype Outcome =
    | Found(target: Path, listings: seq<(Path, Listing)>)
    | NotFound(message: string)

  const OUTSIDE := "The active file is outside this workspace."
  const UNAVAILABLE := "The file is no longer available in this workspace."

  /** A disk: what reading each directory gives. */
  ghost predicate ReadsDirectories(read: Path -> Listing) {
    forall dir: Path {:trigger read(dir)} :: !read(dir).Loading? && ShapedListing(dir, read(dir))
  }

  function Before(step: (Path, Listing), rest: Outcome): Outcome {
    if rest.Found? then Found(rest.target, [step] + rest.listings) else rest
  }

  function Offers(listing: Listing, child: Path, last: bool): bool {
    listing.Ready? && HasEntry(listing.entries, child, !last)
  }

  function Refusal(listing: Listing): Outcome {
    NotFound(if listing.Failed? then listing.message else UNAVAILABLE)
  }

  /** Read the directories from `dir` down along `components`. */
  function Descend(read: Path -> Listing, dir: Path, components: Path): Outcome
    decreases |components|
  {
    if components == [] then Found(dir, [])
    else
      var child := dir + [components[0]];
      if Offers(read(dir), child, |components| == 1) then
        Before((dir, read(dir)), Descend(read, child, components[1..]))
      else
        Refusal(read(dir))
  }

  function Prepended(steps: seq<(Path, Listing)>, rest: Outcome): Outcome {
    if rest.Found? then Found(rest.target, steps + rest.listings) else rest
  }

  function Reveal(read: Path -> Listing, root: Path, canonicalRoot: Canonical, canonicalTarget: Canonical): Outcome {
    if canonicalRoot.Unresolved? then NotFound(canonicalRoot.message)
    else if canonicalTarget.Unresolved? then NotFound(canonicalTarget.message)
    else if !(canonicalRoot.path <= canonicalTarget.path) then NotFound(OUTSIDE)
    else Descend(read, root, canonicalTarget.path[|canonicalRoot.path|..])
  }

  lemma DescendNext(read: Path -> Listing, dir: Path, components: Path, index: nat, before: seq<(Path, Listing)>)
    requires index < |components|
    ensures var listing, child := read(dir), dir + [components[index]];
      Prepended(before, Descend(read, dir, components[index..]))
      == if Offers(listing, child, index == |components| - 1) then
           Prepended(before + [(dir, listing)], Descend(read, child, components[index + 1..]))
         else Refusal(listing)
  {
    assert components[index..][0] == components[index] && components[index..][1..] == components[index + 1..];
    var rest := Descend(read, dir + [components[index]], components[index + 1..]);
    if rest.Found? {
      assert before + ([(dir, read(dir))] + rest.listings) == (before + [(dir, read(dir))]) + rest.listings;
    }
  }

  method RevealPath(read: Path -> Listing, root: Path, canonicalRoot: Canonical, canonicalTarget: Canonical)
    returns (outcome: Outcome)
    ensures outcome == Reveal(read, root, canonicalRoot, canonicalTarget)
  {
    if canonicalRoot.Unresolved? {
      return NotFound(canonicalRoot.message);
    }
    if canonicalTarget.Unresolved? {
      return NotFound(canonicalTarget.message);
    }
    if !(canonicalRoot.path <= canonicalTarget.path) {
      return NotFound(OUTSIDE);
    }
    var components := canonicalTarget.path[|canonicalRoot.path|..];
    var target := root + components;
    var directory := root;
    var listings: seq<(Path, Listing)> := [];
    for index := 0 to |components|
      invariant directory == root + components[..index]
      invariant Descend(read, root, components) == Prepended(listings, Descend(read, directory, components[index..]))
    {
      var listing := read(directory);
      var child := directory + [components[index]];
      DescendNext(read, directory, components, index, listings);
      if !Offers(listing, child, index == |components| - 1) {
        return Refusal(listing);
      }
      listings := listings + [(directory, listing)];
      directory := child;
    }
    assert components[..|components|] == components;
    outcome := Found(target, listings);
  }

  /** A successful descent arrives where it was sent, reading one directory per component. */
  lemma {:induction false} DescendArrives(read: Path -> Listing, dir: Path, components: Path)
    requires Descend(read, dir, components).Found?
    ensures Descend(read, dir, components).target == dir + components
    ensures |Descend(read, dir, components).listings| == |components|
    decreases |components|
  {
    if components == [] {
      assert dir + components == dir;
    } else {
      var child := dir + [components[0]];
      DescendArrives(read, child, components[1..]);
      assert child + components[1..] == dir + components;
    }
  }

  /** The directory reached after k components can be read, and offers the next one: a directory,
    * unless it is the last. */
  ghost predicate LeadsOn(read: Path -> Listing, dir: Path, components: Path, k: nat)
    requires k < |components|
  {
    var listing := read(dir + components[..k]);
    listing.Ready? && exists e :: e in listing.entries && e.path == dir + components[..k + 1]
                        && (k + 1 < |components| ==> e.directory)
  }

  lemma OffersMeans(listing: Listing, child: Path, last: bool)
    ensures Offers(listing, child, last)
       <==> listing.Ready? && exists e :: e in listing.entries && e.path == child && (!last ==> e.directory)
  {
    if listing.Ready? && Offers(listing, child, last) {
      var i :| 0 <= i < |listing.entries| && listing.entries[i].path == child && (!last ==> listing.entries[i].directory);
      assert listing.entries[i] in listing.entries;
    }
  }

  lemma FirstLeadsOn(read: Path -> Listing, dir: Path, components: Path)
    requires components != []
    ensures LeadsOn(read, dir, components, 0) <==> Offers(read(dir), dir + [components[0]], |components| == 1)
  {
    OffersMeans(read(dir), dir + [components[0]], |components| == 1);
    assert dir + components[..0] == dir && components[..1] == [components[0]];
  }

  lemma LaterLeadsOn(read: Path -> Listing, dir: Path, components: Path, k: nat)
    requires k + 1 < |components|
    ensures var child := dir + [components[0]];
      && LeadsOn(read, dir, components, k + 1) == LeadsOn(read, child, components[1..], k)
      && child + components[1..][..k] == dir + components[..k + 1]
  {
    var child, rest := dir + [components[0]], components[1..];
    assert child + rest[..k] == dir + components[..k + 1];
    assert child + rest[..k + 1] == dir + components[..k + 2];
  }

  /** The first directory on the way down that does not lead on, or the number of components. */
  ghost function Obstacle(read: Path -> Listing, dir: Path, components: Path): (k: nat)
    ensures k <= |components|
    ensures forall j :: 0 <= j < k ==> LeadsOn(read, dir, components, j)
    ensures k < |components| ==> !LeadsOn(read, dir, components, k)
  {
    ObstacleFrom(read, dir, components, 0)
  }

  ghost function ObstacleFrom(read: Path -> Listing, dir: Path, components: Path, i: nat): (k: nat)
    requires i <= |components|
    ensures i <= k <= |components|
    ensures forall j :: i <= j < k ==> LeadsOn(read, dir, components, j)
    ensures k < |components| ==> !LeadsOn(read, dir, components, k)
    decreases |components| - i
  {
    if i == |components| || !LeadsOn(read, dir, components, i) then i
    else ObstacleFrom(read, dir, components, i + 1)
  }

  /** A descent meets no obstacle and reads the chain of directories in order, or fails for the first
    * obstacle with its reason. */
  lemma {:induction false} DescendMeans(read: Path -> Listing, dir: Path, components: Path, k: nat)
    requires k <= |components| && (k < |components| ==> !LeadsOn(read, dir, components, k))
    requires forall j :: 0 <= j < k ==> LeadsOn(read, dir, components, j)
    ensures k == |components| ==>
      && Descend(read, dir, components).Found? && |Descend(read, dir, components).listings| == k
      && forall j :: 0 <= j < k ==>
           Descend(read, dir, components).listings[j] == (dir + components[..j], read(dir + components[..j]))
    ensures k < |components| ==> Descend(read, dir, components) == Refusal(read(dir + components[..k]))
    decreases |components|
  {
    if components != [] {
      var child, rest := dir + [components[0]], components[1..];
      FirstLeadsOn(read, dir, components);
      assert dir + components[..0] == dir;
      if k > 0 {
        assert LeadsOn(read, dir, components, 0);
        forall j | 0 <= j < |rest|
          ensures LeadsOn(read, child, rest, j) == LeadsOn(read, dir, components, j + 1)
          ensures child + rest[..j] == dir + components[..j + 1]
        {
          LaterLeadsOn(read, dir, components, j);
        }
        DescendMeans(read, child, rest, k - 1);
      }
    }
  }

  /** The lookup succeeds exactly when both paths resolve, the file lies in the workspace, and every
    * directory on the way can be read and offers the next component. Then it has read that chain. */
  lemma RevealSucceedsIff(read: Path -> Listing, root: Path, canonicalRoot: Canonical, canonicalTarget: Canonical)
    ensures var outcome := Reveal(read, root, canonicalRoot, canonicalTarget);
      && (outcome.Found? <==>
          && canonicalRoot.Resolved? && canonicalTarget.Resolved? && canonicalRoot.path <= canonicalTarget.path
          && var components := canonicalTarget.path[|canonicalRoot.path|..];
             forall k :: 0 <= k < |components| ==> LeadsOn(read, root, components, k))
      && (outcome.Found? ==>
          var components := canonicalTarget.path[|canonicalRoot.path|..];
          && |outcome.listings| == |components|
          && forall k :: 0 <= k < |components| ==>
               outcome.listings[k] == (root + components[..k], read(root + components[..k])))
  {
    if canonicalRoot.Resolved? && canonicalTarget.Resolved? && canonicalRoot.path <= canonicalTarget.path {
      var components := canonicalTarget.path[|canonicalRoot.path|..];
      DescendMeans(read, root, components, Obstacle(read, root, components));
    }
  }

  /** And otherwise says why: what did not resolve, that the file is outside, or what became of the
    * first directory that does not lead on. */
  lemma RevealSaysWhy(read: Path -> Listing, root: Path, canonicalRoot: Canonical, canonicalTarget: Canonical, k: nat)
    ensures var outcome := Reveal(read, root, canonicalRoot, canonicalTarget);
      && (canonicalRoot.Unresolved? ==> outcome == NotFound(canonicalRoot.message))
      && (canonicalRoot.Resolved? && canonicalTarget.Unresolved? ==> outcome == NotFound(canonicalTarget.message))
      && (canonicalRoot.Resolved? && canonicalTarget.Resolved? ==>
          if !(canonicalRoot.path <= canonicalTarget.path) then
            outcome == NotFound("The active file is outside this workspace.")
          else
            var components := canonicalTarget.path[|canonicalRoot.path|..];
            && k < |components| && !LeadsOn(read, root, components, k)
            && (forall j :: 0 <= j < k ==> LeadsOn(read, root, components, j)) ==>
                 outcome == NotFound(match read(root + components[..k])
                                     case Failed(message) => message
                                     case _ => "The file is no longer available in this workspace."))
  {
    if canonicalRoot.Resolved? && canonicalTarget.Resolved? && canonicalRoot.path <= canonicalTarget.path {
      var components := canonicalTarget.path[|canonicalRoot.path|..];
      if k < |components| && !LeadsOn(read, root, components, k)
         && (forall j :: 0 <= j < k ==> LeadsOn(read, root, components, j)) {
        DescendMeans(read, root, components, k);
      }
    }
  }

  /** What the application does with the listings it got back: expand and accept each in turn. */
  function OpenAll(s: State, generation: nat, listings: seq<(Path, Listing)>): State
    decreases |listings|
  {
    if listings == [] then s
    else
      var (path, listing) := listings[0];
      OpenAll(Accept(Expand(s, path), generation, path, listing), generation, listings[1..])
  }

  /** Accepting a listing for a directory leaves exactly that listing there and does not touch
    * anything that is not strictly below the directory. */
  lemma AcceptedListingStands(s: State, dir: Path, listing: Listing)
    requires IsDirectory(s, dir)
    ensures var t := Accept(s, s.generation, dir, listing);
      && t.root == s.root && t.generation == s.generation
      && dir in t.listings && t.listings[dir].listing == listing
      && (forall p :: !(dir < p) ==> (p in t.expanded <==> p in s.expanded))
      && (forall p :: !(dir <= p) && p in s.listings ==> p in t.listings && t.listings[p] == s.listings[p])
  {
    if listing.Ready? {
      DirSurvivesPrune(EnsureListed(s, dir), dir, listing.entries);
    }
  }

  lemma OpeningKeepsShown(s: State, t: State, root: Path, dir: Path, read: Listing)
    requires root <= dir && ShownUnder(s, root, dir) && read.Ready?
    requires dir in t.listings && t.listings[dir].listing == read && dir in t.expanded
    requires forall p :: !(dir <= p) && p in s.expanded ==> p in t.expanded
    requires forall p :: !(dir <= p) && p in s.listings ==> p in t.listings && t.listings[p] == s.listings[p]
    ensures forall child :: dir < child && |child| == |dir| + 1 && HasEntry(read.entries, child, false)
                        ==> ShownUnder(t, root, child)
  {
    forall child, k | dir < child && |child| == |dir| + 1 && HasEntry(read.entries, child, false) && |root| <= k < |child|
      ensures OpensToward(t, child[..k], child)
    {
      if k < |dir| {
        assert child[..k] == dir[..k] && OpensToward(s, dir[..k], dir);
        assert ChildToward(child[..k], child) == ChildToward(dir[..k], dir);
      } else {
        assert child[..k] == dir && ChildToward(dir, child) == child;
      }
    }
  }

  /** Opening what was read on the way to a file brings the file into view, from any consistent tree. */
  lemma {:induction false} OpeningReveals(s: State, read: Path -> Listing, root: Path, dir: Path, components: Path)
    requires Inv(s) && s.root == Some(root) && ReadsDirectories(read)
    requires ShownUnder(s, root, dir) && (components != [] ==> IsDirectory(s, dir))
    requires Descend(read, dir, components).Found?
    ensures var outcome := Descend(read, dir, components);
      var t := OpenAll(s, s.generation, outcome.listings);
      Inv(t) && t.root == Some(root) && ShownUnder(t, root, outcome.target)
    decreases |components|
  {
    if components != [] {
      var child, listing := dir + [components[0]], read(dir);
      var open := Expand(s, dir);
      ExpandKeepsInv(s, dir);
      var t := Accept(open, s.generation, dir, listing);
      AcceptKeepsInv(open, s.generation, dir, listing);
      AcceptedListingStands(open, dir, listing);
      var rest := Descend(read, child, components[1..]);
      assert Descend(read, dir, components).listings == [(dir, listing)] + rest.listings;
      assert ([(dir, listing)] + rest.listings)[1..] == rest.listings;
      OpeningKeepsShown(s, t, root, dir, listing);
      EntryOfReady(listing.entries, child);
      assert child[..|child| - 1] == dir;
      OpeningReveals(t, read, root, child, components[1..]);
    }
  }

  lemma EntryOfReady(entries: seq<Entry>, path: Path)
    ensures HasEntry(entries, path, true) ==> HasEntry(entries, path, false)
  {
  }

  /** Reveal works: whenever the lookup succeeds, expanding and accepting its listings in order puts
    * the file among the visible rows, and the tree stays free of ghosts. */
  lemma RevealShowsTarget(s: State, read: Path -> Listing, root: Path, canonicalRoot: Canonical, canonicalTarget: Canonical)
    requires Inv(s) && s.root == Some(root) && ReadsDirectories(read)
    requires Reveal(read, root, canonicalRoot, canonicalTarget).Found?
    ensures var outcome := Reveal(read, root, canonicalRoot, canonicalTarget);
      var t := OpenAll(s, s.generation, outcome.listings);
      && outcome.target == root + canonicalTarget.path[|canonicalRoot.path|..]
      && Inv(t) && outcome.target in VisiblePaths(t) && Inv(Select(t, outcome.target))
  {
    var components := canonicalTarget.path[|canonicalRoot.path|..];
    DescendArrives(read, root, components);
    OpeningReveals(s, read, root, root, components);
    var outcome := Descend(read, root, components);
    var t := OpenAll(s, s.generation, outcome.listings);
    VisibleRows(t);
    RowIsSelectable(t, outcome.target);
    SelectKeepsInv(t, outcome.target);
  }
}
