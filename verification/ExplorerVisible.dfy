/** The rows the explorer shows: which paths they are, in what order, and that
  * `directory_visible` agrees with them. */
module ExplorerVisible {
  import opened Options
  import opened ExplorerState
  import opened ExplorerInvariant

  ghost function MaxLength(paths: set<Path>): (m: nat)
    ensures forall p :: p in paths ==> |p| <= m
  {
    if paths == {} then 0
    else
      var p :| p in paths;
      var rest := MaxLength(paths - {p});
      if |p| > rest then |p| else rest
  }

  function RowsFrom(s: State, path: Path): seq<Path>
    requires Shaped(s)
    decreases MaxLength(s.expanded) + 1 - |path|, 0
  {
    if path in s.expanded && ReadyAt(s, path) then
      [path] + RowsOfEntries(s, path, EntriesAt(s, path))
    else
      [path]
  }

  function RowsOfEntries(s: State, dir: Path, entries: seq<Entry>): seq<Path>
    requires Shaped(s) && dir in s.expanded && ShapedAt(dir, entries)
    decreases MaxLength(s.expanded) - |dir|, |entries| + 1
  {
    if entries == [] then []
    else RowsFrom(s, entries[0].path) + RowsOfEntries(s, dir, entries[1..])
  }

  lemma RowsOfNextEntry(s: State, dir: Path, entries: seq<Entry>, i: nat)
    requires Shaped(s) && dir in s.expanded && i < |entries| && ShapedAt(dir, entries[i..])
    ensures ShapedAt(dir, entries[i + 1..])
    ensures RowsOfEntries(s, dir, entries[i..]) == RowsFrom(s, entries[i].path) + RowsOfEntries(s, dir, entries[i + 1..])
  {
    assert entries[i..][0] == entries[i] && entries[i..][1..] == entries[i + 1..];
  }

  function VisiblePaths(s: State): seq<Path>
    requires Shaped(s)
  {
    if s.root.Some? then RowsFrom(s, s.root.value) else []
  }

  // ----- which paths are rows -----

  /** `dir` is open and its listing offers the next component of `x`. */
  ghost predicate OpensToward(s: State, dir: Path, x: Path)
    requires dir < x
  {
    dir in s.expanded && ReadyAt(s, dir) && HasEntry(EntriesAt(s, dir), ChildToward(dir, x), false)
  }

  /** Every directory from `top` down to the parent of `x` is open and leads on to `x`. */
  ghost predicate ShownUnder(s: State, top: Path, x: Path) {
    top <= x && forall k :: |top| <= k < |x| ==> OpensToward(s, x[..k], x)
  }

  lemma ShownThroughChild(s: State, top: Path, child: Path, x: Path)
    requires top < child && |child| == |top| + 1 && child <= x
    ensures ShownUnder(s, top, x) <==> OpensToward(s, top, x) && ShownUnder(s, child, x)
  {
    assert x[..|top|] == top;
  }

  lemma {:induction false} RowsAreShown(s: State, path: Path, x: Path)
    requires Shaped(s)
    ensures x in RowsFrom(s, path) <==> ShownUnder(s, path, x)
    decreases MaxLength(s.expanded) + 1 - |path|, 0
  {
    if path in s.expanded && ReadyAt(s, path) {
      RowsOfEntriesAreShown(s, path, EntriesAt(s, path), x);
      assert x in RowsFrom(s, path) <==> x == path || x in RowsOfEntries(s, path, EntriesAt(s, path));
      if path < x {
        ShownThroughChild(s, path, ChildToward(path, x), x);
      }
    } else if path < x {
      ShownThroughChild(s, path, ChildToward(path, x), x);
    } else {
      assert x in RowsFrom(s, path) <==> x == path;
    }
  }

  lemma {:induction false} RowsOfEntriesAreShown(s: State, dir: Path, entries: seq<Entry>, x: Path)
    requires Shaped(s) && dir in s.expanded && ShapedAt(dir, entries)
    ensures x in RowsOfEntries(s, dir, entries)
       <==> dir < x && HasEntry(entries, ChildToward(dir, x), false) && ShownUnder(s, ChildToward(dir, x), x)
    decreases MaxLength(s.expanded) - |dir|, |entries| + 1
  {
    if entries != [] {
      var first := entries[0].path;
      RowsAreShown(s, first, x);
      RowsOfEntriesAreShown(s, dir, entries[1..], x);
      if dir < x {
        var child := ChildToward(dir, x);
        assert first <= x ==> first == child;
        HasEntryHeadOrTail(entries, child);
      }
    }
  }

  lemma HasEntryHeadOrTail(entries: seq<Entry>, path: Path)
    requires entries != []
    ensures HasEntry(entries, path, false) <==> entries[0].path == path || HasEntry(entries[1..], path, false)
  {
    if i :| 0 < i < |entries| && entries[i].path == path {
      assert entries[1..][i - 1].path == path;
    }
  }

  // ----- the order of the rows -----

  ghost predicate NoDuplicates(rows: seq<Path>) {
    forall i, j :: 0 <= i < j < |rows| ==> rows[i] != rows[j]
  }

  /** A directory precedes everything below it, and the rows below it stand together. */
  ghost predicate Preorder(rows: seq<Path>) {
    && (forall i, j :: 0 <= i < |rows| && 0 <= j < |rows| && rows[i] < rows[j] ==> i < j)
    && (forall i, j, k :: 0 <= i < j < k < |rows| && rows[i] < rows[k] ==> rows[i] < rows[j])
  }

  ghost predicate AllBelow(dir: Path, rows: seq<Path>) {
    forall i :: 0 <= i < |rows| ==> dir < rows[i]
  }

  /** A directory before rows that are all below it. */
  lemma DirectoryFirst(dir: Path, below: seq<Path>)
    requires NoDuplicates(below) && Preorder(below) && AllBelow(dir, below)
    ensures NoDuplicates([dir] + below) && Preorder([dir] + below)
    ensures forall i :: 0 <= i < |[dir] + below| ==> dir <= ([dir] + below)[i]
  {
    var rows := [dir] + below;
    forall i | 0 < i < |rows| ensures rows[i] == below[i - 1] && dir < rows[i] {
      assert dir < below[i - 1];
    }
    DirectoryBeforeAll(dir, below, rows);
  }

  lemma DirectoryBeforeAll(dir: Path, below: seq<Path>, rows: seq<Path>)
    requires NoDuplicates(below) && Preorder(below) && |rows| == |below| + 1 && rows[0] == dir
    requires forall i :: 0 < i < |rows| ==> rows[i] == below[i - 1] && dir < rows[i]
    ensures NoDuplicates(rows) && Preorder(rows)
  {
    forall i, j | 0 <= i < |rows| && 0 <= j < |rows| && rows[i] < rows[j] ensures i < j {
      assert i > 0 && j > 0 ==> below[i - 1] < below[j - 1];
    }
    forall i, j, k | 0 <= i < j < k < |rows| && rows[i] < rows[k] ensures rows[i] < rows[j] {
      assert i > 0 ==> below[i - 1] < below[k - 1];
    }
  }

  lemma {:induction false} RowsInPreorder(s: State, path: Path)
    requires Shaped(s)
    ensures RowsFrom(s, path)[0] == path
    ensures forall i :: 0 <= i < |RowsFrom(s, path)| ==> path <= RowsFrom(s, path)[i]
    ensures NoDuplicates(RowsFrom(s, path)) && Preorder(RowsFrom(s, path))
    decreases MaxLength(s.expanded) + 1 - |path|, 0
  {
    if path in s.expanded && ReadyAt(s, path) {
      RowsOfEntriesInPreorder(s, path, EntriesAt(s, path));
      DirectoryFirst(path, RowsOfEntries(s, path, EntriesAt(s, path)));
    }
  }

  lemma {:induction false} RowsOfEntriesInPreorder(s: State, dir: Path, entries: seq<Entry>)
    requires Shaped(s) && dir in s.expanded && ShapedAt(dir, entries)
    ensures var rows := RowsOfEntries(s, dir, entries);
      && (forall i :: 0 <= i < |rows| ==> dir < rows[i] && HasEntry(entries, ChildToward(dir, rows[i]), false))
      && NoDuplicates(rows) && Preorder(rows)
    decreases MaxLength(s.expanded) - |dir|, |entries| + 1
  {
    if entries != [] {
      var first, rest := entries[0].path, entries[1..];
      var head, tail := RowsFrom(s, first), RowsOfEntries(s, dir, rest);
      RowsInPreorder(s, first);
      RowsOfEntriesInPreorder(s, dir, rest);
      forall i | 0 <= i < |tail|
        ensures !(first <= tail[i]) && HasEntry(entries, ChildToward(dir, tail[i]), false)
      {
        HasEntryHeadOrTail(entries, ChildToward(dir, tail[i]));
        OtherEntry(dir, entries, tail[i]);
      }
      forall i | 0 <= i < |head|
        ensures dir < head[i] && HasEntry(entries, ChildToward(dir, head[i]), false)
      {
        assert ChildToward(dir, head[i]) == entries[0].path;
      }
      SplitByChild(dir, first, head, tail);
    }
  }

  /** A path through one of the later entries is not below the first. */
  lemma OtherEntry(dir: Path, entries: seq<Entry>, x: Path)
    requires ShapedAt(dir, entries) && entries != []
    requires dir < x && HasEntry(entries[1..], ChildToward(dir, x), false)
    ensures !(entries[0].path <= x)
  {
    var j :| 0 <= j < |entries[1..]| && entries[1..][j].path == ChildToward(dir, x);
    assert entries[1..][j] == entries[j + 1];
  }

  lemma UnrelatedUnderDifferentChildren(dir: Path, child: Path, x: Path, y: Path)
    requires dir < child && |child| == |dir| + 1
    requires child <= x && dir < y && !(child <= y)
    ensures x != y && !(x < y) && !(y < x)
  {
  }

  /** Rows under one child followed by rows under other children stay duplicate-free and in preorder. */
  lemma SplitByChild(dir: Path, child: Path, head: seq<Path>, tail: seq<Path>)
    requires dir < child && |child| == |dir| + 1
    requires forall i :: 0 <= i < |head| ==> child <= head[i]
    requires forall i :: 0 <= i < |tail| ==> dir < tail[i] && !(child <= tail[i])
    requires NoDuplicates(head) && Preorder(head) && NoDuplicates(tail) && Preorder(tail)
    ensures NoDuplicates(head + tail) && Preorder(head + tail)
  {
    forall i, j | 0 <= i < |head| && 0 <= j < |tail|
      ensures head[i] != tail[j] && !(head[i] < tail[j]) && !(tail[j] < head[i])
    {
      UnrelatedUnderDifferentChildren(dir, child, head[i], tail[j]);
    }
  }

  /** The rows are the root followed, in preorder and without repetition, by exactly the paths
    * every one of whose ancestors is open and read. */
  lemma VisibleRows(s: State)
    requires Shaped(s)
    ensures var rows := VisiblePaths(s);
      && (s.root.None? ==> rows == [])
      && (s.root.Some? ==> rows != [] && rows[0] == s.root.value)
      && NoDuplicates(rows) && Preorder(rows)
      && (forall x :: x in rows <==> s.root.Some? && ShownUnder(s, s.root.value, x))
  {
    if s.root.Some? {
      RowsInPreorder(s, s.root.value);
      forall x ensures x in VisiblePaths(s) <==> ShownUnder(s, s.root.value, x) {
        RowsAreShown(s, s.root.value, x);
      }
    }
  }

  /** The rows of the first entry are all below it, and those of the later entries are not. */
  lemma RowsOfFirstEntry(s: State, dir: Path, entries: seq<Entry>)
    requires Shaped(s) && dir in s.expanded && ShapedAt(dir, entries) && entries != []
    ensures forall x :: x in RowsFrom(s, entries[0].path) ==> entries[0].path <= x
    ensures forall x :: x in RowsOfEntries(s, dir, entries[1..]) ==> dir < x && !(entries[0].path <= x)
  {
    RowsInPreorder(s, entries[0].path);
    forall x | x in RowsOfEntries(s, dir, entries[1..]) ensures dir < x && !(entries[0].path <= x) {
      RowsOfEntriesAreShown(s, dir, entries[1..], x);
      OtherEntry(dir, entries, x);
    }
  }

  /** Siblings, with everything below them, keep the order of their listing. */
  lemma {:induction false} SiblingsKeepOrder(s: State, dir: Path, entries: seq<Entry>, rows: seq<Path>,
                                             a: nat, b: nat, i: nat, j: nat)
    requires Shaped(s) && dir in s.expanded && ShapedAt(dir, entries) && rows == RowsOfEntries(s, dir, entries)
    requires a < b < |entries| && i < |rows| && j < |rows|
    requires entries[a].path <= rows[i] && entries[b].path <= rows[j]
    ensures i < j
    decreases b
  {
    RowsOfFirstEntry(s, dir, entries);
    var head, tail := RowsFrom(s, entries[0].path), RowsOfEntries(s, dir, entries[1..]);
    assert rows == head + tail;
    LaterEntryNotInHead(dir, entries, head, b, rows, j);
    if i >= |head| {
      assert rows[i] == tail[i - |head|] && rows[i] in tail;
      SiblingsKeepOrder(s, dir, entries[1..], tail, a - 1, b - 1, i - |head|, j - |head|);
    }
  }

  lemma LaterEntryNotInHead(dir: Path, entries: seq<Entry>, head: seq<Path>, b: nat, rows: seq<Path>, j: nat)
    requires ShapedAt(dir, entries) && 0 < b < |entries| && head <= rows && j < |rows|
    requires forall x :: x in head ==> entries[0].path <= x
    requires entries[b].path <= rows[j]
    ensures j >= |head|
  {
    assert entries[0].path != entries[b].path;
    forall k | 0 <= k < |head| ensures entries[0].path <= rows[k] {
      assert rows[k] == head[k] && head[k] in head;
    }
  }

  // ----- directory_visible -----

  /** Walks up from `path`, stopping at the root, and asks each directory on the way to be expanded. */
  predicate ExpandedUpToRoot(s: State, path: Path) {
    s.root == Some(path) || (path in s.expanded && (path == [] || ExpandedUpToRoot(s, path[..|path| - 1])))
  }

  predicate DirectoryVisible(s: State, path: Path) {
    || s.root == Some(path)
    || (s.root.Some? && s.root.value in s.expanded && ExpandedUpToRoot(s, path))
  }

  /** Of the path and its ancestors, those of at least `from` and fewer than `upto` components are expanded. */
  ghost predicate ExpandedAlong(s: State, path: Path, from: nat, upto: nat)
    requires upto <= |path| + 1
  {
    forall k :: from <= k < upto ==> path[..k] in s.expanded
  }

  lemma {:induction false} ExpandedUpToRootMeans(s: State, path: Path)
    requires s.root.Some? && s.root.value <= path
    ensures ExpandedUpToRoot(s, path) <==> ExpandedAlong(s, path, |s.root.value| + 1, |path| + 1)
  {
    var root := s.root.value;
    if path != root {
      var parent := path[..|path| - 1];
      ExpandedUpToRootMeans(s, parent);
      assert path[..|path|] == path;
      assert forall k :: 0 <= k <= |parent| ==> parent[..k] == path[..k];
    }
  }

  /** Where every ancestor of a remembered path has been read, ghost-freedom leaves only expansion to ask. */
  lemma ShownMeansExpanded(s: State, path: Path)
    requires NoGhosts(s) && path in Remembered(s)
    requires s.root.Some? && s.root.value <= path
    requires forall k :: |s.root.value| <= k < |path| ==> ReadyAt(s, path[..k])
    ensures ShownUnder(s, s.root.value, path) <==> ExpandedAlong(s, path, |s.root.value|, |path|)
  {
    forall k | |s.root.value| <= k < |path|
      ensures OpensToward(s, path[..k], path) <==> path[..k] in s.expanded
    {
      assert Admits(s, path[..k], EntriesAt(s, path[..k]), path);
    }
  }

  lemma ExpandedAlongEnds(s: State, path: Path, from: nat)
    requires from < |path|
    ensures ExpandedAlong(s, path, from, |path| + 1) <==> ExpandedAlong(s, path, from, |path|) && path in s.expanded
    ensures ExpandedAlong(s, path, from, |path| + 1)
       <==> path[..from] in s.expanded && ExpandedAlong(s, path, from + 1, |path| + 1)
  {
    assert path[..|path|] == path;
  }

  /** For a listed directory all of whose ancestors have been read, being visible is the same as
    * being a row that is the root or expanded. */
  lemma DirectoryVisibleAgrees(s: State, path: Path)
    requires Inv(s) && path in s.listings
    requires s.root.Some? && forall k :: |s.root.value| <= k < |path| ==> ReadyAt(s, path[..k])
    ensures DirectoryVisible(s, path) <==> path in VisiblePaths(s) && (s.root == Some(path) || path in s.expanded)
  {
    var root := s.root.value;
    assert path in Remembered(s) && root <= path;
    assert path in VisiblePaths(s) <==> ShownUnder(s, root, path) by {
      VisibleRows(s);
    }
    ShownMeansExpanded(s, path);
    ExpandedUpToRootMeans(s, path);
    if path != root {
      ExpandedAlongEnds(s, path, |root|);
      assert path[..|root|] == root;
    }
  }

  /** The directories a background refresh re-reads, each with the listing object it starts from. */
  function RefreshTargets(s: State): map<Path, Shared> {
    map p | p in s.listings && !s.listings[p].listing.Loading? && DirectoryVisible(s, p) :: s.listings[p]
  }

  /** Where the tree has been read down to a directory, a refresh re-reads it exactly when its listing
    * is not still loading and it is a row that is the root or expanded. */
  lemma TargetsAreOpenRows(s: State, path: Path)
    requires Inv(s) && path in s.listings
    requires s.root.Some? && forall k :: |s.root.value| <= k < |path| ==> ReadyAt(s, path[..k])
    ensures path in RefreshTargets(s)
       <==> !s.listings[path].listing.Loading? && path in VisiblePaths(s) && (s.root == Some(path) || path in s.expanded)
  {
    DirectoryVisibleAgrees(s, path);
  }

  /** Any row can be selected. */
  lemma RowIsSelectable(s: State, x: Path)
    requires Inv(s) && x in VisiblePaths(s)
    ensures Selectable(s, x)
  {
    VisibleRows(s);
    var root := s.root.value;
    forall p | ReadyAt(s, p) && p < x
      ensures HasEntry(EntriesAt(s, p), ChildToward(p, x), |x| > |p| + 1)
    {
      assert p in Remembered(s);
      assert p == x[..|p|];
      assert OpensToward(s, p, x);
      if |x| > |p| + 1 {
        var parent := x[..|x| - 1];
        assert OpensToward(s, parent, x);
        assert p < parent && parent in Remembered(s);
        assert Admits(s, p, EntriesAt(s, p), parent);
        assert ChildToward(p, parent) == ChildToward(p, x);
      }
    }
  }
}
