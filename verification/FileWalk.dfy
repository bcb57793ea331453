/** Enumerating the files below a workspace root, iteratively and within bounds. */
module FileWalk {
  import opened Ordering

  /** A directory entry as the file system reports it. A folder may be unreadable, and a
    * link is only told apart by whether it leads to a file. */
  datatype Kind =
    | PlainFile
    | Folder(readable: bool, contents: seq<Node>)
    | LinkToFile
    | LinkElsewhere
    | Special
    | Untyped

  datatype Node = Node(name: Bytes, kind: Kind)

  const SLASH: Byte := 47
  const BACKSLASH: Byte := 92
  const DOT: Byte := 46

  /** Every backslash becomes a forward slash. */
  function NormalizeSeparators(s: Bytes): (r: Bytes)
    ensures |r| == |s| && forall i :: 0 <= i < |s| ==> r[i] == if s[i] == BACKSLASH then SLASH else s[i]
  {
    seq(|s|, i requires 0 <= i < |s| => if s[i] == BACKSLASH then SLASH else s[i])
  }

  predicate IsSeparator(b: Byte) {
    b == SLASH || b == BACKSLASH
  }

  /** Names with separators between them. */
  function JoinedBy(names: seq<Bytes>, separators: seq<Byte>): Bytes
    requires |names| == |separators| + 1
  {
    if separators == [] then names[0] else names[0] + [separators[0]] + JoinedBy(names[1..], separators[1..])
  }

  /** However a path is written, with slashes, backslashes or both, it becomes the same names with slashes. */
  lemma {:induction false} NormalizedIsSlashed(names: seq<Bytes>, separators: seq<Byte>)
    requires |names| == |separators| + 1
    requires forall i :: 0 <= i < |names| ==> SLASH !in names[i] && BACKSLASH !in names[i]
    requires forall i :: 0 <= i < |separators| ==> IsSeparator(separators[i])
    ensures NormalizeSeparators(JoinedBy(names, separators)) == JoinedBy(names, seq(|separators|, _ => SLASH))
    decreases |separators|
  {
    assert NormalizeSeparators(names[0]) == names[0];
    if separators != [] {
      var rest := JoinedBy(names[1..], separators[1..]);
      NormalizedIsSlashed(names[1..], separators[1..]);
      assert NormalizeSeparators(names[0] + [separators[0]] + rest)
          == NormalizeSeparators(names[0]) + [SLASH] + NormalizeSeparators(rest);
      assert seq(|separators|, _ => SLASH)[1..] == seq(|separators| - 1, _ => SLASH);
    }
  }

  function Ascii(s: string): Bytes
    requires forall i :: 0 <= i < |s| ==> s[i] as int < 128
  {
    seq(|s|, i requires 0 <= i < |s| => s[i] as int)
  }

  const SKIPPED_DIRS: seq<Bytes> := [
    Ascii(".git"), Ascii("node_modules"), Ascii("target"), Ascii("dist"), Ascii("build"),
    Ascii(".venv"), Ascii("__pycache__"), Ascii(".next"), Ascii("vendor")
  ]

  predicate IsSkippedDir(name: Bytes) {
    (name != [] && name[0] == DOT) || name in SKIPPED_DIRS
  }

  // ----- entries -----

  datatype FileEntry = FileEntry(rel: Bytes, nameStart: nat)

  /** One past the last slash, or 0. */
  function NameStart(rel: Bytes): (start: nat)
    ensures start <= |rel| && (start == 0 || rel[start - 1] == SLASH)
    ensures SLASH !in rel[start..]
  {
    if rel == [] then 0
    else if rel[|rel| - 1] == SLASH then |rel|
    else
      var start := NameStart(rel[..|rel| - 1]);
      assert rel[start..] == rel[..|rel| - 1][start..] + [rel[|rel| - 1]];
      start
  }

  function NewEntry(rel: Bytes): FileEntry {
    FileEntry(rel, NameStart(rel))
  }

  function Name(entry: FileEntry): Bytes
    requires entry.nameStart <= |entry.rel|
  {
    entry.rel[entry.nameStart..]
  }

  ghost predicate WellFormed(entry: FileEntry) {
    entry == NewEntry(entry.rel)
  }

  /** A well-formed entry's name is the last component of its path. */
  lemma NameIsLastComponent(entry: FileEntry)
    requires WellFormed(entry)
    ensures entry.nameStart <= |entry.rel| && SLASH !in Name(entry)
    ensures entry.nameStart == 0 || entry.rel[entry.nameStart - 1] == SLASH
  {
  }

  function Rels(entries: seq<FileEntry>): (rels: seq<Bytes>)
    ensures |rels| == |entries| && forall i :: 0 <= i < |entries| ==> rels[i] == entries[i].rel
  {
    seq(|entries|, i requires 0 <= i < |entries| => entries[i].rel)
  }

  // ----- what there is to find, by recursion over the tree -----

  predicate Entered(name: Bytes) {
    name != [] && !IsSkippedDir(name)
  }

  function Under(prefix: Bytes, name: Bytes): Bytes {
    prefix + name + [SLASH]
  }

  /** All files, and links to files, not below a skipped folder. */
  ghost function AllFiles(prefix: Bytes, nodes: seq<Node>): multiset<Bytes>
    decreases nodes
  {
    if nodes == [] then multiset{}
    else
      var name := NormalizeSeparators(nodes[0].name);
      var here := match nodes[0].kind
        case PlainFile => if name == [] then multiset{} else multiset{prefix + name}
        case LinkToFile => if name == [] then multiset{} else multiset{prefix + name}
        case Folder(readable, contents) =>
          if Entered(name) && readable then AllFiles(Under(prefix, name), contents) else multiset{}
        case _ => multiset{};
      here + AllFiles(prefix, nodes[1..])
  }

  /** There is a file, or a link to one, at this path of names; the folders on the way can be read and
    * are not among those that are skipped. */
  ghost predicate HasFile(nodes: seq<Node>, names: seq<Bytes>)
    requires names != []
    decreases |names|
  {
    exists i :: 0 <= i < |nodes| && NodeHasFile(nodes[i], names)
  }

  ghost predicate NodeHasFile(node: Node, names: seq<Bytes>)
    requires names != []
    decreases |names|, 0
  {
    && NormalizeSeparators(node.name) == names[0] && names[0] != []
    && (if |names| == 1 then node.kind.PlainFile? || node.kind.LinkToFile?
        else
          && names[0][0] != DOT && names[0] !in SKIPPED_DIRS
          && node.kind.Folder? && node.kind.readable && HasFile(node.kind.contents, names[1..]))
  }

  /** The names with slashes between them. */
  function Slashed(names: seq<Bytes>): Bytes
    requires names != []
  {
    if |names| == 1 then names[0] else names[0] + [SLASH] + Slashed(names[1..])
  }

  ghost predicate IsPathOf(names: seq<Bytes>, nodes: seq<Node>, prefix: Bytes, rel: Bytes) {
    names != [] && HasFile(nodes, names) && rel == prefix + Slashed(names)
  }

  /** The files of the tree are those at paths of names. */
  ghost predicate AtSomePath(nodes: seq<Node>, prefix: Bytes, rel: Bytes) {
    exists names :: IsPathOf(names, nodes, prefix, rel)
  }

  ghost predicate AtNode(node: Node, prefix: Bytes, rel: Bytes) {
    exists names :: names != [] && NodeHasFile(node, names) && rel == prefix + Slashed(names)
  }

  lemma PathsOfNext(nodes: seq<Node>, prefix: Bytes, rel: Bytes)
    requires nodes != []
    ensures AtSomePath(nodes, prefix, rel) <==> AtNode(nodes[0], prefix, rel) || AtSomePath(nodes[1..], prefix, rel)
  {
    forall names: seq<Bytes> | names != []
      ensures HasFile(nodes, names) <==> NodeHasFile(nodes[0], names) || HasFile(nodes[1..], names)
    {
      HasFileOfNext(nodes, names);
    }
    if names :| names != [] && NodeHasFile(nodes[0], names) && rel == prefix + Slashed(names) {
      assert IsPathOf(names, nodes, prefix, rel);
    }
    if names :| IsPathOf(names, nodes[1..], prefix, rel) {
      assert IsPathOf(names, nodes, prefix, rel);
    }
    if names :| IsPathOf(names, nodes, prefix, rel) {
      assert NodeHasFile(nodes[0], names) || IsPathOf(names, nodes[1..], prefix, rel);
    }
  }

  lemma HasFileOfNext(nodes: seq<Node>, names: seq<Bytes>)
    requires nodes != [] && names != []
    ensures HasFile(nodes, names) <==> NodeHasFile(nodes[0], names) || HasFile(nodes[1..], names)
  {
    if i :| 0 <= i < |nodes| && NodeHasFile(nodes[i], names) {
      assert i > 0 ==> nodes[1..][i - 1] == nodes[i];
    }
    if i :| 0 <= i < |nodes[1..]| && NodeHasFile(nodes[1..][i], names) {
      assert nodes[i + 1] == nodes[1..][i];
    }
  }

  /** A file is at its name, and what is in a folder at the folder's name and the path from there. */
  lemma PathsAtNode(node: Node, prefix: Bytes, rel: Bytes)
    ensures var name := NormalizeSeparators(node.name);
      AtNode(node, prefix, rel) <==>
        && name != []
        && match node.kind
           case PlainFile => rel == prefix + name
           case LinkToFile => rel == prefix + name
           case Folder(readable, contents) =>
             readable && !IsSkippedDir(name) && AtSomePath(contents, Under(prefix, name), rel)
           case _ => false
  {
    var name := NormalizeSeparators(node.name);
    if names :| names != [] && NodeHasFile(node, names) && rel == prefix + Slashed(names) {
      if |names| > 1 {
        assert prefix + (name + [SLASH] + Slashed(names[1..])) == Under(prefix, name) + Slashed(names[1..]);
        assert IsPathOf(names[1..], node.kind.contents, Under(prefix, name), rel);
      }
    }
    if name != [] && (node.kind.PlainFile? || node.kind.LinkToFile?) && rel == prefix + name {
      assert NodeHasFile(node, [name]) && Slashed([name]) == name;
    }
    if name != [] && node.kind.Folder? && node.kind.readable && !IsSkippedDir(name) {
      if names :| IsPathOf(names, node.kind.contents, Under(prefix, name), rel) {
        var all := [name] + names;
        assert all[1..] == names && Slashed(all) == name + [SLASH] + Slashed(names);
        assert prefix + (name + [SLASH] + Slashed(names)) == Under(prefix, name) + Slashed(names);
        assert NodeHasFile(node, all);
      }
    }
  }

  /** What there is to find: exactly the files and links to files at paths of names. */
  lemma {:induction false} AllFilesAreAtPaths(prefix: Bytes, nodes: seq<Node>, rel: Bytes)
    ensures rel in AllFiles(prefix, nodes) <==> AtSomePath(nodes, prefix, rel)
    decreases nodes
  {
    if nodes != [] {
      PathsOfNext(nodes, prefix, rel);
      PathsAtNode(nodes[0], prefix, rel);
      AllFilesAreAtPaths(prefix, nodes[1..], rel);
      if nodes[0].kind.Folder? {
        AllFilesAreAtPaths(Under(prefix, NormalizeSeparators(nodes[0].name)), nodes[0].kind.contents, rel);
      }
    }
  }

  /** The same, entering folders only while their depth stays below the limit. */
  ghost function FilesWithin(prefix: Bytes, nodes: seq<Node>, depth: nat, maxDepth: nat): multiset<Bytes>
    decreases nodes
  {
    if nodes == [] then multiset{} else FilesAt(prefix, nodes[0], depth, maxDepth) + FilesWithin(prefix, nodes[1..], depth, maxDepth)
  }

  ghost function FilesAt(prefix: Bytes, node: Node, depth: nat, maxDepth: nat): multiset<Bytes>
    decreases node
  {
    var name := NormalizeSeparators(node.name);
    match node.kind
    case PlainFile => if name == [] then multiset{} else multiset{prefix + name}
    case LinkToFile => if name == [] then multiset{} else multiset{prefix + name}
    case Folder(readable, contents) =>
      if Entered(name) && depth + 1 < maxDepth && readable then
        FilesWithin(Under(prefix, name), contents, depth + 1, maxDepth)
      else multiset{}
    case _ => multiset{}
  }

  /** Whether some folder is left unentered only because it is too deep. */
  ghost predicate Declines(nodes: seq<Node>, depth: nat, maxDepth: nat)
    decreases nodes
  {
    nodes != [] && (DeclinesAt(nodes[0], depth, maxDepth) || Declines(nodes[1..], depth, maxDepth))
  }

  ghost predicate DeclinesAt(node: Node, depth: nat, maxDepth: nat)
    decreases node
  {
    node.kind.Folder? && Entered(NormalizeSeparators(node.name))
    && (depth + 1 >= maxDepth || (node.kind.readable && Declines(node.kind.contents, depth + 1, maxDepth)))
  }

  /** Where nothing is declined, the depth limit loses nothing. */
  lemma {:induction false} NothingDeclinedNothingLost(prefix: Bytes, nodes: seq<Node>, depth: nat, maxDepth: nat)
    requires !Declines(nodes, depth, maxDepth)
    ensures FilesWithin(prefix, nodes, depth, maxDepth) == AllFiles(prefix, nodes)
    decreases nodes
  {
    if nodes != [] {
      NothingDeclinedNothingLost(prefix, nodes[1..], depth, maxDepth);
      var name := NormalizeSeparators(nodes[0].name);
      if nodes[0].kind.Folder? && Entered(name) && nodes[0].kind.readable {
        NothingDeclinedNothingLost(Under(prefix, name), nodes[0].kind.contents, depth + 1, maxDepth);
      }
    }
  }

  // ----- the walk -----

  datatype Pending = Pending(readable: bool, contents: seq<Node>, prefix: Bytes, depth: nat)

  function PendingNodes(p: Pending): seq<Node> {
    if p.readable then p.contents else []
  }

  ghost function StackFiles(stack: seq<Pending>, maxDepth: nat): multiset<Bytes> {
    if stack == [] then multiset{}
    else
      var top := stack[|stack| - 1];
      StackFiles(stack[..|stack| - 1], maxDepth) + FilesWithin(top.prefix, PendingNodes(top), top.depth, maxDepth)
  }

  ghost predicate StackDeclines(stack: seq<Pending>, maxDepth: nat) {
    stack != [] && (var top := stack[|stack| - 1];
      StackDeclines(stack[..|stack| - 1], maxDepth) || Declines(PendingNodes(top), top.depth, maxDepth))
  }

  ghost function Weight(nodes: seq<Node>): nat
    decreases nodes
  {
    if nodes == [] then 0 else NodeWeight(nodes[0]) + Weight(nodes[1..])
  }

  ghost function NodeWeight(node: Node): nat
    decreases node
  {
    match node.kind
    case Folder(_, contents) => 1 + Weight(contents)
    case _ => 0
  }

  ghost function StackWeight(stack: seq<Pending>): nat {
    if stack == [] then 0
    else StackWeight(stack[..|stack| - 1]) + 1 + Weight(PendingNodes(stack[|stack| - 1]))
  }

  ghost predicate LeftDeclines(stack: seq<Pending>, dir: Pending, rest: seq<Node>, maxDepth: nat) {
    StackDeclines(stack, maxDepth) || Declines(rest, dir.depth, maxDepth)
  }

  lemma PushedFolder(stack: seq<Pending>, child: Pending, maxDepth: nat)
    ensures var pushed := stack + [child];
      && StackFiles(pushed, maxDepth) == StackFiles(stack, maxDepth) + FilesWithin(child.prefix, PendingNodes(child), child.depth, maxDepth)
      && (StackDeclines(pushed, maxDepth) <==> StackDeclines(stack, maxDepth) || Declines(PendingNodes(child), child.depth, maxDepth))
      && StackWeight(pushed) == StackWeight(stack) + 1 + Weight(PendingNodes(child))
  {
    var pushed := stack + [child];
    assert pushed[..|pushed| - 1] == stack && pushed[|pushed| - 1] == child;
  }

  /** How far a walk has come: what it has stored, what waits, and whether something was declined. */
  datatype Progress = Progress(entries: seq<FileEntry>, stack: seq<Pending>, truncated: bool)

  /** What is stored and what the waiting folders still hold. */
  ghost function Held(p: Progress, maxDepth: nat): multiset<Bytes> {
    multiset(Rels(p.entries)) + StackFiles(p.stack, maxDepth)
  }

  /** That, and what the rest of the folder being read holds. */
  ghost function Reach(p: Progress, dir: Pending, rest: seq<Node>, maxDepth: nat): multiset<Bytes> {
    Held(p, maxDepth) + FilesWithin(dir.prefix, rest, dir.depth, maxDepth)
  }

  ghost predicate Flagged(p: Progress, dir: Pending, rest: seq<Node>, maxDepth: nat) {
    p.truncated || LeftDeclines(p.stack, dir, rest, maxDepth)
  }

  ghost function Work(p: Progress, rest: seq<Node>): nat {
    StackWeight(p.stack) + Weight(rest)
  }

  ghost predicate Within(p: Progress, maxEntries: nat) {
    |p.entries| <= maxEntries && forall i :: 0 <= i < |p.entries| ==> WellFormed(p.entries[i])
  }

  lemma SplitHead(p: Progress, dir: Pending, node: Node, rest: seq<Node>, maxDepth: nat)
    ensures Reach(p, dir, [node] + rest, maxDepth)
         == Held(p, maxDepth) + FilesAt(dir.prefix, node, dir.depth, maxDepth) + FilesWithin(dir.prefix, rest, dir.depth, maxDepth)
    ensures Flagged(p, dir, [node] + rest, maxDepth) <==> Flagged(p, dir, rest, maxDepth) || DeclinesAt(node, dir.depth, maxDepth)
    ensures Work(p, [node] + rest) == Work(p, rest) + NodeWeight(node)
  {
    assert ([node] + rest)[1..] == rest;
    UnionAssociates(Held(p, maxDepth), FilesAt(dir.prefix, node, dir.depth, maxDepth),
                    FilesWithin(dir.prefix, rest, dir.depth, maxDepth));
  }

  lemma UnionAssociates(a: multiset<Bytes>, b: multiset<Bytes>, c: multiset<Bytes>)
    ensures a + (b + c) == a + b + c
  {
  }

  lemma StoredFile(entries: seq<FileEntry>, rel: Bytes)
    ensures multiset(Rels(entries + [NewEntry(rel)])) == multiset(Rels(entries)) + multiset{rel}
  {
    assert Rels(entries + [NewEntry(rel)]) == Rels(entries) + [rel];
  }

  predicate IsFile(node: Node) {
    node.kind.PlainFile? || node.kind.LinkToFile?
  }

  /** What one directory entry does to the walk while there is room. */
  function Step(p: Progress, dir: Pending, node: Node, maxDepth: nat): Progress {
    var name := NormalizeSeparators(node.name);
    if name == [] then p
    else if IsFile(node) then p.(entries := p.entries + [NewEntry(dir.prefix + name)])
    else if !node.kind.Folder? || IsSkippedDir(name) then p
    else if dir.depth + 1 < maxDepth then
      p.(stack := p.stack + [ChildOf(dir, node)])
    else p.(truncated := true)
  }

  predicate NoRoom(p: Progress, node: Node, maxEntries: nat) {
    IsFile(node) && NormalizeSeparators(node.name) != [] && |p.entries| >= maxEntries
  }

  method ReadNode(p: Progress, dir: Pending, node: Node, maxDepth: nat, maxEntries: nat)
    returns (q: Progress, stopped: bool)
    ensures stopped == NoRoom(p, node, maxEntries)
    ensures q == if stopped then p.(truncated := true) else Step(p, dir, node, maxDepth)
  {
    q, stopped := p, false;
    if node.kind.Untyped? {
      return;
    }
    var name := NormalizeSeparators(node.name);
    if name == [] || node.kind.LinkElsewhere? {
      return;
    }
    if node.kind.Folder? {
      if IsSkippedDir(name) {
        return;
      }
      if dir.depth + 1 < maxDepth {
        var child := Pending(node.kind.readable, node.kind.contents, Under(dir.prefix, name), dir.depth + 1);
        q := p.(stack := p.stack + [child]);
      } else {
        q := p.(truncated := true);
      }
      return;
    }
    if node.kind.PlainFile? || node.kind.LinkToFile? {
      if |p.entries| >= maxEntries {
        return p.(truncated := true), true;
      }
      q := p.(entries := p.entries + [NewEntry(dir.prefix + name)]);
    }
  }

  ghost predicate Conserves(p: Progress, q: Progress, dir: Pending, node: Node, maxDepth: nat) {
    && Held(q, maxDepth) == Held(p, maxDepth) + FilesAt(dir.prefix, node, dir.depth, maxDepth)
    && (q.truncated || StackDeclines(q.stack, maxDepth)
        <==> p.truncated || StackDeclines(p.stack, maxDepth) || DeclinesAt(node, dir.depth, maxDepth))
    && StackWeight(q.stack) <= StackWeight(p.stack) + NodeWeight(node)
  }

  lemma FileConserves(p: Progress, dir: Pending, node: Node, maxDepth: nat)
    requires IsFile(node)
    ensures Conserves(p, Step(p, dir, node, maxDepth), dir, node, maxDepth)
  {
    var name := NormalizeSeparators(node.name);
    if name == [] {
      assert FilesAt(dir.prefix, node, dir.depth, maxDepth) == multiset{};
    } else {
      StoredFile(p.entries, dir.prefix + name);
      assert FilesAt(dir.prefix, node, dir.depth, maxDepth) == multiset{dir.prefix + name};
    }
  }

  lemma PushConserves(p: Progress, child: Pending, maxDepth: nat)
    ensures var q := p.(stack := p.stack + [child]);
      && Held(q, maxDepth) == Held(p, maxDepth) + FilesWithin(child.prefix, PendingNodes(child), child.depth, maxDepth)
      && (StackDeclines(q.stack, maxDepth) <==> StackDeclines(p.stack, maxDepth) || Declines(PendingNodes(child), child.depth, maxDepth))
      && StackWeight(q.stack) == StackWeight(p.stack) + 1 + Weight(PendingNodes(child))
  {
    PushedFolder(p.stack, child, maxDepth);
    UnionAssociates(multiset(Rels(p.entries)), StackFiles(p.stack, maxDepth),
                    FilesWithin(child.prefix, PendingNodes(child), child.depth, maxDepth));
  }

  /** The folder that an entry of `dir` stands for. */
  function ChildOf(dir: Pending, node: Node): Pending
    requires node.kind.Folder?
  {
    Pending(node.kind.readable, node.kind.contents, Under(dir.prefix, NormalizeSeparators(node.name)), dir.depth + 1)
  }

  lemma EnteredFolderHolds(dir: Pending, node: Node, maxDepth: nat)
    requires node.kind.Folder? && Entered(NormalizeSeparators(node.name)) && dir.depth + 1 < maxDepth
    ensures var child := ChildOf(dir, node);
      && FilesAt(dir.prefix, node, dir.depth, maxDepth) == FilesWithin(child.prefix, PendingNodes(child), child.depth, maxDepth)
      && (DeclinesAt(node, dir.depth, maxDepth) <==> Declines(PendingNodes(child), child.depth, maxDepth))
      && 1 + Weight(PendingNodes(child)) <= NodeWeight(node)
  {
  }

  lemma FolderConserves(p: Progress, dir: Pending, node: Node, maxDepth: nat)
    requires node.kind.Folder?
    ensures Conserves(p, Step(p, dir, node, maxDepth), dir, node, maxDepth)
  {
    if Entered(NormalizeSeparators(node.name)) && dir.depth + 1 < maxDepth {
      PushConserves(p, ChildOf(dir, node), maxDepth);
      EnteredFolderHolds(dir, node, maxDepth);
    } else {
      ShutFolderConserves(p, dir, node, maxDepth);
    }
  }

  lemma ShutFolderConserves(p: Progress, dir: Pending, node: Node, maxDepth: nat)
    requires node.kind.Folder? && !(Entered(NormalizeSeparators(node.name)) && dir.depth + 1 < maxDepth)
    ensures Conserves(p, Step(p, dir, node, maxDepth), dir, node, maxDepth)
  {
    assert FilesAt(dir.prefix, node, dir.depth, maxDepth) == multiset{};
    assert Held(Step(p, dir, node, maxDepth), maxDepth) == Held(p, maxDepth);
  }

  lemma StepConserves(p: Progress, dir: Pending, node: Node, maxDepth: nat)
    ensures Conserves(p, Step(p, dir, node, maxDepth), dir, node, maxDepth)
  {
    if IsFile(node) {
      FileConserves(p, dir, node, maxDepth);
    } else if node.kind.Folder? {
      FolderConserves(p, dir, node, maxDepth);
    }
  }

  /** From `p` with `before` still to read, the walk has come to `q` with `after` still to read,
    * and lost nothing on the way. */
  ghost predicate Continues(p: Progress, before: seq<Node>, q: Progress, after: seq<Node>, dir: Pending, maxDepth: nat) {
    && Reach(q, dir, after, maxDepth) == Reach(p, dir, before, maxDepth)
    && (Flagged(q, dir, after, maxDepth) <==> Flagged(p, dir, before, maxDepth))
    && Work(q, after) <= Work(p, before)
  }

  lemma StepContinues(p: Progress, dir: Pending, node: Node, rest: seq<Node>, maxDepth: nat)
    ensures Continues(p, [node] + rest, Step(p, dir, node, maxDepth), rest, dir, maxDepth)
  {
    StepConserves(p, dir, node, maxDepth);
    SplitHead(p, dir, node, rest, maxDepth);
  }

  lemma ContinuesOn(o: Progress, first: seq<Node>, p: Progress, before: seq<Node>, q: Progress, after: seq<Node>, dir: Pending, maxDepth: nat)
    requires Continues(o, first, p, before, dir, maxDepth) && Continues(p, before, q, after, dir, maxDepth)
    ensures Continues(o, first, q, after, dir, maxDepth)
  {
  }

  lemma StepStaysWithin(p: Progress, dir: Pending, node: Node, maxDepth: nat, maxEntries: nat)
    requires Within(p, maxEntries) && !NoRoom(p, node, maxEntries)
    ensures Within(Step(p, dir, node, maxDepth), maxEntries)
  {
  }

  lemma NoRoomMeansMore(p: Progress, dir: Pending, node: Node, rest: seq<Node>, maxDepth: nat, maxEntries: nat)
    requires NoRoom(p, node, maxEntries)
    ensures multiset(Rels(p.entries)) < Reach(p, dir, [node] + rest, maxDepth)
  {
    SplitHead(p, dir, node, rest, maxDepth);
    var rel := dir.prefix + NormalizeSeparators(node.name);
    assert FilesAt(dir.prefix, node, dir.depth, maxDepth) == multiset{rel};
    assert multiset(Rels(p.entries))[rel] < Reach(p, dir, [node] + rest, maxDepth)[rel];
  }

  /** Reading one folder: files are stored, folders are pushed for later. */
  method ReadFolder(p: Progress, dir: Pending, nodes: seq<Node>, maxDepth: nat, maxEntries: nat)
    returns (q: Progress, stopped: bool)
    requires Within(p, maxEntries)
    ensures Within(q, maxEntries)
    ensures !stopped ==> Continues(p, nodes, q, [], dir, maxDepth)
    ensures stopped ==> q.truncated && multiset(Rels(q.entries)) < Reach(p, dir, nodes, maxDepth) && |q.entries| == maxEntries
  {
    q, stopped := p, false;
    ghost var left := nodes;
    for i := 0 to |nodes|
      invariant left == nodes[i..] && Within(q, maxEntries) && Continues(p, nodes, q, left, dir, maxDepth)
    {
      ghost var before, rest := q, nodes[i + 1..];
      assert left == [nodes[i]] + rest;
      q, stopped := ReadNode(q, dir, nodes[i], maxDepth, maxEntries);
      if stopped {
        NoRoomMeansMore(before, dir, nodes[i], rest, maxDepth, maxEntries);
        return;
      }
      StepContinues(before, dir, nodes[i], rest, maxDepth);
      StepStaysWithin(before, dir, nodes[i], maxDepth, maxEntries);
      ContinuesOn(p, nodes, before, left, q, rest, dir, maxDepth);
      left := rest;
    }
  }

  /** The walk stores at most as many entries as allowed, all of them files there are; it reports
    * truncation exactly when a folder was too deep to enter or there were more files than fit; and
    * when they fit it has found all of them down to the depth limit. */
  method WalkEntries(readable: bool, root: seq<Node>, maxDepth: nat, maxEntries: nat) returns (entries: seq<FileEntry>, truncated: bool)
    ensures |entries| <= maxEntries && forall i :: 0 <= i < |entries| ==> WellFormed(entries[i])
    ensures var nodes := if readable then root else [];
      var within := FilesWithin([], nodes, 0, maxDepth);
      && multiset(Rels(entries)) <= within
      && (|within| <= maxEntries ==> multiset(Rels(entries)) == within)
      && (truncated <==> Declines(nodes, 0, maxDepth) || |within| > maxEntries)
  {
    var start := Pending(readable, root, [], 0);
    var p := Progress([], [start], false);
    ghost var nodes := PendingNodes(start);
    ghost var within := FilesWithin([], nodes, 0, maxDepth);
    PushedFolder([], start, maxDepth);
    assert [] + [start] == p.stack;
    while p.stack != []
      invariant Within(p, maxEntries) && Held(p, maxDepth) == within
      invariant p.truncated || StackDeclines(p.stack, maxDepth) <==> Declines(nodes, 0, maxDepth)
      decreases StackWeight(p.stack)
    {
      var dir := p.stack[|p.stack| - 1];
      ghost var before := p;
      p := p.(stack := p.stack[..|p.stack| - 1]);
      PoppedFolder(before, p, dir, maxDepth);
      if !dir.readable {
        continue;
      }
      ghost var popped := p;
      var stopped;
      p, stopped := ReadFolder(p, dir, dir.contents, maxDepth, maxEntries);
      if stopped {
        SmallerMultiset(multiset(Rels(p.entries)), within);
        assert |multiset(Rels(p.entries))| == |p.entries|;
        return p.entries, true;
      }
      FolderDone(popped, p, dir, maxDepth);
    }
    assert |multiset(Rels(p.entries))| == |p.entries|;
    return p.entries, p.truncated;
  }

  lemma PoppedFolder(p: Progress, q: Progress, dir: Pending, maxDepth: nat)
    requires p.stack != [] && dir == p.stack[|p.stack| - 1] && q == p.(stack := p.stack[..|p.stack| - 1])
    ensures Reach(q, dir, PendingNodes(dir), maxDepth) == Held(p, maxDepth)
    ensures Flagged(q, dir, PendingNodes(dir), maxDepth) <==> p.truncated || StackDeclines(p.stack, maxDepth)
    ensures Work(q, PendingNodes(dir)) < StackWeight(p.stack)
  {
  }

  lemma FolderDone(p: Progress, q: Progress, dir: Pending, maxDepth: nat)
    requires Continues(p, dir.contents, q, [], dir, maxDepth)
    ensures Held(q, maxDepth) == Reach(p, dir, dir.contents, maxDepth)
    ensures q.truncated || StackDeclines(q.stack, maxDepth) <==> Flagged(p, dir, dir.contents, maxDepth)
    ensures StackWeight(q.stack) <= Work(p, dir.contents)
  {
  }

  lemma SmallerMultiset(a: multiset<Bytes>, b: multiset<Bytes>)
    requires a < b
    ensures |a| < |b|
  {
    assert b == a + (b - a);
    assert |b| == |a| + |b - a|;
    assert b - a != multiset{};
  }

  /** An untruncated walk has found exactly the files there are. */
  lemma UntruncatedWalkIsComplete(nodes: seq<Node>, maxDepth: nat, maxEntries: nat, entries: seq<FileEntry>, truncated: bool)
    requires var within := FilesWithin([], nodes, 0, maxDepth);
      && (|within| <= maxEntries ==> multiset(Rels(entries)) == within)
      && (truncated <==> Declines(nodes, 0, maxDepth) || |within| > maxEntries)
    ensures !truncated ==> multiset(Rels(entries)) == AllFiles([], nodes)
  {
    if !truncated {
      NothingDeclinedNothingLost([], nodes, 0, maxDepth);
    }
  }

  // ----- depth -----

  function Slashes(rel: Bytes): nat {
    if rel == [] then 0 else (if rel[|rel| - 1] == SLASH then 1 else 0) + Slashes(rel[..|rel| - 1])
  }

  /** Names as an operating system gives them: without separators. */
  ghost predicate SeparatorFree(nodes: seq<Node>)
    decreases nodes
  {
    nodes != [] ==>
      && SLASH !in nodes[0].name && BACKSLASH !in nodes[0].name
      && (nodes[0].kind.Folder? && nodes[0].kind.readable ==> SeparatorFree(nodes[0].kind.contents))
      && SeparatorFree(nodes[1..])
  }

  lemma {:induction false} SlashesJoin(a: Bytes, b: Bytes)
    ensures Slashes(a + b) == Slashes(a) + Slashes(b)
    decreases |b|
  {
    if b == [] {
      assert a + b == a;
    } else {
      assert (a + b)[..|a + b| - 1] == a + b[..|b| - 1];
      SlashesJoin(a, b[..|b| - 1]);
    }
  }

  lemma {:induction false} NoSlashes(a: Bytes)
    requires SLASH !in a
    ensures Slashes(a) == 0
    decreases |a|
  {
    if a != [] {
      NoSlashes(a[..|a| - 1]);
    }
  }

  lemma NormalizedIsSlashFree(name: Bytes)
    requires SLASH !in name && BACKSLASH !in name
    ensures Slashes(NormalizeSeparators(name)) == 0
  {
    NoSlashes(NormalizeSeparators(name));
  }

  /** Nothing found lies deeper than the limit, counting a file directly in the root as depth 1. */
  lemma {:induction false} FoundWithinDepth(prefix: Bytes, nodes: seq<Node>, depth: nat, maxDepth: nat, x: Bytes)
    requires SeparatorFree(nodes) && Slashes(prefix) == depth < maxDepth
    requires x in FilesWithin(prefix, nodes, depth, maxDepth)
    ensures Slashes(x) + 1 <= maxDepth
    decreases nodes
  {
    var name := NormalizeSeparators(nodes[0].name);
    NormalizedIsSlashFree(nodes[0].name);
    if x in FilesAt(prefix, nodes[0], depth, maxDepth) {
      SlashesJoin(prefix, name);
      if nodes[0].kind.Folder? {
        SlashesJoin(prefix + name, [SLASH]);
        assert Slashes([SLASH]) == 1 by {
          assert [SLASH][..0] == [];
        }
        FoundWithinDepth(Under(prefix, name), nodes[0].kind.contents, depth + 1, maxDepth, x);
      }
    } else {
      FoundWithinDepth(prefix, nodes[1..], depth, maxDepth, x);
    }
  }
}
