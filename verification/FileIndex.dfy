/** Building the quick-open index: enumerate, sort, drop repetitions. */
module FileIndex {
  import opened Options
  import opened Ordering
  import opened FileWalk

  datatype Source = Git | Walk

  datatype Index = Index(entries: seq<FileEntry>, source: Source, truncated: bool)

  /** The record of the version-control listing is kept unless it is empty or names a folder. */
  predicate Kept(raw: Bytes) {
    raw != [] && NormalizeSeparators(raw)[|raw| - 1] != SLASH
  }

  function KeptPaths(records: seq<Bytes>): seq<Bytes> {
    if records == [] then []
    else
      var earlier := KeptPaths(records[..|records| - 1]);
      var raw := records[|records| - 1];
      if Kept(raw) then earlier + [NormalizeSeparators(raw)] else earlier
  }

  lemma {:induction false} KeptPathsGrow(records: seq<Bytes>, n: nat)
    requires n <= |records|
    ensures KeptPaths(records[..n]) <= KeptPaths(records)
    decreases |records|
  {
    if n < |records| {
      KeptPathsGrow(records[..|records| - 1], n);
      assert records[..|records| - 1][..n] == records[..n];
    } else {
      assert records[..n] == records;
    }
  }

  /** The record is not empty and does not end in a slash or a backslash. */
  predicate NamesFile(raw: Bytes) {
    raw != [] && raw[|raw| - 1] != 47 && raw[|raw| - 1] != 92
  }

  /** The paths are those of the records at these places, in their order, with slashes for backslashes. */
  ghost predicate AreOf(paths: seq<Bytes>, records: seq<Bytes>, places: seq<nat>) {
    && |places| == |paths| && (forall j, k :: 0 <= j < k < |places| ==> places[j] < places[k])
    && forall k :: 0 <= k < |places| ==> places[k] < |records| && paths[k] == NormalizeSeparators(records[places[k]])
  }

  lemma AreOfLonger(paths: seq<Bytes>, records: seq<Bytes>, n: nat, places: seq<nat>)
    requires n <= |records| && AreOf(paths, records[..n], places)
    ensures AreOf(paths, records, places)
  {
    forall k | 0 <= k < |places| ensures records[places[k]] == records[..n][places[k]] {
    }
  }

  lemma AreOfOneMore(paths: seq<Bytes>, records: seq<Bytes>, places: seq<nat>, n: nat)
    requires n < |records| && AreOf(paths, records, places) && forall k :: 0 <= k < |places| ==> places[k] < n
    ensures AreOf(paths + [NormalizeSeparators(records[n])], records, places + [n])
  {
  }

  /** The places of all records that name files. */
  ghost predicate AreFilePlaces(records: seq<Bytes>, places: seq<nat>) {
    forall i: nat :: i in places <==> i < |records| && NamesFile(records[i])
  }

  lemma FilePlacesOfNext(records: seq<Bytes>, n: nat, places: seq<nat>)
    requires |records| == n + 1 && AreFilePlaces(records[..n], places)
    ensures AreFilePlaces(records, if NamesFile(records[n]) then places + [n] else places)
    ensures forall k :: 0 <= k < |places| ==> places[k] < n
  {
    forall k | 0 <= k < |places| ensures places[k] < n {
      assert places[k] in places;
    }
  }

  /** The paths that are kept are those of the records that name a file, each of them, in their order. */
  lemma {:induction false} KeptPathsAreOfFiles(records: seq<Bytes>) returns (places: seq<nat>)
    ensures AreOf(KeptPaths(records), records, places) && AreFilePlaces(records, places)
    decreases |records|
  {
    if records == [] {
      places := [];
    } else {
      var n := |records| - 1;
      var earlier := KeptPathsAreOfFiles(records[..n]);
      FilePlacesOfNext(records, n, earlier);
      AreOfLonger(KeptPaths(records[..n]), records, n, earlier);
      AreOfOneMore(KeptPaths(records[..n]), records, earlier, n);
      places := if NamesFile(records[n]) then earlier + [n] else earlier;
    }
  }

  /** Takes the first kept paths that fit, and says whether there were more. */
  method GitEntries(records: seq<Bytes>, maxEntries: nat) returns (entries: seq<FileEntry>, truncated: bool)
    ensures forall i :: 0 <= i < |entries| ==> WellFormed(entries[i])
    ensures |entries| <= maxEntries && Rels(entries) <= KeptPaths(records)
    ensures truncated <==> |KeptPaths(records)| > maxEntries
    ensures !truncated ==> Rels(entries) == KeptPaths(records)
  {
    entries, truncated := [], false;
    for i := 0 to |records|
      invariant forall k :: 0 <= k < |entries| ==> WellFormed(entries[k])
      invariant |entries| <= maxEntries && Rels(entries) == KeptPaths(records[..i])
    {
      assert records[..i + 1][..i] == records[..i];
      KeptPathsGrow(records, i + 1);
      var raw := records[i];
      if raw == [] {
        continue;
      }
      var rel := NormalizeSeparators(raw);
      if rel[|rel| - 1] == SLASH {
        continue;
      }
      if |entries| >= maxEntries {
        truncated := true;
        return;
      }
      assert Rels(entries + [NewEntry(rel)]) == Rels(entries) + [rel];
      entries := entries + [NewEntry(rel)];
    }
    assert records[..|records|] == records;
  }

  // ----- sorting and removing repetitions -----

  predicate RelLeq(a: FileEntry, b: FileEntry) {
    LexLeq(a.rel, b.rel)
  }

  /** Of entries with equal paths standing next to each other, only the first stays. */
  function Dedup(entries: seq<FileEntry>): seq<FileEntry> {
    if |entries| <= 1 then entries
    else
      var earlier := Dedup(entries[..|entries| - 1]);
      if entries[|entries| - 1].rel == entries[|entries| - 2].rel then earlier else earlier + [entries[|entries| - 1]]
  }

  ghost predicate StrictlyAscending(entries: seq<FileEntry>) {
    forall i, j :: 0 <= i < j < |entries| ==> LexLess(entries[i].rel, entries[j].rel)
  }

  lemma RelOrderIsTotalPreorder()
    ensures TotalPreorder(RelLeq)
  {
    forall a: FileEntry, b: FileEntry ensures RelLeq(a, b) || RelLeq(b, a) {
      LexTrichotomy(a.rel, b.rel);
    }
    forall a: FileEntry, b: FileEntry, c: FileEntry | RelLeq(a, b) && RelLeq(b, c) ensures RelLeq(a, c) {
      if LexLess(a.rel, b.rel) && LexLess(b.rel, c.rel) {
        LexTransitive(a.rel, b.rel, c.rel);
      }
    }
  }

  ghost predicate SameLast(kept: seq<FileEntry>, entries: seq<FileEntry>) {
    kept != [] && entries != [] && kept[|kept| - 1].rel == entries[|entries| - 1].rel
  }

  lemma {:induction false} DedupOfSorted(entries: seq<FileEntry>)
    requires SortedBy(RelLeq, entries)
    ensures StrictlyAscending(Dedup(entries)) && (entries != [] ==> SameLast(Dedup(entries), entries))
    decreases |entries|
  {
    if |entries| > 1 {
      var shorter, last := entries[..|entries| - 1], entries[|entries| - 1];
      DedupOfSorted(shorter);
      var kept := Dedup(shorter);
      if last.rel != entries[|entries| - 2].rel {
        assert RelLeq(entries[|entries| - 2], last);
        forall i | 0 <= i < |kept| ensures LexLess(kept[i].rel, last.rel) {
          if i < |kept| - 1 {
            LexTransitive(kept[i].rel, kept[|kept| - 1].rel, last.rel);
          }
        }
      }
    }
  }

  ghost predicate PathKept(kept: seq<FileEntry>, rel: Bytes) {
    exists d :: d in kept && d.rel == rel
  }

  lemma {:induction false} DedupSelects(entries: seq<FileEntry>, e: FileEntry)
    requires e in Dedup(entries)
    ensures e in entries
    decreases |entries|
  {
    if |entries| > 1 {
      var shorter := entries[..|entries| - 1];
      if e in Dedup(shorter) {
        DedupSelects(shorter, e);
      }
    }
  }

  lemma {:induction false} DedupKeepsLast(entries: seq<FileEntry>)
    requires entries != []
    ensures SameLast(Dedup(entries), entries)
    decreases |entries|
  {
    if |entries| > 1 {
      DedupKeepsLast(entries[..|entries| - 1]);
    }
  }

  lemma {:induction false} DedupKeepsPath(entries: seq<FileEntry>, e: FileEntry)
    requires e in entries
    ensures PathKept(Dedup(entries), e.rel)
    decreases |entries|
  {
    var kept := Dedup(entries);
    var i :| 0 <= i < |entries| && entries[i] == e;
    if i == |entries| - 1 {
      DedupKeepsLast(entries);
      assert kept[|kept| - 1] in kept;
    } else {
      var shorter := entries[..|entries| - 1];
      assert shorter[i] in shorter;
      DedupKeepsPath(shorter, e);
      var d :| d in Dedup(shorter) && d.rel == e.rel;
      assert d in kept;
    }
  }

  /** What the sorted index is: every enumerated path once, in strictly ascending order. */
  lemma SortedIndex(found: seq<FileEntry>)
    requires forall i :: 0 <= i < |found| ==> WellFormed(found[i])
    ensures var entries := Dedup(Sort(RelLeq, found));
      && StrictlyAscending(entries)
      && (forall i :: 0 <= i < |entries| ==> WellFormed(entries[i]))
      && (forall e :: e in entries ==> e in found)
      && (forall e :: e in found ==> e in entries)
  {
    var sorted := Sort(RelLeq, found);
    RelOrderIsTotalPreorder();
    SortSorts(RelLeq, found);
    SortMembers(RelLeq, found);
    DedupOfSorted(sorted);
    var entries := Dedup(sorted);
    forall e | e in entries ensures e in found {
      DedupSelects(sorted, e);
    }
    forall i | 0 <= i < |entries| ensures WellFormed(entries[i]) {
      assert entries[i] in entries && entries[i] in found;
    }
    forall e | e in found ensures e in entries {
      DedupKeepsPath(sorted, e);
      var d :| d in entries && d.rel == e.rel;
      assert d in found;
      assert WellFormed(d) && WellFormed(e);
    }
  }

  /** Builds the index. Git decides if it can list the root; otherwise the tree is walked. */
  method BuildIndex(git: Option<seq<Bytes>>, readable: bool, root: seq<Node>, maxDepth: nat, maxEntries: nat)
    returns (index: Index, ghost found: seq<FileEntry>)
    ensures index.source == if git.Some? then Git else Walk
    ensures index.entries == Dedup(Sort(RelLeq, found))
    ensures forall i :: 0 <= i < |found| ==> WellFormed(found[i])
    ensures |found| <= maxEntries
    ensures git.Some? ==>
      && Rels(found) <= KeptPaths(git.value)
      && (index.truncated <==> |KeptPaths(git.value)| > maxEntries)
      && (!index.truncated ==> Rels(found) == KeptPaths(git.value))
    ensures git.None? ==>
      var nodes := if readable then root else [];
      && multiset(Rels(found)) <= FilesWithin([], nodes, 0, maxDepth)
      && (!index.truncated ==> multiset(Rels(found)) == AllFiles([], nodes))
  {
    var entries, truncated;
    if git.Some? {
      entries, truncated := GitEntries(git.value, maxEntries);
    } else {
      entries, truncated := WalkEntries(readable, root, maxDepth, maxEntries);
      UntruncatedWalkIsComplete(if readable then root else [], maxDepth, maxEntries, entries, truncated);
    }
    found := entries;
    index := Index(Dedup(Sort(RelLeq, entries)), if git.Some? then Git else Walk, truncated);
  }

  /** Whoever lists the files: the index is strictly ascending, its names are last components, and
    * when a walk was not cut short its paths are exactly the files of the tree. */
  lemma IndexOfWalk(nodes: seq<Node>, found: seq<FileEntry>)
    requires forall i :: 0 <= i < |found| ==> WellFormed(found[i])
    requires multiset(Rels(found)) == AllFiles([], nodes)
    ensures var entries := Dedup(Sort(RelLeq, found));
      && StrictlyAscending(entries)
      && (forall rel :: rel in AllFiles([], nodes) <==> exists e :: e in entries && e.rel == rel)
      && (forall e :: e in entries ==> e.nameStart <= |e.rel| && SLASH !in Name(e))
  {
    var entries := Dedup(Sort(RelLeq, found));
    SortedIndex(found);
    forall e | e in entries ensures e.nameStart <= |e.rel| && SLASH !in Name(e) {
      var i :| 0 <= i < |entries| && entries[i] == e;
      NameIsLastComponent(e);
    }
    forall rel ensures rel in AllFiles([], nodes) <==> exists e :: e in entries && e.rel == rel {
      PathsOfEntries(found, rel);
      if rel in AllFiles([], nodes) {
        assert rel in multiset(Rels(found));
        var e :| e in found && e.rel == rel;
        assert e in entries;
      }
      if e :| e in entries && e.rel == rel {
        assert e in found;
        assert rel in multiset(Rels(found));
      }
    }
  }

  lemma PathsOfEntries(entries: seq<FileEntry>, rel: Bytes)
    ensures rel in multiset(Rels(entries)) <==> exists e :: e in entries && e.rel == rel
  {
    if rel in Rels(entries) {
      var i :| 0 <= i < |entries| && Rels(entries)[i] == rel;
      assert entries[i] in entries;
    }
    if e :| e in entries && e.rel == rel {
      var i :| 0 <= i < |entries| && entries[i] == e;
      assert Rels(entries)[i] == rel;
    }
  }
}
