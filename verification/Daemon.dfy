/** Which running daemon an installed release may retire, and what follows over runs of launches. */
module Daemon {
  import opened Options
  import opened Ordering

  // ----- precedence of versions, section 11 of Semantic Versioning 2.0.0 -----

  datatype Identifier = Numeric(value: nat) | Alphanumeric(text: Bytes)

  /** A version without its build metadata, which has no precedence. */
  datatype Version = Version(major: nat, minor: nat, patch: nat, pre: seq<Identifier>)

  predicate IdentifierLess(a: Identifier, b: Identifier) {
    match (a, b)
    case (Numeric(x), Numeric(y)) => x < y
    case (Numeric(_), Alphanumeric(_)) => true
    case (Alphanumeric(_), Numeric(_)) => false
    case (Alphanumeric(x), Alphanumeric(y)) => LexLess(x, y)
  }

  /** Identifiers are compared from the left; of two lists, one the beginning of the other, the shorter is less. */
  predicate IdentifiersLess(a: seq<Identifier>, b: seq<Identifier>) {
    && b != []
    && (a == [] || IdentifierLess(a[0], b[0]) || (a[0] == b[0] && IdentifiersLess(a[1..], b[1..])))
  }

  /** A version with pre-release identifiers comes before the one without. */
  predicate PreLess(a: seq<Identifier>, b: seq<Identifier>) {
    if b == [] then a != [] else a != [] && IdentifiersLess(a, b)
  }

  predicate Precedes(a: Version, b: Version) {
    || a.major < b.major
    || (a.major == b.major
        && (a.minor < b.minor
            || (a.minor == b.minor && (a.patch < b.patch || (a.patch == b.patch && PreLess(a.pre, b.pre))))))
  }

  lemma {:induction false} IdentifiersTrichotomy(a: seq<Identifier>, b: seq<Identifier>)
    ensures (a == b && !IdentifiersLess(a, b) && !IdentifiersLess(b, a))
         || (a != b && IdentifiersLess(a, b) && !IdentifiersLess(b, a))
         || (a != b && !IdentifiersLess(a, b) && IdentifiersLess(b, a))
    decreases |a|
  {
    if a != [] && b != [] {
      if a[0].Alphanumeric? && b[0].Alphanumeric? {
        LexTrichotomy(a[0].text, b[0].text);
      }
      if a[0] == b[0] {
        IdentifiersTrichotomy(a[1..], b[1..]);
        assert a == [a[0]] + a[1..] && b == [b[0]] + b[1..];
      }
    }
  }

  lemma IdentifierTransitive(a: Identifier, b: Identifier, c: Identifier)
    requires IdentifierLess(a, b) && IdentifierLess(b, c)
    ensures IdentifierLess(a, c)
  {
    if a.Alphanumeric? {
      LexTransitive(a.text, b.text, c.text);
    }
  }

  lemma {:induction false} IdentifiersTransitive(a: seq<Identifier>, b: seq<Identifier>, c: seq<Identifier>)
    requires IdentifiersLess(a, b) && IdentifiersLess(b, c)
    ensures IdentifiersLess(a, c)
    decreases |a|
  {
    if a != [] {
      if IdentifierLess(a[0], b[0]) && IdentifierLess(b[0], c[0]) {
        IdentifierTransitive(a[0], b[0], c[0]);
      } else if a[0] == b[0] && b[0] == c[0] {
        if IdentifiersLess(a[1..], b[1..]) && IdentifiersLess(b[1..], c[1..]) {
          IdentifiersTransitive(a[1..], b[1..], c[1..]);
        }
      }
    }
  }

  /** Of two versions that differ in more than build metadata exactly one precedes the other. */
  lemma PrecedesIsTotal(a: Version, b: Version)
    ensures a == b ==> !Precedes(a, b)
    ensures a != b ==> (Precedes(a, b) <==> !Precedes(b, a))
  {
    IdentifiersTrichotomy(a.pre, b.pre);
  }

  lemma PrecedesTransitive(a: Version, b: Version, c: Version)
    requires Precedes(a, b) && Precedes(b, c)
    ensures Precedes(a, c)
  {
    if IdentifiersLess(a.pre, b.pre) && IdentifiersLess(b.pre, c.pre) {
      IdentifiersTransitive(a.pre, b.pre, c.pre);
    }
  }

  /** Numbers compare as numbers, a number is below any text, and texts compare byte by byte. */
  ghost predicate IdentifierBelow(a: Identifier, b: Identifier) {
    || (a.Numeric? && b.Numeric? && a.value < b.value)
    || (a.Numeric? && b.Alphanumeric?)
    || (a.Alphanumeric? && b.Alphanumeric? && LessByFirstDifference(ByteLess(), a.text, b.text))
  }

  ghost function ByIdentifier(): (Identifier, Identifier) -> bool {
    (a: Identifier, b: Identifier) => IdentifierBelow(a, b)
  }

  lemma {:induction false} IdentifiersByFirstDifference(a: seq<Identifier>, b: seq<Identifier>)
    ensures IdentifiersLess(a, b) <==> LessByFirstDifference(ByIdentifier(), a, b)
    decreases |a|
  {
    FirstDifferenceOfNext(ByIdentifier(), a, b);
    if a != [] && b != [] {
      IdentifiersByFirstDifference(a[1..], b[1..]);
      IdentifierBelowMeans(a[0], b[0]);
    }
  }

  lemma IdentifierBelowMeans(a: Identifier, b: Identifier)
    ensures IdentifierLess(a, b) <==> IdentifierBelow(a, b)
  {
    if a.Alphanumeric? && b.Alphanumeric? {
      LexLessByFirstDifference(a.text, b.text);
    }
  }

  /** The first of major, minor and patch number that differs decides. If none does, so do the pre-release
    * identifiers: having none is greatest, and otherwise their first difference counts. */
  ghost predicate ComesBefore(a: Version, b: Version) {
    if a.major != b.major then a.major < b.major
    else if a.minor != b.minor then a.minor < b.minor
    else if a.patch != b.patch then a.patch < b.patch
    else a.pre != [] && (b.pre == [] || LessByFirstDifference(ByIdentifier(), a.pre, b.pre))
  }

  lemma PrecedesByFirstDifference(a: Version, b: Version)
    ensures Precedes(a, b) <==> ComesBefore(a, b)
  {
    IdentifiersByFirstDifference(a.pre, b.pre);
  }

  // ----- paths -----

  /** A canonical path: its components from the root. */
  type Path = seq<string>

  function Parent(path: Path): Option<Path> {
    if path == [] then None else Some(path[..|path| - 1])
  }

  function FileName(path: Path): Option<string> {
    if path == [] then None else Some(path[|path| - 1])
  }

  const DAEMONS := "daemons"

  function Versioned(install: Path, version: string, file: string): Path {
    install + [DAEMONS, version, file]
  }

  /** What a folder name says about the version in it; the parser is not part of this model. */
  type Parser = string -> Option<Version>

  /** The decision, branch by branch. A path that cannot be made canonical is absent. */
  function UpgradePending(parse: Parser, runningPath: Option<Path>, bundledPath: Option<Path>): bool {
    if runningPath.None? || bundledPath.None? then false
    else
      var running, bundled := runningPath.value, bundledPath.value;
      var releaseDir := Parent(bundled);
      if releaseDir.None? then false
      else
        var daemonsDir := Parent(releaseDir.value);
        if daemonsDir.None? then false
        else if FileName(daemonsDir.value) != Some(DAEMONS) || running == bundled then false
        else if Parent(running) == Parent(daemonsDir.value) then true
        else
          var oldDir := Parent(running);
          if oldDir.None? || Parent(oldDir.value) != daemonsDir then false
          else Newer(parse, FileName(oldDir.value).value, FileName(releaseDir.value).value)
  }

  /** Both folder names are versions, and the second is the newer one. */
  predicate Newer(parse: Parser, oldName: string, newName: string) {
    var o, n := parse(oldName), parse(newName);
    o.Some? && n.Some? && Precedes(o.value, n.value)
  }

  // ----- what the decision means -----

  predicate IsLegacy(install: Path, path: Path) {
    |path| == |install| + 1 && path[..|install|] == install
  }

  predicate IsRelease(install: Path, path: Path) {
    |path| == |install| + 3 && path[..|install|] == install && path[|install|] == DAEMONS
  }

  function ReleaseName(path: Path): string
    requires |path| >= 2
  {
    path[|path| - 2]
  }

  /** One daemon of an install is older than another: a legacy one than any release, a release than one
    * of a version it precedes. */
  predicate Older(parse: Parser, install: Path, a: Path, b: Path) {
    && IsRelease(install, b)
    && (IsLegacy(install, a)
        || (IsRelease(install, a) && Newer(parse, ReleaseName(a), ReleaseName(b))))
  }

  lemma ReleaseParents(install: Path, path: Path)
    requires IsRelease(install, path)
    ensures Parent(path) == Some(install + [DAEMONS, ReleaseName(path)])
    ensures Parent(install + [DAEMONS, ReleaseName(path)]) == Some(install + [DAEMONS])
    ensures FileName(install + [DAEMONS, ReleaseName(path)]) == Some(ReleaseName(path))
    ensures FileName(install + [DAEMONS]) == Some(DAEMONS) && Parent(install + [DAEMONS]) == Some(install)
  {
    assert path == install + path[|install|..];
    assert path[..|path| - 1] == install + [DAEMONS, ReleaseName(path)];
    assert (install + [DAEMONS, ReleaseName(path)])[..|install| + 1] == install + [DAEMONS];
    assert (install + [DAEMONS])[..|install|] == install;
  }

  lemma GrandparentIsDaemons(install: Path, path: Path)
    requires Parent(path).Some? && Parent(Parent(path).value) == Some(install + [DAEMONS])
    ensures IsRelease(install, path)
  {
    var dir := path[..|path| - 1];
    assert dir[..|dir| - 1] == install + [DAEMONS];
    assert |path| == |install + [DAEMONS]| + 2;
    assert path[|install|] == dir[|install|] == (install + [DAEMONS])[|install|];
    assert path[..|install|] == (install + [DAEMONS])[..|install|] == install;
  }

  lemma ParentIsInstall(install: Path, path: Path)
    ensures Parent(path) == Some(install) <==> IsLegacy(install, path)
  {
  }

  /** For every running daemon whatever: a release may retire it exactly when it is an older daemon of
    * the same install. */
  lemma PendingIffOlder(parse: Parser, install: Path, running: Path, bundled: Path)
    requires IsRelease(install, bundled)
    ensures UpgradePending(parse, Some(running), Some(bundled)) <==> Older(parse, install, running, bundled)
  {
    ReleaseParents(install, bundled);
    ParentIsInstall(install, running);
    if Parent(running).Some? && Parent(Parent(running).value) == Some(install + [DAEMONS]) {
      GrandparentIsDaemons(install, running);
    }
    if IsRelease(install, running) {
      ReleaseParents(install, running);
    }
    if running == bundled {
      NotNewerThanItself(parse, ReleaseName(running));
    }
  }

  /** Of two releases of one install, the second may retire the first exactly when both folders are named
    * by versions and the running one's comes before, by their first difference. */
  lemma ReleaseRetiresByFirstDifference(parse: Parser, install: Path, running: Path, bundled: Path)
    requires IsRelease(install, running) && IsRelease(install, bundled)
    ensures UpgradePending(parse, Some(running), Some(bundled)) <==>
      var o, n := parse(running[|running| - 2]), parse(bundled[|bundled| - 2]);
      o.Some? && n.Some? && ComesBefore(o.value, n.value)
  {
    PendingIffOlder(parse, install, running, bundled);
    var o, n := parse(ReleaseName(running)), parse(ReleaseName(bundled));
    if o.Some? && n.Some? {
      PrecedesByFirstDifference(o.value, n.value);
    }
  }

  lemma NotNewerThanItself(parse: Parser, name: string)
    ensures !Newer(parse, name, name)
  {
    if parse(name).Some? {
      PrecedesIsTotal(parse(name).value, parse(name).value);
    }
  }

  /** What may retire something is laid out as a release; a sibling or an override retires nothing. */
  lemma OnlyReleasesRetire(parse: Parser, running: Path, bundled: Path) returns (install: Path)
    requires UpgradePending(parse, Some(running), Some(bundled))
    ensures IsRelease(install, bundled) && Older(parse, install, running, bundled)
  {
    var daemonsDir := Parent(Parent(bundled).value).value;
    install := daemonsDir[..|daemonsDir| - 1];
    assert daemonsDir == install + [DAEMONS];
    GrandparentIsDaemons(install, bundled);
    PendingIffOlder(parse, install, running, bundled);
  }

  /** On the daemons of one install the decision is a strict order. */
  lemma OlderIsStrictOrder(parse: Parser, install: Path, a: Path, b: Path, c: Path)
    ensures !Older(parse, install, a, a)
    ensures Older(parse, install, a, b) ==> !Older(parse, install, b, a)
    ensures Older(parse, install, a, b) && Older(parse, install, b, c) ==> Older(parse, install, a, c)
  {
    if IsRelease(install, a) {
      NotNewerThanItself(parse, ReleaseName(a));
    }
    if Older(parse, install, a, b) && IsRelease(install, a) && IsRelease(install, b) {
      var x, y := parse(ReleaseName(a)).value, parse(ReleaseName(b)).value;
      PrecedesIsTotal(x, y);
      if Older(parse, install, b, c) {
        PrecedesTransitive(x, y, parse(ReleaseName(c)).value);
      }
    }
  }

  /** Two releases of different precedence: exactly one may retire the other. */
  lemma ReleasesAreOrdered(parse: Parser, install: Path, a: Path, b: Path)
    requires IsRelease(install, a) && IsRelease(install, b)
    requires parse(ReleaseName(a)).Some? && parse(ReleaseName(b)).Some? && parse(ReleaseName(a)) != parse(ReleaseName(b))
    ensures UpgradePending(parse, Some(a), Some(b)) <==> !UpgradePending(parse, Some(b), Some(a))
  {
    PendingIffOlder(parse, install, a, b);
    PendingIffOlder(parse, install, b, a);
    PrecedesIsTotal(parse(ReleaseName(a)).value, parse(ReleaseName(b)).value);
  }

  // ----- runs of launches -----

  /** The running daemon, the installed releases, and, since a daemon was last started from nothing, how
    * many have been retired and which were started in their place. */
  datatype World = World(running: Option<Path>, installed: set<string>, retirements: nat, successors: set<Path>)

  /** A launch by the program of some version. It may be told to use another daemon; the running one may
    * be too old to be asked, or busy. The daemon may also exit, and a release may be installed. */
  datatype Step =
    | Launch(version: string, override: Option<Path>, willing: bool)
    | Exit
    | Install(version: string)

  /** The daemon a program uses: the one of its own version if that is installed, else its sibling. */
  function Bundled(installed: set<string>, install: Path, file: string, version: string): Path {
    if version in installed then Versioned(install, version, file) else install + [file]
  }

  function Take(w: World, parse: Parser, install: Path, file: string, step: Step): World {
    match step
    case Exit => w.(running := None, retirements := 0, successors := {})
    case Install(version) => w.(installed := w.installed + {version})
    case Launch(version, override, willing) =>
      var bundled := Bundled(w.installed, install, file, version);
      if w.running.None? then
        w.(running := Some(if override.Some? then override.value else bundled), retirements := 0, successors := {})
      else if override.None? && willing && UpgradePending(parse, w.running, Some(bundled)) then
        w.(running := Some(bundled), retirements := w.retirements + 1, successors := w.successors + {bundled})
      else w
  }

  ghost predicate IsRun(parse: Parser, install: Path, file: string, worlds: seq<World>, steps: seq<Step>) {
    && |worlds| == |steps| + 1 && worlds[0].running.None? && worlds[0].retirements == 0 && worlds[0].successors == {}
    && forall i :: 0 <= i < |steps| ==> worlds[i + 1] == Take(worlds[i], parse, install, file, steps[i])
  }

  predicate IsDaemon(install: Path, path: Path) {
    IsLegacy(install, path) || IsRelease(install, path)
  }

  /** The program itself lies in a release folder of some other install. */
  predicate Nested(install: Path) {
    |install| >= 2 && install[|install| - 2] == DAEMONS
  }

  function Releases(installed: set<string>, install: Path, file: string): set<Path> {
    set v | v in installed :: Versioned(install, v, file)
  }

  function Launchable(installed: set<string>, install: Path, file: string): set<Path> {
    Releases(installed, install, file) + (if Nested(install) then {install + [file]} else {})
  }

  /** No daemon of an install may be retired by the install's sibling daemon. */
  lemma SiblingRetiresNoDaemon(parse: Parser, install: Path, file: string, running: Path)
    requires IsDaemon(install, running)
    ensures !UpgradePending(parse, Some(running), Some(install + [file]))
  {
    if UpgradePending(parse, Some(running), Some(install + [file])) {
      var outer := OnlyReleasesRetire(parse, running, install + [file]);
      assert |install| == |outer| + 2 && IsRelease(outer, running);
      assert ReleaseName(running) == install[|install| - 1] == ReleaseName(install + [file]);
      NotNewerThanItself(parse, ReleaseName(running));
    }
  }

  lemma SiblingRetiresOnlyIfNested(parse: Parser, install: Path, file: string, running: Path)
    requires UpgradePending(parse, Some(running), Some(install + [file]))
    ensures Nested(install)
  {
    var outer := OnlyReleasesRetire(parse, running, install + [file]);
    assert (install + [file])[|outer|] == install[|install| - 2];
  }

  /** The daemons started for retired ones are distinct, from old to new, and the last is running. */
  ghost predicate Ascending(parse: Parser, install: Path, file: string, w: World) {
    && |w.successors| == w.retirements
    && w.successors <= Launchable(w.installed, install, file)
    && (w.successors != {} ==> w.running.Some? && w.running.value in w.successors)
    && forall p :: p in w.successors && p != w.running.value ==> Older(parse, install, p, w.running.value)
  }

  lemma VersionedIsRelease(install: Path, version: string, file: string)
    ensures IsRelease(install, Versioned(install, version, file))
  {
  }

  lemma LaunchablesAreDaemons(installed: set<string>, install: Path, file: string, path: Path)
    requires path in Launchable(installed, install, file)
    ensures IsDaemon(install, path)
  {
    if path in Releases(installed, install, file) {
      var v :| v in installed && path == Versioned(install, v, file);
      VersionedIsRelease(install, v, file);
    }
  }

  /** A newer release is started in place of the running daemon. */
  lemma ReleaseKeepsAscending(parse: Parser, install: Path, file: string, w: World, version: string)
    requires Ascending(parse, install, file, w) && w.running.Some? && version in w.installed
    requires UpgradePending(parse, w.running, Some(Versioned(install, version, file)))
    ensures Ascending(parse, install, file, Take(w, parse, install, file, Launch(version, None, true)))
  {
    var running, next := w.running.value, Versioned(install, version, file);
    VersionedIsRelease(install, version, file);
    PendingIffOlder(parse, install, running, next);
    forall p | p in w.successors ensures Older(parse, install, p, next) {
      OlderIsStrictOrder(parse, install, p, running, next);
    }
    OlderIsStrictOrder(parse, install, next, next, next);
    assert next !in w.successors;
    assert next in Releases(w.installed, install, file);
  }

  lemma RetiringKeepsAscending(parse: Parser, install: Path, file: string, w: World, version: string)
    requires Ascending(parse, install, file, w) && w.running.Some?
    requires UpgradePending(parse, w.running, Some(Bundled(w.installed, install, file, version)))
    ensures Ascending(parse, install, file, Take(w, parse, install, file, Launch(version, None, true)))
  {
    if version in w.installed {
      ReleaseKeepsAscending(parse, install, file, w, version);
    } else {
      if w.successors != {} {
        LaunchablesAreDaemons(w.installed, install, file, w.running.value);
        SiblingRetiresNoDaemon(parse, install, file, w.running.value);
      }
      SiblingRetiresOnlyIfNested(parse, install, file, w.running.value);
    }
  }

  lemma StepKeepsAscending(parse: Parser, install: Path, file: string, w: World, step: Step)
    requires Ascending(parse, install, file, w)
    ensures Ascending(parse, install, file, Take(w, parse, install, file, step))
  {
    if step.Launch? && w.running.Some? && step.override.None? && step.willing
       && UpgradePending(parse, w.running, Some(Bundled(w.installed, install, file, step.version))) {
      RetiringKeepsAscending(parse, install, file, w, step.version);
    }
  }

  lemma {:induction false} RunKeepsAscending(parse: Parser, install: Path, file: string, worlds: seq<World>, steps: seq<Step>, i: nat)
    requires IsRun(parse, install, file, worlds, steps) && i < |worlds|
    ensures Ascending(parse, install, file, worlds[i])
    decreases i
  {
    if i > 0 {
      RunKeepsAscending(parse, install, file, worlds, steps, i - 1);
      StepKeepsAscending(parse, install, file, worlds[i - 1], steps[i - 1]);
    }
  }

  lemma {:induction false} ReleasesAreFew(installed: set<string>, install: Path, file: string)
    ensures |Releases(installed, install, file)| <= |installed|
    decreases |installed|
  {
    if v :| v in installed {
      var rest := installed - {v};
      ReleasesAreFew(rest, install, file);
      assert Releases(installed, install, file) == Releases(rest, install, file) + {Versioned(install, v, file)};
    }
  }

  lemma FewerElements<T>(a: set<T>, b: set<T>)
    requires a <= b
    ensures |a| <= |b|
    decreases |a|
  {
    if x :| x in a {
      FewerElements(a - {x}, b - {x});
    }
  }

  /** Between two exits there are at most as many retirements as installed releases, and one more if the
    * program itself lies in another install's release folder. */
  lemma RetirementsAreBounded(parse: Parser, install: Path, file: string, worlds: seq<World>, steps: seq<Step>, i: nat)
    requires IsRun(parse, install, file, worlds, steps) && i < |worlds|
    ensures worlds[i].retirements <= |worlds[i].installed| + (if Nested(install) then 1 else 0)
  {
    var w := worlds[i];
    RunKeepsAscending(parse, install, file, worlds, steps, i);
    ReleasesAreFew(w.installed, install, file);
    FewerElements(w.successors, Launchable(w.installed, install, file));
  }

  /** Of a program nested in a release folder, the sibling daemon is a release of the outer install. */
  function Outer(install: Path): Path
    requires Nested(install)
  {
    install[..|install| - 2]
  }

  lemma SiblingOfNestedIsRelease(install: Path, file: string)
    requires Nested(install)
    ensures IsRelease(Outer(install), install + [file])
  {
    assert (install + [file])[..|install| - 2] == Outer(install);
  }

  /** The retirement too many: no release is installed, a legacy daemon of the outer install runs because
    * a program was told to use it, and a program of the nested install retires it for its own sibling. */
  lemma NestedRetiresOneMore(parse: Parser, install: Path, file: string) returns (worlds: seq<World>, steps: seq<Step>)
    requires Nested(install)
    ensures IsRun(parse, install, file, worlds, steps)
    ensures worlds[|steps|].retirements == 1 && worlds[|steps|].installed == {}
  {
    var legacy := Outer(install) + [file];
    steps := [Launch("", Some(legacy), true), Launch("", None, true)];
    var start := World(None, {}, 0, {});
    var told := Take(start, parse, install, file, steps[0]);
    SiblingOfNestedIsRelease(install, file);
    assert IsLegacy(Outer(install), legacy);
    PendingIffOlder(parse, Outer(install), legacy, install + [file]);
    worlds := [start, told, Take(told, parse, install, file, steps[1])];
  }

  ghost predicate NeverMoreThanInstalled(parse: Parser, install: Path, file: string) {
    forall worlds: seq<World>, steps, i :: IsRun(parse, install, file, worlds, steps) && 0 <= i < |worlds|
      ==> worlds[i].retirements <= |worlds[i].installed|
  }

  /** In every run there are at most as many retirements as installed releases exactly when the program
    * does not lie in another install's release folder. */
  lemma BoundHoldsIffNotNested(parse: Parser, install: Path, file: string)
    ensures NeverMoreThanInstalled(parse, install, file) <==> !Nested(install)
  {
    if Nested(install) {
      var worlds, steps := NestedRetiresOneMore(parse, install, file);
      assert worlds[|steps|].retirements > |worlds[|steps|].installed|;
    } else {
      forall worlds: seq<World>, steps, i | IsRun(parse, install, file, worlds, steps) && 0 <= i < |worlds|
        ensures worlds[i].retirements <= |worlds[i].installed|
      {
        RetirementsAreBounded(parse, install, file, worlds, steps, i);
      }
    }
  }

  lemma StepMovesForward(parse: Parser, install: Path, file: string, w: World, step: Step)
    requires w.running.Some? && IsDaemon(install, w.running.value) && !step.Exit?
    ensures var next := Take(w, parse, install, file, step).running;
      next.Some? && IsDaemon(install, next.value)
      && (next == w.running || Older(parse, install, w.running.value, next.value))
  {
    var running := w.running.value;
    if step.Launch? && UpgradePending(parse, w.running, Some(Bundled(w.installed, install, file, step.version))) {
      if step.version in w.installed {
        VersionedIsRelease(install, step.version, file);
        PendingIffOlder(parse, install, running, Versioned(install, step.version, file));
      } else {
        SiblingRetiresNoDaemon(parse, install, file, running);
      }
    }
  }

  /** While no daemon exits, the running release never goes back, whatever mix of versions is launched. */
  lemma {:induction false} ReleaseNeverGoesBack(
    parse: Parser, install: Path, file: string, worlds: seq<World>, steps: seq<Step>, i: nat, j: nat
  )
    requires IsRun(parse, install, file, worlds, steps) && i <= j < |worlds|
    requires worlds[i].running.Some? && IsDaemon(install, worlds[i].running.value)
    requires forall k :: i <= k < j ==> !steps[k].Exit?
    ensures worlds[j].running.Some? && IsDaemon(install, worlds[j].running.value)
    ensures worlds[j].running == worlds[i].running || Older(parse, install, worlds[i].running.value, worlds[j].running.value)
    decreases j
  {
    if i < j {
      ReleaseNeverGoesBack(parse, install, file, worlds, steps, i, j - 1);
      StepMovesForward(parse, install, file, worlds[j - 1], steps[j - 1]);
      OlderIsStrictOrder(parse, install, worlds[i].running.value, worlds[j - 1].running.value, worlds[j].running.value);
    }
  }

  /** A launch that is not told otherwise: where nothing runs it starts the daemon of its own version, or its
    * sibling if that version is not installed; an older daemon of the install that is willing is replaced by
    * the daemon of an installed version, which counts as a retirement; and any other daemon of the install
    * goes on running. One that is told to use another daemon starts that, or retires nothing. */
  lemma LaunchBringsForward(parse: Parser, install: Path, file: string, w: World, version: string, willing: bool)
    ensures var next := Take(w, parse, install, file, Launch(version, None, willing));
      var bundled := if version in w.installed then install + ["daemons", version, file] else install + [file];
      if w.running.None? then next.running == Some(bundled)
      else if version in w.installed && willing && Older(parse, install, w.running.value, bundled) then
        next.running == Some(bundled) && next.running != w.running && next.retirements == w.retirements + 1
      else if version in w.installed || IsDaemon(install, w.running.value) then next == w
      else true
    ensures forall other :: var next := Take(w, parse, install, file, Launch(version, Some(other), willing));
      if w.running.None? then next.running == Some(other) else next == w
  {
    if w.running.Some? {
      if version in w.installed {
        var bundled := Versioned(install, version, file);
        VersionedIsRelease(install, version, file);
        PendingIffOlder(parse, install, w.running.value, bundled);
        OlderIsStrictOrder(parse, install, bundled, bundled, bundled);
      } else if IsDaemon(install, w.running.value) {
        SiblingRetiresNoDaemon(parse, install, file, w.running.value);
      }
    }
  }

  /** The launch retires a stranger: the program is nested, its own version is not installed, and the
    * running daemon is an older one of the outer install. */
  predicate RetiresStranger(parse: Parser, install: Path, file: string, w: World, step: Step)
    requires w.running.Some?
  {
    && step.Launch? && step.override.None? && step.willing && step.version !in w.installed
    && Nested(install) && Older(parse, Outer(install), w.running.value, install + [file])
  }

  /** A daemon that is not of the install stays, except in exactly that case. */
  lemma StrangersStay(parse: Parser, install: Path, file: string, w: World, step: Step)
    requires w.running.Some? && !IsDaemon(install, w.running.value) && !step.Exit?
    ensures Take(w, parse, install, file, step).running == w.running <==> !RetiresStranger(parse, install, file, w, step)
  {
    var running, sibling := w.running.value, install + [file];
    if step.Launch? {
      if step.version in w.installed {
        VersionedIsRelease(install, step.version, file);
        PendingIffOlder(parse, install, running, Versioned(install, step.version, file));
      } else if Nested(install) {
        SiblingOfNestedIsRelease(install, file);
        PendingIffOlder(parse, Outer(install), running, sibling);
        assert IsLegacy(install, sibling);
      } else if UpgradePending(parse, w.running, Some(sibling)) {
        SiblingRetiresOnlyIfNested(parse, install, file, running);
      }
    }
  }

  ghost predicate StrangersAlwaysStay(parse: Parser, install: Path, file: string) {
    forall w: World, step: Step :: w.running.Some? && !IsDaemon(install, w.running.value) && !step.Exit?
      ==> Take(w, parse, install, file, step).running == w.running
  }

  /** No launch ever retires a daemon that is not of its install exactly when the
    * program does not lie in another install's release folder. */
  lemma StrangersAlwaysStayIffNotNested(parse: Parser, install: Path, file: string)
    ensures StrangersAlwaysStay(parse, install, file) <==> !Nested(install)
  {
    if Nested(install) {
      var w := World(Some(Outer(install) + [file]), {}, 0, {});
      SiblingOfNestedIsRelease(install, file);
      StrangersStay(parse, install, file, w, Launch("", None, true));
      assert Take(w, parse, install, file, Launch("", None, true)).running != w.running;
    } else {
      forall w: World, step: Step | w.running.Some? && !IsDaemon(install, w.running.value) && !step.Exit?
        ensures Take(w, parse, install, file, step).running == w.running
      {
        StrangersStay(parse, install, file, w, step);
      }
    }
  }
}
