/** Handing terminal readers over to subscriptions: readers are registered under a pane with a fresh
  * generation, a build drains them and emits one identity per pane, and the framework starts what is
  * new and keeps what is already running. */
module Readers {
  import opened Options

  type Pane = nat

  datatype Identity = Identity(pane: Pane, generation: nat)

  /** A subscription either carries the reader of its identity or is a stub that only names it. */
  datatype Subscription = Subscription(id: Identity, reader: bool)

  function GenerationOf(active: map<Pane, nat>, pane: Pane): nat {
    if pane in active then active[pane] else 0
  }

  function ReaderSubs(drained: map<Pane, nat>): set<Subscription> {
    set p | p in drained :: Subscription(Identity(p, drained[p]), true)
  }

  function StubSubs(drained: map<Pane, nat>, mounted: set<Pane>, active: map<Pane, nat>): set<Subscription> {
    set p | p in mounted && p !in drained :: Subscription(Identity(p, GenerationOf(active, p)), false)
  }

  /** What a build emits for the readers it drained, the mounted terminals and the generations it sees. */
  function Built(drained: map<Pane, nat>, mounted: set<Pane>, active: map<Pane, nat>): set<Subscription> {
    ReaderSubs(drained) + StubSubs(drained, mounted, active)
  }

  ghost predicate OnePerPane(subs: seq<Subscription>) {
    forall i, j :: 0 <= i < j < |subs| ==> subs[i].id.pane != subs[j].id.pane
  }

  ghost function Members(subs: seq<Subscription>): set<Subscription> {
    set s | s in subs
  }

  // ----- the registry -----

  class ReaderRegistry {
    var pending: map<Pane, nat>
    var active: map<Pane, nat>
    var nextGeneration: nat

    constructor ()
      ensures pending == map[] && active == map[] && nextGeneration == 1
    {
      pending, active, nextGeneration := map[], map[], 1;
    }

    method RegisterReader(pane: Pane) returns (generation: nat)
      modifies this
      ensures generation == old(nextGeneration) && nextGeneration == generation + 1
      ensures pending == old(pending)[pane := generation]
      ensures active == old(active)[pane := generation]
    {
      generation := nextGeneration;
      nextGeneration := nextGeneration + 1;
      pending := pending[pane := generation];
      active := active[pane := generation];
    }

    method TakeAllReaders() returns (drained: map<Pane, nat>)
      modifies this`pending
      ensures drained == old(pending) && pending == map[]
    {
      drained := pending;
      pending := map[];
    }

    /** The second half of a build, done with the state locked. */
    method EmitSubscriptions(drained: map<Pane, nat>, mounted: set<Pane>) returns (subs: seq<Subscription>)
      ensures Members(subs) == Built(drained, mounted, active) && OnePerPane(subs)
    {
      subs := [];
      var todo := drained.Keys;
      ghost var done: set<Pane> := {};
      while todo != {}
        invariant todo + done == drained.Keys && todo !! done
        invariant forall s :: s in subs <==> s.reader && s.id.pane in done && s.id.generation == drained[s.id.pane]
        invariant OnePerPane(subs)
      {
        var pane :| pane in todo;
        subs := subs + [Subscription(Identity(pane, drained[pane]), true)];
        todo, done := todo - {pane}, done + {pane};
      }
      assert Members(subs) == ReaderSubs(drained);
      var rest := mounted;
      ghost var stubbed: set<Pane> := {};
      while rest != {}
        invariant rest + stubbed == mounted && rest !! stubbed
        invariant Members(subs) == Built(drained, stubbed, active) && OnePerPane(subs)
      {
        var pane :| pane in rest;
        rest := rest - {pane};
        if pane !in drained {
          ghost var before := subs;
          var stub := Subscription(Identity(pane, GenerationOf(active, pane)), false);
          StubIsNew(before, drained, stubbed, active, pane);
          subs := subs + [stub];
          StubSubsGrow(drained, stubbed, active, pane);
          assert Members(subs) == Members(before) + {stub};
        } else {
          assert StubSubs(drained, stubbed + {pane}, active) == StubSubs(drained, stubbed, active);
        }
        stubbed := stubbed + {pane};
      }
      assert stubbed == mounted;
    }

    method BuildSubscriptions(mounted: set<Pane>) returns (subs: seq<Subscription>)
      modifies this`pending
      ensures Members(subs) == Built(old(pending), mounted, active) && OnePerPane(subs)
      ensures pending == map[]
    {
      var drained := TakeAllReaders();
      subs := EmitSubscriptions(drained, mounted);
    }
  }

  lemma StubSubsGrow(drained: map<Pane, nat>, stubbed: set<Pane>, active: map<Pane, nat>, pane: Pane)
    requires pane !in drained
    ensures StubSubs(drained, stubbed + {pane}, active)
         == StubSubs(drained, stubbed, active) + {Subscription(Identity(pane, GenerationOf(active, pane)), false)}
  {
  }

  lemma StubIsNew(subs: seq<Subscription>, drained: map<Pane, nat>, stubbed: set<Pane>, active: map<Pane, nat>, pane: Pane)
    requires Members(subs) == Built(drained, stubbed, active)
    requires pane !in drained && pane !in stubbed
    ensures forall i :: 0 <= i < |subs| ==> subs[i].id.pane != pane
  {
    forall i | 0 <= i < |subs| ensures subs[i].id.pane != pane {
      assert subs[i] in Members(subs);
    }
  }

  // ----- the system: registrations, mounts and builds, interleaved -----

  /** `history[g - 1]` is the pane registered with generation `g`. A build in progress holds what it
    * drained. Readers are told apart by their generation: `started` counts how often each was started,
    * a superseded one was replaced while pending, a lost one was drained but never started. */
  datatype World = World(
    history: seq<Pane>,
    pending: map<Pane, nat>,
    active: map<Pane, nat>,
    mounted: set<Pane>,
    draft: Option<map<Pane, nat>>,
    running: set<Identity>,
    started: multiset<nat>,
    superseded: set<nat>,
    lost: set<nat>
  )

  const EMPTY := World([], map[], map[], {}, None, {}, multiset{}, {}, {})

  datatype Step =
    | Register(pane: Pane)
    | Mount(pane: Pane)
    | Unmount(pane: Pane)
    | StreamEnds(id: Identity)
    | Drain
    | Emit

  predicate Enabled(w: World, step: Step) {
    match step
    case Drain => w.draft.None?
    case Emit => w.draft.Some?
    case _ => true
  }

  function Identities(subs: set<Subscription>): set<Identity> {
    set s | s in subs :: s.id
  }

  /** Of the drained readers, those whose identity is already running are not started. */
  function Refused(drained: map<Pane, nat>, running: set<Identity>): set<nat> {
    set p | p in drained && Identity(p, drained[p]) in running :: drained[p]
  }

  function Launched(drained: map<Pane, nat>, running: set<Identity>): set<nat> {
    set p | p in drained && Identity(p, drained[p]) !in running :: drained[p]
  }

  function Take(w: World, step: Step): World
    requires Enabled(w, step)
  {
    match step
    case Register(pane) =>
      var generation := |w.history| + 1;
      w.(history := w.history + [pane],
         pending := w.pending[pane := generation],
         active := w.active[pane := generation],
         superseded := w.superseded + (if pane in w.pending then {w.pending[pane]} else {}))
    case Mount(pane) => w.(mounted := w.mounted + {pane})
    case Unmount(pane) => w.(mounted := w.mounted - {pane})
    case StreamEnds(id) => w.(running := w.running - {id})
    case Drain => w.(draft := Some(w.pending), pending := map[])
    case Emit =>
      var drained := w.draft.value;
      w.(draft := None,
         running := Identities(Built(drained, w.mounted, w.active)),
         started := w.started + multiset(Launched(drained, w.running)),
         lost := w.lost + Refused(drained, w.running))
  }

  // ----- what every step keeps -----

  /** The last generation registered for a pane; 0 if there is none. */
  function Newest(history: seq<Pane>, pane: Pane): (g: nat)
    ensures g <= |history| && (g > 0 ==> history[g - 1] == pane)
  {
    if history == [] then 0
    else if history[|history| - 1] == pane then |history|
    else Newest(history[..|history| - 1], pane)
  }

  lemma {:induction false} NewestIsLast(history: seq<Pane>, pane: Pane, g: nat)
    requires 0 < g <= |history| && history[g - 1] == pane
    ensures g <= Newest(history, pane)
    decreases |history|
  {
    if g < |history| && history[|history| - 1] != pane {
      NewestIsLast(history[..|history| - 1], pane, g);
    }
  }

  predicate Holds(m: map<Pane, nat>, history: seq<Pane>, g: nat)
    requires 0 < g <= |history|
  {
    history[g - 1] in m && m[history[g - 1]] == g
  }

  predicate Drafted(w: World, g: nat)
    requires 0 < g <= |w.history|
  {
    w.draft.Some? && Holds(w.draft.value, w.history, g)
  }

  function One(b: bool): nat {
    if b then 1 else 0
  }

  /** In how many ways a reader is accounted for. */
  function Accounts(w: World, g: nat): nat
    requires 0 < g <= |w.history|
  {
    One(Holds(w.pending, w.history, g)) + One(Drafted(w, g)) + w.started[g] + One(g in w.superseded) + One(g in w.lost)
  }

  ghost predicate Registered(m: map<Pane, nat>, history: seq<Pane>) {
    forall p :: p in m ==> 0 < m[p] <= |history| && history[m[p] - 1] == p
  }

  ghost predicate Known(ids: set<Identity>, history: seq<Pane>) {
    forall id :: id in ids && id.generation > 0 ==> id.generation <= |history| && history[id.generation - 1] == id.pane
  }

  ghost predicate NewestIn(m: map<Pane, nat>, history: seq<Pane>) {
    forall p :: p in m ==> m[p] == Newest(history, p)
  }

  /** Every reader ever registered is pending, drained, started once, superseded or lost: exactly one of these. */
  ghost predicate Accounted(w: World) {
    && (forall g :: 0 < g <= |w.history| ==> Accounts(w, g) == 1)
    && (forall g :: g in w.started || g in w.superseded || g in w.lost ==> 0 < g <= |w.history|)
  }

  ghost predicate Consistent(w: World) {
    && Registered(w.pending, w.history) && Registered(w.active, w.history)
    && NewestIn(w.pending, w.history) && (forall p :: GenerationOf(w.active, p) == Newest(w.history, p))
    && (w.draft.Some? ==> Registered(w.draft.value, w.history))
    && Known(w.running, w.history)
  }

  lemma NewestAfter(history: seq<Pane>, pane: Pane, p: Pane)
    ensures Newest(history + [pane], p) == if p == pane then |history| + 1 else Newest(history, p)
  {
    assert (history + [pane])[..|history|] == history;
  }

  lemma RegisterKeepsNewest(w: World, pane: Pane)
    requires NewestIn(w.pending, w.history) && forall p :: GenerationOf(w.active, p) == Newest(w.history, p)
    ensures var next := Take(w, Register(pane));
      NewestIn(next.pending, next.history) && forall p :: GenerationOf(next.active, p) == Newest(next.history, p)
  {
    var next := Take(w, Register(pane));
    forall p ensures GenerationOf(next.active, p) == Newest(next.history, p) {
      NewestAfter(w.history, pane, p);
    }
    forall p | p in next.pending ensures next.pending[p] == Newest(next.history, p) {
      NewestAfter(w.history, pane, p);
    }
  }

  lemma RegisterKeepsConsistent(w: World, pane: Pane)
    requires Consistent(w)
    ensures Consistent(Take(w, Register(pane)))
  {
    RegisterKeepsNewest(w, pane);
  }

  lemma EmitKeepsKnown(w: World)
    requires Consistent(w) && w.draft.Some?
    ensures Known(Take(w, Emit).running, w.history)
  {
    forall id | id in Take(w, Emit).running && id.generation > 0
      ensures id.generation <= |w.history| && w.history[id.generation - 1] == id.pane
    {
      var s :| s in Built(w.draft.value, w.mounted, w.active) && s.id == id;
    }
  }

  lemma StepKeepsConsistent(w: World, step: Step)
    requires Consistent(w) && Enabled(w, step)
    ensures Consistent(Take(w, step))
  {
    match step
    case Register(pane) => RegisterKeepsConsistent(w, pane);
    case Emit => EmitKeepsKnown(w);
    case _ =>
  }

  lemma RegisterAccounts(w: World, pane: Pane, g: nat)
    requires Consistent(w) && Accounted(w) && 0 < g <= |w.history| + 1
    ensures Accounts(Take(w, Register(pane)), g) == 1
  {
    var next := Take(w, Register(pane));
    if g <= |w.history| {
      assert next.history[g - 1] == w.history[g - 1];
      assert Accounts(w, g) == 1;
    }
  }

  lemma EmitAccounts(w: World, g: nat)
    requires Consistent(w) && Accounted(w) && w.draft.Some? && 0 < g <= |w.history|
    ensures Accounts(Take(w, Emit), g) == 1
  {
    var drained, p := w.draft.value, w.history[g - 1];
    assert Accounts(w, g) == 1;
    assert g in Launched(drained, w.running) <==> Holds(drained, w.history, g) && Identity(p, g) !in w.running;
    assert g in Refused(drained, w.running) <==> Holds(drained, w.history, g) && Identity(p, g) in w.running;
  }

  lemma StepKeepsAccounted(w: World, step: Step)
    requires Consistent(w) && Accounted(w) && Enabled(w, step)
    ensures Accounted(Take(w, step))
  {
    var next := Take(w, step);
    forall g | 0 < g <= |next.history| ensures Accounts(next, g) == 1 {
      match step
      case Register(pane) => RegisterAccounts(w, pane, g);
      case Emit => EmitAccounts(w, g);
      case _ => assert Accounts(w, g) == 1;
    }
  }

  // ----- the window between draining and looking at the state -----

  /** No pane has been registered since the drain that is mounted and was not drained as well. */
  ghost predicate WindowClear(w: World) {
    w.draft.Some? ==> forall p :: p in w.pending && p in w.mounted ==> p in w.draft.value
  }

  /** A build emits a stub for an identity whose reader is still pending exactly when the window is not clear. */
  lemma StubForPendingIffRace(w: World)
    requires Consistent(w) && w.draft.Some?
    ensures (exists s :: s in Built(w.draft.value, w.mounted, w.active) && !s.reader
                           && s.id.pane in w.pending && w.pending[s.id.pane] == s.id.generation)
        <==> !WindowClear(w)
  {
    if !WindowClear(w) {
      var p :| p in w.pending && p in w.mounted && p !in w.draft.value;
      var s := Subscription(Identity(p, GenerationOf(w.active, p)), false);
      assert s in Built(w.draft.value, w.mounted, w.active);
    }
  }

  ghost predicate IsRun(worlds: seq<World>, steps: seq<Step>) {
    && |worlds| == |steps| + 1 && worlds[0] == EMPTY
    && forall i :: 0 <= i < |steps| ==> Enabled(worlds[i], steps[i]) && worlds[i + 1] == Take(worlds[i], steps[i])
  }

  lemma StubRuns()
    ensures Identities(Built(map[], {7}, map[7 := 1])) == {Identity(7, 1)}
    ensures Refused(map[7 := 1], {Identity(7, 1)}) == {1} && Launched(map[7 := 1], {Identity(7, 1)}) == {}
  {
    assert Built(map[], {7}, map[7 := 1]) == {Subscription(Identity(7, 1), false)};
  }

  /** The race, concretely: the pane's reader is registered between drain and look, and is lost. */
  lemma RaceExample() returns (worlds: seq<World>, steps: seq<Step>)
    ensures IsRun(worlds, steps) && worlds[|steps|].lost == {1} && worlds[|steps|].started == multiset{}
  {
    StubRuns();
    var mounted := EMPTY.(mounted := {7});
    var drained := mounted.(draft := Some(map[]));
    var raced := drained.(history := [7], pending := map[7 := 1], active := map[7 := 1]);
    var stubbed := raced.(draft := None, running := {Identity(7, 1)});
    var late := stubbed.(draft := Some(map[7 := 1]), pending := map[]);
    assert Take(raced, Emit) == stubbed by {
      assert Launched(map[], {}) == {} && Refused(map[], {}) == {};
    }
    worlds, steps := [EMPTY], [];
    worlds, steps := RunGrows(worlds, steps, Mount(7), mounted);
    worlds, steps := RunGrows(worlds, steps, Drain, drained);
    worlds, steps := RunGrows(worlds, steps, Register(7), raced);
    worlds, steps := RunGrows(worlds, steps, Emit, stubbed);
    worlds, steps := RunGrows(worlds, steps, Drain, late);
    worlds, steps := RunGrows(worlds, steps, Emit, Take(late, Emit));
  }

  lemma RunGrows(worlds: seq<World>, steps: seq<Step>, step: Step, next: World)
    returns (longer: seq<World>, more: seq<Step>)
    requires IsRun(worlds, steps) && Enabled(worlds[|steps|], step) && next == Take(worlds[|steps|], step)
    ensures IsRun(longer, more) && longer[|more|] == next
  {
    longer, more := worlds + [next], steps + [step];
  }

  lemma {:induction false} RunIsAccounted(worlds: seq<World>, steps: seq<Step>, i: nat)
    requires IsRun(worlds, steps) && i < |worlds|
    ensures Consistent(worlds[i]) && Accounted(worlds[i])
    decreases i
  {
    if i > 0 {
      RunIsAccounted(worlds, steps, i - 1);
      StepKeepsConsistent(worlds[i - 1], steps[i - 1]);
      StepKeepsAccounted(worlds[i - 1], steps[i - 1]);
    }
  }

  // ----- what becomes of a reader registered in the window -----

  /** Between two steps the pane is registered again before the next build drains. */
  ghost predicate Replaced(worlds: seq<World>, steps: seq<Step>, i: nat, k: nat, pane: Pane)
    requires k <= |steps| < |worlds|
  {
    exists m :: i < m < k && steps[m] == Register(pane) && worlds[m].draft.None?
  }

  /** Between two steps the stream of an identity ends. */
  ghost predicate Ended(steps: seq<Step>, i: nat, k: nat, id: Identity)
    requires k <= |steps|
  {
    exists m :: i < m < k && steps[m] == StreamEnds(id)
  }

  /** The stub that the build emits for the pane costs its reader the start. */
  predicate Raced(w: World, pane: Pane)
    requires w.draft.Some?
  {
    pane in w.mounted && pane !in w.draft.value
  }

  /** Where reader `g` of the pane stands on the way to the next build. */
  ghost predicate OnItsWay(w: World, pane: Pane, g: nat, replaced: bool, running: bool) {
    && 0 < g <= |w.history| && w.history[g - 1] == pane
    && (Identity(pane, g) in w.running <==> running)
    && w.started[g] == 0 && g !in w.lost && (g in w.superseded <==> replaced)
    && (w.draft.None? ==> (Holds(w.pending, w.history, g) <==> !replaced))
    && (w.draft.Some? ==> (Holds(w.draft.value, w.history, g) <==> !replaced))
  }

  /** After the build in whose window it was registered, its identity runs exactly if the pane raced. */
  lemma EmitLeavesOnItsWay(w: World, pane: Pane)
    requires Consistent(w) && Accounted(w) && w.draft.Some? && pane in w.pending
    ensures OnItsWay(Take(w, Emit), pane, w.pending[pane], false, Raced(w, pane))
  {
    var g, after := w.pending[pane], Take(w, Emit);
    assert w.history[g - 1] == pane && Holds(w.pending, w.history, g) && Accounts(w, g) == 1;
    EmitAccounts(w, g);
    if Raced(w, pane) {
      assert Subscription(Identity(pane, g), false) in Built(w.draft.value, w.mounted, w.active);
    }
    if Identity(pane, g) in after.running {
      var s :| s in Built(w.draft.value, w.mounted, w.active) && s.id == Identity(pane, g);
      assert !s.reader;
    }
  }

  lemma StepKeepsOnItsWay(w: World, step: Step, pane: Pane, g: nat, replaced: bool, running: bool)
    requires Consistent(w) && Accounted(w) && Enabled(w, step) && !step.Emit?
    requires OnItsWay(w, pane, g, replaced, running)
    ensures OnItsWay(Take(w, step), pane, g, replaced || (step == Register(pane) && w.draft.None?),
                     running && step != StreamEnds(Identity(pane, g)))
  {
    assert Accounts(w, g) == 1;
    if step.Register? {
      RegisterAccounts(w, step.pane, g);
    }
  }

  lemma OneMoreStep(worlds: seq<World>, steps: seq<Step>, i: nat, k: nat, pane: Pane, id: Identity)
    requires i < k < |steps| < |worlds|
    ensures Replaced(worlds, steps, i, k + 1, pane)
       <==> Replaced(worlds, steps, i, k, pane) || (steps[k] == Register(pane) && worlds[k].draft.None?)
    ensures Ended(steps, i, k + 1, id) <==> Ended(steps, i, k, id) || steps[k] == StreamEnds(id)
  {
  }

  lemma RunStep(worlds: seq<World>, steps: seq<Step>, k: nat)
    requires IsRun(worlds, steps) && k < |steps|
    ensures Consistent(worlds[k]) && Accounted(worlds[k])
    ensures Enabled(worlds[k], steps[k]) && worlds[k + 1] == Take(worlds[k], steps[k])
  {
    RunIsAccounted(worlds, steps, k);
  }

  lemma {:induction false} WayToNextBuild(worlds: seq<World>, steps: seq<Step>, i: nat, k: nat, pane: Pane)
    requires IsRun(worlds, steps) && i < k <= |steps| && steps[i].Emit? && pane in worlds[i].pending
    requires forall m :: i < m < k ==> !steps[m].Emit?
    ensures var g := worlds[i].pending[pane];
      OnItsWay(worlds[k], pane, g, Replaced(worlds, steps, i, k, pane),
               Raced(worlds[i], pane) && !Ended(steps, i, k, Identity(pane, g)))
    decreases k
  {
    var last := k - 1;
    RunStep(worlds, steps, last);
    if last == i {
      EmitLeavesOnItsWay(worlds[i], pane);
    } else {
      var g := worlds[i].pending[pane];
      WayToNextBuild(worlds, steps, i, last, pane);
      OneMoreStep(worlds, steps, i, last, pane, Identity(pane, g));
      StepKeepsOnItsWay(worlds[last], steps[last], pane, g, Replaced(worlds, steps, i, last, pane),
                        Raced(worlds[i], pane) && !Ended(steps, i, last, Identity(pane, g)));
    }
  }

  /** What becomes, at the next build, of a reader registered in the window of a build, whatever happens
    * in between: it is superseded exactly if its pane is registered again before that build drains; else
    * it is lost exactly if the pane was mounted and not among those drained when the first build looked,
    * and the stream of the stub has not ended since; else it is started. */
  lemma RaceLosesReader(worlds: seq<World>, steps: seq<Step>, i: nat, j: nat, pane: Pane)
    requires IsRun(worlds, steps) && i < j < |steps| && steps[i].Emit? && steps[j].Emit? && pane in worlds[i].pending
    requires forall m :: i < m < j ==> !steps[m].Emit?
    ensures var g, after := worlds[i].pending[pane], worlds[j + 1];
      var replaced := Replaced(worlds, steps, i, j, pane);
      var refused := Raced(worlds[i], pane) && !Ended(steps, i, j, Identity(pane, g));
      && (g in after.superseded <==> replaced)
      && (g in after.lost <==> !replaced && refused)
      && (after.started[g] == 1 <==> !replaced && !refused)
  {
    var g, w := worlds[i].pending[pane], worlds[j];
    WayToNextBuild(worlds, steps, i, j, pane);
    RunIsAccounted(worlds, steps, j);
    assert g in Refused(w.draft.value, w.running) <==> Holds(w.draft.value, w.history, g) && Identity(pane, g) in w.running;
    assert g in Launched(w.draft.value, w.running) <==> Holds(w.draft.value, w.history, g) && Identity(pane, g) !in w.running;
  }

  // ----- what runs after a build -----

  /** After a build exactly these streams run: those of the readers it drained, and for every other mounted
    * pane the one of its newest generation. So a running stream goes on while its pane stays mounted and no
    * later reader is registered for it, and that of a pane neither mounted nor drained ends. */
  lemma BuildDecidesWhatRuns(worlds: seq<World>, steps: seq<Step>, i: nat, id: Identity)
    requires IsRun(worlds, steps) && i < |steps| && steps[i].Emit?
    ensures var w := worlds[i];
      && w.draft.Some?
      && (id in worlds[i + 1].running <==>
            if id.pane in w.draft.value then id.generation == w.draft.value[id.pane]
            else id.pane in w.mounted && id.generation == Newest(w.history, id.pane))
  {
    var w := worlds[i];
    RunStep(worlds, steps, i);
    var drained := w.draft.value;
    assert GenerationOf(w.active, id.pane) == Newest(w.history, id.pane);
    if id in worlds[i + 1].running {
      var s :| s in Built(drained, w.mounted, w.active) && s.id == id;
    }
    if id.pane in drained && id.generation == drained[id.pane] {
      assert Subscription(id, true) in Built(drained, w.mounted, w.active);
    }
    if id.pane !in drained && id.pane in w.mounted && id.generation == Newest(w.history, id.pane) {
      assert Subscription(id, false) in Built(drained, w.mounted, w.active);
    }
  }

  // ----- runs without the race -----

  /** Every build looks at the state while its window is clear. */
  ghost predicate IsClearRun(worlds: seq<World>, steps: seq<Step>) {
    IsRun(worlds, steps) && forall i :: 0 <= i < |steps| && steps[i].Emit? ==> WindowClear(worlds[i])
  }

  /** Nothing that is running has a reader that is still to be started. */
  ghost predicate NothingAhead(w: World) {
    && (forall id :: id in w.running && id.pane in w.pending ==> w.pending[id.pane] != id.generation)
    && (w.draft.Some? ==> forall id :: id in w.running && id.pane in w.draft.value ==> w.draft.value[id.pane] != id.generation)
    && w.lost == {}
  }

  lemma ClearEmitKeepsNothingAhead(w: World)
    requires Consistent(w) && Accounted(w) && NothingAhead(w) && w.draft.Some? && WindowClear(w)
    ensures NothingAhead(Take(w, Emit))
  {
    var next := Take(w, Emit);
    assert Refused(w.draft.value, w.running) == {};
    forall id | id in next.running && id.pane in next.pending ensures next.pending[id.pane] != id.generation {
      var s :| s in Built(w.draft.value, w.mounted, w.active) && s.id == id;
      var g := w.pending[id.pane];
      assert Accounts(w, g) == 1 && Holds(w.pending, w.history, g);
    }
  }

  lemma StepKeepsNothingAhead(w: World, step: Step)
    requires Consistent(w) && Accounted(w) && NothingAhead(w) && Enabled(w, step)
    requires step.Emit? ==> WindowClear(w)
    ensures NothingAhead(Take(w, step))
  {
    if step.Emit? {
      ClearEmitKeepsNothingAhead(w);
    }
  }

  lemma {:induction false} ClearRunHasNothingAhead(worlds: seq<World>, steps: seq<Step>, i: nat)
    requires IsClearRun(worlds, steps) && i < |worlds|
    ensures NothingAhead(worlds[i])
    decreases i
  {
    if i > 0 {
      ClearRunHasNothingAhead(worlds, steps, i - 1);
      RunIsAccounted(worlds, steps, i - 1);
      StepKeepsNothingAhead(worlds[i - 1], steps[i - 1]);
    }
  }

  /** In a run without the race every reader that is no longer waiting was superseded before a build
    * came to it, or was started exactly once; and none is started twice or lost. */
  lemma EveryReaderStartsOnce(worlds: seq<World>, steps: seq<Step>, i: nat, g: nat)
    requires IsClearRun(worlds, steps) && i < |worlds| && 0 < g <= |worlds[i].history|
    ensures var w := worlds[i];
      && w.started[g] <= 1
      && (w.started[g] == 1 <==> !Holds(w.pending, w.history, g) && !Drafted(w, g) && g !in w.superseded)
  {
    RunIsAccounted(worlds, steps, i);
    ClearRunHasNothingAhead(worlds, steps, i);
    assert Accounts(worlds[i], g) == 1;
  }

  /** No stub is ever started for an identity whose reader is still pending. */
  lemma NoStubForPending(worlds: seq<World>, steps: seq<Step>, i: nat, s: Subscription)
    requires IsClearRun(worlds, steps) && i < |steps| && steps[i].Emit?
    requires s in Built(worlds[i].draft.value, worlds[i].mounted, worlds[i].active) && !s.reader
    ensures s.id.pane in worlds[i].pending ==> worlds[i].pending[s.id.pane] != s.id.generation
  {
    RunIsAccounted(worlds, steps, i);
    StubForPendingIffRace(worlds[i]);
  }

  // ----- builds taken as one step -----

  /** Every drain is followed at once by the look at the state. */
  ghost predicate IsAtomicRun(worlds: seq<World>, steps: seq<Step>) {
    IsRun(worlds, steps) && forall i :: 0 <= i < |steps| && steps[i].Emit? ==> i > 0 && steps[i - 1].Drain?
  }

  lemma AtomicRunIsClear(worlds: seq<World>, steps: seq<Step>)
    requires IsAtomicRun(worlds, steps)
    ensures IsClearRun(worlds, steps)
  {
    forall i | 0 <= i < |steps| && steps[i].Emit? ensures WindowClear(worlds[i]) {
      assert worlds[i - 1 + 1] == Take(worlds[i - 1], steps[i - 1]);
    }
  }

  /** An atomic build emits at most one identity for a pane, and it carries the pane's newest generation:
    * no later one belongs to that pane. */
  lemma AtomicBuildIsNewest(worlds: seq<World>, steps: seq<Step>, i: nat, s: Subscription, t: Subscription)
    requires IsAtomicRun(worlds, steps) && i < |steps| && steps[i].Emit?
    requires var w := worlds[i]; s in Built(w.draft.value, w.mounted, w.active) && t in Built(w.draft.value, w.mounted, w.active)
    ensures s.id.generation == Newest(worlds[i].history, s.id.pane)
    ensures forall k :: s.id.generation <= k < |worlds[i].history| ==> worlds[i].history[k] != s.id.pane
    ensures s.id.pane == t.id.pane ==> s == t
  {
    RunIsAccounted(worlds, steps, i - 1);
    RunIsAccounted(worlds, steps, i);
    assert worlds[i - 1 + 1] == Take(worlds[i - 1], steps[i - 1]);
    assert NewestIn(worlds[i].draft.value, worlds[i].history);
    forall k | s.id.generation <= k < |worlds[i].history| ensures worlds[i].history[k] != s.id.pane {
      if worlds[i].history[k] == s.id.pane {
        NewestIsLast(worlds[i].history, s.id.pane, k + 1);
      }
    }
  }

  /** After an atomic build, every reader registered so far was superseded or has been started once. */
  lemma BuildStartsAllPending(worlds: seq<World>, steps: seq<Step>, i: nat, g: nat)
    requires IsAtomicRun(worlds, steps) && i < |steps| && steps[i].Emit? && 0 < g <= |worlds[i + 1].history|
    ensures worlds[i + 1].started[g] == (if g in worlds[i + 1].superseded then 0 else 1)
  {
    AtomicRunIsClear(worlds, steps);
    assert worlds[i - 1 + 1] == Take(worlds[i - 1], steps[i - 1]);
    assert worlds[i + 1].pending == map[] && worlds[i + 1].draft.None?;
    EveryReaderStartsOnce(worlds, steps, i + 1, g);
    RunIsAccounted(worlds, steps, i + 1);
    assert Accounts(worlds[i + 1], g) == 1;
  }
}
