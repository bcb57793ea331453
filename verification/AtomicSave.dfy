/** Saving by writing a temporary file and renaming it over the destination, with any number of writers
  * in any number of processes, failing or stopping anywhere. */
module AtomicSave {
  import opened Options
  import opened Ordering

  /** A temporary file is named after the process and the process's counter. */
  datatype Temp = Temp(pid: nat, sequence: nat)

  // ----- one save, undisturbed -----

  /** Where a save fails; a failed write leaves so many bytes behind. */
  datatype Fault = NoFault | OnWrite(written: nat) | OnSync | OnReplace | OnSyncParent

  /** Whether the new bytes reach the destination. */
  predicate Replaces(temps: map<Temp, Bytes>, temp: Temp, fault: Fault) {
    temp !in temps && (fault.NoFault? || fault.OnSyncParent?)
  }

  /** Destination, temporary files and success after a save. */
  function Saved(destination: Option<Bytes>, temps: map<Temp, Bytes>, temp: Temp, bytes: Bytes, fault: Fault)
    : (r: (Option<Bytes>, map<Temp, Bytes>, bool))
    ensures r.2 ==> r.0 == Some(bytes)
    ensures r.0 == destination || r.0 == Some(bytes)
    ensures temp !in r.1
  {
    (if Replaces(temps, temp, fault) then Some(bytes) else destination, temps - {temp}, temp !in temps && fault.NoFault?)
  }

  class Directory {
    var destination: Option<Bytes>
    var temps: map<Temp, Bytes>

    constructor (destination: Option<Bytes>, temps: map<Temp, Bytes>)
      ensures this.destination == destination && this.temps == temps
    {
      this.destination := destination;
      this.temps := temps;
    }

    /** Creates, fills, syncs and renames; the error says whether any of it went wrong. */
    method WriteAndReplace(temp: Temp, bytes: Bytes, fault: Fault) returns (ok: bool)
      modifies this
      ensures temps - {temp} == old(temps) - {temp}
      ensures destination == if Replaces(old(temps), temp, fault) then Some(bytes) else old(destination)
      ensures ok == (temp !in old(temps) && fault.NoFault?)
      ensures ok ==> temp !in temps
    {
      if temp in temps {
        return false;
      }
      temps := temps[temp := []];
      if fault.OnWrite? && fault.written < |bytes| {
        temps := temps[temp := bytes[..fault.written]];
        return false;
      }
      temps := temps[temp := bytes];
      if fault.OnWrite? || fault.OnSync? || fault.OnReplace? {
        return false;
      }
      destination, temps := Some(temps[temp]), temps - {temp};
      ok := fault.NoFault?;
    }

    /** The whole save: whatever happens, its temporary file is gone and the destination holds either
      * what it held or all of the new bytes; and which of the two, the fault says. */
    method AtomicWrite(temp: Temp, bytes: Bytes, fault: Fault) returns (ok: bool)
      modifies this
      ensures (destination, temps, ok) == Saved(old(destination), old(temps), temp, bytes, fault)
      ensures ok <==> temp !in old(temps) && fault == NoFault
      ensures temp !in old(temps) && (fault == NoFault || fault == OnSyncParent) ==> destination == Some(bytes)
      ensures temp in old(temps) || (fault != NoFault && fault != OnSyncParent) ==> destination == old(destination)
      ensures temps == old(temps) - {temp}
    {
      ok := WriteAndReplace(temp, bytes, fault);
      if !ok {
        temps := temps - {temp};
      }
      assert temps == temps - {temp};
    }
  }

  // ----- many writers -----

  datatype Phase =
    | Named
    | Writing(written: nat)
    | Synced
    | Renamed
    | Failing
    | Done

  datatype Process = Process(pid: nat, alive: bool, counter: nat)

  datatype Writer = Writer(process: nat, sequence: nat, body: Bytes, phase: Phase)

  /** `renames` lists the writers that replaced the destination, in order. */
  datatype State = State(
    destination: Option<Bytes>,
    temps: map<Temp, Bytes>,
    processes: seq<Process>,
    writers: seq<Writer>,
    renames: seq<nat>
  )

  datatype Step =
    | Launch(pid: nat)
    | Crash(process: nat)
    | Begin(process: nat, body: Bytes)
    | Create(w: nat)
    | Write(w: nat, count: nat)
    | Sync(w: nat)
    | Rename(w: nat)
    | Fail(w: nat)
    | CleanUp(w: nat)
    | Finish(w: nat)

  function TempOf(s: State, w: nat): Temp
    requires w < |s.writers| && s.writers[w].process < |s.processes|
  {
    Temp(s.processes[s.writers[w].process].pid, s.writers[w].sequence)
  }

  /** The writer's process is running and the writer has not returned. */
  predicate Active(s: State, w: nat) {
    && w < |s.writers| && s.writers[w].process < |s.processes|
    && s.processes[s.writers[w].process].alive && !s.writers[w].phase.Done?
  }

  predicate PidFree(s: State, pid: nat) {
    forall p :: 0 <= p < |s.processes| && s.processes[p].alive ==> s.processes[p].pid != pid
  }

  predicate Enabled(s: State, step: Step) {
    match step
    case Launch(pid) => PidFree(s, pid)
    case Crash(p) => p < |s.processes| && s.processes[p].alive
    case Begin(p, _) => p < |s.processes| && s.processes[p].alive
    case Create(w) => Active(s, w) && s.writers[w].phase.Named?
    case Write(w, count) => Active(s, w) && s.writers[w].phase.Writing? && s.writers[w].phase.written + count <= |s.writers[w].body|
    case Sync(w) => Active(s, w) && s.writers[w].phase == Writing(|s.writers[w].body|)
    case Rename(w) => Active(s, w) && s.writers[w].phase.Synced? && TempOf(s, w) in s.temps
    case Fail(w) => Active(s, w) && !s.writers[w].phase.Failing?
    case CleanUp(w) => Active(s, w) && s.writers[w].phase.Failing?
    case Finish(w) => Active(s, w) && s.writers[w].phase.Renamed?
  }

  function Moved(s: State, w: nat, phase: Phase): State
    requires w < |s.writers|
  {
    s.(writers := s.writers[w := s.writers[w].(phase := phase)])
  }

  function Take(s: State, step: Step): State
    requires Enabled(s, step)
  {
    match step
    case Launch(pid) => s.(processes := s.processes + [Process(pid, true, 0)])
    case Crash(p) => s.(processes := s.processes[p := s.processes[p].(alive := false)])
    case Begin(p, body) =>
      var process := s.processes[p];
      s.(processes := s.processes[p := process.(counter := process.counter + 1)],
         writers := s.writers + [Writer(p, process.counter, body, Named)])
    case Create(w) =>
      if TempOf(s, w) in s.temps then Moved(s, w, Failing)
      else Moved(s, w, Writing(0)).(temps := s.temps[TempOf(s, w) := []])
    case Write(w, count) =>
      var written := s.writers[w].phase.written + count;
      Moved(s, w, Writing(written)).(temps := s.temps[TempOf(s, w) := s.writers[w].body[..written]])
    case Sync(w) => Moved(s, w, Synced)
    case Rename(w) =>
      Moved(s, w, Renamed).(destination := Some(s.temps[TempOf(s, w)]), temps := s.temps - {TempOf(s, w)}, renames := s.renames + [w])
    case Fail(w) => Moved(s, w, Failing)
    case CleanUp(w) => Moved(s, w, Done).(temps := s.temps - {TempOf(s, w)})
    case Finish(w) => Moved(s, w, Done)
  }

  // ----- what every step keeps -----

  /** Running processes have different ids, and a process's writers have different numbers. */
  ghost predicate Numbered(s: State) {
    && (forall p, q :: 0 <= p < q < |s.processes| && s.processes[p].alive && s.processes[q].alive ==>
          s.processes[p].pid != s.processes[q].pid)
    && (forall w :: 0 <= w < |s.writers| ==>
          s.writers[w].process < |s.processes| && s.writers[w].sequence < s.processes[s.writers[w].process].counter)
    && (forall v, w :: 0 <= v < w < |s.writers| && s.writers[v].process == s.writers[w].process ==>
          s.writers[v].sequence != s.writers[w].sequence)
  }

  /** What an active writer finds in its temporary file. */
  ghost predicate TempReady(s: State, w: nat)
    requires w < |s.writers| && s.writers[w].process < |s.processes|
  {
    var writer := s.writers[w];
    match writer.phase
    case Writing(written) =>
      written <= |writer.body| && TempOf(s, w) in s.temps && s.temps[TempOf(s, w)] == writer.body[..written]
    case Synced => TempOf(s, w) in s.temps && s.temps[TempOf(s, w)] == writer.body
    case _ => true
  }

  ghost predicate TempsReady(s: State)
    requires Numbered(s)
  {
    forall w :: 0 <= w < |s.writers| && Active(s, w) ==> TempReady(s, w)
  }

  /** The destination is what the last rename made it: all of that writer's bytes. */
  ghost predicate DestinationWhole(s: State, original: Option<Bytes>) {
    && (forall k :: 0 <= k < |s.renames| ==> s.renames[k] < |s.writers|)
    && s.destination == (if s.renames == [] then original else Some(s.writers[s.renames[|s.renames| - 1]].body))
  }

  ghost predicate Sound(s: State, original: Option<Bytes>) {
    Numbered(s) && TempsReady(s) && DestinationWhole(s, original)
  }

  /** Two writers in running processes never share a temporary file. */
  lemma WritersNeverShareTemps(s: State, v: nat, w: nat)
    requires Numbered(s) && Active(s, v) && Active(s, w) && v != w
    ensures TempOf(s, v) != TempOf(s, w)
  {
    if v < w {
      assert s.writers[v].process == s.writers[w].process ==> s.writers[v].sequence != s.writers[w].sequence;
    } else {
      assert s.writers[w].process == s.writers[v].process ==> s.writers[w].sequence != s.writers[v].sequence;
    }
    var p, q := s.writers[v].process, s.writers[w].process;
    if p < q {
      assert s.processes[p].pid != s.processes[q].pid;
    } else if q < p {
      assert s.processes[q].pid != s.processes[p].pid;
    }
  }

  predicate OfWriter(step: Step) {
    !step.Launch? && !step.Crash? && !step.Begin?
  }

  /** No step renumbers a writer or gives a process another id. */
  ghost predicate KeepsNames(s: State, next: State) {
    && |s.processes| <= |next.processes| && |s.writers| <= |next.writers|
    && (forall p :: 0 <= p < |s.processes| ==> next.processes[p].pid == s.processes[p].pid)
    && (forall w :: 0 <= w < |s.writers| ==>
          next.writers[w].process == s.writers[w].process && next.writers[w].sequence == s.writers[w].sequence)
  }

  lemma StepKeepsNames(s: State, step: Step)
    requires Enabled(s, step)
    ensures KeepsNames(s, Take(s, step))
    ensures OfWriter(step) ==> Take(s, step).processes == s.processes && |Take(s, step).writers| == |s.writers|
  {
  }

  lemma ProcessStepKeepsNumbered(s: State, step: Step)
    requires Numbered(s) && Enabled(s, step) && !OfWriter(step)
    ensures Numbered(Take(s, step))
  {
  }

  lemma StepKeepsNumbered(s: State, step: Step)
    requires Numbered(s) && Enabled(s, step)
    ensures Numbered(Take(s, step))
  {
    if OfWriter(step) {
      StepKeepsNames(s, step);
    } else {
      ProcessStepKeepsNumbered(s, step);
    }
  }

  /** A writer's step leaves the temporary file of every other active writer alone. */
  lemma StepSparesOthers(s: State, step: Step, v: nat)
    requires Numbered(s) && Enabled(s, step) && OfWriter(step) && Active(s, v) && v != step.w
    ensures Take(s, step).writers[v] == s.writers[v] && Take(s, step).processes == s.processes
    ensures TempOf(s, v) in Take(s, step).temps <==> TempOf(s, v) in s.temps
    ensures TempOf(s, v) in s.temps ==> Take(s, step).temps[TempOf(s, v)] == s.temps[TempOf(s, v)]
  {
    WritersNeverShareTemps(s, v, step.w);
  }

  lemma WriterStepKeepsTemp(s: State, step: Step, v: nat)
    requires Numbered(s) && TempsReady(s) && Enabled(s, step) && OfWriter(step)
    requires Numbered(Take(s, step)) && Active(Take(s, step), v)
    ensures TempReady(Take(s, step), v)
  {
    assert Take(s, step).processes == s.processes;
    assert Active(s, v);
    assert TempReady(s, v);
    if v != step.w {
      StepSparesOthers(s, step, v);
    } else if step.Sync? {
      assert s.writers[v].body[..|s.writers[v].body|] == s.writers[v].body;
    }
  }

  lemma ProcessStepKeepsTemp(s: State, step: Step, v: nat)
    requires Numbered(s) && TempsReady(s) && Enabled(s, step) && !OfWriter(step)
    requires Numbered(Take(s, step)) && Active(Take(s, step), v)
    ensures TempReady(Take(s, step), v)
  {
    if v < |s.writers| {
      assert Active(s, v) && TempReady(s, v);
      assert TempOf(Take(s, step), v) == TempOf(s, v);
    }
  }

  lemma StepKeepsTemps(s: State, step: Step)
    requires Numbered(s) && TempsReady(s) && Enabled(s, step) && Numbered(Take(s, step))
    ensures TempsReady(Take(s, step))
  {
    forall v | 0 <= v < |Take(s, step).writers| && Active(Take(s, step), v) ensures TempReady(Take(s, step), v) {
      if OfWriter(step) {
        WriterStepKeepsTemp(s, step, v);
      } else {
        ProcessStepKeepsTemp(s, step, v);
      }
    }
  }

  lemma StepKeepsDestination(s: State, original: Option<Bytes>, step: Step)
    requires Sound(s, original) && Enabled(s, step)
    ensures DestinationWhole(Take(s, step), original)
  {
    var next := Take(s, step);
    assert forall w :: 0 <= w < |s.writers| ==> w < |next.writers| && next.writers[w].body == s.writers[w].body;
    if step.Rename? {
      assert TempReady(s, step.w);
    }
  }

  lemma StepKeepsSound(s: State, original: Option<Bytes>, step: Step)
    requires Sound(s, original) && Enabled(s, step)
    ensures Sound(Take(s, step), original)
  {
    StepKeepsNumbered(s, step);
    StepKeepsTemps(s, step);
    StepKeepsDestination(s, original, step);
  }

  // ----- whole runs -----

  /** A run starts with any destination, any leftovers of processes long gone, and nobody writing. */
  ghost predicate IsRun(states: seq<State>, steps: seq<Step>) {
    && |states| == |steps| + 1
    && states[0].processes == [] && states[0].writers == [] && states[0].renames == []
    && forall i :: 0 <= i < |steps| ==> Enabled(states[i], steps[i]) && states[i + 1] == Take(states[i], steps[i])
  }

  lemma {:induction false} RunIsSound(states: seq<State>, steps: seq<Step>, i: nat)
    requires IsRun(states, steps) && i < |states|
    ensures Sound(states[i], states[0].destination)
    decreases i
  {
    if i > 0 {
      RunIsSound(states, steps, i - 1);
      StepKeepsSound(states[i - 1], states[0].destination, steps[i - 1]);
    }
  }

  /** At every point of every run, the destination holds what it held at first or the complete bytes of
    * one writer: the one that renamed last. */
  lemma DestinationIsWhole(states: seq<State>, steps: seq<Step>, i: nat)
    requires IsRun(states, steps) && i < |states|
    ensures var s := states[i];
      || s.destination == states[0].destination
      || exists w :: 0 <= w < |s.writers| && w in s.renames && s.destination == Some(s.writers[w].body)
  {
    RunIsSound(states, steps, i);
    var s := states[i];
    if s.renames != [] {
      var w := s.renames[|s.renames| - 1];
      assert w in s.renames && s.destination == Some(s.writers[w].body);
    }
  }

  /** No two writers that are still at work share a temporary file, though process ids come round again. */
  lemma RunNeverSharesTemps(states: seq<State>, steps: seq<Step>, i: nat, v: nat, w: nat)
    requires IsRun(states, steps) && i < |states| && Active(states[i], v) && Active(states[i], w) && v != w
    ensures TempOf(states[i], v) != TempOf(states[i], w)
  {
    RunIsSound(states, steps, i);
    WritersNeverShareTemps(states[i], v, w);
  }

  /** A rename always finds the file it renames, complete, however the others are interleaved. */
  lemma RenameIsComplete(states: seq<State>, steps: seq<Step>, i: nat, w: nat)
    requires IsRun(states, steps) && i < |states| && Active(states[i], w) && states[i].writers[w].phase.Synced?
    ensures Enabled(states[i], Rename(w)) && Take(states[i], Rename(w)).destination == Some(states[i].writers[w].body)
  {
    RunIsSound(states, steps, i);
    assert TempReady(states[i], w);
  }

  // ----- what is left behind -----

  /** A temporary file was there at first, or belongs to a writer at work, or to one whose process died. */
  ghost predicate Explained(s: State, leftovers: set<Temp>, temp: Temp)
    requires Numbered(s)
  {
    || temp in leftovers
    || exists w :: Explains(s, w, temp)
  }

  ghost predicate Explains(s: State, w: nat, temp: Temp)
    requires Numbered(s)
  {
    w < |s.writers| && TempOf(s, w) == temp && !s.writers[w].phase.Done?
  }

  lemma ExplanationsStay(s: State, step: Step, w: nat, temp: Temp)
    requires Numbered(s) && Enabled(s, step) && Numbered(Take(s, step))
    requires Explains(s, w, temp) && temp in Take(s, step).temps
    requires step.Finish? ==> TempOf(s, step.w) !in s.temps
    ensures Explains(Take(s, step), w, temp)
  {
    StepKeepsNames(s, step);
  }

  lemma NewTempIsExplained(s: State, step: Step, temp: Temp)
    requires Numbered(s) && TempsReady(s) && Enabled(s, step) && Numbered(Take(s, step))
    requires temp in Take(s, step).temps && temp !in s.temps
    ensures OfWriter(step) && Explains(Take(s, step), step.w, temp)
  {
    StepKeepsNames(s, step);
  }

  lemma StepKeepsExplained(s: State, leftovers: set<Temp>, step: Step, temp: Temp)
    requires Numbered(s) && TempsReady(s) && Enabled(s, step) && Numbered(Take(s, step))
    requires temp in s.temps ==> Explained(s, leftovers, temp)
    requires temp in Take(s, step).temps
    requires step.Finish? ==> TempOf(s, step.w) !in s.temps
    ensures Explained(Take(s, step), leftovers, temp)
  {
    if temp !in s.temps {
      NewTempIsExplained(s, step, temp);
    } else if temp !in leftovers {
      var w :| Explains(s, w, temp);
      ExplanationsStay(s, step, w, temp);
    }
  }

  /** A writer that renamed has no temporary file any more. */
  ghost predicate RenamedHasNone(s: State)
    requires Numbered(s)
  {
    forall w :: 0 <= w < |s.writers| && Active(s, w) && s.writers[w].phase.Renamed? ==> TempOf(s, w) !in s.temps
  }

  lemma StepKeepsRenamedHasNone(s: State, step: Step)
    requires Numbered(s) && RenamedHasNone(s) && Enabled(s, step) && Numbered(Take(s, step))
    ensures RenamedHasNone(Take(s, step))
  {
    var next := Take(s, step);
    forall v | 0 <= v < |next.writers| && Active(next, v) && next.writers[v].phase.Renamed? ensures TempOf(next, v) !in next.temps {
      if OfWriter(step) && v != step.w {
        StepSparesOthers(s, step, v);
      } else {
        assert TempOf(next, v) == TempOf(s, v);
      }
    }
  }

  ghost predicate TempsExplained(s: State, leftovers: set<Temp>)
    requires Numbered(s)
  {
    forall temp :: temp in s.temps ==> Explained(s, leftovers, temp)
  }

  lemma StepKeepsTempsExplained(s: State, leftovers: set<Temp>, step: Step)
    requires Numbered(s) && TempsReady(s) && Enabled(s, step) && Numbered(Take(s, step))
    requires RenamedHasNone(s) && TempsExplained(s, leftovers)
    ensures RenamedHasNone(Take(s, step)) && TempsExplained(Take(s, step), leftovers)
  {
    StepKeepsRenamedHasNone(s, step);
    forall temp | temp in Take(s, step).temps ensures Explained(Take(s, step), leftovers, temp) {
      StepKeepsExplained(s, leftovers, step, temp);
    }
  }

  lemma {:induction false} RunExplainsTemps(states: seq<State>, steps: seq<Step>, i: nat)
    requires IsRun(states, steps) && i < |states|
    ensures Numbered(states[i]) && RenamedHasNone(states[i]) && TempsExplained(states[i], states[0].temps.Keys)
    decreases i
  {
    RunIsSound(states, steps, i);
    if i > 0 {
      RunExplainsTemps(states, steps, i - 1);
      RunIsSound(states, steps, i - 1);
      StepKeepsTempsExplained(states[i - 1], states[0].temps.Keys, steps[i - 1]);
    }
  }

  /** When every writer has returned, no temporary file is left that was not there before. */
  lemma FinishedRunLeavesNoTemps(states: seq<State>, steps: seq<Step>, i: nat)
    requires IsRun(states, steps) && i < |states|
    requires forall w :: 0 <= w < |states[i].writers| ==> states[i].writers[w].phase.Done?
    ensures states[i].temps.Keys <= states[0].temps.Keys
  {
    RunExplainsTemps(states, steps, i);
    forall temp | temp in states[i].temps ensures temp in states[0].temps {
      assert Explained(states[i], states[0].temps.Keys, temp);
    }
  }

  // ----- an undisturbed writer does what the save does -----

  ghost predicate Runs(s: State, steps: seq<Step>, end: State)
    decreases |steps|
  {
    if steps == [] then s == end else Enabled(s, steps[0]) && Runs(Take(s, steps[0]), steps[1..], end)
  }

  lemma RunsOn(s: State, step: Step, rest: seq<Step>, end: State)
    requires Enabled(s, step) && Runs(Take(s, step), rest, end)
    ensures Runs(s, [step] + rest, end)
  {
    assert ([step] + rest)[1..] == rest;
  }

  /** What a writer does once its file is synced, up to its fault. */
  function AfterSync(w: nat, fault: Fault): seq<Step> {
    if fault.OnReplace? then [Fail(w), CleanUp(w)]
    else if fault.NoFault? then [Rename(w)] + [Finish(w)]
    else [Rename(w)] + [Fail(w), CleanUp(w)]
  }

  function AfterWrite(w: nat, fault: Fault): seq<Step> {
    if fault.OnWrite? || fault.OnSync? then [Fail(w), CleanUp(w)] else [Sync(w)] + AfterSync(w, fault)
  }

  function BytesWritten(body: Bytes, fault: Fault): (count: nat)
    ensures count <= |body|
  {
    if fault.OnWrite? && fault.written < |body| then fault.written else |body|
  }

  /** The steps of a writer whom nobody interferes with, for each fault. */
  function SaveSteps(s: State, w: nat, fault: Fault): seq<Step>
    requires w < |s.writers| && s.writers[w].process < |s.processes|
  {
    if TempOf(s, w) in s.temps then [Create(w)] + [CleanUp(w)]
    else [Create(w)] + ([Write(w, BytesWritten(s.writers[w].body, fault))] + AfterWrite(w, fault))
  }

  /** The writer has returned and its temporary file is gone. */
  ghost predicate Returned(s: State, w: nat, destination: Option<Bytes>, end: State)
    requires w < |s.writers| && s.writers[w].process < |s.processes|
  {
    && end.destination == destination && end.temps == s.temps - {TempOf(s, w)}
    && end.writers == s.writers[w := s.writers[w].(phase := Done)]
  }

  lemma CleaningReturns(s: State, w: nat) returns (end: State)
    requires Active(s, w) && s.writers[w].phase.Failing?
    ensures Runs(s, [CleanUp(w)], end) && Returned(s, w, s.destination, end)
  {
    end := Take(s, CleanUp(w));
    assert [CleanUp(w)][1..] == [];
  }

  lemma FailingReturns(s: State, w: nat) returns (end: State)
    requires Active(s, w) && !s.writers[w].phase.Failing?
    ensures Runs(s, [Fail(w), CleanUp(w)], end) && Returned(s, w, s.destination, end)
  {
    end := CleaningReturns(Take(s, Fail(w)), w);
    assert [Fail(w), CleanUp(w)][1..] == [CleanUp(w)];
  }

  /** The file of a writer is complete. */
  predicate Complete(s: State, w: nat) {
    Active(s, w) && TempOf(s, w) in s.temps && s.temps[TempOf(s, w)] == s.writers[w].body
  }

  lemma SyncedReturns(s: State, w: nat, fault: Fault) returns (end: State)
    requires Complete(s, w) && s.writers[w].phase.Synced? && !fault.OnWrite? && !fault.OnSync?
    ensures Runs(s, AfterSync(w, fault), end)
    ensures Returned(s, w, if fault.OnReplace? then s.destination else Some(s.writers[w].body), end)
  {
    if fault.OnReplace? {
      end := FailingReturns(s, w);
    } else {
      var renamed := Take(s, Rename(w));
      if fault.NoFault? {
        end := Take(renamed, Finish(w));
        assert [Finish(w)][1..] == [] && Runs(renamed, [Finish(w)], end);
        RunsOn(s, Rename(w), [Finish(w)], end);
      } else {
        end := FailingReturns(renamed, w);
        RunsOn(s, Rename(w), [Fail(w), CleanUp(w)], end);
      }
    }
  }

  lemma WrittenReturns(s: State, w: nat, fault: Fault) returns (end: State)
    requires Active(s, w) && s.writers[w].phase.Writing?
    requires fault.OnWrite? || fault.OnSync? || (Complete(s, w) && s.writers[w].phase.written == |s.writers[w].body|)
    ensures Runs(s, AfterWrite(w, fault), end)
    ensures Returned(s, w, if fault.NoFault? || fault.OnSyncParent? then Some(s.writers[w].body) else s.destination, end)
  {
    if fault.OnWrite? || fault.OnSync? {
      end := FailingReturns(s, w);
    } else {
      end := SyncedReturns(Take(s, Sync(w)), w, fault);
      RunsOn(s, Sync(w), AfterSync(w, fault), end);
    }
  }

  lemma CreatedReturns(s: State, w: nat, fault: Fault) returns (end: State)
    requires Active(s, w) && s.writers[w].phase == Writing(0) && TempOf(s, w) in s.temps
    ensures Runs(s, [Write(w, BytesWritten(s.writers[w].body, fault))] + AfterWrite(w, fault), end)
    ensures Returned(s, w, if fault.NoFault? || fault.OnSyncParent? then Some(s.writers[w].body) else s.destination, end)
  {
    var count := BytesWritten(s.writers[w].body, fault);
    var written := Take(s, Write(w, count));
    assert s.writers[w].body[..|s.writers[w].body|] == s.writers[w].body;
    end := WrittenReturns(written, w, fault);
    RunsOn(s, Write(w, count), AfterWrite(w, fault), end);
  }

  /** The steps of a writer whom nobody interferes with leave the destination and the temporary files as
    * the save does, for every fault and also when its temporary file is there already. */
  lemma SaveRefinesSteps(s: State, w: nat, fault: Fault) returns (end: State)
    requires Active(s, w) && s.writers[w].phase.Named?
    ensures Runs(s, SaveSteps(s, w, fault), end)
    ensures var saved := Saved(s.destination, s.temps, TempOf(s, w), s.writers[w].body, fault);
      Returned(s, w, saved.0, end) && end.temps == saved.1
  {
    var created, temp := Take(s, Create(w)), TempOf(s, w);
    if temp in s.temps {
      end := CleaningReturns(created, w);
      RunsOn(s, Create(w), [CleanUp(w)], end);
    } else {
      end := CreatedReturns(created, w, fault);
      RunsOn(s, Create(w), [Write(w, BytesWritten(s.writers[w].body, fault))] + AfterWrite(w, fault), end);
      assert created.temps - {temp} == s.temps - {temp};
    }
  }
}
