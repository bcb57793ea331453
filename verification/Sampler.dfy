/** The lock-free sampler of symbol fallbacks: every frame adds to a shared counter, and whichever
  * thread wins the timestamp of a new interval takes the whole counter and reports it. */
module Sampler {
  import opened Options

  const SAMPLE_INTERVAL_MS := 250

  function SaturatingSub(a: nat, b: nat): nat {
    if a >= b then a - b else 0
  }

  // ----- one call, undisturbed -----

  /** Pending count, last sample time and what is reported after a call nobody interferes with. */
  function Recorded(pending: nat, last: nat, count: nat, now: nat): (nat, nat, Option<nat>) {
    if count == 0 then (pending, last, None)
    else if SaturatingSub(now, last) < SAMPLE_INTERVAL_MS then (pending + count, last, None)
    else (0, now, Some(pending + count))
  }

  class SymbolFallbacks {
    var pending: nat
    var lastSample: nat

    constructor ()
      ensures pending == 0 && lastSample == 0
    {
      pending, lastSample := 0, 0;
    }

    method CompareExchange(previous: nat, now: nat) returns (swapped: bool)
      modifies this`lastSample
      ensures swapped == (old(lastSample) == previous)
      ensures lastSample == if swapped then now else old(lastSample)
    {
      swapped := lastSample == previous;
      if swapped {
        lastSample := now;
      }
    }

    /** Counts a frame. Exactly when there is something to count and 250 ms have passed since the last
      * sample, it reports all that is pending and starts over; otherwise it keeps what it counts. */
    method Record(count: nat, now: nat) returns (report: Option<nat>)
      modifies this
      ensures (pending, lastSample, report) == Recorded(old(pending), old(lastSample), count, now)
      ensures report.Some? <==> count > 0 && now >= old(lastSample) + 250
      ensures report.Some? ==> report.value == old(pending) + count && pending == 0 && lastSample == now
      ensures report.None? ==> pending == old(pending) + count && lastSample == old(lastSample)
    {
      if count == 0 {
        return None;
      }
      pending := pending + count;
      var previous := lastSample;
      if SaturatingSub(now, previous) < SAMPLE_INTERVAL_MS {
        return None;
      }
      var swapped := CompareExchange(previous, now);
      if !swapped {
        return None;
      }
      var reshapes := pending;
      pending := 0;
      if reshapes == 0 {
        return None;
      }
      report := Some(reshapes);
    }
  }

  // ----- any number of threads -----

  /** Where a thread stands in its call. A thread that won carries the number of its win. */
  datatype Phase =
    | Idle
    | Counted
    | Timed(now: nat)
    | Loaded(now: nat, previous: nat)
    | Won(now: nat, win: nat)
    | Holding(now: nat, win: nat, count: nat)

  datatype Report = Report(count: nat, time: nat, win: nat)

  /** The atomics, the threads, and what has happened: everything counted, the times of the successful
    * exchanges in their order, and the reports handed to the queue. */
  datatype State = State(
    pending: nat,
    last: nat,
    threads: seq<Phase>,
    recorded: nat,
    wins: seq<nat>,
    reports: seq<Report>
  )

  datatype Step =
    | Spawn
    | Add(t: nat, count: nat)
    | ReadClock(t: nat, now: nat)
    | Load(t: nat, previous: nat)
    | Exchange(t: nat)
    | Swap(t: nat)
    | Enqueue(t: nat)

  const INITIAL := State(0, 0, [], 0, [], [])

  /** A relaxed load may see any value the timestamp has ever had; clocks may say anything. */
  predicate Enabled(s: State, step: Step) {
    match step
    case Spawn => true
    case Add(t, count) => t < |s.threads| && s.threads[t].Idle? && count > 0
    case ReadClock(t, _) => t < |s.threads| && s.threads[t].Counted?
    case Load(t, previous) => t < |s.threads| && s.threads[t].Timed? && previous in [0] + s.wins
    case Exchange(t) => t < |s.threads| && s.threads[t].Loaded?
    case Swap(t) => t < |s.threads| && s.threads[t].Won?
    case Enqueue(t) => t < |s.threads| && s.threads[t].Holding?
  }

  function Moved(s: State, t: nat, phase: Phase): State
    requires t < |s.threads|
  {
    s.(threads := s.threads[t := phase])
  }

  function Take(s: State, step: Step): State
    requires Enabled(s, step)
  {
    match step
    case Spawn => s.(threads := s.threads + [Idle])
    case Add(t, count) => Moved(s, t, Counted).(pending := s.pending + count, recorded := s.recorded + count)
    case ReadClock(t, now) => Moved(s, t, Timed(now))
    case Load(t, previous) => Moved(s, t, Loaded(s.threads[t].now, previous))
    case Exchange(t) =>
      var now, previous := s.threads[t].now, s.threads[t].previous;
      if SaturatingSub(now, previous) < SAMPLE_INTERVAL_MS || s.last != previous then Moved(s, t, Idle)
      else Moved(s, t, Won(now, |s.wins|)).(last := now, wins := s.wins + [now])
    case Swap(t) =>
      if s.pending == 0 then Moved(s, t, Idle)
      else Moved(s, t, Holding(s.threads[t].now, s.threads[t].win, s.pending)).(pending := 0)
    case Enqueue(t) =>
      var phase := s.threads[t];
      Moved(s, t, Idle).(reports := s.reports + [Report(phase.count, phase.now, phase.win)])
  }

  // ----- conservation -----

  function HeldBy(phase: Phase): nat {
    if phase.Holding? then phase.count else 0
  }

  function Held(threads: seq<Phase>): nat {
    if threads == [] then 0 else HeldBy(threads[0]) + Held(threads[1..])
  }

  function Reported(reports: seq<Report>): nat {
    if reports == [] then 0 else Reported(reports[..|reports| - 1]) + reports[|reports| - 1].count
  }

  lemma {:induction false} HeldAfter(threads: seq<Phase>, t: nat, phase: Phase)
    requires t < |threads|
    ensures Held(threads[t := phase]) == Held(threads) - HeldBy(threads[t]) + HeldBy(phase)
    decreases t
  {
    if t == 0 {
      assert threads[0 := phase][1..] == threads[1..];
    } else {
      HeldAfter(threads[1..], t - 1, phase);
      assert threads[t := phase][1..] == threads[1..][t - 1 := phase];
    }
  }

  lemma {:induction false} HeldAfterSpawn(threads: seq<Phase>)
    ensures Held(threads + [Idle]) == Held(threads)
    decreases |threads|
  {
    if threads == [] {
      assert ([] + [Idle])[1..] == [];
    } else {
      HeldAfterSpawn(threads[1..]);
      assert (threads + [Idle])[1..] == threads[1..] + [Idle];
    }
  }

  lemma ReportedAfter(reports: seq<Report>, report: Report)
    ensures Reported(reports + [report]) == Reported(reports) + report.count
  {
    assert (reports + [report])[..|reports|] == reports;
  }

  /** Everything counted is pending, taken but not yet reported, or reported. */
  ghost predicate Conserved(s: State) {
    s.recorded == s.pending + Held(s.threads) + Reported(s.reports)
  }

  lemma StepConserves(s: State, step: Step)
    requires Conserved(s) && Enabled(s, step)
    ensures Conserved(Take(s, step))
  {
    if step.Spawn? {
      HeldAfterSpawn(s.threads);
    } else {
      HeldAfter(s.threads, step.t, Take(s, step).threads[step.t]);
      if step.Enqueue? {
        var phase := s.threads[step.t];
        ReportedAfter(s.reports, Report(phase.count, phase.now, phase.win));
      }
    }
  }

  // ----- spacing -----

  /** The exchanges that succeeded: each at least an interval after the one before, the last one standing. */
  ghost predicate WinsSpaced(s: State) {
    && s.last == (if s.wins == [] then 0 else s.wins[|s.wins| - 1])
    && (forall i :: 0 < i < |s.wins| ==> s.wins[i] >= s.wins[i - 1] + SAMPLE_INTERVAL_MS)
    && (s.wins != [] ==> s.wins[0] >= SAMPLE_INTERVAL_MS)
  }

  lemma StepKeepsSpacing(s: State, step: Step)
    requires WinsSpaced(s) && Enabled(s, step)
    ensures WinsSpaced(Take(s, step))
  {
  }

  predicate HasWin(phase: Phase) {
    phase.Won? || phase.Holding?
  }

  /** A win belongs to one thread or one report, which carries its time. */
  ghost predicate WinsOwned(s: State) {
    && (forall t :: 0 <= t < |s.threads| && HasWin(s.threads[t]) ==>
          s.threads[t].win < |s.wins| && s.threads[t].now == s.wins[s.threads[t].win])
    && (forall r :: 0 <= r < |s.reports| ==> s.reports[r].win < |s.wins| && s.reports[r].time == s.wins[s.reports[r].win])
    && (forall t, u :: 0 <= t < u < |s.threads| && HasWin(s.threads[t]) && HasWin(s.threads[u]) ==>
          s.threads[t].win != s.threads[u].win)
    && (forall r, q :: 0 <= r < q < |s.reports| ==> s.reports[r].win != s.reports[q].win)
    && (forall t, r :: 0 <= t < |s.threads| && 0 <= r < |s.reports| && HasWin(s.threads[t]) ==>
          s.threads[t].win != s.reports[r].win)
  }

  /** A thread that moves on without a new win. */
  lemma MovingKeepsOwners(s: State, next: State, t: nat, phase: Phase)
    requires WinsOwned(s) && t < |s.threads|
    requires next.threads == s.threads[t := phase] && next.wins == s.wins && next.reports == s.reports
    requires HasWin(phase) ==> HasWin(s.threads[t]) && phase.win == s.threads[t].win && phase.now == s.threads[t].now
    ensures WinsOwned(next)
  {
    forall u, v | 0 <= u < v < |next.threads| && HasWin(next.threads[u]) && HasWin(next.threads[v])
      ensures next.threads[u].win != next.threads[v].win
    {
      assert s.threads[u].win != s.threads[v].win;
    }
  }

  lemma SpawningKeepsOwners(s: State)
    requires WinsOwned(s)
    ensures WinsOwned(Take(s, Spawn))
  {
  }

  lemma WinningKeepsOwners(s: State, next: State, t: nat, now: nat)
    requires WinsOwned(s) && t < |s.threads|
    requires next.threads == s.threads[t := Won(now, |s.wins|)] && next.wins == s.wins + [now] && next.reports == s.reports
    ensures WinsOwned(next)
  {
  }

  lemma EnqueueKeepsOwners(s: State, t: nat)
    requires WinsOwned(s) && Enabled(s, Enqueue(t))
    ensures WinsOwned(Take(s, Enqueue(t)))
  {
  }

  lemma StepKeepsOwners(s: State, step: Step)
    requires WinsOwned(s) && Enabled(s, step)
    ensures WinsOwned(Take(s, step))
  {
    if step.Spawn? {
      SpawningKeepsOwners(s);
    } else if step.Enqueue? {
      EnqueueKeepsOwners(s, step.t);
    } else {
      var next := Take(s, step);
      if |next.wins| > |s.wins| {
        WinningKeepsOwners(s, next, step.t, s.threads[step.t].now);
      } else {
        MovingKeepsOwners(s, next, step.t, next.threads[step.t]);
      }
    }
  }

  // ----- whole runs -----

  ghost predicate IsRun(states: seq<State>, steps: seq<Step>) {
    && |states| == |steps| + 1 && states[0] == INITIAL
    && forall i :: 0 <= i < |steps| ==> Enabled(states[i], steps[i]) && states[i + 1] == Take(states[i], steps[i])
  }

  lemma {:induction false} RunKeepsInvariants(states: seq<State>, steps: seq<Step>, i: nat)
    requires IsRun(states, steps) && i < |states|
    ensures Conserved(states[i]) && WinsSpaced(states[i]) && WinsOwned(states[i])
    decreases i
  {
    if i > 0 {
      RunKeepsInvariants(states, steps, i - 1);
      StepConserves(states[i - 1], steps[i - 1]);
      StepKeepsSpacing(states[i - 1], steps[i - 1]);
      StepKeepsOwners(states[i - 1], steps[i - 1]);
    }
  }

  /** Under every interleaving: what was counted is pending, held by a thread between its swap and its
    * report, or reported; so when all threads rest, nothing is anywhere else. */
  lemma NothingIsLost(states: seq<State>, steps: seq<Step>, i: nat)
    requires IsRun(states, steps) && i < |states|
    ensures var s := states[i];
      && s.recorded == s.pending + Held(s.threads) + Reported(s.reports)
      && ((forall t :: 0 <= t < |s.threads| ==> !s.threads[t].Holding?) ==> s.recorded == s.pending + Reported(s.reports))
  {
    RunKeepsInvariants(states, steps, i);
    if forall t :: 0 <= t < |states[i].threads| ==> !states[i].threads[t].Holding? {
      RestingHoldNothing(states[i].threads);
    }
  }

  lemma {:induction false} RestingHoldNothing(threads: seq<Phase>)
    requires forall t :: 0 <= t < |threads| ==> !threads[t].Holding?
    ensures Held(threads) == 0
    decreases |threads|
  {
    if threads != [] {
      RestingHoldNothing(threads[1..]);
    }
  }

  lemma {:induction false} SpacedApart(s: State, i: nat, j: nat)
    requires WinsSpaced(s) && i <= j < |s.wins|
    ensures s.wins[j] - s.wins[i] >= (j - i) * SAMPLE_INTERVAL_MS
    decreases j
  {
    if i < j {
      SpacedApart(s, i, j - 1);
    }
  }

  /** Any two reports carry times at least an interval apart, whatever the clocks of the threads say
    * and in whatever order they reach the queue. */
  lemma ReportsAreSpaced(states: seq<State>, steps: seq<Step>, i: nat, a: nat, b: nat)
    requires IsRun(states, steps) && i < |states| && a < b < |states[i].reports|
    ensures var x, y := states[i].reports[a].time, states[i].reports[b].time;
      x - y >= 250 || y - x >= 250
  {
    var s := states[i];
    RunKeepsInvariants(states, steps, i);
    var v, w := s.reports[a].win, s.reports[b].win;
    if v < w {
      SpacedApart(s, v, w);
    } else {
      SpacedApart(s, w, v);
    }
  }

  /** A thread wins exactly when the timestamp is still the one it loaded and its clock is 250 ms past that;
    * a winner takes all that is pending, and reports it unless that is nothing. */
  lemma WinnersTakeAll(states: seq<State>, steps: seq<Step>, i: nat)
    requires IsRun(states, steps) && i < |steps|
    ensures var s, next, step := states[i], states[i + 1], steps[i];
      && (step.Exchange? ==>
            var phase := s.threads[step.t];
            && next.pending == s.pending && next.reports == s.reports
            && (next.threads[step.t].Won? <==> s.last == phase.previous && phase.now >= phase.previous + 250)
            && (next.threads[step.t].Won? ==> next.last == phase.now && next.wins == s.wins + [phase.now])
            && (!next.threads[step.t].Won? ==> next.threads[step.t].Idle? && next.last == s.last && next.wins == s.wins))
      && (step.Swap? ==>
            && next.pending == 0 && next.last == s.last
            && next.threads[step.t] == if s.pending == 0 then Idle
                                       else Holding(s.threads[step.t].now, s.threads[step.t].win, s.pending))
      && (step.Enqueue? ==>
            && next.threads[step.t].Idle? && next.pending == s.pending && |next.reports| == |s.reports| + 1
            && next.reports[|s.reports|].count == s.threads[step.t].count)
  {
    assert states[i + 1] == Take(states[i], steps[i]);
  }

  // ----- a call nobody interferes with, step by step -----

  /** The steps of one call: those its outcome needs. */
  function CallSteps(s: State, t: nat, count: nat, now: nat): seq<Step> {
    [Add(t, count), ReadClock(t, now), Load(t, s.last), Exchange(t)]
    + (if SaturatingSub(now, s.last) < SAMPLE_INTERVAL_MS then [] else [Swap(t), Enqueue(t)])
  }

  ghost predicate Runs(s: State, steps: seq<Step>, end: State)
    decreases |steps|
  {
    if steps == [] then s == end else Enabled(s, steps[0]) && Runs(Take(s, steps[0]), steps[1..], end)
  }

  /** What follows the exchange: a winner takes the counter and reports it. */
  lemma WinnerReports(s: State, t: nat) returns (end: State)
    requires t < |s.threads| && s.threads[t].Won? && s.pending > 0
    ensures Runs(s, [Swap(t), Enqueue(t)], end)
    ensures end == Moved(s, t, Idle).(pending := 0,
      reports := s.reports + [Report(s.pending, s.threads[t].now, s.threads[t].win)])
  {
    var holding := Take(s, Swap(t));
    end := Take(holding, Enqueue(t));
    assert [Swap(t), Enqueue(t)][1..] == [Enqueue(t)] && [Enqueue(t)][1..] == [];
    assert Runs(holding, [Enqueue(t)], end);
    assert Runs(s, [Swap(t), Enqueue(t)], end);
  }

  /** Taken without interruption, the steps of a thread do to the counters and the queue what the call
    * does, and leave the thread at rest. */
  lemma CallRefinesSteps(s: State, t: nat, count: nat, now: nat) returns (end: State)
    requires WinsSpaced(s) && t < |s.threads| && s.threads[t].Idle? && count > 0
    ensures Runs(s, CallSteps(s, t, count, now), end) && end.threads == s.threads
    ensures var (pending, last, report) := Recorded(s.pending, s.last, count, now);
      && end.pending == pending && end.last == last && end.recorded == s.recorded + count
      && end.reports == s.reports + (if report.Some? then [Report(report.value, now, |s.wins|)] else [])
  {
    var steps := CallSteps(s, t, count, now);
    var counted := Take(s, steps[0]);
    var timed := Take(counted, steps[1]);
    assert s.last in [0] + s.wins;
    var loaded := Take(timed, steps[2]);
    var exchanged := Take(loaded, steps[3]);
    end := exchanged;
    if |steps| > 4 {
      end := WinnerReports(exchanged, t);
    }
    assert steps[3..][1..] == steps[4..] && steps[2..][1..] == steps[3..] && steps[1..][1..] == steps[2..];
    assert Runs(loaded, steps[3..], end);
    assert Runs(timed, steps[2..], end);
    assert Runs(counted, steps[1..], end);
    assert Runs(s, steps, end);
    assert end.threads == s.threads;
  }
}
