/** The terminal pipeline: a blocking reader sends chunks through a bounded channel to a consumer that
  * feeds them to the pane's terminal in batches and publishes grids at a limited pace. */
module PtyPipeline {
  import opened Options
  import opened Ordering
  import opened Sequences

  const BATCH_MAX_CHUNKS := 32
  const CHANNEL_CAPACITY := 8
  const READ_BUFFER := 4096
  const SNAPSHOT_MIN_INTERVAL := 8_333

  // ----- streams of chunks -----

  /** The terminal after the chunks, each one processed in turn. */
  function Replay<S>(process: (S, Bytes) -> S, start: S, chunks: seq<Bytes>): S {
    if chunks == [] then start
    else process(Replay(process, start, chunks[..|chunks| - 1]), chunks[|chunks| - 1])
  }

  function ReadBytes<S>(read: (S, Byte) -> S, start: S, bytes: Bytes): S {
    if bytes == [] then start else ReadBytes(read, read(start, bytes[0]), bytes[1..])
  }

  lemma {:induction false} ReadBytesOfSum<S>(read: (S, Byte) -> S, start: S, a: Bytes, b: Bytes)
    ensures ReadBytes(read, start, a + b) == ReadBytes(read, ReadBytes(read, start, a), b)
    decreases |a|
  {
    if a == [] {
      assert a + b == b;
    } else {
      ReadBytesOfSum(read, read(start, a[0]), a[1..], b);
      assert (a + b)[1..] == a[1..] + b;
    }
  }

  /** A terminal that takes its input byte by byte. */
  ghost predicate ReadsBytewise<S(!new)>(process: (S, Bytes) -> S, read: (S, Byte) -> S) {
    forall s, bytes :: process(s, bytes) == ReadBytes(read, s, bytes)
  }

  /** Such a terminal depends on the bytes alone, however they were chunked and batched. */
  lemma {:induction false} ChunkingDoesNotMatter<S(!new)>(
    process: (S, Bytes) -> S, read: (S, Byte) -> S, start: S, chunks: seq<Bytes>
  )
    requires ReadsBytewise(process, read)
    ensures Replay(process, start, chunks) == process(start, Flatten(chunks))
    decreases |chunks|
  {
    if chunks != [] {
      var shorter, last := chunks[..|chunks| - 1], chunks[|chunks| - 1];
      ChunkingDoesNotMatter(process, read, start, shorter);
      FlattenOfSum(shorter, [last]);
      FlattenOfOne(last);
      assert chunks == shorter + [last];
      ReadBytesOfSum(read, start, Flatten(shorter), last);
    }
  }

  lemma OneMoreChunk<S>(process: (S, Bytes) -> S, start: S, chunks: seq<Bytes>, more: Bytes)
    ensures Replay(process, start, chunks + [more]) == process(Replay(process, start, chunks), more)
    ensures |Flatten(chunks + [more])| == |Flatten(chunks)| + |more|
  {
    assert (chunks + [more])[..|chunks|] == chunks;
    FlattenOfSum(chunks, [more]);
    FlattenOfOne(more);
  }

  /** One chunk more is processed after the first and those taken so far. */
  lemma BatchGoesOn<S>(process: (S, Bytes) -> S, start: S, first: Bytes, taken: seq<Bytes>, more: Bytes)
    ensures var before, after := [first] + taken, [first] + (taken + [more]);
      && Replay(process, start, after) == process(Replay(process, start, before), more)
      && |Flatten(after)| == |Flatten(before)| + |more| && |after| == |before| + 1
  {
    OneMoreChunk(process, start, [first] + taken, more);
    assert [first] + (taken + [more]) == ([first] + taken) + [more];
  }

  // ----- one batch -----

  class Terminal<S> {
    const process: (S, Bytes) -> S
    var screen: S

    constructor (process: (S, Bytes) -> S, screen: S)
      ensures this.process == process && this.screen == screen
    {
      this.process := process;
      this.screen := screen;
    }

    method ProcessBytes(bytes: Bytes)
      modifies this
      ensures screen == process(old(screen), bytes)
    {
      screen := process(screen, bytes);
    }
  }

  /** The receiving end of the channel. What the reader thread sends while a batch is under way is
    * given as what it puts in before each of the receives to come. */
  class Receiver {
    var queued: seq<Bytes>
    var coming: seq<seq<Bytes>>

    constructor (queued: seq<Bytes>, coming: seq<seq<Bytes>>)
      ensures this.queued == queued && this.coming == coming
    {
      this.queued := queued;
      this.coming := coming;
    }

    /** Everything still to be received, in order. */
    ghost function Ahead(): seq<Bytes>
      reads this
    {
      queued + Flatten(coming)
    }

    method TryRecv() returns (chunk: Option<Bytes>)
      modifies this
      ensures old(Ahead()) == (if chunk.Some? then [chunk.value] else []) + Ahead()
      ensures chunk.None? ==> queued == []
    {
      if coming != [] {
        ConcatAssociates(queued, coming[0], Flatten(coming[1..]));
        queued, coming := queued + coming[0], coming[1..];
      }
      if queued == [] {
        return None;
      }
      chunk := Some(queued[0]);
      ConcatAssociates([queued[0]], queued[1..], Flatten(coming));
      assert [queued[0]] + queued[1..] == queued;
      queued := queued[1..];
    }
  }

  /** Processes the first chunk and whatever is ready after it, up to the cap. */
  method ProcessBatch<S>(terminal: Terminal<S>, first: Bytes, queued: Receiver)
    returns (chunks: nat, bytes: nat, ghost taken: seq<Bytes>)
    modifies terminal, queued
    ensures old(queued.Ahead()) == taken + queued.Ahead()
    ensures terminal.screen == Replay(terminal.process, old(terminal.screen), [first] + taken)
    ensures 1 <= chunks <= BATCH_MAX_CHUNKS && chunks == |[first] + taken|
    ensures bytes == |Flatten([first] + taken)|
    ensures chunks < BATCH_MAX_CHUNKS ==> queued.queued == []
  {
    terminal.ProcessBytes(first);
    chunks, bytes, taken := 1, |first|, [];
    OneMoreChunk(terminal.process, old(terminal.screen), [], first);
    assert [first] + taken == [] + [first];
    while chunks < BATCH_MAX_CHUNKS
      invariant old(queued.Ahead()) == taken + queued.Ahead()
      invariant terminal.screen == Replay(terminal.process, old(terminal.screen), [first] + taken)
      invariant 1 <= chunks <= BATCH_MAX_CHUNKS && chunks == |[first] + taken|
      invariant bytes == |Flatten([first] + taken)|
    {
      var more := queued.TryRecv();
      if more.None? {
        return;
      }
      terminal.ProcessBytes(more.value);
      BatchGoesOn(terminal.process, old(terminal.screen), first, taken, more.value);
      ConcatAssociates(taken, [more.value], queued.Ahead());
      taken := taken + [more.value];
      chunks, bytes := chunks + 1, bytes + |more.value|;
    }
  }

  // ----- pacing -----

  /** How long to wait before the next grid may be published; times in microseconds. There is no wait for
    * the first grid, nor once an interval has passed since the last; otherwise it ends one interval after
    * that. A clock that went back counts as if no time had passed. */
  function SnapshotDelay(last: Option<nat>, now: nat): (delay: Option<nat>)
    ensures last.None? ==> delay.None?
    ensures last.Some? && last.value <= now ==> (delay.None? <==> now >= last.value + 8_333)
    ensures last.Some? && last.value <= now && delay.Some? ==> now + delay.value == last.value + 8_333
    ensures last.Some? && now < last.value ==> delay == Some(8_333)
  {
    if last.None? then None
    else
      var elapsed := if now >= last.value then now - last.value else 0;
      if elapsed < SNAPSHOT_MIN_INTERVAL then Some(SNAPSHOT_MIN_INTERVAL - elapsed) else None
  }

  // ----- the two threads -----

  datatype Phase =
    | Idle
    | Received(hand: Bytes)
    | Asleep(hand: Bytes, wake: nat)
    | Ready(hand: Bytes)
    | Batching(chunks: nat, bytes: nat)
    | Finished
    | Stopped

  /** A chunk the consumer is done with, and whether there was a terminal to process it. */
  datatype Taken = Taken(chunk: Bytes, processed: bool)

  datatype Pipe<S> = Pipe(
    read: Bytes,
    ended: bool,
    sending: Option<Bytes>,
    channel: seq<Bytes>,
    phase: Phase,
    log: seq<Taken>,
    terminal: S,
    clock: nat,
    lastSnapshot: Option<nat>,
    snapshots: seq<nat>
  )

  datatype Step =
    | Read(chunk: Bytes)
    | EndOfFile
    | Send
    | Receive
    | Pace
    | Wake
    | LookUp(mounted: bool)
    | TakeMore
    | EndBatch
    | Publish(patch: bool)
    | Stop
    | Tick(elapsed: nat)

  function Start<S>(screen: S): Pipe<S> {
    Pipe([], false, None, [], Idle, [], screen, 0, None, [])
  }

  predicate Enabled<S>(p: Pipe<S>, step: Step) {
    match step
    case Read(chunk) => !p.ended && p.sending.None? && 1 <= |chunk| <= READ_BUFFER
    case EndOfFile => !p.ended && p.sending.None?
    case Send => p.sending.Some? && |p.channel| < CHANNEL_CAPACITY
    case Receive => p.phase.Idle? && p.channel != []
    case Pace => p.phase.Received?
    case Wake => p.phase.Asleep? && p.clock >= p.phase.wake
    case LookUp(_) => p.phase.Ready?
    case TakeMore => p.phase.Batching? && p.phase.chunks < BATCH_MAX_CHUNKS && p.channel != []
    case EndBatch => p.phase.Batching? && (p.phase.chunks == BATCH_MAX_CHUNKS || p.channel == [])
    case Publish(_) => p.phase.Finished?
    case Stop => p.phase.Idle? && p.ended && p.channel == [] && p.sending.None?
    case Tick(_) => true
  }

  function Processing<S>(p: Pipe<S>, process: (S, Bytes) -> S, chunk: Bytes, chunks: nat, bytes: nat): Pipe<S> {
    p.(terminal := process(p.terminal, chunk), log := p.log + [Taken(chunk, true)], phase := Batching(chunks, bytes))
  }

  function Take<S>(p: Pipe<S>, process: (S, Bytes) -> S, step: Step): Pipe<S>
    requires Enabled(p, step)
  {
    match step
    case Read(chunk) => p.(read := p.read + chunk, sending := Some(chunk))
    case EndOfFile => p.(ended := true)
    case Send => p.(channel := p.channel + [p.sending.value], sending := None)
    case Receive => p.(phase := Received(p.channel[0]), channel := p.channel[1..])
    case Pace =>
      var delay := SnapshotDelay(p.lastSnapshot, p.clock);
      p.(phase := if delay.None? then Ready(p.phase.hand) else Asleep(p.phase.hand, p.clock + delay.value))
    case Wake => p.(phase := Ready(p.phase.hand))
    case LookUp(mounted) =>
      if mounted then Processing(p, process, p.phase.hand, 1, |p.phase.hand|)
      else p.(phase := Idle, log := p.log + [Taken(p.phase.hand, false)])
    case TakeMore =>
      var chunk := p.channel[0];
      Processing(p.(channel := p.channel[1..]), process, chunk, p.phase.chunks + 1, p.phase.bytes + |chunk|)
    case EndBatch => p.(phase := Finished)
    case Publish(patch) =>
      if patch then p.(phase := Idle, lastSnapshot := Some(p.clock), snapshots := p.snapshots + [p.clock])
      else p.(phase := Idle)
    case Stop => p.(phase := Stopped)
    case Tick(elapsed) => p.(clock := p.clock + elapsed)
  }

  // ----- what every step keeps -----

  function ChunksOf(log: seq<Taken>): seq<Bytes> {
    seq(|log|, i requires 0 <= i < |log| => log[i].chunk)
  }

  function ProcessedOf(log: seq<Taken>): seq<Bytes> {
    if log == [] then []
    else
      var last := log[|log| - 1];
      ProcessedOf(log[..|log| - 1]) + (if last.processed then [last.chunk] else [])
  }

  function Held<S>(p: Pipe<S>): seq<Bytes> {
    if p.phase.Received? || p.phase.Asleep? || p.phase.Ready? then [p.phase.hand] else []
  }

  function Sending<S>(p: Pipe<S>): seq<Bytes> {
    if p.sending.Some? then [p.sending.value] else []
  }

  /** All chunks there have been: done with, in hand, in the channel, being sent. */
  function AllChunks<S>(p: Pipe<S>): seq<Bytes> {
    ChunksOf(p.log) + Held(p) + p.channel + Sending(p)
  }

  ghost predicate ChunkSizes(chunks: seq<Bytes>) {
    forall i :: 0 <= i < |chunks| ==> 1 <= |chunks[i]| <= READ_BUFFER
  }

  ghost predicate Intact<S>(p: Pipe<S>, process: (S, Bytes) -> S, screen: S) {
    && p.read == Flatten(AllChunks(p))
    && p.terminal == Replay(process, screen, ProcessedOf(p.log))
    && ChunkSizes(AllChunks(p))
    && Bounded(p)
  }

  ghost predicate Bounded<S>(p: Pipe<S>) {
    && |p.channel| <= CHANNEL_CAPACITY
    && (p.phase.Stopped? ==> p.ended && p.channel == [] && p.sending.None?)
  }

  /** The last so many entries of the log were all processed and have so many bytes. */
  ghost predicate EndsWithBatch(log: seq<Taken>, chunks: nat, bytes: nat) {
    && chunks <= |log|
    && (forall i :: |log| - chunks <= i < |log| ==> log[i].processed)
    && bytes == |Flatten(ChunksOf(log[|log| - chunks..]))|
  }

  /** The batch under way is the end of the log, and its counts are right. */
  ghost predicate BatchExact<S>(p: Pipe<S>) {
    p.phase.Batching? ==> 1 <= p.phase.chunks <= BATCH_MAX_CHUNKS && EndsWithBatch(p.log, p.phase.chunks, p.phase.bytes)
  }

  ghost predicate Spaced(times: seq<nat>) {
    forall i :: 0 < i < |times| ==> times[i] >= times[i - 1] + SNAPSHOT_MIN_INTERVAL
  }

  ghost predicate Paced<S>(p: Pipe<S>) {
    && Spaced(p.snapshots)
    && p.lastSnapshot == (if p.snapshots == [] then None else Some(p.snapshots[|p.snapshots| - 1]))
    && (p.phase.Asleep? ==> p.lastSnapshot.Some? && p.phase.wake == p.lastSnapshot.value + SNAPSHOT_MIN_INTERVAL)
    && (p.lastSnapshot.Some? ==>
      && p.lastSnapshot.value <= p.clock
      && (p.phase.Ready? || p.phase.Batching? || p.phase.Finished? ==>
            p.clock >= p.lastSnapshot.value + SNAPSHOT_MIN_INTERVAL))
  }

  lemma LogGrows(log: seq<Taken>, t: Taken)
    ensures ChunksOf(log + [t]) == ChunksOf(log) + [t.chunk]
    ensures ProcessedOf(log + [t]) == ProcessedOf(log) + (if t.processed then [t.chunk] else [])
  {
    assert (log + [t])[..|log|] == log;
  }

  lemma HeadMoves<T>(done: seq<T>, channel: seq<T>, rest: seq<T>)
    requires channel != []
    ensures done + [] + channel + rest == done + [channel[0]] + channel[1..] + rest
  {
    assert channel == [channel[0]] + channel[1..];
  }

  lemma HandIsDone<T>(done: seq<T>, hand: T, rest: seq<T>, more: seq<T>)
    ensures done + [hand] + [] + rest + more == done + [hand] + rest + more
  {
    assert done + [hand] + [] == done + [hand];
  }

  lemma TailMoves<T>(done: seq<T>, channel: seq<T>, last: T)
    ensures done + (channel + [last]) + [] == done + channel + [last]
  {
  }

  lemma LookUpMovesChunks<S>(p: Pipe<S>, process: (S, Bytes) -> S, mounted: bool)
    requires p.phase.Ready?
    ensures AllChunks(Take(p, process, LookUp(mounted))) == AllChunks(p)
  {
    LogGrows(p.log, Taken(p.phase.hand, mounted));
    HandIsDone(ChunksOf(p.log), p.phase.hand, p.channel, Sending(p));
  }

  lemma TakeMoreMovesChunks<S>(p: Pipe<S>, process: (S, Bytes) -> S)
    requires Enabled(p, TakeMore)
    ensures AllChunks(Take(p, process, TakeMore)) == AllChunks(p)
  {
    LogGrows(p.log, Taken(p.channel[0], true));
    HandIsDone(ChunksOf(p.log), p.channel[0], p.channel[1..], Sending(p));
    HeadMoves(ChunksOf(p.log), p.channel, Sending(p));
  }

  lemma QueueingMovesChunks<S>(p: Pipe<S>, process: (S, Bytes) -> S, step: Step)
    requires Enabled(p, step) && (step.Send? || step.Receive?)
    ensures AllChunks(Take(p, process, step)) == AllChunks(p)
  {
    if step.Receive? {
      HeadMoves(ChunksOf(p.log), p.channel, Sending(p));
    } else {
      TailMoves(ChunksOf(p.log) + Held(p), p.channel, p.sending.value);
    }
  }

  /** No step but reading adds a chunk, and none reorders or loses one. */
  lemma StepMovesChunks<S>(p: Pipe<S>, process: (S, Bytes) -> S, step: Step)
    requires Enabled(p, step)
    ensures step.Read? ==> AllChunks(Take(p, process, step)) == AllChunks(p) + [step.chunk]
    ensures !step.Read? ==> AllChunks(Take(p, process, step)) == AllChunks(p)
  {
    if step.LookUp? {
      LookUpMovesChunks(p, process, step.mounted);
    } else if step.TakeMore? {
      TakeMoreMovesChunks(p, process);
    } else if step.Send? || step.Receive? {
      QueueingMovesChunks(p, process, step);
    }
  }

  lemma ReplayGrows<S>(process: (S, Bytes) -> S, screen: S, log: seq<Taken>, t: Taken)
    ensures var before := Replay(process, screen, ProcessedOf(log));
      Replay(process, screen, ProcessedOf(log + [t])) == if t.processed then process(before, t.chunk) else before
  {
    LogGrows(log, t);
    assert (ProcessedOf(log) + [t.chunk])[..|ProcessedOf(log)|] == ProcessedOf(log);
    assert ProcessedOf(log) + [] == ProcessedOf(log);
  }

  lemma StepReplays<S>(p: Pipe<S>, process: (S, Bytes) -> S, screen: S, step: Step)
    requires Enabled(p, step) && p.terminal == Replay(process, screen, ProcessedOf(p.log))
    ensures Take(p, process, step).terminal == Replay(process, screen, ProcessedOf(Take(p, process, step).log))
  {
    if step.LookUp? {
      ReplayGrows(process, screen, p.log, Taken(p.phase.hand, step.mounted));
    } else if step.TakeMore? {
      ReplayGrows(process, screen, p.log, Taken(p.channel[0], true));
    }
  }

  lemma ChunkIsAdded(read: Bytes, chunks: seq<Bytes>, chunk: Bytes)
    requires read == Flatten(chunks) && ChunkSizes(chunks) && 1 <= |chunk| <= READ_BUFFER
    ensures read + chunk == Flatten(chunks + [chunk]) && ChunkSizes(chunks + [chunk])
  {
    FlattenOfSum(chunks, [chunk]);
    FlattenOfOne(chunk);
  }

  lemma StepKeepsBytes<S>(p: Pipe<S>, process: (S, Bytes) -> S, step: Step)
    requires Enabled(p, step) && p.read == Flatten(AllChunks(p)) && ChunkSizes(AllChunks(p))
    ensures Take(p, process, step).read == Flatten(AllChunks(Take(p, process, step)))
    ensures ChunkSizes(AllChunks(Take(p, process, step)))
  {
    StepMovesChunks(p, process, step);
    StepReads(p, process, step);
    if step.Read? {
      ChunkIsAdded(p.read, AllChunks(p), step.chunk);
    }
  }

  lemma StepReads<S>(p: Pipe<S>, process: (S, Bytes) -> S, step: Step)
    requires Enabled(p, step)
    ensures Take(p, process, step).read == if step.Read? then p.read + step.chunk else p.read
  {
  }

  lemma StepKeepsBounds<S>(p: Pipe<S>, process: (S, Bytes) -> S, step: Step)
    requires Enabled(p, step) && Bounded(p)
    ensures Bounded(Take(p, process, step))
  {
  }

  lemma StepKeepsIntact<S>(p: Pipe<S>, process: (S, Bytes) -> S, screen: S, step: Step)
    requires Intact(p, process, screen) && Enabled(p, step)
    ensures Intact(Take(p, process, step), process, screen)
  {
    StepKeepsBytes(p, process, step);
    StepReplays(p, process, screen, step);
    StepKeepsBounds(p, process, step);
  }

  lemma BatchGrows(log: seq<Taken>, chunks: nat, bytes: nat, t: Taken)
    requires EndsWithBatch(log, chunks, bytes) && t.processed
    ensures EndsWithBatch(log + [t], chunks + 1, bytes + |t.chunk|)
  {
    var batch := log[|log| - chunks..];
    assert (log + [t])[|log| - chunks..] == batch + [t];
    LogGrows(batch, t);
    FlattenOfSum(ChunksOf(batch), [t.chunk]);
    FlattenOfOne(t.chunk);
  }

  lemma BatchBegins(log: seq<Taken>, t: Taken)
    requires t.processed
    ensures EndsWithBatch(log + [t], 1, |t.chunk|)
  {
    assert ChunksOf(log[|log|..]) == [];
    BatchGrows(log, 0, 0, t);
  }

  lemma StepKeepsBatch<S>(p: Pipe<S>, process: (S, Bytes) -> S, step: Step)
    requires BatchExact(p) && Enabled(p, step)
    ensures BatchExact(Take(p, process, step))
  {
    if step.LookUp? && step.mounted {
      BatchBegins(p.log, Taken(p.phase.hand, true));
    } else if step.TakeMore? {
      BatchGrows(p.log, p.phase.chunks, p.phase.bytes, Taken(p.channel[0], true));
    }
  }

  lemma StepKeepsPace<S>(p: Pipe<S>, process: (S, Bytes) -> S, step: Step)
    requires Paced(p) && Enabled(p, step)
    ensures Paced(Take(p, process, step))
  {
  }

  // ----- whole runs -----

  ghost predicate IsRun<S>(process: (S, Bytes) -> S, screen: S, states: seq<Pipe<S>>, steps: seq<Step>) {
    && |states| == |steps| + 1
    && states[0] == Start(screen)
    && forall i :: 0 <= i < |steps| ==> Enabled(states[i], steps[i]) && states[i + 1] == Take(states[i], process, steps[i])
  }

  lemma {:induction false} RunKeepsInvariants<S>(process: (S, Bytes) -> S, screen: S, states: seq<Pipe<S>>, steps: seq<Step>, i: nat)
    requires IsRun(process, screen, states, steps) && i < |states|
    ensures Intact(states[i], process, screen) && BatchExact(states[i]) && Paced(states[i])
    decreases i
  {
    if i > 0 {
      RunKeepsInvariants(process, screen, states, steps, i - 1);
      StepKeepsIntact(states[i - 1], process, screen, steps[i - 1]);
      StepKeepsBatch(states[i - 1], process, steps[i - 1]);
      StepKeepsPace(states[i - 1], process, steps[i - 1]);
    }
  }

  // ----- the steps of a batch do what the batch does -----

  function AllProcessed(batch: seq<Bytes>): seq<Taken> {
    seq(|batch|, i requires 0 <= i < |batch| => Taken(batch[i], true))
  }

  /** In the batch under way these chunks have been processed, one after the other, and counted. */
  ghost predicate InBatch<S>(p: Pipe<S>, process: (S, Bytes) -> S, start: S, log: seq<Taken>, batch: seq<Bytes>) {
    && p.phase == Batching(|batch|, |Flatten(batch)|)
    && p.terminal == Replay(process, start, batch)
    && p.log == log + AllProcessed(batch)
  }

  lemma BatchStarts<S>(p: Pipe<S>, process: (S, Bytes) -> S)
    requires p.phase.Ready?
    ensures InBatch(Take(p, process, LookUp(true)), process, p.terminal, p.log, [p.phase.hand])
  {
    OneMoreChunk(process, p.terminal, [], p.phase.hand);
    assert [] + [p.phase.hand] == [p.phase.hand];
  }

  lemma TakeMoreGrowsBatch<S>(p: Pipe<S>, process: (S, Bytes) -> S, start: S, log: seq<Taken>, batch: seq<Bytes>)
    requires InBatch(p, process, start, log, batch) && Enabled(p, TakeMore)
    ensures InBatch(Take(p, process, TakeMore), process, start, log, batch + [p.channel[0]])
  {
    OneMoreChunk(process, start, batch, p.channel[0]);
    assert AllProcessed(batch + [p.channel[0]]) == AllProcessed(batch) + [Taken(p.channel[0], true)];
    ConcatAssociates(log, AllProcessed(batch), [Taken(p.channel[0], true)]);
  }

  lemma OthersLeaveBatch<S>(p: Pipe<S>, process: (S, Bytes) -> S, start: S, log: seq<Taken>, batch: seq<Bytes>, step: Step)
    requires InBatch(p, process, start, log, batch) && Enabled(p, step) && !step.TakeMore? && !step.EndBatch?
    ensures InBatch(Take(p, process, step), process, start, log, batch)
  {
  }

  lemma StepInBatch<S>(
    p: Pipe<S>, process: (S, Bytes) -> S, start: S, log: seq<Taken>, first: Bytes, earlier: seq<Bytes>, step: Step
  ) returns (taken: seq<Bytes>)
    requires InBatch(p, process, start, log, [first] + earlier) && Enabled(p, step) && !step.EndBatch?
    ensures InBatch(Take(p, process, step), process, start, log, [first] + taken)
  {
    if step.TakeMore? {
      taken := earlier + [p.channel[0]];
      TakeMoreGrowsBatch(p, process, start, log, [first] + earlier);
      ConcatAssociates([first], earlier, [p.channel[0]]);
    } else {
      taken := earlier;
      OthersLeaveBatch(p, process, start, log, [first] + earlier, step);
    }
  }

  /** However the reader thread is interleaved: from the look-up on, the consumer's steps process the chunk
    * in hand and then chunks from the channel in order, and count them; the batch ends only at the cap or
    * at an empty channel. That is what a call of the batch does. */
  lemma {:induction false} StepsDoBatch<S>(
    process: (S, Bytes) -> S, screen: S, states: seq<Pipe<S>>, steps: seq<Step>, i: nat, k: nat
  ) returns (taken: seq<Bytes>)
    requires IsRun(process, screen, states, steps) && i < k < |states|
    requires steps[i] == LookUp(true) && forall m :: i < m < k ==> !steps[m].EndBatch?
    ensures InBatch(states[k], process, states[i].terminal, states[i].log, [states[i].phase.hand] + taken)
    ensures 1 + |taken| <= BATCH_MAX_CHUNKS
    ensures k < |steps| && steps[k].EndBatch? ==> 1 + |taken| == BATCH_MAX_CHUNKS || states[k].channel == []
    decreases k
  {
    var p, last := states[i], k - 1;
    assert states[last + 1] == Take(states[last], process, steps[last]);
    RunKeepsInvariants(process, screen, states, steps, k);
    if last == i {
      taken := [];
      BatchStarts(p, process);
      assert [p.phase.hand] + taken == [p.phase.hand];
    } else {
      var earlier := StepsDoBatch(process, screen, states, steps, i, last);
      taken := StepInBatch(states[last], process, p.terminal, p.log, p.phase.hand, earlier, steps[last]);
    }
  }

  /** The pane's terminal exists whenever the consumer looks for it. */
  ghost predicate AlwaysMounted(steps: seq<Step>) {
    forall i :: 0 <= i < |steps| && steps[i].LookUp? ==> steps[i].mounted
  }

  ghost predicate NothingDropped(log: seq<Taken>) {
    forall i :: 0 <= i < |log| ==> log[i].processed
  }

  lemma {:induction false} MountedDropsNothing<S>(process: (S, Bytes) -> S, screen: S, states: seq<Pipe<S>>, steps: seq<Step>, i: nat)
    requires IsRun(process, screen, states, steps) && AlwaysMounted(steps) && i < |states|
    ensures NothingDropped(states[i].log)
    decreases i
  {
    if i > 0 {
      MountedDropsNothing(process, screen, states, steps, i - 1);
    }
  }

  lemma {:induction false} ProcessedIsAll(log: seq<Taken>)
    requires NothingDropped(log)
    ensures ProcessedOf(log) == ChunksOf(log)
    decreases |log|
  {
    if log != [] {
      ProcessedIsAll(log[..|log| - 1]);
    }
  }

  /** While the terminal is mounted: what has been read is what has been processed, then the chunk in
    * hand, the channel and the chunk being sent, in that order, at every point of every interleaving. */
  lemma StreamIsIntact<S>(process: (S, Bytes) -> S, screen: S, states: seq<Pipe<S>>, steps: seq<Step>, i: nat)
    requires IsRun(process, screen, states, steps) && AlwaysMounted(steps) && i < |states|
    ensures var p := states[i];
      && p.read == Flatten(ProcessedOf(p.log)) + Flatten(Held(p)) + Flatten(p.channel) + Flatten(Sending(p))
      && |p.channel| <= CHANNEL_CAPACITY
      && p.terminal == Replay(process, screen, ProcessedOf(p.log))
  {
    var p := states[i];
    RunKeepsInvariants(process, screen, states, steps, i);
    MountedDropsNothing(process, screen, states, steps, i);
    ProcessedIsAll(p.log);
    var done := ChunksOf(p.log);
    FlattenOfSum(done + Held(p) + p.channel, Sending(p));
    FlattenOfSum(done + Held(p), p.channel);
    FlattenOfSum(done, Held(p));
  }

  lemma TerminalReadAll<S(!new)>(process: (S, Bytes) -> S, read: (S, Byte) -> S, screen: S, p: Pipe<S>)
    requires ReadsBytewise(process, read)
    requires p.terminal == Replay(process, screen, ProcessedOf(p.log)) && p.read == Flatten(ProcessedOf(p.log))
    ensures p.terminal == ReadBytes(read, screen, p.read)
  {
    ChunkingDoesNotMatter(process, read, screen, ProcessedOf(p.log));
  }

  /** When the stream has ended, the terminal has seen every byte that was read, in order. */
  lemma EndedStreamIsComplete<S(!new)>(
    process: (S, Bytes) -> S, read: (S, Byte) -> S, screen: S, states: seq<Pipe<S>>, steps: seq<Step>, i: nat
  )
    requires IsRun(process, screen, states, steps) && AlwaysMounted(steps) && i < |states|
    requires states[i].phase.Stopped?
    ensures states[i].read == Flatten(ProcessedOf(states[i].log))
    ensures ReadsBytewise(process, read) ==> states[i].terminal == ReadBytes(read, screen, states[i].read)
  {
    StreamIsIntact(process, screen, states, steps, i);
    RunKeepsInvariants(process, screen, states, steps, i);
    if ReadsBytewise(process, read) {
      TerminalReadAll(process, read, screen, states[i]);
    }
  }

  lemma {:induction false} FlattenBound(chunks: seq<Bytes>)
    requires ChunkSizes(chunks)
    ensures |chunks| <= |Flatten(chunks)| <= READ_BUFFER * |chunks|
    decreases |chunks|
  {
    if chunks != [] {
      FlattenBound(chunks[1..]);
    }
  }

  lemma SizesOfPart(all: seq<Bytes>, from: nat, to: nat)
    requires ChunkSizes(all) && from <= to <= |all|
    ensures ChunkSizes(all[from..to])
  {
  }

  lemma FewChunksMove<S>(p: Pipe<S>)
    requires p.read == Flatten(AllChunks(p)) && ChunkSizes(AllChunks(p)) && Bounded(p)
    ensures |p.read| - |Flatten(ChunksOf(p.log))| <= 40_960
  {
    var moving := Held(p) + p.channel + Sending(p);
    assert AllChunks(p) == ChunksOf(p.log) + moving;
    assert AllChunks(p)[|p.log|..|AllChunks(p)|] == moving;
    SizesOfPart(AllChunks(p), |p.log|, |AllChunks(p)|);
    FlattenOfSum(ChunksOf(p.log), moving);
    FlattenBound(moving);
  }

  /** Back-pressure: at most ten chunks are ever on their way, so no more than 40,960 bytes. */
  lemma InFlightIsBounded<S>(process: (S, Bytes) -> S, screen: S, states: seq<Pipe<S>>, steps: seq<Step>, i: nat)
    requires IsRun(process, screen, states, steps) && i < |states|
    ensures |states[i].read| - |Flatten(ChunksOf(states[i].log))| <= 40_960
  {
    RunKeepsInvariants(process, screen, states, steps, i);
    FewChunksMove(states[i]);
  }

  /** In every run a batch counts at most 32 chunks and exactly their bytes, at most 128 KiB. */
  lemma BatchesAreExact<S>(process: (S, Bytes) -> S, screen: S, states: seq<Pipe<S>>, steps: seq<Step>, i: nat)
    requires IsRun(process, screen, states, steps) && i < |states| && states[i].phase.Batching?
    ensures var p := states[i];
      && 1 <= p.phase.chunks <= BATCH_MAX_CHUNKS && p.phase.bytes <= 131_072
      && EndsWithBatch(p.log, p.phase.chunks, p.phase.bytes)
  {
    var p := states[i];
    RunKeepsInvariants(process, screen, states, steps, i);
    var from := |p.log| - p.phase.chunks;
    assert AllChunks(p)[from..|p.log|] == ChunksOf(p.log[from..]);
    SizesOfPart(AllChunks(p), from, |p.log|);
    FlattenBound(ChunksOf(p.log[from..]));
  }

  /** Any two published grids of a run are at least one interval apart for each step between them. */
  lemma SnapshotsAreSpaced<S>(process: (S, Bytes) -> S, screen: S, states: seq<Pipe<S>>, steps: seq<Step>, i: nat, a: nat, b: nat)
    requires IsRun(process, screen, states, steps) && i < |states| && a < b < |states[i].snapshots|
    ensures states[i].snapshots[b] - states[i].snapshots[a] >= (b - a) * SNAPSHOT_MIN_INTERVAL
  {
    RunKeepsInvariants(process, screen, states, steps, i);
    SpacedApart(states[i].snapshots, a, b);
  }

  lemma {:induction false} SpacedApart(times: seq<nat>, a: nat, b: nat)
    requires Spaced(times) && a <= b < |times|
    ensures times[b] - times[a] >= (b - a) * SNAPSHOT_MIN_INTERVAL
    decreases b
  {
    if a < b {
      SpacedApart(times, a, b - 1);
    }
  }

  /** In every run a chunk that has to wait does so until exactly one interval after the last published
    * grid, and no longer. */
  lemma SleeperWakesOnTime<S>(process: (S, Bytes) -> S, screen: S, states: seq<Pipe<S>>, steps: seq<Step>, i: nat)
    requires IsRun(process, screen, states, steps) && i < |states| && states[i].phase.Asleep?
    ensures states[i].snapshots != []
    ensures states[i].phase.wake == states[i].snapshots[|states[i].snapshots| - 1] + 8_333
    ensures Enabled(states[i], Wake) <==> states[i].clock >= states[i].phase.wake
  {
    RunKeepsInvariants(process, screen, states, steps, i);
  }

  /** A chunk has to wait exactly when a grid was published less than one interval ago. */
  lemma WaitsOnlyWithinInterval<S>(process: (S, Bytes) -> S, screen: S, states: seq<Pipe<S>>, steps: seq<Step>, i: nat)
    requires IsRun(process, screen, states, steps) && i < |steps| && steps[i].Pace?
    ensures var p, next := states[i], states[i + 1].phase;
      && p.phase.Received? && (next.Asleep? || next.Ready?) && next.hand == p.phase.hand
      && (next.Asleep? <==> p.snapshots != [] && p.clock < p.snapshots[|p.snapshots| - 1] + 8_333)
  {
    RunKeepsInvariants(process, screen, states, steps, i);
    assert states[i + 1] == Take(states[i], process, steps[i]);
  }

  /** The grids published are those of the steps that publish one, each at its own time. */
  lemma GridsAreThoseOfSteps<S>(process: (S, Bytes) -> S, screen: S, states: seq<Pipe<S>>, steps: seq<Step>, i: nat)
    requires IsRun(process, screen, states, steps) && i < |steps|
    ensures states[i + 1].snapshots
         == if steps[i] == Publish(true) then states[i].snapshots + [states[i].clock] else states[i].snapshots
  {
    assert states[i + 1] == Take(states[i], process, steps[i]);
  }

  /** The chunk in hand is processed exactly when there is a terminal, and otherwise dropped; either way it is
    * done with, and nothing else is. */
  lemma LookUpDecides<S>(process: (S, Bytes) -> S, screen: S, states: seq<Pipe<S>>, steps: seq<Step>, i: nat)
    requires IsRun(process, screen, states, steps) && i < |steps| && steps[i].LookUp?
    ensures var p, next := states[i], states[i + 1];
      && p.phase.Ready? && next.log == p.log + [Taken(p.phase.hand, steps[i].mounted)]
      && next.terminal == (if steps[i].mounted then process(p.terminal, p.phase.hand) else p.terminal)
      && next.phase == (if steps[i].mounted then Batching(1, |p.phase.hand|) else Idle)
      && next.channel == p.channel && next.sending == p.sending
  {
    assert states[i + 1] == Take(states[i], process, steps[i]);
  }
}
