/** The rotating log: appends records to a live file and, once that has grown to its limit, moves it over
  * the one older file that is kept. Any call may stop between two of its file operations, or within
  * the last. */
module RotatingLog {
  import opened Options
  import opened Ordering

  /** A file is the sequence of pieces written to it. */
  datatype Disk = Disk(rotated: Option<seq<Bytes>>, live: Option<seq<Bytes>>)

  datatype Stop = Never | BeforeRemove | BeforeRename | BeforeOpen | DuringWrite(written: nat)

  function Pieces(file: Option<seq<Bytes>>): seq<Bytes> {
    if file.Some? then file.value else []
  }

  function Size(pieces: seq<Bytes>): nat {
    if pieces == [] then 0 else Size(pieces[..|pieces| - 1]) + |pieces[|pieces| - 1]|
  }

  lemma {:induction false} SizeOfSum(a: seq<Bytes>, b: seq<Bytes>)
    ensures Size(a + b) == Size(a) + Size(b)
    decreases |b|
  {
    if b == [] {
      assert a + b == a;
    } else {
      SizeOfSum(a, b[..|b| - 1]);
      assert (a + b)[..|a + b| - 1] == a + b[..|b| - 1];
    }
  }

  lemma SizeOfOne(piece: Bytes)
    ensures Size([piece]) == |piece|
  {
    assert [piece][..0] == [];
  }

  // ----- one append -----

  predicate NeedsRotation(disk: Disk, maxBytes: nat) {
    disk.live.Some? && Size(disk.live.value) >= maxBytes
  }

  /** What an append gets to write: the whole line, or the beginning of it when stopped. */
  function Written(line: Bytes, stop: Stop): seq<Bytes> {
    match stop
    case Never => [line]
    case DuringWrite(written) => if written == 0 then [] else if written < |line| then [line[..written]] else [line]
    case _ => []
  }

  /** The files after an append that stops where told. */
  function After(disk: Disk, line: Bytes, maxBytes: nat, stop: Stop): Disk {
    var rotating := NeedsRotation(disk, maxBytes);
    match stop
    case BeforeRemove => disk
    case BeforeRename => if rotating then Disk(None, disk.live) else disk
    case BeforeOpen => if rotating then Disk(disk.live, None) else disk
    case _ =>
      if rotating then Disk(disk.live, Some(Written(line, stop)))
      else Disk(disk.rotated, Some(Pieces(disk.live) + Written(line, stop)))
  }

  class LogFiles {
    var rotated: Option<seq<Bytes>>
    var live: Option<seq<Bytes>>

    constructor ()
      ensures View() == Disk(None, None)
    {
      rotated, live := None, None;
    }

    function View(): Disk
      reads this
    {
      Disk(rotated, live)
    }

    method OpenForAppend()
      modifies this`live
      ensures live == Some(Pieces(old(live)))
    {
      if live.None? {
        live := Some([]);
      }
    }

    method WriteAll(line: Bytes, stop: Stop)
      requires live.Some? && (stop.Never? || stop.DuringWrite?)
      modifies this`live
      ensures live == Some(old(live).value + Written(line, stop))
    {
      live := Some(live.value + Written(line, stop));
    }

    method AppendRotating(line: Bytes, maxBytes: nat, stop: Stop) returns (completed: bool)
      modifies this
      ensures View() == After(old(View()), line, maxBytes, stop)
      ensures completed == stop.Never?
    {
      if live.Some? && Size(live.value) >= maxBytes {
        if stop.BeforeRemove? {
          return false;
        }
        if rotated.Some? {
          rotated := None;
        }
        if stop.BeforeRename? {
          return false;
        }
        rotated, live := live, None;
      }
      if stop.BeforeRemove? || stop.BeforeRename? || stop.BeforeOpen? {
        return false;
      }
      OpenForAppend();
      WriteAll(line, stop);
      assert [] + Written(line, stop) == Written(line, stop);
      completed := stop.Never?;
    }
  }

  // ----- any sequence of appends -----

  datatype Call = Call(line: Bytes, stop: Stop)

  function AfterAll(disk: Disk, calls: seq<Call>, maxBytes: nat): Disk {
    if calls == [] then disk
    else
      var last := calls[|calls| - 1];
      After(AfterAll(disk, calls[..|calls| - 1], maxBytes), last.line, maxBytes, last.stop)
  }

  /** Everything the calls ever got to write, in order. */
  function History(calls: seq<Call>): seq<Bytes> {
    if calls == [] then []
    else History(calls[..|calls| - 1]) + Written(calls[|calls| - 1].line, calls[|calls| - 1].stop)
  }

  function OnDisk(disk: Disk): seq<Bytes> {
    Pieces(disk.rotated) + Pieces(disk.live)
  }

  ghost predicate IsSuffix(tail: seq<Bytes>, all: seq<Bytes>) {
    |tail| <= |all| && all[|all| - |tail|..] == tail
  }

  /** One append keeps everything and adds what it wrote, or drops just the older file first. */
  lemma AppendKeepsOrDropsOldest(disk: Disk, line: Bytes, maxBytes: nat, stop: Stop)
    ensures var after := After(disk, line, maxBytes, stop);
      || OnDisk(after) == OnDisk(disk) + Written(line, stop)
      || (NeedsRotation(disk, maxBytes) && OnDisk(after) == Pieces(disk.live) + Written(line, stop))
  {
  }

  lemma SuffixGrows(tail: seq<Bytes>, all: seq<Bytes>, part: nat, more: seq<Bytes>)
    requires IsSuffix(tail, all) && part <= |tail|
    ensures IsSuffix(tail[part..] + more, all + more)
  {
    var end := tail[part..] + more;
    assert (all + more)[|all + more| - |end|..] == all[|all| - |tail|..][part..] + more;
  }

  /** Either nothing has been dropped, or at least the last `maxBytes` bytes are still there. */
  ghost predicate Retains(disk: Disk, all: seq<Bytes>, maxBytes: nat) {
    IsSuffix(OnDisk(disk), all) && (OnDisk(disk) == all || Size(OnDisk(disk)) >= maxBytes)
  }

  lemma AppendRetains(disk: Disk, all: seq<Bytes>, line: Bytes, maxBytes: nat, stop: Stop)
    requires Retains(disk, all, maxBytes)
    ensures Retains(After(disk, line, maxBytes, stop), all + Written(line, stop), maxBytes)
  {
    var before, after, more := OnDisk(disk), OnDisk(After(disk, line, maxBytes, stop)), Written(line, stop);
    AppendKeepsOrDropsOldest(disk, line, maxBytes, stop);
    if after == before + more {
      SuffixGrows(before, all, 0, more);
      assert before[0..] == before;
      SizeOfSum(before, more);
    } else {
      SuffixGrows(before, all, |Pieces(disk.rotated)|, more);
      assert before[|Pieces(disk.rotated)|..] == Pieces(disk.live);
      SizeOfSum(Pieces(disk.live), more);
    }
  }

  /** After any appends, stopped anywhere: the older file followed by the live one is the end of what
    * was written, and unless it is all of it, it is at least `maxBytes` bytes. */
  lemma {:induction false} LogIsASuffix(disk: Disk, calls: seq<Call>, maxBytes: nat)
    ensures Retains(AfterAll(disk, calls, maxBytes), OnDisk(disk) + History(calls), maxBytes)
    decreases |calls|
  {
    var all := OnDisk(disk) + History(calls);
    if calls == [] {
      assert all == OnDisk(disk);
    } else {
      var earlier, last := calls[..|calls| - 1], calls[|calls| - 1];
      LogIsASuffix(disk, earlier, maxBytes);
      HistoryGrows(OnDisk(disk), calls);
      AppendRetains(AfterAll(disk, earlier, maxBytes), OnDisk(disk) + History(earlier), last.line, maxBytes, last.stop);
    }
  }

  lemma HistoryGrows(before: seq<Bytes>, calls: seq<Call>)
    requires calls != []
    ensures var earlier, last := calls[..|calls| - 1], calls[|calls| - 1];
      before + History(calls) == (before + History(earlier)) + Written(last.line, last.stop)
  {
  }

  // ----- whole records -----

  /** Stopped between two operations, not within the write. */
  predicate Clean(call: Call) {
    call.stop.DuringWrite? ==> call.stop.written == 0 || call.stop.written >= |call.line|
  }

  /** The line of a call, if it was written in full. */
  function CompletedLine(call: Call): seq<Bytes> {
    if call.stop.Never? || (call.stop.DuringWrite? && call.stop.written >= |call.line|) then [call.line] else []
  }

  function Completed(calls: seq<Call>): seq<Bytes> {
    if calls == [] then [] else Completed(calls[..|calls| - 1]) + CompletedLine(calls[|calls| - 1])
  }

  /** What was written is exactly the completed lines if and only if no write was cut in the middle. */
  lemma {:induction false} WholeRecordsIffClean(calls: seq<Call>)
    requires forall i :: 0 <= i < |calls| ==> calls[i].line != []
    ensures |History(calls)| >= |Completed(calls)|
    ensures History(calls) == Completed(calls) <==> forall i :: 0 <= i < |calls| ==> Clean(calls[i])
    decreases |calls|
  {
    if calls != [] {
      var earlier, last := calls[..|calls| - 1], calls[|calls| - 1];
      WholeRecordsIffClean(earlier);
      var own := CompletedLine(last);
      assert |own| <= |Written(last.line, last.stop)| && (Clean(last) <==> own == Written(last.line, last.stop));
      if History(calls) == Completed(calls) {
        assert |History(earlier)| == |Completed(earlier)|;
        assert History(calls)[..|History(earlier)|] == History(earlier);
        assert Completed(calls)[..|History(earlier)|] == Completed(earlier);
        assert History(calls)[|History(earlier)|..] == Written(last.line, last.stop);
        assert Completed(calls)[|History(earlier)|..] == own;
      }
    }
  }

  /** Stopped only between operations: the files hold the last of the completed records, whole and in order. */
  lemma CleanLogIsWholeRecords(calls: seq<Call>, maxBytes: nat)
    requires forall i :: 0 <= i < |calls| ==> calls[i].line != [] && Clean(calls[i])
    ensures IsSuffix(OnDisk(AfterAll(Disk(None, None), calls, maxBytes)), Completed(calls))
  {
    LogIsASuffix(Disk(None, None), calls, maxBytes);
    WholeRecordsIffClean(calls);
    assert OnDisk(Disk(None, None)) + History(calls) == History(calls);
  }

  // ----- the newest record and the size -----

  /** A completed append leaves its record last, and the live file below the limit plus that record
    * exactly when there is a limit to speak of. */
  lemma NewestIsLastAndFits(disk: Disk, line: Bytes, maxBytes: nat)
    ensures var after := After(disk, line, maxBytes, Never);
      && after.live.Some? && after.live.value != [] && after.live.value[|after.live.value| - 1] == line
      && (Size(after.live.value) < maxBytes + |line| <==> maxBytes > 0)
  {
    SizeOfOne(line);
    SizeOfSum(Pieces(disk.live), [line]);
    assert Size(Pieces(None)) == 0;
  }

  ghost predicate FilesBelow(disk: Disk, bound: nat) {
    Size(Pieces(disk.rotated)) < bound && Size(Pieces(disk.live)) < bound
  }

  lemma WrittenFits(line: Bytes, stop: Stop)
    ensures Size(Written(line, stop)) <= |line|
  {
    SizeOfOne(line);
    if stop.DuringWrite? && stop.written < |line| {
      SizeOfOne(line[..stop.written]);
    }
  }

  lemma AppendStaysBounded(disk: Disk, line: Bytes, maxBytes: nat, stop: Stop, longest: nat)
    requires maxBytes > 0 && |line| <= longest && FilesBelow(disk, maxBytes + longest)
    ensures FilesBelow(After(disk, line, maxBytes, stop), maxBytes + longest)
  {
    WrittenFits(line, stop);
    SizeOfSum(Pieces(disk.live), Written(line, stop));
  }

  /** Both files stay below the limit plus the longest record, however often the log is appended to. */
  lemma {:induction false} FilesStayBounded(calls: seq<Call>, maxBytes: nat, longest: nat)
    requires maxBytes > 0 && forall i :: 0 <= i < |calls| ==> |calls[i].line| <= longest
    ensures FilesBelow(AfterAll(Disk(None, None), calls, maxBytes), maxBytes + longest)
    decreases |calls|
  {
    if calls != [] {
      var last := calls[|calls| - 1];
      FilesStayBounded(calls[..|calls| - 1], maxBytes, longest);
      AppendStaysBounded(AfterAll(Disk(None, None), calls[..|calls| - 1], maxBytes), last.line, maxBytes, last.stop, longest);
    }
  }
}
