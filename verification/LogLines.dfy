/** The rotating log as its readers see it: bytes, split into lines. A cut write leaves a fragment without
  * a line break, and the record after it shares its line. */
module LogLines {
  import opened Options
  import opened Ordering
  import opened RotatingLog
  import opened Sequences
  import opened Text

  /** A line or a beginning of one: a line break stands at the end, if at all. */
  ghost predicate IsPiece(piece: Bytes) {
    piece != [] && forall i :: 0 <= i < |piece| - 1 ==> piece[i] != NEWLINE
  }

  predicate Terminated(piece: Bytes) {
    piece != [] && piece[|piece| - 1] == NEWLINE
  }

  ghost predicate ArePieces(pieces: seq<Bytes>) {
    forall i :: 0 <= i < |pieces| ==> IsPiece(pieces[i])
  }

  ghost predicate AllTerminated(pieces: seq<Bytes>) {
    forall i :: 0 <= i < |pieces| ==> Terminated(pieces[i])
  }

  lemma PiecesOfSum(a: seq<Bytes>, b: seq<Bytes>)
    ensures ArePieces(a + b) <==> ArePieces(a) && ArePieces(b)
    ensures AllTerminated(a + b) <==> AllTerminated(a) && AllTerminated(b)
  {
    assert forall i :: 0 <= i < |a| ==> (a + b)[i] == a[i];
    assert forall i :: 0 <= i < |b| ==> (a + b)[|a| + i] == b[i];
  }

  lemma SuffixSplits(tail: seq<Bytes>, all: seq<Bytes>) returns (head: seq<Bytes>)
    requires IsSuffix(tail, all)
    ensures all == head + tail
  {
    head := all[..|all| - |tail|];
  }

  /** The file ends as its last piece does. */
  lemma EndOfPieces(pieces: seq<Bytes>)
    requires pieces != [] && pieces[|pieces| - 1] != []
    ensures Terminated(Flatten(pieces)) <==> Terminated(pieces[|pieces| - 1])
  {
    var earlier, last := pieces[..|pieces| - 1], pieces[|pieces| - 1];
    assert pieces == earlier + [last];
    FlattenOfSum(earlier, [last]);
    FlattenOfOne(last);
  }

  // ----- reading a file line by line -----

  /** The length of the first line, with its line break if it has one. */
  function LineLength(bytes: Bytes): (n: nat)
    requires bytes != []
    ensures 0 < n <= |bytes|
  {
    if bytes[0] == NEWLINE || |bytes| == 1 then 1 else 1 + LineLength(bytes[1..])
  }

  function Lines(bytes: Bytes): seq<Bytes>
    decreases |bytes|
  {
    if bytes == [] then [] else [bytes[..LineLength(bytes)]] + Lines(bytes[LineLength(bytes)..])
  }

  /** The first line of what begins with a piece is the piece, or longer if that is open and goes on. */
  lemma {:induction false} FirstLineOfPiece(piece: Bytes, more: Bytes)
    requires IsPiece(piece)
    ensures Terminated(piece) || more == [] ==> LineLength(piece + more) == |piece|
    ensures !Terminated(piece) && more != [] ==> LineLength(piece + more) == |piece| + LineLength(more)
    decreases |piece|
  {
    var all := piece + more;
    if |piece| == 1 {
      assert all[1..] == more;
    } else {
      assert all[1..] == piece[1..] + more;
      FirstLineOfPiece(piece[1..], more);
    }
  }

  /** Where a line ends, the next one begins. */
  lemma LineThenRest(piece: Bytes, more: Bytes)
    requires IsPiece(piece) && (Terminated(piece) || more == [])
    ensures Lines(piece + more) == [piece] + Lines(more)
  {
    FirstLineOfPiece(piece, more);
    assert (piece + more)[..|piece|] == piece && (piece + more)[|piece|..] == more;
  }

  /** A file reads as the pieces written to it exactly when none but the last is a fragment. */
  lemma {:induction false} ReadsAsWritten(pieces: seq<Bytes>)
    requires ArePieces(pieces)
    ensures Lines(Flatten(pieces)) == pieces <==> forall i :: 0 <= i < |pieces| - 1 ==> Terminated(pieces[i])
    decreases |pieces|
  {
    if pieces != [] {
      var first, rest := pieces[0], pieces[1..];
      assert pieces == [first] + rest;
      FlattenOfNext(first, rest);
      if Terminated(first) || rest == [] {
        LineThenRest(first, Flatten(rest));
        ReadsAsWritten(rest);
        SameTail(first, Lines(Flatten(rest)), rest);
        assert forall i :: 0 <= i < |rest| ==> rest[i] == pieces[i + 1];
      } else {
        FirstLineOfPiece(first, Flatten(rest));
        assert rest[0] != [] && Flatten(rest) != [];
        assert |Lines(Flatten(pieces))[0]| > |first|;
      }
    }
  }

  lemma SameTail<T>(head: T, a: seq<T>, b: seq<T>)
    ensures [head] + a == [head] + b <==> a == b
  {
    assert ([head] + a)[1..] == a && ([head] + b)[1..] == b;
  }

  lemma FirstLine(bytes: Bytes) returns (first: Bytes, rest: Bytes)
    requires bytes != []
    ensures bytes == first + rest && first != [] && Lines(bytes) == [first] + Lines(rest)
  {
    first, rest := bytes[..LineLength(bytes)], bytes[LineLength(bytes)..];
  }

  lemma {:induction false} LinesAreAll(bytes: Bytes)
    ensures Flatten(Lines(bytes)) == bytes
    decreases |bytes|
  {
    if bytes != [] {
      var first, rest := FirstLine(bytes);
      LinesAreAll(rest);
      FlattenOfNext(first, Lines(rest));
    }
  }

  // ----- whole lines among the pieces -----

  function Wholes(pieces: seq<Bytes>): seq<Bytes> {
    if pieces == [] then []
    else Wholes(pieces[..|pieces| - 1]) + (if Terminated(pieces[|pieces| - 1]) then [pieces[|pieces| - 1]] else [])
  }

  lemma {:induction false} WholesOfSum(a: seq<Bytes>, b: seq<Bytes>)
    ensures Wholes(a + b) == Wholes(a) + Wholes(b)
    decreases |b|
  {
    if b == [] {
      assert a + b == a;
    } else {
      WholesOfSum(a, b[..|b| - 1]);
      assert (a + b)[..|a + b| - 1] == a + b[..|b| - 1];
    }
  }

  lemma WholesOfOne(piece: Bytes)
    ensures Wholes([piece]) == if Terminated(piece) then [piece] else []
  {
    var one := [piece];
    assert one[..0] == [];
  }

  lemma WholesOfSuffix(tail: seq<Bytes>, all: seq<Bytes>)
    requires IsSuffix(tail, all)
    ensures IsSuffix(Wholes(tail), Wholes(all))
  {
    var head := SuffixSplits(tail, all);
    WholesOfSum(head, tail);
  }

  lemma WholesOfNext(earlier: seq<Bytes>, last: Bytes)
    requires IsPiece(last)
    ensures Wholes(earlier + [last]) == Wholes(earlier) + (if Terminated(last) then [last] else [])
    ensures |Flatten(earlier + [last])| == |Flatten(earlier)| + |last|
    ensures |Flatten(Wholes(earlier + [last]))| == |Flatten(Wholes(earlier))| + (if Terminated(last) then |last| else 0)
    ensures AllTerminated(earlier + [last]) <==> AllTerminated(earlier) && Terminated(last)
  {
    WholesOfSum(earlier, [last]);
    WholesOfOne(last);
    FlattenOfSum(earlier, [last]);
    FlattenOfOne(last);
    FlattenOfSum(Wholes(earlier), [last]);
    PiecesOfSum(earlier, [last]);
    assert Wholes(earlier) + [] == Wholes(earlier);
    assert AllTerminated([last]) <==> Terminated([last][0]);
  }

  /** The whole lines are no more bytes than the pieces, and as many only if all pieces are whole lines. */
  lemma {:induction false} WholesAreFewer(pieces: seq<Bytes>)
    requires ArePieces(pieces)
    ensures |Flatten(Wholes(pieces))| <= |Flatten(pieces)|
    ensures |Flatten(Wholes(pieces))| == |Flatten(pieces)| <==> AllTerminated(pieces)
    ensures AllTerminated(pieces) ==> Wholes(pieces) == pieces
    decreases |pieces|
  {
    if pieces != [] {
      var earlier, last := pieces[..|pieces| - 1], pieces[|pieces| - 1];
      assert pieces == earlier + [last];
      WholesAreFewer(earlier);
      WholesOfNext(earlier, last);
    }
  }

  /** What a file ends with that was open when its last pieces were written. */
  function Last(open: Bytes, pieces: seq<Bytes>): Bytes {
    if pieces == [] then open else pieces[|pieces| - 1]
  }

  /** Reading on from an open fragment: a line ends with each whole piece, and one more at an open end. */
  lemma {:induction false} LinesEndAtWholes(open: Bytes, pieces: seq<Bytes>)
    requires ArePieces(pieces) && (open != [] ==> IsPiece(open) && !Terminated(open))
    ensures |Lines(open + Flatten(pieces))|
         == |Wholes(pieces)| + (if Last(open, pieces) == [] || Terminated(Last(open, pieces)) then 0 else 1)
    decreases |pieces|
  {
    if pieces == [] {
      assert open + [] == open;
      if open != [] {
        LineThenRest(open, []);
      }
    } else {
      var first, rest := pieces[0], pieces[1..];
      assert pieces == [first] + rest;
      ReadingGoesOn(open, first, rest);
      LinesEndAtWholes(if Terminated(first) then [] else open + first, rest);
    }
  }

  /** One piece more is read: it ends a line, or the open one goes on. */
  lemma ReadingGoesOn(open: Bytes, first: Bytes, rest: seq<Bytes>)
    requires IsPiece(first) && (open != [] ==> IsPiece(open) && !Terminated(open))
    ensures var next := if Terminated(first) then [] else open + first;
      && (next != [] ==> IsPiece(next) && !Terminated(next))
      && |Lines(open + Flatten([first] + rest))| == |Lines(next + Flatten(rest))| + (if Terminated(first) then 1 else 0)
      && |Wholes([first] + rest)| == |Wholes(rest)| + (if Terminated(first) then 1 else 0)
  {
    FlattenOfNext(first, rest);
    ConcatAssociates(open, first, Flatten(rest));
    WholesOfSum([first], rest);
    WholesOfOne(first);
    if Terminated(first) {
      LineThenRest(open + first, Flatten(rest));
      assert [] + Flatten(rest) == Flatten(rest);
    }
  }

  // ----- what the log reads as -----

  /** What a reader of the older file and then the live one gets. */
  function ReadLog(disk: Disk): seq<Bytes> {
    Lines(Flatten(Pieces(disk.rotated))) + Lines(Flatten(Pieces(disk.live)))
  }

  ghost predicate AreLines(calls: seq<Call>) {
    forall i :: 0 <= i < |calls| ==> IsPiece(calls[i].line) && Terminated(calls[i].line)
  }

  lemma WrittenWholes(call: Call)
    requires IsPiece(call.line) && Terminated(call.line)
    ensures var written := Written(call.line, call.stop);
      ArePieces(written) && Wholes(written) == CompletedLine(call)
  {
    var written := Written(call.line, call.stop);
    if written != [] {
      WholesOfOne(written[0]);
      assert written == [written[0]];
    }
  }

  /** The completed lines are the whole ones among what was written. */
  lemma {:induction false} CompletedAreWholes(calls: seq<Call>)
    requires AreLines(calls)
    ensures ArePieces(History(calls)) && Completed(calls) == Wholes(History(calls))
    decreases |calls|
  {
    if calls != [] {
      var earlier, last := calls[..|calls| - 1], calls[|calls| - 1];
      CompletedAreWholes(earlier);
      WrittenWholes(last);
      WholesOfSum(History(earlier), Written(last.line, last.stop));
      PiecesOfSum(History(earlier), Written(last.line, last.stop));
    }
  }

  /** Of a file all of whose lines are terminated, the lines are as many as its whole pieces. */
  lemma TerminatedLinesAreWholes(pieces: seq<Bytes>)
    requires ArePieces(pieces) && AllTerminated(Lines(Flatten(pieces)))
    ensures |Lines(Flatten(pieces))| == |Wholes(pieces)|
  {
    LinesEndAtWholes([], pieces);
    assert [] + Flatten(pieces) == Flatten(pieces);
    if pieces != [] {
      EndOfPieces(pieces);
      LinesAreAll(Flatten(pieces));
      EndOfPieces(Lines(Flatten(pieces)));
    }
  }

  lemma WholeFilesReadAsWritten(disk: Disk)
    requires ArePieces(OnDisk(disk)) && AllTerminated(OnDisk(disk))
    ensures ReadLog(disk) == OnDisk(disk)
  {
    PiecesOfSum(Pieces(disk.rotated), Pieces(disk.live));
    ReadsAsWritten(Pieces(disk.rotated));
    ReadsAsWritten(Pieces(disk.live));
  }

  /** If all that is read is terminated, it is as many lines as there are whole pieces, and all the bytes. */
  lemma TerminatedReadCounts(disk: Disk)
    requires ArePieces(OnDisk(disk)) && AllTerminated(ReadLog(disk))
    ensures |ReadLog(disk)| == |Wholes(OnDisk(disk))| && Flatten(ReadLog(disk)) == Flatten(OnDisk(disk))
  {
    var rotated, live := Pieces(disk.rotated), Pieces(disk.live);
    PiecesOfSum(rotated, live);
    PiecesOfSum(Lines(Flatten(rotated)), Lines(Flatten(live)));
    TerminatedLinesAreWholes(rotated);
    TerminatedLinesAreWholes(live);
    WholesOfSum(rotated, live);
    FlattenOfSum(Lines(Flatten(rotated)), Lines(Flatten(live)));
    FlattenOfSum(rotated, live);
    LinesAreAll(Flatten(rotated));
    LinesAreAll(Flatten(live));
  }

  lemma {:induction false} WholesAreTerminated(pieces: seq<Bytes>)
    ensures AllTerminated(Wholes(pieces))
    decreases |pieces|
  {
    if pieces != [] {
      WholesAreTerminated(pieces[..|pieces| - 1]);
    }
  }

  /** Whoever reads only records of the history has all of the files' pieces before them as whole lines. */
  lemma OnlyRecordsMeansNoFragment(disk: Disk, history: seq<Bytes>)
    requires ArePieces(OnDisk(disk)) && IsSuffix(OnDisk(disk), history) && IsSuffix(ReadLog(disk), Wholes(history))
    ensures AllTerminated(OnDisk(disk))
  {
    WholesAreTerminated(history);
    var head := SuffixSplits(ReadLog(disk), Wholes(history));
    PiecesOfSum(head, ReadLog(disk));
    TerminatedReadCounts(disk);
    WholesOfSuffix(OnDisk(disk), history);
    assert ReadLog(disk) == Wholes(OnDisk(disk));
    WholesAreFewer(OnDisk(disk));
  }

  /** Read line by line, the files are the last completed records, whole and in order, exactly when no
    * fragment of a cut write is still in them. */
  lemma ReadsRecordsIffNoFragment(calls: seq<Call>, maxBytes: nat)
    requires AreLines(calls)
    ensures var disk := AfterAll(Disk(None, None), calls, maxBytes);
      IsSuffix(ReadLog(disk), Completed(calls)) <==> AllTerminated(OnDisk(disk))
  {
    var disk, history := AfterAll(Disk(None, None), calls, maxBytes), History(calls);
    LogIsASuffix(Disk(None, None), calls, maxBytes);
    assert OnDisk(Disk(None, None)) + history == history;
    CompletedAreWholes(calls);
    var head := SuffixSplits(OnDisk(disk), history);
    PiecesOfSum(head, OnDisk(disk));
    if AllTerminated(OnDisk(disk)) {
      WholeFilesReadAsWritten(disk);
      WholesOfSuffix(OnDisk(disk), history);
      WholesAreFewer(OnDisk(disk));
    } else if IsSuffix(ReadLog(disk), Completed(calls)) {
      OnlyRecordsMeansNoFragment(disk, history);
    }
  }
}
