/** Reading the end of a log file backwards in chunks. */
module LogTail {
  import opened Lines
  import opened Sequences

  const CHUNK_SIZE: nat := 64 * 1024
  const MAX_SCAN_BYTES: nat := 5 * 1024 * 1024

  function Concat(chunks: seq<Bytes>): Bytes {
    if chunks == [] then [] else chunks[0] + Concat(chunks[1..])
  }

  /** The source's negative slice, under which zero means everything. */
  function SliceFromEnd<T>(s: seq<T>, n: nat): seq<T> {
    if n == 0 then s else LastN(s, n)
  }

  predicate StartsLine(file: Bytes, position: nat)
    requires position <= |file|
  {
    position == 0 || file[position - 1] == NEWLINE
  }

  /** The lines of the file that begin at or after a position.  Every newline before the
      position ends an earlier line, and a position inside a line loses that line too. */
  function LinesFrom(file: Bytes, position: nat): seq<Bytes>
    requires position <= |file|
  {
    var before := CountNewlines(file[..position]) + if StartsLine(file, position) then 0 else 1;
    var lines := LinesOf(file);
    if before <= |lines| then lines[before..] else []
  }

  lemma GlueKeepsRight(p: seq<Bytes>, q: seq<Bytes>)
    requires p != [] && q != []
    ensures |Glue(p, q)| == |p| + |q| - 1 && Glue(p, q)[|p|..] == q[1..]
    ensures p[|p| - 1] == [] ==> Glue(p, q)[|p| - 1..] == q
  {
    assert p[|p| - 1] == [] ==> p[|p| - 1] + q[0] == q[0];
  }

  lemma DropFromBoth(all: seq<Bytes>, k: nat)
    requires k <= |all|
    ensures var lines := DropFinalEmpty(all);
      DropFinalEmpty(all[k..]) == if k <= |lines| then lines[k..] else []
  {
  }

  /** Splitting the scanned part alone, and dropping a first piece that may be half a line,
      gives the lines of the whole file that begin in the scanned part. */
  lemma ScannedLines(file: Bytes, position: nat)
    requires position <= |file|
    ensures var pieces := Split(file[position..]);
      DropFinalEmpty(if StartsLine(file, position) then pieces else pieces[1..]) == LinesFrom(file, position)
  {
    var a, b := file[..position], file[position..];
    assert file == a + b;
    SplitAdds(a, b);
    LastPiece(a);
    GlueKeepsRight(Split(a), Split(b));
    var k := CountNewlines(a) + if StartsLine(file, position) then 0 else 1;
    DropFromBoth(Split(file), k);
  }

  ghost predicate IsSuffix<T>(s: seq<T>, all: seq<T>) {
    |s| <= |all| && s == all[|all| - |s|..]
  }

  lemma SuffixOfLines(file: Bytes, position: nat, n: nat)
    requires position <= |file|
    ensures IsSuffix(LinesFrom(file, position), LinesOf(file))
    ensures IsSuffix(SliceFromEnd(LinesFrom(file, position), n), LinesOf(file))
    ensures position == 0 ==> LinesFrom(file, position) == LinesOf(file)
  {
    assert file[..0] == [];
  }

  /** The scan stops early only once it has seen more newlines than lines wanted. */
  lemma EnoughLines(file: Bytes, position: nat, n: nat)
    requires position <= |file| && CountNewlines(file[position..]) > n
    ensures LastN(LinesFrom(file, position), n) == LastN(LinesOf(file), n)
  {
    ScannedLines(file, position);
    SuffixOfLines(file, position, n);
    assert |LinesFrom(file, position)| >= n;
  }

  method CountInBuffer(buffer: Bytes) returns (n: nat)
    ensures n == CountNewlines(buffer)
  {
    n := 0;
    var i := |buffer|;
    assert buffer[i..] == [];
    while i > 0
      invariant 0 <= i <= |buffer|
      invariant n == CountNewlines(buffer[i..])
    {
      i := i - 1;
      assert buffer[i..][1..] == buffer[i + 1..];
      if buffer[i] == NEWLINE {
        n := n + 1;
      }
    }
    assert buffer[0..] == buffer;
  }

  lemma PrependChunk(file: Bytes, start: nat, end: nat)
    requires start <= end <= |file|
    ensures file[start..] == file[start..end] + file[end..]
    ensures CountNewlines(file[start..]) == CountNewlines(file[start..end]) + CountNewlines(file[end..])
  {
    CountAdds(file[start..end], file[end..]);
    assert file[start..] == file[start..end] + file[end..];
  }

  lemma ConcatFront(buffer: Bytes, chunks: seq<Bytes>)
    ensures Concat([buffer] + chunks) == buffer + Concat(chunks)
  {
    assert ([buffer] + chunks)[1..] == chunks;
  }

  /** Where the scan comes to rest when it has reached a position: at the start of the file,
      beyond the scan limit, or once there are more newlines than lines wanted. */
  function ScanStart(file: Bytes, position: nat, maxLines: nat): (start: nat)
    requires position <= |file|
    ensures start <= position
  {
    if position == 0 || CountNewlines(file[position..]) > maxLines || |file| - position >= MAX_SCAN_BYTES then position
    else ScanStart(file, position - Min(CHUNK_SIZE, position), maxLines)
  }

  lemma ScanStep(file: Bytes, position: nat, maxLines: nat)
    requires position <= |file|
    ensures ScanStart(file, position, maxLines) ==
      if position == 0 || CountNewlines(file[position..]) > maxLines || |file| - position >= MAX_SCAN_BYTES then position
      else ScanStart(file, position - Min(CHUNK_SIZE, position), maxLines)
  {}

  lemma NothingScanned(file: Bytes)
    ensures file[|file|..] == [] && CountNewlines([]) == 0 && Concat([]) == []
  {}

  /** The backward scan: chunks are put in front until more newlines than lines wanted have
      been seen, the start of the file is reached, or the scan limit is hit. */
  method ScanBackwards(file: Bytes, maxLines: nat) returns (position: nat, scanned: nat, text: Bytes)
    ensures position <= |file| && scanned == |file| - position
    ensures text == file[position..] && position == ScanStart(file, |file|, maxLines)
    ensures position == 0 || CountNewlines(text) > maxLines || scanned == MAX_SCAN_BYTES
    ensures position > 0 ==> scanned <= MAX_SCAN_BYTES
  {
    hide ScanStart, CountNewlines, Concat;
    position := |file|;
    scanned := 0;
    var newlineCount := 0;
    var chunks: seq<Bytes> := [];
    NothingScanned(file);
    while position > 0 && newlineCount <= maxLines && scanned < MAX_SCAN_BYTES
      invariant 0 <= position <= |file| && scanned == |file| - position
      invariant position > 0 ==> scanned == |chunks| * CHUNK_SIZE && scanned <= MAX_SCAN_BYTES
      invariant newlineCount == CountNewlines(file[position..])
      invariant Concat(chunks) == file[position..]
      invariant ScanStart(file, position, maxLines) == ScanStart(file, |file|, maxLines)
      decreases position
    {
      var readSize := Min(CHUNK_SIZE, position);
      ScanStep(file, position, maxLines);
      PrependChunk(file, position - readSize, position);
      position := position - readSize;
      var buffer := file[position..position + readSize];
      scanned := scanned + readSize;
      var found := CountInBuffer(buffer);
      newlineCount := newlineCount + found;
      ConcatFront(buffer, chunks);
      chunks := [buffer] + chunks;
    }
    ScanStep(file, position, maxLines);
    text := Concat(chunks);
  }

  /** The lines of the scanned text, without a first piece that is only the end of a line and
      without the empty piece after a final newline. */
  method WholeLines(file: Bytes, position: nat, text: Bytes) returns (allLines: seq<Bytes>)
    requires position <= |file| && text == file[position..]
    ensures allLines == LinesFrom(file, position)
  {
    var startsOnLineBoundary := position == 0;
    if position > 0 {
      startsOnLineBoundary := file[position - 1] == NEWLINE;
    }
    allLines := Split(text);
    if !startsOnLineBoundary && |allLines| > 0 {
      allLines := allLines[1..];
    }
    if |allLines| > 0 && allLines[|allLines| - 1] == [] {
      allLines := allLines[..|allLines| - 1];
    }
    ScannedLines(file, position);
  }

  lemma EmptyFile(file: Bytes)
    requires file == []
    ensures LinesOf(file) == [] && IsSuffix([], LinesOf(file)) && LinesFrom(file, 0) == []
  {
    assert Split(file) == [[]];
  }

  method ReadLastLines(file: Bytes, maxLines: nat) returns (lines: seq<Bytes>, size: nat, truncated: bool)
    ensures size == |file|
    // Whatever is returned is the end of the file's list of lines.
    ensures IsSuffix(lines, LinesOf(file))
    // Exactly the last lines, unless the scan was cut off.
    ensures maxLines >= 1 && !truncated ==> lines == LastN(LinesOf(file), maxLines)
    // When it was, the last of the lines that begin in the scanned part.
    ensures truncated ==> |file| > 5 * 0x10_0000
    ensures truncated ==> lines == SliceFromEnd(LinesFrom(file, |file| - 5 * 0x10_0000), maxLines)
    ensures maxLines >= 1 ==> |lines| <= maxLines
    // Asked for no lines, all that begin in the scanned part.
    ensures maxLines == 0 ==> lines == LinesFrom(file, ScanStart(file, |file|, 0))
  {
    hide LinesFrom, LinesOf, CountNewlines, IsSuffix;
    size := |file|;
    if size == 0 {
      EmptyFile(file);
      return [], 0, false;
    }
    var position, scanned, text := ScanBackwards(file, maxLines);
    truncated := position > 0 && scanned >= MAX_SCAN_BYTES;
    var allLines := WholeLines(file, position, text);
    lines := SliceFromEnd(allLines, maxLines);
    SuffixOfLines(file, position, maxLines);
    if position > 0 && !truncated {
      EnoughLines(file, position, maxLines);
    }
  }

  /** What a caller asks for is brought into 1..1000 first, so the exact case applies. */
  function RequestedLines(lines: int): (n: nat)
    ensures 1 <= n <= 1000 && (1 <= lines <= 1000 ==> n == lines)
    ensures (lines < 0 ==> n == 1) && (lines == 0 ==> n == 200) && (lines > 1000 ==> n == 1000)
  {
    var l := if lines == 0 then 200 else lines;
    Min(if l < 1 then 1 else l, 1000)
  }
}
