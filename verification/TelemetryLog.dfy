/** The bounded append-only telemetry files of remote nodes: appending a batch of records,
    and the compaction that keeps a file from growing without limit. */
module TelemetryLog {
  import opened Wrappers
  import opened Lines
  import opened Sequences

  const MAX_BATCH_EVENTS: nat := 500
  const MAX_SECURITY_FILE_BYTES: nat := 32 * 1024 * 1024
  const MAX_ANALYTICS_FILE_BYTES: nat := 24 * 1024 * 1024
  const COMPACT_TO_BYTES: nat := 12 * 1024 * 1024

  /** Printed records hold no newline. */
  ghost predicate OneLiners(lines: seq<Bytes>) {
    forall i :: 0 <= i < |lines| ==> NEWLINE !in lines[i]
  }

  /** The position of the first newline, or the length of the text. */
  function FirstNewline(t: Bytes): (i: nat)
    ensures i <= |t| && (forall j :: 0 <= j < i ==> t[j] != NEWLINE) && (i < |t| ==> t[i] == NEWLINE)
  {
    if t == [] || t[0] == NEWLINE then 0 else 1 + FirstNewline(t[1..])
  }

  /** At most the last `maxBytes` bytes; when the file is longer, cut back to the first whole
      line after the cut. */
  function ReadTail(file: Bytes, maxBytes: nat): Bytes {
    var size := Min(|file|, maxBytes);
    var text := file[|file| - size..];
    if |file| > size then
      var i := FirstNewline(text);
      if i < |text| then text[i + 1..] else []
    else text
  }

  /** The records of a batch as appended: joined by newlines, with one at the end. */
  function JoinedBy(lines: seq<Bytes>): Bytes
    requires lines != []
  {
    if |lines| == 1 then lines[0] else lines[0] + [NEWLINE] + JoinedBy(lines[1..])
  }

  lemma {:induction false} PayloadIsLines(lines: seq<Bytes>)
    requires lines != []
    ensures JoinedBy(lines) + [NEWLINE] == JoinLines(lines)
  {
    if |lines| == 1 {
      assert JoinLines(lines[1..]) == [];
    } else {
      PayloadIsLines(lines[1..]);
      assert JoinedBy(lines) + [NEWLINE] == lines[0] + [NEWLINE] + (JoinedBy(lines[1..]) + [NEWLINE]);
    }
  }

  lemma {:induction false} JoinLinesAdds(a: seq<Bytes>, b: seq<Bytes>)
    ensures JoinLines(a + b) == JoinLines(a) + JoinLines(b)
  {
    if a == [] {
      assert a + b == b;
    } else {
      JoinLinesAdds(a[1..], b);
      assert (a + b)[1..] == a[1..] + b;
      assert a[0] + [NEWLINE] + (JoinLines(a[1..]) + JoinLines(b)) == a[0] + [NEWLINE] + JoinLines(a[1..]) + JoinLines(b);
    }
  }

  /** Cutting a file of whole lines anywhere and going on after the next newline leaves whole
      lines: the last ones, and as many as start after the cut. */
  lemma {:induction false} CutLeavesLines(lines: seq<Bytes>, cut: nat) returns (k: nat)
    requires OneLiners(lines) && cut < |JoinLines(lines)|
    ensures 1 <= k <= |lines|
    ensures var text := JoinLines(lines)[cut..];
      FirstNewline(text) < |text| && text[FirstNewline(text) + 1..] == JoinLines(lines[k..])
    ensures |JoinLines(lines[k..])| < |JoinLines(lines)| - cut <= |JoinLines(lines[k - 1..])|
  {
    var n, all := |lines[0]|, JoinLines(lines);
    if cut <= n {
      k := 1;
      var text := all[cut..];
      assert text[..n - cut] == lines[0][cut..];
      assert forall j :: 0 <= j < n - cut ==> text[j] == lines[0][cut + j];
      assert text[n - cut] == all[n] == NEWLINE;
      assert FirstNewline(text) == n - cut;
      assert text[n - cut + 1..] == JoinLines(lines[1..]);
      assert lines[0..] == lines;
    } else {
      var rest := JoinLines(lines[1..]);
      assert all[cut..] == rest[cut - n - 1..];
      k := CutLeavesLines(lines[1..], cut - n - 1);
      assert lines[1..][k..] == lines[k + 1..];
      assert lines[1..][k - 1..] == lines[k..];
      k := k + 1;
    }
  }

  /** What appending a batch does to the bytes of a file. */
  function Appended(data: Bytes, records: seq<Bytes>, maxBytes: nat): Bytes {
    if records == [] then data else Compacted(data, maxBytes) + JoinLines(records)
  }

  function Compacted(data: Bytes, maxBytes: nat): Bytes {
    if |data| > maxBytes then ReadTail(data, COMPACT_TO_BYTES) else data
  }

  class TelemetryFile {
    const maxBytes: nat
    var data: Bytes
    /** Every record ever appended, and how many of the oldest are gone. */
    ghost var appended: seq<Bytes>
    ghost var dropped: nat

    /** The file is a whole-line suffix of everything ever appended to it, in order. */
    ghost predicate Valid()
      reads this
    {
      OneLiners(appended) && dropped <= |appended| && data == JoinLines(appended[dropped..]) &&
      maxBytes >= COMPACT_TO_BYTES
    }

    constructor (maxBytes: nat)
      requires maxBytes >= COMPACT_TO_BYTES
      ensures Valid() && appended == [] && data == [] && this.maxBytes == maxBytes
    {
      this.maxBytes := maxBytes;
      data := [];
      appended, dropped := [], 0;
    }

    /** A file within its limit is left alone.  A larger one keeps its longest whole-line
        suffix below 12 MiB: with one more line it would reach that size. */
    method CompactIfNeeded()
      requires Valid()
      modifies this`data, this`dropped
      ensures Valid()
      ensures |old(data)| <= maxBytes ==> data == old(data) && dropped == old(dropped)
      ensures |old(data)| > maxBytes ==> data == ReadTail(old(data), COMPACT_TO_BYTES)
      ensures |old(data)| > maxBytes ==>
        old(dropped) < dropped && |data| < 12 * 0x10_0000 <= |JoinLines(appended[dropped - 1..])|
      ensures |data| <= maxBytes
    {
      if |data| <= maxBytes {
        return;
      }
      ghost var lines, cut := appended[dropped..], |data| - COMPACT_TO_BYTES;
      ghost var k := CutLeavesLines(lines, cut);
      data := ReadTail(data, COMPACT_TO_BYTES);
      assert lines[k..] == appended[dropped + k..];
      assert lines[k - 1..] == appended[dropped + k - 1..];
      dropped := dropped + k;
    }

    method AppendRecords(records: seq<Bytes>) returns (accepted: nat)
      requires Valid() && OneLiners(records)
      modifies this`data, this`dropped, this`appended
      ensures Valid()
      ensures data == Appended(old(data), records, maxBytes)
      ensures accepted == |records| && appended == old(appended) + records
      ensures old(dropped) <= dropped <= |old(appended)|
      ensures |data| <= if records == [] then |old(data)| else maxBytes + |JoinLines(records)|
      ensures records == [] || |old(data)| <= maxBytes ==> dropped == old(dropped)
    {
      if |records| == 0 {
        assert appended + records == appended;
        return 0;
      }
      CompactIfNeeded();
      PayloadIsLines(records);
      JoinLinesAdds(appended[dropped..], records);
      assert (appended + records)[dropped..] == appended[dropped..] + records;
      data := data + (JoinedBy(records) + [NEWLINE]);
      appended := appended + records;
      return |records|;
    }
  }

  /** Events that normalisation rejects are left out, the others keep their order. */
  function Accepted(events: seq<Option<Bytes>>): (r: seq<Bytes>)
    ensures |r| <= |events|
    ensures forall line :: line in r <==> Some(line) in events
  {
    if events == [] then []
    else
      var r, last := Accepted(events[..|events| - 1]), events[|events| - 1];
      assert events == events[..|events| - 1] + [last];
      if last.Some? then r + [last.value] else r
  }

  lemma {:induction false} AcceptedAre(events: seq<Option<Bytes>>) returns (at: seq<nat>)
    ensures KeptFrom(Accepted(events), events, Itself, at)
  {
    at := [];
    if events != [] {
      hide KeptFrom;
      var n := |events| - 1;
      at := AcceptedAre(events[..n]);
      assert events[..n] + [events[n]] == events;
      KeepsOneMore(Accepted(events[..n]), events[..n], Itself, at, events[n]);
      if events[n].Some? {
        at := at + [n];
      }
    }
  }

  function Itself(e: Option<Bytes>): Option<Bytes> { e }

  datatype Receipt = Receipt(acceptedSecurity: nat, acceptedAnalytics: nat, rejectedSecurity: nat, rejectedAnalytics: nat)

  class NodeTelemetry {
    const security: TelemetryFile
    const analytics: TelemetryFile

    ghost predicate Valid()
      reads this, security, analytics
    {
      security != analytics && security.Valid() && analytics.Valid() &&
      security.maxBytes == 32 * 0x10_0000 && analytics.maxBytes == 24 * 0x10_0000
    }

    constructor ()
      ensures Valid() && fresh(security) && fresh(analytics)
      ensures security.appended == [] && analytics.appended == []
    {
      security := new TelemetryFile(MAX_SECURITY_FILE_BYTES);
      analytics := new TelemetryFile(MAX_ANALYTICS_FILE_BYTES);
    }

    /** One request of a node: each event is given with its normalised, printed form. */
    method Ingest(securityEvents: seq<Option<Bytes>>, analyticsEvents: seq<Option<Bytes>>) returns (r: Receipt)
      requires Valid()
      requires OneLiners(Accepted(securityEvents[..Min(|securityEvents|, 500)]))
      requires OneLiners(Accepted(analyticsEvents[..Min(|analyticsEvents|, 500)]))
      modifies security, analytics
      ensures Valid()
      ensures security.appended ==
        old(security.appended) + Accepted(securityEvents[..Min(|securityEvents|, 500)])
      ensures analytics.appended ==
        old(analytics.appended) + Accepted(analyticsEvents[..Min(|analyticsEvents|, 500)])
      ensures r.acceptedSecurity == |security.appended| - |old(security.appended)|
      ensures r.acceptedAnalytics == |analytics.appended| - |old(analytics.appended)|
      ensures r.acceptedSecurity + r.rejectedSecurity == Min(|securityEvents|, 500)
      ensures r.acceptedAnalytics + r.rejectedAnalytics == Min(|analyticsEvents|, 500)
      ensures old(security.dropped) <= security.dropped && old(analytics.dropped) <= analytics.dropped
    {
      var securityInput := securityEvents[..Min(|securityEvents|, MAX_BATCH_EVENTS)];
      var analyticsInput := analyticsEvents[..Min(|analyticsEvents|, MAX_BATCH_EVENTS)];
      var securityRecords, analyticsRecords := Accepted(securityInput), Accepted(analyticsInput);
      var a := security.AppendRecords(securityRecords);
      var b := analytics.AppendRecords(analyticsRecords);
      return Receipt(a, b, |securityInput| - |securityRecords|, |analyticsInput| - |analyticsRecords|);
    }
  }

  // ----- Whole runs -----

  function RunAppends(batches: seq<seq<Bytes>>, maxBytes: nat): Bytes {
    if batches == [] then []
    else Appended(RunAppends(batches[..|batches| - 1], maxBytes), batches[|batches| - 1], maxBytes)
  }

  function AllRecords(batches: seq<seq<Bytes>>): seq<Bytes> {
    if batches == [] then [] else AllRecords(batches[..|batches| - 1]) + batches[|batches| - 1]
  }

  /** The last batch that appended anything. */
  function LastBatch(batches: seq<seq<Bytes>>): seq<Bytes> {
    if batches == [] then []
    else if batches[|batches| - 1] != [] then batches[|batches| - 1]
    else LastBatch(batches[..|batches| - 1])
  }

  lemma CompactKeepsWholeLines(lines: seq<Bytes>, k: nat, maxBytes: nat) returns (k': nat)
    requires maxBytes >= COMPACT_TO_BYTES && OneLiners(lines) && k <= |lines|
    ensures k <= k' <= |lines|
    ensures Compacted(JoinLines(lines[k..]), maxBytes) == JoinLines(lines[k'..])
    ensures |JoinLines(lines[k'..])| <= maxBytes
  {
    k' := k;
    var data := JoinLines(lines[k..]);
    if |data| > maxBytes {
      var more := CutLeavesLines(lines[k..], |data| - COMPACT_TO_BYTES);
      k' := k + more;
      assert lines[k..][more..] == lines[k'..];
    }
  }

  lemma AppendKeepsWholeLines(lines: seq<Bytes>, k: nat, batch: seq<Bytes>, maxBytes: nat) returns (k': nat)
    requires maxBytes >= COMPACT_TO_BYTES && OneLiners(lines) && k <= |lines|
    ensures k <= k' <= |lines|
    ensures Appended(JoinLines(lines[k..]), batch, maxBytes) == JoinLines((lines + batch)[k'..])
    ensures batch != [] ==> |JoinLines((lines + batch)[k'..])| <= maxBytes + |JoinLines(batch)|
  {
    if batch == [] {
      k' := k;
      assert lines + batch == lines;
    } else {
      k' := CompactKeepsWholeLines(lines, k, maxBytes);
      JoinLinesAdds(lines[k'..], batch);
      assert (lines + batch)[k'..] == lines[k'..] + batch;
    }
  }

  /** After any sequence of batches the file is a whole-line suffix of everything appended,
      and no longer than the limit and the last batch that is not empty together. */
  lemma {:induction false} RunsKeepWholeLines(batches: seq<seq<Bytes>>, maxBytes: nat) returns (k: nat)
    requires maxBytes >= COMPACT_TO_BYTES && OneLiners(AllRecords(batches))
    ensures k <= |AllRecords(batches)|
    ensures RunAppends(batches, maxBytes) == JoinLines(AllRecords(batches)[k..])
    ensures |RunAppends(batches, maxBytes)| <= maxBytes + |JoinLines(LastBatch(batches))|
  {
    if batches == [] {
      return 0;
    }
    var before, batch := batches[..|batches| - 1], batches[|batches| - 1];
    var lines := AllRecords(before);
    assert forall i :: 0 <= i < |lines| ==> lines[i] == AllRecords(batches)[i];
    k := RunsKeepWholeLines(before, maxBytes);
    k := AppendKeepsWholeLines(lines, k, batch, maxBytes);
  }
}
