/** What holds of a spool between operations: memory and disk both describe one history of
    committed records, cut into segments. */
module SpoolInvariant {
  import opened Usage
  import opened Ledger
  import opened Segments
  import opened SpoolModel

  /** The history: records compacted away, then those of each segment in order. */
  datatype History = History(gone: seq<Record>, parts: seq<seq<Record>>)
  {
    /** Every record ever committed, from number 1 on. */
    function Log(): seq<Record> { gone + Flatten(parts) }

    /** The first i segments and what was before them. */
    function UpTo(i: nat): seq<Record>
      requires i <= |parts|
    {
      gone + Flatten(parts[..i])
    }
  }

  function Flatten(parts: seq<seq<Record>>): seq<Record>
  {
    if parts == [] then [] else Flatten(parts[..|parts| - 1]) + parts[|parts| - 1]
  }

  lemma {:induction false} FlattenAppend(a: seq<seq<Record>>, b: seq<seq<Record>>)
    ensures Flatten(a + b) == Flatten(a) + Flatten(b)
  {
    if b == [] {
      assert a + b == a;
    } else {
      var n := |b| - 1;
      FlattenAppend(a, b[..n]);
      assert (a + b)[..|a + b| - 1] == a + b[..n];
      assert (a + b)[|a + b| - 1] == b[n];
    }
  }

  /** Segment i's records follow those of the segments before it. */
  lemma UpToNext(h: History, i: nat)
    requires i < |h.parts|
    ensures h.UpTo(i + 1) == h.UpTo(i) + h.parts[i]
    ensures h.UpTo(i + 1) <= h.Log()
  {
    assert h.parts[..i + 1][..i] == h.parts[..i];
    assert h.parts == h.parts[..i + 1] + h.parts[i + 1..];
    FlattenAppend(h.parts[..i + 1], h.parts[i + 1..]);
  }

  lemma UpToAll(h: History)
    ensures h.UpTo(|h.parts|) == h.Log()
  {
    assert h.parts[..|h.parts|] == h.parts;
  }

  ghost predicate GoodLog(c: Codec, log: seq<Record>)
  {
    Chained(c, log, 1, "") && Closed(log) && Timed(log) && WindowsAdvance(log)
  }

  /** Segments are named by their first number, cut between batches, and only the last can be empty. */
  ghost predicate Placed(firsts: seq<nat>, h: History)
  {
    && |firsts| == |h.parts| > 0
    && Ascending(firsts)
    && (forall i :: 0 <= i < |firsts| ==> firsts[i] == |h.UpTo(i)| + 1)
    && (forall i :: 0 <= i < |firsts| ==> Closed(h.parts[i]) && Timed(h.parts[i]))
    && (forall i :: 0 <= i < |firsts| - 1 ==> h.parts[i] != [])
  }

  ghost predicate GoodHistory(c: Codec, firsts: seq<nat>, h: History)
  {
    GoodLog(c, h.Log()) && Placed(firsts, h)
  }

  // ---- the disk ----

  /** The manifest's segments are the leading ones, without their indexes; never the newest. */
  ghost predicate ListsSegments(c: Codec, segments: seq<Segment>, firsts: seq<nat>, h: History)
  {
    && |segments| < |firsts| == |h.parts|
    && forall i :: 0 <= i < |segments| ==> segments[i] == StoredSegment(MetaOf(c, firsts[i], h.parts[i]))
  }

  /** The manifest lists leading segments and the watermarks of a moment j after they closed. */
  ghost predicate ManifestOk(c: Codec, man: Manifest, firsts: seq<nat>, h: History, j: nat)
  {
    && ListsSegments(c, man.segments, firsts, h)
    && firsts[|man.segments|] <= j + 1 && j <= |h.Log()|
    && man.watermarks == Watermarks(h.Log()[..j])
    && man.anchor == HeadOf(c, h.gone, "")
  }

  function Tail(firsts: seq<nat>, i: nat, extra: string): string { if i + 1 == |firsts| then extra else "" }

  /** Each file holds its segment's lines; the newest may carry `extra` bytes more. */
  ghost predicate FilesOk(c: Codec, files: map<nat, string>, firsts: seq<nat>, h: History, extra: string)
  {
    && |firsts| == |h.parts|
    && (forall n :: n in files <==> n in firsts)
    && (forall i :: 0 <= i < |firsts| ==>
          firsts[i] in files && files[firsts[i]] == Lines(c, h.parts[i]) + Tail(firsts, i, extra))
  }

  ghost predicate DiskOk(c: Codec, d: DiskState, firsts: seq<nat>, h: History, extra: string)
  {
    && FilesOk(c, d.files, firsts, h, extra)
    && exists j :: ManifestOk(c, ManifestOf(d), firsts, h, j)
  }

  /** What a crash inside a batch leaves behind the last commit: events, then part of a line. */
  ghost predicate Torn(c: Codec, extra: string, evs: seq<Record>, rest: string)
  {
    extra == Lines(c, evs) + rest && NoCommits(evs) && '\n' !in rest
  }

  // ---- the memory ----

  function Firsts(segs: seq<Segment>): (firsts: seq<nat>)
    ensures |firsts| == |segs| && forall i :: 0 <= i < |segs| ==> firsts[i] == segs[i].first
  {
    seq(|segs|, i requires 0 <= i < |segs| => segs[i].first)
  }

  /** Correct metadata for every segment; the active one's index is complete. */
  ghost predicate SegmentsOk(c: Codec, segs: seq<Segment>, h: History)
  {
    && |segs| == |h.parts| > 0
    && (forall i :: 0 <= i < |segs| ==> Describes(c, segs[i], segs[i].first, h.parts[i]))
    && (var n := |segs| - 1; segs[n] == MetaOf(c, segs[n].first, h.parts[n]))
  }

  ghost predicate MemoryOk(c: Codec, m: Memory, h: History)
  {
    && SegmentsOk(c, m.segs, h)
    && m.number == m.committed == |h.Log()|
    && m.head == HeadOf(c, h.Log(), "")
    && m.anchor == HeadOf(c, h.gone, "")
    && m.watermarks == Watermarks(h.Log())
  }

  ghost predicate Inv(c: Codec, m: Memory, d: DiskState, h: History)
  {
    && GoodHistory(c, Firsts(m.segs), h)
    && MemoryOk(c, m, h)
    && DiskOk(c, d, Firsts(m.segs), h, "")
  }

  // ---- watermarks as maxima ----

  /** Record i commits a window of this source. */
  predicate CommitsFor(log: seq<Record>, i: nat, source: string)
  {
    i < |log| && IsWindowCommit(log[i]) && log[i].payload.commit.source == source
  }

  function EndAt(log: seq<Record>, i: nat): Time
    requires i < |log| && IsWindowCommit(log[i])
  {
    log[i].payload.commit.windowEnd
  }

  lemma EarlierEnds(log: seq<Record>, i: nat, j: nat, source: string)
    requires WindowsAdvance(log) && CommitsFor(log, i, source) && CommitsFor(log, j, source) && i < j
    ensures EndAt(log, i) < EndAt(log, j)
  {
  }

  /** A source has a watermark once it committed a window, and it is the largest window end it committed. */
  lemma {:induction false} WatermarkIsMax(log: seq<Record>, source: string)
    requires WindowsAdvance(log)
    ensures source in Watermarks(log) <==> exists i: nat :: CommitsFor(log, i, source)
    ensures forall i: nat :: CommitsFor(log, i, source) ==> EndAt(log, i) <= Watermarks(log)[source]
    ensures source in Watermarks(log) ==>
      exists i: nat :: CommitsFor(log, i, source) && EndAt(log, i) == Watermarks(log)[source]
  {
    if log != [] {
      hide WindowsAdvance;
      var n := |log| - 1;
      var before := log[..n];
      assert WindowsAdvance(before) by { WindowsAdvanceSlice(log, 0, n); }
      assert forall i: nat :: CommitsFor(log, i, source) && i != n ==> CommitsFor(before, i, source);
      assert forall i: nat :: CommitsFor(before, i, source) ==>
        CommitsFor(log, i, source) && EndAt(log, i) == EndAt(before, i);
      WatermarkIsMax(before, source);
      if CommitsFor(log, n, source) {
        forall i: nat | CommitsFor(before, i, source) ensures EndAt(log, i) < EndAt(log, n) {
          EarlierEnds(log, i, n, source);
        }
      }
    }
  }

  lemma CommitBounded(log: seq<Record>, i: nat, source: string)
    requires WindowsAdvance(log) && CommitsFor(log, i, source)
    ensures source in Watermarks(log) && EndAt(log, i) <= Watermarks(log)[source]
  {
    WatermarkIsMax(log, source);
  }

  lemma LatestCommit(log: seq<Record>, source: string) returns (i: nat)
    requires WindowsAdvance(log) && source in Watermarks(log)
    ensures CommitsFor(log, i, source) && EndAt(log, i) == Watermarks(log)[source]
  {
    WatermarkIsMax(log, source);
    i :| CommitsFor(log, i, source) && EndAt(log, i) == Watermarks(log)[source];
  }

  lemma WindowsAdvanceSlice(log: seq<Record>, a: nat, b: nat)
    requires WindowsAdvance(log) && a <= b <= |log|
    ensures WindowsAdvance(log[a..b])
  {
    var s := log[a..b];
    assert forall i :: 0 <= i < |s| ==> s[i] == log[a + i];
  }

  /** A stretch of a longer log knows no later window than the whole. */
  lemma StretchBelow(all: seq<Record>, part: seq<Record>, a: nat, source: string)
    requires WindowsAdvance(all) && WindowsAdvance(part) && a + |part| <= |all| && part == all[a..a + |part|]
    requires source in Watermarks(part)
    ensures source in Watermarks(all) && Watermarks(part)[source] <= Watermarks(all)[source]
  {
    hide Watermarks, WindowsAdvance;
    var i := LatestCommit(part, source);
    assert all[a + i] == part[i];
    CommitBounded(all, a + i, source);
  }

  /** A source committed in the whole was committed in one of its two halves, no later there. */
  lemma OneHalfHas(all: seq<Record>, past: seq<Record>, part: seq<Record>, source: string)
    requires WindowsAdvance(all) && WindowsAdvance(past) && WindowsAdvance(part)
    requires past <= all && |part| <= |all| && (|part| + |past| >= |all|)
    requires part == all[|all| - |part|..] && source in Watermarks(all)
    ensures (source in Watermarks(past) && Watermarks(all)[source] <= Watermarks(past)[source])
      || (source in Watermarks(part) && Watermarks(all)[source] <= Watermarks(part)[source])
  {
    hide Watermarks, WindowsAdvance;
    var a := |all| - |part|;
    var i := LatestCommit(all, source);
    if i < |past| {
      assert past[i] == all[i];
      CommitBounded(past, i, source);
    } else {
      assert part[i - a] == all[i];
      CommitBounded(part, i - a, source);
    }
  }

  lemma PositiveWatermark(log: seq<Record>, source: string)
    requires WindowsAdvance(log) && source in Watermarks(log)
    ensures Watermarks(log)[source] > 0
  {
    hide Watermarks, WindowsAdvance;
    var i := LatestCommit(log, source);
  }

  lemma RaiseAt(all: seq<Record>, past: seq<Record>, part: seq<Record>, source: string)
    requires WindowsAdvance(all) && WindowsAdvance(past) && WindowsAdvance(part)
    requires past <= all && |part| <= |all| && (|part| + |past| >= |all|)
    requires part == all[|all| - |part|..]
    ensures var wm := Watermarks(all); var raised := Raise(Watermarks(past), Watermarks(part));
      && (source in wm <==> source in raised)
      && (source in wm ==> wm[source] == raised[source])
  {
    hide Watermarks, WindowsAdvance;
    var a := |all| - |part|;
    if source in Watermarks(past) { StretchBelow(all, past, 0, source); }
    if source in Watermarks(part) {
      StretchBelow(all, part, a, source);
      PositiveWatermark(part, source);
    }
    if source in Watermarks(all) { OneHalfHas(all, past, part, source); }
  }

  /** Raising stale watermarks by a later stretch of the log gives the current ones. */
  lemma RaiseCatchesUp(log: seq<Record>, a: nat, p: nat, b: nat)
    requires WindowsAdvance(log) && a <= p <= |log| && a <= b <= |log|
    ensures Raise(Watermarks(log[..p]), Watermarks(log[a..b])) == Watermarks(log[..if p < b then b else p])
  {
    hide Watermarks, WindowsAdvance;
    var q := if p < b then b else p;
    var all, past, part := log[..q], log[..p], log[a..b];
    WindowsAdvanceSlice(log, 0, q);
    WindowsAdvanceSlice(log, 0, p);
    WindowsAdvanceSlice(log, a, b);
    var wm, raised := Watermarks(all), Raise(Watermarks(past), Watermarks(part));
    if p <= b {
      forall s ensures (s in wm <==> s in raised) && (s in wm ==> wm[s] == raised[s]) { RaiseAt(all, past, part, s); }
    } else {
      forall s ensures (s in wm <==> s in raised) && (s in wm ==> wm[s] == raised[s]) {
        if s in Watermarks(part) {
          StretchBelow(all, part, a, s);
          PositiveWatermark(part, s);
        }
      }
    }
    assert wm.Keys == raised.Keys;
  }
}
