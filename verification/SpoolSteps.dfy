/** Rotation, appends and crashes inside them keep the spool's invariant; an append adds
    exactly its batch to the log, and a crash leaves all of it or nothing. */
module SpoolSteps {
  import opened Usage
  import opened Ledger
  import opened Segments
  import opened SpoolModel
  import opened SpoolInvariant
  import opened SpoolRecovery

  // ---- rotation ----

  function Cut(h: History): History { h.(parts := h.parts + [[]]) }

  /** Starting an empty segment leaves the log and the earlier segments as they were. */
  lemma CutKeepsLog(h: History)
    ensures Cut(h).Log() == h.Log()
    ensures forall i :: 0 <= i <= |h.parts| ==> Cut(h).UpTo(i) == h.UpTo(i)
  {
    var p := h.parts + [[]];
    assert p[..|p| - 1] == h.parts;
    assert forall i :: 0 <= i <= |h.parts| ==> p[..i] == h.parts[..i];
  }

  lemma CutPlaced(firsts: seq<nat>, h: History)
    requires Placed(firsts, h) && h.parts[|h.parts| - 1] != []
    ensures Placed(firsts + [|h.Log()| + 1], Cut(h))
  {
    hide Flatten;
    CutKeepsLog(h);
    UpToAll(h);
    UpToNext(h, |h.parts| - 1);
    var f1 := firsts + [|h.Log()| + 1];
    assert firsts[|firsts| - 1] < |h.Log()| + 1;
    assert Ascending(f1);
  }

  lemma CreateNextMemory(c: Codec, m: Memory, d: DiskState, h: History)
    requires MemoryOk(c, m, h)
    ensures MemoryOk(c, CreateNext(m, d).0, Cut(h))
    ensures Firsts(CreateNext(m, d).0.segs) == Firsts(m.segs) + [|h.Log()| + 1]
  {
    hide Lines, IndexOfLines, Flatten, Watermarks;
    CutKeepsLog(h);
  }

  lemma CreateNextFiles(c: Codec, files: map<nat, string>, firsts: seq<nat>, h: History, first: nat)
    requires FilesOk(c, files, firsts, h, "") && Ascending(firsts + [first])
    ensures first !in files && FilesOk(c, files[first := ""], firsts + [first], Cut(h), "")
  {
    hide Lines, Flatten, Tail;
    var f1 := firsts + [first];
    assert f1[|firsts|] == first;
    forall i | 0 <= i < |firsts| ensures firsts[i] != first { assert f1[i] < f1[|firsts|]; }
    assert first !in firsts;
    forall n ensures n in f1 <==> n in firsts || n == first {
      if n in firsts { var i :| 0 <= i < |firsts| && firsts[i] == n; assert f1[i] == n; }
    }
    forall i | 0 <= i < |f1|
      ensures f1[i] in files[first := ""] && files[first := ""][f1[i]] == Lines(c, Cut(h).parts[i]) + Tail(f1, i, "")
    {
      if i < |firsts| {
        NoTail(f1, i, Lines(c, h.parts[i]));
        NoTail(firsts, i, Lines(c, h.parts[i]));
      } else {
        NoLines(c);
        NoTail(f1, i, "");
      }
    }
  }

  lemma CreateNextDisk(c: Codec, m: Memory, d: DiskState, firsts: seq<nat>, h: History)
    requires DiskOk(c, d, firsts, h, "") && m.number == |h.Log()|
    requires Placed(firsts + [|h.Log()| + 1], Cut(h))
    ensures DiskOk(c, CreateNext(m, d).1, firsts + [|h.Log()| + 1], Cut(h), "")
  {
    hide Lines, MetaOf, Flatten, Watermarks, Closed, Timed, FilesOk;
    CutKeepsLog(h);
    var first := |h.Log()| + 1;
    CreateNextFiles(c, d.files, firsts, h, first);
    var j :| ManifestOk(c, ManifestOf(d), firsts, h, j);
    assert ManifestOk(c, ManifestOf(CreateNext(m, d).1), firsts + [first], Cut(h), j);
  }

  lemma NoLines(c: Codec)
    ensures Lines(c, []) == ""
  {
  }

  lemma CreateNextKeeps(c: Codec, m: Memory, d: DiskState, h: History)
    requires Inv(c, m, d, h) && h.parts[|h.parts| - 1] != []
    ensures Inv(c, CreateNext(m, d).0, CreateNext(m, d).1, Cut(h))
  {
    hide GoodLog, Placed, MemoryOk, DiskOk, CreateNext;
    var firsts := Firsts(m.segs);
    CutPlaced(firsts, h);
    CutKeepsLog(h);
    CreateNextMemory(c, m, d, h);
    assert m.number == |h.Log()| by { MemoryNumber(c, m, h); }
    CreateNextDisk(c, m, d, firsts, h);
  }

  lemma MemoryNumber(c: Codec, m: Memory, h: History)
    requires MemoryOk(c, m, h)
    ensures m.number == m.committed == |h.Log()| && |m.segs| == |h.parts| > 0
    ensures m.head == HeadOf(c, h.Log(), "")
    ensures m.watermarks == Watermarks(h.Log())
    ensures var n := |m.segs| - 1; m.segs[n] == MetaOf(c, m.segs[n].first, h.parts[n])
    ensures var n := |m.segs| - 1; m.segs[n].last == 0 ==> h.parts[n] == [] || h.parts[n][|h.parts[n]| - 1].number == 0
  {
    hide Lines, IndexOfLines, Flatten, Watermarks;
  }

  lemma WrittenManifestOk(c: Codec, m: Memory, d: DiskState, h: History)
    requires Placed(Firsts(m.segs), h) && MemoryOk(c, m, h)
    ensures ManifestOk(c, ManifestOf(WriteManifest(m, d)), Firsts(m.segs), h, |h.Log()|)
  {
    hide Lines, IndexOfLines, Flatten, Closed, Timed, Watermarks, MetaOf;
    assert h.Log()[..|h.Log()|] == h.Log();
    LastStarts(Firsts(m.segs), h);
  }

  lemma WriteManifestKeeps(c: Codec, m: Memory, d: DiskState, h: History)
    requires Inv(c, m, d, h)
    ensures Inv(c, m, WriteManifest(m, d), h)
  {
    hide FilesOk, GoodLog, Placed, MemoryOk, ManifestOk;
    assert m.segs != [] by { MemoryNumber(c, m, h); }
    WrittenManifestOk(c, m, d, h);
  }

  lemma LastStarts(firsts: seq<nat>, h: History)
    requires Placed(firsts, h)
    ensures firsts[|firsts| - 1] <= |h.Log()| + 1
  {
    hide Flatten, Closed, Timed;
    UpToNext(h, |firsts| - 1);
    UpToAll(h);
  }

  /** The active segment's file exists. */
  lemma CanWrite(c: Codec, m: Memory, d: DiskState, h: History)
    requires Inv(c, m, d, h)
    ensures Writable(m, d) && |m.segs| == |h.parts|
    ensures var n := |m.segs| - 1; m.segs[n].last != 0 <==> h.parts[n] != []
  {
    hide Lines, IndexOfLines, Flatten, GoodLog, Closed, Watermarks;
  }

  function RotatedHistory(o: Options, m: Memory, h: History, now: Clock): History
    requires m.segs != []
  {
    if RotationDue(o, m, now) then Cut(h) else h
  }

  /** Rotation changes no record, and afterwards the active segment can be written. */
  lemma RotateKeeps(c: Codec, o: Options, m: Memory, d: DiskState, h: History, now: Clock)
    requires Inv(c, m, d, h)
    ensures m.segs != []
    ensures var (m1, d1) := Rotate(o, m, d, now);
      && Inv(c, m1, d1, RotatedHistory(o, m, h, now)) && Writable(m1, d1)
      && m1.number == m.number && m1.head == m.head && m1.watermarks == m.watermarks
      && m1.cursors == m.cursors && d1.cursors == d.cursors
    ensures RotatedHistory(o, m, h, now).Log() == h.Log()
  {
    hide Inv, Firsts, Cut;
    CanWrite(c, m, d, h);
    CutKeepsLog(h);
    if RotationDue(o, m, now) {
      CreateNextKeeps(c, m, d, h);
      WriteManifestKeeps(c, CreateNext(m, d).0, CreateNext(m, d).1, Cut(h));
    }
    CanWrite(c, Rotate(o, m, d, now).0, Rotate(o, m, d, now).1, RotatedHistory(o, m, h, now));
  }

  /** The active segment is full by its number of records, or by the time since its first. */
  predicate Full(o: Options, part: seq<Record>, now: Clock)
  {
    part != [] && (|part| >= o.maxRecords || now - part[0].at >= o.maxAge)
  }

  /** A new segment is begun exactly when the active one is full, so a batch never goes into a full one. */
  lemma RotatesWhenFull(c: Codec, o: Options, m: Memory, d: DiskState, h: History, now: Clock)
    requires Inv(c, m, d, h)
    ensures m.segs != [] && h.parts != []
    ensures var part := h.parts[|h.parts| - 1]; var h1 := RotatedHistory(o, m, h, now);
      && h1.gone == h.gone && h1.parts == (if Full(o, part, now) then h.parts + [[]] else h.parts)
      && |Rotate(o, m, d, now).0.segs| == |h1.parts|
      && !Full(o, h1.parts[|h1.parts| - 1], now)
  {
    hide Lines, IndexOfLines, Flatten, GoodLog, DiskOk, Watermarks, Closed, Timed;
    assert |m.segs| == |h.parts| > 0;
    var n := |m.segs| - 1;
    InvPlaced(c, m, d, h, n);
    assert m.segs[n] == MetaOf(c, m.segs[n].first, h.parts[n]);
  }

  /** A rotation leaves every file as it was and adds an empty one for the next record, and its manifest lists
      every segment written so far as a scan of its file would describe it, the watermarks and the anchor.
      Without one nothing changes. */
  lemma RotateLists(c: Codec, o: Options, m: Memory, d: DiskState, h: History, now: Clock)
    requires Inv(c, m, d, h)
    ensures m.segs != [] && h.parts != [] && |m.segs| == |h.parts|
    ensures var (m1, d1) := Rotate(o, m, d, now);
      if !Full(o, h.parts[|h.parts| - 1], now) then m1 == m && d1 == d
      else
        && d1.manifest.Some? && Lists(c, d1.manifest.value, m, h)
        && m1.segs == m.segs + [EmptySegment(m.number + 1)]
        && d1.files.Keys == d.files.Keys + {m.number + 1}
        && forall f :: f in d1.files ==> d1.files[f] == if f in d.files then d.files[f] else ""
  {
    hide Lines, IndexOfLines, Flatten, GoodLog, DiskOk, Watermarks, Closed, Timed, Describes;
    RotatesWhenFull(c, o, m, d, h, now);
    forall i | 0 <= i < |m.segs| ensures Describes(c, StoredSegment(m.segs[i]), m.segs[i].first, h.parts[i]) {
      StoredDescribes(c, m.segs[i], h.parts[i]);
    }
  }

  ghost predicate Lists(c: Codec, man: Manifest, m: Memory, h: History)
  {
    && man.watermarks == m.watermarks && man.anchor == m.anchor
    && |man.segments| == |m.segs| == |h.parts|
    && forall i :: 0 <= i < |m.segs| ==> Describes(c, man.segments[i], m.segs[i].first, h.parts[i])
  }

  lemma StoredDescribes(c: Codec, sg: Segment, recs: seq<Record>)
    requires Describes(c, sg, sg.first, recs)
    ensures Describes(c, StoredSegment(sg), sg.first, recs)
  {
    hide Lines, IndexOfLines;
  }

  /** The records of the i-th segment are numbered from its name on, each at a time of its own. */
  lemma InvPlaced(c: Codec, m: Memory, d: DiskState, h: History, i: nat)
    requires Inv(c, m, d, h) && i < |m.segs| == |h.parts|
    ensures var part := h.parts[i];
      part != [] ==> part[|part| - 1].number == m.segs[i].first + |part| - 1 && part[|part| - 1].number > 0
  {
    hide Lines, IndexOfLines, Flatten, DiskOk, Watermarks, Closed, WindowsAdvance, SegmentsOk;
    UpToNext(h, i);
    var part, log := h.parts[i], h.Log();
    assert Firsts(m.segs)[i] == |h.UpTo(i)| + 1;
    if part != [] {
      var k := |h.UpTo(i)| + |part| - 1;
      assert h.UpTo(i + 1)[k] == part[|part| - 1] && log[k] == h.UpTo(i + 1)[k];
      assert Linked(c, log, 1, "", k);
    }
  }

  // ---- appending ----

  /** The history with recs written behind the active segment. */
  function Grow(h: History, recs: seq<Record>): History
    requires h.parts != []
  {
    var n := |h.parts| - 1;
    h.(parts := h.parts[n := h.parts[n] + recs])
  }

  lemma GrowLog(h: History, recs: seq<Record>)
    requires h.parts != []
    ensures Grow(h, recs).Log() == h.Log() + recs
    ensures forall i :: 0 <= i < |h.parts| ==> Grow(h, recs).UpTo(i) == h.UpTo(i)
  {
    var n := |h.parts| - 1;
    var p := Grow(h, recs).parts;
    assert p[..n] == h.parts[..n];
    assert Flatten(p) == Flatten(h.parts[..n]) + (h.parts[n] + recs);
    assert forall i :: 0 <= i <= n ==> p[..i] == h.parts[..i];
  }

  lemma {:induction false} IndexGrows(c: Codec, first: nat, part: seq<Record>, recs: seq<Record>)
    ensures IndexOfLines(c, first, part + recs) == IndexOfLines(c, first, part)
        + NewEntries(c, first, |Lines(c, part)|, recs)
  {
    hide Lines, IndexEntry;
    if recs == [] {
      assert part + recs == part;
    } else {
      var n := |recs| - 1;
      var all := part + recs;
      IndexGrows(c, first, part, recs[..n]);
      LinesAppend(c, part, recs[..n]);
      assert all[..|all| - 1] == part + recs[..n] && all[|all| - 1] == recs[n];
    }
  }

  /** The metadata kept while appending is what a scan of the grown file would give. */
  lemma ExtendIsMeta(c: Codec, first: nat, part: seq<Record>, recs: seq<Record>, at: Time)
    requires recs != [] && (forall i :: 0 <= i < |recs| ==> recs[i].at == at) && Timed(part)
    ensures Extend(c, MetaOf(c, first, part), recs, at) == MetaOf(c, first, part + recs)
  {
    hide NewEntries, IndexEntry;
    IndexGrows(c, first, part, recs);
    LinesAppend(c, part, recs);
    var all := part + recs;
    assert all[|all| - 1] == recs[|recs| - 1];
    if part == [] {
      assert MetaOf(c, first, part).index == IndexOfLines(c, first, part);
    } else {
      assert all[0] == part[0] && part[|part| - 1].number > 0;
    }
  }

  /** The events of a batch, then its commit. */
  ghost predicate IsBatch(recs: seq<Record>, q: Request)
  {
    && recs != []
    && NoCommits(recs[..|recs| - 1])
    && recs[|recs| - 1].payload == CommitPayload(Commit(q.source, q.windowEnd, |q.events|, q.note))
    && (forall i :: 0 <= i < |recs| ==> recs[i].at == q.at && recs[i].number > 0)
  }

  lemma NewRecordsFacts(c: Codec, m: Memory, q: Request)
    ensures var recs := NewRecords(c, m, q);
      && IsBatch(recs, q) && Chained(c, recs, m.number + 1, m.head)
      && recs[|recs| - 1].number == m.number + |recs|
      && (forall i :: 0 <= i < |q.events| ==> recs[i].payload == EventPayload(q.events[i]))
  {
    BatchChained(c, m.number, m.head, q.at, RequestPayloads(q));
  }

  lemma {:induction false} EventsKeepWatermarks(log: seq<Record>, evs: seq<Record>)
    requires NoCommits(evs)
    ensures Watermarks(log + evs) == Watermarks(log)
  {
    if evs == [] {
      assert log + evs == log;
    } else {
      var n := |evs| - 1;
      EventsKeepWatermarks(log, evs[..n]);
      var all := log + evs;
      assert all[..|all| - 1] == log + evs[..n] && all[|all| - 1] == evs[n];
    }
  }

  lemma BatchWatermarks(log: seq<Record>, recs: seq<Record>, q: Request)
    requires IsBatch(recs, q)
    ensures Watermarks(log + recs)
      == if q.windowEnd != 0 then Watermarks(log)[q.source := q.windowEnd] else Watermarks(log)
  {
    var n := |recs| - 1;
    EventsKeepWatermarks(log, recs[..n]);
    var all := log + recs;
    assert all[..|all| - 1] == log + recs[..n] && all[|all| - 1] == recs[n];
  }

  lemma BatchAdvances(log: seq<Record>, recs: seq<Record>, q: Request)
    requires WindowsAdvance(log) && IsBatch(recs, q)
    requires q.windowEnd == 0 || q.source !in Watermarks(log) || q.windowEnd > Watermarks(log)[q.source]
    ensures WindowsAdvance(log + recs)
  {
    hide Watermarks;
    var all := log + recs;
    forall k | |log| <= k < |all| - 1 ensures !IsWindowCommit(all[k]) {
      assert all[k] == recs[..|recs| - 1][k - |log|];
    }
    forall i, j | 0 <= i < j < |all| && IsWindowCommit(all[i]) && IsWindowCommit(all[j])
                  && all[i].payload.commit.source == all[j].payload.commit.source
      ensures all[i].payload.commit.windowEnd < all[j].payload.commit.windowEnd
    {
      if j == |all| - 1 { CommitBounded(log, i, q.source); }
    }
  }

  lemma BatchGoodLog(c: Codec, log: seq<Record>, recs: seq<Record>, q: Request)
    requires GoodLog(c, log) && IsBatch(recs, q) && Chained(c, recs, |log| + 1, HeadOf(c, log, ""))
    requires q.windowEnd == 0 || q.source !in Watermarks(log) || q.windowEnd > Watermarks(log)[q.source]
    ensures GoodLog(c, log + recs) && HeadOf(c, log + recs, "") == HeadOf(c, recs, "")
  {
    hide Watermarks, WindowsAdvance, Chained;
    ChainedAppend(c, log, recs, 1, "");
    BatchAdvances(log, recs, q);
  }

  lemma GrowPlaced(firsts: seq<nat>, h: History, recs: seq<Record>)
    requires Placed(firsts, h) && Closed(recs) && Timed(recs) && recs != []
    ensures Placed(firsts, Grow(h, recs))
  {
    hide Flatten;
    GrowLog(h, recs);
    var n := |h.parts| - 1;
    var part := h.parts[n] + recs;
    assert part[|part| - 1] == recs[|recs| - 1];
    assert forall i :: 0 <= i < |part| ==>
      part[i] == if i < |h.parts[n]| then h.parts[n][i] else recs[i - |h.parts[n]|];
  }

  lemma GrowMemory(c: Codec, m: Memory, d: DiskState, h: History, q: Request, recs: seq<Record>)
    requires MemoryOk(c, m, h) && Writable(m, d) && Timed(h.parts[|h.parts| - 1])
    requires recs == NewRecords(c, m, q) && IsBatch(recs, q) && recs[|recs| - 1].number == m.number + |recs|
    ensures MemoryOk(c, WriteBatch(c, m, d, q).0, Grow(h, recs))
  {
    hide Lines, IndexOfLines, Flatten, Timed, Watermarks, NewRecords, Extend, NoCommits;
    var n := |m.segs| - 1;
    ExtendIsMeta(c, m.segs[n].first, h.parts[n], recs, q.at);
    GrowLog(h, recs);
    BatchWatermarks(h.Log(), recs, q);
    assert HeadOf(c, h.Log() + recs, "") == HeadOf(c, recs, m.head);
    GrowSegments(c, m.segs, h, recs, Extend(c, m.segs[n], recs, q.at));
  }

  lemma GrowSegments(c: Codec, segs: seq<Segment>, h: History, recs: seq<Record>, sg: Segment)
    requires SegmentsOk(c, segs, h)
    requires var n := |segs| - 1; sg == MetaOf(c, segs[n].first, h.parts[n] + recs)
    ensures SegmentsOk(c, segs[|segs| - 1 := sg], Grow(h, recs))
  {
    hide Lines, IndexOfLines, Flatten;
  }

  /** The active segment's file with more bytes behind it. */
  lemma WriteFiles(c: Codec, files: map<nat, string>, firsts: seq<nat>, h: History, text: string)
    requires |firsts| > 0 && Ascending(firsts) && FilesOk(c, files, firsts, h, "")
    ensures var first := firsts[|firsts| - 1];
      first in files && FilesOk(c, files[first := files[first] + text], firsts, h, text)
  {
    hide Lines, Flatten, Tail;
    var n := |firsts| - 1;
    var first := firsts[n];
    var f1 := files[first := files[first] + text];
    assert f1.Keys == files.Keys;
    forall i | 0 <= i < |firsts|
      ensures firsts[i] in f1 && f1[firsts[i]] == Lines(c, h.parts[i]) + Tail(firsts, i, text) {
      NoTail(firsts, i, Lines(c, h.parts[i]));
      LastTail(firsts, i, text);
    }
  }

  lemma LastTail(firsts: seq<nat>, i: nat, text: string)
    ensures Tail(firsts, i, text) == if i + 1 == |firsts| then text else Tail(firsts, i, "")
  {
  }

  lemma GrowFiles(c: Codec, files: map<nat, string>, firsts: seq<nat>, h: History, recs: seq<Record>)
    requires |firsts| > 0 && FilesOk(c, files, firsts, h, Lines(c, recs))
    ensures FilesOk(c, files, firsts, Grow(h, recs), "")
  {
    hide Lines, Flatten, Tail;
    forall i | 0 <= i < |firsts| ensures files[firsts[i]] == Lines(c, Grow(h, recs).parts[i]) + Tail(firsts, i, "") {
      GrowFile(c, firsts, h, recs, i);
    }
  }

  lemma GrowFile(c: Codec, firsts: seq<nat>, h: History, recs: seq<Record>, i: nat)
    requires i < |firsts| == |h.parts|
    ensures Lines(c, h.parts[i]) + Tail(firsts, i, Lines(c, recs))
         == Lines(c, Grow(h, recs).parts[i]) + Tail(firsts, i, "")
  {
    hide Lines, Flatten, Tail;
    var n := |firsts| - 1;
    NoTail(firsts, i, Lines(c, Grow(h, recs).parts[i]));
    LastTail(firsts, i, Lines(c, recs));
    if i == n {
      LinesAppend(c, h.parts[n], recs);
    } else {
      NoTail(firsts, i, Lines(c, h.parts[i]));
    }
  }

  lemma GrowManifest(c: Codec, man: Manifest, firsts: seq<nat>, h: History, j: nat, recs: seq<Record>)
    requires h.parts != [] && ManifestOk(c, man, firsts, h, j)
    ensures ManifestOk(c, man, firsts, Grow(h, recs), j)
  {
    hide Lines, Flatten, MetaOf, Watermarks;
    GrowLog(h, recs);
    assert (h.Log() + recs)[..j] == h.Log()[..j];
  }

  /** The disk after part of a batch reached the active file. */
  lemma WriteDisk(c: Codec, d: DiskState, firsts: seq<nat>, h: History, text: string)
    requires |firsts| > 0 && Ascending(firsts) && DiskOk(c, d, firsts, h, "")
    ensures var first := firsts[|firsts| - 1];
      first in d.files && DiskOk(c, d.(files := d.files[first := d.files[first] + text]), firsts, h, text)
  {
    hide FilesOk, ManifestOk, Ascending;
    WriteFiles(c, d.files, firsts, h, text);
    var first := firsts[|firsts| - 1];
    assert ManifestOf(d.(files := d.files[first := d.files[first] + text])) == ManifestOf(d);
  }

  lemma GrowDisk(c: Codec, d: DiskState, firsts: seq<nat>, h: History, recs: seq<Record>)
    requires |firsts| == |h.parts| > 0 && DiskOk(c, d, firsts, h, Lines(c, recs))
    ensures DiskOk(c, d, firsts, Grow(h, recs), "")
  {
    hide FilesOk, ManifestOk, Lines, Grow;
    GrowFiles(c, d.files, firsts, h, recs);
    var j :| ManifestOk(c, ManifestOf(d), firsts, h, j);
    GrowManifest(c, ManifestOf(d), firsts, h, j, recs);
  }

  /** A successful write adds its batch to the history. */
  lemma WriteBatchKeeps(c: Codec, m: Memory, d: DiskState, h: History, q: Request)
    requires Inv(c, m, d, h) && Writable(m, d) && WindowAccepted(m, q.source, q.windowEnd)
    ensures var (m1, d1) := WriteBatch(c, m, d, q);
      Inv(c, m1, d1, Grow(h, NewRecords(c, m, q))) && Firsts(m1.segs) == Firsts(m.segs)
  {
    hide GoodLog, MemoryOk, DiskOk, Placed, Grow, Extend, NewRecords, Lines, IsBatch;
    var firsts := Firsts(m.segs);
    var recs := NewRecords(c, m, q);
    NewRecordsFacts(c, m, q);
    BatchTimed(recs, q);
    MemoryNumber(c, m, h);
    PlacedActive(firsts, h);
    BatchGoodLog(c, h.Log(), recs, q);
    GrowLog(h, recs);
    GrowPlaced(firsts, h, recs);
    GrowMemory(c, m, d, h, q, recs);
    WriteDisk(c, d, firsts, h, Lines(c, recs));
    var (m1, d1) := WriteBatch(c, m, d, q);
    assert Firsts(m1.segs) == firsts by { SameFirsts(c, m, d, q); }
    GrowDisk(c, d1, firsts, h, recs);
  }

  lemma SameFirsts(c: Codec, m: Memory, d: DiskState, q: Request)
    requires Writable(m, d)
    ensures Firsts(WriteBatch(c, m, d, q).0.segs) == Firsts(m.segs)
  {
    hide NewRecords, Lines;
  }

  lemma BatchTimed(recs: seq<Record>, q: Request)
    requires IsBatch(recs, q)
    ensures Closed(recs) && Timed(recs) && recs != []
  {
  }

  lemma PlacedActive(firsts: seq<nat>, h: History)
    requires Placed(firsts, h)
    ensures |firsts| == |h.parts| > 0 && Ascending(firsts) && Timed(h.parts[|h.parts| - 1])
  {
    hide Flatten, Closed, Timed;
  }

  /** Which records an append adds to the log. */
  function Appended(c: Codec, m: Memory, q: Request, writeFails: bool): seq<Record>
  {
    if writeFails then [] else NewRecords(c, m, q)
  }

  function AppendedHistory(c: Codec, o: Options, m: Memory, h: History, q: Request, writeFails: bool): History
    requires m.segs != [] && h.parts != []
  {
    var h1 := RotatedHistory(o, m, h, q.rotateAt);
    if writeFails then h1 else Grow(h1, NewRecords(c, m, q))
  }

  /** appendLocked keeps the invariant and adds exactly its batch, or nothing when the write fails. */
  lemma AppendKeeps(c: Codec, o: Options, m: Memory, d: DiskState, h: History, q: Request, writeFails: bool)
    requires Inv(c, m, d, h) && WindowAccepted(m, q.source, q.windowEnd)
    ensures Writable(m, d) && m.segs != [] && h.parts != []
    ensures var (m1, d1) := AppendLocked(c, o, m, d, q, writeFails);
      Inv(c, m1, d1, AppendedHistory(c, o, m, h, q, writeFails))
    ensures AppendedHistory(c, o, m, h, q, writeFails).Log() == h.Log() + Appended(c, m, q, writeFails)
  {
    hide Inv, Grow, WriteBatch, Rotate, RotationDue, Flatten, RotatedHistory;
    RotateKeeps(c, o, m, d, h, q.rotateAt);
    CanWrite(c, m, d, h);
    var h1 := RotatedHistory(o, m, h, q.rotateAt);
    var (m1, d1) := Rotate(o, m, d, q.rotateAt);
    CanWrite(c, m1, d1, h1);
    assert NewRecords(c, m1, q) == NewRecords(c, m, q);
    if !writeFails {
      WriteBatchKeeps(c, m1, d1, h1, q);
      GrowLog(h1, NewRecords(c, m, q));
    }
  }
}
