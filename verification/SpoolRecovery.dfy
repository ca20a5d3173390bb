/** Recovery: on any disk a crash can leave behind, Open restores the committed log and nothing else. */
module SpoolRecovery {
  import opened Text
  import opened Usage
  import opened Ledger
  import opened Segments
  import opened SpoolModel
  import opened SpoolInvariant

  lemma {:induction false} KnownAbsent(segments: seq<Segment>, first: nat)
    requires forall i :: 0 <= i < |segments| ==> segments[i].first != first
    ensures Known(segments, first) == None
  {
    if segments != [] { KnownAbsent(segments[..|segments| - 1], first); }
  }

  lemma {:induction false} KnownAt(segments: seq<Segment>, i: nat)
    requires i < |segments|
    requires forall j :: i < j < |segments| ==> segments[j].first != segments[i].first
    ensures Known(segments, segments[i].first) == Some(segments[i])
  {
    if i < |segments| - 1 {
      var s := segments[..|segments| - 1];
      assert s[i] == segments[i];
      KnownAt(s, i);
    }
  }

  /** How far the watermarks have caught up when the first i files are done. */
  function Reached(h: History, j: nat, i: nat): (q: nat)
    requires i <= |h.parts|
  {
    if j < |h.UpTo(i)| then |h.UpTo(i)| else j
  }

  /** The loop state when the first i segment files are done. */
  ghost predicate Progress(c: Codec, files: map<nat, string>, firsts: seq<nat>, h: History, j: nat, i: nat, r: Recovery)
  {
    && r.files.Keys == files.Keys
    && |r.segs| == i <= |firsts| == |h.parts|
    && (forall n :: 0 <= n < |firsts| ==> firsts[n] in files)
    && (forall n :: 0 <= n < |firsts| ==>
          r.files[firsts[n]] == if n < i then Lines(c, h.parts[n]) else files[firsts[n]])
    && (forall n :: 0 <= n < i ==> r.segs[n].first == firsts[n] && Describes(c, r.segs[n], firsts[n], h.parts[n]))
    && (i == |firsts| && i > 0 ==> r.segs[i - 1] == MetaOf(c, firsts[i - 1], h.parts[i - 1]))
    && Reached(h, j, i) <= |h.Log()|
    && r.watermarks == Watermarks(h.Log()[..Reached(h, j, i)])
  }

  /** A segment the manifest lists is found there under its name, and no other is. */
  lemma KnownSegmentTaken(segments: seq<Segment>, firsts: seq<nat>, i: nat)
    requires Ascending(firsts) && i < |firsts| && |segments| <= |firsts|
    requires forall n :: 0 <= n < |segments| ==> segments[n].first == firsts[n]
    ensures Known(segments, firsts[i]) == if i < |segments| then Some(segments[i]) else None
  {
    if i < |segments| { KnownAt(segments, i); } else { KnownAbsent(segments, firsts[i]); }
  }

  /** One file read back: its metadata and the bytes it keeps. */
  lemma FileRecovered(c: Codec, first: nat, part: seq<Record>, extra: string, evs: seq<Record>, rest: string,
                      newest: bool, data: string)
    requires c.Valid() && Closed(part) && Timed(part) && Torn(c, extra, evs, rest)
    requires data == Lines(c, part) + if newest then extra else ""
    ensures var out := ScanFrom(c, data, first, newest, SCAN_START);
      && out.Scanned?
      && out.st.pending == Watermarks(part)
      && Conclude(out.st, |data|, first, newest) == MetaOf(c, first, part)
      && MetaOf(c, first, part).size <= |data|
      && data[..MetaOf(c, first, part).size] == Lines(c, part)
  {
    var e := if newest then evs else [];
    var t := if newest then rest else "";
    LinesAppend(c, part, e);
    assert data == Lines(c, part + e) + t;
    ScanRecovers(c, first, part, e, t, newest);
  }

  /** One round: segment i gets its metadata and its file keeps exactly its lines. */
  lemma ProgressRound(c: Codec, files: map<nat, string>, firsts: seq<nat>, h: History, j: nat, i: nat, r: Recovery,
                      r1: Recovery)
    requires i < |firsts| && Ascending(firsts)
    requires Progress(c, files, firsts, h, j, i, r)
    requires |r1.segs| == i + 1 && r1.segs[..i] == r.segs
    requires r1.segs[i].first == firsts[i] && Describes(c, r1.segs[i], firsts[i], h.parts[i])
    requires i + 1 == |firsts| ==> r1.segs[i] == MetaOf(c, firsts[i], h.parts[i])
    requires r1.files == r.files[firsts[i] := Lines(c, h.parts[i])]
    requires Reached(h, j, i + 1) <= |h.Log()|
    requires r1.watermarks == Watermarks(h.Log()[..Reached(h, j, i + 1)])
    ensures Progress(c, files, firsts, h, j, i + 1, r1)
  {
    hide Lines, MetaOf, Describes, Watermarks, Reached, Flatten;
    assert r1.files.Keys == files.Keys;
    forall n | 0 <= n < i
      ensures r1.segs[n].first == firsts[n] && Describes(c, r1.segs[n], firsts[n], h.parts[n])
    {
      assert r1.segs[n] == r1.segs[..i][n];
    }
  }

  lemma StepKnown(c: Codec, known: seq<Segment>, names: seq<nat>, i: nat, r: Recovery, sg: Segment)
    requires i + 1 < |names| && (forall n :: 0 <= n < |names| ==> names[n] in r.files)
    requires Known(known, names[i]) == Some(sg) && sg.size == |r.files[names[i]]|
    ensures RecoverFrom(c, known, names, i, r) == RecoverFrom(c, known, names, i + 1, r.(segs := r.segs + [sg]))
  {
  }

  lemma StepScanned(c: Codec, known: seq<Segment>, names: seq<nat>, i: nat, r: Recovery, st: ScanState, sg: Segment,
                    data: string)
    requires i < |names| && (forall n :: 0 <= n < |names| ==> names[n] in r.files)
    requires Known(known, names[i]) == None && data == r.files[names[i]]
    requires ScanFrom(c, data, names[i], i == |names| - 1, SCAN_START) == Scanned(st)
    requires sg == Conclude(st, |data|, names[i], i == |names| - 1) && sg.size <= |data|
    ensures var r1 := Recovery(r.segs + [sg], Raise(r.watermarks, st.pending), r.files[names[i] := data[..sg.size]]);
      && (forall n :: 0 <= n < |names| ==> names[n] in r1.files)
      && RecoverFrom(c, known, names, i, r) == RecoverFrom(c, known, names, i + 1, r1)
  {
  }

  lemma RoundKnown(c: Codec, segments: seq<Segment>, files: map<nat, string>, firsts: seq<nat>, h: History,
                   j: nat, i: nat, r: Recovery, sg: Segment)
    requires i + 1 < |firsts| && Ascending(firsts)
    requires Progress(c, files, firsts, h, j, i, r)
    requires Reached(h, j, i) == Reached(h, j, i + 1)
    requires forall n :: 0 <= n < |firsts| ==> firsts[n] in r.files
    requires Known(segments, firsts[i]) == Some(sg)
    requires sg == StoredSegment(MetaOf(c, firsts[i], h.parts[i]))
    requires r.files[firsts[i]] == Lines(c, h.parts[i])
    ensures var r1 := r.(segs := r.segs + [sg]);
      && Progress(c, files, firsts, h, j, i + 1, r1)
      && RecoverFrom(c, segments, firsts, i, r) == RecoverFrom(c, segments, firsts, i + 1, r1)
  {
    hide Lines, IndexOfLines, Watermarks, RecoverFrom, Flatten, Known, Reached;
    var part := h.parts[i];
    var r1 := r.(segs := r.segs + [sg]);
    assert sg.size == |Lines(c, part)| && sg.first == firsts[i] by { MetaSize(c, firsts[i], part); }
    StepKnown(c, segments, firsts, i, r, sg);
    assert r1.files == r.files[firsts[i] := Lines(c, part)];
    ProgressRound(c, files, firsts, h, j, i, r, r1);
  }

  lemma MetaSize(c: Codec, first: nat, part: seq<Record>)
    ensures MetaOf(c, first, part).size == |Lines(c, part)| && MetaOf(c, first, part).first == first
  {
  }

  lemma ReachedRaised(h: History, j: nat, i: nat)
    requires WindowsAdvance(h.Log()) && j <= |h.Log()| && i < |h.parts|
    ensures Reached(h, j, i) <= |h.Log()| && Reached(h, j, i + 1) <= |h.Log()|
    ensures Raise(Watermarks(h.Log()[..Reached(h, j, i)]), Watermarks(h.parts[i]))
            == Watermarks(h.Log()[..Reached(h, j, i + 1)])
  {
    hide Watermarks, WindowsAdvance, Raise;
    UpToNext(h, i);
    var a, b := |h.UpTo(i)|, |h.UpTo(i + 1)|;
    assert h.Log()[..b] == h.UpTo(i + 1);
    assert h.Log()[a..b] == h.parts[i];
    RaiseCatchesUp(h.Log(), a, Reached(h, j, i), b);
  }

  lemma RoundScanned(c: Codec, segments: seq<Segment>, files: map<nat, string>, firsts: seq<nat>, h: History,
                     extra: string, evs: seq<Record>, rest: string, j: nat, i: nat, r: Recovery, part: seq<Record>)
    requires c.Valid() && Torn(c, extra, evs, rest)
    requires i < |firsts| == |h.parts| && Ascending(firsts)
    requires part == h.parts[i] && Closed(part) && Timed(part)
    requires Reached(h, j, i + 1) <= |h.Log()|
    requires Raise(r.watermarks, Watermarks(part)) == Watermarks(h.Log()[..Reached(h, j, i + 1)])
    requires Progress(c, files, firsts, h, j, i, r)
    requires forall n :: 0 <= n < |firsts| ==> firsts[n] in r.files
    requires Known(segments, firsts[i]) == None
    requires r.files[firsts[i]] == Lines(c, part) + Tail(firsts, i, extra)
    ensures var r1 := Recovery(r.segs + [MetaOf(c, firsts[i], part)], Raise(r.watermarks, Watermarks(part)),
                               r.files[firsts[i] := Lines(c, part)]);
      && Progress(c, files, firsts, h, j, i + 1, r1)
      && (forall n :: 0 <= n < |firsts| ==> firsts[n] in r1.files)
      && RecoverFrom(c, segments, firsts, i, r) == RecoverFrom(c, segments, firsts, i + 1, r1)
  {
    hide Lines, IndexOfLines, Watermarks, RecoverFrom, Flatten, Known, Reached, Raise, ScanFrom, Conclude, Closed,
        Timed, Torn;
    var newest := i + 1 == |firsts|;
    var data := r.files[firsts[i]];
    FileRecovered(c, firsts[i], part, extra, evs, rest, newest, data);
    var st := ScanFrom(c, data, firsts[i], newest, SCAN_START).st;
    var sg := MetaOf(c, firsts[i], part);
    StepScanned(c, segments, firsts, i, r, st, sg, data);
    MetaSize(c, firsts[i], part);
    var r1 := Recovery(r.segs + [sg], Raise(r.watermarks, Watermarks(part)), r.files[firsts[i] := Lines(c, part)]);
    ProgressRound(c, files, firsts, h, j, i, r, r1);
  }

  lemma {:induction false} UpToShorter(h: History, i: nat, k: nat)
    requires i <= k <= |h.parts|
    ensures |h.UpTo(i)| <= |h.UpTo(k)|
    decreases k - i
  {
    if i < k {
      UpToNext(h, i);
      UpToShorter(h, i + 1, k);
    }
  }

  lemma ReachedKnown(firsts: seq<nat>, h: History, j: nat, i: nat, k: nat)
    requires i < k < |firsts| == |h.parts| && firsts[k] == |h.UpTo(k)| + 1 <= j + 1
    ensures Reached(h, j, i) == Reached(h, j, i + 1)
  {
    UpToShorter(h, i, k);
    UpToShorter(h, i + 1, k);
  }

  ghost predicate Recoverable(c: Codec, segments: seq<Segment>, files: map<nat, string>, firsts: seq<nat>, h: History,
                              extra: string, j: nat)
  {
    && WindowsAdvance(h.Log()) && Placed(firsts, h)
    && FilesOk(c, files, firsts, h, extra)
    && ListsSegments(c, segments, firsts, h) && firsts[|segments|] <= j + 1 && j <= |h.Log()|
  }

  /** The round for segment i, whichever way it goes. */
  lemma RoundSucceeds(c: Codec, segments: seq<Segment>, files: map<nat, string>, firsts: seq<nat>, h: History,
                      extra: string, evs: seq<Record>, rest: string, j: nat, i: nat, r: Recovery) returns (r1: Recovery)
    requires c.Valid() && Torn(c, extra, evs, rest) && Recoverable(c, segments, files, firsts, h, extra, j)
    requires i < |firsts| && Progress(c, files, firsts, h, j, i, r)
    requires forall n :: 0 <= n < |firsts| ==> firsts[n] in r.files
    ensures Progress(c, files, firsts, h, j, i + 1, r1)
    ensures forall n :: 0 <= n < |firsts| ==> firsts[n] in r1.files
    ensures RecoverFrom(c, segments, firsts, i, r) == RecoverFrom(c, segments, firsts, i + 1, r1)
  {
    hide Lines, IndexOfLines, Watermarks, RecoverFrom, Torn, Closed, Timed, WindowsAdvance, Flatten, Known, Raise,
        Describes, Reached;
    var part := h.parts[i];
    assert forall n :: 0 <= n < |segments| ==> segments[n].first == firsts[n];
    KnownSegmentTaken(segments, firsts, i);
    if i < |segments| {
      assert Lines(c, part) + "" == Lines(c, part);
      ReachedKnown(firsts, h, j, i, |segments|);
      RoundKnown(c, segments, files, firsts, h, j, i, r, segments[i]);
      r1 := r.(segs := r.segs + [segments[i]]);
    } else {
      ReachedRaised(h, j, i);
      RoundScanned(c, segments, files, firsts, h, extra, evs, rest, j, i, r, part);
      r1 := Recovery(r.segs + [MetaOf(c, firsts[i], part)], Raise(r.watermarks, Watermarks(part)),
                     r.files[firsts[i] := Lines(c, part)]);
    }
  }

  lemma {:induction false} RecoverAll(c: Codec, segments: seq<Segment>, files: map<nat, string>, firsts: seq<nat>,
                                      h: History,
                                      extra: string, evs: seq<Record>, rest: string, j: nat, i: nat, r: Recovery)
    requires c.Valid() && Torn(c, extra, evs, rest) && Recoverable(c, segments, files, firsts, h, extra, j)
    requires i <= |firsts| && Progress(c, files, firsts, h, j, i, r)
    requires forall n :: 0 <= n < |firsts| ==> firsts[n] in r.files
    ensures var out := RecoverFrom(c, segments, firsts, i, r);
      out.Some? && Progress(c, files, firsts, h, j, |firsts|, out.value)
    decreases |firsts| - i
  {
    if i < |firsts| {
      hide Recoverable, Torn, Progress, RecoverFrom;
      var r1 := RoundSucceeds(c, segments, files, firsts, h, extra, evs, rest, j, i, r);
      RecoverAll(c, segments, files, firsts, h, extra, evs, rest, j, i + 1, r1);
    }
  }

  /** The last segment with records, when only the very last one can be empty. */
  lemma LastNonEmptyIs(segs: seq<Segment>, n: nat)
    requires segs != [] && n == |segs| - 1
    ensures segs[n].last != 0 ==> LastNonEmpty(segs) == Some(segs[n])
    ensures segs[n].last == 0 && n > 0 && segs[n - 1].last != 0 ==> LastNonEmpty(segs) == Some(segs[n - 1])
    ensures segs[n].last == 0 && n == 0 ==> LastNonEmpty(segs) == None
  {
    if segs[n].last == 0 {
      if n > 0 { assert segs[..n][n - 1] == segs[n - 1]; } else { assert segs[..n] == []; }
    }
  }

  /** Metadata of a part that ends the log names its last record. */
  lemma EndsTheLog(c: Codec, sg: Segment, first: nat, part: seq<Record>, log: seq<Record>)
    requires Chained(c, log, 1, "") && Describes(c, sg, first, part)
    requires part != [] && log != [] && part[|part| - 1] == log[|log| - 1]
    ensures sg.last == |log| > 0 && sg.lastHash == HeadOf(c, log, "")
  {
    hide Lines, IndexOfLines;
    assert Linked(c, log, 1, "", |log| - 1);
  }

  /** The tip recovery picks is the last record of the log. */
  lemma TipIsLast(c: Codec, segs: seq<Segment>, h: History)
    requires GoodHistory(c, Firsts(segs), h) && SegmentsOk(c, segs, h)
    ensures TipOf(segs, HeadOf(c, h.gone, "")) == (|h.Log()|, HeadOf(c, h.Log(), ""))
  {
    hide Lines, IndexOfLines, WindowsAdvance, Timed, Closed, Chained;
    var n := |segs| - 1;
    var log := h.Log();
    LastNonEmptyIs(segs, n);
    UpToNext(h, n);
    UpToAll(h);
    if h.parts[n] != [] {
      EndsTheLog(c, segs[n], segs[n].first, h.parts[n], log);
    } else if n > 0 {
      UpToNext(h, n - 1);
      EndsTheLog(c, segs[n - 1], segs[n - 1].first, h.parts[n - 1], log);
    } else {
      assert log == h.gone;
    }
  }

  lemma AssembledMemory(c: Codec, o: Options, d: DiskState, firsts: seq<nat>, h: History, anchor: string, j: nat,
                        r: Recovery, now: Clock)
    requires GoodHistory(c, firsts, h) && j <= |h.Log()|
    requires Progress(c, d.files, firsts, h, j, |firsts|, r)
    requires anchor == HeadOf(c, h.gone, "")
    ensures var m := Assemble(o, d, anchor, r, now).0;
      && MemoryOk(c, m, h) && Firsts(m.segs) == firsts
      && m.segs == r.segs && m.cursors == ClampCursors(d.cursors, |h.Log()|)
  {
    hide Lines, IndexOfLines, GoodLog, Closed, Timed;
    UpToAll(h);
    assert Reached(h, j, |firsts|) == |h.Log()|;
    assert h.Log()[..|h.Log()|] == h.Log();
    assert Firsts(r.segs) == firsts;
    TipIsLast(c, r.segs, h);
  }

  lemma FilesRecovered(c: Codec, files: map<nat, string>, firsts: seq<nat>, h: History, extra: string, j: nat,
                       r: Recovery)
    requires |firsts| > 0 && FilesOk(c, files, firsts, h, extra) && Progress(c, files, firsts, h, j, |firsts|, r)
    ensures FilesOk(c, r.files, firsts, h, "")
    ensures r.segs != [] && r.segs[|r.segs| - 1].first in r.files
  {
    hide Lines, MetaOf, Describes, Watermarks, Reached, Flatten, Tail;
    forall n ensures n in r.files <==> n in firsts { assert n in r.files <==> n in files; }
    forall i | 0 <= i < |firsts|
      ensures firsts[i] in r.files && r.files[firsts[i]] == Lines(c, h.parts[i]) + Tail(firsts, i, "") {
      NoTail(firsts, i, Lines(c, h.parts[i]));
      assert firsts[i] in files;
    }
  }

  lemma NoTail(firsts: seq<nat>, i: nat, text: string)
    ensures text + Tail(firsts, i, "") == text
  {
  }

  lemma AssembledFiles(o: Options, d: DiskState, anchor: string, r: Recovery, now: Clock)
    requires r.segs != [] && r.segs[|r.segs| - 1].first in r.files
    ensures var d1 := Assemble(o, d, anchor, r, now).1;
      d1.files == r.files && d1.manifest == d.manifest && d1.cursors == d.cursors
  {
    hide TipOf, Remembered, ClampCursors;
  }

  /** The main result on recovery: whatever part of an unfinished batch is on disk,
      Open succeeds and memory and disk describe exactly the committed log again. */
  lemma OpenRecovers(c: Codec, o: Options, d: DiskState, firsts: seq<nat>, h: History,
                     extra: string, evs: seq<Record>, rest: string, now: Clock)
    requires c.Valid() && Torn(c, extra, evs, rest) && GoodHistory(c, firsts, h) && DiskOk(c, d, firsts, h, extra)
    ensures var out := Open(c, o, d, now);
      && out.Some?
      && Inv(c, out.value.0, out.value.1, h)
      && Firsts(out.value.0.segs) == firsts
      && out.value.0.cursors == ClampCursors(d.cursors, |h.Log()|)
      && out.value.1.cursors == d.cursors
  {
    hide Lines, Flatten, MetaOf, Describes, RecoverFrom, Torn, Closed, Timed, Chained, WindowsAdvance, Progress,
        MemoryOk, Assemble, Watermarks, ListsSegments, ManifestOk, FilesOk, Placed;
    var man := ManifestOf(d);
    var j :| ManifestOk(c, man, firsts, h, j);
    FilesListed(c, d.files, firsts, h, extra);
    var r0 := Recovery([], man.watermarks, d.files);
    RecoveryStarts(c, man, d.files, firsts, h, extra, j);
    RecoverAll(c, man.segments, d.files, firsts, h, extra, evs, rest, j, 0, r0);
    var r := RecoverFrom(c, man.segments, firsts, 0, r0).value;
    AssembledMemory(c, o, d, firsts, h, man.anchor, j, r, now);
    FilesRecovered(c, d.files, firsts, h, extra, j, r);
    AssembledFiles(o, d, man.anchor, r, now);
    var (m1, d1) := Assemble(o, d, man.anchor, r, now);
    assert Open(c, o, d, now) == Some((m1, d1));
    assert ManifestOf(d1) == man;
    assert DiskOk(c, d1, firsts, h, "");
  }

  /** The disk holds the log of h, and at most part of an unfinished batch behind it; or it is new. */
  ghost predicate Holds(c: Codec, d: DiskState, h: History)
  {
    || (d.files == map[] && d.manifest == None && h == History([], [[]]))
    || exists firsts, extra, evs, rest :: HoldsTorn(c, d, h, firsts, extra, evs, rest)
  }

  ghost predicate HoldsTorn(c: Codec, d: DiskState, h: History, firsts: seq<nat>, extra: string, evs: seq<Record>,
                            rest: string)
  {
    Torn(c, extra, evs, rest) && GoodHistory(c, firsts, h) && DiskOk(c, d, firsts, h, extra)
  }

  /** Every such disk opens, as exactly that log. */
  lemma OpensAs(c: Codec, o: Options, d: DiskState, h: History, now: Clock)
    requires c.Valid() && Holds(c, d, h)
    ensures var out := Open(c, o, d, now); out.Some? && Inv(c, out.value.0, out.value.1, h)
  {
    hide Open, Torn, GoodHistory, DiskOk, Inv, Codec.Valid;
    if exists firsts, extra, evs, rest :: HoldsTorn(c, d, h, firsts, extra, evs, rest) {
      var firsts, extra, evs, rest :| HoldsTorn(c, d, h, firsts, extra, evs, rest);
      OpenRecovers(c, o, d, firsts, h, extra, evs, rest, now);
    } else {
      OpenEmpty(c, o, d, now);
    }
  }

  lemma RecoveryStarts(c: Codec, man: Manifest, files: map<nat, string>, firsts: seq<nat>, h: History, extra: string,
                       j: nat)
    requires GoodHistory(c, firsts, h) && FilesOk(c, files, firsts, h, extra) && ManifestOk(c, man, firsts, h, j)
    ensures Recoverable(c, man.segments, files, firsts, h, extra, j)
    ensures Progress(c, files, firsts, h, j, 0, Recovery([], man.watermarks, files))
    ensures |firsts| > 0 && man.anchor == HeadOf(c, h.gone, "")
    ensures forall n :: 0 <= n < |firsts| ==> firsts[n] in files
  {
    hide Lines, Flatten, MetaOf, Describes, Closed, Timed, Chained, WindowsAdvance, Watermarks;
    StartsBelow(firsts, h, |man.segments|, j);
  }

  lemma FilesListed(c: Codec, files: map<nat, string>, firsts: seq<nat>, h: History, extra: string)
    requires Placed(firsts, h) && FilesOk(c, files, firsts, h, extra)
    ensures Listing(files.Keys) == firsts
  {
    hide Lines, Flatten, Closed, Timed;
    ListingUnique(files.Keys, firsts);
  }

  lemma StartsBelow(firsts: seq<nat>, h: History, k: nat, j: nat)
    requires Placed(firsts, h) && k < |firsts| && firsts[k] <= j + 1
    ensures Reached(h, j, 0) == j
  {
    UpToShorter(h, 0, k);
  }

  /** A new directory opens as an empty log. */
  lemma OpenEmpty(c: Codec, o: Options, d: DiskState, now: Clock)
    requires d.files == map[] && d.manifest == None
    ensures var out := Open(c, o, d, now);
      out.Some? && Inv(c, out.value.0, out.value.1, History([], [[]]))
          && out.value.0.cursors == ClampCursors(d.cursors, 0)
  {
    hide ScanFrom, Conclude, Raise, ParseLine, IndexOfLines, Remembered, Known, ClampCursors, Listing;
    ListingUnique(d.files.Keys, []);
    var (m1, d1) := Open(c, o, d, now).value;
    var h := History([], [[]]);
    assert Firsts(m1.segs) == [1];
    assert h.Log() == [] && h.UpTo(0) == [];
    assert ManifestOk(c, ManifestOf(d1), [1], h, 0);
  }
}
