/** The process dies inside Compact: files are already gone, the manifest that would say so is not
    written yet (internal/spool/spool.go). */
module SpoolCompactCrash {
  import opened Text
  import opened Usage
  import opened Ledger
  import opened Segments
  import opened SpoolModel
  import opened SpoolInvariant
  import opened SpoolRecovery
  import opened SpoolSteps
  import opened SpoolReads
  import opened SpoolVerify
  import opened SpoolCompact

  /** How far Compact got: some files removed, or all of them and the remembered IDs pruned too. */
  datatype CompactPoint = FilesGone(files: nat) | IDsPruned

  /** The number of segments gone at that point. */
  function GoneAt(o: Options, m: Memory, consumers: seq<string>, now: Clock, p: CompactPoint): (k: nat)
    requires m.segs != []
    ensures k <= Removed(o, m, consumers, now)
  {
    var n := Removed(o, m, consumers, now);
    if p.FilesGone? && p.files < n then p.files else n
  }

  function CompactCrashDisk(o: Options, m: Memory, d: DiskState, consumers: seq<string>, now: Clock,
                            p: CompactPoint): DiskState
    requires m.segs != []
  {
    var d1 := d.(files := RemoveFiles(d.files, m.segs, GoneAt(o, m, consumers, now, p)));
    if p.IDsPruned? then CompactIDs(m, d1, now - o.dedupeWindow).1 else d1
  }

  // ---- recovery under the old manifest ----

  lemma {:induction false} KnownBehind(segments: seq<Segment>, k: nat, x: nat)
    requires k <= |segments| && forall i :: 0 <= i < k ==> segments[i].first != x
    ensures Known(segments[k..], x) == Known(segments, x)
    decreases |segments|
  {
    if k < |segments| {
      var n := |segments| - 1;
      assert segments[k..][..|segments[k..]| - 1] == segments[..n][k..];
      KnownBehind(segments[..n], k, x);
    } else {
      KnownNowhere(segments, x);
      assert segments[k..] == [];
    }
  }

  lemma {:induction false} KnownNowhere(segments: seq<Segment>, x: nat)
    requires forall i :: 0 <= i < |segments| ==> segments[i].first != x
    ensures Known(segments, x) == None
  {
    if segments != [] { KnownNowhere(segments[..|segments| - 1], x); }
  }

  /** Recovery looks the manifest up by name only; watermarks pass through. */
  lemma {:induction false} RecoverAlike(c: Codec, a: seq<Segment>, b: seq<Segment>, names: seq<nat>, i: nat,
                                        r: Recovery, s: Recovery)
    requires i <= |names| && (forall j :: 0 <= j < |names| ==> names[j] in r.files) && r.segs == s.segs
      && r.files == s.files
    requires forall j :: 0 <= j < |names| ==> Known(a, names[j]) == Known(b, names[j])
    ensures var x := RecoverFrom(c, a, names, i, r); var y := RecoverFrom(c, b, names, i, s);
      && (x.Some? <==> y.Some?)
      && (x.Some? ==>
        x.value.segs == y.value.segs && x.value.files == y.value.files && |x.value.segs| == |r.segs| + |names| - i)
      && (x.Some? && r.watermarks == s.watermarks ==> x == y)
    decreases |names| - i
  {
    hide ScanFrom, Raise, Known;
    if i < |names| {
      var first := names[i];
      var data := r.files[first];
      var k := Known(a, first);
      if k.Some? && i < |names| - 1 && k.value.size == |data| {
        RecoverAlike(c, a, b, names, i + 1, r.(segs := r.segs + [k.value]), s.(segs := s.segs + [k.value]));
      } else {
        match ScanFrom(c, data, first, i == |names| - 1, SCAN_START) {
          case Scanned(st) =>
            var sg := Conclude(st, |data|, first, i == |names| - 1);
            var files := r.files[first := data[..sg.size]];
            RecoverAlike(c, a, b, names, i + 1, Recovery(r.segs + [sg], Raise(r.watermarks, st.pending), files),
                         Recovery(s.segs + [sg], Raise(s.watermarks, st.pending), files));
          case _ =>
        }
      }
    }
  }

  // ---- the watermarks recovery is left with ----

  lemma RaiseTwice(a: map<string, Time>, b: map<string, Time>, c: map<string, Time>)
    ensures Raise(Raise(a, b), c) == Raise(a, Raise(b, c))
  {
  }

  lemma RaiseByBoth(wm: map<string, Time>, p: seq<Record>, q: seq<Record>)
    requires WindowsAdvance(p + q)
    ensures Raise(Raise(wm, Watermarks(p)), Watermarks(q)) == Raise(wm, Watermarks(p + q))
  {
    hide Raise, Watermarks, WindowsAdvance;
    var log := p + q;
    assert log[..|p|] == p && log[|p|..|log|] == q && log[..|log|] == log;
    RaiseCatchesUp(log, |p|, |p|, |log|);
    RaiseTwice(wm, Watermarks(p), Watermarks(q));
  }

  lemma RaiseByNone(wm: map<string, Time>)
    ensures Raise(wm, Watermarks([])) == wm
  {
  }

  /** Segments the manifest does not list are all read, and raise the watermarks by what they hold. */
  lemma {:induction false} UnlistedRaise(c: Codec, known: seq<Segment>, firsts: seq<nat>, parts: seq<seq<Record>>,
                                         i: nat, r: Recovery)
    requires c.Valid() && i <= |firsts| == |parts| && Ascending(firsts)
    requires forall n :: 0 <= n < |firsts| ==> firsts[n] in r.files && Known(known, firsts[n]) == None
    requires forall n :: i <= n < |firsts| ==> r.files[firsts[n]] == Lines(c, parts[n])
    requires forall n :: i <= n < |firsts| ==> Closed(parts[n]) && Timed(parts[n])
    requires WindowsAdvance(Flatten(parts[i..]))
    ensures var out := RecoverFrom(c, known, firsts, i, r);
      out.Some? && out.value.watermarks == Raise(r.watermarks, Watermarks(Flatten(parts[i..])))
    decreases |firsts| - i
  {
    hide Lines, Watermarks, Flatten, Known, RecoverFrom, ScanFrom, Conclude, Closed, Timed, WindowsAdvance, Raise,
      MetaOf;
    if i == |firsts| {
      LoopEnds(c, known, firsts, r);
      assert parts[i..] == [];
      assert Flatten([]) == [] by { NothingFlat(); }
      RaiseByNone(r.watermarks);
    } else {
      var part := parts[i];
      assert Lines(c, part) + "" == Lines(c, part);
      NothingTorn(c);
      var newest := i == |firsts| - 1;
      FileRecovered(c, firsts[i], part, "", [], "", newest, Lines(c, part));
      var st := ScanFrom(c, Lines(c, part), firsts[i], newest, SCAN_START).st;
      StepScanned(c, known, firsts, i, r, st, MetaOf(c, firsts[i], part), Lines(c, part));
      var r1 := Recovery(r.segs + [MetaOf(c, firsts[i], part)], Raise(r.watermarks, st.pending),
                         r.files[firsts[i] := Lines(c, part)[..MetaOf(c, firsts[i], part).size]]);
      FrontFlat(parts, i);
      WindowsLater(part, Flatten(parts[i + 1..]));
      UnlistedRaise(c, known, firsts, parts, i + 1, r1);
      RaiseByBoth(r.watermarks, part, Flatten(parts[i + 1..]));
    }
  }

  lemma LoopEnds(c: Codec, known: seq<Segment>, names: seq<nat>, r: Recovery)
    requires forall j :: 0 <= j < |names| ==> names[j] in r.files
    ensures RecoverFrom(c, known, names, |names|, r) == Some(r)
  {
  }

  lemma NothingFlat()
    ensures Flatten([]) == []
  {
  }

  lemma FrontFlat(parts: seq<seq<Record>>, i: nat)
    requires i < |parts|
    ensures Flatten(parts[i..]) == parts[i] + Flatten(parts[i + 1..])
  {
    assert parts[i..] == [parts[i]] + parts[i + 1..];
    FlattenAppend([parts[i]], parts[i + 1..]);
    assert [parts[i]][..0] == [];
    assert Flatten([parts[i]]) == parts[i];
  }

  lemma WindowsLater(a: seq<Record>, b: seq<Record>)
    requires WindowsAdvance(a + b)
    ensures WindowsAdvance(b)
  {
    hide WindowsAdvance;
    WindowsAdvanceSlice(a + b, |a|, |a + b|);
    assert (a + b)[|a|..|a + b|] == b;
  }

  /** A manifest that would fit the files left: the old one without the removed segments, or none of its
      segments when it lists fewer. */
  function Fitting(c: Codec, man: Manifest, h: History, k: nat): (fit: Manifest)
    requires k <= |h.parts|
    ensures fit.anchor == HeadOf(c, h.UpTo(k), "")
  {
    if k <= |man.segments| then Manifest(man.segments[k..], man.watermarks, HeadOf(c, h.UpTo(k), ""))
    else Manifest([], Watermarks(h.UpTo(k)), HeadOf(c, h.UpTo(k), ""))
  }

  lemma FittingIsOk(c: Codec, man: Manifest, firsts: seq<nat>, h: History, j: nat, k: nat)
    requires Placed(firsts, h) && ManifestOk(c, man, firsts, h, j) && k < |firsts|
    ensures exists i :: ManifestOk(c, Fitting(c, man, h, k), firsts[k..], Drop(h, k), i)
  {
    hide Flatten, MetaOf, Closed, Timed, Watermarks, Ascending;
    var fit, f1, h1 := Fitting(c, man, h, k), firsts[k..], Drop(h, k);
    DropLog(h, k);
    if k <= |man.segments| {
      forall i | 0 <= i < |fit.segments| ensures fit.segments[i] == StoredSegment(MetaOf(c, f1[i], h1.parts[i])) {
        assert fit.segments[i] == man.segments[k + i] && f1[i] == firsts[k + i] && h1.parts[i] == h.parts[k + i];
      }
      assert f1[|fit.segments|] == firsts[|man.segments|];
      assert ManifestOk(c, fit, f1, h1, j);
    } else {
      var i := |h.UpTo(k)|;
      assert h1.UpTo(0) == h.UpTo(k) && f1[0] == i + 1;
      UpToPrefix(h, k);
      assert ManifestOk(c, fit, f1, h1, i);
    }
  }

  lemma UpToPrefix(h: History, k: nat)
    requires k <= |h.parts|
    ensures h.UpTo(k) <= h.Log() && h.Log()[..|h.UpTo(k)|] == h.UpTo(k)
  {
    assert h.parts == h.parts[..k] + h.parts[k..];
    FlattenAppend(h.parts[..k], h.parts[k..]);
  }

  lemma FittingFinds(c: Codec, man: Manifest, firsts: seq<nat>, h: History, j: nat, k: nat, x: nat)
    requires Placed(firsts, h) && ManifestOk(c, man, firsts, h, j) && k < |firsts| && x in firsts[k..]
    ensures Known(Fitting(c, man, h, k).segments, x) == Known(man.segments, x)
  {
    hide Flatten, Closed, Timed, Watermarks, Known;
    var i :| 0 <= i < |firsts| - k && firsts[k..][i] == x;
    assert x == firsts[k + i];
    forall n | 0 <= n < |man.segments| && n < k ensures man.segments[n].first != x { assert firsts[n] < firsts[k + i]; }
    if k <= |man.segments| {
      KnownBehind(man.segments, k, x);
    } else {
      KnownNowhere(man.segments, x);
      KnownNowhere([], x);
    }
  }

  /** What Open makes of a disk whose first k files are gone: the segments and files a fitting manifest
      would give, under the anchor of the old one. */
  ghost predicate OpensBehind(c: Codec, m: Memory, h: History, k: nat, man: Manifest, m1: Memory, d1: DiskState)
    requires k <= |h.parts|
  {
    var left := Retained(Drop(h, k));
    var fixed := m1.(anchor := HeadOf(c, h.UpTo(k), ""), head := HeadOf(c, h.Log(), ""), watermarks :=
        Watermarks(h.Log()));
    && m1.segs != [] && Inv(c, fixed, WriteManifest(fixed, d1), Drop(h, k))
    && m1.anchor == m.anchor
    && m1.head == (if left == [] then m.anchor else HeadOf(c, h.Log(), ""))
    && m1.watermarks == WatermarksBehind(h, k, man)
  }

  /** The watermarks such a disk opens with: those of the whole log when the manifest lists what is gone, and
      otherwise those of the manifest raised by what is left. */
  ghost function WatermarksBehind(h: History, k: nat, man: Manifest): map<string, Time>
    requires k <= |h.parts|
  {
    if k <= |man.segments| then Watermarks(h.Log())
    else Raise(man.watermarks, Watermarks(Retained(Drop(h, k))))
  }

  function Broken(d: DiskState, m: Memory, k: nat, ids: map<string, nat>): DiskState
    requires k <= |m.segs|
  {
    d.(files := RemoveFiles(d.files, m.segs, k), ingestIDs := ids)
  }

  function Fitted(c: Codec, d: DiskState, m: Memory, h: History, k: nat, ids: map<string, nat>): DiskState
    requires k <= |m.segs| && k <= |h.parts|
  {
    Broken(d, m, k, ids).(manifest := Some(Fitting(c, ManifestOf(d), h, k)))
  }

  /** Under the fitting manifest the disk holds the compacted log. */
  lemma FittedHolds(c: Codec, m: Memory, d: DiskState, h: History, k: nat, ids: map<string, nat>)
    requires Inv(c, m, d, h) && k < |m.segs|
    ensures k < |h.parts|
    ensures HoldsTorn(c, Fitted(c, d, m, h, k, ids), Drop(h, k), Firsts(m.segs)[k..], "", [], "")
  {
    hide Flatten, ManifestOk, SegmentsOk, FilesOk, Watermarks, Placed, Torn, Fitting, Chained, Timed, Closed,
        WindowsAdvance, RemoveFiles;
    var firsts, man := Firsts(m.segs), ManifestOf(d);
    var j :| ManifestOk(c, man, firsts, h, j);
    PlacedAscends(firsts, h);
    DropPlaced(firsts, h, k);
    DropLog(h, k);
    DropFiles(c, d.files, m.segs, h, k);
    FittingIsOk(c, man, firsts, h, j, k);
    NothingTorn(c);
    var fitted := Fitted(c, d, m, h, k, ids);
    assert GoodHistory(c, firsts[k..], Drop(h, k));
    assert FilesOk(c, fitted.files, firsts[k..], Drop(h, k), "");
    assert ManifestOf(fitted) == Fitting(c, man, h, k);
    assert DiskOk(c, fitted, firsts[k..], Drop(h, k), "");
  }

  /** Recovery finds the same segments and files under the old manifest. */
  lemma BrokenRecovers(c: Codec, m: Memory, d: DiskState, h: History, k: nat, ids: map<string, nat>)
    requires c.Valid() && Inv(c, m, d, h) && k < |m.segs| && k < |h.parts|
    requires HoldsTorn(c, Fitted(c, d, m, h, k, ids), Drop(h, k), Firsts(m.segs)[k..], "", [], "")
    ensures var rb := Recovered(c, Broken(d, m, k, ids)); var rf := Recovered(c, Fitted(c, d, m, h, k, ids));
      && (rf.Some? ==> rb.Some? && rb.value.segs == rf.value.segs != [] && rb.value.files == rf.value.files)
      && (rf.Some? && k <= |ManifestOf(d).segments| ==> rb == rf)
      && (rf.Some? && k > |ManifestOf(d).segments| ==>
            rb.value.watermarks == Raise(ManifestOf(d).watermarks, Watermarks(Retained(Drop(h, k)))))
  {
    hide Flatten, ManifestOk, MemoryOk, FilesOk, Watermarks, GoodLog, Placed, Torn, Known, RecoverFrom, RemoveFiles,
        Listing;
    var firsts, man := Firsts(m.segs), ManifestOf(d);
    var fit := Fitting(c, man, h, k);
    var files := RemoveFiles(d.files, m.segs, k);
    var j :| ManifestOk(c, man, firsts, h, j);
    FilesListed(c, files, firsts[k..], Drop(h, k), "");
    forall x | 0 <= x < |firsts| - k
      ensures Known(fit.segments, firsts[k..][x]) == Known(man.segments, firsts[k..][x]) {
      FittingFinds(c, man, firsts, h, j, k, firsts[k..][x]);
    }
    ListingMembers(files.Keys);
    RecoverAlike(c, man.segments, fit.segments, firsts[k..], 0, Recovery([], man.watermarks, files),
        Recovery([], fit.watermarks, files));
    if k > |man.segments| { BrokenRaises(c, m, d, h, k, files); }
  }

  lemma UnlistedNames(c: Codec, man: Manifest, firsts: seq<nat>, h: History, j: nat, k: nat)
    requires ManifestOk(c, man, firsts, h, j) && Ascending(firsts) && |man.segments| < k < |firsts|
    ensures forall n :: 0 <= n < |firsts| - k ==> Known(man.segments, firsts[k..][n]) == None
  {
    hide Flatten, Watermarks, Known;
    forall n | 0 <= n < |firsts| - k ensures Known(man.segments, firsts[k..][n]) == None {
      forall i | 0 <= i < |man.segments| ensures man.segments[i].first != firsts[k + n] {
        assert man.segments[i].first == firsts[i] < firsts[k + n];
      }
      KnownNowhere(man.segments, firsts[k + n]);
    }
  }

  lemma LeftFiles(c: Codec, files: map<nat, string>, firsts: seq<nat>, h: History)
    requires FilesOk(c, files, firsts, h, "") && Placed(firsts, h)
    ensures |firsts| == |h.parts|
    ensures forall n :: 0 <= n < |firsts| ==> firsts[n] in files && files[firsts[n]] == Lines(c, h.parts[n])
    ensures forall n :: 0 <= n < |firsts| ==> Closed(h.parts[n]) && Timed(h.parts[n])
  {
    hide Flatten, Lines, Closed, Timed;
    forall n | 0 <= n < |firsts| ensures files[firsts[n]] == Lines(c, h.parts[n]) {
      assert Lines(c, h.parts[n]) + "" == Lines(c, h.parts[n]);
    }
  }

  lemma LeftAdvances(h: History, k: nat)
    requires WindowsAdvance(h.Log()) && k <= |h.parts|
    ensures WindowsAdvance(Retained(Drop(h, k)))
  {
    hide Flatten, WindowsAdvance;
    DropLog(h, k);
    WindowsLater(Drop(h, k).gone, Flatten(Drop(h, k).parts));
  }

  lemma BrokenRaises(c: Codec, m: Memory, d: DiskState, h: History, k: nat, files: map<nat, string>)
    requires c.Valid() && Inv(c, m, d, h) && |ManifestOf(d).segments| < k < |m.segs| && k < |h.parts|
    requires FilesOk(c, files, Firsts(m.segs)[k..], Drop(h, k), "")
    ensures var out := RecoverFrom(c, ManifestOf(d).segments, Firsts(m.segs)[k..], 0,
        Recovery([], ManifestOf(d).watermarks, files));
      out.Some? && out.value.watermarks == Raise(ManifestOf(d).watermarks, Watermarks(Retained(Drop(h, k))))
  {
    hide Flatten, MemoryOk, Watermarks, Chained, Closed, Timed, WindowsAdvance, Known, RecoverFrom, Raise, Lines,
        Placed, FilesOk, ManifestOk, Drop;
    var firsts, man := Firsts(m.segs), ManifestOf(d);
    var j :| ManifestOk(c, man, firsts, h, j);
    PlacedAscends(firsts, h);
    UnlistedNames(c, man, firsts, h, j, k);
    DropPlaced(firsts, h, k);
    PlacedAscends(firsts[k..], Drop(h, k));
    LeftFiles(c, files, firsts[k..], Drop(h, k));
    LeftAdvances(h, k);
    var parts := Drop(h, k).parts;
    assert parts[0..] == parts;
    UnlistedRaise(c, man.segments, firsts[k..], parts, 0, Recovery([], man.watermarks, files));
  }

  lemma OpenBehind(c: Codec, o: Options, m: Memory, d: DiskState, h: History, k: nat, ids: map<string, nat>, now: Clock)
    requires c.Valid() && Inv(c, m, d, h) && k < |m.segs|
    ensures k <= |h.parts|
    ensures var out := Open(c, o, Broken(d, m, k, ids), now);
      out.Some? && OpensBehind(c, m, h, k, ManifestOf(d), out.value.0, out.value.1)
  {
    hide Codec.Valid, Inv, Recovered, Assemble, HoldsTorn, Fitting, OpensBehind, Drop, RemoveFiles;
    FittedHolds(c, m, d, h, k, ids);
    BrokenRecovers(c, m, d, h, k, ids);
    var broken, fitted := Broken(d, m, k, ids), Fitted(c, d, m, h, k, ids);
    assert Holds(c, fitted, Drop(h, k));
    OpensAs(c, o, fitted, Drop(h, k), now);
    var rb, rf := Recovered(c, broken).value, Recovered(c, fitted).value;
    OldAnchor(c, m, d, h);
    OpensAlike(c, o, m, h, k, ManifestOf(d), broken, fitted, Fitting(c, ManifestOf(d), h, k).anchor, rb, rf,
        now);
  }

  lemma OldAnchor(c: Codec, m: Memory, d: DiskState, h: History)
    requires Inv(c, m, d, h)
    ensures ManifestOf(d).anchor == m.anchor
  {
    hide GoodHistory, FilesOk, SegmentsOk, ListsSegments;
  }

  lemma {:induction false} NoneLeft(c: Codec, segs: seq<Segment>, parts: seq<seq<Record>>)
    requires |segs| == |parts| && forall i :: 0 <= i < |segs| ==> Describes(c, segs[i], segs[i].first, parts[i])
    requires forall i, r :: 0 <= i < |parts| && r in parts[i] ==> r.number > 0
    ensures LastNonEmpty(segs).None? <==> Flatten(parts) == []
  {
    hide Lines, IndexOfLines;
    if segs != [] {
      var n := |segs| - 1;
      NoneLeft(c, segs[..n], parts[..n]);
      if parts[n] != [] { assert parts[n][|parts[n]| - 1] in parts[n]; }
    }
  }

  lemma NumbersPositive(c: Codec, m: Memory, d: DiskState, h: History)
    requires Inv(c, m, d, h)
    ensures forall i, r :: 0 <= i < |h.parts| && r in h.parts[i] ==> r.number > 0
  {
    hide Inv;
    InvNumbered(c, m, d, h);
  }

  /** The same segments assembled under the old anchor and watermarks. */
  lemma OpensAlike(c: Codec, o: Options, m: Memory, h: History, k: nat, man: Manifest, broken: DiskState,
                   fitted: DiskState, anchor: string, rb: Recovery, rf: Recovery, now: Clock)
    requires c.Valid() && k < |h.parts| && rb.segs == rf.segs != [] && rb.files == rf.files
    requires rb.watermarks == if k <= |man.segments| then rf.watermarks else WatermarksBehind(h, k, man)
    requires broken.(manifest := fitted.manifest) == fitted && anchor == HeadOf(c, h.UpTo(k), "")
    requires var (mf, df) := Assemble(o, fitted, anchor, rf, now); Inv(c, mf, df, Drop(h, k))
    ensures var (m1, d1) := Assemble(o, broken, m.anchor, rb, now); OpensBehind(c, m, h, k, man, m1, d1)
  {
    hide Codec.Valid, GoodHistory, DiskOk, Watermarks, Flatten, Describes, LastNonEmpty, HeadOf;
    var (mf, df) := Assemble(o, fitted, anchor, rf, now);
    var (m1, d1) := Assemble(o, broken, m.anchor, rb, now);
    DropLog(h, k);
    WriteManifestKeeps(c, mf, df, Drop(h, k));
    NumbersPositive(c, mf, df, Drop(h, k));
    NoneLeft(c, mf.segs, Drop(h, k).parts);
    assert WriteManifest(mf, df) == WriteManifest(mf, d1);
    var fixed := m1.(anchor := HeadOf(c, h.UpTo(k), ""), head := HeadOf(c, h.Log(), ""), watermarks :=
        Watermarks(h.Log()));
    assert fixed.segs == mf.segs;
    assert fixed.number == mf.number;
    assert fixed.committed == mf.committed;
    assert fixed.head == mf.head;
    assert fixed.watermarks == mf.watermarks;
    assert fixed.cursors == mf.cursors;
    assert fixed == mf;
  }

  lemma PlacedAscends(firsts: seq<nat>, h: History)
    requires Placed(firsts, h)
    ensures Ascending(firsts) && |firsts| == |h.parts|
  {
  }

  lemma NothingTorn(c: Codec)
    ensures Torn(c, "", [], "")
  {
  }

  // ---- the result ----

  /** The last record compacted before and the last one removed now have different bodies with one digest. */
  ghost predicate DigestsCoincide(c: Codec, h: History, k: nat)
    requires k <= |h.parts|
  {
    && h.gone != [] && h.UpTo(k) != []
    && var a := h.gone[|h.gone| - 1]; var b := h.UpTo(k)[|h.UpTo(k)| - 1];
      c.marshal(a) != c.marshal(b) && c.Digest(a) == c.Digest(b)
  }

  /** An anchor that stayed behind is still the right one only when nothing was removed or digests coincide. */
  lemma AnchorBehind(c: Codec, m: Memory, d: DiskState, h: History, k: nat)
    requires c.Valid() && Inv(c, m, d, h) && k < |m.segs|
    ensures k <= |h.parts| && (m.anchor == HeadOf(c, h.UpTo(k), "") <==> k == 0 || DigestsCoincide(c, h, k))
  {
    hide Flatten, DiskOk, SegmentsOk, Chained, Timed, Closed, WindowsAdvance;
    PlacedAscends(Firsts(m.segs), h);
    if k == 0 {
      UpToNone(h);
    } else {
      RemovedSome(c, m, d, h, k);
      var b := h.UpTo(k)[|h.UpTo(k)| - 1];
      assert |c.Digest(b)| == 64;
      if h.gone != [] {
        var a := h.gone[|h.gone| - 1];
        assert c.unmarshal(c.marshal(a)) == Some(a) && c.unmarshal(c.marshal(b)) == Some(b);
      }
    }
  }

  lemma UpToNone(h: History)
    ensures h.UpTo(0) == h.gone
  {
    assert h.parts[..0] == [];
  }

  lemma RemovedSome(c: Codec, m: Memory, d: DiskState, h: History, k: nat)
    requires Inv(c, m, d, h) && 0 < k < |m.segs|
    ensures k <= |h.parts| && |h.gone| < |h.UpTo(k)|
    ensures h.UpTo(k)[|h.UpTo(k)| - 1].number == |h.UpTo(k)|
    ensures h.gone != [] ==> h.gone[|h.gone| - 1].number == |h.gone|
  {
    hide Flatten, DiskOk, SegmentsOk, Timed, Closed, WindowsAdvance, Watermarks;
    InvNumbered(c, m, d, h);
    PlacedAscends(Firsts(m.segs), h);
    assert Firsts(m.segs)[0] < Firsts(m.segs)[k];
    UpToNone(h);
    UpToPrefix(h, k);
    UpToPrefix(h, 0);
    var log := h.Log();
    assert log[|h.UpTo(k)| - 1] == h.UpTo(k)[|h.UpTo(k)| - 1];
    if h.gone != [] { assert log[|h.gone| - 1] == h.gone[|h.gone| - 1]; }
  }

  /** A source's last window is still known behind the crash: a retained record tells it, or the manifest does. */
  ghost predicate Remembers(man: Manifest, left: seq<Record>, m: Memory, source: string)
    requires source in m.watermarks
  {
    source in Watermarks(left) || (source in man.watermarks && man.watermarks[source] == m.watermarks[source])
  }

  /** The last window of a source that committed any in the later part of a log lies there. */
  lemma LatestIsLater(log: seq<Record>, n: nat, source: string)
    requires WindowsAdvance(log) && n <= |log| && source in Watermarks(log[n..])
    ensures source in Watermarks(log) && Watermarks(log[n..])[source] == Watermarks(log)[source]
  {
    hide Watermarks, WindowsAdvance;
    var left := log[n..];
    WindowsAdvanceSlice(log, n, |log|);
    assert log[n..|log|] == left;
    StretchBelow(log, left, n, source);
    var i := LatestCommit(log, source);
    var j := LatestCommit(left, source);
    assert log[n + j] == left[j];
    if i < n {
      EarlierEnds(log, i, n + j, source);
    } else {
      assert left[i - n] == log[i];
      CommitBounded(left, i - n, source);
    }
  }

  /** A last window before the j-th record is the last one the first j records tell. */
  lemma LatestIsEarlier(log: seq<Record>, n: nat, j: nat, source: string)
    requires WindowsAdvance(log) && n <= j <= |log| && source in Watermarks(log) && source !in Watermarks(log[n..])
    ensures source in Watermarks(log[..j]) && Watermarks(log[..j])[source] == Watermarks(log)[source]
  {
    hide Watermarks, WindowsAdvance;
    WindowsAdvanceSlice(log, n, |log|);
    assert log[n..|log|] == log[n..];
    WindowsAdvanceSlice(log, 0, j);
    assert log[0..j] == log[..j];
    var i := LatestCommit(log, source);
    if i >= n { assert log[n..][i - n] == log[i]; CommitBounded(log[n..], i - n, source); }
    assert log[..j][i] == log[i];
    CommitBounded(log[..j], i, source);
    StretchBelow(log, log[..j], 0, source);
  }

  lemma ManifestMoment(c: Codec, man: Manifest, firsts: seq<nat>, h: History, j: nat, k: nat)
    requires Placed(firsts, h) && ManifestOk(c, man, firsts, h, j) && k <= |man.segments|
    ensures |h.UpTo(k)| <= j <= |h.Log()| && man.watermarks == Watermarks(h.Log()[..j])
  {
    hide Flatten, Watermarks, MetaOf;
    UpToShorter(h, k, |man.segments|);
  }

  lemma ManifestEarlier(c: Codec, man: Manifest, firsts: seq<nat>, h: History, j: nat, source: string)
    requires ManifestOk(c, man, firsts, h, j) && WindowsAdvance(h.Log()) && source in man.watermarks
    ensures source in Watermarks(h.Log()) && man.watermarks[source] <= Watermarks(h.Log())[source]
  {
    hide Flatten, Watermarks, WindowsAdvance, MetaOf;
    var log := h.Log();
    WindowsAdvanceSlice(log, 0, j);
    assert log[0..j] == log[..j];
    StretchBelow(log, log[..j], 0, source);
  }

  lemma RaisedAt(a: map<string, Time>, b: map<string, Time>, source: string)
    requires source in b ==> b[source] > 0
    ensures var r := Raise(a, b);
      && (source in r <==> source in a || source in b)
      && (source in r ==>
        r[source] == if source in b && (source !in a || b[source] > a[source]) then b[source] else a[source])
  {
  }

  /** The watermark of one source behind the crash: never ahead, and right exactly when it is remembered. */
  lemma WatermarkBehind(c: Codec, m: Memory, d: DiskState, h: History, k: nat, source: string)
    requires Inv(c, m, d, h) && k < |m.segs| && k <= |h.parts|
    ensures var wm := WatermarksBehind(h, k, ManifestOf(d));
      && (source in wm ==> source in m.watermarks && wm[source] <= m.watermarks[source])
      && (source in m.watermarks ==>
            (source in wm && wm[source] == m.watermarks[source]
             <==> Remembers(ManifestOf(d), Retained(Drop(h, k)), m, source)))
  {
    hide Flatten, Watermarks, WindowsAdvance, Chained, Closed, Timed, SegmentsOk, FilesOk, ManifestOk, Placed, Raise,
      Drop;
    var man, log, n, left := ManifestOf(d), h.Log(), |h.UpTo(k)|, Retained(Drop(h, k));
    var j :| ManifestOk(c, man, Firsts(m.segs), h, j);
    LeftIsLater(h, k);
    if source in Watermarks(left) { LatestIsLater(log, n, source); }
    if source in man.watermarks { ManifestEarlier(c, man, Firsts(m.segs), h, j, source); }
    if k <= |man.segments| {
      ManifestMoment(c, man, Firsts(m.segs), h, j, k);
      if source in Watermarks(log) && source !in Watermarks(left) { LatestIsEarlier(log, n, j, source); }
    } else {
      if source in Watermarks(left) { LeftAdvances(h, k); PositiveWatermark(left, source); }
      RaisedAt(man.watermarks, Watermarks(left), source);
    }
  }

  lemma LeftIsLater(h: History, k: nat)
    requires k <= |h.parts|
    ensures |h.UpTo(k)| <= |h.Log()| && Retained(Drop(h, k)) == h.Log()[|h.UpTo(k)|..]
  {
    hide Flatten;
    DropLog(h, k);
    UpToPrefix(h, k);
    assert Drop(h, k).Log() == Drop(h, k).gone + Retained(Drop(h, k));
  }

  /** So a source that is forgotten, and no other, can commit its last window again. */
  lemma WatermarksAfter(c: Codec, m: Memory, d: DiskState, h: History, k: nat, m1: Memory)
    requires Inv(c, m, d, h) && k < |m.segs| && k <= |h.parts| && m1.watermarks == WatermarksBehind(h, k, ManifestOf(d))
    ensures var left := Retained(Drop(h, k));
      && (forall source :: source in m.watermarks ==>
            (WindowAccepted(m1, source, m.watermarks[source]) <==> !Remembers(ManifestOf(d), left, m, source)))
      && (m1.watermarks == m.watermarks
          <==> forall source :: source in m.watermarks ==> Remembers(ManifestOf(d), left, m, source))
  {
    hide Inv, WatermarksBehind, Remembers, Retained, Drop;
    forall source
      ensures source in m1.watermarks ==> source in m.watermarks && m1.watermarks[source] <= m.watermarks[source]
      ensures source in m.watermarks ==> m.watermarks[source] > 0
      ensures source in m.watermarks ==>
        (source in m1.watermarks && m1.watermarks[source] == m.watermarks[source]
         <==> Remembers(ManifestOf(d), Retained(Drop(h, k)), m, source))
    {
      WatermarkBehind(c, m, d, h, k, source);
      WatermarkPositive(c, m, d, h, source);
    }
    if forall source :: source in m.watermarks ==> Remembers(ManifestOf(d), Retained(Drop(h, k)), m, source) {
      assert m1.watermarks.Keys == m.watermarks.Keys;
    }
  }

  lemma WatermarkPositive(c: Codec, m: Memory, d: DiskState, h: History, source: string)
    requires Inv(c, m, d, h)
    ensures source in m.watermarks ==> m.watermarks[source] > 0
  {
    hide Flatten, Watermarks, WindowsAdvance, Chained, Closed, Timed, SegmentsOk, DiskOk, Placed;
    if source in m.watermarks { PositiveWatermark(h.Log(), source); }
  }

  /** A crash inside Compact. Wherever it falls after k files are gone and before the manifest is
      written, Open succeeds with exactly the records left; but the anchor is the old one. Verify of the
      reopened spool passes exactly when k is 0, or nothing is retained, or two digests coincide. The
      next append numbers on and names the head of the log, except that with nothing retained it names
      the old anchor. A source can commit its last window again exactly when no retained record and not
      the manifest on disk tells that it did. */
  lemma CompactCrash(c: Codec, o: Options, m: Memory, d: DiskState, h: History, consumers: seq<string>, now: Clock,
                     p: CompactPoint, o2: Options, later: Clock, q: Request)
    requires c.Valid() && Inv(c, m, d, h)
    ensures m.segs != [] && GoneAt(o, m, consumers, now, p) <= |h.parts|
    ensures var k := GoneAt(o, m, consumers, now, p); var left := Retained(Drop(h, k));
      var out := Open(c, o2, CompactCrashDisk(o, m, d, consumers, now, p), later);
      && out.Some?
      && var (m1, d1) := out.value;
        && (Verify(c, m1, d1).Ok() <==> k == 0 || left == [] || DigestsCoincide(c, h, k))
        && Verify(c, m1, d1).records == |left|
        && NewRecords(c, m1, q)[0].number == |h.Log()| + 1
        && NewRecords(c, m1, q)[0].prev == (if left == [] then m.anchor else HeadOf(c, h.Log(), ""))
        && (forall source :: source in m.watermarks ==>
              (WindowAccepted(m1, source, m.watermarks[source]) <==> !Remembers(ManifestOf(d), left, m, source)))
        && (m1.watermarks == m.watermarks
            <==> forall source :: source in m.watermarks ==> Remembers(ManifestOf(d), left, m, source))
  {
    hide Codec.Valid, Inv, Open, Verify, Flatten, HeadOf, DigestsCoincide, RemoveFiles, Removed, Remembers,
      WatermarksBehind;
    assert m.segs != [] && |m.segs| == |h.parts| by { SomeSegments(c, m, d, h); }
    var k := GoneAt(o, m, consumers, now, p);
    CrashDiskIs(o, m, d, consumers, now, p);
    var ids := CompactCrashDisk(o, m, d, consumers, now, p).ingestIDs;
    OpenBehind(c, o2, m, d, h, k, ids, later);
    var (m1, d1) := Open(c, o2, Broken(d, m, k, ids), later).value;
    var fixed := m1.(anchor := HeadOf(c, h.UpTo(k), ""), head := HeadOf(c, h.Log(), ""), watermarks :=
        Watermarks(h.Log()));
    VerifyBehind(c, m1, d1, fixed, Drop(h, k));
    AnchorBehind(c, m, d, h, k);
    NextNames(c, m1, q);
    WatermarksAfter(c, m, d, h, k, m1);
    DropLog(h, k);
    InvCommitted(c, fixed, WriteManifest(fixed, d1), Drop(h, k));
  }

  lemma SomeSegments(c: Codec, m: Memory, d: DiskState, h: History)
    requires Inv(c, m, d, h)
    ensures |m.segs| == |h.parts| > 0
  {
    hide GoodHistory, DiskOk;
    MemoryNumber(c, m, h);
  }

  lemma CrashDiskIs(o: Options, m: Memory, d: DiskState, consumers: seq<string>, now: Clock, p: CompactPoint)
    requires m.segs != []
    ensures var d1 := CompactCrashDisk(o, m, d, consumers, now, p);
        d1 == Broken(d, m, GoneAt(o, m, consumers, now, p), d1.ingestIDs)
  {
    CompactIDsOnly(m, Broken(d, m, GoneAt(o, m, consumers, now, p), d.ingestIDs), now - o.dedupeWindow);
  }

  /** Verify reads the files, the segments and the anchor, nothing else of the memory. */
  lemma VerifyBehind(c: Codec, m1: Memory, d1: DiskState, fixed: Memory, h1: History)
    requires c.Valid() && fixed.segs != [] && Inv(c, fixed, WriteManifest(fixed, d1), h1)
    requires m1.segs == fixed.segs && m1.committed == fixed.committed
    ensures Verify(c, m1, d1).Ok() <==> Retained(h1) == [] || m1.anchor == HeadOf(c, h1.gone, "")
    ensures Verify(c, m1, d1).records == |Retained(h1)|
  {
    hide Codec.Valid, Inv, HeadOf, VerifySegments;
    AnchorDecides(c, fixed, WriteManifest(fixed, d1), h1, m1.anchor);
  }

  lemma NextNames(c: Codec, m: Memory, q: Request)
    ensures NewRecords(c, m, q)[0].prev == m.head && NewRecords(c, m, q)[0].number == m.number + 1
  {
    BatchChained(c, m.number, m.head, q.at, RequestPayloads(q));
    assert Linked(c, NewRecords(c, m, q), m.number + 1, m.head, 0);
  }
}
