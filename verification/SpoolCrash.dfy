/** Crash atomicity: whatever bytes of a batch survive, reopening gives the state before the
    append or the state after it, never half a batch. */
module SpoolCrash {
  import opened Usage
  import opened Ledger
  import opened Segments
  import opened SpoolModel
  import opened SpoolInvariant
  import opened SpoolRecovery
  import opened SpoolSteps

  /** A line cut short has no newline. */
  lemma LineCut(c: Codec, r: Record, n: nat)
    requires c.Valid() && n < |c.Line(r)|
    ensures '\n' !in c.Line(r)[..n]
  {
    StemParses(c, r);
    assert c.Line(r)[..n] == c.Stem(r)[..n];
  }

  /** Any proper prefix of a batch's bytes is some whole lines and part of the next one. */
  lemma {:induction false} PrefixIsTorn(c: Codec, recs: seq<Record>, n: nat) returns (k: nat, rest: string)
    requires c.Valid() && n < |Lines(c, recs)|
    ensures k < |recs| && Lines(c, recs)[..n] == Lines(c, recs[..k]) + rest && '\n' !in rest
  {
    var last := |recs| - 1;
    var before := Lines(c, recs[..last]);
    if n >= |before| {
      k := last;
      rest := c.Line(recs[last])[..n - |before|];
      LineCut(c, recs[last], n - |before|);
    } else {
      k, rest := PrefixIsTorn(c, recs[..last], n);
      assert recs[..last][..k] == recs[..k];
      assert Lines(c, recs)[..n] == before[..n];
    }
  }

  /** A batch cut short leaves events and part of a line: its commit is the last line. */
  lemma BatchPrefixIsTorn(c: Codec, recs: seq<Record>, q: Request, n: nat) returns (evs: seq<Record>, rest: string)
    requires c.Valid() && IsBatch(recs, q) && n < |Lines(c, recs)|
    ensures Torn(c, Lines(c, recs)[..n], evs, rest)
  {
    hide Lines, Codec.Valid;
    var k: nat;
    k, rest := PrefixIsTorn(c, recs, n);
    evs := recs[..k];
    assert evs == recs[..|recs| - 1][..k];
  }

  /** The running state a crash at this point is indistinguishable from. */
  function Survivor(c: Codec, o: Options, m: Memory, d: DiskState, q: Request, p: CrashPoint): (Memory, DiskState)
    requires Writable(m, d)
  {
    match p
    case BeforeRotation => (m, d)
    case FileCreated => if RotationDue(o, m, q.rotateAt) then CreateNext(m, d) else (m, d)
    case Writing(_) =>
      if !Survives(c, o, m, d, q, p) then Rotate(o, m, d, q.rotateAt)
      else if Writable(Rotate(o, m, d, q.rotateAt).0, Rotate(o, m, d, q.rotateAt).1)
        then AppendLocked(c, o, m, d, q, false)
      else (m, d)
  }

  function SurvivorHistory(c: Codec, o: Options, m: Memory, d: DiskState, h: History, q: Request,
                           p: CrashPoint): History
    requires Writable(m, d) && h.parts != []
  {
    match p
    case BeforeRotation => h
    case FileCreated => RotatedHistory(o, m, h, q.rotateAt)
    case Writing(_) => AppendedHistory(c, o, m, h, q, !Survives(c, o, m, d, q, p))
  }

  /** Equal but for the sparse indexes of closed segments, which are rebuilt or left out on restart. */
  predicate SameState(a: Memory, b: Memory)
  {
    && |a.segs| == |b.segs| > 0
    && (forall i :: 0 <= i < |a.segs| ==> StoredSegment(a.segs[i]) == StoredSegment(b.segs[i]))
    && a.segs[|a.segs| - 1] == b.segs[|b.segs| - 1]
    && a.number == b.number && a.committed == b.committed
    && a.head == b.head && a.anchor == b.anchor && a.watermarks == b.watermarks
  }

  lemma SameHistorySameState(c: Codec, a: Memory, b: Memory, h: History)
    requires MemoryOk(c, a, h) && MemoryOk(c, b, h) && Firsts(a.segs) == Firsts(b.segs)
    ensures SameState(a, b)
  {
    hide Lines, IndexOfLines, Flatten, Watermarks;
    forall i | 0 <= i < |a.segs| ensures StoredSegment(a.segs[i]) == StoredSegment(b.segs[i]) {
      assert Firsts(a.segs)[i] == Firsts(b.segs)[i];
    }
    var n := |a.segs| - 1;
    assert Firsts(a.segs)[n] == Firsts(b.segs)[n];
  }

  ghost predicate Reopens(c: Codec, o: Options, d: DiskState, now: Clock, m: Memory, h: History)
  {
    var out := Open(c, o, d, now);
    && out.Some? && Inv(c, out.value.0, out.value.1, h) && SameState(out.value.0, m)
    && out.value.0.cursors == ClampCursors(d.cursors, |h.Log()|) && out.value.1.cursors == d.cursors
    && Holds(c, d, h)
  }

  lemma ReopenFrom(c: Codec, o: Options, d: DiskState, now: Clock, m: Memory, h: History, extra: string,
                   evs: seq<Record>, rest: string)
    requires c.Valid() && Torn(c, extra, evs, rest)
    requires GoodHistory(c, Firsts(m.segs), h) && MemoryOk(c, m, h) && DiskOk(c, d, Firsts(m.segs), h, extra)
    ensures Reopens(c, o, d, now, m, h)
  {
    hide Codec.Valid, Torn, GoodHistory, DiskOk, MemoryOk, Open;
    assert HoldsTorn(c, d, h, Firsts(m.segs), extra, evs, rest);
    OpenRecovers(c, o, d, Firsts(m.segs), h, extra, evs, rest, now);
    SameHistorySameState(c, Open(c, o, d, now).value.0, m, h);
  }

  /** A clean disk reopens as the state that wrote it. */
  lemma ReopenClean(c: Codec, o: Options, d: DiskState, now: Clock, m: Memory, h: History)
    requires c.Valid() && Inv(c, m, d, h)
    ensures Reopens(c, o, d, now, m, h)
  {
    hide Codec.Valid, GoodHistory, DiskOk, MemoryOk, Open;
    assert Torn(c, "", [], "");
    ReopenFrom(c, o, d, now, m, h, "", [], "");
  }

  /** A batch of which the last byte is missing. */
  lemma ReopenTorn(c: Codec, o: Options, m: Memory, d: DiskState, h: History, q: Request, bytes: nat, now: Clock)
    requires c.Valid() && Inv(c, m, d, h) && Writable(m, d)
    requires bytes < |Lines(c, NewRecords(c, m, q))|
    ensures var first := m.segs[|m.segs| - 1].first;
      Reopens(c, o, d.(files := d.files[first := d.files[first] + Lines(c, NewRecords(c, m, q))[..bytes]]), now, m, h)
  {
    hide Codec.Valid, GoodLog, DiskOk, MemoryOk, Placed, Open, Reopens, NewRecords, Lines, Torn;
    NewRecordsFacts(c, m, q);
    var recs := NewRecords(c, m, q);
    var evs, rest := BatchPrefixIsTorn(c, recs, q, bytes);
    PlacedActive(Firsts(m.segs), h);
    WriteDisk(c, d, Firsts(m.segs), h, Lines(c, recs)[..bytes]);
    var first := m.segs[|m.segs| - 1].first;
    ReopenFrom(c, o, d.(files := d.files[first := d.files[first] + Lines(c, recs)[..bytes]]), now, m, h,
               Lines(c, recs)[..bytes], evs, rest);
  }

  /** The crash result. After a crash anywhere inside an append, Open succeeds and gives the
      state after the append when every byte got out, and the state before it otherwise
      (possibly with the empty segment the rotation had already started). */
  lemma CrashAtomic(c: Codec, o: Options, m: Memory, d: DiskState, h: History, q: Request, p: CrashPoint, o2: Options,
                    now: Clock)
    requires c.Valid() && Inv(c, m, d, h) && WindowAccepted(m, q.source, q.windowEnd)
    ensures Writable(m, d) && h.parts != []
    ensures Reopens(c, o2, CrashDisk(c, o, m, d, q, p), now, Survivor(c, o, m, d, q, p).0,
        SurvivorHistory(c, o, m, d, h, q, p))
    ensures SurvivorHistory(c, o, m, d, h, q, p).Log()
            == h.Log() + if Survives(c, o, m, d, q, p) then NewRecords(c, m, q) else []
  {
    hide Codec.Valid, Inv, Reopens, RotationDue, Grow, NewRecords, Lines, Flatten, WriteManifest;
    CanWrite(c, m, d, h);
    assert h.parts != [];
    assert h.Log() + [] == h.Log();
    RotateKeeps(c, o, m, d, h, q.rotateAt);
    match p
    case BeforeRotation => ReopenClean(c, o2, d, now, m, h);
    case FileCreated =>
      if RotationDue(o, m, q.rotateAt) {
        CreateNextKeeps(c, m, d, h) by { DueHasRecords(c, o, m, d, h, q.rotateAt); }
        ReopenClean(c, o2, CreateNext(m, d).1, now, CreateNext(m, d).0, Cut(h));
      } else {
        ReopenClean(c, o2, d, now, m, h);
      }
    case Writing(bytes) => CrashWriting(c, o, m, d, h, q, bytes, o2, now);
  }

  lemma DueHasRecords(c: Codec, o: Options, m: Memory, d: DiskState, h: History, now: Clock)
    requires Inv(c, m, d, h) && m.segs != [] && RotationDue(o, m, now)
    ensures h.parts != [] && h.parts[|h.parts| - 1] != []
  {
    hide Inv;
    CanWrite(c, m, d, h);
  }

  lemma CrashWriting(c: Codec, o: Options, m: Memory, d: DiskState, h: History, q: Request, bytes: nat, o2: Options,
                     now: Clock)
    requires c.Valid() && Inv(c, m, d, h) && WindowAccepted(m, q.source, q.windowEnd) && Writable(m, d) && h.parts != []
    ensures var p := Writing(bytes);
      && Reopens(c, o2, CrashDisk(c, o, m, d, q, p), now, Survivor(c, o, m, d, q, p).0,
          SurvivorHistory(c, o, m, d, h, q, p))
      && SurvivorHistory(c, o, m, d, h, q, p).Log()
         == h.Log() + if Survives(c, o, m, d, q, p) then NewRecords(c, m, q) else []
  {
    hide Codec.Valid, Inv, Reopens, RotationDue, Grow, NewRecords, Lines, Flatten, Rotate, RotatedHistory;
    var p := Writing(bytes);
    RotateKeeps(c, o, m, d, h, q.rotateAt);
    var (m1, d1) := Rotate(o, m, d, q.rotateAt);
    var h1 := RotatedHistory(o, m, h, q.rotateAt);
    SameBatch(c, m, m1, q);
    var text := Lines(c, NewRecords(c, m1, q));
    AppendKeeps(c, o, m, d, h, q, !Survives(c, o, m, d, q, p));
    if bytes < |text| {
      ReopenTorn(c, o2, m1, d1, h1, q, bytes, now);
    } else {
      assert text[..|text|] == text;
      var (m2, d2) := AppendLocked(c, o, m, d, q, false);
      assert CrashDisk(c, o, m, d, q, p).files == d2.files;
      ReopenClean(c, o2, d2, now, m2, AppendedHistory(c, o, m, h, q, false));
    }
  }

  lemma SameBatch(c: Codec, m: Memory, m1: Memory, q: Request)
    requires m1.number == m.number && m1.head == m.head
    ensures NewRecords(c, m1, q) == NewRecords(c, m, q)
  {
  }
}
