/** Retention: a completed Compact removes leading closed segments that every listed consumer has
    read past, and changes nothing any of them can still read. */
module SpoolCompact {
  import opened Usage
  import opened Ledger
  import opened Segments
  import opened SpoolModel
  import opened SpoolInvariant
  import opened SpoolRecovery
  import opened SpoolSteps
  import opened SpoolReads

  /** The history with its first n segments compacted away. */
  function Drop(h: History, n: nat): History
    requires n <= |h.parts|
  {
    History(h.UpTo(n), h.parts[n..])
  }

  lemma DropUpTo(h: History, n: nat, i: nat)
    requires n + i <= |h.parts|
    ensures Drop(h, n).UpTo(i) == h.UpTo(n + i)
  {
    assert h.parts[..n + i] == h.parts[..n] + h.parts[n..][..i];
    FlattenAppend(h.parts[..n], h.parts[n..][..i]);
  }

  lemma DropLog(h: History, n: nat)
    requires n <= |h.parts|
    ensures Drop(h, n).Log() == h.Log()
    ensures forall i :: 0 <= i <= |h.parts| - n ==> Drop(h, n).UpTo(i) == h.UpTo(n + i)
  {
    hide Flatten;
    forall i | 0 <= i <= |h.parts| - n ensures Drop(h, n).UpTo(i) == h.UpTo(n + i) { DropUpTo(h, n, i); }
    UpToAll(h);
    UpToAll(Drop(h, n));
  }

  lemma DropPlaced(firsts: seq<nat>, h: History, n: nat)
    requires Placed(firsts, h) && n < |firsts|
    ensures Placed(firsts[n..], Drop(h, n))
  {
    hide Flatten, Closed, Timed;
    DropLog(h, n);
    var f1, h1 := firsts[n..], Drop(h, n);
    forall i | 0 <= i < |f1| ensures f1[i] == |h1.UpTo(i)| + 1 && Closed(h1.parts[i]) && Timed(h1.parts[i]) {
      assert h1.UpTo(i) == h.UpTo(n + i) && h1.parts[i] == h.parts[n + i];
    }
  }

  lemma DropMemory(c: Codec, m: Memory, h: History, n: nat, anchor: string)
    requires MemoryOk(c, m, h) && n < |m.segs| && anchor == HeadOf(c, h.UpTo(n), "")
    ensures MemoryOk(c, m.(segs := m.segs[n..], anchor := anchor), Drop(h, n))
  {
    hide Lines, IndexOfLines, Flatten, Watermarks, MetaOf, Describes;
    DropLog(h, n);
    var segs, h1 := m.segs[n..], Drop(h, n);
    forall i | 0 <= i < |segs| ensures Describes(c, segs[i], segs[i].first, h1.parts[i]) {
      assert segs[i] == m.segs[n + i] && h1.parts[i] == h.parts[n + i];
    }
  }

  /** The anchor Compact leaves is the digest of the last record it removed. */
  lemma AnchorIsHead(c: Codec, m: Memory, h: History, n: nat)
    requires c.Valid() && SegmentsOk(c, m.segs, h) && n < |m.segs| && m.anchor == HeadOf(c, h.gone, "")
    requires forall i :: 0 <= i < n ==> h.parts[i] != []
    ensures AnchorAfter(m.segs, n, m.anchor) == HeadOf(c, h.UpTo(n), "")
  {
    hide Lines, IndexOfLines;
    if n == 0 {
      assert h.parts[..0] == [];
      assert h.UpTo(0) == h.gone;
    } else {
      hide Flatten;
      var part := h.parts[n - 1];
      UpToNext(h, n - 1);
      assert h.UpTo(n)[|h.UpTo(n)| - 1] == part[|part| - 1];
      assert Describes(c, m.segs[n - 1], m.segs[n - 1].first, part);
      assert |m.segs[n - 1].lastHash| == 64;
    }
  }

  lemma KeptNames(files: map<nat, string>, segs: seq<Segment>, n: nat, x: nat)
    requires n < |segs| && Ascending(Firsts(segs)) && forall y :: y in files <==> y in Firsts(segs)
    ensures x in RemoveFiles(files, segs, n) <==> x in Firsts(segs)[n..]
  {
    var firsts := Firsts(segs);
    if x in firsts {
      var i :| 0 <= i < |firsts| && firsts[i] == x;
      if i < n {
        assert segs[i].first == x;
        forall k | n <= k < |firsts| ensures firsts[k] != x { assert firsts[i] < firsts[k]; }
      } else {
        assert firsts[n..][i - n] == x;
        forall k | 0 <= k < n ensures segs[k].first != x { assert firsts[k] < firsts[i]; }
      }
    }
  }

  lemma DropFiles(c: Codec, files: map<nat, string>, segs: seq<Segment>, h: History, n: nat)
    requires n < |segs| && Ascending(Firsts(segs)) && FilesOk(c, files, Firsts(segs), h, "")
    ensures FilesOk(c, RemoveFiles(files, segs, n), Firsts(segs)[n..], Drop(h, n), "")
  {
    hide Lines, Flatten, Tail, RemoveFiles, Ascending;
    var firsts, f1, h1 := Firsts(segs), Firsts(segs)[n..], Drop(h, n);
    var kept := RemoveFiles(files, segs, n);
    forall x: nat ensures x in kept <==> x in f1 { KeptNames(files, segs, n, x); }
    forall i | 0 <= i < |f1| ensures f1[i] in kept && kept[f1[i]] == Lines(c, h1.parts[i]) + Tail(f1, i, "") {
      assert f1[i] == firsts[n + i] && f1[i] in f1;
      KeptContent(files, segs, n, f1[i]);
      NoTail(f1, i, Lines(c, h1.parts[i]));
      NoTail(firsts, n + i, Lines(c, h1.parts[i]));
    }
  }

  lemma KeptContent(files: map<nat, string>, segs: seq<Segment>, n: nat, x: nat)
    requires n <= |segs| && x in RemoveFiles(files, segs, n)
    ensures x in files && RemoveFiles(files, segs, n)[x] == files[x]
  {
  }

  /** How many segments a Compact removes. */
  function Removed(o: Options, m: Memory, consumers: seq<string>, now: Clock): (n: nat)
    requires m.segs != []
    ensures n < |m.segs|
  {
    if o.retention <= 0 || |m.segs| < 2 then 0
    else RemovedCount(m.segs, now - o.retention, MinCursor(m, consumers))
  }

  lemma CompactIDsOnly(m: Memory, d: DiskState, cutoff: int)
    ensures var (m1, d1) := CompactIDs(m, d, cutoff);
      m1.(recentIDs := m.recentIDs) == m && d1.(ingestIDs := d.ingestIDs) == d
  {
  }

  lemma InvIgnoresIDs(c: Codec, m: Memory, d: DiskState, m1: Memory, d1: DiskState, h: History)
    requires Inv(c, m, d, h)
    requires m1.segs == m.segs && m1.number == m.number && m1.committed == m.committed && m1.head == m.head
    requires m1.anchor == m.anchor && m1.watermarks == m.watermarks && d1.files == d.files && d1.manifest == d.manifest
    ensures Inv(c, m1, d1, h)
  {
    hide GoodHistory, SegmentsOk, FilesOk, ManifestOk;
    assert ManifestOf(d1) == ManifestOf(d);
  }

  /** The state a completed Compact leaves, when it removes n > 0 segments. */
  lemma DropKeeps(c: Codec, m: Memory, d: DiskState, h: History, n: nat)
    requires c.Valid() && Inv(c, m, d, h) && n < |m.segs|
    ensures var m1 := m.(segs := m.segs[n..], anchor := AnchorAfter(m.segs, n, m.anchor));
      n <= |h.parts| && Inv(c, m1, WriteManifest(m1, d.(files := RemoveFiles(d.files, m.segs, n))), Drop(h, n))
  {
    hide Codec.Valid, Lines, Flatten, GoodLog, SegmentsOk, FilesOk, ManifestOk, Closed, Timed, Watermarks;
    var firsts := Firsts(m.segs);
    AnchorIsHead(c, m, h, n);
    DropMemory(c, m, h, n, AnchorAfter(m.segs, n, m.anchor));
    DropPlaced(firsts, h, n);
    DropLog(h, n);
    DropFiles(c, d.files, m.segs, h, n);
    var m1 := m.(segs := m.segs[n..], anchor := AnchorAfter(m.segs, n, m.anchor));
    assert Firsts(m1.segs) == firsts[n..];
    WrittenManifestOk(c, m1, d.(files := RemoveFiles(d.files, m.segs, n)), Drop(h, n));
  }

  /** A completed Compact keeps the invariant and the log, the watermarks and the cursors. */
  lemma CompactKeeps(c: Codec, o: Options, m: Memory, d: DiskState, h: History, consumers: seq<string>, now: Clock)
    requires c.Valid() && Inv(c, m, d, h)
    ensures m.segs != [] && Removed(o, m, consumers, now) <= |h.parts|
    ensures var (m1, d1) := Compact(o, m, d, consumers, now); var n := Removed(o, m, consumers, now);
      && Inv(c, m1, d1, Drop(h, n)) && Drop(h, n).Log() == h.Log()
      && m1.segs == m.segs[n..] && m1.cursors == m.cursors && d1.cursors == d.cursors
      && m1.watermarks == m.watermarks && m1.committed == m.committed
      && m1.anchor == HeadOf(c, Drop(h, n).gone, "")
  {
    hide Codec.Valid, Flatten, GoodHistory, DiskOk, CompactIDs, RemovedCount, MinCursor, SegmentsOk;
    assert |m.segs| == |h.parts| > 0 by { MemoryNumber(c, m, h); }
    var n := Removed(o, m, consumers, now);
    DropLog(h, n);
    var (m1, d1) := Compact(o, m, d, consumers, now);
    if n == 0 {
      assert h.parts[..0] == [] && h.parts[0..] == h.parts;
      assert Drop(h, 0) == h by { DropNothing(h); }
      assert AnchorAfter(m.segs, 0, m.anchor) == m.anchor;
      assert m.segs[0..] == m.segs;
      RemoveNothing(d.files, m.segs);
      CompactIDsOnly(m, d, now - o.dedupeWindow);
      CompactIDsOnly(m.(anchor := m.anchor), d.(files := d.files), now - o.dedupeWindow);
      InvIgnoresIDs(c, m, d, m1, d1, h);
    } else {
      DropKeeps(c, m, d, h, n);
      var ma := m.(anchor := AnchorAfter(m.segs, n, m.anchor));
      var da := d.(files := RemoveFiles(d.files, m.segs, n));
      CompactIDsOnly(ma, da, now - o.dedupeWindow);
      var mb := ma.(segs := m.segs[n..]);
      InvIgnoresIDs(c, mb, WriteManifest(mb, da), m1, d1, Drop(h, n));
    }
  }

  /** The anchor is always the digest the first retained record names. */
  lemma AnchorIsPrev(c: Codec, m: Memory, d: DiskState, h: History)
    requires Inv(c, m, d, h) && Retained(h) != []
    ensures Retained(h)[0].prev == m.anchor
  {
    hide Lines, IndexOfLines, Flatten, DiskOk, SegmentsOk, Placed, Closed, Timed, WindowsAdvance, Watermarks;
    var log := h.Log();
    assert log == h.gone + Retained(h);
    assert Linked(c, log, 1, "", |h.gone|);
    assert log[|h.gone|] == Retained(h)[0];
  }

  predicate FirstNames(recs: seq<Record>, anchor: string) { recs != [] ==> recs[0].prev == anchor }

  /** So after a completed Compact the anchor is the prev of the first record still there. */
  lemma CompactAnchors(c: Codec, o: Options, m: Memory, d: DiskState, h: History, consumers: seq<string>, now: Clock)
    requires c.Valid() && Inv(c, m, d, h)
    ensures m.segs != [] && Removed(o, m, consumers, now) <= |h.parts|
    ensures FirstNames(Retained(Drop(h, Removed(o, m, consumers, now))), Compact(o, m, d, consumers, now).0.anchor)
  {
    hide Codec.Valid, Inv, Flatten, Compact, Removed, Retained, HeadOf, Drop;
    CompactKeeps(c, o, m, d, h, consumers, now);
    var (m1, d1) := Compact(o, m, d, consumers, now);
    var h1 := Drop(h, Removed(o, m, consumers, now));
    if Retained(h1) != [] { AnchorIsPrev(c, m1, d1, h1); }
  }

  lemma DropNothing(h: History)
    ensures Drop(h, 0) == h
  {
    assert h.parts[..0] == [];
  }

  lemma RemoveNothing(files: map<nat, string>, segs: seq<Segment>)
    ensures RemoveFiles(files, segs, 0) == files
  {
  }

  /** Everything removed had been read by every listed consumer that has a cursor. */
  lemma RemovedWasRead(c: Codec, o: Options, m: Memory, d: DiskState, h: History, consumers: seq<string>, now: Clock,
                       dest: string)
    requires Inv(c, m, d, h) && dest in consumers
    ensures m.segs != [] && Removed(o, m, consumers, now) <= |h.parts|
    ensures var gone := |Drop(h, Removed(o, m, consumers, now)).gone|;
      gone <= m.committed && (dest in m.cursors ==> |h.gone| == gone || gone <= m.cursors[dest])
  {
    hide Flatten, GoodLog, DiskOk, MinCursor, Closed, Timed, Lines, IndexOfLines, Watermarks;
    assert |m.segs| == |h.parts| > 0 && m.committed == |h.Log()| by { MemoryNumber(c, m, h); }
    var n := Removed(o, m, consumers, now);
    if n == 0 {
      DropNothing(h);
    } else {
      var low := MinCursor(m, consumers);
      assert Expired(m.segs[n - 1], now - o.retention, low);
      InvNumbered(c, m, d, h);
      UpToNext(h, n - 1);
      var part := h.parts[n - 1];
      assert part != [];
      assert m.segs[n - 1].last == part[|part| - 1].number == m.segs[n - 1].first + |part| - 1;
      assert Firsts(m.segs)[n - 1] == |h.UpTo(n - 1)| + 1;
    }
  }

  // ---- what is old enough, and what is not ----

  /** Every listed consumer that has a cursor has read as far as this number. */
  ghost predicate ReadByAll(m: Memory, consumers: seq<string>, number: nat)
  {
    forall dest :: dest in consumers && dest in m.cursors ==> number <= m.cursors[dest]
  }

  lemma {:induction false} LowestIsReadByAll(m: Memory, consumers: seq<string>, number: nat)
    ensures number <= MinCursor(m, consumers) <==> number <= m.committed && ReadByAll(m, consumers, number)
  {
    if consumers != [] {
      var n := |consumers| - 1;
      assert consumers == consumers[..n] + [consumers[n]];
      LowestIsReadByAll(m, consumers[..n], number);
      assert ReadByAll(m, consumers, number) <==>
        ReadByAll(m, consumers[..n], number)
        && (consumers[n] in m.cursors ==> number <= m.cursors[consumers[n]]);
    }
  }

  /** The segment's last record is as old as the retention asks, and every listed consumer has read it. */
  ghost predicate Outlived(o: Options, m: Memory, part: seq<Record>, consumers: seq<string>, now: Clock)
  {
    part != [] ==>
      var r := part[|part| - 1]; r.at <= now - o.retention && ReadByAll(m, consumers, r.number)
  }

  /** A leading stretch of the closed segments goes: those outlived, up to the first that is not. */
  ghost predicate GoesExactly(o: Options, m: Memory, h: History, consumers: seq<string>, now: Clock, n: int)
  {
    && 0 <= n < |h.parts|
    && (o.retention <= 0 ==> n == 0)
    && (forall i :: 0 <= i < n ==> Outlived(o, m, h.parts[i], consumers, now))
    && (o.retention > 0 && n + 1 < |h.parts| ==> !Outlived(o, m, h.parts[n], consumers, now))
  }

  /** What a segment's metadata says of it. */
  lemma OutlivedIsExpired(c: Codec, o: Options, m: Memory, d: DiskState, h: History, consumers: seq<string>, now: Clock,
                          i: nat)
    requires Inv(c, m, d, h) && i < |m.segs| - 1
    ensures |m.segs| == |h.parts|
    ensures Expired(m.segs[i], now - o.retention, MinCursor(m, consumers))
      <==> Outlived(o, m, h.parts[i], consumers, now)
  {
    hide Flatten, GoodLog, DiskOk, MinCursor, Closed, Timed, Lines, IndexOfLines, Watermarks, ReadByAll;
    assert |m.segs| == |h.parts| && m.committed == |h.Log()| by { MemoryNumber(c, m, h); }
    InvNumbered(c, m, d, h);
    var part := h.parts[i];
    assert part != [];
    var r := part[|part| - 1];
    assert Describes(c, m.segs[i], m.segs[i].first, part);
    assert r.number == m.segs[i].first + |part| - 1 <= m.committed;
    LowestIsReadByAll(m, consumers, r.number);
  }

  /** Compact removes exactly the leading closed segments whose last record is older than the retention and read
      by every listed consumer. The first closed one it leaves is too young, or not read by all; and without a
      retention nothing goes. */
  lemma CompactExactly(c: Codec, o: Options, m: Memory, d: DiskState, h: History, consumers: seq<string>, now: Clock)
    requires c.Valid() && Inv(c, m, d, h)
    ensures m.segs != []
    ensures GoesExactly(o, m, h, consumers, now, |m.segs| - |Compact(o, m, d, consumers, now).0.segs|)
  {
    hide Codec.Valid, Inv, Compact, GoesExactly, Expired, Outlived, MinCursor, Removed;
    KeepsTheRest(c, o, m, d, h, consumers, now);
    AllOutlived(c, o, m, d, h, consumers, now);
    RemovesExactly(o, m, h, consumers, now);
  }

  lemma AllOutlived(c: Codec, o: Options, m: Memory, d: DiskState, h: History, consumers: seq<string>, now: Clock)
    requires Inv(c, m, d, h)
    ensures |m.segs| == |h.parts| > 0
    ensures forall i :: 0 <= i < |m.segs| - 1 ==>
      (Expired(m.segs[i], now - o.retention, MinCursor(m, consumers)) <==> Outlived(o, m, h.parts[i], consumers, now))
  {
    hide Inv, Expired, Outlived, MinCursor;
    SegmentsAreParts(c, m, d, h);
    forall i | 0 <= i < |m.segs| - 1
      ensures Expired(m.segs[i], now - o.retention, MinCursor(m, consumers))
        <==> Outlived(o, m, h.parts[i], consumers, now) {
      OutlivedIsExpired(c, o, m, d, h, consumers, now, i);
    }
  }

  lemma KeepsTheRest(c: Codec, o: Options, m: Memory, d: DiskState, h: History, consumers: seq<string>, now: Clock)
    requires c.Valid() && Inv(c, m, d, h)
    ensures m.segs != []
    ensures |Compact(o, m, d, consumers, now).0.segs| == |m.segs| - Removed(o, m, consumers, now)
  {
    hide Codec.Valid, Inv, Compact, Removed, Drop, HeadOf;
    CompactKeeps(c, o, m, d, h, consumers, now);
  }

  lemma RemovesExactly(o: Options, m: Memory, h: History, consumers: seq<string>, now: Clock)
    requires |m.segs| == |h.parts| > 0
    requires forall i :: 0 <= i < |m.segs| - 1 ==>
      (Expired(m.segs[i], now - o.retention, MinCursor(m, consumers)) <==> Outlived(o, m, h.parts[i], consumers, now))
    ensures GoesExactly(o, m, h, consumers, now, Removed(o, m, consumers, now))
  {
    hide Expired, Outlived, MinCursor;
  }

  lemma SegmentsAreParts(c: Codec, m: Memory, d: DiskState, h: History)
    requires Inv(c, m, d, h)
    ensures |m.segs| == |h.parts| > 0
  {
    hide GoodHistory, DiskOk;
    MemoryNumber(c, m, h);
  }

  /** When append times never decrease, no record younger than the retention goes. */
  lemma NothingYoungGoes(c: Codec, o: Options, m: Memory, d: DiskState, h: History, consumers: seq<string>, now: Clock,
                         k: nat)
    requires c.Valid() && Inv(c, m, d, h) && TimesAscend(h.Log())
    ensures m.segs != [] && Removed(o, m, consumers, now) <= |h.parts|
    ensures |h.gone| <= k < |Drop(h, Removed(o, m, consumers, now)).gone| ==>
      k < |h.Log()| && h.Log()[k].at <= now - o.retention && ReadByAll(m, consumers, h.Log()[k].number)
  {
    hide Codec.Valid, Inv, Compact, Flatten, Removed, ReadByAll, Drop;
    CompactKeeps(c, o, m, d, h, consumers, now);
    CompactExactly(c, o, m, d, h, consumers, now);
    var n := Removed(o, m, consumers, now);
    if |h.gone| <= k < |Drop(h, n).gone| {
      DropGone(h, n);
      LastGone(c, m, d, h, n);
      var last := |h.UpTo(n)| - 1;
      InvNumbered(c, m, d, h);
      NumberAt(h.Log(), k);
      NumberAt(h.Log(), last);
      assert Outlived(o, m, h.parts[n - 1], consumers, now);
      ReadEarlier(m, consumers, h.Log()[k].number, h.Log()[last].number);
    }
  }

  lemma DropGone(h: History, n: nat)
    requires n <= |h.parts|
    ensures Drop(h, n).gone == h.UpTo(n)
  {
  }

  lemma NumberAt(log: seq<Record>, k: nat)
    requires NumberedFrom(log, 1) && k < |log|
    ensures log[k].number == k + 1
  {
  }

  lemma ReadEarlier(m: Memory, consumers: seq<string>, a: nat, b: nat)
    requires ReadByAll(m, consumers, b) && a <= b
    ensures ReadByAll(m, consumers, a)
  {
  }

  /** The last record of the first n segments ends the n-th. */
  lemma LastGone(c: Codec, m: Memory, d: DiskState, h: History, n: nat)
    requires Inv(c, m, d, h) && n < |h.parts| && |h.UpTo(n)| > |h.gone|
    ensures n > 0 && h.parts[n - 1] != [] && |h.UpTo(n)| <= |h.Log()|
    ensures h.Log()[|h.UpTo(n)| - 1] == h.parts[n - 1][|h.parts[n - 1]| - 1]
  {
    hide Flatten, GoodLog, DiskOk, MemoryOk, Closed, Timed;
    if n == 0 {
      NothingUpTo(h);
    } else {
      UpToNext(h, n - 1);
    }
  }

  lemma NothingUpTo(h: History)
    ensures h.UpTo(0) == h.gone
  {
    assert h.parts[..0] == [];
  }

  /** Compact forgets exactly the remembered IDs older than the dedupe window; when there are any, the file is
      rewritten with those left, and otherwise not touched. */
  lemma CompactForgets(o: Options, m: Memory, d: DiskState, consumers: seq<string>, now: Clock, id: string)
    requires m.segs != []
    ensures var (m1, d1) := Compact(o, m, d, consumers, now);
      && (id in m1.recentIDs <==> id in m.recentIDs && m.recentIDs[id] >= now - o.dedupeWindow)
      && (id in m1.recentIDs ==> m1.recentIDs[id] == m.recentIDs[id])
      && (m1.recentIDs == m.recentIDs ==> d1.ingestIDs == d.ingestIDs)
      && (m1.recentIDs != m.recentIDs ==>
            && (id in d1.ingestIDs <==> id in m1.recentIDs)
            && (id in m1.recentIDs ==> d1.ingestIDs[id] == m1.recentIDs[id] / SECOND))
  {
    hide RemovedCount, AnchorAfter, RemoveFiles, StoredSegments, MinCursor;
  }

  /** The main result on compaction: no listed consumer's next read changes, for any batch size. */
  lemma CompactIsInvisible(c: Codec, o: Options, m: Memory, d: DiskState, h: History, consumers: seq<string>,
                           now: Clock, dest: string, max: int)
    requires c.Valid() && Inv(c, m, d, h) && dest in consumers
    ensures m.segs != []
    ensures var (m1, d1) := Compact(o, m, d, consumers, now);
      var cursor := if dest in m.cursors then m.cursors[dest] else m.committed;
      Read(c, m1, d1, cursor, max) == Read(c, m, d, cursor, max)
  {
    hide Codec.Valid, Inv, Flatten, Compact, Read, Removed;
    CompactKeeps(c, o, m, d, h, consumers, now);
    RemovedWasRead(c, o, m, d, h, consumers, now, dest);
    var (m1, d1) := Compact(o, m, d, consumers, now);
    var cursor := if dest in m.cursors then m.cursors[dest] else m.committed;
    var h1 := Drop(h, Removed(o, m, consumers, now));
    InvCommitted(c, m, d, h);
    ReadIsNaive(c, m, d, h, cursor, max);
    ReadIsNaive(c, m1, d1, h1, cursor, max);
  }
}
