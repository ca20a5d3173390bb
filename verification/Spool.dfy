/** The spool as the program runs it: an object updating its fields and the files on disk, loop by
    loop. Every method is proved against the functions of SpoolModel, SpoolReads and SpoolVerify. */
module SpoolObject {
  import opened Text
  import opened Usage
  import opened Ledger
  import opened Segments
  import opened SpoolModel
  import opened SpoolInvariant
  import opened SpoolRecovery
  import opened SpoolSteps
  import opened SpoolReads
  import opened SpoolVerify
  import opened SpoolCompact
  import SpoolRuns

  /** The spool directory. */
  class Disk {
    var files: map<nat, string>
    var manifest: Option<Manifest>
    var cursors: Option<map<string, nat>>
    var ingestIDs: map<string, nat>

    constructor ()
      ensures State() == SpoolRuns.EMPTY_DISK
    {
      files, manifest, cursors, ingestIDs := map[], None, None, map[];
    }

    function State(): DiskState
      reads this
    {
      DiskState(files, manifest, cursors, ingestIDs)
    }

    /** The segment names in order, as os.ReadDir and sort.Strings give them. */
    method ReadDir() returns (names: seq<nat>)
      ensures names == Listing(files.Keys)
    {
      names := [];
      var rest := files.Keys;
      while rest != {}
        invariant names + Listing(rest) == Listing(files.Keys)
        decreases rest
      {
        var x :| x in rest;
        var least := Least(rest, 0, x);
        names := names + [least];
        rest := rest - {least};
      }
    }
  }

  // ---- loops over bytes ----

  /** scanSegment's loop. */
  method ScanLines(codec: Codec, data: string, first: nat, newest: bool) returns (out: ScanOutcome)
    ensures out == ScanFrom(codec, data, first, newest, SCAN_START)
  {
    hide ParseLine, IndexOf, Absorb;
    var st := SCAN_START;
    while true
      invariant st.goodEnd <= st.off <= |data|
      invariant ScanFrom(codec, data, first, newest, st) == ScanFrom(codec, data, first, newest, SCAN_START)
      decreases |data| - st.off
    {
      var nl := IndexOf(data, '\n', st.off);
      if st.off == |data| { return Scanned(st); }
      if nl == |data| {
        // Bytes behind the last newline belong to no record.
        if newest { return Scanned(st); } else { return TornClosed; }
      }
      var p := ParseLine(codec, data[st.off..nl]);
      if p.None? { return Corrupt(st.off); }
      AbsorbAdvances(st, p.value, first, nl + 1 - st.off);
      st := Absorb(st, p.value, first, nl + 1 - st.off);
    }
  }

  /** The sparse index's answer: where to seek to. */
  method Seek(index: seq<Offset>, from: nat) returns (start: nat)
    ensures start == StartOffset(index, from, 0)
  {
    start := 0;
    var i := 0;
    while i < |index|
      invariant i <= |index|
      invariant StartOffset(index[i..], from, start) == StartOffset(index, from, 0)
    {
      if index[i].number > from { return; }
      start := index[i].off;
      assert index[i..][1..] == index[i + 1..];
      i := i + 1;
    }
  }

  /** readSegmentOpts' loop; the callback keeps records until it has `limit` of them. */
  method StreamLines(codec: Codec, data: string, start: nat, from: nat, upto: nat, verify: bool,
                     keep: string -> bool, limit: Option<nat>, collected: seq<Record>)
                         returns (out: Option<seq<Record>>)
    requires start <= |data|
    ensures out == ReadLines(codec, data, start, from, upto, verify, keep, limit, collected)
  {
    var off, got := start, collected;
    while true
      invariant off <= |data|
      invariant ReadLines(codec, data, off, from, upto, verify, keep, limit, got)
                == ReadLines(codec, data, start, from, upto, verify, keep, limit, collected)
      decreases |data| - off
    {
      var nl := IndexOf(data, '\n', off);
      if nl == |data| { return Some(got); }
      var text := data[off..nl];
      var peeked := PeekSeq(text);
      off := nl + 1;
      if peeked.Some? && peeked.value < from { continue; }
      if peeked.Some? && peeked.value > upto { return Some(got); }
      if !keep(text) { continue; }
      var p := Parse(codec, text, verify);
      if p.None? { return None; }
      if p.value.rec.number > upto { return Some(got); }
      if p.value.rec.number < from { continue; }
      got := got + [p.value.rec];
      if limit.Some? && |got| >= limit.value { return Some(got); }
    }
  }

  /** Verify's loop over one file. */
  method CheckLines(codec: Codec, data: string, name: nat, committed: nat, start: VerifyState) returns (st: VerifyState)
    ensures st == VerifyLines(codec, data, 0, name, committed, start)
  {
    st := start;
    var off := 0;
    while true
      invariant off <= |data|
      invariant VerifyLines(codec, data, off, name, committed, st)
          == VerifyLines(codec, data, 0, name, committed, start)
      decreases |data| - off
    {
      var nl := IndexOf(data, '\n', off);
      if nl == |data| { return; }
      var p := ParseLine(codec, data[off..nl]);
      if p.None? {
        st := st.Fail(BadLine(name));
      } else {
        if p.value.rec.number > committed { return; }
        st := CheckLink(st, p.value);
      }
      off := nl + 1;
    }
  }

  /** sort.Search over the segments, by halving. */
  method SearchSegments(segs: seq<Segment>, after: nat) returns (k: nat)
    requires forall i, j :: 0 <= i < j < |segs| && (segs[i].last == 0 || segs[i].last > after)
                            ==> segs[j].last == 0 || segs[j].last > after
    ensures k == FirstLive(segs, after, 0)
  {
    var lo, hi := 0, |segs|;
    while lo < hi
      invariant lo <= hi <= |segs|
      invariant forall i :: 0 <= i < lo ==> segs[i].last != 0 && segs[i].last <= after
      invariant forall i :: hi <= i < |segs| ==> segs[i].last == 0 || segs[i].last > after
    {
      var mid := (lo + hi) / 2;
      if segs[mid].last == 0 || segs[mid].last > after { hi := mid; } else { lo := mid + 1; }
    }
    k := lo;
    FirstLiveIs(segs, after, 0, k);
  }

  lemma AbsorbAdvances(st: ScanState, p: Parsed, first: nat, len: nat)
    requires st.goodEnd <= st.off
    ensures Absorb(st, p, first, len).goodEnd <= Absorb(st, p, first, len).off == st.off + len
  {
  }

  lemma ConcludeInside(st: ScanState, size: nat, first: nat, newest: bool)
    requires st.goodEnd <= st.off <= size
    ensures Conclude(st, size, first, newest).size <= size
  {
  }

  lemma {:induction false} FirstLiveIs(segs: seq<Segment>, after: nat, i: nat, k: nat)
    requires i <= k <= |segs|
    requires forall j :: i <= j < k ==> segs[j].last != 0 && segs[j].last <= after
    requires k < |segs| ==> segs[k].last == 0 || segs[k].last > after
    ensures FirstLive(segs, after, i) == k
    decreases k - i
  {
    if i < k { FirstLiveIs(segs, after, i + 1, k); }
  }

  /** A segment's last number is that of its last record, and the next segments start after it. */
  lemma LastsBounded(c: Codec, m: Memory, d: DiskState, h: History, i: nat, j: nat)
    requires Inv(c, m, d, h) && i < j < |m.segs|
    ensures (m.segs[i].last == 0 || m.segs[i].last < m.segs[j].first)
      && (m.segs[j].last == 0 || m.segs[j].last >= m.segs[j].first)
    ensures m.segs[i].last == 0 ==> m.segs[j].last == 0
  {
    hide Lines, IndexOfLines, Flatten, Watermarks, GoodLog, DiskOk, Closed, Timed;
    InvNumbered(c, m, d, h);
    assert Describes(c, m.segs[i], m.segs[i].first, h.parts[i]) && Describes(c, m.segs[j], m.segs[j].first, h.parts[j]);
    assert Firsts(m.segs)[i] == m.segs[i].first && Firsts(m.segs)[j] == m.segs[j].first;
    UpToShorter(h, i + 1, j);
    UpToNext(h, i);
  }

  /** The closed segments' last numbers rise, so the search predicate is monotonic. */
  lemma LastsRise(c: Codec, m: Memory, d: DiskState, h: History, after: nat)
    requires Inv(c, m, d, h)
    ensures forall i, j :: 0 <= i < j < |m.segs| && (m.segs[i].last == 0 || m.segs[i].last > after)
                           ==> m.segs[j].last == 0 || m.segs[j].last > after
  {
    hide Inv;
    forall i, j | 0 <= i < j < |m.segs| && (m.segs[i].last == 0 || m.segs[i].last > after)
      ensures m.segs[j].last == 0 || m.segs[j].last > after
    {
      LastsBounded(c, m, d, h, i, j);
    }
  }

  // ---- the spool ----

  class Spool {
    const codec: Codec
    const opts: Options
    const disk: Disk

    var segs: seq<Segment>
    var number: nat
    var committed: nat
    var head: string
    var anchor: string
    var watermarks: map<string, Time>
    var cursors: map<string, nat>
    var recentIDs: map<string, Time>
    var closed: bool

    /** The records committed so far, by segment. */
    ghost var history: History

    function View(): Memory
      reads this
    {
      Memory(segs, number, committed, head, anchor, watermarks, cursors, recentIDs)
    }

    ghost predicate Valid()
      reads this, disk
    {
      codec.Valid() && Inv(codec, View(), disk.State(), history)
    }

    constructor (codec: Codec, opts: Options, disk: Disk)
      ensures this.codec == codec && this.opts == Defaults(opts) && this.disk == disk
      ensures View() == Memory([], 0, 0, "", "", map[], map[], map[]) && !closed
    {
      this.codec, this.opts, this.disk := codec, Defaults(opts), disk;
      segs, number, committed, head, anchor := [], 0, 0, "", "";
      watermarks, cursors, recentIDs, closed := map[], map[], map[], false;
    }

    /** Open: recovers whatever the directory holds, or refuses it. A directory that holds the log h, with
        at most part of an unfinished batch behind it, opens as a valid spool of h; so does a new one. */
    static method Open(codec: Codec, opts: Options, disk: Disk, now: Clock, ghost h: History) returns (s: Option<Spool>)
      modifies disk
      ensures codec.Valid() && Holds(codec, old(disk.State()), h) ==> s.Some? && s.value.Valid() && s.value.history == h
      ensures s.None? <==> SpoolModel.Open(codec, Defaults(opts), old(disk.State()), now).None?
      ensures s.Some? ==>
        && fresh(s.value) && s.value.codec == codec && s.value.opts == Defaults(opts) && s.value.disk == disk
            && !s.value.closed
        && SpoolModel.Open(codec, Defaults(opts), old(disk.State()), now) == Some((s.value.View(), disk.State()))
    {
      hide RecoverFrom, Assemble, TipOf, Holds, Inv;
      var sp := new Spool(codec, opts, disk);
      if codec.Valid() && Holds(codec, disk.State(), h) { OpensAs(codec, sp.opts, disk.State(), h, now); }
      var ok := sp.Recover();
      if !ok { return None; }
      sp.Load(now, old(disk.State()));
      sp.history := h;
      return Some(sp);
    }

    /** recover: the manifest, the segment files in order, then the tip. */
    method Recover() returns (ok: bool)
      requires View() == Memory([], 0, 0, "", "", map[], map[], map[])
      modifies this, disk`files
      ensures closed == old(closed) && cursors == map[] && recentIDs == map[]
      ensures ok <==> Recovered(codec, old(disk.State())).Some?
      ensures ok ==> Recovered(codec, old(disk.State())) == Some(Recovery(segs, watermarks, disk.files))
      ensures ok ==>
        anchor == ManifestOf(old(disk.State())).anchor && (number, head) == TipOf(segs, anchor) && committed == number
    {
      var man := if disk.manifest.Some? then disk.manifest.value else NO_MANIFEST;
      watermarks, anchor := man.watermarks, man.anchor;
      var names := disk.ReadDir();
      ListingMembers(disk.files.Keys);
      ok := ReadSegments(man.segments, names);
      if ok { SetTip(); }
    }

    /** The loop over the segment files: metadata from the manifest, or from reading the file. */
    method ReadSegments(known: seq<Segment>, names: seq<nat>) returns (ok: bool)
      requires forall j :: 0 <= j < |names| ==> names[j] in disk.files
      modifies this`segs, this`watermarks, disk`files
      ensures var out := RecoverFrom(codec, known, names, 0, Recovery(old(segs), old(watermarks), old(disk.files)));
        && (ok <==> out.Some?)
        && (ok ==> out.value == Recovery(segs, watermarks, disk.files))
    {
      hide ScanFrom, Conclude, Raise, Known;
      ghost var r0 := Recovery(segs, watermarks, disk.files);
      var i := 0;
      while i < |names|
        invariant i <= |names|
        invariant forall j :: 0 <= j < |names| ==> names[j] in disk.files
        invariant RecoverFrom(codec, known, names, i, Recovery(segs, watermarks, disk.files))
            == RecoverFrom(codec, known, names, 0, r0)
      {
        var first := names[i];
        var newest := i == |names| - 1;
        var data := disk.files[first];
        var sg := Known(known, first);
        if sg.Some? && !newest && sg.value.size == |data| {
          segs := segs + [sg.value];
        } else {
          var out := ScanLines(codec, data, first, newest);
          if !out.Scanned? { return false; }
          var read := Conclude(out.st, |data|, first, newest);
          ConcludeInside(out.st, |data|, first, newest);
          segs := segs + [read];
          watermarks := Raise(watermarks, out.st.pending);
          // Only what lies before the last commit stays.
          disk.files := disk.files[first := data[..read.size]];
        }
        i := i + 1;
      }
      return true;
    }

    /** Where the log ends. */
    method SetTip()
      modifies this`number, this`head, this`committed
      ensures (number, head) == TipOf(segs, anchor) && committed == number
    {
      number, head := 0, "";
      var i := |segs|;
      assert segs[..i] == segs;
      while i > 0 && segs[i - 1].last == 0
        invariant 0 <= i <= |segs|
        invariant LastNonEmpty(segs[..i]) == LastNonEmpty(segs)
      {
        assert segs[..i][..i - 1] == segs[..i - 1];
        i := i - 1;
      }
      if i > 0 {
        number, head := segs[i - 1].last, segs[i - 1].lastHash;
      } else if |segs| > 0 {
        // No record is left to number on from, so the name of the active file tells.
        number, head := if segs[|segs| - 1].first > 0 then segs[|segs| - 1].first - 1 else 0, anchor;
      }
      committed := number;
    }

    /** loadCursors, loadDedupe and openActive. */
    method Load(now: Clock, ghost d: DiskState)
      requires (number, head) == TipOf(segs, anchor) && committed == number
      requires disk.manifest == d.manifest && disk.cursors == d.cursors && disk.ingestIDs == d.ingestIDs
      modifies this`cursors, this`recentIDs, this`segs, disk`ingestIDs, disk`files
      ensures (View(), disk.State()) == Assemble(opts, d, anchor, Recovery(old(segs), watermarks, old(disk.files)), now)
    {
      hide TipOf, Remembered, ClampCursors;
      cursors := ClampCursors(disk.cursors, committed);
      disk.ingestIDs := Remembered(disk.ingestIDs, now - opts.dedupeWindow);
      recentIDs := map id | id in disk.ingestIDs :: disk.ingestIDs[id] * SECOND;
      if |segs| == 0 { segs := [EmptySegment(number + 1)]; }
      var active := segs[|segs| - 1].first;
      if active !in disk.files { disk.files := disk.files[active := ""]; }
    }

    // ---- appending ----

    method WriteManifest()
      requires segs != []
      modifies disk`manifest
      ensures disk.State() == SpoolModel.WriteManifest(View(), old(disk.State()))
    {
      var listed := [];
      var i := 0;
      while i < |segs| - 1
        invariant i <= |segs| - 1
        invariant listed == StoredSegments(segs[..i])
      {
        listed := listed + [StoredSegment(segs[i])];
        i := i + 1;
        assert segs[..i][..i - 1] == segs[..i - 1];
      }
      disk.manifest := Some(Manifest(listed, watermarks, anchor));
    }

    method MaybeRotate(now: Clock)
      requires segs != []
      modifies this`segs, disk`files, disk`manifest
      ensures (View(), disk.State()) == Rotate(opts, old(View()), old(disk.State()), now)
    {
      var sg := segs[|segs| - 1];
      if sg.last == 0 { return; }
      if sg.last - sg.first + 1 < opts.maxRecords && now - sg.firstAt < opts.maxAge { return; }
      var first := number + 1;
      segs := segs + [EmptySegment(first)];
      if first !in disk.files { disk.files := disk.files[first := ""]; }
      WriteManifest();
    }

    /** One buffer for the whole batch, one write; then the metadata follows. */
    method WriteBatch(q: Request)
      requires Writable(View(), disk.State())
      modifies this, disk`files
      ensures (View(), disk.State()) == SpoolModel.WriteBatch(codec, old(View()), old(disk.State()), q)
      ensures closed == old(closed) && history == old(history)
    {
      hide Lines, NewEntries, Batch;
      var n := |segs| - 1;
      var sg := segs[n];
      var recs, text, index := EncodeBatch(sg, number, head, q.at, RequestPayloads(q));
      disk.files := disk.files[sg.first := disk.files[sg.first] + text];
      var r := recs[|recs| - 1];
      segs := segs[n := Segment(sg.first, r.number, if sg.last == 0 then q.at else sg.firstAt, q.at, codec.Digest(r),
                                sg.size + |text|, sg.index + index)];
      number, head, committed := r.number, codec.Digest(r), r.number;
      if q.windowEnd != 0 { watermarks := watermarks[q.source := q.windowEnd]; }
    }

    /** appendLocked. writeFails stands for a failed write or fsync, after which the file is truncated back. */
    method AppendLocked(q: Request, writeFails: bool) returns (ok: bool)
      requires Valid() && WindowAccepted(View(), q.source, q.windowEnd)
      modifies this, disk
      ensures Valid() && ok == !writeFails
      ensures old(Writable(View(), disk.State()))
        && (View(), disk.State()) == SpoolModel.AppendLocked(codec, opts, old(View()), old(disk.State()), q, writeFails)
      ensures history.Log() == old(history).Log() + Appended(codec, old(View()), q, writeFails)
      ensures closed == old(closed)
    {
      hide Inv, Rotate, SpoolModel.WriteBatch, AppendedHistory, Appended, Flatten;
      ghost var m0, d0, h0 := View(), disk.State(), history;
      AppendKeeps(codec, opts, m0, d0, h0, q, writeFails);
      RotateKeeps(codec, opts, m0, d0, h0, q.rotateAt);
      MaybeRotate(q.rotateAt);
      if !writeFails { WriteBatch(q); }
      history := AppendedHistory(codec, opts, m0, h0, q, writeFails);
      return !writeFails;
    }

    /** The write loop: numbers, chains, indexes and concatenates the records of a batch. */
    method EncodeBatch(sg: Segment, last: nat, prev: string, at: Time, payloads: seq<Payload>)
        returns (recs: seq<Record>, text: string, index: seq<Offset>)
      ensures recs == Batch(codec, last, prev, at, payloads)
      ensures text == Lines(codec, recs)
      ensures index == NewEntries(codec, sg.first, sg.size, recs)
    {
      recs, text, index := [], "", [];
      var number, head := last, prev;
      var i := 0;
      while i < |payloads|
        invariant i <= |payloads|
        invariant recs == Batch(codec, last, prev, at, payloads[..i])
        invariant text == Lines(codec, recs) && index == NewEntries(codec, sg.first, sg.size, recs)
        invariant number == last + i && head == HeadOf(codec, recs, prev)
      {
        number := number + 1;
        var rec := Record(number, at, head, payloads[i]);
        head := codec.Digest(rec);
        index := index + IndexEntry(sg.first, number, sg.size + |text|);
        text := text + codec.Line(rec);
        assert payloads[..i + 1][..i] == payloads[..i];
        assert (recs + [rec])[..i] == recs;
        recs := recs + [rec];
        i := i + 1;
      }
      assert payloads[..i] == payloads;
    }

    /** AppendWindow: false when the spool is closed, the window is not after the watermark, or the write fails. */
    method AppendWindow(q: Request, writeFails: bool) returns (ok: bool)
      requires Valid()
      modifies this, disk
      ensures Valid() && closed == old(closed)
      ensures ok <==> !closed && !writeFails && old(WindowAccepted(View(), q.source, q.windowEnd))
      ensures history.Log() == old(history).Log() + if ok then NewRecords(codec, old(View()), q) else []
      ensures !old(closed) && old(WindowAccepted(View(), q.source, q.windowEnd)) ==>
        old(Writable(View(), disk.State()))
        && (View(), disk.State()) == SpoolModel.AppendLocked(codec, opts, old(View()), old(disk.State()), q, writeFails)
      ensures old(closed) || !old(WindowAccepted(View(), q.source, q.windowEnd)) ==>
        (View(), disk.State()) == old((View(), disk.State()))
    {
      hide Inv;
      assert history.Log() + [] == history.Log();
      if closed { return false; }
      if q.windowEnd != 0 && q.source in watermarks && q.windowEnd <= watermarks[q.source] { return false; }
      ok := AppendLocked(q, writeFails);
    }
  
    /** AppendIngest takes each ID once, also within its own batch. */
    method AppendIngest(source: string, events: seq<Event>, now: Clock, rotateAt: Clock, at: Clock, writeFails: bool)
        returns (ok: bool, accepted: seq<string>, duplicates: seq<string>)
      requires Valid()
      modifies this, disk
      ensures Valid() && closed == old(closed)
      ensures old(closed) ==> !ok && (View(), disk.State()) == old((View(), disk.State())) && history == old(history)
      ensures !old(closed) ==>
        && old(Writable(View(), disk.State()))
        && (View(), disk.State()) == SpoolRuns.Ingest(codec, opts, old(View()), old(disk.State()), source, events, now,
            rotateAt, at, writeFails)
        && (ok <==> !writeFails || SpoolRuns.Sift(events, old(recentIDs).Keys).0 == [])
        && history.Log() == old(history).Log() + SpoolRuns.IngestRecords(codec, old(View()), source, events, rotateAt,
            at, writeFails)
        && (ok ==> duplicates == SpoolRuns.Sift(events, old(recentIDs).Keys).1
                   && accepted == EventIDs(SpoolRuns.Sift(events, old(recentIDs).Keys).0))
    {
      hide Inv, SpoolModel.AppendLocked, Appended, Flatten;
      accepted, duplicates := [], [];
      assert history.Log() + [] == history.Log();
      CanWrite(codec, View(), disk.State(), history);
      if closed { return false, [], []; }
      var keep, dups := Sort(events);
      ghost var m0, d0 := View(), disk.State();
      if |keep| == 0 { return true, [], dups; }
      var q := SpoolRuns.IngestRequest(source, keep, rotateAt, at);
      var wrote := AppendLocked(q, writeFails);
      SpoolRuns.AppendKeepsIDs(codec, opts, m0, d0, q, writeFails);
      if !wrote { return false, [], []; }
      ghost var m1, d1, h1 := View(), disk.State(), history;
      recentIDs := recentIDs + map id | id in SpoolRuns.IDs(keep) :: now;
      disk.ingestIDs := disk.ingestIDs + map id | id in SpoolRuns.IDs(keep) :: now / SECOND;
      InvIgnoresIDs(codec, m1, d1, View(), disk.State(), h1);
      return true, EventIDs(keep), dups;
    }

    method Sort(events: seq<Event>) returns (keep: seq<Event>, dups: seq<string>)
      ensures (keep, dups) == SpoolRuns.Sift(events, recentIDs.Keys)
    {
      keep, dups := [], [];
      var i := 0;
      while i < |events|
        invariant i <= |events|
        invariant (keep, dups) == SpoolRuns.Sift(events[..i], recentIDs.Keys)
      {
        var ev := events[i];
        assert events[..i + 1][..i] == events[..i];
        if ev.id in recentIDs || exists k :: 0 <= k < |keep| && keep[k].id == ev.id {
          dups := dups + [ev.id];
        } else {
          keep := keep + [ev];
        }
        i := i + 1;
      }
      assert events[..i] == events;
    }

    // ---- reading ----

    method ReadSegmentOpts(sg: Segment, from: nat, upto: nat, verify: bool, keep: string -> bool, limit: Option<nat>,
                           got: seq<Record>) returns (out: Option<seq<Record>>)
      ensures out == ReadSegment(codec, disk.files, sg, from, upto, verify, keep, limit, got)
    {
      if sg.last == 0 || sg.last < from || sg.first > upto { return Some(got); }
      if sg.first !in disk.files { return None; }
      var data := disk.files[sg.first];
      var start := Seek(sg.index, from);
      if start > |data| { return Some(got); }
      out := StreamLines(codec, data, start, from, upto, verify, keep, limit, got);
    }

    /** Read: the first max retained records past `after`, in order and without a gap. */
    method Read(after: nat, max: int) returns (out: Option<seq<Record>>)
      requires Valid()
      ensures out == Some(Take(Newer(Retained(history), after), if max < 0 then 0 else max))
      ensures Newer(Retained(history), after) == history.Log()[SpoolRuns.FirstUnread(history.Log(), |history.gone|,
          after)..]
    {
      hide Inv, Flatten, Newer, Take;
      ReadIsNaive(codec, View(), disk.State(), history, after, max);
      if after >= committed || max <= 0 { return Some([]); }
      LastsRise(codec, View(), disk.State(), history, after);
      var i := SearchSegments(segs, after);
      var got: seq<Record> := [];
      ghost var k := i;
      while i < |segs| && |got| < max
        invariant i <= |segs|
        invariant SpoolReads.ReadSegments(codec, disk.files, segs, i, after + 1, committed, max, got)
                  == SpoolReads.ReadSegments(codec, disk.files, segs, k, after + 1, committed, max, [])
      {
        var more := ReadSegmentOpts(segs[i], after + 1, committed, true, KEEP_ALL, Some(max), got);
        if more.None? { return None; }
        got := more.value;
        i := i + 1;
      }
      return Some(got);
    }

    /** Scan, collecting what the callback is given. */
    method Scan(from: Time, to: Time) returns (out: Option<seq<Event>>)
      requires Valid()
      ensures out == SpoolReads.Scan(codec, View(), disk.State(), from, to)
      ensures Prompt(Retained(history)) ==> out == Some(Visited(Retained(history), from, to))
    {
      hide Inv, Flatten, Prompt, Visited, Skipped;
      if Prompt(Retained(history)) { ScanIsFilter(codec, View(), disk.State(), history, from, to); }
      var got: seq<Event> := [];
      var i := 0;
      while i < |segs|
        invariant i <= |segs|
        invariant ScanSegments(codec, disk.files, segs, i, committed, from, to, got)
                  == SpoolReads.Scan(codec, View(), disk.State(), from, to)
      {
        if !Skipped(segs[i], from) {
          var recs := ReadSegmentOpts(segs[i], segs[i].first, committed, false, InRange(codec, from, to), None, []);
          if recs.None? { return None; }
          got := got + Visited(recs.value, from, to);
        }
        i := i + 1;
      }
      return Some(got);
    }

    /** Verify: on a valid spool the report is clean and ends at the head. */
    method Verify() returns (rep: VerifyState)
      ensures rep == SpoolVerify.Verify(codec, View(), disk.State())
      ensures Valid() ==> rep.Ok() && rep.prev == head && rep.records == |Retained(history)|
    {
      hide Inv, Flatten, VerifyLines;
      if Valid() { ReachablePasses(codec, View(), disk.State(), history); }
      rep := VerifyStart(anchor);
      var i := 0;
      while i < |segs|
        invariant i <= |segs|
        invariant VerifySegments(codec, disk.files, segs, i, committed, rep)
            == SpoolVerify.Verify(codec, View(), disk.State())
      {
        var first := segs[i].first;
        if first !in disk.files {
          rep := rep.Fail(Unreadable(first));
        } else {
          rep := CheckLines(codec, disk.files[first], first, committed, rep);
        }
        i := i + 1;
      }
    }

    // ---- cursors ----

    method WriteCursors(writeFails: bool) returns (ok: bool)
      modifies disk`cursors
      ensures ok == !writeFails
      ensures disk.cursors == if writeFails then old(disk.cursors) else Some(cursors)
    {
      if !writeFails { disk.cursors := Some(cursors); }
      return !writeFails;
    }

    /** A destination's cursor; a new destination starts at the end of the log. A failed write goes unnoticed. */
    method Cursor(dest: string, writeFails: bool) returns (at: nat)
      requires Valid()
      modifies this`cursors, disk`cursors
      ensures Valid() && (View(), disk.State()) == TakeCursor(old(View()), old(disk.State()), dest, writeFails)
      ensures at == if dest in old(cursors) then old(cursors)[dest] else committed
      ensures dest in cursors && cursors[dest] == at
    {
      hide Inv;
      ghost var m0, d0 := View(), disk.State();
      if dest in cursors { return cursors[dest]; }
      cursors := cursors[dest := committed];
      var _ := WriteCursors(writeFails);
      InvIgnoresIDs(codec, m0, d0, View(), disk.State(), history);
      return committed;
    }

    method SetCursor(dest: string, to: nat, writeFails: bool) returns (ok: bool)
      requires Valid()
      modifies this`cursors, disk`cursors
      ensures Valid() && (View(), disk.State())
          == SpoolModel.SetCursor(old(View()), old(disk.State()), dest, to, writeFails)
      ensures ok == !writeFails
    {
      hide Inv;
      ghost var m0, d0 := View(), disk.State();
      cursors := cursors[dest := if to > committed then committed else to];
      ok := WriteCursors(writeFails);
      InvIgnoresIDs(codec, m0, d0, View(), disk.State(), history);
    }

    /** Ack never moves a cursor back. When the write fails the cursor has moved in memory all the same. */
    method Ack(dest: string, upto: nat, writeFails: bool) returns (ok: bool)
      requires Valid()
      modifies this`cursors, disk`cursors
      ensures Valid() && (View(), disk.State())
          == SpoolModel.Ack(old(View()), old(disk.State()), dest, upto, writeFails)
      ensures ok <==> (writeFails ==> cursors == old(cursors))
    {
      hide Inv;
      ghost var m0, d0 := View(), disk.State();
      if upto <= (if dest in cursors then cursors[dest] else 0) { return true; }
      cursors := cursors[dest := upto];
      ok := WriteCursors(writeFails);
      InvIgnoresIDs(codec, m0, d0, View(), disk.State(), history);
      assert cursors[dest] == upto;
    }

    // ---- retention ----

    method LowestCursor(consumers: seq<string>) returns (low: nat)
      ensures low == MinCursor(View(), consumers)
    {
      low := committed;
      var i := 0;
      while i < |consumers|
        invariant i <= |consumers|
        invariant low == MinCursor(View(), consumers[..i])
      {
        assert consumers[..i + 1][..i] == consumers[..i];
        var cur := if consumers[i] in cursors then cursors[consumers[i]] else committed;
        if cur < low { low := cur; }
        i := i + 1;
      }
      assert consumers[..i] == consumers;
    }

    /** Compact, run to completion. */
    method Compact(consumers: seq<string>, now: Clock) returns (removed: nat)
      requires Valid()
      modifies this, disk
      ensures Valid() && closed == old(closed) && history.Log() == old(history).Log()
      ensures old(segs) != [] && (View(), disk.State())
          == SpoolModel.Compact(opts, old(View()), old(disk.State()), consumers, now)
      ensures removed == Removed(opts, old(View()), consumers, now)
      ensures GoesExactly(opts, old(View()), old(history), consumers, now, removed)
      ensures history == Drop(old(history), removed)
    {
      hide Inv, Flatten, Drop, Removed, SpoolModel.Compact, Outlived;
      ghost var m0, d0, h0 := View(), disk.State(), history;
      CompactKeeps(codec, opts, m0, d0, h0, consumers, now);
      CompactExactly(codec, opts, m0, d0, h0, consumers, now);
      removed := RemoveExpired(consumers, now);
      history := Drop(h0, Removed(opts, m0, consumers, now));
    }

    /** Removes leading closed segments, moves the anchor, prunes remembered IDs, rewrites the manifest. */
    method RemoveExpired(consumers: seq<string>, now: Clock) returns (removed: nat)
      requires segs != []
      modifies this`segs, this`anchor, this`recentIDs, disk
      ensures (View(), disk.State()) == SpoolModel.Compact(opts, old(View()), old(disk.State()), consumers, now)
      ensures removed == Removed(opts, old(View()), consumers, now)
    {
      hide CompactIDs, RemovedCount, MinCursor, AnchorAfter, RemoveFiles, StoredSegments;
      removed := 0;
      if opts.retention <= 0 || |segs| < 2 {
        PruneIDs(now - opts.dedupeWindow);
        return;
      }
      var low := LowestCursor(consumers);
      removed := RemoveSegments(now - opts.retention, low);
      PruneIDs(now - opts.dedupeWindow);
      if removed > 0 {
        segs := segs[removed..];
        WriteManifest();
      }
    }

    /** The removal loop: stops at the first closed segment still wanted. */
    method RemoveSegments(cutoff: int, low: nat) returns (removed: nat)
      requires |segs| >= 2
      modifies this`anchor, disk`files
      ensures removed == RemovedCount(segs, cutoff, low)
      ensures anchor == AnchorAfter(segs, removed, old(anchor))
      ensures disk.files == RemoveFiles(old(disk.files), segs, removed)
    {
      hide RemoveFiles, RemovedCount, AnchorAfter;
      removed := 0;
      RemoveNone(disk.files, segs, anchor);
      while removed < |segs| - 1 && Expired(segs[removed], cutoff, low)
        invariant removed <= |segs| - 1
        invariant removed + RemovedCount(segs[removed..], cutoff, low) == RemovedCount(segs, cutoff, low)
        invariant anchor == AnchorAfter(segs, removed, old(anchor))
        invariant disk.files == RemoveFiles(old(disk.files), segs, removed)
      {
        var sg := segs[removed];
        disk.files := disk.files - {sg.first};
        RemoveOne(old(disk.files), segs, removed, cutoff, low, old(anchor));
        if sg.lastHash != "" { anchor := sg.lastHash; }
        removed := removed + 1;
      }
      RemoveNoMore(segs, removed, cutoff, low);
    }

    method PruneIDs(cutoff: int)
      modifies this`recentIDs, disk`ingestIDs
      ensures (View(), disk.State()) == CompactIDs(old(View()), old(disk.State()), cutoff)
    {
      var kept := map id | id in recentIDs && recentIDs[id] >= cutoff :: recentIDs[id];
      if kept == recentIDs { return; }
      recentIDs := kept;
      disk.ingestIDs := map id | id in kept :: kept[id] / SECOND;
    }

    /** Writes the manifest one last time and turns appends away from then on. */
    method Close()
      requires Valid()
      modifies this`closed, disk`manifest
      ensures Valid() && closed && View() == old(View())
      ensures old(closed) ==> disk.State() == old(disk.State())
      ensures !old(closed) ==>
        old(segs) != [] && disk.State() == SpoolModel.WriteManifest(old(View()), old(disk.State()))
    {
      hide Inv;
      if closed { return; }
      CanWrite(codec, View(), disk.State(), history);
      ghost var d0 := disk.State();
      closed := true;
      WriteManifest();
      WriteManifestKeeps(codec, View(), d0, history);
    }
  }

  function EventIDs(events: seq<Event>): seq<string>
  {
    seq(|events|, i requires 0 <= i < |events| => events[i].id)
  }

  lemma RemoveNone(files: map<nat, string>, segs: seq<Segment>, anchor: string)
    ensures RemoveFiles(files, segs, 0) == files && AnchorAfter(segs, 0, anchor) == anchor && segs[0..] == segs
  {
  }

  lemma RemoveOne(files: map<nat, string>, segs: seq<Segment>, n: nat, cutoff: int, low: nat, anchor: string)
    requires n + 1 < |segs| && Expired(segs[n], cutoff, low)
    ensures RemoveFiles(files, segs, n + 1) == RemoveFiles(files, segs, n) - {segs[n].first}
    ensures RemovedCount(segs[n..], cutoff, low) == 1 + RemovedCount(segs[n + 1..], cutoff, low)
    ensures AnchorAfter(segs, n + 1, anchor)
      == if segs[n].lastHash != "" then segs[n].lastHash else AnchorAfter(segs, n, anchor)
  {
    assert (set i | 0 <= i < n + 1 :: segs[i].first) == (set i | 0 <= i < n :: segs[i].first) + {segs[n].first};
    assert segs[n..][1..] == segs[n + 1..];
  }

  lemma RemoveNoMore(segs: seq<Segment>, n: nat, cutoff: int, low: nat)
    requires n < |segs| && (n + 1 == |segs| || !Expired(segs[n], cutoff, low))
    ensures RemovedCount(segs[n..], cutoff, low) == 0
  {
  }
}
