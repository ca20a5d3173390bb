/** Whole runs of the spool: appends, failed writes, ingests, cursor moves, compactions, restarts
    and crashes in any order. What holds in every state such a run reaches. */
module SpoolRuns {
  import opened Text
  import opened Usage
  import opened Ledger
  import opened Segments
  import opened SpoolModel
  import opened SpoolInvariant
  import opened SpoolRecovery
  import opened SpoolSteps
  import opened SpoolCrash
  import opened SpoolReads
  import opened SpoolVerify
  import opened SpoolCompact

  // ---- ingest ----

  /** The events not seen before, and the IDs of the others, in order. */
  function Sift(events: seq<Event>, known: set<string>): (r: (seq<Event>, seq<string>))
  {
    if events == [] then ([], [])
    else
      var n := |events| - 1;
      var (keep, dups) := Sift(events[..n], known);
      var ev := events[n];
      if ev.id in known || exists i :: 0 <= i < |keep| && keep[i].id == ev.id then (keep, dups + [ev.id])
      else (keep + [ev], dups)
  }

  function IDs(events: seq<Event>): set<string> { set i | 0 <= i < |events| :: events[i].id }

  /** recordDedupe: in memory to the nanosecond, on disk to the second. */
  function Remember(m: Memory, d: DiskState, events: seq<Event>, now: Clock): (Memory, DiskState)
  {
    (m.(recentIDs := m.recentIDs + map id | id in IDs(events) :: now),
     d.(ingestIDs := d.ingestIDs + map id | id in IDs(events) :: now / SECOND))
  }

  function IngestRequest(source: string, events: seq<Event>, rotateAt: Clock, at: Clock): Request
  {
    Request(source, 0, events, "", rotateAt, at)
  }

  /** AppendIngest. */
  function Ingest(c: Codec, o: Options, m: Memory, d: DiskState, source: string, events: seq<Event>,
                  now: Clock, rotateAt: Clock, at: Clock, writeFails: bool): (Memory, DiskState)
    requires Writable(m, d)
  {
    var keep := Sift(events, m.recentIDs.Keys).0;
    if keep == [] then (m, d)
    else
      var (m1, d1) := AppendLocked(c, o, m, d, IngestRequest(source, keep, rotateAt, at), writeFails);
      if writeFails then (m1, d1) else Remember(m1, d1, keep, now)
  }

  /** The records an ingest adds to the log. */
  function IngestRecords(c: Codec, m: Memory, source: string, events: seq<Event>, rotateAt: Clock, at: Clock,
                         writeFails: bool): seq<Record>
  {
    var keep := Sift(events, m.recentIDs.Keys).0;
    if keep == [] then [] else Appended(c, m, IngestRequest(source, keep, rotateAt, at), writeFails)
  }

  /** The kept events are new and pairwise different by ID; nothing else that is new is dropped. */
  lemma {:induction false} SiftKeepsNew(events: seq<Event>, known: set<string>)
    ensures var (keep, dups) := Sift(events, known);
      && (forall i :: 0 <= i < |keep| ==> keep[i].id !in known && keep[i] in events)
      && (forall i, j :: 0 <= i < j < |keep| ==> keep[i].id != keep[j].id)
      && (forall i :: 0 <= i < |events| ==> events[i].id in known || events[i].id in IDs(keep))
      && |keep| + |dups| == |events|
  {
    if events != [] {
      var n := |events| - 1;
      SiftKeepsNew(events[..n], known);
      var (keep, dups) := Sift(events[..n], known);
      var all := Sift(events, known).0;
      assert forall i :: 0 <= i < |keep| ==> keep[i] in events;
      forall i | 0 <= i < |events| ensures events[i].id in known || events[i].id in IDs(all) {
        if i < n {
          assert events[..n][i] == events[i];
          if events[i].id in IDs(keep) {
            var k :| 0 <= k < |keep| && keep[k].id == events[i].id;
            assert all[k] == keep[k];
          }
        } else if all != keep {
          assert all[|keep|] == events[n];
        }
      }
    }
  }

  lemma {:induction false} SiftNothing(events: seq<Event>, known: set<string>)
    requires forall i :: 0 <= i < |events| ==> events[i].id in known
    ensures Sift(events, known).0 == []
  {
    if events != [] { SiftNothing(events[..|events| - 1], known); }
  }

  lemma AppendKeepsIDs(c: Codec, o: Options, m: Memory, d: DiskState, q: Request, writeFails: bool)
    requires Writable(m, d)
    ensures AppendLocked(c, o, m, d, q, writeFails).0.recentIDs == m.recentIDs
    ensures AppendLocked(c, o, m, d, q, writeFails).1.ingestIDs == d.ingestIDs
  {
    hide NewRecords, Extend, Lines;
  }

  // ---- runs ----

  datatype Spool = Spool(m: Memory, d: DiskState)

  datatype Op =
    | Window(q: Request, writeFails: bool)
    | IngestBatch(source: string, events: seq<Event>, now: Clock, rotateAt: Clock, at: Clock, writeFails: bool)
    | FirstCursor(dest: string, writeFails: bool)
    | MoveCursor(dest: string, number: nat, writeFails: bool)
    | Acknowledge(dest: string, number: nat, writeFails: bool)
    | Retain(consumers: seq<string>, now: Clock)
    | CloseAndReopen(now: Clock)
    | Restart(now: Clock)                            // the process dies between operations
    | CrashIn(q: Request, p: CrashPoint, now: Clock) // the process dies inside an append

  ghost function Reopen(c: Codec, o: Options, s: Spool, d: DiskState, now: Clock): Spool
  {
    match Open(c, o, d, now)
    case None => s
    case Some((m1, d1)) => Spool(m1, d1)
  }

  ghost function Step(c: Codec, o: Options, s: Spool, op: Op): Spool
  {
    if !Writable(s.m, s.d) then s
    else match op
      case Window(q, writeFails) =>
        if !WindowAccepted(s.m, q.source, q.windowEnd) then s
        else var (m1, d1) := AppendLocked(c, o, s.m, s.d, q, writeFails); Spool(m1, d1)
      case IngestBatch(source, events, now, rotateAt, at, writeFails) =>
        var (m1, d1) := Ingest(c, o, s.m, s.d, source, events, now, rotateAt, at, writeFails); Spool(m1, d1)
      case FirstCursor(dest, writeFails) =>
        var (m1, d1) := TakeCursor(s.m, s.d, dest, writeFails); Spool(m1, d1)
      case MoveCursor(dest, number, writeFails) =>
        var (m1, d1) := SetCursor(s.m, s.d, dest, number, writeFails); Spool(m1, d1)
      case Acknowledge(dest, number, writeFails) =>
        var (m1, d1) := Ack(s.m, s.d, dest, number, writeFails); Spool(m1, d1)
      case Retain(consumers, now) => var (m1, d1) := Compact(o, s.m, s.d, consumers, now); Spool(m1, d1)
      case CloseAndReopen(now) => Reopen(c, o, s, WriteManifest(s.m, s.d), now)
      case Restart(now) => Reopen(c, o, s, s.d, now)
      case CrashIn(q, p, now) =>
        if !WindowAccepted(s.m, q.source, q.windowEnd) then s
        else Reopen(c, o, s, CrashDisk(c, o, s.m, s.d, q, p), now)
  }

  /** The records a step adds to the log. */
  function StepRecords(c: Codec, o: Options, s: Spool, op: Op): seq<Record>
  {
    if !Writable(s.m, s.d) then []
    else match op
      case Window(q, writeFails) =>
        if !WindowAccepted(s.m, q.source, q.windowEnd) then [] else Appended(c, s.m, q, writeFails)
      case IngestBatch(source, events, now, rotateAt, at, writeFails) =>
        IngestRecords(c, s.m, source, events, rotateAt, at, writeFails)
      case CrashIn(q, p, now) =>
        if !WindowAccepted(s.m, q.source, q.windowEnd) || !Survives(c, o, s.m, s.d, q, p) then []
        else NewRecords(c, s.m, q)
      case _ => []
  }

  function StepHistory(c: Codec, o: Options, s: Spool, h: History, op: Op): History
    requires h.parts != []
  {
    if !Writable(s.m, s.d) then h
    else match op
      case Window(q, writeFails) =>
        if !WindowAccepted(s.m, q.source, q.windowEnd) then h else AppendedHistory(c, o, s.m, h, q, writeFails)
      case IngestBatch(source, events, now, rotateAt, at, writeFails) =>
        var keep := Sift(events, s.m.recentIDs.Keys).0;
        if keep == [] then h else AppendedHistory(c, o, s.m, h, IngestRequest(source, keep, rotateAt, at), writeFails)
      case Retain(consumers, now) =>
        var n := Removed(o, s.m, consumers, now); if n <= |h.parts| then Drop(h, n) else h
      case CrashIn(q, p, now) =>
        if !WindowAccepted(s.m, q.source, q.windowEnd) then h else SurvivorHistory(c, o, s.m, s.d, h, q, p)
      case _ => h
  }

  ghost predicate Good(c: Codec, s: Spool, h: History) { Inv(c, s.m, s.d, h) }

  lemma GoodWritable(c: Codec, s: Spool, h: History)
    requires Good(c, s, h)
    ensures Writable(s.m, s.d) && h.parts != [] && |s.m.segs| == |h.parts|
  {
    hide Inv;
    CanWrite(c, s.m, s.d, h);
  }

  lemma AppendStep(c: Codec, o: Options, s: Spool, h: History, q: Request, writeFails: bool)
    requires Good(c, s, h) && WindowAccepted(s.m, q.source, q.windowEnd) && Writable(s.m, s.d) && h.parts != []
    ensures var (m1, d1) := AppendLocked(c, o, s.m, s.d, q, writeFails);
      Good(c, Spool(m1, d1), AppendedHistory(c, o, s.m, h, q, writeFails))
    ensures AppendedHistory(c, o, s.m, h, q, writeFails).Log() == h.Log() + Appended(c, s.m, q, writeFails)
  {
    hide Inv, AppendLocked, AppendedHistory, Appended, Flatten;
    AppendKeeps(c, o, s.m, s.d, h, q, writeFails);
  }

  lemma IngestStep(c: Codec, o: Options, s: Spool, h: History, op: Op)
    requires Good(c, s, h) && op.IngestBatch? && Writable(s.m, s.d) && h.parts != []
    ensures Good(c, Step(c, o, s, op), StepHistory(c, o, s, h, op))
    ensures StepHistory(c, o, s, h, op).Log() == h.Log() + StepRecords(c, o, s, op)
  {
    hide Inv, AppendLocked, AppendedHistory, Appended, Flatten, Sift, Good;
    var keep := Sift(op.events, s.m.recentIDs.Keys).0;
    assert h.Log() + [] == h.Log();
    if keep != [] {
      var q := IngestRequest(op.source, keep, op.rotateAt, op.at);
      AppendStep(c, o, s, h, q, op.writeFails);
      var (m1, d1) := AppendLocked(c, o, s.m, s.d, q, op.writeFails);
      if !op.writeFails {
        var (m2, d2) := Remember(m1, d1, keep, op.now);
        GoodIgnoresIDs(c, Spool(m1, d1), Spool(m2, d2), StepHistory(c, o, s, h, op));
      }
    }
  }

  lemma GoodIgnoresIDs(c: Codec, s: Spool, s1: Spool, h: History)
    requires Good(c, s, h)
    requires s1.m.(recentIDs := s.m.recentIDs, cursors := s.m.cursors) == s.m
    requires s1.d.(ingestIDs := s.d.ingestIDs, cursors := s.d.cursors) == s.d
    ensures Good(c, s1, h)
  {
    hide Inv;
    InvIgnoresIDs(c, s.m, s.d, s1.m, s1.d, h);
  }

  lemma ReopenStep(c: Codec, o: Options, s: Spool, d: DiskState, now: Clock, m: Memory, h: History)
    requires Reopens(c, o, d, now, m, h)
    ensures var s1 := Reopen(c, o, s, d, now);
      Good(c, s1, h) && s1.m.cursors == ClampCursors(d.cursors, |h.Log()|) && s1.d.cursors == d.cursors
  {
    hide Inv, Open, SameState;
  }

  lemma RestartStep(c: Codec, o: Options, s: Spool, h: History, op: Op)
    requires c.Valid() && Good(c, s, h) && (op.Restart? || op.CloseAndReopen? || op.CrashIn?)
    ensures h.parts != []
    ensures Good(c, Step(c, o, s, op), StepHistory(c, o, s, h, op))
    ensures StepHistory(c, o, s, h, op).Log() == h.Log() + StepRecords(c, o, s, op)
  {
    hide Codec.Valid, Inv, Open, Reopens, CrashDisk, Survivor, SurvivorHistory, Survives, NewRecords, Flatten,
        WriteManifest, Reopen;
    GoodWritable(c, s, h);
    assert h.Log() + [] == h.Log();
    match op
    case Restart(now) =>
      ReopenClean(c, o, s.d, now, s.m, h);
      ReopenStep(c, o, s, s.d, now, s.m, h);
    case CloseAndReopen(now) =>
      WriteManifestKeeps(c, s.m, s.d, h);
      ReopenClean(c, o, WriteManifest(s.m, s.d), now, s.m, h);
      ReopenStep(c, o, s, WriteManifest(s.m, s.d), now, s.m, h);
    case CrashIn(q, p, now) =>
      if WindowAccepted(s.m, q.source, q.windowEnd) {
        CrashAtomic(c, o, s.m, s.d, h, q, p, o, now);
        ReopenStep(c, o, s, CrashDisk(c, o, s.m, s.d, q, p), now, Survivor(c, o, s.m, s.d, q, p).0,
                   SurvivorHistory(c, o, s.m, s.d, h, q, p));
      }
  }

  /** Every step keeps the invariant and only ever adds records behind the log. */
  lemma StepKeeps(c: Codec, o: Options, s: Spool, h: History, op: Op)
    requires c.Valid() && Good(c, s, h)
    ensures h.parts != []
    ensures Good(c, Step(c, o, s, op), StepHistory(c, o, s, h, op))
    ensures StepHistory(c, o, s, h, op).Log() == h.Log() + StepRecords(c, o, s, op)
  {
    hide Codec.Valid, Inv, Open, AppendLocked, AppendedHistory, Appended, Compact, Flatten, Sift, Drop, Removed, Good,
        Reopen, SurvivorHistory;
    GoodWritable(c, s, h);
    assert h.Log() + [] == h.Log();
    match op
    case Window(q, writeFails) =>
      if WindowAccepted(s.m, q.source, q.windowEnd) { AppendStep(c, o, s, h, q, writeFails); }
    case IngestBatch(_, _, _, _, _, _) => IngestStep(c, o, s, h, op);
    case FirstCursor(_, _) => GoodIgnoresIDs(c, s, Step(c, o, s, op), h);
    case MoveCursor(_, _, _) => GoodIgnoresIDs(c, s, Step(c, o, s, op), h);
    case Acknowledge(_, _, _) => GoodIgnoresIDs(c, s, Step(c, o, s, op), h);
    case Retain(consumers, now) => CompactStep(c, o, s, h, consumers, now);
    case CloseAndReopen(_) => RestartStep(c, o, s, h, op);
    case Restart(_) => RestartStep(c, o, s, h, op);
    case CrashIn(_, _, _) => RestartStep(c, o, s, h, op);
  }

  lemma CompactStep(c: Codec, o: Options, s: Spool, h: History, consumers: seq<string>, now: Clock)
    requires c.Valid() && Good(c, s, h)
    ensures s.m.segs != [] && Removed(o, s.m, consumers, now) <= |h.parts|
    ensures var (m1, d1) := Compact(o, s.m, s.d, consumers, now);
      Good(c, Spool(m1, d1), Drop(h, Removed(o, s.m, consumers, now)))
    ensures Drop(h, Removed(o, s.m, consumers, now)).Log() == h.Log()
  {
    hide Codec.Valid, Inv, Compact, Removed, Drop;
    CompactKeeps(c, o, s.m, s.d, h, consumers, now);
  }

  ghost function Run(c: Codec, o: Options, s: Spool, ops: seq<Op>): Spool
  {
    if ops == [] then s else Step(c, o, Run(c, o, s, ops[..|ops| - 1]), ops[|ops| - 1])
  }

  ghost function RunHistory(c: Codec, o: Options, s: Spool, h: History, ops: seq<Op>): History
  {
    if ops == [] then h
    else
      var n := |ops| - 1;
      var before := RunHistory(c, o, s, h, ops[..n]);
      if before.parts == [] then before else StepHistory(c, o, Run(c, o, s, ops[..n]), before, ops[n])
  }

  /** What the ledger has committed in a run from an empty directory. */
  ghost function CommittedBy(c: Codec, o: Options, start: Spool, ops: seq<Op>): seq<Record>
  {
    if ops == [] then []
    else
      var n := |ops| - 1;
      CommittedBy(c, o, start, ops[..n]) + StepRecords(c, o, Run(c, o, start, ops[..n]), ops[n])
  }

  // ---- an event is ingested once ----

  /** The ID is remembered, in memory and on disk, since this second. */
  ghost predicate Knows(s: Spool, id: string, second: nat)
  {
    && id in s.m.recentIDs && s.m.recentIDs[id] / SECOND == second
    && id in s.d.ingestIDs && s.d.ingestIDs[id] == second
  }

  /** The steps that forget IDs by the clock do so before the dedupe window of this second has passed. */
  predicate InWindow(o: Options, op: Op, second: nat)
  {
    match op
    case Retain(_, now) => now - o.dedupeWindow <= second * SECOND
    case CloseAndReopen(now) => now - o.dedupeWindow <= second * SECOND
    case Restart(now) => now - o.dedupeWindow <= second * SECOND
    case CrashIn(_, _, now) => now - o.dedupeWindow <= second * SECOND
    case _ => true
  }

  lemma OpenIDs(c: Codec, o: Options, d: DiskState, now: Clock)
    ensures var out := Open(c, o, d, now); var ids := Remembered(d.ingestIDs, now - o.dedupeWindow);
      out.Some? ==> out.value.0.recentIDs == (map id | id in ids :: ids[id] * SECOND) && out.value.1.ingestIDs == ids
  {
  }

  lemma ReopenKnows(c: Codec, o: Options, s: Spool, d: DiskState, now: Clock, id: string, second: nat)
    requires Knows(s, id, second) && d.ingestIDs == s.d.ingestIDs && now - o.dedupeWindow <= second * SECOND
    ensures Knows(Reopen(c, o, s, d, now), id, second)
  {
    hide Open;
    OpenIDs(c, o, d, now);
  }

  lemma DiskKeepsIDs(c: Codec, o: Options, m: Memory, d: DiskState, q: Request, p: CrashPoint)
    requires Writable(m, d)
    ensures CrashDisk(c, o, m, d, q, p).ingestIDs == d.ingestIDs
  {
    hide NewRecords, Extend, Lines, StoredSegments;
  }

  lemma ManifestKeepsIDs(m: Memory, d: DiskState)
    requires m.segs != []
    ensures WriteManifest(m, d).ingestIDs == d.ingestIDs
  {
  }

  lemma CompactKnows(c: Codec, o: Options, s: Spool, h: History, consumers: seq<string>, now: Clock, id: string,
                     second: nat)
    requires c.Valid() && Good(c, s, h) && s.m.segs != []
    requires Knows(s, id, second) && now - o.dedupeWindow <= second * SECOND
    ensures var (m1, d1) := Compact(o, s.m, s.d, consumers, now); Knows(Spool(m1, d1), id, second)
  {
    hide Inv, RemovedCount, AnchorAfter, RemoveFiles, StoredSegments;
  }

  /** Within its window no step forgets an ID: not a compaction, not a crash inside an append, not a restart. */
  lemma StepKnows(c: Codec, o: Options, s: Spool, h: History, op: Op, id: string, second: nat)
    requires c.Valid() && Good(c, s, h) && Knows(s, id, second) && InWindow(o, op, second)
    ensures Knows(Step(c, o, s, op), id, second)
  {
    hide Codec.Valid, Good, AppendLocked, Compact, Sift, Reopen, CrashDisk, WriteManifest;
    GoodWritable(c, s, h);
    match op
    case Window(q, writeFails) => AppendKeepsIDs(c, o, s.m, s.d, q, writeFails);
    case IngestBatch(source, events, now, rotateAt, at, writeFails) => IngestKnows(c, o, s, op, id, second);
    case Retain(consumers, now) => CompactKnows(c, o, s, h, consumers, now, id, second);
    case CloseAndReopen(now) =>
      ManifestKeepsIDs(s.m, s.d);
      ReopenKnows(c, o, s, WriteManifest(s.m, s.d), now, id, second);
    case Restart(now) => ReopenKnows(c, o, s, s.d, now, id, second);
    case CrashIn(q, p, now) =>
      DiskKeepsIDs(c, o, s.m, s.d, q, p);
      ReopenKnows(c, o, s, CrashDisk(c, o, s.m, s.d, q, p), now, id, second);
    case _ =>
  }

  lemma IngestKnows(c: Codec, o: Options, s: Spool, op: Op, id: string, second: nat)
    requires Writable(s.m, s.d) && op.IngestBatch? && Knows(s, id, second)
    ensures Knows(Step(c, o, s, op), id, second)
  {
    hide AppendLocked, Sift;
    var keep := Sift(op.events, s.m.recentIDs.Keys).0;
    SiftKeepsNew(op.events, s.m.recentIDs.Keys);
    AppendKeepsIDs(c, o, s.m, s.d, IngestRequest(op.source, keep, op.rotateAt, op.at), op.writeFails);
    assert id !in IDs(keep);
  }

  lemma {:induction false} RunKnows(c: Codec, o: Options, s: Spool, h: History, ops: seq<Op>, id: string, second: nat)
    requires c.Valid() && Good(c, s, h) && Knows(s, id, second)
    requires forall i :: 0 <= i < |ops| ==> InWindow(o, ops[i], second)
    ensures Good(c, Run(c, o, s, ops), RunHistory(c, o, s, h, ops)) && Knows(Run(c, o, s, ops), id, second)
  {
    hide Codec.Valid, Good, Step, StepHistory, StepRecords, Knows, InWindow;
    if ops != [] {
      var n := |ops| - 1;
      RunKnows(c, o, s, h, ops[..n], id, second);
      var s1, h1 := Run(c, o, s, ops[..n]), RunHistory(c, o, s, h, ops[..n]);
      StepKeeps(c, o, s1, h1, ops[n]);
      StepKnows(c, o, s1, h1, ops[n], id, second);
    }
  }

  /** What an ingest accepted is not accepted again within the dedupe window, whatever comes in between:
      other ingests, appends, compactions, crashes, restarts. A second ingest of it changes nothing. */
  lemma IngestOnce(c: Codec, o: Options, s: Spool, h: History, ingest: Op, ops: seq<Op>, again: Op)
    requires c.Valid() && Good(c, s, h) && ingest.IngestBatch? && !ingest.writeFails && again.IngestBatch?
    requires forall i :: 0 <= i < |ops| ==> InWindow(o, ops[i], ingest.now / SECOND)
    requires forall i :: 0 <= i < |again.events| ==>
      again.events[i].id in IDs(Sift(ingest.events, s.m.recentIDs.Keys).0)
    ensures var s1 := Run(c, o, Step(c, o, s, ingest), ops);
      Step(c, o, s1, again) == s1 && StepRecords(c, o, s1, again) == []
  {
    hide Codec.Valid, Good, Step, Sift, Run, RunHistory, StepHistory, StepRecords;
    GoodWritable(c, s, h);
    StepKeeps(c, o, s, h, ingest);
    var s0, h0 := Step(c, o, s, ingest), StepHistory(c, o, s, h, ingest);
    var s1 := Run(c, o, s0, ops);
    forall i | 0 <= i < |again.events| ensures again.events[i].id in s1.m.recentIDs.Keys {
      IngestTeaches(c, o, s, ingest, again.events[i].id);
      RunKnows(c, o, s0, h0, ops, again.events[i].id, ingest.now / SECOND);
    }
    SiftNothing(again.events, s1.m.recentIDs.Keys);
    NothingToIngest(c, o, s1, again);
  }

  lemma NothingToIngest(c: Codec, o: Options, s: Spool, op: Op)
    requires op.IngestBatch? && Sift(op.events, s.m.recentIDs.Keys).0 == []
    ensures Step(c, o, s, op) == s && StepRecords(c, o, s, op) == []
  {
    hide Sift, AppendLocked;
  }

  lemma IngestTeaches(c: Codec, o: Options, s: Spool, op: Op, id: string)
    requires Writable(s.m, s.d) && op.IngestBatch? && !op.writeFails && id in IDs(Sift(op.events, s.m.recentIDs.Keys).0)
    ensures Knows(Step(c, o, s, op), id, op.now / SECOND)
  {
    hide AppendLocked, Sift;
    AppendKeepsIDs(c, o, s.m, s.d, IngestRequest(op.source, Sift(op.events, s.m.recentIDs.Keys).0, op.rotateAt, op.at),
        false);
  }

  /** A restart behind the window forgets the ID: it is remembered exactly when the window has not passed. */
  lemma RestartForgets(c: Codec, o: Options, s: Spool, h: History, now: Clock, id: string, second: nat)
    requires c.Valid() && Good(c, s, h) && Knows(s, id, second)
    ensures id in Step(c, o, s, Restart(now)).m.recentIDs <==> now - o.dedupeWindow <= second * SECOND
  {
    hide Codec.Valid, Good, Open;
    GoodWritable(c, s, h);
    OpenIDs(c, o, s.d, now);
    OpensClean(c, o, s, h, now);
  }

  lemma OpensClean(c: Codec, o: Options, s: Spool, h: History, now: Clock)
    requires c.Valid() && Good(c, s, h)
    ensures Open(c, o, s.d, now).Some?
  {
    hide Codec.Valid, Inv, Open, SameState, Holds, ClampCursors;
    ReopenClean(c, o, s.d, now, s.m, h);
  }

  /** Windows do not enter the remembered IDs: an ingest records an event whose ID a window has committed. */
  lemma WindowNotRemembered(c: Codec, o: Options, s: Spool, h: History, q: Request, ingest: Op, e: Event)
    requires c.Valid() && Good(c, s, h) && WindowAccepted(s.m, q.source, q.windowEnd)
    requires ingest.IngestBatch? && !ingest.writeFails && e in ingest.events && e.id !in s.m.recentIDs
    ensures var s1 := Step(c, o, s, Window(q, false));
      && (forall ev :: ev in q.events ==> Records(StepRecords(c, o, s, Window(q, false)), ev.id))
      && Records(StepRecords(c, o, s1, ingest), e.id)
  {
    hide Codec.Valid, Good, AppendLocked, Sift, NewRecords;
    GoodWritable(c, s, h);
    AppendKeepsIDs(c, o, s.m, s.d, q, false);
    var s1 := Step(c, o, s, Window(q, false));
    StepKeeps(c, o, s, h, Window(q, false));
    GoodWritable(c, s1, StepHistory(c, o, s, h, Window(q, false)));
    NewRecordsHold(c, s.m, q);
    var keep := Sift(ingest.events, s1.m.recentIDs.Keys).0;
    SiftKeepsNew(ingest.events, s1.m.recentIDs.Keys);
    var k :| 0 <= k < |keep| && keep[k].id == e.id;
    assert keep[k] in keep;
    NewRecordsHold(c, s1.m, IngestRequest(ingest.source, keep, ingest.rotateAt, ingest.at));
  }

  /** An event with this ID is among the records. */
  ghost predicate Records(recs: seq<Record>, id: string)
  {
    exists i :: 0 <= i < |recs| && recs[i].payload.EventPayload? && recs[i].payload.event.id == id
  }

  lemma NewRecordsHold(c: Codec, m: Memory, q: Request)
    ensures forall ev :: ev in q.events ==> Records(NewRecords(c, m, q), ev.id)
  {
    hide Batch;
    BatchChained(c, m.number, m.head, q.at, RequestPayloads(q));
    forall ev | ev in q.events ensures Records(NewRecords(c, m, q), ev.id) {
      var i :| 0 <= i < |q.events| && q.events[i] == ev;
      assert RequestPayloads(q)[i] == EventPayload(ev);
      assert NewRecords(c, m, q)[i].payload == RequestPayloads(q)[i];
    }
  }

  const EMPTY_DISK: DiskState := DiskState(map[], None, None, map[])
  const EMPTY_HISTORY: History := History([], [[]])

  /** A freshly opened spool. */
  ghost predicate Fresh(c: Codec, o: Options, s: Spool)
  {
    exists now: Clock :: Open(c, o, EMPTY_DISK, now) == Some((s.m, s.d))
  }

  lemma {:induction false} RunKeeps(c: Codec, o: Options, s: Spool, ops: seq<Op>)
    requires c.Valid() && Fresh(c, o, s)
    ensures Good(c, Run(c, o, s, ops), RunHistory(c, o, s, EMPTY_HISTORY, ops))
    ensures RunHistory(c, o, s, EMPTY_HISTORY, ops).Log() == CommittedBy(c, o, s, ops)
  {
    hide Codec.Valid, Open, Step, StepHistory, Inv, StepRecords;
    if ops == [] {
      var now: Clock :| Open(c, o, EMPTY_DISK, now) == Some((s.m, s.d));
      OpenEmpty(c, o, EMPTY_DISK, now);
      assert EMPTY_HISTORY.Log() == [];
    } else {
      var n := |ops| - 1;
      RunKeeps(c, o, s, ops[..n]);
      StepKeeps(c, o, Run(c, o, s, ops[..n]), RunHistory(c, o, s, EMPTY_HISTORY, ops[..n]), ops[n]);
    }
  }

  /** In every reachable state: the ledger verifies, its head and numbering are those of everything
      committed so far, and the next read of any consumer is the naive one. */
  lemma RunSafe(c: Codec, o: Options, s: Spool, ops: seq<Op>, after: nat, max: int)
    requires c.Valid() && Fresh(c, o, s)
    ensures var log := CommittedBy(c, o, s, ops); var now := Run(c, o, s, ops);
      && GoodLog(c, log)
      && now.m.committed == |log| && now.m.head == HeadOf(c, log, "")
      && Verify(c, now.m, now.d).Ok() && Verify(c, now.m, now.d).prev == now.m.head
      && exists gone: nat :: RetainsFrom(c, now, log, gone, after, max)
  {
    hide Codec.Valid, Run, RunHistory, CommittedBy, Flatten, Verify, Read, DiskOk, SegmentsOk, Placed, GoodLog;
    RunKeeps(c, o, s, ops);
    var h := RunHistory(c, o, s, EMPTY_HISTORY, ops);
    var now := Run(c, o, s, ops);
    ReachablePasses(c, now.m, now.d, h);
    ReadIsNaive(c, now.m, now.d, h, after, max);
    MemoryNumber(c, now.m, h);
    assert |Retained(h)| == |h.Log()| - |h.gone|;
    assert RetainsFrom(c, now, CommittedBy(c, o, s, ops), |h.gone|, after, max);
  }

  /** The ledger holds all but the first `gone` records, and Read gives the first max of those past `after`. */
  ghost predicate RetainsFrom(c: Codec, s: Spool, log: seq<Record>, gone: nat, after: nat, max: int)
  {
    && gone <= |log| && Verify(c, s.m, s.d).records == |log| - gone
    && Read(c, s.m, s.d, after, max) == Some(Take(log[FirstUnread(log, gone, after)..], if max < 0 then 0 else max))
  }

  /** Where a read past `after` starts in a log whose first `gone` records were compacted. */
  function FirstUnread(log: seq<Record>, gone: nat, after: nat): (i: nat)
    requires gone <= |log|
    ensures i <= |log|
  {
    if after < gone then gone else if after < |log| then after else |log|
  }

  /** No window commits twice, in any run with crashes, rotations and compactions: a source's
      watermark is the largest window end it ever committed, so AppendWindow accepts exactly the
      windows after all of those, and a crash that loses a window leaves it acceptable. */
  lemma WindowsCommitOnce(c: Codec, o: Options, s: Spool, ops: seq<Op>, source: string, windowEnd: Time)
    requires c.Valid() && Fresh(c, o, s) && windowEnd != 0
    ensures var log := CommittedBy(c, o, s, ops);
      && WindowsAdvance(log)
      && (WindowAccepted(Run(c, o, s, ops).m, source, windowEnd)
          <==> forall i: nat :: CommitsFor(log, i, source) ==> EndAt(log, i) < windowEnd)
  {
    hide Codec.Valid, Run, RunHistory, CommittedBy, Flatten, DiskOk, SegmentsOk, Placed, Chained, Closed, Timed,
        Watermarks;
    RunKeeps(c, o, s, ops);
    var h := RunHistory(c, o, s, EMPTY_HISTORY, ops);
    MemoryNumber(c, Run(c, o, s, ops).m, h);
    WatermarkIsMax(h.Log(), source);
  }

  // ---- one destination's cursor ----

  /** The destination has a cursor, and one on disk, both within the log. The one on disk is another
      only while a cursor write has failed. */
  ghost predicate Tracked(s: Spool, dest: string, cursor: nat, saved: nat)
  {
    && dest in s.m.cursors && s.m.cursors[dest] == cursor <= s.m.committed
    && s.d.cursors.Some? && dest in s.d.cursors.value && s.d.cursors.value[dest] == saved <= s.m.committed
  }

  /** Steps that leave this destination's cursor to its own dispatcher. */
  predicate LeavesCursor(op: Op, dest: string)
  {
    && (op.MoveCursor? ==> op.dest != dest)
    && (op.Acknowledge? ==> op.dest != dest)
    && (op.Retain? ==> dest in op.consumers)
  }

  /** The process ends, and the next one opens the spool. */
  predicate Restarts(op: Op) { op.CloseAndReopen? || op.Restart? || op.CrashIn? }

  lemma AppendKeepsCursors(c: Codec, o: Options, m: Memory, d: DiskState, q: Request, writeFails: bool, p: CrashPoint)
    requires Writable(m, d)
    ensures AppendLocked(c, o, m, d, q, writeFails).0.cursors == m.cursors
    ensures AppendLocked(c, o, m, d, q, writeFails).1.cursors == d.cursors
    ensures CrashDisk(c, o, m, d, q, p).cursors == d.cursors
  {
    hide NewRecords, Extend, Lines, StoredSegments;
  }

  /** No append, compaction or other destination's move touches a destination's cursor; a move of another
      may save it, and a restart brings back the saved one. */
  lemma StepKeepsCursor(c: Codec, o: Options, s: Spool, h: History, op: Op, dest: string, cursor: nat, saved: nat)
    requires c.Valid() && Good(c, s, h) && Tracked(s, dest, cursor, saved) && LeavesCursor(op, dest)
    ensures var s1 := Step(c, o, s, op);
      || Tracked(s1, dest, cursor, saved)
      || ((op.MoveCursor? || op.Acknowledge? || op.FirstCursor?) && Tracked(s1, dest, cursor, cursor))
      || (Restarts(op) && Tracked(s1, dest, saved, saved))
  {
    hide Codec.Valid, Inv, Open, AppendLocked, Compact, Flatten, Sift, Good, CrashDisk, StepHistory, StepRecords,
        Reopen, Reopens, WriteManifest;
    GoodWritable(c, s, h);
    StepKeeps(c, o, s, h, op);
    CommittedGrows(c, s, h, Step(c, o, s, op), StepHistory(c, o, s, h, op));
    match op
    case Window(q, writeFails) => AppendKeepsCursors(c, o, s.m, s.d, q, writeFails, BeforeRotation);
    case IngestBatch(source, events, now, rotateAt, at, writeFails) =>
      AppendKeepsCursors(c, o, s.m, s.d, IngestRequest(source, Sift(events, s.m.recentIDs.Keys).0, rotateAt, at),
          writeFails, BeforeRotation);
    case Retain(consumers, now) => CompactCursors(c, o, s, h, consumers, now);
    case CloseAndReopen(now) => RestartCursors(c, o, s, h, op);
    case Restart(now) => RestartCursors(c, o, s, h, op);
    case CrashIn(q, p, now) =>
      AppendKeepsCursors(c, o, s.m, s.d, q, false, p);
      RestartCursors(c, o, s, h, op);
    case _ =>
  }

  lemma CommittedGrows(c: Codec, s: Spool, h: History, s1: Spool, h1: History)
    requires Good(c, s, h) && Good(c, s1, h1) && h.Log() <= h1.Log()
    ensures s.m.committed <= s1.m.committed
  {
    hide Inv;
    InvCommitted(c, s.m, s.d, h);
    InvCommitted(c, s1.m, s1.d, h1);
  }

  lemma CompactCursors(c: Codec, o: Options, s: Spool, h: History, consumers: seq<string>, now: Clock)
    requires c.Valid() && Good(c, s, h)
    ensures s.m.segs != []
    ensures Compact(o, s.m, s.d, consumers, now).0.cursors == s.m.cursors
    ensures Compact(o, s.m, s.d, consumers, now).1.cursors == s.d.cursors
  {
    hide Codec.Valid, Inv, Compact, Drop;
    CompactKeeps(c, o, s.m, s.d, h, consumers, now);
  }

  lemma RestartCursors(c: Codec, o: Options, s: Spool, h: History, op: Op)
    requires c.Valid() && Good(c, s, h) && Writable(s.m, s.d) && h.parts != []
    requires op.Restart? || op.CloseAndReopen?
        || (op.CrashIn? && CrashDisk(c, o, s.m, s.d, op.q, op.p).cursors == s.d.cursors)
    ensures var s1 := Step(c, o, s, op);
      s1 == s || (s1.d.cursors == s.d.cursors
                  && s1.m.cursors == ClampCursors(s.d.cursors, |StepHistory(c, o, s, h, op).Log()|)
                  && |StepHistory(c, o, s, h, op).Log()| >= |h.Log()| == s.m.committed)
  {
    hide Codec.Valid, Inv, Open, Reopens, CrashDisk, Survivor, SurvivorHistory, Survives, NewRecords, Flatten,
        WriteManifest, Reopen;
    InvCommitted(c, s.m, s.d, h);
    match op
    case Restart(now) =>
      ReopenClean(c, o, s.d, now, s.m, h);
      ReopenStep(c, o, s, s.d, now, s.m, h);
    case CloseAndReopen(now) =>
      WriteManifestKeeps(c, s.m, s.d, h);
      ReopenClean(c, o, WriteManifest(s.m, s.d), now, s.m, h);
      ReopenStep(c, o, s, WriteManifest(s.m, s.d), now, s.m, h);
      ManifestKeepsCursors(s.m, s.d);
    case CrashIn(q, p, now) =>
      if WindowAccepted(s.m, q.source, q.windowEnd) {
        CrashAtomic(c, o, s.m, s.d, h, q, p, o, now);
        ReopenStep(c, o, s, CrashDisk(c, o, s.m, s.d, q, p), now, Survivor(c, o, s.m, s.d, q, p).0,
                   SurvivorHistory(c, o, s.m, s.d, h, q, p));
      }
  }

  /** No destination has a cursor past the end of the log. */
  ghost predicate CursorsWithin(s: Spool) { forall d :: d in s.m.cursors ==> s.m.cursors[d] <= s.m.committed }

  /** As long as only committed records are acknowledged, no step puts a cursor past the end of the log. */
  lemma StepBoundsCursors(c: Codec, o: Options, s: Spool, h: History, op: Op)
    requires c.Valid() && Good(c, s, h) && CursorsWithin(s)
    requires op.Acknowledge? ==> op.number <= s.m.committed
    ensures CursorsWithin(Step(c, o, s, op))
  {
    hide Codec.Valid, Inv, Open, AppendLocked, Compact, Flatten, Sift, Good, CrashDisk, StepHistory, StepRecords,
        Reopen, Reopens, WriteManifest;
    GoodWritable(c, s, h);
    StepKeeps(c, o, s, h, op);
    CommittedGrows(c, s, h, Step(c, o, s, op), StepHistory(c, o, s, h, op));
    match op
    case Window(q, writeFails) => AppendKeepsCursors(c, o, s.m, s.d, q, writeFails, BeforeRotation);
    case IngestBatch(source, events, now, rotateAt, at, writeFails) =>
      AppendKeepsCursors(c, o, s.m, s.d, IngestRequest(source, Sift(events, s.m.recentIDs.Keys).0, rotateAt, at),
          writeFails, BeforeRotation);
    case Retain(consumers, now) => CompactCursors(c, o, s, h, consumers, now);
    case CloseAndReopen(now) => RestartBoundsCursors(c, o, s, h, op);
    case Restart(now) => RestartBoundsCursors(c, o, s, h, op);
    case CrashIn(q, p, now) =>
      AppendKeepsCursors(c, o, s.m, s.d, q, false, p);
      RestartBoundsCursors(c, o, s, h, op);
    case _ =>
  }

  /** Every acknowledgement is of records committed by then. */
  ghost predicate AcksCommitted(c: Codec, o: Options, s: Spool, ops: seq<Op>)
  {
    forall i :: 0 <= i < |ops| && ops[i].Acknowledge? ==> ops[i].number <= Run(c, o, s, ops[..i]).m.committed
  }

  /** Over every run from an empty directory no destination ever has a cursor past the end of the log. */
  lemma {:induction false} RunBoundsCursors(c: Codec, o: Options, s: Spool, ops: seq<Op>)
    requires c.Valid() && Fresh(c, o, s) && AcksCommitted(c, o, s, ops)
    ensures CursorsWithin(Run(c, o, s, ops))
  {
    hide Codec.Valid, Step, StepHistory, Inv, StepRecords;
    if ops != [] {
      var n := |ops| - 1;
      assert forall i :: 0 <= i < n ==> ops[..n][..i] == ops[..i];
      RunBoundsCursors(c, o, s, ops[..n]);
      RunKeeps(c, o, s, ops[..n]);
      StepBoundsCursors(c, o, Run(c, o, s, ops[..n]), RunHistory(c, o, s, EMPTY_HISTORY, ops[..n]), ops[n]);
    }
  }

  lemma RestartBoundsCursors(c: Codec, o: Options, s: Spool, h: History, op: Op)
    requires c.Valid() && Good(c, s, h) && Writable(s.m, s.d) && h.parts != [] && CursorsWithin(s)
    requires Good(c, Step(c, o, s, op), StepHistory(c, o, s, h, op))
    requires op.Restart? || op.CloseAndReopen?
        || (op.CrashIn? && CrashDisk(c, o, s.m, s.d, op.q, op.p).cursors == s.d.cursors)
    ensures CursorsWithin(Step(c, o, s, op))
  {
    hide Codec.Valid, Inv, Open, Flatten, CrashDisk, StepHistory, Reopen, Step, ClampCursors;
    RestartCursors(c, o, s, h, op);
    var s1 := Step(c, o, s, op);
    InvCommitted(c, s1.m, s1.d, StepHistory(c, o, s, h, op));
  }

  /** The two moves of a cursor: an operator's goes where it is told, at most to the end of the log, and an
      acknowledgement only forward; both leave the other destinations' cursors alone. */
  lemma CursorMoves(m: Memory, d: DiskState, dest: string, number: nat, writeFails: bool)
    ensures var was := if dest in m.cursors then m.cursors[dest] else 0;
      var m1 := SetCursor(m, d, dest, number, writeFails).0;
      var m2 := Ack(m, d, dest, number, writeFails).0;
      && dest in m1.cursors && m1.cursors[dest] <= m.committed && (number <= m.committed ==> m1.cursors[dest] == number)
      && (was < number ==> dest in m2.cursors && m2.cursors[dest] == number)
      && (number <= was ==> m2 == m)
      && forall other :: other != dest ==>
           && (other in m1.cursors <==> other in m.cursors) && (other in m2.cursors <==> other in m.cursors)
           && (other in m.cursors ==> m1.cursors[other] == m2.cursors[other] == m.cursors[other])
  {
  }

  lemma ManifestKeepsCursors(m: Memory, d: DiskState)
    requires m.segs != []
    ensures WriteManifest(m, d).cursors == d.cursors
  {
  }

  /** Compaction stays behind the cursor of every listed destination, or behind what was compacted before. */
  lemma StepStaysBehind(c: Codec, o: Options, s: Spool, h: History, op: Op, dest: string)
    requires c.Valid() && Good(c, s, h) && dest in s.m.cursors && LeavesCursor(op, dest) && h.parts != []
    ensures |StepHistory(c, o, s, h, op).gone| == |h.gone| || |StepHistory(c, o, s, h, op).gone| <= s.m.cursors[dest]
  {
    hide Codec.Valid, Inv, Flatten, AppendedHistory, SurvivorHistory, Sift, Drop, Removed;
    match op
    case Retain(consumers, now) =>
      RemovedWasRead(c, o, s.m, s.d, h, consumers, now, dest);
    case Window(q, writeFails) => AppendedGone(c, o, s.m, s.d, h, q, writeFails, BeforeRotation);
    case IngestBatch(source, events, now, rotateAt, at, writeFails) =>
      AppendedGone(c, o, s.m, s.d, h, IngestRequest(source, Sift(events, s.m.recentIDs.Keys).0, rotateAt, at),
          writeFails, BeforeRotation);
    case CrashIn(q, p, now) => AppendedGone(c, o, s.m, s.d, h, q, false, p);
    case _ =>
  }

  lemma AppendedGone(c: Codec, o: Options, m: Memory, d: DiskState, h: History, q: Request, writeFails: bool,
                     p: CrashPoint)
    requires h.parts != []
    ensures m.segs != [] ==> AppendedHistory(c, o, m, h, q, writeFails).gone == h.gone
    ensures Writable(m, d) ==> SurvivorHistory(c, o, m, d, h, q, p).gone == h.gone
  {
    hide NewRecords, Lines, Survives, RotationDue;
  }
}
