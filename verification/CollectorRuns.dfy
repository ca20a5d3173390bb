/** The collector's windows in the ledger itself: the collect loop of internal/controller/controller.go over
    the spool, step by step, with everything else the spool does, crashes and restarts in between. */
module CollectorRuns {
  import opened Text
  import opened Usage
  import opened Ledger
  import opened SpoolModel
  import opened SpoolInvariant
  import opened SpoolRuns
  import opened Windows
  import opened ControllerObject

  /** The spool, the window ends the collection in hand has still to commit, and what the collections begun
      so far came to. */
  datatype Collector = Collector(spool: Spool, due: seq<int>, calls: seq<Call>)

  /** What goes with one window: its events, the note, and the clock readings of its append. */
  datatype Contents = Contents(events: seq<Event>, note: string, rotateAt: Clock, at: Clock)

  datatype CollectorOp =
    | Other(op: Op)
    | Begin(now: Clock, meters: bool)  // the windows due, and whether metering them works
    | Commit(contents: Contents, writeFails: bool)
    | Die(contents: Contents, p: CrashPoint, now: Clock)

  function Append(end: int, b: Contents): Request
    requires end >= 0
  {
    Request(COLLECTOR, end, b.events, b.note, b.rotateAt, b.at)
  }

  function WatermarkOf(m: Memory): Option<int>
  {
    if COLLECTOR in m.watermarks then Some(m.watermarks[COLLECTOR]) else None
  }

  /** What a step does to the spool, if anything. */
  function SpoolOp(s: Collector, op: CollectorOp): Option<Op>
  {
    match op
    case Other(l) => Some(l)
    case Begin(_, _) => None
    case Commit(b, writeFails) =>
      if s.due == [] || s.due[0] < 0 then None else Some(Window(Append(s.due[0], b), writeFails))
    case Die(b, p, now) =>
      if s.due == [] || s.due[0] < 0 then Some(Restart(now)) else Some(CrashIn(Append(s.due[0], b), p, now))
  }

  /** One more window of the collection in hand is in the ledger. */
  function Counted(calls: seq<Call>): seq<Call>
  {
    if calls == [] || calls[|calls| - 1].commits.None? then calls
    else
      var n := |calls| - 1;
      calls[n := calls[n].(commits := Some(calls[n].commits.value + 1))]
  }

  /** Whether the step puts the next window into the ledger. */
  predicate Commits(c: Codec, o: Options, s: Collector, op: CollectorOp)
    requires SpoolOp(s, op).Some?
  {
    (op.Commit? || op.Die?) && StepRecords(c, o, s.spool, SpoolOp(s, op).value) != []
  }

  /** A collection begins only when none is in hand, and a commit that fails ends it; so does a restart. */
  ghost function CollectorStep(c: Codec, o: Options, cfg: Config, s: Collector, op: CollectorOp): Collector
    requires cfg.size > 0
  {
    if op.Begin? then
      if s.due != [] then s
      else
        var due := Due(cfg, WatermarkOf(s.spool.m), op.now);
        Collector(s.spool, if due.Some? && op.meters then due.value else [],
                  s.calls + [Call(op.now, op.meters, Some(0))])
    else
      var l := SpoolOp(s, op);
      if l.None? then s
      else
        var done := Commits(c, o, s, op);
        Collector(Step(c, o, s.spool, l.value),
                  if Restarts(l.value) then [] else if op.Other? then s.due else if done then s.due[1..] else [],
                  if done then Counted(s.calls) else s.calls)
  }

  /** The other steps commit no window of the collector's, and the clock is past the first interval. */
  predicate Fair(cfg: Config, op: CollectorOp)
  {
    && (op.Begin? ==> cfg.size <= op.now)
    && (op.Other? && (op.op.Window? || op.op.CrashIn?) ==> op.op.q.source != COLLECTOR)
  }

  ghost function CollectorRun(c: Codec, o: Options, cfg: Config, s: Collector, ops: seq<CollectorOp>): Collector
    requires cfg.size > 0
  {
    if ops == [] then s
    else CollectorStep(c, o, cfg, CollectorRun(c, o, cfg, s, ops[..|ops| - 1]), ops[|ops| - 1])
  }

  ghost function CollectorHistory(c: Codec, o: Options, cfg: Config, s: Collector, h: History,
                                  ops: seq<CollectorOp>): History
    requires cfg.size > 0
  {
    if ops == [] then h
    else
      var n := |ops| - 1;
      var before := CollectorHistory(c, o, cfg, s, h, ops[..n]);
      var s1 := CollectorRun(c, o, cfg, s, ops[..n]);
      var l := SpoolOp(s1, ops[n]);
      if l.None? || before.parts == [] then before else StepHistory(c, o, s1.spool, before, l.value)
  }

  // ---- the collector's windows in a log ----

  /** The window ends the collector committed, in order. */
  function EndsOf(recs: seq<Record>): seq<int>
  {
    if recs == [] then []
    else
      var r := recs[|recs| - 1];
      EndsOf(recs[..|recs| - 1])
      + if IsWindowCommit(r) && r.payload.commit.source == COLLECTOR then [r.payload.commit.windowEnd] else []
  }

  lemma {:induction false} EndsAppend(a: seq<Record>, b: seq<Record>)
    ensures EndsOf(a + b) == EndsOf(a) + EndsOf(b)
  {
    if b == [] {
      assert a + b == a;
    } else {
      var n := |b| - 1;
      EndsAppend(a, b[..n]);
      assert (a + b)[..|a + b| - 1] == a + b[..n];
    }
  }

  lemma {:induction false} NoEnds(recs: seq<Record>)
    requires forall i :: 0 <= i < |recs| ==>
      !(IsWindowCommit(recs[i]) && recs[i].payload.commit.source == COLLECTOR)
    ensures EndsOf(recs) == []
  {
    if recs != [] { NoEnds(recs[..|recs| - 1]); }
  }

  /** The watermark is the last window in the log. */
  lemma {:induction false} WatermarkIsLast(log: seq<Record>)
    ensures var wm := Watermarks(log);
      (if COLLECTOR in wm then Some(wm[COLLECTOR]) else None) == WatermarkAfter(None, EndsOf(log))
  {
    if log != [] { WatermarkIsLast(log[..|log| - 1]); }
  }

  lemma BatchEnds(c: Codec, m: Memory, q: Request)
    ensures EndsOf(NewRecords(c, m, q)) == if q.source == COLLECTOR && q.windowEnd != 0 then [q.windowEnd] else []
  {
    var recs := NewRecords(c, m, q);
    BatchChained(c, m.number, m.head, q.at, RequestPayloads(q));
    var n := |recs| - 1;
    forall i | 0 <= i < n ensures recs[..n][i].payload.EventPayload? {
      assert recs[i].payload == RequestPayloads(q)[i];
    }
    NoEnds(recs[..n]);
    assert recs[n].payload == RequestPayloads(q)[n];
  }

  /** What a step adds of the collector's windows: the next one when it commits, and nothing else. */
  lemma StepEnds(c: Codec, o: Options, cfg: Config, s: Collector, op: CollectorOp)
    requires Fair(cfg, op) && SpoolOp(s, op).Some? && (s.due != [] ==> s.due[0] > 0)
    ensures EndsOf(StepRecords(c, o, s.spool, SpoolOp(s, op).value))
      == if Commits(c, o, s, op) then s.due[..1] else []
    ensures Commits(c, o, s, op) ==> s.due != []
  {
    hide NewRecords, Sift, Survives, EndsOf;
    NoEnds([]);
    var m := s.spool.m;
    match SpoolOp(s, op).value
    case Window(q, _) => BatchEnds(c, m, q);
    case IngestBatch(source, events, now, rotateAt, at, _) =>
      BatchEnds(c, m, IngestRequest(source, Sift(events, m.recentIDs.Keys).0, rotateAt, at));
    case CrashIn(q, _, _) => BatchEnds(c, m, q);
    case _ =>
  }

  // ---- what holds throughout ----

  /** The windows still due are what is left of the last collection begun. */
  ghost predicate InHand(cfg: Config, s: Collector)
    requires cfg.size > 0
  {
    s.due != [] ==>
      var n := |s.calls| - 1;
      && s.calls != [] && s.calls[n].meters && s.calls[n].commits.Some?
      && var wm := RunWatermark(cfg, s.calls[..n]); var due := Due(cfg, wm, s.calls[n].now);
        && due.Some? && s.calls[n].commits.value < |due.value| && s.due == due.value[s.calls[n].commits.value..]
        && (wm.Some? ==> wm.value >= 0) && cfg.size <= s.calls[n].now
  }

  ghost predicate Tracks(c: Codec, cfg: Config, s: Collector, h: History)
    requires cfg.size > 0
  {
    && Good(c, s.spool, h)
    && EndsOf(h.Log()) == RunWindows(cfg, s.calls)
    && InHand(cfg, s)
  }

  lemma LogWatermark(c: Codec, cfg: Config, s: Collector, h: History)
    requires cfg.size > 0 && cfg.maxBackfill > 0 && Tracks(c, cfg, s, h)
    ensures WatermarkOf(s.spool.m) == RunWatermark(cfg, s.calls)
  {
    hide EndsOf, Flatten, GoodHistory, DiskOk, SegmentsOk, RunWindows, RunWatermark, Tiled, ContiguousBut, InHand,
        Watermarks;
    WatermarkIsLast(h.Log());
    RunTiles(cfg, s.calls);
  }

  /** The next window due lies behind everything committed. */
  lemma NextIsNew(cfg: Config, s: Collector)
    requires cfg.size > 0 && InHand(cfg, s) && s.due != []
    ensures s.due[0] > 0
    ensures var wm := RunWatermark(cfg, s.calls); wm.Some? ==> wm.value < s.due[0]
  {
    hide Due, RunWatermark;
    var n := |s.calls| - 1;
    var wm := RunWatermark(cfg, s.calls[..n]);
    var due := Due(cfg, wm, s.calls[n].now).value;
    DueAscends(cfg, wm, s.calls[n].now);
    LastCall(cfg, s.calls);
  }

  lemma LastCall(cfg: Config, calls: seq<Call>)
    requires cfg.size > 0 && calls != []
    ensures var n := |calls| - 1; var wm := RunWatermark(cfg, calls[..n]);
      RunWatermark(cfg, calls) == WatermarkAfter(wm, Windows.CommittedBy(cfg, wm, calls[n]))
  {
  }

  /** Counting the next window adds it to those of the run. */
  lemma CountedWindows(cfg: Config, s: Collector)
    requires cfg.size > 0 && InHand(cfg, s) && s.due != []
    ensures RunWindows(cfg, Counted(s.calls)) == RunWindows(cfg, s.calls) + s.due[..1]
    ensures InHand(cfg, Collector(s.spool, s.due[1..], Counted(s.calls)))
  {
    hide Due;
    var n := |s.calls| - 1;
    var calls := Counted(s.calls);
    assert calls[..n] == s.calls[..n];
    var wm := RunWatermark(cfg, s.calls[..n]);
    var due := Due(cfg, wm, s.calls[n].now).value;
    var k := s.calls[n].commits.value;
    assert Windows.CommittedBy(cfg, wm, s.calls[n]) == due[..k];
    assert Windows.CommittedBy(cfg, wm, calls[n]) == due[..k + 1];
    assert due[..k + 1] == due[..k] + s.due[..1];
  }

  lemma BegunWindows(cfg: Config, s: Collector, now: Clock, meters: bool)
    requires cfg.size > 0 && s.due == []
    ensures RunWindows(cfg, s.calls + [Call(now, meters, Some(0))]) == RunWindows(cfg, s.calls)
  {
    hide Due;
    var calls := s.calls + [Call(now, meters, Some(0))];
    assert calls[..|calls| - 1] == s.calls;
    assert Windows.CommittedBy(cfg, RunWatermark(cfg, s.calls), calls[|calls| - 1]) == [];
  }

  lemma BeginKeeps(c: Codec, o: Options, cfg: Config, s: Collector, h: History, op: CollectorOp)
    requires cfg.size > 0 && cfg.maxBackfill > 0 && Tracks(c, cfg, s, h) && op.Begin? && Fair(cfg, op)
    ensures Tracks(c, cfg, CollectorStep(c, o, cfg, s, op), h)
  {
    hide Good, EndsOf, Flatten, Due, RunWatermark, RunWindows;
    if s.due == [] {
      BegunWindows(cfg, s, op.now, op.meters);
      LogWatermark(c, cfg, s, h);
      var calls := s.calls + [Call(op.now, op.meters, Some(0))];
      assert calls[..|calls| - 1] == s.calls;
    }
  }

  lemma CollectorKeeps(c: Codec, o: Options, cfg: Config, s: Collector, h: History, op: CollectorOp)
    requires c.Valid() && cfg.size > 0 && cfg.maxBackfill > 0 && Tracks(c, cfg, s, h) && Fair(cfg, op) && !op.Begin?
    requires SpoolOp(s, op).Some?
    ensures h.parts != []
    ensures Tracks(c, cfg, CollectorStep(c, o, cfg, s, op), StepHistory(c, o, s.spool, h, SpoolOp(s, op).value))
  {
    hide Codec.Valid, Good, EndsOf, Flatten, InHand, Step, StepHistory, StepRecords, Counted, RunWindows;
    var l := SpoolOp(s, op).value;
    StepKeeps(c, o, s.spool, h, l);
    if s.due != [] { NextIsNew(cfg, s); }
    StepEnds(c, o, cfg, s, op);
    EndsAppend(h.Log(), StepRecords(c, o, s.spool, l));
    NothingInHand(cfg, Step(c, o, s.spool, l), s.calls);
    if s.due != [] {
      CountedWindows(cfg, s);
      NothingInHand(cfg, Step(c, o, s.spool, l), Counted(s.calls));
      HandIgnoresSpool(cfg, s, Step(c, o, s.spool, l));
    }
  }

  lemma NothingInHand(cfg: Config, s: Spool, calls: seq<Call>)
    requires cfg.size > 0
    ensures InHand(cfg, Collector(s, [], calls))
  {
  }

  lemma HandIgnoresSpool(cfg: Config, s: Collector, spool: Spool)
    requires cfg.size > 0
    ensures InHand(cfg, s) ==> InHand(cfg, s.(spool := spool))
    ensures s.due != [] && InHand(cfg, Collector(s.spool, s.due[1..], Counted(s.calls)))
      ==> InHand(cfg, Collector(spool, s.due[1..], Counted(s.calls)))
  {
  }

  // ---- whole runs ----

  /** Every collection counted was begun in the run. */
  ghost predicate Begun(calls: seq<Call>, ops: seq<CollectorOp>)
  {
    forall k :: 0 <= k < |calls| ==> BegunAt(ops, calls[k].now)
  }

  ghost predicate BegunAt(ops: seq<CollectorOp>, now: int)
  {
    exists i :: 0 <= i < |ops| && ops[i].Begin? && ops[i].now == now
  }

  lemma BegunStep(c: Codec, o: Options, cfg: Config, s: Collector, ops: seq<CollectorOp>, op: CollectorOp)
    requires cfg.size > 0 && Begun(s.calls, ops)
    ensures Begun(CollectorStep(c, o, cfg, s, op).calls, ops + [op])
  {
    hide Step, Due, StepRecords;
    var all := ops + [op];
    forall now | BegunAt(ops, now) ensures BegunAt(all, now) {
      var i :| 0 <= i < |ops| && ops[i].Begin? && ops[i].now == now;
      assert all[i] == ops[i];
    }
    if op.Begin? { assert all[|ops|] == op; assert BegunAt(all, op.now); }
  }

  lemma {:induction false} RunTracks(c: Codec, o: Options, cfg: Config, s: Collector, h: History, ops: seq<CollectorOp>)
    requires c.Valid() && cfg.size > 0 && cfg.maxBackfill > 0 && Tracks(c, cfg, s, h) && s.calls == []
    requires forall i :: 0 <= i < |ops| ==> Fair(cfg, ops[i])
    ensures Tracks(c, cfg, CollectorRun(c, o, cfg, s, ops), CollectorHistory(c, o, cfg, s, h, ops))
    ensures Begun(CollectorRun(c, o, cfg, s, ops).calls, ops)
  {
    hide Codec.Valid, Tracks, CollectorStep, StepHistory, Fair, Begun, SpoolOp;
    if ops == [] {
      assert Begun([], ops) by { NoneBegun(ops); }
    } else {
      var n := |ops| - 1;
      RunTracks(c, o, cfg, s, h, ops[..n]);
      var s1, h1 := CollectorRun(c, o, cfg, s, ops[..n]), CollectorHistory(c, o, cfg, s, h, ops[..n]);
      assert ops == ops[..n] + [ops[n]];
      BegunStep(c, o, cfg, s1, ops[..n], ops[n]);
      StepTracks(c, o, cfg, s1, h1, ops[n]);
    }
  }

  lemma NoneBegun(ops: seq<CollectorOp>)
    ensures Begun([], ops)
  {
  }

  lemma StepTracks(c: Codec, o: Options, cfg: Config, s: Collector, h: History, op: CollectorOp)
    requires c.Valid() && cfg.size > 0 && cfg.maxBackfill > 0 && Tracks(c, cfg, s, h) && Fair(cfg, op)
    ensures h.parts != []
    ensures var l := SpoolOp(s, op);
      Tracks(c, cfg, CollectorStep(c, o, cfg, s, op), if l.None? then h else StepHistory(c, o, s.spool, h, l.value))
  {
    hide Codec.Valid, Tracks, StepHistory, Fair, Good, CollectorStep;
    TracksGood(c, cfg, s, h);
    GoodWritable(c, s.spool, h);
    if op.Begin? {
      BeginKeeps(c, o, cfg, s, h, op);
    } else if SpoolOp(s, op).Some? {
      CollectorKeeps(c, o, cfg, s, h, op);
    } else {
      NothingDone(c, o, cfg, s, op);
    }
  }

  lemma TracksGood(c: Codec, cfg: Config, s: Collector, h: History)
    requires cfg.size > 0 && Tracks(c, cfg, s, h)
    ensures Good(c, s.spool, h)
  {
  }

  lemma NothingDone(c: Codec, o: Options, cfg: Config, s: Collector, op: CollectorOp)
    requires cfg.size > 0 && !op.Begin? && SpoolOp(s, op).None?
    ensures CollectorStep(c, o, cfg, s, op) == s
  {
  }

  /** A collector that has just opened an empty directory. */
  ghost predicate Starts(c: Codec, o: Options, s: Collector)
  {
    Fresh(c, o, s.spool) && s.due == [] && s.calls == []
  }

  lemma StartTracks(c: Codec, o: Options, cfg: Config, s: Collector)
    requires c.Valid() && cfg.size > 0 && Starts(c, o, s)
    ensures Tracks(c, cfg, s, EMPTY_HISTORY)
  {
    hide Codec.Valid, Open, Good, Step;
    RunKeeps(c, o, s.spool, []);
    assert EMPTY_HISTORY.Log() == [];
  }

  lemma TracksTiles(c: Codec, cfg: Config, s: Collector, h: History)
    requires cfg.size > 0 && cfg.maxBackfill > 0 && Tracks(c, cfg, s, h)
    ensures Tiled(cfg, EndsOf(h.Log())) && ContiguousBut(cfg, s.calls, EndsOf(h.Log()))
    ensures WatermarkOf(s.spool.m) == WatermarkAfter(None, EndsOf(h.Log()))
  {
    hide Good, EndsOf, Flatten, Tiled, ContiguousBut, InHand, RunWatermark;
    RunTiles(cfg, s.calls);
    LogWatermark(c, cfg, s, h);
  }

  /** Window tiling in the ledger. Over every run from an empty directory, with appends that fail, crashes at
      any byte of an append, restarts, compactions, ingests and other sources' windows between the collector's
      commits: the window ends the collector has in the ledger are aligned, strictly ordered and disjoint;
      two that follow one another are adjacent, or some collection of the run started behind the earlier,
      committed the later first, and found every window between them older than MAX_BACKFILL; and the
      watermark the next collection starts from is the last of them. */
  lemma LedgerTiles(c: Codec, o: Options, cfg: Config, s: Collector, ops: seq<CollectorOp>)
    requires c.Valid() && cfg.size > 0 && cfg.maxBackfill > 0 && Starts(c, o, s)
    requires forall i :: 0 <= i < |ops| ==> Fair(cfg, ops[i])
    ensures var s1 := CollectorRun(c, o, cfg, s, ops);
      var ends := EndsOf(CollectorHistory(c, o, cfg, s, EMPTY_HISTORY, ops).Log());
      && Tiled(cfg, ends) && ContiguousBut(cfg, s1.calls, ends) && Begun(s1.calls, ops)
      && WatermarkOf(s1.spool.m) == WatermarkAfter(None, ends)
  {
    hide Codec.Valid, CollectorRun, CollectorHistory, EndsOf, Flatten, Fair, Tracks, Tiled, ContiguousBut, Begun, Fresh;
    StartTracks(c, o, cfg, s);
    RunTracks(c, o, cfg, s, EMPTY_HISTORY, ops);
    TracksTiles(c, cfg, CollectorRun(c, o, cfg, s, ops), CollectorHistory(c, o, cfg, s, EMPTY_HISTORY, ops));
  }
}
