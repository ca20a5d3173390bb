/** Concrete runs of the ledger and of delivery in which what the general results say can fail does fail. They
    hold for every codec that has the properties asked of it. */
module ConcreteRuns {
  import opened Text
  import opened Usage
  import opened Ledger
  import opened Segments
  import opened SpoolModel
  import opened SpoolInvariant
  import opened SpoolRecovery
  import opened SpoolReads
  import opened SpoolVerify
  import opened SpoolCompact
  import opened SpoolCrash
  import opened SpoolSteps
  import opened SpoolCompactCrash
  import opened SpoolRuns
  import opened Delivery
  import opened DeliveryRuns
  import opened ControllerObject

  /** A segment is full with its first batch; segments are kept for an hour. */
  const SMALL: Options := Options(1, HOUR, HOUR, 48 * HOUR)

  const USE: Event := Event("1", "vb1_1", "acme", "gpu_hours", 1, "hours", 0, HOUR, "", "", "", "", map[], "", HOUR)

  /** The window that ends at the n-th hour, with one event. */
  function Hour(n: nat): Request
    requires n > 0
  {
    Request(COLLECTOR, n * HOUR, [USE], "", n * HOUR, n * HOUR)
  }

  // ---- a new ledger and its first windows ----

  const NEW: Spool := Spool(Memory([EmptySegment(1)], 0, 0, "", "", map[], map[], map[]),
                            DiskState(map[1 := ""], None, None, map[]))

  lemma NewOpens(c: Codec)
    ensures Open(c, SMALL, EMPTY_DISK, 1) == Some((NEW.m, NEW.d))
  {
    hide ScanFrom, Conclude, Raise, Known;
    ListingUnique(EMPTY_DISK.files.Keys, []);
    assert Listing(EMPTY_DISK.files.Keys) == [];
  }

  lemma NewIsGood(c: Codec)
    requires c.Valid()
    ensures Good(c, NEW, EMPTY_HISTORY)
  {
    hide Codec.Valid, Open, Inv;
    NewOpens(c);
    OpenEmpty(c, SMALL, EMPTY_DISK, 1);
  }

  ghost function OneHour(c: Codec): Spool { Step(c, SMALL, NEW, Window(Hour(1), false)) }

  ghost function OneHourHistory(c: Codec): History { StepHistory(c, SMALL, NEW, EMPTY_HISTORY, Window(Hour(1), false)) }

  ghost function TwoHours(c: Codec): Spool { Step(c, SMALL, OneHour(c), Window(Hour(2), false)) }

  ghost function TwoHoursHistory(c: Codec): History
    requires OneHourHistory(c).parts != []
  {
    StepHistory(c, SMALL, OneHour(c), OneHourHistory(c), Window(Hour(2), false))
  }

  /** What one append of a window with one event does to the active segment. */
  lemma Extended(c: Codec, sg: Segment, last: nat, head: string, q: Request)
    requires |q.events| == 1
    ensures var recs := Batch(c, last, head, q.at, RequestPayloads(q)); var sg1 := Extend(c, sg, recs, q.at);
      && |recs| == 2 && recs[1].number == last + 2
      && sg1.first == sg.first && sg1.last == last + 2 && sg1.lastAt == q.at
      && recs[0].payload == EventPayload(q.events[0])
  {
    hide Lines, NewEntries;
    BatchChained(c, last, head, q.at, RequestPayloads(q));
  }

  lemma FirstHour(c: Codec)
    requires c.Valid()
    ensures var s, h := OneHour(c), OneHourHistory(c);
      && Good(c, s, h) && h.gone == [] && |h.parts| == 1 && |h.Log()| == 2
      && h.Log()[0].payload == EventPayload(USE)
      && |s.m.segs| == 1 && s.m.segs[0].first == 1 && s.m.segs[0].last == 2 && s.m.segs[0].lastAt == HOUR
      && s.m.number == 2 && s.m.committed == 2 && s.m.watermarks == map[COLLECTOR := HOUR] && s.m.cursors == map[]
      && s.d.manifest == None && s.d.cursors == None && Writable(s.m, s.d)
  {
    hide Codec.Valid, Inv, Extend, Lines, Batch, Good;
    NewIsGood(c);
    Extended(c, EmptySegment(1), 0, "", Hour(1));
    assert !RotationDue(SMALL, NEW.m, HOUR);
    StepKeeps(c, SMALL, NEW, EMPTY_HISTORY, Window(Hour(1), false));
    assert EMPTY_HISTORY.Log() == [];
    assert NewRecords(c, NEW.m, Hour(1)) == Batch(c, 0, "", HOUR, RequestPayloads(Hour(1)));
  }

  lemma SecondHour(c: Codec)
    requires c.Valid()
    ensures OneHourHistory(c).parts != []
    ensures var s, h := TwoHours(c), TwoHoursHistory(c);
      && Good(c, s, h) && h.gone == [] && |h.parts| == 2 && |h.Log()| == 4 && |h.UpTo(1)| == 2
      && |s.m.segs| == 2 && s.m.segs[0].last == 2 && s.m.segs[0].lastAt == HOUR && s.m.committed == 4
  {
    hide Codec.Valid, Inv, Extend, Lines, Batch, Good;
    FirstHour(c);
    var s1, h1 := OneHour(c), OneHourHistory(c);
    Extended(c, EmptySegment(3), 2, s1.m.head, Hour(2));
    assert RotationDue(SMALL, s1.m, 2 * HOUR);
    StepKeeps(c, SMALL, s1, h1, Window(Hour(2), false));
    FullSegment(h1, TwoHoursHistory(c));
  }

  lemma FullSegment(h: History, h1: History)
    requires |h.parts| == 1 && h1.gone == h.gone == [] && |h1.parts| == 2 && h1.parts[0] == h.parts[0] && |h.Log()| == 2
    ensures |h1.UpTo(1)| == 2
  {
    assert h1.parts[..1] == h.parts;
  }

  // ---- Compact ----

  /** A crash inside Compact, after one file is gone, leaves a ledger that opens and that Verify rejects. */
  lemma CrashedCompactFailsVerify(c: Codec)
    requires c.Valid()
    ensures TwoHours(c).m.segs != []
    ensures var disk := CompactCrashDisk(SMALL, TwoHours(c).m, TwoHours(c).d, [], 9 * HOUR, FilesGone(1));
      var out := Open(c, SMALL, disk, 9 * HOUR);
      out.Some? && !Verify(c, out.value.0, out.value.1).Ok() && Verify(c, out.value.0, out.value.1).records == 2
  {
    hide Codec.Valid, Inv, Open, Verify, Flatten, CompactCrashDisk, TwoHours, TwoHoursHistory, Remembers;
    SecondHour(c);
    var s, h := TwoHours(c), TwoHoursHistory(c);
    OneGoes(s.m);
    CompactCrash(c, SMALL, s.m, s.d, h, [], 9 * HOUR, FilesGone(1), SMALL, 9 * HOUR, Hour(3));
    LeftIsLater(h, 1);
    assert !DigestsCoincide(c, h, 1);
  }

  lemma OneGoes(m: Memory)
    requires |m.segs| == 2 && m.segs[0].last <= m.committed && m.segs[0].lastAt <= 8 * HOUR
    ensures GoneAt(SMALL, m, [], 9 * HOUR, FilesGone(1)) == 1
  {
    assert m.segs[1..] == [m.segs[1]];
    assert MinCursor(m, []) == m.committed;
    assert Removed(SMALL, m, [], 9 * HOUR) == 1;
  }

  ghost function Rotated(c: Codec): Spool { Step(c, SMALL, OneHour(c), CrashIn(Hour(2), FileCreated, 3 * HOUR)) }

  /** A crash between the next segment's file and the manifest, a restart, and a crash inside Compact: the
      first window is forgotten, and AppendWindow takes it again. */
  lemma WindowCommittedAgain(c: Codec)
    requires c.Valid()
    ensures Rotated(c).m.segs != []
    ensures var disk := CompactCrashDisk(SMALL, Rotated(c).m, Rotated(c).d, [], 9 * HOUR, FilesGone(1));
      var out := Open(c, SMALL, disk, 9 * HOUR);
      && !WindowAccepted(Rotated(c).m, COLLECTOR, HOUR)
      && out.Some? && WindowAccepted(out.value.0, COLLECTOR, HOUR)
  {
    hide Codec.Valid, Inv, Open, Verify, Flatten, CompactCrashDisk, Rotated, Good;
    var h := RotatedIs(c);
    var s := Rotated(c);
    OneGoes(s.m);
    CompactCrash(c, SMALL, s.m, s.d, h, [], 9 * HOUR, FilesGone(1), SMALL, 9 * HOUR, Hour(3));
    LeftIsLater(h, 1);
    assert !Remembers(ManifestOf(s.d), [], s.m, COLLECTOR);
  }

  lemma RotatedIs(c: Codec) returns (h: History)
    requires c.Valid()
    ensures var s := Rotated(c);
      && Inv(c, s.m, s.d, h) && |h.parts| == 2 && Retained(Drop(h, 1)) == []
      && |s.m.segs| == 2 && s.m.segs[0].last == 2 == s.m.committed && s.m.segs[0].lastAt == HOUR
      && s.m.watermarks == map[COLLECTOR := HOUR] && s.d.manifest == None
  {
    hide Codec.Valid, Inv, Open, Flatten, OneHour, OneHourHistory, Holds, ClampCursors, Lines, NewRecords;
    FirstHour(c);
    var s, h1 := OneHour(c), OneHourHistory(c);
    var op := CrashIn(Hour(2), FileCreated, 3 * HOUR);
    h := StepHistory(c, SMALL, s, h1, op);
    StepKeeps(c, SMALL, s, h1, op);
    assert RotationDue(SMALL, s.m, 2 * HOUR);
    CrashAtomic(c, SMALL, s.m, s.d, h1, Hour(2), FileCreated, SMALL, 3 * HOUR);
    OpenKeepsManifest(c, SMALL, CrashDisk(c, SMALL, s.m, s.d, Hour(2), FileCreated), 3 * HOUR);
    assert h.parts[1..] == [[]];
    EmptyFlat();
  }

  lemma EmptyFlat()
    ensures Flatten([[]]) == []
  {
    var parts: seq<seq<Record>> := [[]];
    assert parts[..0] == [] && Flatten(parts) == [];
  }

  lemma OpenKeepsManifest(c: Codec, o: Options, d: DiskState, now: Clock)
    ensures var out := Open(c, o, d, now); out.Some? ==> out.value.1.manifest == d.manifest
  {
  }

  // ---- cursors ----

  const BILLING: Destination := Destination("billing", _ => true)

  lemma AppendingGrows(c: Codec, s: Spool, h: History, n: nat) returns (h1: History)
    requires c.Valid() && Good(c, s, h) && n > 0 && WindowAccepted(s.m, COLLECTOR, Hour(n).windowEnd)
    ensures var s1 := Appending(c, SMALL, s, Hour(n));
      && Good(c, s1, h1) && s1.m.committed == s.m.committed + 2 && |h1.gone| == |h.gone|
      && s1.m.cursors == s.m.cursors && s1.d.cursors == s.d.cursors
      && s1.m.watermarks == s.m.watermarks[COLLECTOR := Hour(n).windowEnd]
  {
    hide Codec.Valid, Good, Flatten, Inv, AppendLocked, AppendedHistory, NewRecords, Step, StepHistory, StepRecords;
    GoodWritable(c, s, h);
    StepKeeps(c, SMALL, s, h, Window(Hour(n), false));
    h1 := StepHistory(c, SMALL, s, h, Window(Hour(n), false));
    WindowStep(c, s, h, Hour(n));
    CommittedIsLog(c, s, h);
    CommittedIsLog(c, Appending(c, SMALL, s, Hour(n)), h1);
    AppendKeepsCursors(c, SMALL, s.m, s.d, Hour(n), false, BeforeRotation);
    AppendedGone(c, SMALL, s.m, s.d, h, Hour(n), false, BeforeRotation);
    AppendRaises(c, s.m, s.d, Hour(n));
  }

  lemma WindowStep(c: Codec, s: Spool, h: History, q: Request)
    requires Writable(s.m, s.d) && WindowAccepted(s.m, q.source, q.windowEnd) && h.parts != []
    ensures Step(c, SMALL, s, Window(q, false)).m == AppendLocked(c, SMALL, s.m, s.d, q, false).0
    ensures Step(c, SMALL, s, Window(q, false)).d == AppendLocked(c, SMALL, s.m, s.d, q, false).1
    ensures StepHistory(c, SMALL, s, h, Window(q, false)) == AppendedHistory(c, SMALL, s.m, h, q, false)
    ensures |StepRecords(c, SMALL, s, Window(q, false))| == |q.events| + 1
  {
    hide AppendLocked, AppendedHistory;
  }

  lemma AppendRaises(c: Codec, m: Memory, d: DiskState, q: Request)
    requires Writable(m, d) && q.windowEnd != 0
    ensures AppendLocked(c, SMALL, m, d, q, false).0.watermarks == m.watermarks[q.source := q.windowEnd]
  {
    hide NewRecords, Extend, Lines;
  }

  /** A first cursor is not written, one window is committed, the process restarts: the destination starts
      behind the window, which is never delivered to it. */
  lemma FirstCursorSlips(c: Codec)
    requires c.Valid()
    ensures var first := Registered(NEW, "billing", true); var s2 := Appending(c, SMALL, first, Hour(1));
      && first.m.cursors["billing"] == 0
      && Registered(Restarted(c, SMALL, s2, 3 * HOUR), "billing", false).m.cursors["billing"] == 2
  {
    hide Codec.Valid, Good, Appending, Restarted;
    NewIsGood(c);
    var first := Registered(NEW, "billing", true);
    GoodIgnoresIDs(c, NEW, first, EMPTY_HISTORY);
    var h1 := AppendingGrows(c, first, EMPTY_HISTORY, 1);
    FirstCursorLost(c, SMALL, "billing", NEW, EMPTY_HISTORY, Hour(1), 3 * HOUR, true);
  }

  /** A batch large enough reads to the end of the log. */
  lemma ReadsToEnd(c: Codec, s: Spool, h: History, cursor: nat)
    requires c.Valid() && Good(c, s, h) && |h.gone| <= cursor < s.m.committed <= cursor + BATCH_SIZE
    ensures var read := Read(c, s.m, s.d, cursor, BATCH_SIZE); read.Some? && LastNumber(read.value) == s.m.committed
  {
    hide Codec.Valid, Inv, Flatten, Read, Newer, Retained;
    ReadIsNaive(c, s.m, s.d, h, cursor, BATCH_SIZE);
    InvCommitted(c, s.m, s.d, h);
    InvNumbered(c, s.m, s.d, h);
  }

  lemma FinishSpool(c: Codec, dest: Destination, s: System, b: Backend, size: int, writeFails: bool)
    ensures var s1 := Finish(c, dest, s, b, size, writeFails).spool;
      && s1.m.(cursors := s.spool.m.cursors) == s.spool.m && s1.d.(cursors := s.spool.d.cursors) == s.spool.d
    decreases match s.stage case Idle => 0 case Sent(_) => 1 case Holding(_) => 2 case At(_) => 3
  {
    hide Read, Deliver, Deliverable;
    match s.stage
    case At(cursor) => FinishSpool(c, dest, FetchStep(c, s, cursor, size), b, size, writeFails);
    case Holding(recs) => if recs != [] { FinishSpool(c, dest, TryStep(dest, s, b, recs), b, size, writeFails); }
    case _ =>
  }

  /** An uninterrupted round with a willing backend brings the cursor to the end of the log. */
  lemma RoundCatchesUp(c: Codec, s: System, h: History)
    requires c.Valid() && Good(c, s.spool, h) && s.stage.Idle? && BILLING.name in s.spool.m.cursors
    requires var cursor := s.spool.m.cursors[BILLING.name];
      |h.gone| <= cursor < s.spool.m.committed <= cursor + BATCH_SIZE
    ensures var s1 := Round(c, BILLING, s, WILLING, 0, false, false);
      && s1.stage.Idle? && Good(c, s1.spool, h) && s1.spool.m.(cursors := s.spool.m.cursors) == s.spool.m
      && BILLING.name in s1.spool.m.cursors && s1.spool.m.cursors[BILLING.name] == s.spool.m.committed
    ensures EndInHand(c, LookStep(BILLING, s, false), 0) == s.spool.m.committed
  {
    hide Codec.Valid, Good, Read, Finish, InHand;
    var s1 := LookStep(BILLING, s, false);
    ReadsToEnd(c, s.spool, h, s.spool.m.cursors[BILLING.name]);
    WillingHand(c, BILLING, s1, 0);
    FinishMoves(c, BILLING, s1, WILLING, 0, false);
    FinishSpool(c, BILLING, s1, WILLING, 0, false);
    FinishEnds(c, BILLING, s1, WILLING, 0, false);
    GoodIgnoresIDs(c, s.spool, Round(c, BILLING, s, WILLING, 0, false, false).spool, h);
  }

  lemma FinishEnds(c: Codec, dest: Destination, s: System, b: Backend, size: int, writeFails: bool)
    requires s.stage != Holding([])
    ensures Finish(c, dest, s, b, size, writeFails).stage.Idle?
    decreases match s.stage case Idle => 0 case Sent(_) => 1 case Holding(_) => 2 case At(_) => 3
  {
    hide Read, Deliver, Deliverable;
    match s.stage
    case At(cursor) => FinishEnds(c, dest, FetchStep(c, s, cursor, size), b, size, writeFails);
    case Holding(recs) => FinishEnds(c, dest, TryStep(dest, s, b, recs), b, size, writeFails);
    case _ =>
  }

  ghost function FirstWindowDelivered(c: Codec): System
  {
    var s := System(Appending(c, SMALL, Registered(NEW, BILLING.name, false), Hour(1)), NEW_WORLD, Idle);
    Round(c, BILLING, s, WILLING, 0, false, false)
  }

  /** The second window is committed, and the loop has just looked its cursor up. */
  ghost function LookedUp(c: Codec): System
  {
    var s := FirstWindowDelivered(c);
    LookStep(BILLING, s.(spool := Appending(c, SMALL, s.spool, Hour(2))), false)
  }

  /** The operator rewinds to the start behind that, and the backend takes the batch: the cursor ends at the
      end of the log, and nothing is sent again. */
  lemma RewindSlips(c: Codec)
    requires c.Valid()
    ensures var s := LookedUp(c); var rewound := RewindStep(BILLING, s, 0, false);
      var s1 := Finish(c, BILLING, rewound, WILLING, 0, false);
      && s.stage == At(2)
      && BILLING.name in rewound.spool.m.cursors && rewound.spool.m.cursors[BILLING.name] == 0
      && BILLING.name in s1.spool.m.cursors && s1.spool.m.cursors[BILLING.name] == 4 && s1.stage.Idle?
  {
    hide Codec.Valid, Good, Appending, Finish, InHand, Round, EndInHand;
    NewIsGood(c);
    var first := Registered(NEW, BILLING.name, false);
    GoodIgnoresIDs(c, NEW, first, EMPTY_HISTORY);
    var h1 := AppendingGrows(c, first, EMPTY_HISTORY, 1);
    RoundCatchesUp(c, System(Appending(c, SMALL, first, Hour(1)), NEW_WORLD, Idle), h1);
    var s := FirstWindowDelivered(c);
    var h2 := AppendingGrows(c, s.spool, h1, 2);
    RoundCatchesUp(c, s.(spool := Appending(c, SMALL, s.spool, Hour(2))), h2);
    RewindThen(c, BILLING, LookedUp(c), WILLING, 0, 0, false, false);
    WillingHand(c, BILLING, LookedUp(c), 0);
    FinishEnds(c, BILLING, RewindStep(BILLING, LookedUp(c), 0, false), WILLING, 0, false);
  }
}
