/** Delivery over whole runs: the dispatcher's rounds interleaved with everything the ledger does,
    crashes and restarts included. */
module DeliveryRuns {
  import opened Text
  import opened Usage
  import opened Ledger
  import opened SpoolModel
  import opened SpoolInvariant
  import opened SpoolReads
  import opened SpoolRuns
  import opened Delivery

  /** A destination: its cursor's name and the metrics it takes. */
  datatype Destination = Destination(name: string, accepts: string -> bool)

  /** Where the dispatcher's loop stands: nothing in hand, the cursor looked up, a batch read and not yet
      delivered, a batch delivered and not yet acknowledged. */
  datatype Stage =
    | Idle
    | At(cursor: nat)
    | Holding(recs: seq<Record>)
    | Sent(upto: nat)

  datatype System = System(spool: Spool, world: World, stage: Stage)

  /** The spool is locked for each call alone, so anything else comes in between. */
  datatype SystemOp =
    | LedgerOp(op: Op)
    | Rewind(number: nat, writeFails: bool)   // an operator moves the cursor back
    | Look(writeFails: bool)
    | Fetch(size: int)
    | Try(b: Backend)
    | Settle(writeFails: bool)

  /** The events of a read that this destination takes. */
  function Deliverable(dest: Destination, recs: seq<Record>): seq<Event>
  {
    if recs == [] then []
    else
      var r := recs[|recs| - 1];
      Deliverable(dest, recs[..|recs| - 1])
      + if r.payload.EventPayload? && dest.accepts(r.payload.event.metric) then [r.payload.event] else []
  }

  const BATCH_SIZE: int := 500

  function LookStep(dest: Destination, s: System, writeFails: bool): System
  {
    var (m1, d1) := TakeCursor(s.spool.m, s.spool.d, dest.name, writeFails);
    System(Spool(m1, d1), s.world, At(m1.cursors[dest.name]))
  }

  function FetchStep(c: Codec, s: System, cursor: nat, size: int): System
  {
    match Read(c, s.spool.m, s.spool.d, cursor, if size <= 0 then BATCH_SIZE else size)
    case None => s.(stage := Idle)
    case Some(recs) => s.(stage := if recs == [] then Idle else Holding(recs))
  }

  /** Delivers what the batch holds for this destination. Failing, the loop starts over. */
  function TryStep(dest: Destination, s: System, b: Backend, recs: seq<Record>): System
    requires recs != []
  {
    var events := Deliverable(dest, recs);
    var (w1, r) := if events == [] then (s.world, Delivered(0)) else Deliver(b, s.world, events);
    System(s.spool, w1, if r.Failed? then Idle else Sent(recs[|recs| - 1].number))
  }

  /** The loop goes on from the moved cursor even when writing it fails. */
  function SettleStep(dest: Destination, s: System, upto: nat, writeFails: bool): System
  {
    var (m1, d1) := Ack(s.spool.m, s.spool.d, dest.name, upto, writeFails);
    System(Spool(m1, d1), s.world, Idle)
  }

  /** SetCursor, to no more than where the cursor is. */
  function RewindStep(dest: Destination, s: System, number: nat, writeFails: bool): System
  {
    var m := s.spool.m;
    if dest.name !in m.cursors || number > m.cursors[dest.name] then s
    else
      var (m1, d1) := SetCursor(m, s.spool.d, dest.name, number, writeFails);
      s.(spool := Spool(m1, d1))
  }

  /** A step the loop is not at changes nothing. A new process has nothing in hand, and its registry
      does not know which tenants exist at the backend. */
  ghost function SystemStep(c: Codec, o: Options, dest: Destination, s: System, op: SystemOp): System
  {
    match op
    case LedgerOp(l) =>
      var s1 := s.(spool := Step(c, o, s.spool, l));
      if Restarts(l) then s1.(stage := Idle, world := s.world.(ensured := map[])) else s1
    case Rewind(number, writeFails) => RewindStep(dest, s, number, writeFails)
    case Look(writeFails) => if s.stage.Idle? then LookStep(dest, s, writeFails) else s
    case Fetch(size) => if s.stage.At? then FetchStep(c, s, s.stage.cursor, size) else s
    case Try(b) => if s.stage.Holding? && s.stage.recs != [] then TryStep(dest, s, b, s.stage.recs) else s
    case Settle(writeFails) => if s.stage.Sent? then SettleStep(dest, s, s.stage.upto, writeFails) else s
  }

  /** What is left of a round, without interruption. */
  function Finish(c: Codec, dest: Destination, s: System, b: Backend, size: int, writeFails: bool): System
    decreases match s.stage case Idle => 0 case Sent(_) => 1 case Holding(_) => 2 case At(_) => 3
  {
    match s.stage
    case Idle => s
    case At(cursor) => Finish(c, dest, FetchStep(c, s, cursor, size), b, size, writeFails)
    case Holding(recs) => if recs == [] then s else Finish(c, dest, TryStep(dest, s, b, recs), b, size, writeFails)
    case Sent(upto) => SettleStep(dest, s, upto, writeFails)
  }

  /** One turn of the loop. */
  function Round(c: Codec, dest: Destination, s: System, b: Backend, size: int, lookFails: bool, ackFails: bool): System
  {
    Finish(c, dest, LookStep(dest, s, lookFails), b, size, ackFails)
  }

  predicate Allowed(op: SystemOp, dest: Destination, start: nat)
  {
    && (op.LedgerOp? ==> LeavesCursor(op.op, dest.name))
    && (op.Rewind? ==> start <= op.number)
  }

  ghost function SystemRun(c: Codec, o: Options, dest: Destination, s: System, ops: seq<SystemOp>): System
  {
    if ops == [] then s else SystemStep(c, o, dest, SystemRun(c, o, dest, s, ops[..|ops| - 1]), ops[|ops| - 1])
  }

  // ---- what holds throughout ----

  predicate Takes(dest: Destination, r: Record) { r.payload.EventPayload? && dest.accepts(r.payload.event.metric) }

  /** Confirmed, dead-lettered, filtered out, or no event at all. */
  predicate SettledAt(dest: Destination, r: Record, w: World)
  {
    Takes(dest, r) ==> r.payload.event in w.confirmed || r.payload.event in w.dead
  }

  ghost predicate Settled(dest: Destination, log: seq<Record>, start: nat, reach: nat, w: World)
  {
    forall i :: start <= i < reach && i < |log| ==> SettledAt(dest, log[i], w)
  }

  /** The event is one this destination takes, recorded after its start. */
  ghost predicate Sourced(dest: Destination, log: seq<Record>, start: nat, e: Event)
  {
    exists i :: start <= i < |log| && Takes(dest, log[i]) && log[i].payload.event == e
  }

  ghost predicate OnlySourced(dest: Destination, log: seq<Record>, start: nat, w: World)
  {
    && (forall e :: e in w.received ==> Sourced(dest, log, start, e))
    && (forall e :: e in w.dead ==> Sourced(dest, log, start, e))
    && (forall e :: e in w.confirmed ==> e in w.received)
  }

  /** The cursor, in memory and on disk, lies between start and reach. */
  ghost predicate Within(s: Spool, dest: string, start: nat, reach: nat)
  {
    && dest in s.m.cursors && s.d.cursors.Some? && dest in s.d.cursors.value
    && start <= s.m.cursors[dest] <= reach && start <= s.d.cursors.value[dest] <= reach
  }

  predicate IsStretch(log: seq<Record>, recs: seq<Record>, from: nat)
  {
    from + |recs| <= |log| && recs == log[from..from + |recs|]
  }

  /** A batch in hand is a stretch of the log that leaves out nothing unsettled, whatever happened since it was read. */
  ghost predicate StageOk(stage: Stage, log: seq<Record>, start: nat, reach: nat)
  {
    match stage
    case Idle => true
    case At(cursor) => start <= cursor <= reach
    case Holding(recs) =>
      recs != [] && exists from: nat ::
        start <= from <= reach && IsStretch(log, recs, from) && recs[|recs| - 1].number == from + |recs|
    case Sent(upto) => start <= upto <= reach
  }

  /** Everything up to reach is settled. The cursor lies no farther, and neither does what was compacted:
      a rewind, or a restart after a cursor write that failed, can put the cursor behind either. */
  ghost predicate Safe(c: Codec, dest: Destination, s: System, h: History, start: nat, reach: nat)
  {
    && Good(c, s.spool, h) && Within(s.spool, dest.name, start, reach)
    && |h.gone| <= reach <= |h.Log()|
    && Settled(dest, h.Log(), start, reach, s.world)
    && OnlySourced(dest, h.Log(), start, s.world)
    && StageOk(s.stage, h.Log(), start, reach)
  }

  // ---- the steps of the loop ----

  lemma {:induction false} DeliverableFrom(dest: Destination, recs: seq<Record>)
    ensures forall i :: 0 <= i < |recs| && Takes(dest, recs[i]) ==> recs[i].payload.event in Deliverable(dest, recs)
    ensures forall e :: e in Deliverable(dest, recs) ==>
      exists i :: 0 <= i < |recs| && Takes(dest, recs[i]) && recs[i].payload.event == e
  {
    if recs != [] {
      var n := |recs| - 1;
      DeliverableFrom(dest, recs[..n]);
      forall e | e in Deliverable(dest, recs)
        ensures exists i :: 0 <= i < |recs| && Takes(dest, recs[i]) && recs[i].payload.event == e
      {
        if e in Deliverable(dest, recs[..n]) {
          var i :| 0 <= i < n && Takes(dest, recs[..n][i]) && recs[..n][i].payload.event == e;
          assert recs[i] == recs[..n][i];
        }
      }
      forall i | 0 <= i < |recs| && Takes(dest, recs[i]) ensures recs[i].payload.event in Deliverable(dest, recs) {
        if i < n { assert recs[i] == recs[..n][i]; }
      }
    }
  }

  /** A batch read at a cursor is a stretch of the log, from the cursor on or from the first record retained. */
  lemma BatchIsStretch(c: Codec, s: Spool, h: History, cursor: nat, size: int)
    requires c.Valid() && Good(c, s, h) && size > 0
    ensures |h.gone| <= |h.Log()| == s.m.committed
    ensures var out := Read(c, s.m, s.d, cursor, size); var from := FirstUnread(h.Log(), |h.gone|, cursor);
      && out.Some? && IsStretch(h.Log(), out.value, from)
      && (out.value != [] ==> out.value[|out.value| - 1].number == from + |out.value|)
  {
    hide Codec.Valid, Inv, Flatten, Read, Newer, Take, IsStretch, Retained;
    ReadIsNaive(c, s.m, s.d, h, cursor, size);
    InvCommitted(c, s.m, s.d, h);
    InvNumbered(c, s.m, s.d, h);
    assert |h.gone| <= |h.Log()| by { GoneIsPrefix(c, s, h); }
    TakeIsStretch(h.Log(), FirstUnread(h.Log(), |h.gone|, cursor), size);
  }

  lemma GoneIsPrefix(c: Codec, s: Spool, h: History)
    requires Good(c, s, h)
    ensures |h.gone| <= |h.Log()|
  {
  }

  lemma TakeIsStretch(log: seq<Record>, from: nat, size: nat)
    requires from <= |log| && NumberedFrom(log, 1)
    ensures var recs := Take(log[from..], size);
      IsStretch(log, recs, from) && (recs != [] ==> recs[|recs| - 1].number == from + |recs|)
  {
  }

  /** After a delivery that failed, or whose acknowledgement was lost, nothing already settled is unsettled. */
  lemma AttemptKeeps(dest: Destination, log: seq<Record>, start: nat, reach: nat, from: nat, n: nat, w: World,
                     w1: World)
    requires start <= from && from + n <= |log|
    requires Settled(dest, log, start, reach, w) && OnlySourced(dest, log, start, w)
    requires Extends(w, w1, Deliverable(dest, log[from..from + n]))
    ensures Settled(dest, log, start, reach, w1) && OnlySourced(dest, log, start, w1)
  {
    hide Deliverable;
    var recs := log[from..from + n];
    DeliverableFrom(dest, recs);
    forall e | e in Deliverable(dest, recs) ensures Sourced(dest, log, start, e) {
      var i :| 0 <= i < |recs| && Takes(dest, recs[i]) && recs[i].payload.event == e;
      assert log[from + i] == recs[i];
    }
    assert forall e :: e in w1.received ==> e in w.received || e in w1.received[|w.received|..];
    assert forall e :: e in w1.dead ==> e in w.dead || e in w1.dead[|w.dead|..];
    assert forall e :: e in w1.confirmed ==> e in w.confirmed || e in w1.confirmed[|w.confirmed|..];
    forall i | start <= i < reach && i < |log| ensures SettledAt(dest, log[i], w1) {
      assert SettledAt(dest, log[i], w);
    }
  }

  /** After a successful delivery the whole batch is settled. */
  lemma SuccessSettles(dest: Destination, log: seq<Record>, start: nat, reach: nat, from: nat, n: nat, w: World,
                       w1: World, dead: nat)
    requires start <= from <= reach && from + n <= |log|
    requires Settled(dest, log, start, reach, w1)
    requires Splits(w, w1, Deliverable(dest, log[from..from + n]), dead)
    ensures Settled(dest, log, start, if from + n > reach then from + n else reach, w1)
  {
    hide Deliverable;
    var recs := log[from..from + n];
    var events := Deliverable(dest, recs);
    DeliverableFrom(dest, recs);
    forall i | reach <= i < from + n ensures SettledAt(dest, log[i], w1) {
      if Takes(dest, log[i]) {
        var e := log[i].payload.event;
        assert recs[i - from] == log[i];
        assert e in multiset(events);
        assert e in w1.confirmed[|w.confirmed|..] || e in w1.dead[|w.dead|..];
      }
    }
  }

  lemma NothingExtends(w: World)
    ensures Extends(w, w, []) && Splits(w, w, [], 0)
  {
    assert w.received[|w.received|..] == [] && w.confirmed[|w.confirmed|..] == [] && w.dead[|w.dead|..] == [];
  }

  lemma LookKeeps(c: Codec, dest: Destination, s: System, h: History, writeFails: bool, start: nat, reach: nat)
    requires Safe(c, dest, s, h, start, reach)
    ensures Safe(c, dest, LookStep(dest, s, writeFails), h, start, reach)
  {
  }

  lemma FetchKeeps(c: Codec, dest: Destination, s: System, h: History, size: int, start: nat, reach: nat)
    requires c.Valid() && Safe(c, dest, s, h, start, reach) && s.stage.At?
    ensures Safe(c, dest, FetchStep(c, s, s.stage.cursor, size), h, start, reach)
  {
    hide Codec.Valid, Good, Read, Flatten, Settled, OnlySourced, IsStretch;
    CommittedIsLog(c, s.spool, h);
    BatchIsStretch(c, s.spool, h, s.stage.cursor, if size <= 0 then BATCH_SIZE else size);
  }

  /** How far the log is settled after an attempt: to the end of the batch when it went through. */
  function Reach(dest: Destination, s: System, b: Backend, reach: nat): nat
  {
    if s.stage.Holding? && s.stage.recs != [] then
      var s1 := TryStep(dest, s, b, s.stage.recs);
      if s1.stage.Sent? && s1.stage.upto > reach then s1.stage.upto else reach
    else reach
  }

  lemma TryKeeps(c: Codec, dest: Destination, s: System, h: History, b: Backend, start: nat, reach: nat)
    requires Safe(c, dest, s, h, start, reach) && s.stage.Holding? && s.stage.recs != []
    ensures Safe(c, dest, TryStep(dest, s, b, s.stage.recs), h, start, Reach(dest, s, b, reach))
  {
    hide Good, Deliverable, Deliver, Flatten, Settled, OnlySourced, Extends, Splits, IsStretch;
    var recs := s.stage.recs;
    var from: nat :| start <= from <= reach && IsStretch(h.Log(), recs, from)
      && recs[|recs| - 1].number == from + |recs|;
    var events := Deliverable(dest, recs);
    var (w1, r) := if events == [] then (s.world, Delivered(0)) else Deliver(b, s.world, events);
    if events == [] { NothingExtends(s.world); } else { DeliverSplits(b, s.world, events); }
    StretchIs(h.Log(), recs, from);
    AttemptKeeps(dest, h.Log(), start, reach, from, |recs|, s.world, w1);
    if r.Delivered? { SuccessSettles(dest, h.Log(), start, reach, from, |recs|, s.world, w1, r.dead); }
  }

  lemma StretchIs(log: seq<Record>, recs: seq<Record>, from: nat)
    requires IsStretch(log, recs, from)
    ensures from + |recs| <= |log| && recs == log[from..from + |recs|]
  {
  }

  lemma SettleKeeps(c: Codec, dest: Destination, s: System, h: History, writeFails: bool, start: nat, reach: nat)
    requires Safe(c, dest, s, h, start, reach) && s.stage.Sent?
    ensures Safe(c, dest, SettleStep(dest, s, s.stage.upto, writeFails), h, start, reach)
  {
    hide Good, Flatten, Settled, OnlySourced;
    GoodIgnoresIDs(c, s.spool, SettleStep(dest, s, s.stage.upto, writeFails).spool, h);
  }

  lemma RewindKeeps(c: Codec, dest: Destination, s: System, h: History, number: nat, writeFails: bool, start: nat,
                    reach: nat)
    requires Safe(c, dest, s, h, start, reach) && start <= number
    ensures Safe(c, dest, RewindStep(dest, s, number, writeFails), h, start, reach)
  {
    hide Good, Flatten, Settled, OnlySourced, StageOk;
    CommittedIsLog(c, s.spool, h);
    GoodIgnoresIDs(c, s.spool, RewindStep(dest, s, number, writeFails).spool, h);
  }

  // ---- the ledger's own steps ----

  /** A longer log unsettles nothing. */
  lemma LongerLog(dest: Destination, log: seq<Record>, more: seq<Record>, start: nat, reach: nat, w: World)
    requires Settled(dest, log, start, reach, w) && OnlySourced(dest, log, start, w) && reach <= |log|
    ensures Settled(dest, log + more, start, reach, w) && OnlySourced(dest, log + more, start, w)
  {
    var all := log + more;
    forall i | start <= i < reach ensures SettledAt(dest, all[i], w) {
      assert all[i] == log[i] && SettledAt(dest, log[i], w);
    }
    forall e | Sourced(dest, log, start, e) ensures Sourced(dest, all, start, e) {
      var i :| start <= i < |log| && Takes(dest, log[i]) && log[i].payload.event == e;
      assert all[i] == log[i];
    }
  }

  lemma LongerStage(stage: Stage, log: seq<Record>, more: seq<Record>, start: nat, reach: nat)
    requires StageOk(stage, log, start, reach)
    ensures StageOk(stage, log + more, start, reach)
  {
    if stage.Holding? {
      var recs := stage.recs;
      var from: nat :| start <= from <= reach && IsStretch(log, recs, from) && recs[|recs| - 1].number == from + |recs|;
      LongerStretch(log, more, recs, from);
    }
  }

  lemma LongerStretch(log: seq<Record>, more: seq<Record>, recs: seq<Record>, from: nat)
    requires IsStretch(log, recs, from)
    ensures IsStretch(log + more, recs, from)
  {
  }

  lemma LedgerKeeps(c: Codec, o: Options, dest: Destination, s: System, h: History, op: Op, start: nat, reach: nat)
    requires c.Valid() && Safe(c, dest, s, h, start, reach) && LeavesCursor(op, dest.name)
    ensures h.parts != []
    ensures Safe(c, dest, SystemStep(c, o, dest, s, LedgerOp(op)), StepHistory(c, o, s.spool, h, op), start, reach)
  {
    hide Codec.Valid, Good, Step, StepHistory, StepRecords, Flatten, Settled, OnlySourced, StageOk;
    StepKeeps(c, o, s.spool, h, op);
    CommittedIsLog(c, s.spool, h);
    StepKeepsCursor(c, o, s.spool, h, op, dest.name, s.spool.m.cursors[dest.name], s.spool.d.cursors.value[dest.name]);
    StepStaysBehind(c, o, s.spool, h, op, dest.name);
    var more := StepRecords(c, o, s.spool, op);
    LongerLog(dest, h.Log(), more, start, reach, s.world);
    LongerStage(s.stage, h.Log(), more, start, reach);
    assert StageOk(Idle, h.Log() + more, start, reach) by { IdleOk(h.Log() + more, start, reach); }
    ForgetEnsured(dest, h.Log() + more, start, reach, s.world);
  }

  lemma IdleOk(log: seq<Record>, start: nat, reach: nat)
    ensures StageOk(Idle, log, start, reach)
  {
  }

  lemma ForgetEnsured(dest: Destination, log: seq<Record>, start: nat, reach: nat, w: World)
    requires Settled(dest, log, start, reach, w) && OnlySourced(dest, log, start, w)
    ensures Settled(dest, log, start, reach, w.(ensured := map[]))
        && OnlySourced(dest, log, start, w.(ensured := map[]))
  {
    forall i | start <= i < reach && i < |log| ensures SettledAt(dest, log[i], w.(ensured := map[])) {
      assert SettledAt(dest, log[i], w);
    }
  }

  lemma CommittedIsLog(c: Codec, s: Spool, h: History)
    requires Good(c, s, h)
    ensures s.m.committed == |h.Log()|
  {
    hide Inv;
    InvCommitted(c, s.m, s.d, h);
  }

  // ---- whole runs ----

  ghost function SystemHistory(c: Codec, o: Options, dest: Destination, s: System, h: History,
                               ops: seq<SystemOp>): History
  {
    if ops == [] then h
    else
      var n := |ops| - 1;
      var before := SystemHistory(c, o, dest, s, h, ops[..n]);
      if !ops[n].LedgerOp? || before.parts == [] then before
      else StepHistory(c, o, SystemRun(c, o, dest, s, ops[..n]).spool, before, ops[n].op)
  }

  ghost predicate SafeSomewhere(c: Codec, dest: Destination, s: System, h: History, start: nat)
  {
    exists reach: nat :: Safe(c, dest, s, h, start, reach)
  }

  /** Every step keeps the invariant, wherever the loop stands when it comes. */
  lemma SystemKeeps(c: Codec, o: Options, dest: Destination, s: System, h: History, op: SystemOp, start: nat,
                    reach: nat)
    requires c.Valid() && Safe(c, dest, s, h, start, reach) && Allowed(op, dest, start)
    ensures op.LedgerOp? ==> h.parts != []
    ensures Safe(c, dest, SystemStep(c, o, dest, s, op),
                 if op.LedgerOp? then StepHistory(c, o, s.spool, h, op.op) else h, start,
                 if op.Try? then Reach(dest, s, op.b, reach) else reach)
  {
    hide Codec.Valid, Safe, Step, StepHistory, LookStep, FetchStep, TryStep, SettleStep, RewindStep;
    match op
    case LedgerOp(l) => LedgerKeeps(c, o, dest, s, h, l, start, reach);
    case Rewind(number, writeFails) => RewindKeeps(c, dest, s, h, number, writeFails, start, reach);
    case Look(writeFails) => if s.stage.Idle? { LookKeeps(c, dest, s, h, writeFails, start, reach); }
    case Fetch(size) => if s.stage.At? { FetchKeeps(c, dest, s, h, size, start, reach); }
    case Try(b) => if s.stage.Holding? && s.stage.recs != [] { TryKeeps(c, dest, s, h, b, start, reach); }
    case Settle(writeFails) => if s.stage.Sent? { SettleKeeps(c, dest, s, h, writeFails, start, reach); }
  }

  lemma {:induction false} RunSafe(c: Codec, o: Options, dest: Destination, s: System, h: History, ops: seq<SystemOp>,
                                   start: nat)
    requires c.Valid() && SafeSomewhere(c, dest, s, h, start)
    requires forall i :: 0 <= i < |ops| ==> Allowed(ops[i], dest, start)
    ensures SafeSomewhere(c, dest, SystemRun(c, o, dest, s, ops), SystemHistory(c, o, dest, s, h, ops), start)
  {
    hide Codec.Valid, Safe, SystemStep, StepHistory, Allowed;
    if ops != [] {
      var n := |ops| - 1;
      RunSafe(c, o, dest, s, h, ops[..n], start);
      var s1, h1 := SystemRun(c, o, dest, s, ops[..n]), SystemHistory(c, o, dest, s, h, ops[..n]);
      var reach: nat :| Safe(c, dest, s1, h1, start, reach);
      SystemKeeps(c, o, dest, s1, h1, ops[n], start, reach);
    }
  }

  /** Registering a destination starts it at the end of the log, with nothing owed. */
  lemma FreshDestination(c: Codec, dest: Destination, s: Spool, h: History)
    requires Good(c, s, h) && dest.name !in s.m.cursors
    ensures Safe(c, dest, LookStep(dest, System(s, NEW_WORLD, Idle), false), h, s.m.committed, s.m.committed)
  {
    hide Inv, Flatten, Good;
    GoodIgnoresIDs(c, s, LookStep(dest, System(s, NEW_WORLD, Idle), false).spool, h);
    GoneIsPrefix(c, s, h);
    CommittedIsLog(c, s, h);
  }

  const NEW_WORLD: World := World([], [], 0, [], [], [], map[])

  // ---- exactly once ----

  /** What a backend that keeps the first copy of each ID has applied. */
  function Applied(received: seq<Event>): seq<Event>
  {
    if received == [] then []
    else
      var n := |received| - 1;
      var before := Applied(received[..n]);
      if exists i :: 0 <= i < |before| && before[i].id == received[n].id then before else before + [received[n]]
  }

  predicate HasID(events: seq<Event>, id: string) { exists i :: 0 <= i < |events| && events[i].id == id }

  /** The event is received, and nothing with its ID before it. */
  ghost predicate FirstCopy(received: seq<Event>, e: Event)
  {
    exists i :: 0 <= i < |received| && received[i] == e && !HasID(received[..i], e.id)
  }

  lemma {:induction false} AppliedOnce(received: seq<Event>)
    ensures forall i, j :: 0 <= i < j < |Applied(received)| ==> Applied(received)[i].id != Applied(received)[j].id
    ensures From(Applied(received), received)
    ensures forall e :: e in received ==> HasID(Applied(received), e.id)
  {
    if received != [] {
      var n := |received| - 1;
      AppliedOnce(received[..n]);
      var before, all := Applied(received[..n]), Applied(received);
      forall e | e in received ensures HasID(all, e.id) {
        if e in received[..n] {
          var i :| 0 <= i < |before| && before[i].id == e.id;
          assert all[i].id == e.id;
        } else {
          assert e == received[n];
          if all != before { assert all[|before|].id == e.id; }
        }
      }
    }
  }

  /** What is applied is exactly the copy of each ID received first. */
  lemma {:induction false} FirstCopyApplied(received: seq<Event>, e: Event)
    ensures e in Applied(received) <==> FirstCopy(received, e)
  {
    if received != [] {
      var n := |received| - 1;
      var x := received[n];
      assert received == received[..n] + [x];
      FirstCopyApplied(received[..n], e);
      OneMoreCopy(received[..n], x, e);
      SameIDs(received[..n], x.id);
    }
  }

  lemma SameIDs(received: seq<Event>, id: string)
    ensures HasID(Applied(received), id) <==> HasID(received, id)
  {
    hide Applied;
    AppliedOnce(received);
    if HasID(Applied(received), id) {
      var i :| 0 <= i < |Applied(received)| && Applied(received)[i].id == id;
      assert Applied(received)[i] in Applied(received) && Applied(received)[i] in received;
      var j :| 0 <= j < |received| && received[j] == Applied(received)[i];
    }
    if HasID(received, id) { var i :| 0 <= i < |received| && received[i].id == id; assert received[i] in received; }
  }

  lemma OneMoreCopy(received: seq<Event>, x: Event, e: Event)
    ensures FirstCopy(received + [x], e) <==> FirstCopy(received, e) || (e == x && !HasID(received, x.id))
  {
    var all := received + [x];
    forall i | 0 <= i <= |received| ensures all[..i] == received[..i] { }
    if FirstCopy(received, e) {
      var i :| 0 <= i < |received| && received[i] == e && !HasID(received[..i], e.id);
      assert all[i] == e && !HasID(all[..i], e.id);
    }
    if e == x && !HasID(received, x.id) { assert all[|received|] == e && all[..|received|] == received; }
    if FirstCopy(all, e) {
      var i :| 0 <= i < |all| && all[i] == e && !HasID(all[..i], e.id);
      if i < |received| { assert received[i] == e && !HasID(received[..i], e.id); }
      else { assert all[..i] == received; }
    }
  }

  /** Delivery safety. In any run of appends, crashes, restarts, compactions, rewinds and delivery steps, in
      any order and whatever the backend answers: every record the cursor has passed was accepted, filtered
      out or dead-lettered; nothing is sent that the ledger does not hold; and a backend that keeps the
      first copy per ID has applied each event at most once. */
  lemma DeliverySafety(c: Codec, o: Options, dest: Destination, s: System, h: History, ops: seq<SystemOp>, start: nat)
    requires c.Valid() && SafeSomewhere(c, dest, s, h, start)
    requires forall i :: 0 <= i < |ops| ==> Allowed(ops[i], dest, start)
    ensures var s1 := SystemRun(c, o, dest, s, ops); var log := SystemHistory(c, o, dest, s, h, ops).Log();
      && s1.spool.m.committed == |log|
      && dest.name in s1.spool.m.cursors && start <= s1.spool.m.cursors[dest.name] <= |log|
      && (forall i :: start <= i < s1.spool.m.cursors[dest.name] ==> SettledAt(dest, log[i], s1.world))
      && OnlySourced(dest, log, start, s1.world)
      && (forall i, j :: 0 <= i < j < |Applied(s1.world.received)| ==>
            Applied(s1.world.received)[i].id != Applied(s1.world.received)[j].id)
  {
    hide Codec.Valid, Good, SystemRun, SystemHistory, Flatten, OnlySourced, StageOk;
    RunSafe(c, o, dest, s, h, ops, start);
    var s1, h1 := SystemRun(c, o, dest, s, ops), SystemHistory(c, o, dest, s, h, ops);
    var reach: nat :| Safe(c, dest, s1, h1, start, reach);
    CommittedIsLog(c, s1.spool, h1);
    AppliedOnce(s1.world.received);
  }

  /** Exactly once, by ID. When the cursor has reached the end of the log, every ID this destination takes is
      applied or dead-lettered, no ID is applied twice, and nothing foreign is applied or dead-lettered. With
      nothing dead-lettered, the IDs applied are exactly those recorded. Events may share an ID, for the
      quantity, the time of recording and the source are no part of it: then the copy received first counts,
      and only another event with its ID stands for one that is neither applied nor dead-lettered. */
  lemma ExactlyOnce(c: Codec, o: Options, dest: Destination, s: System, h: History, ops: seq<SystemOp>, start: nat)
    requires c.Valid() && SafeSomewhere(c, dest, s, h, start)
    requires forall i :: 0 <= i < |ops| ==> Allowed(ops[i], dest, start)
    requires var s1 := SystemRun(c, o, dest, s, ops);
      dest.name in s1.spool.m.cursors && s1.spool.m.cursors[dest.name] == s1.spool.m.committed
    ensures var w1 := SystemRun(c, o, dest, s, ops).world; var applied := Applied(w1.received);
      var log := SystemHistory(c, o, dest, s, h, ops).Log();
      && (forall i, j :: 0 <= i < j < |applied| ==> applied[i].id != applied[j].id)
      && (forall e :: e in applied || e in w1.dead ==> Sourced(dest, log, start, e))
      && (forall e :: Sourced(dest, log, start, e) ==> e in w1.dead || HasID(applied, e.id))
  {
    hide Codec.Valid, SystemRun, SystemHistory, Flatten, Applied, SafeSomewhere, HasID;
    DeliverySafety(c, o, dest, s, h, ops, start);
    var s1, log := SystemRun(c, o, dest, s, ops), SystemHistory(c, o, dest, s, h, ops).Log();
    AppliedOnce(s1.world.received);
    forall e | Sourced(dest, log, start, e) ensures e in s1.world.dead || HasID(Applied(s1.world.received), e.id) {
      var i :| start <= i < |log| && Takes(dest, log[i]) && log[i].payload.event == e;
      assert SettledAt(dest, log[i], s1.world);
    }
  }

  // ---- an operator's rewind ----

  /** The number the round in hand goes on to acknowledge, if its delivery goes through. */
  function InHand(c: Codec, dest: Destination, s: System, b: Backend, size: int): Option<nat>
    decreases match s.stage case Idle => 0 case Sent(_) => 1 case Holding(_) => 2 case At(_) => 3
  {
    match s.stage
    case Idle => None
    case At(cursor) => InHand(c, dest, FetchStep(c, s, cursor, size), b, size)
    case Holding(recs) => if recs == [] then None else InHand(c, dest, TryStep(dest, s, b, recs), b, size)
    case Sent(upto) => Some(upto)
  }

  lemma RoundIs(c: Codec, dest: Destination, s: System, b: Backend, size: int, lookFails: bool, ackFails: bool)
    ensures var s1 := LookStep(dest, s, lookFails); var s2 := FetchStep(c, s1, s1.stage.cursor, size);
      Round(c, dest, s, b, size, lookFails, ackFails) ==
        if s2.stage.Idle? then s2
        else
          var s3 := TryStep(dest, s2, b, s2.stage.recs);
          if s3.stage.Idle? then s3 else SettleStep(dest, s3, s3.stage.upto, ackFails)
  {
    hide Read, Deliver, Deliverable, TakeCursor, Ack;
    var s1 := LookStep(dest, s, lookFails);
    var s2 := FetchStep(c, s1, s1.stage.cursor, size);
    assert Finish(c, dest, s1, b, size, ackFails) == Finish(c, dest, s2, b, size, ackFails);
    if s2.stage.Idle? {
      assert Finish(c, dest, s2, b, size, ackFails) == s2;
    } else {
      var s3 := TryStep(dest, s2, b, s2.stage.recs);
      assert Finish(c, dest, s2, b, size, ackFails) == Finish(c, dest, s3, b, size, ackFails);
    }
  }

  lemma FinishMoves(c: Codec, dest: Destination, s: System, b: Backend, size: int, writeFails: bool)
    requires dest.name in s.spool.m.cursors
    ensures var m1 := Finish(c, dest, s, b, size, writeFails).spool.m;
      var upto := InHand(c, dest, s, b, size); var cursor := s.spool.m.cursors[dest.name];
      && dest.name in m1.cursors
      && m1.cursors[dest.name] == if upto.Some? && upto.value > cursor then upto.value else cursor
    decreases match s.stage case Idle => 0 case Sent(_) => 1 case Holding(_) => 2 case At(_) => 3
  {
    hide Read, Deliver, Deliverable;
    match s.stage
    case At(cursor) => FinishMoves(c, dest, FetchStep(c, s, cursor, size), b, size, writeFails);
    case Holding(recs) => if recs != [] { FinishMoves(c, dest, TryStep(dest, s, b, recs), b, size, writeFails); }
    case _ =>
  }

  lemma SameInHand(c: Codec, dest: Destination, s: System, s1: System, b: Backend, size: int)
    requires s1.world == s.world && s1.stage == s.stage && s1.spool.m.(cursors := s.spool.m.cursors) == s.spool.m
    requires s1.spool.d.(cursors := s.spool.d.cursors) == s.spool.d
    ensures InHand(c, dest, s1, b, size) == InHand(c, dest, s, b, size)
    decreases match s.stage case Idle => 0 case Sent(_) => 1 case Holding(_) => 2 case At(_) => 3
  {
    hide Deliver, Deliverable;
    match s.stage
    case At(cursor) =>
      SameRead(c, s.spool, s1.spool, cursor, if size <= 0 then BATCH_SIZE else size);
      SameInHand(c, dest, FetchStep(c, s, cursor, size), FetchStep(c, s1, cursor, size), b, size);
    case Holding(recs) =>
      if recs != [] { SameInHand(c, dest, TryStep(dest, s, b, recs), TryStep(dest, s1, b, recs), b, size); }
    case _ =>
  }

  lemma SameRead(c: Codec, s: Spool, s1: Spool, cursor: nat, size: int)
    requires s1.m.(cursors := s.m.cursors) == s.m && s1.d.(cursors := s.d.cursors) == s.d
    ensures Read(c, s1.m, s1.d, cursor, size) == Read(c, s.m, s.d, cursor, size)
  {
  }

  /** Where the rest of the round leaves the cursor, when an operator rewinds it first. */
  lemma RewindThen(c: Codec, dest: Destination, s: System, b: Backend, size: int, number: nat, w1: bool, w2: bool)
    requires dest.name in s.spool.m.cursors && number <= s.spool.m.cursors[dest.name] <= s.spool.m.committed
    ensures var s1 := Finish(c, dest, RewindStep(dest, s, number, w1), b, size, w2);
        var upto := InHand(c, dest, s, b, size);
      && dest.name in s1.spool.m.cursors
      && s1.spool.m.cursors[dest.name] == if upto.Some? && upto.value > number then upto.value else number
  {
    hide InHand, Finish;
    var rewound := RewindStep(dest, s, number, w1);
    SameInHand(c, dest, s, rewound, b, size);
    FinishMoves(c, dest, rewound, b, size, w2);
  }

  function LastNumber(recs: seq<Record>): nat { if recs == [] then 0 else recs[|recs| - 1].number }

  /** The highest number the round in hand can acknowledge, which its stage tells: 0 with nothing in hand. */
  function EndInHand(c: Codec, s: System, size: int): nat
  {
    match s.stage
    case Idle => 0
    case At(cursor) =>
      var read := Read(c, s.spool.m, s.spool.d, cursor, if size <= 0 then BATCH_SIZE else size);
      if read.None? then 0 else LastNumber(read.value)
    case Holding(recs) => LastNumber(recs)
    case Sent(upto) => upto
  }

  lemma HandEnds(c: Codec, dest: Destination, s: System, b: Backend, size: int)
    ensures var upto := InHand(c, dest, s, b, size); upto.Some? ==> upto.value == EndInHand(c, s, size)
    decreases match s.stage case Idle => 0 case Sent(_) => 1 case Holding(_) => 2 case At(_) => 3
  {
    hide Read, Deliver, Deliverable;
    match s.stage
    case At(cursor) => HandEnds(c, dest, FetchStep(c, s, cursor, size), b, size);
    case Holding(recs) => if recs != [] { HandEnds(c, dest, TryStep(dest, s, b, recs), b, size); }
    case _ =>
  }

  /** A backend that takes everything. */
  const WILLING: Backend := Backend((_, _) => Accepted, (_, _) => true, (_, _) => Accepted, _ => true, t => t)

  lemma {:induction false} WillingEnsures(w: World, events: seq<Event>, seen: set<string>)
    ensures var (w1, ok) := EnsureTenants(WILLING, w, events, seen);
      ok && w1.sent == w.sent && w1.received == w.received && w1.confirmed == w.confirmed && w1.dead == w.dead
    decreases |events|
  {
    if events != [] {
      var t := events[0].tenant;
      if t in seen || (t in w.ensured && w.ensured[t] == WILLING.fingerprint(t)) {
        WillingEnsures(w, events[1..], seen + {t});
      } else {
        var w1 := w.(asked := w.asked + [t], ensured := w.ensured[t := WILLING.fingerprint(t)]);
        WillingEnsures(w1, events[1..], seen + {t});
      }
    }
  }

  lemma WillingTakes(dest: Destination, s: System, recs: seq<Record>)
    requires recs != []
    ensures TryStep(dest, s, WILLING, recs).stage == Sent(LastNumber(recs))
  {
    hide Deliverable, EnsureTenants, Reaching;
    var events := Deliverable(dest, recs);
    WillingEnsures(s.world, events, {});
  }

  lemma WillingHand(c: Codec, dest: Destination, s: System, size: int)
    ensures var upto := InHand(c, dest, s, WILLING, size);
      (if upto.Some? then upto.value else 0) == EndInHand(c, s, size)
    decreases match s.stage case Idle => 0 case Sent(_) => 1 case Holding(_) => 2 case At(_) => 3
  {
    hide Read, Deliver, Deliverable, TryStep;
    match s.stage
    case At(cursor) => WillingHand(c, dest, FetchStep(c, s, cursor, size), size);
    case Holding(recs) =>
      if recs != [] {
        WillingTakes(dest, s, recs);
        WillingHand(c, dest, TryStep(dest, s, WILLING, recs), size);
      }
    case _ =>
  }

  /** The rewind is in force when the round in hand is over. */
  predicate TakesEffect(c: Codec, dest: Destination, s: System, b: Backend, size: int, number: nat, w1: bool, w2: bool)
  {
    var m1 := Finish(c, dest, RewindStep(dest, s, number, w1), b, size, w2).spool.m;
    dest.name in m1.cursors && m1.cursors[dest.name] == number
  }

  /** Every round reads the cursor again so that a rewind takes effect. Whatever the backend answers, it does
      exactly when the stage the loop is at when it comes holds nothing numbered beyond it: nothing in hand,
      a cursor behind which the next batch ends by then, a batch that ends by then, or a batch delivered up
      to then. Otherwise a backend that takes the batch moves the cursor past the rewind again. */
  lemma RewindUndone(c: Codec, dest: Destination, s: System, size: int, number: nat, w1: bool, w2: bool)
    requires dest.name in s.spool.m.cursors && number <= s.spool.m.cursors[dest.name] <= s.spool.m.committed
    ensures (forall b :: TakesEffect(c, dest, s, b, size, number, w1, w2)) <==> EndInHand(c, s, size) <= number
  {
    hide InHand, Finish, EndInHand;
    forall b ensures EndInHand(c, s, size) <= number ==> TakesEffect(c, dest, s, b, size, number, w1, w2) {
      RewindThen(c, dest, s, b, size, number, w1, w2);
      HandEnds(c, dest, s, b, size);
    }
    RewindThen(c, dest, s, WILLING, size, number, w1, w2);
    WillingHand(c, dest, s, size);
    assert TakesEffect(c, dest, s, WILLING, size, number, w1, w2) ==> EndInHand(c, s, size) <= number;
  }

  // ---- a first cursor that was not written ----

  /** What Cursor leaves, the write of a first cursor failing or not. */
  function Registered(s: Spool, dest: string, writeFails: bool): (r: Spool)
    ensures dest in r.m.cursors
  {
    var (m1, d1) := TakeCursor(s.m, s.d, dest, writeFails);
    Spool(m1, d1)
  }

  ghost function Appending(c: Codec, o: Options, s: Spool, q: Request): Spool { Step(c, o, s, Window(q, false)) }

  ghost function Restarted(c: Codec, o: Options, s: Spool, now: Clock): Spool { Step(c, o, s, Restart(now)) }

  /** Cursor ignores whether a first cursor could be written. If it could not, and the process restarts behind
      an append, the destination starts over at the end of the log: what was appended in between is never
      delivered to it. A first cursor that was written is found again. */
  lemma FirstCursorLost(c: Codec, o: Options, dest: string, s: Spool, h: History, q: Request, now: Clock,
                        writeFails: bool)
    requires c.Valid() && Good(c, s, h)
    requires dest !in s.m.cursors && (s.d.cursors.Some? ==> dest !in s.d.cursors.value)
    ensures var s2 := Appending(c, o, Registered(s, dest, writeFails), q);
      Registered(Restarted(c, o, s2, now), dest, false).m.cursors[dest]
        == if writeFails then s2.m.committed else s.m.committed
  {
    hide Codec.Valid, Good, Step, Flatten, Inv, StepHistory, StepRecords, Appending, Restarted;
    var s1 := Registered(s, dest, writeFails);
    GoodIgnoresIDs(c, s, s1, h);
    var s2 := Appending(c, o, s1, q);
    var h2 := AppendingKeeps(c, o, s1, h, q);
    RestartReads(c, o, s2, h2, now);
  }

  lemma AppendingKeeps(c: Codec, o: Options, s: Spool, h: History, q: Request) returns (h2: History)
    requires c.Valid() && Good(c, s, h)
    ensures var s2 := Appending(c, o, s, q);
      Good(c, s2, h2) && s2.d.cursors == s.d.cursors && s.m.committed <= s2.m.committed
  {
    hide Codec.Valid, Good, Step, StepHistory, StepRecords, Flatten, Inv;
    GoodWritable(c, s, h);
    StepKeeps(c, o, s, h, Window(q, false));
    h2 := StepHistory(c, o, s, h, Window(q, false));
    WindowKeepsCursors(c, o, s, q);
    CommittedGrows(c, s, h, Appending(c, o, s, q), h2);
  }

  lemma WindowKeepsCursors(c: Codec, o: Options, s: Spool, q: Request)
    requires Writable(s.m, s.d)
    ensures Appending(c, o, s, q).d.cursors == s.d.cursors
  {
    hide AppendLocked;
    AppendKeepsCursors(c, o, s.m, s.d, q, false, BeforeRotation);
  }

  /** A restart reads the cursors on disk. */
  lemma RestartReads(c: Codec, o: Options, s: Spool, h: History, now: Clock)
    requires c.Valid() && Good(c, s, h)
    ensures var s1 := Restarted(c, o, s, now);
      s1.m.cursors == ClampCursors(s.d.cursors, s.m.committed) && s1.m.committed == s.m.committed
  {
    hide Codec.Valid, Inv, Open, SpoolCrash.Reopens, Flatten, Reopen;
    GoodWritable(c, s, h);
    InvCommitted(c, s.m, s.d, h);
    SpoolCrash.ReopenClean(c, o, s.d, now, s.m, h);
    ReopenStep(c, o, s, s.d, now, s.m, h);
    InvCommitted(c, Restarted(c, o, s, now).m, Restarted(c, o, s, now).d, h);
  }
}
