/** One collection of the controller over a spool object: which windows it meters, committing them one
    by one, and filling what tenant clusters missed (internal/controller/controller.go). */
module ControllerObject {
  import opened Text
  import opened Usage
  import opened Ledger
  import opened SpoolModel
  import opened SpoolInvariant
  import opened Windows
  import opened Gaps
  import SpoolRuns
  import SpoolObject

  const COLLECTOR: string := "collector"
  const TENANT_FILL: string := "tenant-api-fill"

  /** Everything one collection meets: what metering returns, how each append goes, and which tenants
      answer again. Functions of nat take the number of the window or target within the collection. */
  datatype Env = Env(
    meters: bool,
    events: int -> seq<Event>,
    failed: seq<string>,
    targets: seq<string>,
    rotateAt: nat -> Clock,
    at: nat -> Clock,
    writeFails: nat -> bool,
    answers: string -> bool,
    missedEvents: (string, int) -> seq<Event>,
    seenAt: nat -> Clock,
    fillFails: nat -> bool,
    gapNote: int -> string)

  datatype Outcome = NotReady | NothingDue | CollectFailed | CommitFailed(done: nat) | Panicked | Completed

  // ---- what a collection writes ----

  /** The first append that fails, or n. */
  function Failing(env: Env, closed: bool, i: nat, n: nat): (k: nat)
    requires i <= n
    ensures i <= k <= n
    decreases n - i
  {
    if i == n || closed || env.writeFails(i) then i else Failing(env, closed, i + 1, n)
  }

  function WindowRequest(env: Env, i: nat, end: Time, note: string): Request
  {
    Request(COLLECTOR, end, env.events(end), if i == 0 then note else "", env.rotateAt(i), env.at(i))
  }

  predicate Positive(ends: seq<int>) { forall i :: 0 <= i < |ends| ==> ends[i] > 0 }

  /** The payloads of the windows committed: each window's events and its commit record, in order. */
  function WindowPayloads(env: Env, ends: seq<int>, note: string): seq<Payload>
    requires Positive(ends)
  {
    if ends == [] then []
    else
      var n := |ends| - 1;
      assert ends[n] > 0;
      WindowPayloads(env, ends[..n], note) + RequestPayloads(WindowRequest(env, n, ends[n], note))
  }

  function Payloads(recs: seq<Record>): (ps: seq<Payload>)
    ensures |ps| == |recs|
  {
    seq(|recs|, i requires 0 <= i < |recs| => recs[i].payload)
  }

  lemma NewRecordsPayloads(c: Codec, log: seq<Record>, m: Memory, q: Request)
    ensures Payloads(log + NewRecords(c, m, q)) == Payloads(log) + RequestPayloads(q)
  {
    BatchChained(c, m.number, m.head, q.at, RequestPayloads(q));
  }

  /** A committed window moves its source's watermark; nothing else does. */
  lemma AppendMovesWatermark(c: Codec, o: Options, m: Memory, d: DiskState, q: Request, writeFails: bool)
    requires Writable(m, d)
    ensures AppendLocked(c, o, m, d, q, writeFails).0.watermarks
      == if writeFails || q.windowEnd == 0 then m.watermarks else m.watermarks[q.source := q.windowEnd]
  {
    hide NewRecords, Extend, Lines;
  }

  predicate InOrder(ends: seq<int>) { forall i, j :: 0 <= i < j < |ends| ==> ends[i] < ends[j] }

  /** The windows due come in order, after the watermark. */
  lemma DueAscends(cfg: Config, wm: Option<int>, now: int)
    requires cfg.size > 0 && Due(cfg, wm, now).Some? && (wm.Some? ==> wm.value >= 0) && cfg.size <= now
    ensures var due := Due(cfg, wm, now).value;
      InOrder(due) && Positive(due) && (due != [] && wm.Some? ==> wm.value < due[0])
  {
    var latest := Truncate(now, cfg.size);
    EndsAscend(FirstEnd(cfg, wm, latest).0, latest, cfg.size);
  }

  lemma {:induction false} EndsAscend(end: int, latest: int, size: int)
    requires size > 0
    ensures var ends := EndsUpTo(end, latest, size); InOrder(ends) && forall i :: 0 <= i < |ends| ==> end <= ends[i]
    decreases latest - end
  {
    if end <= latest { EndsAscend(end + size, latest, size); }
  }

  /** What commits change: the collector's watermark, the payloads in the ledger, the last window reported. */
  datatype Progress = Progress(wm: Option<int>, ledger: seq<Payload>, lastWindow: int)

  function AfterCommits(env: Env, p: Progress, ends: seq<int>, note: string): Progress
    requires Positive(ends)
  {
    Progress(WatermarkAfter(p.wm, ends), p.ledger + WindowPayloads(env, ends, note),
             if ends == [] then p.lastWindow else ends[|ends| - 1])
  }

  lemma OneMoreCommit(env: Env, p: Progress, ends: seq<int>, n: nat, note: string)
    requires Positive(ends) && n < |ends|
    ensures AfterCommits(env, p, ends[..n + 1], note) ==
      Progress(Some(ends[n]), AfterCommits(env, p, ends[..n], note).ledger
          + RequestPayloads(WindowRequest(env, n, ends[n], note)), ends[n])
  {
    assert ends[..n + 1][..n] == ends[..n];
  }

  // ---- what the ledger holds of a window ----

  /** How many payloads the first k windows take up: their events, and one commit record each. */
  function Before(env: Env, ends: seq<int>, k: nat): nat
    requires k <= |ends|
  {
    if k == 0 then 0 else Before(env, ends, k - 1) + |env.events(ends[k - 1])| + 1
  }

  /** From this place on stand the events metered for the window, in order, and then its one commit record. */
  predicate HoldsWindow(env: Env, end: int, note: string, ps: seq<Payload>, from: nat)
  {
    var evs := env.events(end);
    && end >= 0 && from + |evs| < |ps|
    && (forall i :: 0 <= i < |evs| ==> ps[from + i] == EventPayload(evs[i]))
    && ps[from + |evs|] == CommitPayload(Commit(COLLECTOR, end, |evs|, note))
  }

  /** The payloads are those of the windows, one after another; the note goes with the first. */
  ghost predicate HoldsWindows(env: Env, ends: seq<int>, note: string, ps: seq<Payload>)
  {
    && |ps| == Before(env, ends, |ends|)
    && forall k :: 0 <= k < |ends| ==>
      HoldsWindow(env, ends[k], if k == 0 then note else "", ps, Before(env, ends, k))
  }

  lemma {:induction false} BeforeFront(env: Env, ends: seq<int>, n: nat, k: nat)
    requires k <= n <= |ends|
    ensures Before(env, ends[..n], k) == Before(env, ends, k)
  {
    if k > 0 { BeforeFront(env, ends, n, k - 1); }
  }

  lemma HoldsMore(env: Env, end: int, note: string, ps: seq<Payload>, more: seq<Payload>, from: nat)
    requires HoldsWindow(env, end, note, ps, from)
    ensures HoldsWindow(env, end, note, ps + more, from)
  {
  }

  lemma RequestHolds(env: Env, i: nat, end: Time, note: string, ps: seq<Payload>)
    ensures var more := RequestPayloads(WindowRequest(env, i, end, note));
      && |more| == |env.events(end)| + 1
      && HoldsWindow(env, end, if i == 0 then note else "", ps + more, |ps|)
  {
  }

  /** Everything metered for the windows committed reaches the ledger: each window's events, in order, and
      behind them one commit record that names the window and counts them. */
  lemma {:induction false} WindowsHeld(env: Env, ends: seq<int>, note: string)
    requires Positive(ends)
    ensures HoldsWindows(env, ends, note, WindowPayloads(env, ends, note))
  {
    hide RequestPayloads, WindowRequest, HoldsWindow, Before;
    if ends == [] {
      NothingBefore(env, ends);
    } else {
      var n := |ends| - 1;
      var ps := WindowPayloads(env, ends[..n], note);
      WindowsHeld(env, ends[..n], note);
      var more := RequestPayloads(WindowRequest(env, n, ends[n], note));
      RequestHolds(env, n, ends[n], note, ps);
      BeforeFront(env, ends, n, n);
      BeforeNext(env, ends, n);
      forall k | 0 <= k < |ends|
        ensures HoldsWindow(env, ends[k], if k == 0 then note else "", ps + more, Before(env, ends, k)) {
        if k < n {
          BeforeFront(env, ends, n, k);
          HoldsMore(env, ends[k], if k == 0 then note else "", ps, more, Before(env, ends, k));
        }
      }
    }
  }

  lemma NothingBefore(env: Env, ends: seq<int>)
    ensures Before(env, ends, 0) == 0
  {
  }

  lemma BeforeNext(env: Env, ends: seq<int>, n: nat)
    requires n < |ends|
    ensures Before(env, ends, n + 1) == Before(env, ends, n) + |env.events(ends[n])| + 1
  {
  }

  lemma AddedWindows(env: Env, p: Progress, ends: seq<int>, note: string)
    requires Positive(ends)
    ensures var q := AfterCommits(env, p, ends, note);
      p.ledger <= q.ledger && HoldsWindows(env, ends, note, q.ledger[|p.ledger|..])
  {
    hide WindowPayloads, HoldsWindows;
    WindowsHeld(env, ends, note);
    assert AfterCommits(env, p, ends, note).ledger[|p.ledger|..] == WindowPayloads(env, ends, note);
  }

  /** What a collection added for its windows, whatever fills added behind it. */
  lemma CommitsHeld(env: Env, p: Progress, ends: seq<int>, note: string, ledger: seq<Payload>)
    requires Positive(ends) && AfterCommits(env, p, ends, note).ledger <= ledger
    ensures var n := |p.ledger|; var size := Before(env, ends, |ends|);
      && n + size <= |ledger| && p.ledger <= ledger
      && HoldsWindows(env, ends, note, ledger[n..n + size])
  {
    hide WindowPayloads, HoldsWindow, Before;
    WindowsHeld(env, ends, note);
    var ps := WindowPayloads(env, ends, note);
    assert ledger[|p.ledger|..|p.ledger| + |ps|] == ps;
  }

  predicate Distinct(ids: seq<string>) { forall i, j :: 0 <= i < j < |ids| ==> ids[i] != ids[j] }

  /** Every event of the fill is already remembered. */
  predicate NothingNew(known: set<string>, env: Env, id: string, ends: seq<int>)
  {
    SpoolRuns.Sift(MissedEvents(env, id, ends), known).0 == []
  }

  function Get(gaps: map<string, Gap>, id: string): Option<Gap>
  {
    if id in gaps then Some(gaps[id]) else None
  }

  // ---- what a fill writes ----

  /** The events of the missed windows, in order. */
  function MissedEvents(env: Env, id: string, ends: seq<int>): seq<Event>
  {
    if ends == [] then [] else MissedEvents(env, id, ends[..|ends| - 1]) + env.missedEvents(id, ends[|ends| - 1])
  }

  /** A fill writes events metered for windows it fills, and commit records that name no window. */
  ghost predicate LateFor(env: Env, id: string, ends: seq<int>, p: Payload)
  {
    match p
    case EventPayload(ev) => ev in MissedEvents(env, id, ends)
    case CommitPayload(c) => c.source == TENANT_FILL && c.windowEnd == 0
  }

  ghost predicate Late(env: Env, filled: map<string, seq<int>>, p: Payload)
  {
    exists id :: id in filled && LateFor(env, id, filled[id], p)
  }

  /** An ingest leaves the watermarks alone, and remembers every event it was given unless its write fails. */
  lemma IngestRemembers(c: Codec, o: Options, m: Memory, d: DiskState, source: string, events: seq<Event>, now: Clock,
                        rotateAt: Clock, at: Clock, fails: bool)
    requires Writable(m, d)
    ensures var m1 := SpoolRuns.Ingest(c, o, m, d, source, events, now, rotateAt, at, fails).0;
        var keep := SpoolRuns.Sift(events, m.recentIDs.Keys).0;
      && m1.watermarks == m.watermarks && m.recentIDs.Keys <= m1.recentIDs.Keys
      && (!fails || keep == [] ==> forall ev :: ev in events ==> ev.id in m1.recentIDs)
  {
    hide AppendLocked, SpoolRuns.Sift;
    var keep := SpoolRuns.Sift(events, m.recentIDs.Keys).0;
    SpoolRuns.SiftKeepsNew(events, m.recentIDs.Keys);
    if keep != [] {
      var q := SpoolRuns.IngestRequest(source, keep, rotateAt, at);
      SpoolRuns.AppendKeepsIDs(c, o, m, d, q, fails);
      AppendMovesWatermark(c, o, m, d, q, fails);
    }
  }

  /** What a fill adds to the ledger: the events not seen before and one commit record without a window, or
      nothing when there are none or the write fails. */
  function FillPayloads(events: seq<Event>, known: set<string>, fails: bool): seq<Payload>
  {
    var keep := SpoolRuns.Sift(events, known).0;
    if keep == [] || fails then [] else EventPayloads(keep) + [CommitPayload(Commit(TENANT_FILL, 0, |keep|, ""))]
  }

  lemma IngestWrites(c: Codec, m: Memory, events: seq<Event>, rotateAt: Clock, at: Clock, fails: bool)
    ensures Payloads(SpoolRuns.IngestRecords(c, m, TENANT_FILL, events, rotateAt, at, fails))
            == FillPayloads(events, m.recentIDs.Keys, fails)
  {
    hide SpoolRuns.Sift, Batch;
    var keep := SpoolRuns.Sift(events, m.recentIDs.Keys).0;
    if keep != [] && !fails {
      NewRecordsPayloads(c, [], m, SpoolRuns.IngestRequest(TENANT_FILL, keep, rotateAt, at));
      assert [] + NewRecords(c, m, SpoolRuns.IngestRequest(TENANT_FILL, keep, rotateAt, at))
        == NewRecords(c, m, SpoolRuns.IngestRequest(TENANT_FILL, keep, rotateAt, at));
    }
  }

  lemma FillIsLate(env: Env, id: string, ends: seq<int>, known: set<string>, fails: bool, p: Payload)
    requires p in FillPayloads(MissedEvents(env, id, ends), known, fails)
    ensures !fails && LateFor(env, id, ends, p)
  {
    hide SpoolRuns.Sift, MissedEvents;
    SpoolRuns.SiftKeepsNew(MissedEvents(env, id, ends), known);
  }

  lemma {:induction false} MissedAre(env: Env, id: string, ends: seq<int>, ev: Event)
    ensures ev in MissedEvents(env, id, ends) <==> exists k :: 0 <= k < |ends| && ev in env.missedEvents(id, ends[k])
  {
    if ends != [] {
      var n := |ends| - 1;
      MissedAre(env, id, ends[..n], ev);
      if exists k :: 0 <= k < |ends| && ev in env.missedEvents(id, ends[k]) {
        var k :| 0 <= k < |ends| && ev in env.missedEvents(id, ends[k]);
        if k < n { assert ev in env.missedEvents(id, ends[..n][k]); }
      }
      if ev in MissedEvents(env, id, ends[..n]) {
        var k :| 0 <= k < n && ev in env.missedEvents(id, ends[..n][k]);
        assert ev in env.missedEvents(id, ends[k]);
      }
    }
  }

  ghost predicate HasEvent(ps: seq<Payload>, id: string)
  {
    exists i :: 0 <= i < |ps| && ps[i].EventPayload? && ps[i].event.id == id
  }

  /** What a fill that works adds: for every event of every window it fills the ID is known already or written
      now, once; nothing else is written but one commit record that counts them. */
  lemma FillHolds(env: Env, id: string, ends: seq<int>, known: set<string>)
    ensures var ps := FillPayloads(MissedEvents(env, id, ends), known, false);
      && (forall k, ev :: 0 <= k < |ends| && ev in env.missedEvents(id, ends[k]) ==>
            ev.id in known || HasEvent(ps, ev.id))
      && (forall i :: 0 <= i < |ps| && ps[i].EventPayload? ==>
            ps[i].event.id !in known && exists k :: 0 <= k < |ends| && ps[i].event in env.missedEvents(id, ends[k]))
      && (forall i, j :: 0 <= i < j < |ps| && ps[i].EventPayload? && ps[j].EventPayload? ==>
            ps[i].event.id != ps[j].event.id)
      && (forall i :: 0 <= i < |ps| && ps[i].CommitPayload? ==>
            i == |ps| - 1 && ps[i].commit == Commit(TENANT_FILL, 0, |ps| - 1, ""))
  {
    hide SpoolRuns.Sift, MissedEvents;
    var evs := MissedEvents(env, id, ends);
    SpoolRuns.SiftKeepsNew(evs, known);
    var keep := SpoolRuns.Sift(evs, known).0;
    var ps := FillPayloads(evs, known, false);
    forall k, ev | 0 <= k < |ends| && ev in env.missedEvents(id, ends[k])
      ensures ev.id in known || HasEvent(ps, ev.id) {
      MissedAre(env, id, ends, ev);
      if ev.id !in known {
        var i :| 0 <= i < |keep| && keep[i].id == ev.id;
        assert ps[i] == EventPayload(keep[i]);
      }
    }
    forall i | 0 <= i < |ps| && ps[i].EventPayload?
      ensures ps[i].event.id !in known && exists k :: 0 <= k < |ends| && ps[i].event in env.missedEvents(id, ends[k]) {
      MissedAre(env, id, ends, ps[i].event);
    }
  }

  // ---- one collection ----

  /** The first note says how long a span MAX_BACKFILL cut. */
  function NoteOf(cfg: Config, wm: Option<int>, now: int, env: Env): string
    requires cfg.size > 0
  {
    var (end, cut) := FirstEnd(cfg, wm, Truncate(now, cfg.size));
    if cut && wm.Some? then env.gapNote(end - (wm.value + cfg.size)) else ""
  }

  /** The collection as the window scheduler sees it: how many commits succeed before one fails. */
  /** The note says how much time between the watermark and the first window is skipped, and nothing when none
      is. */
  lemma NoteTells(cfg: Config, wm: Option<int>, now: int, env: Env)
    requires cfg.size > 0
    ensures var due := Due(cfg, wm, now);
      due.Some? && due.value != [] ==>
        NoteOf(cfg, wm, now, env)
        == if wm.Some? && due.value[0] - cfg.size > wm.value then env.gapNote(due.value[0] - cfg.size - wm.value)
           else ""
  {
  }

  function CallOf(cfg: Config, wm: Option<int>, now: int, env: Env, closed: bool): Call
    requires cfg.size > 0
  {
    var due := Due(cfg, wm, now);
    var n := if due.Some? then |due.value| else 0;
    var done := Failing(env, closed, 0, n);
    Call(now, env.meters, if done < n then Some(done) else None)
  }

  function OutcomeOf(cfg: Config, discovered: bool, wm: Option<int>, now: int, env: Env, closed: bool): Outcome
    requires cfg.size > 0
  {
    var due := Due(cfg, wm, now);
    if !discovered then NotReady
    else if due.None? then NothingDue
    else if !env.meters then CollectFailed
    else if Failing(env, closed, 0, |due.value|) < |due.value| then CommitFailed(Failing(env, closed, 0, |due.value|))
    else if due.value == [] then Panicked
    else Completed
  }

  /** What one collection commits. */
  function Committed(cfg: Config, discovered: bool, wm: Option<int>, now: int, env: Env, closed: bool): seq<int>
    requires cfg.size > 0
  {
    if discovered then CommittedBy(cfg, wm, CallOf(cfg, wm, now, env, closed)) else []
  }

  lemma CommittedPositive(cfg: Config, discovered: bool, wm: Option<int>, now: int, env: Env, closed: bool)
    requires cfg.size > 0 && (wm.Some? ==> wm.value >= 0) && cfg.size <= now
    ensures Positive(Committed(cfg, discovered, wm, now, env, closed))
  {
    if Due(cfg, wm, now).Some? { DueAscends(cfg, wm, now); }
  }

  function AnswerOf(filled: map<string, seq<int>>, id: string): FillAnswer
  {
    if id in filled then Filled else StillDown
  }

  /** How the gaps change when the windows first..last are all committed. */
  ghost predicate GapsUpdated(cfg: Config, env: Env, before: map<string, Gap>, after: map<string, Gap>,
                              targets: seq<string>,
                              first: int, last: int, filled: map<string, seq<int>>)
    requires cfg.size > 0
  {
    && (forall id :: id in env.failed ==> Get(after, id) == Some(Recorded(Get(before, id), first, last)))
    && (forall id :: id !in env.failed && id !in targets ==> Get(after, id) == Get(before, id))
    && (forall id :: id !in env.failed && id in targets ==>
          Get(after, id) == FillTenant(cfg, Get(before, id), last, last, false, AnswerOf(filled, id)).0)
  }

  /** Which tenants are filled: never one that is down, each with exactly the windows it is owed. */
  ghost predicate FillsOwed(cfg: Config, env: Env, before: map<string, Gap>, targets: seq<string>, last: int,
                            filled: map<string, seq<int>>)
    requires cfg.size > 0
  {
    forall id :: id in filled ==>
      && id in targets && id !in env.failed && env.answers(id) && filled[id] != []
      && filled[id] == FillTenant(cfg, Get(before, id), last, last, false, Filled).1
  }

  /** Every target that answers and whose append works is filled. */
  ghost predicate FillsAll(cfg: Config, env: Env, before: map<string, Gap>, n: nat, last: int,
                           filled: map<string, seq<int>>)
    requires cfg.size > 0 && n <= |env.targets|
  {
    forall i :: 0 <= i < n && env.targets[i] !in env.failed && env.answers(env.targets[i]) && !env.fillFails(i)
                && FillTenant(cfg, Get(before, env.targets[i]), last, last, false, Filled).1 != []
      ==> env.targets[i] in filled
  }

  /** The events of every fill are in the dedupe set, hence in the ledger. */
  ghost predicate FillsRemembered(env: Env, known: set<string>, filled: map<string, seq<int>>)
  {
    forall id :: id in filled ==> forall ev :: ev in MissedEvents(env, id, filled[id]) ==> ev.id in known
  }

  function With(filled: map<string, seq<int>>, id: string, r: Option<seq<int>>): map<string, seq<int>>
  {
    if r.Some? then filled[id := r.value] else filled
  }

  lemma NoTargets(cfg: Config, env: Env, before: map<string, Gap>, after: map<string, Gap>, first: int, last: int,
                  known: set<string>)
    requires cfg.size > 0
    requires forall id ::
      Get(after, id) == if id in env.failed then Some(Recorded(Get(before, id), first, last)) else Get(before, id)
    ensures env.targets[..0] == [] && GapsUpdated(cfg, env, before, after, [], first, last, map[])
    ensures FillsOwed(cfg, env, before, [], last, map[]) && FillsAll(cfg, env, before, 0, last, map[])
        && FillsRemembered(env, known, map[])
  {
  }

  lemma DownTarget(cfg: Config, env: Env, start: map<string, Gap>, gaps: map<string, Gap>, i: nat, first: int,
                   last: int, filled: map<string, seq<int>>)
    requires cfg.size > 0 && i < |env.targets| && env.targets[i] in env.failed
    requires GapsUpdated(cfg, env, start, gaps, env.targets[..i], first, last, filled)
        && FillsOwed(cfg, env, start, env.targets[..i], last, filled)
    ensures GapsUpdated(cfg, env, start, gaps, env.targets[..i + 1], first, last, filled)
        && FillsOwed(cfg, env, start, env.targets[..i + 1], last, filled)
    ensures FillsAll(cfg, env, start, i, last, filled) ==> FillsAll(cfg, env, start, i + 1, last, filled)
  {
    hide GapsUpdated, FillsOwed, FillsAll;
    DownGaps(cfg, env, start, gaps, i, first, last, filled);
    DownOwed(cfg, env, start, i, last, filled);
    DownAll(cfg, env, start, i, last, filled);
  }

  lemma DownGaps(cfg: Config, env: Env, start: map<string, Gap>, gaps: map<string, Gap>, i: nat, first: int,
                 last: int, filled: map<string, seq<int>>)
    requires cfg.size > 0 && i < |env.targets| && env.targets[i] in env.failed
    requires GapsUpdated(cfg, env, start, gaps, env.targets[..i], first, last, filled)
    ensures GapsUpdated(cfg, env, start, gaps, env.targets[..i + 1], first, last, filled)
  {
    hide FillTenant, Recorded;
    OneMoreTarget(env.targets, i);
  }

  lemma DownOwed(cfg: Config, env: Env, start: map<string, Gap>, i: nat, last: int, filled: map<string, seq<int>>)
    requires cfg.size > 0 && i < |env.targets| && FillsOwed(cfg, env, start, env.targets[..i], last, filled)
    ensures FillsOwed(cfg, env, start, env.targets[..i + 1], last, filled)
  {
    hide FillTenant;
    OneMoreTarget(env.targets, i);
  }

  lemma DownAll(cfg: Config, env: Env, start: map<string, Gap>, i: nat, last: int, filled: map<string, seq<int>>)
    requires cfg.size > 0 && i < |env.targets| && env.targets[i] in env.failed
    ensures FillsAll(cfg, env, start, i, last, filled) ==> FillsAll(cfg, env, start, i + 1, last, filled)
  {
    hide FillTenant;
  }

  lemma OneMoreTarget(targets: seq<string>, i: nat)
    requires i < |targets|
    ensures forall id :: id in targets[..i + 1] <==> id in targets[..i] || id == targets[i]
  {
    assert targets[..i + 1] == targets[..i] + [targets[i]];
  }

  /** What FillTarget did to the i-th target. */
  ghost predicate Handled(cfg: Config, env: Env, before: map<string, Gap>, after: map<string, Gap>, i: nat, last: int,
                          r: Option<seq<int>>, closed: bool)
    requires cfg.size > 0 && i < |env.targets|
  {
    var id := env.targets[i];
    var owed := FillTenant(cfg, Get(before, id), last, last, false, Filled).1;
    && Get(after, id) == FillTenant(cfg, Get(before, id), last, last, false, if r.Some? then Filled else StillDown).0
    && (r.Some? ==> r.value == owed != [] && env.answers(id))
    && (!closed && owed != [] && env.answers(id) && !env.fillFails(i) ==> r.Some?)
    && forall other :: other != id ==> Get(after, other) == Get(before, other)
  }

  lemma UpTarget(cfg: Config, env: Env, start: map<string, Gap>, before: map<string, Gap>, after: map<string, Gap>,
                 i: nat,
                 first: int, last: int, filled: map<string, seq<int>>, r: Option<seq<int>>, closed: bool)
    requires cfg.size > 0 && i < |env.targets| && env.targets[i] !in env.failed && env.targets[i] !in env.targets[..i]
    requires GapsUpdated(cfg, env, start, before, env.targets[..i], first, last, filled)
        && FillsOwed(cfg, env, start, env.targets[..i], last, filled)
    requires Handled(cfg, env, before, after, i, last, r, closed)
    ensures var more := With(filled, env.targets[i], r);
      && env.targets[i] !in filled
      && GapsUpdated(cfg, env, start, after, env.targets[..i + 1], first, last, more)
      && FillsOwed(cfg, env, start, env.targets[..i + 1], last, more)
      && (!closed && FillsAll(cfg, env, start, i, last, filled) ==> FillsAll(cfg, env, start, i + 1, last, more))
  {
    hide FillTenant, Recorded, Get, GapsUpdated, FillsOwed, FillsAll, Handled;
    UntouchedYet(cfg, env, start, before, i, first, last, filled);
    UpGaps(cfg, env, start, before, after, i, first, last, filled, r, closed);
    UpOwed(cfg, env, start, before, after, i, last, filled, r, closed);
    if !closed && FillsAll(cfg, env, start, i, last, filled) {
      UpAll(cfg, env, start, before, after, i, last, filled, r);
    }
  }

  lemma UntouchedYet(cfg: Config, env: Env, start: map<string, Gap>, before: map<string, Gap>, i: nat, first: int,
                     last: int, filled: map<string, seq<int>>)
    requires cfg.size > 0 && i < |env.targets| && env.targets[i] !in env.failed && env.targets[i] !in env.targets[..i]
    requires GapsUpdated(cfg, env, start, before, env.targets[..i], first, last, filled)
        && FillsOwed(cfg, env, start, env.targets[..i], last, filled)
    ensures Get(before, env.targets[i]) == Get(start, env.targets[i]) && env.targets[i] !in filled
  {
    hide FillTenant, Recorded, Get;
  }

  lemma UpGaps(cfg: Config, env: Env, start: map<string, Gap>, before: map<string, Gap>, after: map<string, Gap>,
               i: nat,
               first: int, last: int, filled: map<string, seq<int>>, r: Option<seq<int>>, closed: bool)
    requires cfg.size > 0 && i < |env.targets| && env.targets[i] !in env.failed && env.targets[i] !in env.targets[..i]
    requires GapsUpdated(cfg, env, start, before, env.targets[..i], first, last, filled)
        && Handled(cfg, env, before, after, i, last, r, closed)
    requires Get(before, env.targets[i]) == Get(start, env.targets[i]) && env.targets[i] !in filled
    ensures GapsUpdated(cfg, env, start, after, env.targets[..i + 1], first, last, With(filled, env.targets[i], r))
  {
    hide FillTenant, Recorded, Get;
    assert env.targets[..i + 1] == env.targets[..i] + [env.targets[i]];
  }

  lemma UpOwed(cfg: Config, env: Env, start: map<string, Gap>, before: map<string, Gap>, after: map<string, Gap>,
               i: nat,
               last: int, filled: map<string, seq<int>>, r: Option<seq<int>>, closed: bool)
    requires cfg.size > 0 && i < |env.targets| && env.targets[i] !in env.failed
    requires FillsOwed(cfg, env, start, env.targets[..i], last, filled)
        && Handled(cfg, env, before, after, i, last, r, closed)
    requires Get(before, env.targets[i]) == Get(start, env.targets[i])
    ensures FillsOwed(cfg, env, start, env.targets[..i + 1], last, With(filled, env.targets[i], r))
  {
    hide FillTenant, Get;
    assert env.targets[..i + 1] == env.targets[..i] + [env.targets[i]];
  }

  lemma UpAll(cfg: Config, env: Env, start: map<string, Gap>, before: map<string, Gap>, after: map<string, Gap>, i: nat,
              last: int, filled: map<string, seq<int>>, r: Option<seq<int>>)
    requires cfg.size > 0 && i < |env.targets| && FillsAll(cfg, env, start, i, last, filled)
        && Handled(cfg, env, before, after, i, last, r, false)
    requires Get(before, env.targets[i]) == Get(start, env.targets[i])
    ensures FillsAll(cfg, env, start, i + 1, last, With(filled, env.targets[i], r))
  {
    hide FillTenant, Get;
  }

  lemma LedgerGrows(env: Env, a: seq<Payload>, b: seq<Payload>, c: seq<Payload>, filled: map<string, seq<int>>,
                    id: string, r: Option<seq<int>>)
    requires a <= b <= c && id !in filled
    requires (forall p :: p in b[|a|..] ==> Late(env, filled, p)) && forall p :: p in c[|b|..] ==>
      r.Some? && LateFor(env, id, r.value, p)
    ensures forall p :: p in c[|a|..] ==> Late(env, With(filled, id, r), p)
  {
    hide LateFor;
    assert c[|a|..] == b[|a|..] + c[|b|..];
    forall p | p in c[|a|..] ensures Late(env, With(filled, id, r), p) {
      if p in b[|a|..] {
        var k :| k in filled && LateFor(env, k, filled[k], p);
        assert k in With(filled, id, r) && With(filled, id, r)[k] == filled[k];
      } else {
        assert p in c[|b|..];
        assert With(filled, id, r)[id] == r.value;
      }
    }
  }

  lemma KnownGrows(env: Env, known: set<string>, more: set<string>, filled: map<string, seq<int>>, id: string,
                   r: Option<seq<int>>)
    requires known <= more && FillsRemembered(env, known, filled)
    requires r.Some? ==> forall ev :: ev in MissedEvents(env, id, r.value) ==> ev.id in more
    ensures FillsRemembered(env, more, With(filled, id, r))
  {
    hide MissedEvents;
  }

  class Controller {
    const cfg: Config
    const spool: SpoolObject.Spool
    var gaps: map<string, Gap>
    var discovered: bool
    var lastWindow: int

    constructor (cfg: Config, spool: SpoolObject.Spool)
      requires cfg.size > 0
      ensures this.cfg == cfg && this.spool == spool && gaps == map[] && !discovered
    {
      this.cfg, this.spool, gaps, discovered, lastWindow := cfg, spool, map[], false, 0;
    }

    ghost predicate Valid()
      reads this, spool, spool.disk
    {
      spool.Valid() && cfg.size > 0
    }

    /** Watermark(SourceCollector). */
    function Wm(): Option<int>
      reads spool
    {
      if COLLECTOR in spool.watermarks then Some(spool.watermarks[COLLECTOR]) else None
    }

    ghost function Now(): Progress
      reads this, spool
    {
      Progress(Wm(), Payloads(spool.history.Log()), lastWindow)
    }

    /** Commits the windows in order until an append fails. */
    method CommitWindows(windows: seq<int>, note: string, env: Env) returns (done: nat)
      requires Valid() && Positive(windows) && InOrder(windows)
        && (windows != [] && Wm().Some? ==> Wm().value < windows[0])
      modifies this`lastWindow, spool, spool.disk
      ensures done <= |windows| && Positive(windows[..done])
          && Now() == AfterCommits(env, old(Now()), windows[..done], note)
      ensures old(Now()).ledger <= Now().ledger
        && HoldsWindows(env, windows[..done], note, Now().ledger[|old(Now()).ledger|..])
      ensures Valid() && spool.closed == old(spool.closed) && done == Failing(env, spool.closed, 0, |windows|)
    {
      hide SpoolModel.AppendLocked, NewRecords, RequestPayloads, Inv, Flatten, AfterCommits, Payloads, HoldsWindows;
      done := 0;
      assert Now() == AfterCommits(env, Now(), [], note) by { NoCommits(env, Now(), note); }
      while done < |windows|
        invariant done <= |windows| && Valid() && spool.closed == old(spool.closed)
        invariant Failing(env, spool.closed, 0, |windows|) == Failing(env, spool.closed, done, |windows|)
        invariant done > 0 ==> Wm() == Some(windows[done - 1])
        invariant done == 0 ==> Wm() == old(Wm())
        invariant Now() == AfterCommits(env, old(Now()), windows[..done], note)
      {
        OneMoreCommit(env, old(Now()), windows, done, note);
        var ok := CommitWindow(windows[done], done, note, env);
        if !ok { break; }
        done := done + 1;
      }
      AddedWindows(env, old(Now()), windows[..done], note);
    }

    /** Commits the i-th window. */
    method CommitWindow(end: int, i: nat, note: string, env: Env) returns (ok: bool)
      requires Valid() && end > 0 && (Wm().Some? ==> Wm().value < end)
      modifies this`lastWindow, spool, spool.disk
      ensures Valid() && spool.closed == old(spool.closed) && ok == !(spool.closed || env.writeFails(i))
      ensures Now() == if !ok then old(Now())
                       else Progress(Some(end),
                                     old(Now()).ledger + RequestPayloads(WindowRequest(env, i, end, note)), end)
      ensures ok ==>
        && |Now().ledger| == |old(Now()).ledger| + |env.events(end)| + 1
        && HoldsWindow(env, end, if i == 0 then note else "", Now().ledger, |old(Now()).ledger|)
    {
      hide SpoolModel.AppendLocked, NewRecords, RequestPayloads, Inv, Flatten;
      ghost var m, d, log := spool.View(), spool.disk.State(), spool.history.Log();
      var q := WindowRequest(env, i, end, note);
      ok := spool.AppendWindow(q, env.writeFails(i));
      if !old(spool.closed) { AppendMovesWatermark(spool.codec, spool.opts, m, d, q, env.writeFails(i)); }
      NewRecordsPayloads(spool.codec, log, m, q);
      RequestHolds(env, i, end, note, Payloads(log));
      assert log + [] == log;
      if ok { lastWindow := end; }
    }

    /** Opens or stretches the span of every failed tenant to first..last. */
    method RecordFailed(first: int, last: int, env: Env)
      requires Distinct(env.failed)
      modifies this`gaps
      ensures forall id :: Get(gaps, id)
                == if id in env.failed then Some(Recorded(Get(old(gaps), id), first, last)) else Get(old(gaps), id)
    {
      var i := 0;
      while i < |env.failed|
        invariant i <= |env.failed|
        invariant forall id :: Get(gaps, id) == if id in env.failed[..i]
          then Some(Recorded(Get(old(gaps), id), first, last)) else Get(old(gaps), id)
      {
        var id := env.failed[i];
        assert id !in env.failed[..i];
        assert env.failed[..i + 1] == env.failed[..i] + [id];
        gaps := gaps[id := Recorded(Get(gaps, id), first, last)];
        i := i + 1;
      }
      assert env.failed[..i] == env.failed;
    }

    /** Meters what one tenant cluster missed, if it answers again: the windows filled, or None. */
    method FillTarget(i: nat, id: string, last: int, env: Env) returns (r: Option<seq<int>>)
      requires Valid()
      modifies this`gaps, spool, spool.disk
      ensures Valid() && spool.closed == old(spool.closed) && Now().wm == old(Now().wm)
      ensures var owed := FillTenant(cfg, Get(old(gaps), id), last, last, false, Filled).1;
        && Get(gaps, id)
          == FillTenant(cfg, Get(old(gaps), id), last, last, false, if r.Some? then Filled else StillDown).0
        && (r.Some? <==>
              owed != [] && env.answers(id) && !spool.closed
              && (!env.fillFails(i) || NothingNew(old(spool.recentIDs).Keys, env, id, owed)))
        && (r.Some? ==> r.value == owed)
      ensures forall other :: other != id ==> Get(gaps, other) == Get(old(gaps), other)
      ensures old(spool.recentIDs).Keys <= spool.recentIDs.Keys
      ensures r.Some? ==> forall ev :: ev in MissedEvents(env, id, r.value) ==> ev.id in spool.recentIDs
      ensures old(Now().ledger) <= Now().ledger
      ensures forall p :: p in Now().ledger[|old(Now().ledger)|..] ==> r.Some? && LateFor(env, id, r.value, p)
    {
      hide Inv, Flatten, MissedEvents, SpoolRuns.Ingest, SpoolRuns.Sift, SpoolRuns.IngestRecords, Missed;
      if id !in gaps { return None; }
      var g := gaps[id];
      if g.last < g.first {
        gaps := gaps - {id};
        return None;
      }
      var missed := Missed(cfg, g, last);
      if missed == [] {
        gaps := gaps - {id};
        return None;
      }
      if !env.answers(id) { return None; }
      var wrote := Ingest(i, id, missed, env);
      if !wrote { return None; }
      gaps := gaps - {id};
      return Some(missed);
    }

    /** One fill: what the missed windows held goes through AppendIngest. */
    method Ingest(i: nat, id: string, missed: seq<int>, env: Env) returns (ok: bool)
      requires Valid()
      modifies spool, spool.disk
      ensures Valid() && spool.closed == old(spool.closed) && Now().wm == old(Now().wm)
      ensures ok <==> !spool.closed && (!env.fillFails(i) || NothingNew(old(spool.recentIDs).Keys, env, id, missed))
      ensures old(spool.recentIDs).Keys <= spool.recentIDs.Keys
      ensures ok ==> forall ev :: ev in MissedEvents(env, id, missed) ==> ev.id in spool.recentIDs
      ensures Now().ledger == old(Now().ledger) +
                if spool.closed then []
                  else FillPayloads(MissedEvents(env, id, missed), old(spool.recentIDs).Keys, env.fillFails(i))
      ensures forall p :: p in Now().ledger[|old(Now().ledger)|..] ==> ok && LateFor(env, id, missed, p)
    {
      hide Inv, Flatten, SpoolRuns.Ingest, SpoolRuns.Sift, SpoolRuns.IngestRecords, Payloads, FillPayloads;
      var evs := Gather(id, missed, env);
      ghost var m, d, log := spool.View(), spool.disk.State(), spool.history.Log();
      var accepted, dups;
      ok, accepted, dups := spool.AppendIngest(TENANT_FILL, evs, env.seenAt(i), env.rotateAt(i), env.at(i),
          env.fillFails(i));
      if !old(spool.closed) {
        IngestRemembers(spool.codec, spool.opts, m, d, TENANT_FILL, evs, env.seenAt(i), env.rotateAt(i), env.at(i),
            env.fillFails(i));
        ghost var recs := SpoolRuns.IngestRecords(spool.codec, m, TENANT_FILL, evs, env.rotateAt(i), env.at(i),
            env.fillFails(i));
        PayloadsAppend(log, recs);
        IngestWrites(spool.codec, m, evs, env.rotateAt(i), env.at(i), env.fillFails(i));
        assert Now().ledger[|Payloads(log)|..] == Payloads(recs);
        forall p | p in Payloads(recs) ensures ok && LateFor(env, id, missed, p) {
          FillIsLate(env, id, missed, m.recentIDs.Keys, env.fillFails(i), p);
        }
      }
    }

    /** The events of the missed windows, window by window. */
    method Gather(id: string, missed: seq<int>, env: Env) returns (evs: seq<Event>)
      ensures evs == MissedEvents(env, id, missed)
    {
      evs := [];
      var j := 0;
      while j < |missed|
        invariant j <= |missed| && evs == MissedEvents(env, id, missed[..j])
      {
        assert missed[..j + 1][..j] == missed[..j];
        evs := evs + env.missedEvents(id, missed[j]);
        j := j + 1;
      }
      assert missed[..j] == missed;
    }

    /** Remembers the tenants that failed, and meters what others had missed. */
    method FillTenantGaps(first: int, last: int, env: Env) returns (filled: map<string, seq<int>>)
      requires Valid() && Distinct(env.failed) && Distinct(env.targets)
      modifies this`gaps, spool, spool.disk
      ensures Valid() && spool.closed == old(spool.closed) && Now().wm == old(Now().wm)
      ensures GapsUpdated(cfg, env, old(gaps), gaps, env.targets, first, last, filled)
      ensures FillsOwed(cfg, env, old(gaps), env.targets, last, filled)
      ensures !spool.closed ==> FillsAll(cfg, env, old(gaps), |env.targets|, last, filled)
      ensures FillsRemembered(env, spool.recentIDs.Keys, filled)
      ensures old(Now().ledger) <= Now().ledger && forall p :: p in Now().ledger[|old(Now().ledger)|..] ==>
        Late(env, filled, p)
    {
      hide Inv, Flatten, MissedEvents, FillTenant, Recorded, Payloads, GapsUpdated, FillsOwed, FillsAll,
          FillsRemembered, Late, LateFor, With;
      RecordFailed(first, last, env);
      NoTargets(cfg, env, old(gaps), gaps, first, last, spool.recentIDs.Keys);
      filled := map[];
      var i := 0;
      while i < |env.targets|
        invariant i <= |env.targets|
        invariant Valid() && spool.closed == old(spool.closed) && Now().wm == old(Now().wm)
        invariant GapsUpdated(cfg, env, old(gaps), gaps, env.targets[..i], first, last, filled)
        invariant FillsOwed(cfg, env, old(gaps), env.targets[..i], last, filled)
        invariant !spool.closed ==> FillsAll(cfg, env, old(gaps), i, last, filled)
        invariant FillsRemembered(env, spool.recentIDs.Keys, filled)
        invariant old(Now().ledger) <= Now().ledger && forall p :: p in Now().ledger[|old(Now().ledger)|..] ==>
          Late(env, filled, p)
      {
        var id := env.targets[i];
        assert id !in env.targets[..i] && env.targets[..i + 1] == env.targets[..i] + [id];
        if id in env.failed {
          DownTarget(cfg, env, old(gaps), gaps, i, first, last, filled);
        } else {
          ghost var known, ledger, before := spool.recentIDs.Keys, Now().ledger, gaps;
          var r := FillTarget(i, id, last, env);
          UpTarget(cfg, env, old(gaps), before, gaps, i, first, last, filled, r, spool.closed);
          LedgerGrows(env, old(Now().ledger), ledger, Now().ledger, filled, id, r);
          KnownGrows(env, known, spool.recentIDs.Keys, filled, id, r);
          filled := With(filled, id, r);
        }
        i := i + 1;
      }
      assert env.targets[..i] == env.targets;
    }

    /** One collection, from the window list to the gaps. */
    method CollectDue(now: Clock, env: Env) returns (outcome: Outcome, filled: map<string, seq<int>>)
      requires Valid() && cfg.size <= now && Distinct(env.failed) && Distinct(env.targets)
      modifies this, spool, spool.disk
      ensures Valid() && discovered == old(discovered) && spool.closed == old(spool.closed)
      ensures outcome == OutcomeOf(cfg, discovered, old(Wm()), now, env, spool.closed)
      ensures var committed := Committed(cfg, discovered, old(Wm()), now, env, spool.closed);
        && Positive(committed)
        && var after := AfterCommits(env, old(Now()), committed, NoteOf(cfg, old(Wm()), now, env));
          && Now().wm == after.wm && Now().lastWindow == after.lastWindow
          && after.ledger <= Now().ledger && (outcome != Completed ==> Now().ledger == after.ledger)
          && forall p :: p in Now().ledger[|after.ledger|..] ==> Late(env, filled, p)
      ensures var committed := Committed(cfg, discovered, old(Wm()), now, env, spool.closed);
        var n := |old(Now()).ledger|; var size := Before(env, committed, |committed|);
        && n + size <= |Now().ledger| && old(Now()).ledger <= Now().ledger
        && HoldsWindows(env, committed, NoteOf(cfg, old(Wm()), now, env), Now().ledger[n..n + size])
      ensures outcome != Completed ==> gaps == old(gaps) && filled == map[]
      ensures outcome == Completed ==>
        var committed := Committed(cfg, discovered, old(Wm()), now, env, spool.closed);
        && committed != []
        && var first, last := committed[0], committed[|committed| - 1];
          && GapsUpdated(cfg, env, old(gaps), gaps, env.targets, first, last, filled)
          && FillsOwed(cfg, env, old(gaps), env.targets, last, filled)
          && FillsAll(cfg, env, old(gaps), |env.targets|, last, filled)
          && FillsRemembered(env, spool.recentIDs.Keys, filled)
    {
      hide Inv, Flatten, Payloads, AfterCommits, GapsUpdated, FillsOwed, FillsAll, FillsRemembered, Late, EndsUpTo,
          HoldsWindows, Before;
      filled := map[];
      ghost var wm, before, note := Wm(), Now(), NoteOf(cfg, Wm(), now, env);
      CommittedPositive(cfg, discovered, wm, now, env, spool.closed);
      assert AfterCommits(env, before, [], note) == before by { NoCommits(env, before, note); }
      CommitsHeld(env, before, [], note, before.ledger);
      if !discovered { return NotReady, filled; }
      var windows, text := DueWindows(now, env);
      if windows.None? { return NothingDue, filled; }
      if !env.meters { return CollectFailed, filled; }
      DueAscends(cfg, wm, now);
      var done := CommitWindows(windows.value, text, env);
      CommitsHeld(env, before, windows.value[..done], note, Now().ledger);
      if done < |windows.value| { return CommitFailed(done), filled; }
      assert windows.value[..done] == windows.value;
      if |windows.value| == 0 { return Panicked, filled; }
      ghost var after := Now();
      filled := FillTenantGaps(windows.value[0], windows.value[|windows.value| - 1], env);
      CommitsHeld(env, before, windows.value, note, Now().ledger);
      return Completed, filled;
    }

    /** The window list, built from the watermark, and the note about a span cut short. */
    method DueWindows(now: Clock, env: Env) returns (windows: Option<seq<int>>, note: string)
      requires cfg.size > 0
      ensures windows == Due(cfg, Wm(), now) && (windows.Some? ==> note == NoteOf(cfg, Wm(), now, env))
    {
      var latestEnd := Truncate(now, cfg.size);
      var firstEnd := latestEnd;
      note := "";
      var wm := Wm();
      if wm.Some? {
        if latestEnd <= wm.value { return None, ""; }
        firstEnd := wm.value + cfg.size;
        var earliest := Truncate(latestEnd - cfg.maxBackfill, cfg.size) + cfg.size;
        if firstEnd < earliest {
          note := env.gapNote(earliest - firstEnd);
          firstEnd := earliest;
        }
      }
      var ends: seq<int> := [];
      var end := firstEnd;
      while end <= latestEnd
        invariant EndsUpTo(firstEnd, latestEnd, cfg.size) == ends + EndsUpTo(end, latestEnd, cfg.size)
        decreases latestEnd - end
      {
        ends := ends + [end];
        end := end + cfg.size;
      }
      assert ends + [] == ends;
      return Some(ends), note;
    }
  }

  /** The step of one tenant's run that this collection is. */
  function CallOfTenant(cfg: Config, wm: Option<int>, now: int, env: Env, closed: bool, filled: map<string, seq<int>>,
                        id: string): TenantCall
    requires cfg.size > 0
  {
    TenantCall(CallOf(cfg, wm, now, env, closed), id in env.failed, AnswerOf(filled, id), false)
  }

  /** So for every target the collection is the step its tenant's run takes: the gap it leaves and the windows
      it fills are those of the step, hence what is proved over runs of steps holds of the collections. */
  lemma CollectionIsTenantStep(cfg: Config, wm: Option<int>, now: int, env: Env, closed: bool,
                               before: map<string, Gap>, after: map<string, Gap>,
                               filled: map<string, seq<int>>, id: string, t: Tenant)
    requires cfg.size > 0 && (wm.Some? ==> wm.value >= 0) && id in env.targets && t.gap == Get(before, id)
    requires var committed := Committed(cfg, true, wm, now, env, closed);
      if OutcomeOf(cfg, true, wm, now, env, closed) != Completed then after == before && filled == map[]
      else
        && committed != []
        && GapsUpdated(cfg, env, before, after, env.targets, committed[0], committed[|committed| - 1], filled)
        && FillsOwed(cfg, env, before, env.targets, committed[|committed| - 1], filled)
    ensures var t1 := TenantStep(cfg, wm, t, CallOfTenant(cfg, wm, now, env, closed, filled, id));
      && t1.gap == Get(after, id)
      && t1.filled == t.filled + if id in filled then Elements(filled[id]) else {}
  {
    hide EndsUpTo, Failing, Missed;
    assert Elements([]) == {};
  }

  lemma PayloadsAppend(a: seq<Record>, b: seq<Record>)
    ensures Payloads(a + b) == Payloads(a) + Payloads(b)
  {
  }

  lemma NoCommits(env: Env, p: Progress, note: string)
    ensures AfterCommits(env, p, [], note) == p
  {
  }
}
