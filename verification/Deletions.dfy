/** How long a deleted pod or node is remembered, and which date its deletion gets
    (internal/metrics/graveyard.go, internal/metrics/collector.go). Pods are keyed by UID, nodes by name. */
module Deletions {
  import opened Text
  import opened Usage
  import opened Metering
  import Windows
  import Gaps

  datatype Dead<T> = Dead(obj: T, at: Time)

  /** The deleted objects of one kind, and when a collection last listed each object. */
  datatype Side<T> = Side(gone: map<string, Dead<T>>, seen: map<string, Time>)

  /** The date of a deletion; one noticed late is dated to the last listing that is still remembered. */
  function DateOf(seen: map<string, Time>, key: string, at: Time, uncertain: bool): Time
  {
    if uncertain && key in seen && seen[key] < at then seen[key] else at
  }

  function Record<T>(s: Side<T>, key: string, obj: T, at: Time, uncertain: bool): Side<T>
  {
    s.(gone := s.gone[key := Dead(obj, DateOf(s.seen, key, at, uncertain))])
  }

  function See<T>(s: Side<T>, keys: seq<string>, at: Time): Side<T>
  {
    s.(seen := s.seen + map k | k in keys :: at)
  }

  function RecentlyGone<T>(gone: map<string, Dead<T>>, cutoff: int): map<string, Dead<T>>
  {
    map k | k in gone && gone[k].at >= cutoff :: gone[k]
  }

  function RecentlySeen(seen: map<string, Time>, cutoff: int): map<string, Time>
  {
    map k | k in seen && seen[k] >= cutoff :: seen[k]
  }

  function Prune<T>(s: Side<T>, cutoff: int): Side<T>
  {
    Side(RecentlyGone(s.gone, cutoff), RecentlySeen(s.seen, cutoff))
  }

  // ---- runs ----

  datatype Op<T> =
    | RecordOp(key: string, obj: T, at: Time, uncertain: bool)
    | SeeOp(keys: seq<string>, at: Time)
    | PruneOp(at: Time)

  function Step<T>(s: Side<T>, op: Op<T>, retention: nat): Side<T>
  {
    match op
    case RecordOp(key, obj, at, uncertain) => Record(s, key, obj, at, uncertain)
    case SeeOp(keys, at) => See(s, keys, at)
    case PruneOp(at) => Prune(s, at - retention)
  }

  function Run<T>(ops: seq<Op<T>>, retention: nat): Side<T>
  {
    if ops == [] then Side(map[], map[]) else Step(Run(ops[..|ops| - 1], retention), ops[|ops| - 1], retention)
  }

  /** The clock does not go back. */
  predicate Timely<T>(ops: seq<Op<T>>)
  {
    forall i, j :: 0 <= i < j < |ops| ==> ops[i].at <= ops[j].at
  }

  /** The last listing that held the object. */
  function LastSeen<T>(ops: seq<Op<T>>, key: string): Option<Time>
  {
    if ops == [] then None
    else if ops[|ops| - 1].SeeOp? && key in ops[|ops| - 1].keys then Some(ops[|ops| - 1].at)
    else LastSeen(ops[..|ops| - 1], key)
  }

  /** The last time anything was pruned. */
  function LastPrune<T>(ops: seq<Op<T>>): Option<Time>
  {
    if ops == [] then None
    else if ops[|ops| - 1].PruneOp? then Some(ops[|ops| - 1].at)
    else LastPrune(ops[..|ops| - 1])
  }

  /** The last recorded deletion under a key, as it was dated then. */
  function LastRecord<T>(ops: seq<Op<T>>, key: string, retention: nat): Option<Dead<T>>
  {
    if ops == [] then None
    else
      var n := |ops| - 1;
      if ops[n].RecordOp? && ops[n].key == key
      then Some(Dead(ops[n].obj, DateOf(Run(ops[..n], retention).seen, key, ops[n].at, ops[n].uncertain)))
      else LastRecord(ops[..n], key, retention)
  }

  lemma {:induction false} TimesBounded<T>(ops: seq<Op<T>>, key: string, now: Time)
    requires Timely(ops) && forall i :: 0 <= i < |ops| ==> ops[i].at <= now
    ensures LastSeen(ops, key).Some? ==> LastSeen(ops, key).value <= now
    ensures LastPrune(ops).Some? ==> LastPrune(ops).value <= now
  {
    if ops != [] { TimesBounded(ops[..|ops| - 1], key, now); }
  }

  predicate Remembered(at: Time, prune: Option<Time>, retention: nat)
  {
    prune.None? || at >= prune.value - retention
  }

  /** A listing is remembered exactly until a prune more than the retention later. */
  lemma {:induction false} SeenRemembered<T>(ops: seq<Op<T>>, key: string, retention: nat)
    requires Timely(ops)
    ensures var s := LastSeen(ops, key); var seen := Run(ops, retention).seen;
      && (key in seen <==> s.Some? && Remembered(s.value, LastPrune(ops), retention))
      && (key in seen ==> seen[key] == s.value)
  {
    if ops != [] {
      var n := |ops| - 1;
      SeenRemembered(ops[..n], key, retention);
      TimesBounded(ops[..n], key, ops[n].at);
    }
  }

  /** How a deletion is dated: one seen as it happens at that moment; one noticed late, at the last
      listing of the object exactly when no prune came more than the retention after that listing;
      otherwise at the moment it is noticed. */
  lemma DeletionDated<T>(ops: seq<Op<T>>, key: string, obj: T, at: Time, uncertain: bool, retention: nat)
    requires Timely(ops + [RecordOp(key, obj, at, uncertain)])
    ensures var s := LastSeen(ops, key); var dead :=
        LastRecord(ops + [RecordOp(key, obj, at, uncertain)], key, retention);
      && dead.Some? && dead.value.obj == obj
      && dead.value.at
        == (if uncertain && s.Some? && Remembered(s.value, LastPrune(ops), retention) then s.value else at)
  {
    var all := ops + [RecordOp(key, obj, at, uncertain)];
    assert all[..|all| - 1] == ops;
    forall i, j | 0 <= i < j < |ops| ensures ops[i].at <= ops[j].at { assert all[i].at <= all[j].at; }
    forall i | 0 <= i < |ops| ensures ops[i].at <= at { assert all[i].at <= all[|ops|].at; }
    TimesBounded(ops, key, at);
    SeenRemembered(ops, key, retention);
  }

  /** A recorded deletion is kept as it was dated, unless a prune came more than the retention after it. */
  lemma {:induction false} DeadKept<T>(ops: seq<Op<T>>, key: string, retention: nat)
    requires Timely(ops)
    ensures var dead := LastRecord(ops, key, retention); var gone := Run(ops, retention).gone;
      && (dead.Some? && Remembered(dead.value.at, LastPrune(ops), retention) ==> key in gone && gone[key] == dead.value)
      && (key in gone ==> dead.Some? && gone[key] == dead.value)
  {
    if ops != [] {
      var n := |ops| - 1;
      DeadKept(ops[..n], key, retention);
      TimesBounded(ops[..n], key, ops[n].at);
    }
  }

  // ---- deleted objects outlive their windows ----

  /** cmd/vbilling/main.go. */
  function Retention(cfg: Windows.Config): int { cfg.maxBackfill + 2 * cfg.size }

  /** The windows a collection at `now` can meter: those due, and those a tenant's gap still owes. */
  ghost predicate Metered(cfg: Windows.Config, wm: Option<int>, gap: Option<Gaps.Gap>, now: int, end: int)
    requires cfg.size > 0
  {
    || (Windows.Due(cfg, wm, now).Some? && end in Windows.Due(cfg, wm, now).value)
    || (gap.Some? && end in Gaps.Missed(cfg, gap.value, Windows.Truncate(now, cfg.size)))
  }

  lemma MeteredStart(cfg: Windows.Config, wm: Option<int>, gap: Option<Gaps.Gap>, now: int, end: int)
    requires cfg.size > 0 && cfg.maxBackfill > 0 && Windows.Aligned(cfg.maxBackfill, cfg.size)
    requires (wm.Some? ==> Windows.Aligned(wm.value, cfg.size))
      && (gap.Some? ==> Windows.Aligned(gap.value.first, cfg.size))
    requires Metered(cfg, wm, gap, now, end)
    ensures end - cfg.size >= Windows.Truncate(now, cfg.size) - cfg.maxBackfill
  {
    var latest := Windows.Truncate(now, cfg.size);
    Windows.AlignedDifference(latest, cfg.maxBackfill, cfg.size);
    if gap.Some? && end in Gaps.Missed(cfg, gap.value, latest) {
      MissedAligned(cfg, gap.value, latest - cfg.maxBackfill, gap.value.first, end);
      Windows.AlignedGap(latest - cfg.maxBackfill, end, cfg.size);
    } else if wm.None? {
      Windows.FirstCollection(cfg, now);
      Windows.AlignedGap(latest - cfg.maxBackfill, latest, cfg.size);
    } else {
      Windows.CatchUp(cfg, wm.value, now);
      var due := Windows.Due(cfg, wm, now).value;
      var i :| 0 <= i < |due| && due[i] == end;
      Windows.MulGe(i, 0, cfg.size);
      assert Windows.Truncate(latest - cfg.maxBackfill, cfg.size) == latest - cfg.maxBackfill;
    }
  }

  lemma {:induction false} MissedAligned(cfg: Windows.Config, g: Gaps.Gap, earliest: int, from: int, end: int)
    requires cfg.size > 0 && Windows.Aligned(from, cfg.size) && end in Gaps.MissedFrom(cfg, g, earliest, from)
    ensures Windows.Aligned(end, cfg.size) && end > earliest
    decreases g.last - from
  {
    if end != from || end <= earliest {
      Windows.ShiftAligned(from, 1, cfg.size);
      MissedAligned(cfg, g, earliest, from + cfg.size, end);
    }
  }

  /** Deleted objects outlive their windows. With the configured retention, a MAX_BACKFILL that is a
      multiple of the interval, and prunes no later than one interval after the collection began,
      whatever happened before: a deleted object whose life overlaps a window this collection can meter
      or fill is still there, with the date of its deletion. */
  lemma OutlivesWindows<T>(ops: seq<Op<T>>, key: string, cfg: Windows.Config, wm: Option<int>, gap: Option<Gaps.Gap>,
                           now: int, end: Time, start: Time)
    requires cfg.size > 0 && cfg.maxBackfill > 0 && Windows.Aligned(cfg.maxBackfill, cfg.size)
    requires (wm.Some? ==> Windows.Aligned(wm.value, cfg.size))
      && (gap.Some? ==> Windows.Aligned(gap.value.first, cfg.size))
    requires Timely(ops) && forall i :: 0 <= i < |ops| && ops[i].PruneOp? ==> ops[i].at < now + cfg.size
    requires end >= cfg.size && Metered(cfg, wm, gap, now, end)
    requires var dead := LastRecord(ops, key, Retention(cfg));
      dead.Some? && dead.value.at > 0 && Overlap(start, dead.value.at, end - cfg.size, end) > 0
    ensures var gone := Run(ops, Retention(cfg)).gone;
      key in gone && gone[key] == LastRecord(ops, key, Retention(cfg)).value
  {
    hide Run, LastRecord, Metered;
    MeteredStart(cfg, wm, gap, now, end);
    PruneBefore(ops, now + cfg.size);
    DeadKept(ops, key, Retention(cfg));
  }

  lemma {:induction false} PruneBefore<T>(ops: seq<Op<T>>, limit: int)
    requires forall i :: 0 <= i < |ops| && ops[i].PruneOp? ==> ops[i].at < limit
    ensures LastPrune(ops).Some? ==> LastPrune(ops).value < limit
  {
    if ops != [] { PruneBefore(ops[..|ops| - 1], limit); }
  }
}
