/** Which windows a collection meters, and what a tenant's gap span remembers
    (internal/controller/controller.go). Times are nanoseconds; a window is named by its end. */
module Windows {
  import opened Text

  /** time.Truncate: down to a multiple of d since the zero time; unchanged for d <= 0. */
  function Truncate(t: int, d: int): (r: int)
    ensures d > 0 ==> r % d == 0 && r <= t < r + d
    ensures d <= 0 ==> r == t
  {
    if d <= 0 then t else TruncateIs(t, d); t - t % d
  }

  lemma TruncateIs(t: int, d: int)
    requires d > 0
    ensures (t - t % d) % d == 0 && t - t % d <= t < t - t % d + d
  {
    assert t - t % d == t / d * d;
    MultipleIs(t / d, d);
  }

  lemma MultipleIs(k: int, d: int)
    requires d > 0
    ensures k * d % d == 0
  {
    MultipleOffset(k, 0, d);
  }

  datatype Config = Config(size: int, maxBackfill: int)

  /** The end of the first window to meter, and whether MAX_BACKFILL cut some before it. */
  function FirstEnd(cfg: Config, wm: Option<int>, latest: int): (int, bool)
  {
    if wm.None? then (latest, false)
    else
      var next := wm.value + cfg.size;
      var earliest := Truncate(latest - cfg.maxBackfill, cfg.size) + cfg.size;
      if next < earliest then (earliest, true) else (next, false)
  }

  /** Window ends from `end` up to the latest boundary, one size apart. */
  function EndsUpTo(end: int, latest: int, size: int): (ends: seq<int>)
    requires size > 0
    ensures ends == [] <==> end > latest
    ensures ends != [] ==> ends[0] == end
    decreases latest - end
  {
    if end > latest then [] else [end] + EndsUpTo(end + size, latest, size)
  }

  /** The ends of the windows CollectDue meters at `now`; None when nothing is due. */
  function Due(cfg: Config, wm: Option<int>, now: int): Option<seq<int>>
    requires cfg.size > 0
  {
    var latest := Truncate(now, cfg.size);
    if wm.Some? && latest <= wm.value then None
    else Some(EndsUpTo(FirstEnd(cfg, wm, latest).0, latest, cfg.size))
  }

  predicate Aligned(t: int, size: int)
    requires size > 0
  {
    t % size == 0
  }

  // ---- one collection ----

  lemma {:induction false} EndsAre(end: int, latest: int, size: int)
    requires size > 0 && Aligned(latest - end, size)
    ensures var ends := EndsUpTo(end, latest, size);
      && (forall i :: 0 <= i < |ends| ==> ends[i] == end + i * size)
      && (end <= latest ==> ends[|ends| - 1] == latest && (|ends| - 1) * size == latest - end)
    decreases latest - end
  {
    if end <= latest {
      assert (latest - (end + size)) % size == 0 by { ShiftAligned(latest - end, -1, size); }
      EndsAre(end + size, latest, size);
      var rest := EndsUpTo(end + size, latest, size);
      if end + size > latest {
        assert latest - end < size && 0 <= latest - end;
        assert latest == end;
      }
    }
  }

  lemma ShiftAligned(t: int, k: int, size: int)
    requires size > 0
    ensures (t + k * size) % size == t % size
  {
    assert t == t / size * size + t % size;
    MultipleOffset(t / size + k, t % size, size);
  }

  lemma MultipleOffset(k: int, r: int, size: int)
    requires size > 0 && 0 <= r < size
    ensures (k * size + r) % size == r
  {
    var q, m := (k * size + r) / size, (k * size + r) % size;
    assert (k - q) * size == m - r;
    if k - q >= 1 { MulAtLeast(k - q, size); }
    if k - q <= -1 { MulAtLeast(q - k, size); }
  }

  lemma MulAtLeast(k: int, size: int)
    requires k >= 1 && size > 0
    ensures k * size >= size
  {
  }

  lemma AlignedDifference(a: int, b: int, size: int)
    requires size > 0 && Aligned(a, size) && Aligned(b, size)
    ensures Aligned(a - b, size)
  {
    ShiftAligned(a, -(b / size), size);
    assert a + -(b / size) * size == a - b;
  }

  /** Between two aligned times there is no room for less than a window. */
  lemma AlignedGap(a: int, b: int, size: int)
    requires size > 0 && Aligned(a, size) && Aligned(b, size) && a < b
    ensures a + size <= b
  {
    AlignedDifference(b, a, size);
  }

  lemma NextAligned(t: int, size: int)
    requires size > 0 && Aligned(t, size)
    ensures Aligned(t + size, size)
  {
    ShiftAligned(t, 1, size);
  }

  lemma FirstEndAligned(cfg: Config, wm: Option<int>, latest: int)
    requires cfg.size > 0 && Aligned(latest, cfg.size) && (wm.Some? ==> Aligned(wm.value, cfg.size))
    ensures Aligned(FirstEnd(cfg, wm, latest).0, cfg.size)
  {
    if wm.Some? {
      NextAligned(wm.value, cfg.size);
      NextAligned(Truncate(latest - cfg.maxBackfill, cfg.size), cfg.size);
    }
  }

  /** The number of windows MAX_BACKFILL allows, rounded up. */
  function MaxWindows(cfg: Config): int
    requires cfg.size > 0
  {
    (cfg.maxBackfill + cfg.size - 1) / cfg.size
  }

  /** With an aligned watermark and MaxBackfill > 0, a catch-up meters at least one and at most
      ⌈MaxBackfill/size⌉ windows: aligned, one size apart, after the watermark, up to the latest
      boundary; and it leaves out only windows that ended MAX_BACKFILL or more before that. */
  lemma CatchUp(cfg: Config, wm: int, now: int)
    requires cfg.size > 0 && cfg.maxBackfill > 0 && Aligned(wm, cfg.size) && wm < Truncate(now, cfg.size)
    ensures var latest := Truncate(now, cfg.size); var due := Due(cfg, Some(wm), now);
      && due.Some? && due.value != [] && |due.value| <= MaxWindows(cfg)
      && due.value[0] > wm && due.value[|due.value| - 1] == latest
      && (forall i :: 0 <= i < |due.value| ==>
        due.value[i] == due.value[0] + i * cfg.size && Aligned(due.value[i], cfg.size))
      && due.value[0] == FirstEnd(cfg, Some(wm), latest).0
      && (due.value[0] == wm + cfg.size || due.value[0] - cfg.size <= latest - cfg.maxBackfill)
  {
    hide EndsUpTo, FirstEnd, MaxWindows;
    var latest := Truncate(now, cfg.size);
    var first := FirstEnd(cfg, Some(wm), latest).0;
    FirstEndBounds(cfg, wm, latest);
    var ends := EndsUpTo(first, latest, cfg.size);
    AlignedDifference(latest, first, cfg.size);
    EndsAre(first, latest, cfg.size);
    forall i | 0 <= i < |ends| ensures Aligned(ends[i], cfg.size) { ShiftAligned(first, i, cfg.size); }
    WindowsCount(cfg, |ends|, latest - first);
  }

  /** The first window of a catch-up lies between the watermark and the boundary, and within MAX_BACKFILL. */
  lemma FirstEndBounds(cfg: Config, wm: int, latest: int)
    requires cfg.size > 0 && cfg.maxBackfill > 0 && Aligned(wm, cfg.size) && Aligned(latest, cfg.size) && wm < latest
    ensures var first := FirstEnd(cfg, Some(wm), latest).0;
      && Aligned(first, cfg.size) && wm < first <= latest && latest - cfg.maxBackfill < first
      && (first == wm + cfg.size || first - cfg.size <= latest - cfg.maxBackfill)
  {
    FirstEndAligned(cfg, Some(wm), latest);
    AlignedGap(wm, latest, cfg.size);
    AlignedGap(Truncate(latest - cfg.maxBackfill, cfg.size), latest, cfg.size);
  }

  lemma WindowsCount(cfg: Config, n: nat, span: int)
    requires cfg.size > 0 && (n - 1) * cfg.size == span && span < cfg.maxBackfill
    ensures n <= MaxWindows(cfg)
  {
    NextMultiple(n, cfg.size);
    CeilBounds(cfg.maxBackfill, cfg.size, n);
  }

  lemma CeilBounds(total: int, size: int, n: int)
    requires size > 0 && n * size < total + size
    ensures n <= (total + size - 1) / size
  {
    var q := (total + size - 1) / size;
    assert q * size > total + size - 1 - size;
    if n > q {
      assert n >= q + 1;
      MulGe(n, q + 1, size);
    }
  }

  lemma MulGe(a: int, b: int, size: int)
    requires a >= b && size > 0
    ensures a * size >= b * size
  {
  }

  /** With no watermark yet, exactly the latest window is metered. */
  lemma FirstCollection(cfg: Config, now: int)
    requires cfg.size > 0
    ensures Due(cfg, None, now) == Some([Truncate(now, cfg.size)])
  {
    var latest := Truncate(now, cfg.size);
    assert EndsUpTo(latest + cfg.size, latest, cfg.size) == [];
    var none: Option<int> := None;
    assert FirstEnd(cfg, none, latest) == (latest, false);
    assert Due(cfg, none, now) == Some(EndsUpTo(latest, latest, cfg.size));
    assert EndsUpTo(latest, latest, cfg.size) == [latest];
  }

  /** When the window list comes out empty although something is due: exactly for a MAX_BACKFILL
      that is not positive, or a watermark less than one window before the latest boundary, as an
      interval change leaves it. fillTenantGaps then indexes an empty list. */
  lemma EmptyWindowList(cfg: Config, wm: int, now: int)
    requires cfg.size > 0 && wm < Truncate(now, cfg.size)
    ensures Due(cfg, Some(wm), now) == Some([]) <==> cfg.maxBackfill <= 0 || wm + cfg.size > Truncate(now, cfg.size)
  {
    var latest := Truncate(now, cfg.size);
    var floor := Truncate(latest - cfg.maxBackfill, cfg.size);
    if cfg.maxBackfill > 0 {
      AlignedGap(floor, latest, cfg.size);
    } else {
      assert floor > latest - cfg.maxBackfill - cfg.size;
      if floor < latest { AlignedGap(floor, latest, cfg.size); }
    }
  }

  // ---- runs of collections ----

  /** One CollectDue: the clock, whether metering succeeds, and how many commits succeed before one fails. */
  datatype Call = Call(now: int, meters: bool, commits: Option<nat>)

  /** The windows a call commits. */
  function CommittedBy(cfg: Config, wm: Option<int>, call: Call): seq<int>
    requires cfg.size > 0
  {
    var due := Due(cfg, wm, call.now);
    if due.None? || !call.meters then []
    else if call.commits.Some? && call.commits.value < |due.value| then due.value[..call.commits.value]
    else due.value
  }

  function WatermarkAfter(wm: Option<int>, ends: seq<int>): Option<int>
  {
    if ends == [] then wm else Some(ends[|ends| - 1])
  }

  /** The watermark after a run of calls from an empty ledger. */
  function RunWatermark(cfg: Config, calls: seq<Call>): Option<int>
    requires cfg.size > 0
  {
    if calls == [] then None
    else
      var wm := RunWatermark(cfg, calls[..|calls| - 1]);
      WatermarkAfter(wm, CommittedBy(cfg, wm, calls[|calls| - 1]))
  }

  /** The windows a run commits, in order. */
  function RunWindows(cfg: Config, calls: seq<Call>): seq<int>
    requires cfg.size > 0
  {
    if calls == [] then []
    else
      var n := |calls| - 1;
      RunWindows(cfg, calls[..n]) + CommittedBy(cfg, RunWatermark(cfg, calls[..n]), calls[n])
  }

  /** Window end b is metered after a at the boundary `latest`: right behind it, or as the first end that
      is not older than MAX_BACKFILL, every end between them being too old. */
  predicate Resumes(cfg: Config, a: int, b: int, latest: int)
    requires cfg.size > 0
  {
    && Aligned(b, cfg.size) && a + cfg.size <= b <= latest
    && (b == a + cfg.size || b - cfg.size <= latest - cfg.maxBackfill < b)
  }

  predicate Consecutive(cfg: Config, ends: seq<int>)
  {
    forall i :: 0 < i < |ends| ==> ends[i] == ends[i - 1] + cfg.size
  }

  /** What one call commits, all of it or part, is contiguous up to its boundary at most, and resumes
      the watermark. */
  lemma CommittedTiles(cfg: Config, wm: Option<int>, call: Call)
    requires cfg.size > 0 && cfg.maxBackfill > 0 && (wm.Some? ==> Aligned(wm.value, cfg.size))
    ensures var ends := CommittedBy(cfg, wm, call); var latest := Truncate(call.now, cfg.size);
      && Consecutive(cfg, ends)
      && (forall i :: 0 <= i < |ends| ==> Aligned(ends[i], cfg.size))
      && (wm.Some? && ends != [] ==> Resumes(cfg, wm.value, ends[0], latest))
  {
    hide EndsUpTo;
    var due := Due(cfg, wm, call.now);
    var ends := CommittedBy(cfg, wm, call);
    if ends != [] {
      if wm.None? {
        FirstCollection(cfg, call.now);
      } else {
        CatchUp(cfg, wm.value, call.now);
        FirstEndResumes(cfg, wm.value, Truncate(call.now, cfg.size));
      }
      forall i | 0 < i < |ends| ensures ends[i] == ends[i - 1] + cfg.size {
        assert ends[i] == due.value[0] + i * cfg.size && ends[i - 1] == due.value[0] + (i - 1) * cfg.size;
        NextMultiple(i, cfg.size);
      }
    }
  }

  lemma FirstEndResumes(cfg: Config, wm: int, latest: int)
    requires cfg.size > 0 && cfg.maxBackfill > 0 && Aligned(wm, cfg.size) && Aligned(latest, cfg.size) && wm < latest
    ensures Resumes(cfg, wm, FirstEnd(cfg, Some(wm), latest).0, latest)
  {
    hide FirstEnd;
    FirstEndBounds(cfg, wm, latest);
    AlignedGap(wm, FirstEnd(cfg, Some(wm), latest).0, cfg.size);
  }

  lemma NextMultiple(i: int, size: int)
    ensures i * size == (i - 1) * size + size
  {
  }

  /** Aligned, in order, one after another at least one interval apart. */
  predicate Tiled(cfg: Config, ends: seq<int>)
    requires cfg.size > 0
  {
    && (forall i :: 0 <= i < |ends| ==> Aligned(ends[i], cfg.size))
    && (forall i :: 0 < i < |ends| ==> ends[i - 1] + cfg.size <= ends[i])
  }

  /** Between window ends a and b, call k of the run cut a span: it started from the watermark a, b is
      the first window it committed, and every window between them had ended MAX_BACKFILL or more before
      its boundary. */
  ghost predicate CutBy(cfg: Config, calls: seq<Call>, k: nat, a: int, b: int)
    requires cfg.size > 0 && k < |calls|
  {
    && RunWatermark(cfg, calls[..k]) == Some(a)
    && CommittedBy(cfg, Some(a), calls[k]) != [] && CommittedBy(cfg, Some(a), calls[k])[0] == b
    && forall e :: a < e < b && Aligned(e, cfg.size) ==> e <= Truncate(calls[k].now, cfg.size) - cfg.maxBackfill
  }

  /** Contiguous but for spans that some call of the run cut. */
  ghost predicate ContiguousBut(cfg: Config, calls: seq<Call>, ends: seq<int>)
    requires cfg.size > 0
  {
    forall i :: 0 < i < |ends| ==> Joined(cfg, calls, ends[i - 1], ends[i])
  }

  ghost predicate Joined(cfg: Config, calls: seq<Call>, a: int, b: int)
    requires cfg.size > 0
  {
    b == a + cfg.size || exists k: nat :: k < |calls| && CutBy(cfg, calls, k, a, b)
  }

  lemma JoinedLater(cfg: Config, calls: seq<Call>, n: nat, a: int, b: int)
    requires cfg.size > 0 && n <= |calls| && Joined(cfg, calls[..n], a, b)
    ensures Joined(cfg, calls, a, b)
  {
    hide RunWatermark, CommittedBy;
    if b != a + cfg.size {
      var k: nat :| k < n && CutBy(cfg, calls[..n], k, a, b);
      assert calls[..n][..k] == calls[..k];
      assert CutBy(cfg, calls, k, a, b);
    }
  }

  /** The last call joins what the run had committed before. */
  lemma LastCallJoins(cfg: Config, calls: seq<Call>, a: int)
    requires cfg.size > 0 && cfg.maxBackfill > 0 && calls != [] && Aligned(a, cfg.size)
    requires var n := |calls| - 1; RunWatermark(cfg, calls[..n]) == Some(a) && CommittedBy(cfg, Some(a), calls[n]) != []
    ensures var b := CommittedBy(cfg, Some(a), calls[|calls| - 1])[0]; a + cfg.size <= b && Joined(cfg, calls, a, b)
  {
    hide CommittedBy, RunWatermark;
    var n := |calls| - 1;
    CommittedTiles(cfg, Some(a), calls[n]);
    var b := CommittedBy(cfg, Some(a), calls[n])[0];
    if b != a + cfg.size {
      forall e | a < e < b && Aligned(e, cfg.size) ensures e <= Truncate(calls[n].now, cfg.size) - cfg.maxBackfill {
        AlignedGap(e, b, cfg.size);
      }
      assert CutBy(cfg, calls, n, a, b);
    }
  }

  /** Window tiling over runs. With a fixed interval and MaxBackfill > 0, and whatever fails or is
      retried part-way, the committed windows are aligned, strictly ordered and pairwise disjoint; they
      are contiguous except where a call, starting from the earlier window as its watermark, found every
      window in between older than MAX_BACKFILL; and the watermark is the last of them. */
  lemma {:induction false} RunTiles(cfg: Config, calls: seq<Call>)
    requires cfg.size > 0 && cfg.maxBackfill > 0
    ensures Tiled(cfg, RunWindows(cfg, calls)) && ContiguousBut(cfg, calls, RunWindows(cfg, calls))
    ensures RunWatermark(cfg, calls) == WatermarkAfter(None, RunWindows(cfg, calls))
  {
    hide CommittedBy, Joined, ContiguousBut, Tiled;
    if calls == [] {
      NoWindows(cfg, calls);
    } else {
      var n := |calls| - 1;
      RunTiles(cfg, calls[..n]);
      var before, wm := RunWindows(cfg, calls[..n]), RunWatermark(cfg, calls[..n]);
      var more := CommittedBy(cfg, wm, calls[n]);
      if before != [] { LastAligned(cfg, before); }
      CommittedTiles(cfg, wm, calls[n]);
      if before != [] && more != [] { LastCallJoins(cfg, calls, before[|before| - 1]); }
      TiledAppend(cfg, calls, n, before, more);
    }
  }

  lemma TiledAppend(cfg: Config, calls: seq<Call>, n: nat, before: seq<int>, more: seq<int>)
    requires cfg.size > 0 && n <= |calls| && Tiled(cfg, before) && ContiguousBut(cfg, calls[..n], before)
    requires Consecutive(cfg, more) && forall i :: 0 <= i < |more| ==> Aligned(more[i], cfg.size)
    requires before != [] && more != [] ==>
      var a := before[|before| - 1]; a + cfg.size <= more[0] && Joined(cfg, calls, a, more[0])
    ensures Tiled(cfg, before + more) && ContiguousBut(cfg, calls, before + more)
  {
    hide Joined, Aligned;
    var all := before + more;
    forall i | 0 < i < |all| ensures all[i - 1] + cfg.size <= all[i] && Joined(cfg, calls, all[i - 1], all[i]) {
      if i < |before| {
        JoinedLater(cfg, calls, n, before[i - 1], before[i]);
      } else if i > |before| {
        assert all[i] == more[i - |before|] && all[i - 1] == more[i - 1 - |before|];
        NextJoins(cfg, calls, all[i - 1]);
      }
    }
  }

  lemma NoWindows(cfg: Config, calls: seq<Call>)
    requires cfg.size > 0
    ensures Tiled(cfg, []) && ContiguousBut(cfg, calls, [])
  {
  }

  lemma LastAligned(cfg: Config, ends: seq<int>)
    requires cfg.size > 0 && Tiled(cfg, ends) && ends != []
    ensures Aligned(ends[|ends| - 1], cfg.size)
  {
  }

  lemma NextJoins(cfg: Config, calls: seq<Call>, a: int)
    requires cfg.size > 0
    ensures Joined(cfg, calls, a, a + cfg.size)
  {
  }

  /** Tiled windows [end - size, end) never overlap. */
  lemma {:induction false} TiledDisjoint(cfg: Config, ends: seq<int>, i: nat, j: nat)
    requires cfg.size > 0 && Tiled(cfg, ends) && i < j < |ends|
    ensures ends[i] <= ends[j] - cfg.size
    decreases j
  {
    if i < j - 1 { TiledDisjoint(cfg, ends, i, j - 1); }
  }

  /** A catch-up that is not interrupted ends at the latest boundary, also after interrupted ones. */
  lemma CatchesUp(cfg: Config, calls: seq<Call>, now: int)
    requires cfg.size > 0 && cfg.maxBackfill > 0
    ensures var wm := RunWatermark(cfg, calls + [Call(now, true, None)]);
      wm.Some? && wm.value >= Truncate(now, cfg.size)
  {
    hide EndsUpTo, RunWatermark;
    var all := calls + [Call(now, true, None)];
    assert all[..|all| - 1] == calls;
    WatermarkStep(cfg, all);
    WatermarkAligned(cfg, calls);
    var wm := RunWatermark(cfg, calls);
    if wm.None? {
      FirstCollection(cfg, now);
    } else if wm.value < Truncate(now, cfg.size) {
      CatchUp(cfg, wm.value, now);
    }
  }

  lemma WatermarkStep(cfg: Config, calls: seq<Call>)
    requires cfg.size > 0 && calls != []
    ensures var wm := RunWatermark(cfg, calls[..|calls| - 1]);
      RunWatermark(cfg, calls) == WatermarkAfter(wm, CommittedBy(cfg, wm, calls[|calls| - 1]))
  {
  }

  lemma WatermarkAligned(cfg: Config, calls: seq<Call>)
    requires cfg.size > 0 && cfg.maxBackfill > 0
    ensures RunWatermark(cfg, calls).Some? ==> Aligned(RunWatermark(cfg, calls).value, cfg.size)
  {
    hide RunWatermark, RunWindows, ContiguousBut;
    RunTiles(cfg, calls);
  }
}
