/** Windows missed while a tenant does not answer, the span that remembers them, and when they are filled
    (fillTenantGaps and parseGap in internal/controller/controller.go). */
module Gaps {
  import opened Text
  import opened Usage
  import opened Windows

  /** First and last failed window end, as the gap store keeps them. */
  datatype Gap = Gap(first: int, last: int)

  /** RFC 3339 without fractions keeps whole seconds only. */
  function Stored(t: int): int { Truncate(t, SECOND) }

  /** parseGap: a span that ends before it starts is dropped. */
  function ParseGap(g: Option<Gap>): Option<Gap>
  {
    if g.None? || g.value.last < g.value.first then None else g
  }

  /** Recording a failed collection of the windows first..last. */
  function Recorded(g: Option<Gap>, first: int, last: int): Gap
  {
    Gap(Stored(if ParseGap(g).Some? then ParseGap(g).value.first else first), Stored(last))
  }

  /** The ends from `end` to g.last, one size apart, that MAX_BACKFILL still allows. */
  function MissedFrom(cfg: Config, g: Gap, earliest: int, end: int): seq<int>
    requires cfg.size > 0
    decreases g.last - end
  {
    if end > g.last then []
    else (if end > earliest then [end] else []) + MissedFrom(cfg, g, earliest, end + cfg.size)
  }

  function Missed(cfg: Config, g: Gap, last: int): seq<int>
    requires cfg.size > 0
  {
    MissedFrom(cfg, g, last - cfg.maxBackfill, g.first)
  }

  /** How metering the missed windows went: the API or the ledger can still fail. */
  datatype FillAnswer = StillDown | Filled

  /** What becomes of a gap in a collection that committed all its windows, and which windows it fills. */
  function FillTenant(cfg: Config, g: Option<Gap>, first: int, last: int, down: bool,
                      fill: FillAnswer): (Option<Gap>, seq<int>)
    requires cfg.size > 0
  {
    if down then (Some(Recorded(g, first, last)), [])
    else
      var span := ParseGap(g);
      if span.None? then (None, [])
      else
        var missed := Missed(cfg, span.value, last);
        if missed == [] then (None, [])
        else if fill.Filled? then (None, missed)
        else (span, [])
  }

  // ---- one tenant over a run ----

  /** A tenant that stays discovered: its gap, and the windows it missed, was metered in live, and had filled. */
  datatype Tenant = Tenant(gap: Option<Gap>, failed: set<int>, live: set<int>, filled: set<int>)

  /** One collection as a tenant sees it; `dies` when the process ends behind the commits, before the
      gap span is written. */
  datatype TenantCall = TenantCall(call: Call, down: bool, fill: FillAnswer, dies: bool)

  function Elements(ends: seq<int>): set<int> { set i | 0 <= i < |ends| :: ends[i] }

  /** The commit loop of this call runs to its end. */
  predicate Completes(cfg: Config, wm: Option<int>, call: Call)
    requires cfg.size > 0
  {
    var due := Due(cfg, wm, call.now);
    due.Some? && call.meters && (call.commits.None? || call.commits.value >= |due.value|)
  }

  /** The commit loop runs to its end, and the gaps are seen to. */
  predicate Finishes(cfg: Config, wm: Option<int>, tc: TenantCall)
    requires cfg.size > 0
  {
    Completes(cfg, wm, tc.call) && !tc.dies
  }

  function TenantStep(cfg: Config, wm: Option<int>, t: Tenant, tc: TenantCall): Tenant
    requires cfg.size > 0
  {
    var ends := CommittedBy(cfg, wm, tc.call);
    if ends == [] then t
    else
      var t1 := if tc.down then t.(failed := t.failed + Elements(ends)) else t.(live := t.live + Elements(ends));
      if !Finishes(cfg, wm, tc) then t1
      else
        var (gap, filled) := FillTenant(cfg, t.gap, ends[0], ends[|ends| - 1], tc.down, tc.fill);
        t1.(gap := gap, filled := t.filled + Elements(filled))
  }

  const NEW_TENANT: Tenant := Tenant(None, {}, {}, {})

  function Calls(tcs: seq<TenantCall>): (cs: seq<Call>)
    ensures |cs| == |tcs|
  {
    seq(|tcs|, i requires 0 <= i < |tcs| => tcs[i].call)
  }

  function TenantRun(cfg: Config, tcs: seq<TenantCall>): Tenant
    requires cfg.size > 0
  {
    if tcs == [] then NEW_TENANT
    else
      var n := |tcs| - 1;
      TenantStep(cfg, RunWatermark(cfg, Calls(tcs[..n])), TenantRun(cfg, tcs[..n]), tcs[n])
  }

  // ---- the gap span names the right windows ----

  /** Whole-second intervals and a positive MAX_BACKFILL. */
  predicate Usable(cfg: Config) { cfg.size > 0 && cfg.size % SECOND == 0 && cfg.maxBackfill > 0 }

  lemma SizeIsSeconds(cfg: Config, t: int)
    requires Usable(cfg) && Aligned(t, cfg.size)
    ensures Stored(t) == t
  {
    var k := cfg.size / SECOND;
    assert cfg.size == k * SECOND;
    var j := t / cfg.size;
    assert t == j * cfg.size == j * k * SECOND;
    MultipleIs(j * k, SECOND);
  }

  lemma {:induction false} MissedFromIs(cfg: Config, g: Gap, earliest: int, end: int, e: int)
    requires cfg.size > 0 && Aligned(end, cfg.size)
    ensures e in MissedFrom(cfg, g, earliest, end) <==> Aligned(e, cfg.size) && end <= e <= g.last && e > earliest
    decreases g.last - end
  {
    if end <= g.last {
      ShiftAligned(end, 1, cfg.size);
      MissedFromIs(cfg, g, earliest, end + cfg.size, e);
      if Aligned(e, cfg.size) && end < e { AlignedGap(end, e, cfg.size); }
    }
  }

  /** A fill covers exactly the span's windows that are not older than MAX_BACKFILL. */
  lemma MissedIs(cfg: Config, g: Gap, last: int)
    requires cfg.size > 0 && Aligned(g.first, cfg.size)
    ensures forall e :: e in Missed(cfg, g, last) <==>
      Aligned(e, cfg.size) && g.first <= e <= g.last && e > last - cfg.maxBackfill
  {
    forall e ensures e in Missed(cfg, g, last) <==>
      Aligned(e, cfg.size) && g.first <= e <= g.last && e > last - cfg.maxBackfill
    {
      MissedFromIs(cfg, g, last - cfg.maxBackfill, g.first, e);
    }
  }

  /** The store keeps a failed window's name exactly when its end is a whole second. An interval
      like 11.25s passes validation and breaks this: the fill would meter another window. */
  lemma StoreKeepsName(cfg: Config, e: int)
    requires cfg.size > SECOND && cfg.maxBackfill > SECOND
    ensures Missed(cfg, Recorded(None, e, e), e) == [e] <==> e % SECOND == 0
  {
    var g := Recorded(None, e, e);
    assert g == Gap(Stored(e), Stored(e));
    assert MissedFrom(cfg, g, e - cfg.maxBackfill, g.first + cfg.size) == [];
    assert Missed(cfg, g, e) == [Stored(e)];
    StoredSame(e);
    assert Missed(cfg, g, e)[0] == Stored(e);
  }

  lemma StoredSame(e: int)
    ensures Stored(e) == e <==> e % SECOND == 0
  {
  }

  // ---- what holds over runs ----

  /** A failed window is filled, or too old, or inside the gap span. */
  predicate Accounted(cfg: Config, t: Tenant, last: int, e: int)
  {
    || e in t.filled
    || e <= last - cfg.maxBackfill
    || (t.gap.Some? && t.gap.value.first <= e <= t.gap.value.last)
  }

  /** The span is aligned and lies within the committed time; every window since its start that is
      not too old was committed, so a fill never meters a window MAX_BACKFILL skipped. */
  ghost predicate SpanOk(cfg: Config, t: Tenant, last: int)
    requires cfg.size > 0
  {
    t.gap.Some? ==>
      var g := t.gap.value;
      && Aligned(g.first, cfg.size) && Aligned(g.last, cfg.size) && g.first <= g.last <= last
      && forall e :: Aligned(e, cfg.size) && g.first <= e <= last && e > last - cfg.maxBackfill ==>
        e in t.failed || e in t.live
  }

  ghost predicate TenantOk(cfg: Config, wm: Option<int>, t: Tenant)
    requires cfg.size > 0
  {
    if wm.None? then t == NEW_TENANT
    else
      var last := wm.value;
      && Aligned(last, cfg.size)
      && (forall e :: e in t.failed || e in t.live ==> Aligned(e, cfg.size) && e <= last)
      && (forall e :: e in t.failed ==> Accounted(cfg, t, last, e))
      && (forall e :: e in t.filled ==> e in t.failed || e in t.live)
      && SpanOk(cfg, t, last)
  }

  /** The windows a completed call commits. */
  ghost predicate Stretch(cfg: Config, wm: Option<int>, ends: seq<int>)
    requires cfg.size > 0
  {
    && ends != []
    && (forall e :: e in Elements(ends) <==> Aligned(e, cfg.size) && ends[0] <= e <= ends[|ends| - 1])
    && Aligned(ends[0], cfg.size) && Aligned(ends[|ends| - 1], cfg.size) && ends[0] <= ends[|ends| - 1]
    && (wm.Some? ==> wm.value < ends[0])
    && (wm.Some? ==> ends[0] == wm.value + cfg.size || ends[0] - cfg.size <= ends[|ends| - 1] - cfg.maxBackfill)
  }

  lemma CompletedStretch(cfg: Config, wm: Option<int>, call: Call)
    requires Usable(cfg) && Completes(cfg, wm, call) && (wm.Some? ==> Aligned(wm.value, cfg.size))
    ensures Stretch(cfg, wm, CommittedBy(cfg, wm, call))
  {
    var ends := CommittedBy(cfg, wm, call);
    var latest := Truncate(call.now, cfg.size);
    if wm.None? { FirstCollection(cfg, call.now); } else { CatchUp(cfg, wm.value, call.now); }
    assert ends == Due(cfg, wm, call.now).value;
    assert ends[|ends| - 1] == latest;
    forall e ensures e in Elements(ends) <==> Aligned(e, cfg.size) && ends[0] <= e <= latest {
      StretchHas(cfg, ends, latest, e);
    }
  }

  lemma StretchHas(cfg: Config, ends: seq<int>, latest: int, e: int)
    requires cfg.size > 0 && ends != [] && ends[|ends| - 1] == latest && Aligned(ends[0], cfg.size)
    requires forall i :: 0 <= i < |ends| ==> ends[i] == ends[0] + i * cfg.size && Aligned(ends[i], cfg.size)
    ensures e in Elements(ends) <==> Aligned(e, cfg.size) && ends[0] <= e <= latest
  {
    if Aligned(e, cfg.size) && ends[0] <= e <= latest {
      AlignedDifference(e, ends[0], cfg.size);
      var i := (e - ends[0]) / cfg.size;
      assert e == ends[0] + i * cfg.size;
      assert latest == ends[0] + (|ends| - 1) * cfg.size;
      if i >= |ends| { MulGe(i, |ends|, cfg.size); NextMultiple(|ends|, cfg.size); }
      assert ends[i] == e;
    }
    if e in Elements(ends) {
      var i :| 0 <= i < |ends| && ends[i] == e;
      MulGe(|ends| - 1, i, cfg.size);
      MulGe(i, 0, cfg.size);
    }
  }

  lemma DownKeeps(cfg: Config, wm: Option<int>, t: Tenant, ends: seq<int>, fill: FillAnswer)
    requires Usable(cfg) && TenantOk(cfg, wm, t) && Stretch(cfg, wm, ends)
    ensures var last := ends[|ends| - 1];
      TenantOk(cfg, Some(last), t.(failed := t.failed + Elements(ends), gap := Some(Recorded(t.gap, ends[0], last))))
  {
    var last := ends[|ends| - 1];
    SizeIsSeconds(cfg, ends[0]);
    SizeIsSeconds(cfg, last);
    if t.gap.Some? { SizeIsSeconds(cfg, t.gap.value.first); }
    var t1 := t.(failed := t.failed + Elements(ends), gap := Some(Recorded(t.gap, ends[0], last)));
    var g := t1.gap.value;
    forall e | e in t1.failed ensures Accounted(cfg, t1, last, e) {
      if e in t.failed { assert Accounted(cfg, t, wm.value, e); }
    }
    forall e | Aligned(e, cfg.size) && g.first <= e <= last && e > last - cfg.maxBackfill
      ensures e in t1.failed || e in t1.live {
      if e < ends[0] {
        AlignedGap(e, ends[0], cfg.size);
      }
    }
  }

  lemma UpKeeps(cfg: Config, wm: Option<int>, t: Tenant, ends: seq<int>, fill: FillAnswer)
    requires Usable(cfg) && TenantOk(cfg, wm, t) && Stretch(cfg, wm, ends)
    ensures var last := ends[|ends| - 1]; var (gap, filled) := FillTenant(cfg, t.gap, ends[0], last, false, fill);
      TenantOk(cfg, Some(last), t.(live := t.live + Elements(ends), gap := gap, filled := t.filled + Elements(filled)))
  {
    var last := ends[|ends| - 1];
    var (gap, filled) := FillTenant(cfg, t.gap, ends[0], last, false, fill);
    var t1 := t.(live := t.live + Elements(ends), gap := gap, filled := t.filled + Elements(filled));
    if t.gap.Some? {
      var g := t.gap.value;
      MissedIs(cfg, g, last);
      forall e ensures e in Elements(filled) <==> e in filled { }
      forall e | e in t.failed ensures Accounted(cfg, t1, last, e) { assert Accounted(cfg, t, wm.value, e); }
      forall e | Aligned(e, cfg.size) && g.first <= e <= last && e > last - cfg.maxBackfill
        ensures e in t1.failed || e in t1.live {
        if e < ends[0] {
          AlignedGap(e, ends[0], cfg.size);
        }
      }
    } else {
      assert Elements([]) == {};
      forall e | e in t.failed ensures Accounted(cfg, t1, last, e) { assert Accounted(cfg, t, wm.value, e); }
    }
  }

  lemma StepOk(cfg: Config, wm: Option<int>, t: Tenant, tc: TenantCall)
    requires Usable(cfg) && TenantOk(cfg, wm, t)
    requires CommittedBy(cfg, wm, tc.call) != [] ==> Finishes(cfg, wm, tc)
    ensures TenantOk(cfg, WatermarkAfter(wm, CommittedBy(cfg, wm, tc.call)), TenantStep(cfg, wm, t, tc))
  {
    hide TenantOk, Stretch, Accounted, SpanOk;
    var ends := CommittedBy(cfg, wm, tc.call);
    if ends != [] {
      OkAligned(cfg, wm, t);
      CompletedStretch(cfg, wm, tc.call);
      if tc.down {
        assert Elements([]) == {};
        assert t.filled + Elements([]) == t.filled;
        DownKeeps(cfg, wm, t, ends, tc.fill);
      } else {
        UpKeeps(cfg, wm, t, ends, tc.fill);
      }
    }
  }

  lemma OkAligned(cfg: Config, wm: Option<int>, t: Tenant)
    requires cfg.size > 0 && TenantOk(cfg, wm, t)
    ensures wm.Some? ==> Aligned(wm.value, cfg.size)
  {
  }

  /** Every call of the run that commits anything finishes. */
  ghost predicate AllComplete(cfg: Config, tcs: seq<TenantCall>)
    requires cfg.size > 0
  {
    forall n :: 0 <= n < |tcs| ==>
      (CommittedBy(cfg, RunWatermark(cfg, Calls(tcs[..n])), tcs[n].call) != [] ==>
         Finishes(cfg, RunWatermark(cfg, Calls(tcs[..n])), tcs[n]))
  }

  lemma CallsPrefix(tcs: seq<TenantCall>, n: nat)
    requires n < |tcs|
    ensures Calls(tcs[..n + 1])[..n] == Calls(tcs[..n]) && Calls(tcs[..n + 1])[n] == tcs[n].call
  {
  }

  /** Tenant gap filling, over every run in which calls that commit finish: each failed window stays in the
      gap span until it is filled or older than MAX_BACKFILL, and only windows that were committed are
      ever filled, never one that MAX_BACKFILL skipped. */
  lemma {:induction false} GapRemembers(cfg: Config, tcs: seq<TenantCall>)
    requires Usable(cfg) && AllComplete(cfg, tcs)
    ensures TenantOk(cfg, RunWatermark(cfg, Calls(tcs)), TenantRun(cfg, tcs))
  {
    hide TenantOk, TenantStep, CommittedBy;
    if tcs == [] {
      assert TenantOk(cfg, None, NEW_TENANT) by { NewIsOk(cfg); }
    } else {
      var n := |tcs| - 1;
      var before := tcs[..n];
      forall k | 0 <= k < |before| ensures before[..k] == tcs[..k] && before[k] == tcs[k] { }
      GapRemembers(cfg, before);
      assert tcs[..n + 1] == tcs;
      CallsPrefix(tcs, n);
      StepOk(cfg, RunWatermark(cfg, Calls(before)), TenantRun(cfg, before), tcs[n]);
    }
  }

  lemma NewIsOk(cfg: Config)
    requires cfg.size > 0
    ensures TenantOk(cfg, None, NEW_TENANT)
  {
  }

  // ---- exact fills ----

  /** A gap that has not been interrupted: all its windows failed, none is filled, and it reaches up to now. */
  ghost predicate FreshGap(cfg: Config, wm: Option<int>, t: Tenant)
    requires cfg.size > 0
  {
    && t.filled <= t.failed && t.filled !! t.live && t.failed !! t.live
    && (t.gap.Some? && wm.Some? ==>
         && t.gap.value.last == wm.value
         && forall e :: Aligned(e, cfg.size) && t.gap.value.first <= e <= wm.value && e > wm.value - cfg.maxBackfill
              ==> e in t.failed && e !in t.filled)
  }

  /** The windows owed at `last`: failed, not yet filled, not older than MAX_BACKFILL. */
  ghost predicate Owed(cfg: Config, t: Tenant, last: int, e: int)
  {
    e in t.failed && e !in t.filled && e > last - cfg.maxBackfill
  }

  lemma DownFresh(cfg: Config, wm: Option<int>, t: Tenant, ends: seq<int>)
    requires Usable(cfg) && TenantOk(cfg, wm, t) && Stretch(cfg, wm, ends) && FreshGap(cfg, wm, t)
    ensures var last := ends[|ends| - 1];
      FreshGap(cfg, Some(last), t.(failed := t.failed + Elements(ends), gap := Some(Recorded(t.gap, ends[0], last))))
  {
    var last := ends[|ends| - 1];
    SizeIsSeconds(cfg, ends[0]);
    SizeIsSeconds(cfg, last);
    if t.gap.Some? { SizeIsSeconds(cfg, t.gap.value.first); }
    var t1 := t.(failed := t.failed + Elements(ends), gap := Some(Recorded(t.gap, ends[0], last)));
    assert forall e :: e in Elements(ends) ==> e !in t.live && e !in t.filled;
    forall e | Aligned(e, cfg.size) && t1.gap.value.first <= e <= last && e > last - cfg.maxBackfill
      ensures e in t1.failed && e !in t1.filled
    {
      if e < ends[0] { AlignedGap(e, ends[0], cfg.size); }
    }
  }

  lemma UpFillsOwed(cfg: Config, wm: Option<int>, t: Tenant, ends: seq<int>)
    requires Usable(cfg) && TenantOk(cfg, wm, t) && Stretch(cfg, wm, ends) && FreshGap(cfg, wm, t)
    ensures var last := ends[|ends| - 1]; var (gap, filled) := FillTenant(cfg, t.gap, ends[0], last, false, Filled);
      gap == None && forall e :: e in filled <==> Owed(cfg, t, last, e)
  {
    hide Missed;
    var last := ends[|ends| - 1];
    forall e | e in t.failed ensures Accounted(cfg, t, wm.value, e) { }
    if t.gap.Some? { MissedIs(cfg, t.gap.value, last); }
  }

  lemma UpFresh(cfg: Config, wm: Option<int>, t: Tenant, ends: seq<int>, filled: seq<int>)
    requires Usable(cfg) && TenantOk(cfg, wm, t) && Stretch(cfg, wm, ends) && FreshGap(cfg, wm, t)
    requires forall e :: e in filled ==> Owed(cfg, t, ends[|ends| - 1], e)
    ensures FreshGap(cfg, Some(ends[|ends| - 1]),
        t.(live := t.live + Elements(ends), gap := None, filled := t.filled + Elements(filled)))
  {
    hide SpanOk, Accounted;
    assert forall e :: e in Elements(filled) ==> e in filled;
    assert forall e :: e in Elements(ends) ==> e !in t.failed && e !in t.filled;
  }

  lemma FreshStep(cfg: Config, wm: Option<int>, t: Tenant, tc: TenantCall)
    requires Usable(cfg) && TenantOk(cfg, wm, t) && FreshGap(cfg, wm, t) && tc.fill.Filled?
    requires CommittedBy(cfg, wm, tc.call) != [] ==> Finishes(cfg, wm, tc)
    ensures FreshGap(cfg, WatermarkAfter(wm, CommittedBy(cfg, wm, tc.call)), TenantStep(cfg, wm, t, tc))
    ensures var ends := CommittedBy(cfg, wm, tc.call);
      (ends != [] && !tc.down ==>
        forall e :: e in TenantStep(cfg, wm, t, tc).filled <==> e in t.filled || Owed(cfg, t, ends[|ends| - 1], e))
  {
    hide TenantOk, CommittedBy, FreshGap, Completes, FillTenant, Owed, Stretch;
    var ends := CommittedBy(cfg, wm, tc.call);
    if ends != [] {
      OkAligned(cfg, wm, t);
      CompletedStretch(cfg, wm, tc.call);
      if tc.down {
        assert Elements([]) == {};
        assert t.filled + Elements([]) == t.filled;
        DownIsRecord(cfg, t.gap, ends[0], ends[|ends| - 1], tc.fill);
        DownFresh(cfg, wm, t, ends);
      } else {
        UpFillsOwed(cfg, wm, t, ends);
        var filled := FillTenant(cfg, t.gap, ends[0], ends[|ends| - 1], false, Filled).1;
        UpFresh(cfg, wm, t, ends, filled);
        forall e ensures e in Elements(filled) <==> e in filled { }
      }
    }
  }

  /** With fills that succeed whenever the API answers again, and no crash in the commit loop, each
      fill meters exactly the windows owed: those that failed and are not older than MAX_BACKFILL. */
  lemma {:induction false} FillsAreExact(cfg: Config, tcs: seq<TenantCall>)
    requires Usable(cfg) && AllComplete(cfg, tcs) && forall n :: 0 <= n < |tcs| ==> tcs[n].fill.Filled?
    ensures FreshGap(cfg, RunWatermark(cfg, Calls(tcs)), TenantRun(cfg, tcs))
    ensures tcs != [] ==>
      var n := |tcs| - 1; var wm := RunWatermark(cfg, Calls(tcs[..n])); var t := TenantRun(cfg, tcs[..n]);
      var ends := CommittedBy(cfg, wm, tcs[n].call);
      (ends != [] && !tcs[n].down ==>
        forall e :: e in TenantRun(cfg, tcs).filled <==> e in t.filled || Owed(cfg, t, ends[|ends| - 1], e))
  {
    hide TenantOk, CommittedBy, FreshGap, Completes, TenantStep, Owed;
    if tcs == [] {
      NewIsFresh(cfg);
    } else {
      var n := |tcs| - 1;
      var before := tcs[..n];
      forall k | 0 <= k < |before| ensures before[..k] == tcs[..k] && before[k] == tcs[k] { }
      FillsAreExact(cfg, before);
      GapRemembers(cfg, before);
      assert tcs[..n + 1] == tcs;
      CallsPrefix(tcs, n);
      FreshStep(cfg, RunWatermark(cfg, Calls(before)), TenantRun(cfg, before), tcs[n]);
    }
  }

  lemma DownIsRecord(cfg: Config, g: Option<Gap>, first: int, last: int, fill: FillAnswer)
    requires cfg.size > 0
    ensures FillTenant(cfg, g, first, last, true, fill) == (Some(Recorded(g, first, last)), [])
  {
  }

  lemma NewIsFresh(cfg: Config)
    requires cfg.size > 0
    ensures FreshGap(cfg, None, NEW_TENANT)
  {
  }

  // ---- where the code forgets ----

  /** A commit loop that fails part-way skips fillTenantGaps, and so does a process that dies before it.
      The windows a down tenant missed in such a call are then accounted for exactly when it committed
      none, whatever gap was open before. */
  lemma PartialCommitForgets(cfg: Config, wm: Option<int>, t: Tenant, tc: TenantCall)
    requires Usable(cfg) && TenantOk(cfg, wm, t) && tc.down && !Finishes(cfg, wm, tc)
    ensures var t1 := TenantStep(cfg, wm, t, tc); var ends := CommittedBy(cfg, wm, tc.call);
        var wm1 := WatermarkAfter(wm, ends);
      (wm1.None? || forall e :: e in t1.failed ==> Accounted(cfg, t1, wm1.value, e)) <==> ends == []
  {
    hide CommittedBy, SpanOk;
    var ends := CommittedBy(cfg, wm, tc.call);
    if ends != [] {
      var last := ends[|ends| - 1];
      OkIsShaped(cfg, wm, t);
      MissedIsPending(cfg, wm, t, tc, last);
      assert last in TenantStep(cfg, wm, t, tc).failed;
    }
  }

  /** The span ends by the watermark, on window ends, and nothing later was filled. */
  ghost predicate SpanShape(cfg: Config, wm: Option<int>, t: Tenant)
    requires cfg.size > 0
  {
    && (wm.Some? ==> Aligned(wm.value, cfg.size))
    && (forall e :: e in t.filled ==> wm.Some? && e <= wm.value)
    && (t.gap.Some? ==>
         var g := t.gap.value;
         Aligned(g.first, cfg.size) && Aligned(g.last, cfg.size) && g.first <= g.last && wm.Some? && g.last <= wm.value)
  }

  /** A window that is outside the span and not filled. */
  predicate Pending(t: Tenant, e: int)
  {
    e !in t.filled && (t.gap.Some? ==> e < t.gap.value.first || t.gap.value.last < e)
  }

  /** On a window end no later than the watermark. */
  predicate Behind(cfg: Config, wm: Option<int>, e: int)
    requires cfg.size > 0
  {
    wm.Some? && Aligned(e, cfg.size) && e <= wm.value
  }

  lemma CommittedAscends(cfg: Config, wm: Option<int>, call: Call, e: int)
    requires Usable(cfg) && (wm.Some? ==> Aligned(wm.value, cfg.size)) && e in Elements(CommittedBy(cfg, wm, call))
    ensures Aligned(e, cfg.size) && (wm.Some? ==> wm.value < e)
    ensures Behind(cfg, WatermarkAfter(wm, CommittedBy(cfg, wm, call)), e)
  {
    var due := Due(cfg, wm, call.now).value;
    if wm.Some? { CatchUp(cfg, wm.value, call.now); } else { FirstCollection(cfg, call.now); }
    var ends := CommittedBy(cfg, wm, call);
    var i :| 0 <= i < |ends| && ends[i] == e;
    assert due[0] == ends[0];
    if wm.Some? {
      assert ends[i] == ends[0] + i * cfg.size && ends[|ends| - 1] == ends[0] + (|ends| - 1) * cfg.size;
      MulGe(i, 0, cfg.size);
      MulGe(|ends| - 1, i, cfg.size);
    }
  }

  lemma OkIsShaped(cfg: Config, wm: Option<int>, t: Tenant)
    requires cfg.size > 0 && TenantOk(cfg, wm, t)
    ensures SpanShape(cfg, wm, t)
  {
  }

  /** What an unfinished call leaves of the windows it committed while the tenant was down. */
  lemma MissedIsPending(cfg: Config, wm: Option<int>, t: Tenant, tc: TenantCall, e: int)
    requires Usable(cfg) && SpanShape(cfg, wm, t) && tc.down && !Finishes(cfg, wm, tc)
    requires e in Elements(CommittedBy(cfg, wm, tc.call))
    ensures var t1 := TenantStep(cfg, wm, t, tc); var wm1 := WatermarkAfter(wm, CommittedBy(cfg, wm, tc.call));
      && Behind(cfg, wm1, e) && SpanShape(cfg, wm1, t1) && Pending(t1, e) && t1.gap == t.gap && e !in t.filled
  {
    hide CommittedBy, Finishes;
    CommittedAscends(cfg, wm, tc.call, e);
    UnfinishedStep(cfg, wm, t, tc);
  }

  /** Later calls from some state on: watermark and tenant. */
  function RunFrom(cfg: Config, wm: Option<int>, t: Tenant, tcs: seq<TenantCall>): (Option<int>, Tenant)
    requires cfg.size > 0
  {
    if tcs == [] then (wm, t)
    else
      var n := |tcs| - 1;
      var (wm1, t1) := RunFrom(cfg, wm, t, tcs[..n]);
      (WatermarkAfter(wm1, CommittedBy(cfg, wm1, tcs[n].call)), TenantStep(cfg, wm1, t1, tcs[n]))
  }

  /** A call that finishes with the tenant down again while a span from before the window is still open:
      the span is stretched over it. */
  predicate Rescues(cfg: Config, wm: Option<int>, t: Tenant, tc: TenantCall, e: int)
    requires cfg.size > 0
  {
    CommittedBy(cfg, wm, tc.call) != [] && Finishes(cfg, wm, tc) && tc.down && t.gap.Some? && t.gap.value.first <= e
  }

  ghost predicate RescuedBy(cfg: Config, wm: Option<int>, t: Tenant, tcs: seq<TenantCall>, k: nat, e: int)
    requires cfg.size > 0 && k < |tcs|
  {
    var (wm1, t1) := RunFrom(cfg, wm, t, tcs[..k]);
    Rescues(cfg, wm1, t1, tcs[k], e)
  }

  ghost predicate Rescued(cfg: Config, wm: Option<int>, t: Tenant, tcs: seq<TenantCall>, e: int)
    requires cfg.size > 0
  {
    exists k: nat :: k < |tcs| && RescuedBy(cfg, wm, t, tcs, k, e)
  }

  lemma SpanGrows(cfg: Config, wm: Option<int>, t: Tenant, ends: seq<int>)
    requires Usable(cfg) && SpanShape(cfg, wm, t) && Stretch(cfg, wm, ends)
    ensures var last := ends[|ends| - 1]; var g := Recorded(t.gap, ends[0], last);
      && g == Gap(if t.gap.Some? then t.gap.value.first else ends[0], last)
      && SpanShape(cfg, Some(last), t.(gap := Some(g)))
  {
    SizeIsSeconds(cfg, ends[0]);
    SizeIsSeconds(cfg, ends[|ends| - 1]);
    if t.gap.Some? { SizeIsSeconds(cfg, t.gap.value.first); }
  }

  /** A call that does not finish moves the watermark and leaves span and fills. */
  lemma UnfinishedStep(cfg: Config, wm: Option<int>, t: Tenant, tc: TenantCall)
    requires Usable(cfg) && SpanShape(cfg, wm, t) && !Finishes(cfg, wm, tc)
    ensures var ends := CommittedBy(cfg, wm, tc.call); var wm1 := WatermarkAfter(wm, ends);
        var t1 := TenantStep(cfg, wm, t, tc);
      && t1.gap == t.gap && t1.filled == t.filled && SpanShape(cfg, wm1, t1)
      && (wm.Some? ==> wm1.Some? && wm.value <= wm1.value)
  {
    hide CommittedBy, Finishes;
    var ends := CommittedBy(cfg, wm, tc.call);
    if ends != [] { CommittedAscends(cfg, wm, tc.call, ends[|ends| - 1]); }
  }

  /** One later call, whatever becomes of it: a pending window becomes covered exactly when the call rescues
      it, and a covered one stays covered until it is filled or too old. */
  lemma LaterStep(cfg: Config, wm: Option<int>, t: Tenant, tc: TenantCall, e: int)
    requires Usable(cfg) && SpanShape(cfg, wm, t) && Behind(cfg, wm, e)
    ensures var wm1 := WatermarkAfter(wm, CommittedBy(cfg, wm, tc.call)); var t1 := TenantStep(cfg, wm, t, tc);
      && SpanShape(cfg, wm1, t1) && Behind(cfg, wm1, e)
      && (Pending(t, e) ==> (Pending(t1, e) <==> !Rescues(cfg, wm, t, tc, e)))
      && (!Pending(t, e) || e <= wm.value - cfg.maxBackfill ==> !Pending(t1, e) || e <= wm1.value - cfg.maxBackfill)
  {
    hide CommittedBy, FillTenant, Stretch, Completes;
    var ends := CommittedBy(cfg, wm, tc.call);
    if !Finishes(cfg, wm, tc) {
      UnfinishedStep(cfg, wm, t, tc);
    } else if ends != [] {
      CompletedStretch(cfg, wm, tc.call);
      FinishedStep(cfg, wm, t, tc, ends, e);
    }
  }

  lemma FinishedStep(cfg: Config, wm: Option<int>, t: Tenant, tc: TenantCall, ends: seq<int>, e: int)
    requires Usable(cfg) && SpanShape(cfg, wm, t) && Behind(cfg, wm, e) && ends != [] && Stretch(cfg, wm, ends)
    requires Finishes(cfg, wm, tc) && ends == CommittedBy(cfg, wm, tc.call)
    ensures var wm1 := Some(ends[|ends| - 1]); var t1 := TenantStep(cfg, wm, t, tc);
      && SpanShape(cfg, wm1, t1) && Behind(cfg, wm1, e)
      && (Pending(t, e) ==> (Pending(t1, e) <==> !Rescues(cfg, wm, t, tc, e)))
      && (!Pending(t, e) || e <= wm.value - cfg.maxBackfill ==> !Pending(t1, e) || e <= wm1.value - cfg.maxBackfill)
  {
    hide CommittedBy, FillTenant, Stretch, Finishes;
    var last := ends[|ends| - 1];
    StretchEnds(cfg, wm, ends);
    if tc.down {
      SpanGrows(cfg, wm, t, ends);
      DownIsRecord(cfg, t.gap, ends[0], last, tc.fill);
      assert Elements([]) == {};
    } else {
      UpStep(cfg, wm, t, ends, tc.fill, e);
    }
  }

  lemma StretchEnds(cfg: Config, wm: Option<int>, ends: seq<int>)
    requires cfg.size > 0 && Stretch(cfg, wm, ends)
    ensures Aligned(ends[0], cfg.size) && Aligned(ends[|ends| - 1], cfg.size) && ends[0] <= ends[|ends| - 1]
    ensures wm.Some? ==> wm.value < ends[0]
  {
  }

  lemma UpStep(cfg: Config, wm: Option<int>, t: Tenant, ends: seq<int>, fill: FillAnswer, e: int)
    requires Usable(cfg) && SpanShape(cfg, wm, t) && ends != []
    requires Aligned(ends[|ends| - 1], cfg.size) && (wm.Some? ==> wm.value < ends[|ends| - 1])
    ensures var last := ends[|ends| - 1]; var (gap, filled) := FillTenant(cfg, t.gap, ends[0], last, false, fill);
      var t1 := t.(live := t.live + Elements(ends), gap := gap, filled := t.filled + Elements(filled));
      && SpanShape(cfg, Some(last), t1)
      && (Behind(cfg, wm, e) && Pending(t, e) ==> Pending(t1, e))
      && (Behind(cfg, wm, e) && !Pending(t, e) ==> !Pending(t1, e) || e <= last - cfg.maxBackfill)
  {
    hide Missed;
    if t.gap.Some? { MissedIs(cfg, t.gap.value, ends[|ends| - 1]); }
    var filled := FillTenant(cfg, t.gap, ends[0], ends[|ends| - 1], false, fill).1;
    forall x ensures x in Elements(filled) <==> x in filled { }
  }

  /** SpanShape, over every run and however its calls end. */
  lemma {:induction false} RunShaped(cfg: Config, tcs: seq<TenantCall>)
    requires Usable(cfg)
    ensures SpanShape(cfg, RunWatermark(cfg, Calls(tcs)), TenantRun(cfg, tcs))
  {
    hide CommittedBy, TenantStep, SpanShape;
    if tcs == [] {
      assert SpanShape(cfg, None, NEW_TENANT) by { NewIsShaped(cfg); }
    } else {
      var n := |tcs| - 1;
      RunShaped(cfg, tcs[..n]);
      assert tcs[..n + 1] == tcs;
      CallsPrefix(tcs, n);
      StepShaped(cfg, RunWatermark(cfg, Calls(tcs[..n])), TenantRun(cfg, tcs[..n]), tcs[n]);
    }
  }

  lemma NewIsShaped(cfg: Config)
    requires cfg.size > 0
    ensures SpanShape(cfg, None, NEW_TENANT)
  {
  }

  lemma StepShaped(cfg: Config, wm: Option<int>, t: Tenant, tc: TenantCall)
    requires Usable(cfg) && SpanShape(cfg, wm, t)
    ensures SpanShape(cfg, WatermarkAfter(wm, CommittedBy(cfg, wm, tc.call)), TenantStep(cfg, wm, t, tc))
  {
    hide CommittedBy, FillTenant, Stretch, Completes;
    var ends := CommittedBy(cfg, wm, tc.call);
    if !Finishes(cfg, wm, tc) {
      UnfinishedStep(cfg, wm, t, tc);
    } else if ends != [] {
      CompletedStretch(cfg, wm, tc.call);
      StretchEnds(cfg, wm, ends);
      if tc.down {
        SpanGrows(cfg, wm, t, ends);
        DownIsRecord(cfg, t.gap, ends[0], ends[|ends| - 1], tc.fill);
        assert Elements([]) == {};
      } else {
        UpStep(cfg, wm, t, ends, tc.fill, 0);
      }
    }
  }

  lemma {:induction false} LaterRun(cfg: Config, wm: Option<int>, t: Tenant, tcs: seq<TenantCall>, e: int)
    requires Usable(cfg) && SpanShape(cfg, wm, t) && Behind(cfg, wm, e) && Pending(t, e)
    ensures var (wm1, t1) := RunFrom(cfg, wm, t, tcs);
      && SpanShape(cfg, wm1, t1) && Behind(cfg, wm1, e)
      && (!Rescued(cfg, wm, t, tcs, e) ==> Pending(t1, e))
      && (Rescued(cfg, wm, t, tcs, e) ==> !Pending(t1, e) || e <= wm1.value - cfg.maxBackfill)
  {
    hide CommittedBy, TenantStep, SpanShape, Pending, Rescues, Rescued;
    if tcs != [] {
      var n := |tcs| - 1;
      LaterRun(cfg, wm, t, tcs[..n], e);
      var (wm1, t1) := RunFrom(cfg, wm, t, tcs[..n]);
      LaterStep(cfg, wm1, t1, tcs[n], e);
      RescuedSteps(cfg, wm, t, tcs, e);
    } else {
      NotYetRescued(cfg, wm, t, e);
    }
  }

  lemma NotYetRescued(cfg: Config, wm: Option<int>, t: Tenant, e: int)
    requires cfg.size > 0
    ensures !Rescued(cfg, wm, t, [], e)
  {
  }

  lemma RescuedSteps(cfg: Config, wm: Option<int>, t: Tenant, tcs: seq<TenantCall>, e: int)
    requires cfg.size > 0 && tcs != []
    ensures var n := |tcs| - 1; var (wm1, t1) := RunFrom(cfg, wm, t, tcs[..n]);
      Rescued(cfg, wm, t, tcs, e) <==> Rescued(cfg, wm, t, tcs[..n], e) || Rescues(cfg, wm1, t1, tcs[n], e)
  {
    hide RunFrom, Rescues;
    var n := |tcs| - 1;
    forall k: nat | k < n ensures RescuedBy(cfg, wm, t, tcs[..n], k, e) <==> RescuedBy(cfg, wm, t, tcs, k, e) {
      assert tcs[..n][..k] == tcs[..k];
    }
    assert RescuedBy(cfg, wm, t, tcs, n, e) <==>
      Rescues(cfg, RunFrom(cfg, wm, t, tcs[..n]).0, RunFrom(cfg, wm, t, tcs[..n]).1, tcs[n], e);
  }

  /** What becomes of a window that an unfinished call committed while the tenant was down, over every run
      before and every run after. In the end it is filled, covered or too old exactly when it is too old by
      then, or a later call that finished found the tenant down again and a span still open from before the
      window: the span is then stretched over it. Otherwise it is never filled. */
  lemma ForgottenWindow(cfg: Config, before: seq<TenantCall>, tc: TenantCall, later: seq<TenantCall>, e: int)
    requires Usable(cfg)
    requires var wm := RunWatermark(cfg, Calls(before));
      tc.down && !Finishes(cfg, wm, tc) && e in Elements(CommittedBy(cfg, wm, tc.call))
    ensures var wm := RunWatermark(cfg, Calls(before)); var t := TenantRun(cfg, before);
      var wm1 := WatermarkAfter(wm, CommittedBy(cfg, wm, tc.call)); var t1 := TenantStep(cfg, wm, t, tc);
      var (wm2, t2) := RunFrom(cfg, wm1, t1, later);
      && wm2.Some?
      && (Accounted(cfg, t2, wm2.value, e) <==> e <= wm2.value - cfg.maxBackfill || Rescued(cfg, wm1, t1, later, e))
      && (e in t2.filled ==> Rescued(cfg, wm1, t1, later, e))
  {
    hide CommittedBy, TenantStep, SpanShape, RunFrom, Rescued, Finishes;
    RunShaped(cfg, before);
    var wm, t := RunWatermark(cfg, Calls(before)), TenantRun(cfg, before);
    MissedIsPending(cfg, wm, t, tc, e);
    LaterRun(cfg, WatermarkAfter(wm, CommittedBy(cfg, wm, tc.call)), TenantStep(cfg, wm, t, tc), later, e);
  }

  // ---- windows metered live and filled again ----

  /** This call meters the window as a missed one: the tenant answers, and the open span covers the window. */
  predicate Fills(cfg: Config, wm: Option<int>, t: Tenant, tc: TenantCall, e: int)
    requires cfg.size > 0
  {
    var ends := CommittedBy(cfg, wm, tc.call);
    && ends != [] && Finishes(cfg, wm, tc) && !tc.down && tc.fill.Filled?
    && t.gap.Some? && t.gap.value.first <= e <= t.gap.value.last && e > ends[|ends| - 1] - cfg.maxBackfill
  }

  ghost predicate FilledBy(cfg: Config, wm: Option<int>, t: Tenant, tcs: seq<TenantCall>, k: nat, e: int)
    requires cfg.size > 0 && k < |tcs|
  {
    var (wm1, t1) := RunFrom(cfg, wm, t, tcs[..k]);
    Fills(cfg, wm1, t1, tcs[k], e)
  }

  ghost predicate FilledLater(cfg: Config, wm: Option<int>, t: Tenant, tcs: seq<TenantCall>, e: int)
    requires cfg.size > 0
  {
    exists k: nat :: k < |tcs| && FilledBy(cfg, wm, t, tcs, k, e)
  }

  /** One call fills a window exactly when its span covers it and it is not too old. */
  lemma FillStep(cfg: Config, wm: Option<int>, t: Tenant, tc: TenantCall, e: int)
    requires Usable(cfg) && SpanShape(cfg, wm, t) && Aligned(e, cfg.size)
    ensures e in TenantStep(cfg, wm, t, tc).filled <==> e in t.filled || Fills(cfg, wm, t, tc, e)
  {
    hide CommittedBy, Missed, Completes;
    var ends := CommittedBy(cfg, wm, tc.call);
    if ends != [] && Finishes(cfg, wm, tc) {
      var filled := FillTenant(cfg, t.gap, ends[0], ends[|ends| - 1], tc.down, tc.fill).1;
      assert e in Elements(filled) <==> e in filled;
      if t.gap.Some? { MissedIs(cfg, t.gap.value, ends[|ends| - 1]); }
    }
  }

  lemma {:induction false} FilledRun(cfg: Config, wm: Option<int>, t: Tenant, tcs: seq<TenantCall>, e: int)
    requires Usable(cfg) && SpanShape(cfg, wm, t) && Aligned(e, cfg.size)
    ensures var (wm1, t1) := RunFrom(cfg, wm, t, tcs);
      SpanShape(cfg, wm1, t1) && (e in t1.filled <==> e in t.filled || FilledLater(cfg, wm, t, tcs, e))
  {
    hide CommittedBy, TenantStep, SpanShape, Fills, FilledLater;
    if tcs == [] {
      NotYetFilled(cfg, wm, t, e);
    } else {
      var n := |tcs| - 1;
      FilledRun(cfg, wm, t, tcs[..n], e);
      var (wm1, t1) := RunFrom(cfg, wm, t, tcs[..n]);
      StepShaped(cfg, wm1, t1, tcs[n]);
      FillStep(cfg, wm1, t1, tcs[n], e);
      FilledSteps(cfg, wm, t, tcs, e);
    }
  }

  lemma NotYetFilled(cfg: Config, wm: Option<int>, t: Tenant, e: int)
    requires cfg.size > 0
    ensures !FilledLater(cfg, wm, t, [], e)
  {
  }

  lemma FilledSteps(cfg: Config, wm: Option<int>, t: Tenant, tcs: seq<TenantCall>, e: int)
    requires cfg.size > 0 && tcs != []
    ensures var n := |tcs| - 1; var (wm1, t1) := RunFrom(cfg, wm, t, tcs[..n]);
      FilledLater(cfg, wm, t, tcs, e) <==> FilledLater(cfg, wm, t, tcs[..n], e) || Fills(cfg, wm1, t1, tcs[n], e)
  {
    hide RunFrom, Fills;
    var n := |tcs| - 1;
    forall k: nat | k < n ensures FilledBy(cfg, wm, t, tcs[..n], k, e) <==> FilledBy(cfg, wm, t, tcs, k, e) {
      assert tcs[..n][..k] == tcs[..k];
    }
    var (wm1, t1) := RunFrom(cfg, wm, t, tcs[..n]);
    assert FilledBy(cfg, wm, t, tcs, n, e) <==> Fills(cfg, wm1, t1, tcs[n], e);
  }

  /** A fill of a pending window comes behind a call that stretched an older span over it. */
  lemma FilledIsRescued(cfg: Config, wm: Option<int>, t: Tenant, tcs: seq<TenantCall>, k: nat, e: int)
    requires Usable(cfg) && SpanShape(cfg, wm, t) && Behind(cfg, wm, e) && Pending(t, e)
    requires k < |tcs| && FilledBy(cfg, wm, t, tcs, k, e)
    ensures Rescued(cfg, wm, t, tcs[..k], e)
  {
    hide RunFrom, Rescued, SpanShape, Behind, CommittedBy, Finishes;
    LaterRun(cfg, wm, t, tcs[..k], e);
  }

  /** What the call that meters a window live leaves: not filled, and outside the span. */
  lemma LiveIsPending(cfg: Config, wm: Option<int>, t: Tenant, tc: TenantCall, e: int)
    requires Usable(cfg) && SpanShape(cfg, wm, t) && !tc.down && e in Elements(CommittedBy(cfg, wm, tc.call))
    ensures var t1 := TenantStep(cfg, wm, t, tc); var wm1 := WatermarkAfter(wm, CommittedBy(cfg, wm, tc.call));
      Behind(cfg, wm1, e) && SpanShape(cfg, wm1, t1) && Pending(t1, e) && e in t1.live
  {
    hide CommittedBy, Missed, Completes;
    CommittedAscends(cfg, wm, tc.call, e);
    StepShaped(cfg, wm, t, tc);
    FillStep(cfg, wm, t, tc, e);
  }

  /** When a window the tenant was metered for live is metered again as a missed one, over every run before
      and every run after: exactly when some later call fills it, and none does unless an even later failure
      has stretched a span over it that was open since before it. So a fill leaves windows committed
      normally alone as long as no span outlives a call in which the tenant's API answered. */
  lemma LiveWindowRefilled(cfg: Config, before: seq<TenantCall>, tc: TenantCall, later: seq<TenantCall>, e: int)
    requires Usable(cfg) && !tc.down
    requires e in Elements(CommittedBy(cfg, RunWatermark(cfg, Calls(before)), tc.call))
    ensures var wm := RunWatermark(cfg, Calls(before)); var t := TenantRun(cfg, before);
      var wm1 := WatermarkAfter(wm, CommittedBy(cfg, wm, tc.call)); var t1 := TenantStep(cfg, wm, t, tc);
      && e in t1.live
      && (e in RunFrom(cfg, wm1, t1, later).1.filled <==> FilledLater(cfg, wm1, t1, later, e))
      && (forall k: nat :: k < |later| && FilledBy(cfg, wm1, t1, later, k, e) ==> Rescued(cfg, wm1, t1, later[..k], e))
  {
    hide CommittedBy, TenantStep, SpanShape, RunFrom, Rescued, FilledLater, FilledBy;
    RunShaped(cfg, before);
    var wm, t := RunWatermark(cfg, Calls(before)), TenantRun(cfg, before);
    LiveIsPending(cfg, wm, t, tc, e);
    var wm1, t1 := WatermarkAfter(wm, CommittedBy(cfg, wm, tc.call)), TenantStep(cfg, wm, t, tc);
    FilledRun(cfg, wm1, t1, later, e);
    forall k: nat | k < |later| && FilledBy(cfg, wm1, t1, later, k, e) ensures Rescued(cfg, wm1, t1, later[..k], e) {
      FilledIsRescued(cfg, wm1, t1, later, k, e);
    }
  }

  // ---- concrete runs ----

  const HOURLY: Config := Config(HOUR, 100 * HOUR)

  /** The collection of the n-th hour. */
  function Hourly(n: int, down: bool, fill: FillAnswer, dies: bool): TenantCall
  {
    TenantCall(Call(n * HOUR, true, None), down, fill, dies)
  }

  lemma HourCommits(n: int)
    requires n > 0
    ensures var wm := if n == 1 then None else Some((n - 1) * HOUR);
      CommittedBy(HOURLY, wm, Call(n * HOUR, true, None)) == [n * HOUR]
  {
    MultipleIs(n, HOUR);
    MultipleIs(n - 100, HOUR);
    if n == 1 {
      FirstCollection(HOURLY, HOUR);
    } else {
      assert FirstEnd(HOURLY, Some((n - 1) * HOUR), n * HOUR).0 == n * HOUR;
      assert EndsUpTo(n * HOUR + HOUR, n * HOUR, HOUR) == [];
    }
  }

  lemma HourStep(n: int, t: Tenant, down: bool, fill: FillAnswer, dies: bool)
    requires n > 0
    ensures var wm := if n == 1 then None else Some((n - 1) * HOUR);
      TenantStep(HOURLY, wm, t, Hourly(n, down, fill, dies)) ==
        var t1 := if down then t.(failed := t.failed + {n * HOUR}) else t.(live := t.live + {n * HOUR});
        if dies then t1
        else
          var (gap, filled) := FillTenant(HOURLY, t.gap, n * HOUR, n * HOUR, down, fill);
          t1.(gap := gap, filled := t.filled + Elements(filled))
  {
    HourCommits(n);
    assert Elements([n * HOUR]) == {n * HOUR};
  }

  /** The n-th call of the run is the collection of the n-th hour. */
  predicate EveryHour(tcs: seq<TenantCall>)
  {
    forall i :: 0 <= i < |tcs| ==> tcs[i].call == Call((i + 1) * HOUR, true, None)
  }

  lemma {:induction false} HoursCommitted(tcs: seq<TenantCall>)
    requires EveryHour(tcs)
    ensures RunWatermark(HOURLY, Calls(tcs)) == if tcs == [] then None else Some(|tcs| * HOUR)
  {
    if tcs != [] {
      var n := |tcs| - 1;
      HoursCommitted(tcs[..n]);
      assert tcs[..n + 1] == tcs;
      CallsPrefix(tcs, n);
      HourCommits(n + 1);
    }
  }

  lemma NextHour(tcs: seq<TenantCall>, tc: TenantCall)
    requires EveryHour(tcs + [tc])
    ensures TenantRun(HOURLY, tcs + [tc])
      == TenantStep(HOURLY, if tcs == [] then None else Some(|tcs| * HOUR), TenantRun(HOURLY, tcs), tc)
  {
    hide TenantStep;
    assert (tcs + [tc])[..|tcs|] == tcs;
    assert forall i :: 0 <= i < |tcs| ==> (tcs + [tc])[i] == tcs[i];
    HoursCommitted(tcs);
  }

  lemma StoredHours()
    ensures Stored(HOUR) == HOUR && Stored(3 * HOUR) == 3 * HOUR
  {
    MultipleIs(1, HOUR);
    MultipleIs(3, HOUR);
    SizeIsSeconds(HOURLY, HOUR);
    SizeIsSeconds(HOURLY, 3 * HOUR);
  }

  /** Down in the first hour; metered live in the second, with the API failing again for the fill; down in the third. */
  const OFF_AND_ON: seq<TenantCall> :=
    [Hourly(1, true, StillDown, false), Hourly(2, false, StillDown, false), Hourly(3, true, StillDown, false)]

  lemma OffAndOn()
    ensures TenantRun(HOURLY, OFF_AND_ON) == Tenant(Some(Gap(HOUR, 3 * HOUR)), {HOUR, 3 * HOUR}, {2 * HOUR}, {})
  {
    hide TenantStep, Missed;
    var one, two, three := OFF_AND_ON[0], OFF_AND_ON[1], OFF_AND_ON[2];
    StoredHours();
    assert [] + [one] == [one] && [one] + [two] == [one, two] && [one, two] + [three] == OFF_AND_ON;
    assert Elements([]) == {};
    NextHour([], one);
    HourStep(1, NEW_TENANT, true, StillDown, false);
    var t1 := TenantRun(HOURLY, [one]);
    assert t1 == Tenant(Some(Gap(HOUR, HOUR)), {HOUR}, {}, {});
    NextHour([one], two);
    HourStep(2, t1, false, StillDown, false);
    MultipleIs(1, HOUR);
    MissedIs(HOURLY, Gap(HOUR, HOUR), 2 * HOUR);
    assert HOUR in Missed(HOURLY, Gap(HOUR, HOUR), 2 * HOUR);
    var t2 := TenantRun(HOURLY, [one, two]);
    assert t2 == Tenant(Some(Gap(HOUR, HOUR)), {HOUR}, {2 * HOUR}, {});
    NextHour([one, two], three);
    HourStep(3, t2, true, StillDown, false);
  }

  /** The second hour is metered twice, once live and once as a missed one, and was never missed. */
  lemma LiveFilledAgain()
    ensures var t := TenantRun(HOURLY, OFF_AND_ON + [Hourly(4, false, Filled, false)]);
      2 * HOUR in t.live && 2 * HOUR !in t.failed && 2 * HOUR in t.filled
  {
    hide TenantStep, Missed, TenantRun;
    OffAndOn();
    var t := TenantRun(HOURLY, OFF_AND_ON);
    NextHour(OFF_AND_ON, Hourly(4, false, Filled, false));
    HourStep(4, t, false, Filled, false);
    MultipleIs(1, HOUR);
    MultipleIs(2, HOUR);
    MissedIs(HOURLY, Gap(HOUR, 3 * HOUR), 4 * HOUR);
    var missed := Missed(HOURLY, Gap(HOUR, 3 * HOUR), 4 * HOUR);
    assert 2 * HOUR in missed;
    assert 2 * HOUR in Elements(missed);
  }

  /** The process ends behind the first commit with the tenant down, and the tenant is up from then on: the
      first hour was missed, no span is open, and it is not filled. */
  lemma FirstHourForgotten()
    ensures var t := TenantRun(HOURLY, [Hourly(1, true, StillDown, true), Hourly(2, false, Filled, false)]);
      HOUR in t.failed && t.gap == None && t.filled == {} && !Accounted(HOURLY, t, 2 * HOUR, HOUR)
  {
    hide TenantStep;
    var one, two := Hourly(1, true, StillDown, true), Hourly(2, false, Filled, false);
    assert [] + [one] == [one] && [one] + [two] == [one, two];
    assert Elements([]) == {};
    NextHour([], one);
    HourStep(1, NEW_TENANT, true, StillDown, true);
    NextHour([one], two);
    HourStep(2, TenantRun(HOURLY, [one]), false, Filled, false);
  }
}
