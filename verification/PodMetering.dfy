/** Metering pods into one accumulator per window (meterPods in internal/metrics/collector.go), and
    what any division of a span into windows leaves unchanged. */
module PodMetering {
  import opened Text
  import opened Usage
  import opened Identity
  import opened Metering
  import opened Accumulation
  import opened AccumulatorObject

  /** One metered resource of a pod: its event template, the template for its downtime (GPUs only), its rate. */
  datatype Share = Share(template: Event, downtime: Option<Event>, rate: real)

  /** A pod with its lifetime (start 0: not started, end 0: running), deletion date (0: none), node health and
      resources. */
  datatype MeteredPod = MeteredPod(start: Time, end: Time, deletedAt: Time, health: Health, shares: seq<Share>)

  function PartsOf(p: MeteredPod, ws: Time, we: Time): (int, int)
  {
    Split(p.health, p.start, ClampEnd(p.end, p.deletedAt), ws, we)
  }

  /** What one resource adds to one window. */
  function ShareAdditions(p: MeteredPod, sh: Share, ws: Time, we: Time): seq<Addition>
  {
    var (billable, down) := PartsOf(p, ws, we);
    [Addition(Measured(sh.template, 0.0), Quantity(sh.rate, billable))]
    + if sh.downtime.Some? && down > 0
      then [Addition(Measured(sh.downtime.value, 0.0), Quantity(sh.rate, down))] else []
  }

  function SharesAdditions(p: MeteredPod, shares: seq<Share>, ws: Time, we: Time): seq<Addition>
  {
    if shares == [] then []
    else SharesAdditions(p, shares[..|shares| - 1], ws, we) + ShareAdditions(p, shares[|shares| - 1], ws, we)
  }

  function PodAdditions(p: MeteredPod, ws: Time, we: Time): seq<Addition>
  {
    if p.start == 0 then [] else SharesAdditions(p, p.shares, ws, we)
  }

  /** What all pods add to one window, pod by pod. */
  function Additions(pods: seq<MeteredPod>, ws: Time, we: Time): seq<Addition>
  {
    if pods == [] then [] else Additions(pods[..|pods| - 1], ws, we) + PodAdditions(pods[|pods| - 1], ws, we)
  }

  // ---- as the code computes it ----

  lemma {:induction false} AddAllAppend(c: Codec, a: Acc, xs: seq<Addition>, ys: seq<Addition>)
    ensures AddAll(c, a, xs + ys) == AddAll(c, AddAll(c, a, xs), ys)
  {
    hide Add;
    if ys == [] {
      assert xs + ys == xs;
    } else {
      var n := |ys| - 1;
      assert (xs + ys)[..|xs + ys| - 1] == xs + ys[..n];
      AddAllAppend(c, a, xs, ys[..n]);
    }
  }

  lemma AddAllOne(c: Codec, a: Acc, x: Addition)
    ensures AddAll(c, a, [x]) == Add(c, a, x)
  {
    hide Add;
    assert [x][..0] == [];
    assert AddAll(c, a, []) == a;
  }

  lemma AddAllNone(c: Codec, a: Acc)
    ensures AddAll(c, a, []) == a
  {
  }

  /** One pod in one window: its resources in order. */
  method MeterWindow(c: Codec, p: MeteredPod, acc: Accumulator)
    requires p.start != 0
    modifies acc
    ensures acc.View() == AddAll(c, old(acc.View()), PodAdditions(p, acc.start, acc.end))
    ensures forall n: nat :: UpThrough(p, acc.start, acc.end) && acc.end == acc.start + n * HOUR ==>
      acc.View() == AddAll(c, old(acc.View()), HoursOf(p.shares, n))
  {
    hide ID, Add, AddAll, Split, ClampEnd, Quantity, UpThrough, HoursOf, HourOf;
    forall n: nat | UpThrough(p, acc.start, acc.end) && acc.end == acc.start + n * HOUR
      ensures PodAdditions(p, acc.start, acc.end) == HoursOf(p.shares, n) {
      WindowHours(p, acc.start, n);
    }
    var billable, down := Parts(p, acc.start, acc.end);
    var i := 0;
    AddAllNone(c, acc.View());
    while i < |p.shares|
      invariant i <= |p.shares|
      invariant acc.View() == AddAll(c, old(acc.View()), SharesAdditions(p, p.shares[..i], acc.start, acc.end))
    {
      var sh := p.shares[i];
      assert p.shares[..i + 1][..i] == p.shares[..i];
      ghost var before, xs := acc.View(), SharesAdditions(p, p.shares[..i], acc.start, acc.end);
      var x := Addition(Measured(sh.template, 0.0), Quantity(sh.rate, billable));
      acc.Add(c, x);
      AddAllOne(c, before, x);
      AddAllAppend(c, old(acc.View()), xs, [x]);
      if sh.downtime.Some? && down > 0 {
        var y := Addition(Measured(sh.downtime.value, 0.0), Quantity(sh.rate, down));
        ghost var between := acc.View();
        acc.Add(c, y);
        AddAllOne(c, between, y);
        AddAllAppend(c, old(acc.View()), xs + [x], [y]);
        assert xs + [x] + [y] == xs + ShareAdditions(p, sh, acc.start, acc.end);
      } else {
        assert xs + [x] == xs + ShareAdditions(p, sh, acc.start, acc.end);
      }
      i := i + 1;
    }
    assert p.shares[..i] == p.shares;
  }

  /** The instants of the window in which the pod ran, up to its deletion: those with its node up, and down. */
  method Parts(p: MeteredPod, ws: Time, we: Time) returns (billable: int, down: int)
    ensures (billable, down) == PartsOf(p, ws, we)
    ensures ws <= we ==>
      var end := ClampEnd(p.end, p.deletedAt);
      && billable == Instants(Billable, p.health, p.start, end, ws, we)
      && down == Instants(Downtime, p.health, p.start, end, ws, we)
  {
    if ws <= we { SplitMeasures(p.health, p.start, ClampEnd(p.end, p.deletedAt), ws, we); }
    var end := p.end;
    if p.deletedAt != 0 && (end == 0 || end > p.deletedAt) { end := p.deletedAt; }
    var parts := Split(p.health, p.start, end, ws, we);
    return parts.0, parts.1;
  }

  /** Every started pod in every window. */
  method MeterPods(c: Codec, pods: seq<MeteredPod>, accs: seq<Accumulator>)
    requires forall i, j :: 0 <= i < j < |accs| ==> accs[i] != accs[j]
    modifies accs
    ensures forall j :: 0 <= j < |accs| ==>
      accs[j].View() == AddAll(c, old(accs[j].View()), Additions(pods, accs[j].start, accs[j].end))
  {
    hide ID, AddAll, PodAdditions;
    var i := 0;
    forall j | 0 <= j < |accs| ensures accs[j].View() == AddAll(c, accs[j].View(), []) {
      AddAllNone(c, accs[j].View());
    }
    while i < |pods|
      invariant i <= |pods|
      invariant forall j :: 0 <= j < |accs| ==>
        accs[j].View() == AddAll(c, old(accs[j].View()), Additions(pods[..i], accs[j].start, accs[j].end))
    {
      assert pods[..i + 1][..i] == pods[..i];
      MeterPod(c, pods[i], accs);
      forall j | 0 <= j < |accs|
        ensures accs[j].View() == AddAll(c, old(accs[j].View()), Additions(pods[..i + 1], accs[j].start, accs[j].end))
      {
        AddAllAppend(c, old(accs[j].View()), Additions(pods[..i], accs[j].start, accs[j].end),
            PodAdditions(pods[i], accs[j].start, accs[j].end));
      }
      i := i + 1;
    }
    assert pods[..i] == pods;
  }

  /** One pod in every window. */
  method MeterPod(c: Codec, p: MeteredPod, accs: seq<Accumulator>)
    requires forall i, j :: 0 <= i < j < |accs| ==> accs[i] != accs[j]
    modifies accs
    ensures forall j :: 0 <= j < |accs| ==>
      accs[j].View() == AddAll(c, old(accs[j].View()), PodAdditions(p, accs[j].start, accs[j].end))
  {
    hide ID, AddAll, SharesAdditions;
    if p.start == 0 {
      forall j | 0 <= j < |accs| ensures accs[j].View() == AddAll(c, accs[j].View(), []) {
        AddAllNone(c, accs[j].View());
      }
      return;
    }
    var i := 0;
    while i < |accs|
      invariant i <= |accs|
      invariant forall j :: 0 <= j < i ==>
        accs[j].View() == AddAll(c, old(accs[j].View()), PodAdditions(p, accs[j].start, accs[j].end))
      invariant forall j :: i <= j < |accs| ==> accs[j].View() == old(accs[j].View())
    {
      MeterWindow(c, p, accs[i]);
      i := i + 1;
    }
  }

  // ---- hours ----

  /** The pod runs all through the window, and its node is up all through it. */
  predicate UpThrough(p: MeteredPod, ws: Time, we: Time)
  {
    && 0 < p.start <= ws && (p.end == 0 || we <= p.end) && (p.deletedAt == 0 || we <= p.deletedAt)
    && (p.health.Up? || we <= p.health.since)
  }

  /** Each resource once, at its rate for so many hours. */
  function HoursOf(shares: seq<Share>, n: nat): (xs: seq<Addition>)
    ensures |xs| == |shares|
    ensures forall i :: 0 <= i < |shares| ==> xs[i] == HourOf(shares[i], n)
  {
    seq(|shares|, i requires 0 <= i < |shares| => HourOf(shares[i], n))
  }

  function HourOf(sh: Share, n: nat): Addition { Addition(Measured(sh.template, 0.0), sh.rate * (n as real)) }

  lemma WholeWindow(p: MeteredPod, ws: Time, we: Time)
    requires UpThrough(p, ws, we) && ws <= we
    ensures PartsOf(p, ws, we) == (we - ws, 0)
  {
  }

  lemma ShareHours(p: MeteredPod, sh: Share, ws: Time, n: nat)
    requires UpThrough(p, ws, ws + n * HOUR)
    ensures ShareAdditions(p, sh, ws, ws + n * HOUR) == [HourOf(sh, n)]
  {
    hide PartsOf, Quantity, UpThrough;
    WholeWindow(p, ws, ws + n * HOUR);
    QuantityIsHourly(sh.rate, n * HOUR, n);
    var (billable, down) := PartsOf(p, ws, ws + n * HOUR);
    assert billable == n * HOUR && down == 0;
    var x := Addition(Measured(sh.template, 0.0), Quantity(sh.rate, billable));
    assert x == HourOf(sh, n);
    assert [x] + [] == [x];
  }

  lemma {:induction false} SharesHours(p: MeteredPod, shares: seq<Share>, ws: Time, n: nat)
    requires UpThrough(p, ws, ws + n * HOUR)
    ensures SharesAdditions(p, shares, ws, ws + n * HOUR) == HoursOf(shares, n)
  {
    hide ShareAdditions, UpThrough, HourOf;
    if shares != [] {
      var k := |shares| - 1;
      SharesHours(p, shares[..k], ws, n);
      assert HoursOf(shares, n) == HoursOf(shares[..k], n) + [HourOf(shares[k], n)];
      ShareHours(p, shares[k], ws, n);
    }
  }

  /** A pod that is up all through a window of n hours is metered for n hours of each of its resources, and for no
      downtime. */
  lemma WindowHours(p: MeteredPod, ws: Time, n: nat)
    requires UpThrough(p, ws, ws + n * HOUR)
    ensures PodAdditions(p, ws, ws + n * HOUR) == HoursOf(p.shares, n)
  {
    hide SharesAdditions;
    SharesHours(p, p.shares, ws, n);
  }

  /** A pod whose node is down all through it, having gone down before, is metered for n hours of downtime of each
      resource that has any, and for none of use. */
  lemma DownHours(p: MeteredPod, sh: Share, ws: Time, n: nat)
    requires 0 < p.start <= ws && p.end == 0 && p.deletedAt == 0 && p.health.Down? && p.health.since <= ws && n > 0
    ensures ShareAdditions(p, sh, ws, ws + n * HOUR) ==
      [Addition(Measured(sh.template, 0.0), 0.0)]
      + if sh.downtime.Some? then [Addition(Measured(sh.downtime.value, 0.0), sh.rate * (n as real))] else []
  {
    QuantityIsHourly(sh.rate, 0, 0);
    QuantityIsHourly(sh.rate, n * HOUR, n);
    assert PartsOf(p, ws, ws + n * HOUR) == (0, n * HOUR);
  }

  // ---- totals do not depend on the windows ----

  ghost predicate Rated(pods: seq<MeteredPod>)
  {
    forall p, sh :: p in pods && sh in p.shares ==> sh.rate >= 0.0
  }

  /** The positive quantities added under the templates chosen. */
  ghost function Chosen(keep: Event -> bool, xs: seq<Addition>): real
  {
    if xs == [] then 0.0
    else
      var x := xs[|xs| - 1];
      Chosen(keep, xs[..|xs| - 1]) + if keep(x.template.event) && x.quantity > 0.0 then x.quantity else 0.0
  }

  /** What one resource is metered for over a window, downtime included, under the templates chosen. */
  function ShareTotal(keep: Event -> bool, p: MeteredPod, sh: Share, ws: Time, we: Time): real
  {
    var (billable, down) := PartsOf(p, ws, we);
    (if keep(sh.template) then Quantity(sh.rate, billable) else 0.0)
    + if sh.downtime.Some? && keep(sh.downtime.value) then Quantity(sh.rate, down) else 0.0
  }

  function SharesTotal(keep: Event -> bool, p: MeteredPod, shares: seq<Share>, ws: Time, we: Time): real
  {
    if shares == [] then 0.0
    else SharesTotal(keep, p, shares[..|shares| - 1], ws, we) + ShareTotal(keep, p, shares[|shares| - 1], ws, we)
  }

  function PodsTotal(keep: Event -> bool, pods: seq<MeteredPod>, ws: Time, we: Time): real
  {
    if pods == [] then 0.0
    else
      var p := pods[|pods| - 1];
      PodsTotal(keep, pods[..|pods| - 1], ws, we) + if p.start == 0 then 0.0 else SharesTotal(keep, p, p.shares, ws, we)
  }

  lemma {:induction false} AddedAppend(keep: Event -> bool, xs: seq<Addition>, ys: seq<Addition>)
    ensures Chosen(keep, xs + ys) == Chosen(keep, xs) + Chosen(keep, ys)
  {
    if ys == [] {
      assert xs + ys == xs;
    } else {
      var n := |ys| - 1;
      assert (xs + ys)[..|xs + ys| - 1] == xs + ys[..n];
      AddedAppend(keep, xs, ys[..n]);
    }
  }

  lemma AddedOne(keep: Event -> bool, x: Addition)
    ensures Chosen(keep, [x]) == if keep(x.template.event) && x.quantity > 0.0 then x.quantity else 0.0
  {
    assert [x][..0] == [];
  }

  lemma QuantitySign(rate: real, ns: int)
    requires rate >= 0.0 && ns >= 0
    ensures Quantity(rate, ns) >= 0.0 && Quantity(rate, 0) == 0.0
  {
  }

  lemma ShareAdds(keep: Event -> bool, p: MeteredPod, sh: Share, ws: Time, we: Time)
    requires sh.rate >= 0.0 && ws <= we
    ensures Chosen(keep, ShareAdditions(p, sh, ws, we)) == ShareTotal(keep, p, sh, ws, we)
  {
    hide Quantity, Split, Chosen;
    SplitMeasures(p.health, p.start, ClampEnd(p.end, p.deletedAt), ws, we);
    var (billable, down) := PartsOf(p, ws, we);
    QuantitySign(sh.rate, billable);
    QuantitySign(sh.rate, down);
    var x := Addition(Measured(sh.template, 0.0), Quantity(sh.rate, billable));
    AddedOne(keep, x);
    if sh.downtime.Some? && down > 0 {
      var y := Addition(Measured(sh.downtime.value, 0.0), Quantity(sh.rate, down));
      AddedOne(keep, y);
      AddedAppend(keep, [x], [y]);
    } else {
      assert [x] + [] == [x];
    }
  }

  lemma {:induction false} SharesAdd(keep: Event -> bool, p: MeteredPod, shares: seq<Share>, ws: Time, we: Time)
    requires ws <= we && forall sh :: sh in shares ==> sh.rate >= 0.0
    ensures Chosen(keep, SharesAdditions(p, shares, ws, we)) == SharesTotal(keep, p, shares, ws, we)
  {
    hide ShareAdditions, ShareTotal;
    if shares != [] {
      var n := |shares| - 1;
      SharesAdd(keep, p, shares[..n], ws, we);
      ShareAdds(keep, p, shares[n], ws, we);
      AddedAppend(keep, SharesAdditions(p, shares[..n], ws, we), ShareAdditions(p, shares[n], ws, we));
    }
  }

  /** What metering adds to a window is what its pods are metered for over it. */
  lemma {:induction false} PodsAdd(keep: Event -> bool, pods: seq<MeteredPod>, ws: Time, we: Time)
    requires ws <= we && Rated(pods)
    ensures Chosen(keep, Additions(pods, ws, we)) == PodsTotal(keep, pods, ws, we)
  {
    hide SharesAdditions, SharesTotal;
    if pods != [] {
      var n := |pods| - 1;
      PodsAdd(keep, pods[..n], ws, we);
      SharesAdd(keep, pods[n], pods[n].shares, ws, we);
      AddedAppend(keep, Additions(pods[..n], ws, we), PodAdditions(pods[n], ws, we));
    }
  }

  lemma ShareSplits(keep: Event -> bool, p: MeteredPod, sh: Share, a: Time, b: Time, c: Time)
    requires a <= b <= c
    ensures ShareTotal(keep, p, sh, a, b) + ShareTotal(keep, p, sh, b, c) == ShareTotal(keep, p, sh, a, c)
  {
    hide Quantity, Split;
    var end := ClampEnd(p.end, p.deletedAt);
    SplitMeasures(p.health, p.start, end, a, b);
    SplitMeasures(p.health, p.start, end, b, c);
    SplitMeasures(p.health, p.start, end, a, c);
    InstantsAdd(Billable, p.health, p.start, end, a, b, c);
    InstantsAdd(Downtime, p.health, p.start, end, a, b, c);
    QuantityAdds(sh.rate, PartsOf(p, a, b).0, PartsOf(p, b, c).0);
    QuantityAdds(sh.rate, PartsOf(p, a, b).1, PartsOf(p, b, c).1);
  }

  lemma {:induction false} SharesSplit(keep: Event -> bool, p: MeteredPod, shares: seq<Share>, a: Time, b: Time,
                                       c: Time)
    requires a <= b <= c
    ensures SharesTotal(keep, p, shares, a, b) + SharesTotal(keep, p, shares, b, c)
      == SharesTotal(keep, p, shares, a, c)
  {
    hide ShareTotal;
    if shares != [] {
      SharesSplit(keep, p, shares[..|shares| - 1], a, b, c);
      ShareSplits(keep, p, shares[|shares| - 1], a, b, c);
    }
  }

  lemma {:induction false} PodsSplit(keep: Event -> bool, pods: seq<MeteredPod>, a: Time, b: Time, c: Time)
    requires a <= b <= c
    ensures PodsTotal(keep, pods, a, b) + PodsTotal(keep, pods, b, c) == PodsTotal(keep, pods, a, c)
  {
    hide SharesTotal;
    if pods != [] {
      PodsSplit(keep, pods[..|pods| - 1], a, b, c);
      var p := pods[|pods| - 1];
      SharesSplit(keep, p, p.shares, a, b, c);
    }
  }

  /** One fresh accumulator over a window, after metering. */
  ghost function MeteredAcc(c: Codec, pods: seq<MeteredPod>, ws: Time, we: Time): Acc
  {
    AddAll(c, NewAcc(ws, we), Additions(pods, ws, we))
  }

  lemma {:induction false} ZeroAdditions(pods: seq<MeteredPod>, ws: Time, we: Time)
    ensures ZeroTemplates(Additions(pods, ws, we))
  {
    if pods != [] {
      ZeroAdditions(pods[..|pods| - 1], ws, we);
      ZeroShares(pods[|pods| - 1], pods[|pods| - 1].shares, ws, we);
    }
  }

  lemma {:induction false} ZeroShares(p: MeteredPod, shares: seq<Share>, ws: Time, we: Time)
    ensures ZeroTemplates(SharesAdditions(p, shares, ws, we))
  {
    hide Split, Quantity;
    if shares != [] { ZeroShares(p, shares[..|shares| - 1], ws, we); }
  }

  // ---- each identity ----

  /** The same identity, the window aside. */
  predicate SameButWindow(e: Event, f: Event)
  {
    SameIdentity(e.(windowStart := f.windowStart, windowEnd := f.windowEnd), f)
  }

  function Like(e: Event): Event -> bool { f => SameButWindow(f, e) }

  /** What the window's event of this identity holds after metering. */
  ghost function MeteredAt(c: Codec, pods: seq<MeteredPod>, e: Event, ws: Time, we: Time): real
  {
    QuantityAt(MeteredAcc(c, pods, ws, we), KeyOf(c, NewAcc(ws, we), e))
  }

  /** Something metered in the window has another identity and the same ID. */
  ghost predicate Confused(c: Codec, pods: seq<MeteredPod>, e: Event, ws: Time, we: Time)
  {
    exists x :: x in Additions(pods, ws, we) && x.quantity > 0.0 && !SameButWindow(x.template.event, e)
      && KeyOf(c, NewAcc(ws, we), x.template.event) == KeyOf(c, NewAcc(ws, we), e)
  }

  lemma {:induction false} ChosenByKey(c: Codec, a: Acc, key: string, xs: seq<Addition>)
    ensures AddedTo(c, a, key, xs) == Chosen(e => KeyOf(c, a, e) == key, xs)
  {
    hide KeyOf;
    if xs != [] { ChosenByKey(c, a, key, xs[..|xs| - 1]); }
  }

  /** A wider choice takes no less, and no more exactly when nothing positive is taken in addition. */
  lemma {:induction false} ChosenGrows(some: Event -> bool, more: Event -> bool, xs: seq<Addition>)
    requires forall e :: some(e) ==> more(e)
    ensures Chosen(some, xs) <= Chosen(more, xs)
    ensures Chosen(some, xs) == Chosen(more, xs)
      <==> forall x :: x in xs && x.quantity > 0.0 && more(x.template.event) ==> some(x.template.event)
  {
    if xs != [] {
      var n := |xs| - 1;
      ChosenGrows(some, more, xs[..n]);
      assert xs == xs[..n] + [xs[n]];
    }
  }

  lemma LikeSameKey(c: Codec, a: Acc, e: Event, f: Event)
    requires SameButWindow(f, e)
    ensures KeyOf(c, a, f) == KeyOf(c, a, e)
  {
    hide ID;
    SameIdentitySameID(c, Placed(a, f), Placed(a, e));
  }

  /** The event of an identity holds what the pods are metered for under that identity, and no more unless
      something with another identity has its ID. */
  lemma IdentityMetered(c: Codec, pods: seq<MeteredPod>, e: Event, ws: Time, we: Time)
    requires ws <= we && Rated(pods)
    ensures MeteredAt(c, pods, e, ws, we) >= PodsTotal(Like(e), pods, ws, we)
    ensures MeteredAt(c, pods, e, ws, we) == PodsTotal(Like(e), pods, ws, we) <==> !Confused(c, pods, e, ws, we)
  {
    hide KeyOf, Additions, PodsTotal, SameButWindow, SameIdentity, AddAll, AddedTo, QuantityAt, Chosen;
    var a := NewAcc(ws, we);
    var key := KeyOf(c, a, e);
    var xs := Additions(pods, ws, we);
    ZeroAdditions(pods, ws, we);
    KeyConserves(c, ws, we, xs, key);
    ChosenByKey(c, a, key, xs);
    forall f | Like(e)(f) ensures KeyOf(c, a, f) == key { LikeSameKey(c, a, e, f); }
    ChosenGrows(Like(e), f => KeyOf(c, a, f) == key, xs);
    PodsAdd(Like(e), pods, ws, we);
  }

  // ---- conservation ----

  /** What the pods are metered for over the windows of a tiling, under the templates chosen. */
  function WindowsTotal(keep: Event -> bool, pods: seq<MeteredPod>, bounds: seq<Time>): real
    requires bounds != []
  {
    var k := |bounds| - 1;
    if k == 0 then 0.0 else WindowsTotal(keep, pods, bounds[..k]) + PodsTotal(keep, pods, bounds[k - 1], bounds[k])
  }

  /** However a span is divided into windows, they add up to the span, whatever templates are chosen. */
  lemma {:induction false} WindowsAddUp(keep: Event -> bool, pods: seq<MeteredPod>, bounds: seq<Time>)
    requires Tiling(bounds)
    ensures WindowsTotal(keep, pods, bounds) == PodsTotal(keep, pods, bounds[0], bounds[|bounds| - 1])
  {
    hide PodsTotal;
    var k := |bounds| - 1;
    if k == 0 {
      PodsNothing(keep, pods, bounds[0]);
    } else {
      WindowsAddUp(keep, pods, bounds[..k]);
      PodsSplit(keep, pods, bounds[0], bounds[k - 1], bounds[k]);
    }
  }

  lemma PodsNothing(keep: Event -> bool, pods: seq<MeteredPod>, t: Time)
    ensures PodsTotal(keep, pods, t, t) == 0.0
  {
    PodsSplit(keep, pods, t, t, t);
  }

  /** What the accumulators of the windows hold under one identity. */
  ghost function TilingAt(c: Codec, pods: seq<MeteredPod>, e: Event, bounds: seq<Time>): real
    requires bounds != []
  {
    var k := |bounds| - 1;
    if k == 0 then 0.0 else TilingAt(c, pods, e, bounds[..k]) + MeteredAt(c, pods, e, bounds[k - 1], bounds[k])
  }

  ghost predicate NeverConfused(c: Codec, pods: seq<MeteredPod>, e: Event, bounds: seq<Time>)
  {
    forall i :: 0 < i < |bounds| ==> !Confused(c, pods, e, bounds[i - 1], bounds[i])
  }

  lemma {:induction false} TilingIsTotal(c: Codec, pods: seq<MeteredPod>, e: Event, bounds: seq<Time>)
    requires Tiling(bounds) && Rated(pods)
    ensures TilingAt(c, pods, e, bounds) >= WindowsTotal(Like(e), pods, bounds)
    ensures TilingAt(c, pods, e, bounds) == WindowsTotal(Like(e), pods, bounds) <==> NeverConfused(c, pods, e, bounds)
  {
    hide MeteredAt, PodsTotal, Confused, Rated;
    var k := |bounds| - 1;
    if k > 0 {
      TilingIsTotal(c, pods, e, bounds[..k]);
      IdentityMetered(c, pods, e, bounds[k - 1], bounds[k]);
      assert NeverConfused(c, pods, e, bounds)
        <==> NeverConfused(c, pods, e, bounds[..k]) && !Confused(c, pods, e, bounds[k - 1], bounds[k]);
    }
  }

  /** Metering is conserved identity by identity: whatever the pods, their health and their deletions, and
      however a span is divided into windows, the quantities accumulated under one identity over the windows
      are those of the span metered as one window. So backfilling, or another interval, changes no event's
      total, and moves nothing from one identity to another. What can break it is two identities with one ID:
      the windows, or the one window, then hold more under it, and never less, than the pods were metered for. */
  lemma MeteringConserves(c: Codec, pods: seq<MeteredPod>, e: Event, bounds: seq<Time>)
    requires Tiling(bounds) && Rated(pods)
    ensures var whole := PodsTotal(Like(e), pods, bounds[0], bounds[|bounds| - 1]);
      && TilingAt(c, pods, e, bounds) >= whole && MeteredAt(c, pods, e, bounds[0], bounds[|bounds| - 1]) >= whole
      && (TilingAt(c, pods, e, bounds) == whole <==> NeverConfused(c, pods, e, bounds))
      && (MeteredAt(c, pods, e, bounds[0], bounds[|bounds| - 1]) == whole
          <==> !Confused(c, pods, e, bounds[0], bounds[|bounds| - 1]))
  {
    hide MeteredAt, PodsTotal, Confused, TilingAt, WindowsTotal, NeverConfused;
    TilingIsTotal(c, pods, e, bounds);
    WindowsAddUp(Like(e), pods, bounds);
    IdentityMetered(c, pods, e, bounds[0], bounds[|bounds| - 1]);
  }

  // ---- the total over all identities ----

  const ALL: Event -> bool := _ => true

  lemma {:induction false} AllChosen(xs: seq<Addition>)
    ensures AddedInAll(xs) == Chosen(ALL, xs)
  {
    if xs != [] { AllChosen(xs[..|xs| - 1]); }
  }

  ghost function AccTotal(c: Codec, pods: seq<MeteredPod>, ws: Time, we: Time): real
  {
    AccumulatedIn(c, pods, ws, we);
    TotalOf(MeteredAcc(c, pods, ws, we).events, MeteredAcc(c, pods, ws, we).order)
  }

  lemma AccumulatedIn(c: Codec, pods: seq<MeteredPod>, ws: Time, we: Time)
    ensures var a := MeteredAcc(c, pods, ws, we);
      (forall k :: k in a.order ==> k in a.events) && TotalOf(a.events, a.order) == AddedInAll(Additions(pods, ws, we))
  {
    hide ID, AddAll, Additions, SameIdentity;
    ZeroAdditions(pods, ws, we);
    AccumulationConserves(c, ws, we, Additions(pods, ws, we));
  }

  ghost function TilingTotal(c: Codec, pods: seq<MeteredPod>, bounds: seq<Time>): real
    requires bounds != []
  {
    var k := |bounds| - 1;
    if k == 0 then 0.0 else TilingTotal(c, pods, bounds[..k]) + AccTotal(c, pods, bounds[k - 1], bounds[k])
  }

  lemma AccTotalIs(c: Codec, pods: seq<MeteredPod>, ws: Time, we: Time)
    requires ws <= we && Rated(pods)
    ensures AccTotal(c, pods, ws, we) == PodsTotal(ALL, pods, ws, we)
  {
    hide MeteredAcc, TotalOf, Additions, PodsTotal, AddedInAll, Chosen;
    AccumulatedIn(c, pods, ws, we);
    AllChosen(Additions(pods, ws, we));
    PodsAdd(ALL, pods, ws, we);
  }

  /** All identities together, with or without two that have one ID. */
  lemma {:induction false} TotalConserves(c: Codec, pods: seq<MeteredPod>, bounds: seq<Time>)
    requires Tiling(bounds) && Rated(pods)
    ensures TilingTotal(c, pods, bounds) == AccTotal(c, pods, bounds[0], bounds[|bounds| - 1])
      == PodsTotal(ALL, pods, bounds[0], bounds[|bounds| - 1])
  {
    hide AccTotal, PodsTotal;
    var k := |bounds| - 1;
    AccTotalIs(c, pods, bounds[0], bounds[k]);
    if k == 0 {
      PodsNothing(ALL, pods, bounds[0]);
    } else {
      TotalConserves(c, pods, bounds[..k]);
      AccTotalIs(c, pods, bounds[k - 1], bounds[k]);
      PodsSplit(ALL, pods, bounds[0], bounds[k - 1], bounds[k]);
    }
  }
}
