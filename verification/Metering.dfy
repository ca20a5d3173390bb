/** How much of a lifetime falls in a window, how much of that was downtime, and what rounding does to
    totals (internal/usage/usage.go, internal/metrics/nodes.go, internal/metrics/collector.go). */
module Metering {
  import opened Usage

  /** The length two spans have in common, where end 0 stands for no end yet. */
  function Overlap(start: Time, end: Time, ws: Time, we: Time): int
  {
    var e := if end == 0 || end > we then we else end;
    var s := if start < ws then ws else start;
    if e <= s then 0 else e - s
  }

  /** A node's health; downtime of unknown start is down since the zero time. */
  datatype Health = Up | Down(since: Time)

  /** Divides that length at the moment the node went down. */
  function Split(n: Health, start: Time, end: Time, ws: Time, we: Time): (int, int)
  {
    var total := Overlap(start, end, ws, we);
    if total == 0 || n.Up? then (total, 0)
    else
      var from := if n.since != 0 && n.since > start then n.since else start;
      var down := Overlap(from, end, ws, we);
      (total - down, down)
  }

  /** meterPods: the earlier of a pod's end and its deletion, 0 standing for neither. */
  function ClampEnd(end: Time, deletedAt: Time): Time
  {
    if deletedAt != 0 && (end == 0 || end > deletedAt) then deletedAt else end
  }

  // ---- nodes going down ----

  function Marked(n: Health, since: Time): Health
  {
    match n
    case Up => Down(since)
    case Down(s) => if since == 0 || (s != 0 && since < s) then Down(since) else n
  }

  class NodeInfo {
    var down: bool
    var downSince: Time

    constructor ()
      ensures View() == Up
    {
      down, downSince := false, 0;
    }

    function View(): Health
      reads this
    {
      if down then Down(downSince) else Up
    }

    method MarkDown(since: Time)
      modifies this
      ensures View() == Marked(old(View()), since)
    {
      if !down {
        down, downSince := true, since;
        return;
      }
      if since == 0 || (downSince != 0 && since < downSince) { downSince := since; }
    }
  }

  function MarkAll(marks: seq<Time>): Health
  {
    if marks == [] then Up else Marked(MarkAll(marks[..|marks| - 1]), marks[|marks| - 1])
  }

  /** Whatever the order of the marks, the node is down since the earliest of them, an unknown start
      counting as the earliest. */
  lemma {:induction false} MarksKeepEarliest(marks: seq<Time>)
    ensures MarkAll(marks).Up? <==> marks == []
    ensures marks != [] ==> MarkAll(marks).since in marks && forall m :: m in marks ==> MarkAll(marks).since <= m
  {
    if marks != [] {
      var n := |marks| - 1;
      MarksKeepEarliest(marks[..n]);
      assert marks == marks[..n] + [marks[n]];
    }
  }

  // ---- what the durations mean ----

  datatype Part = Whole | Billable | Downtime

  /** Whether the instant t of a lifetime belongs to a part of it. */
  predicate Belongs(part: Part, n: Health, start: Time, end: Time, t: Time)
  {
    var alive := start <= t && (end == 0 || t < end);
    var down := n.Down? && n.since <= t;
    alive && match part case Whole => true case Billable => !down case Downtime => down
  }

  /** The instants of [ws, we) that belong to a part, one nanosecond at a time. */
  function Instants(part: Part, n: Health, start: Time, end: Time, ws: Time, we: Time): nat
  {
    if we <= ws then 0
    else Instants(part, n, start, end, ws, we - 1) + if Belongs(part, n, start, end, we - 1) then 1 else 0
  }

  /** Overlap and split measure exactly the instants of the lifetime, those with the node up and those
      with it down; so both parts are non-negative and add up to the overlap. */
  lemma {:induction false} SplitMeasures(n: Health, start: Time, end: Time, ws: Time, we: Time)
    requires ws <= we
    ensures var (billable, down) := Split(n, start, end, ws, we);
      && billable == Instants(Billable, n, start, end, ws, we) && down == Instants(Downtime, n, start, end, ws, we)
      && billable + down == Overlap(start, end, ws, we) == Instants(Whole, n, start, end, ws, we)
  {
    if ws < we { SplitMeasures(n, start, end, ws, we - 1); }
  }

  /** Clamping a pod's end at its deletion keeps the instants before the deletion. */
  lemma ClampStopsAtDeletion(n: Health, start: Time, end: Time, deletedAt: Time, t: Time, part: Part)
    ensures Belongs(part, n, start, ClampEnd(end, deletedAt), t) <==>
      Belongs(part, n, start, end, t) && (deletedAt == 0 || t < deletedAt)
  {
  }

  // ---- conservation over windows ----

  /** Window boundaries in order: window i runs from bounds[i] to the next. */
  predicate Tiling(bounds: seq<Time>)
  {
    bounds != [] && forall i, j :: 0 <= i <= j < |bounds| ==> bounds[i] <= bounds[j]
  }

  /** The parts of a lifetime summed over the windows. */
  function Summed(n: Health, start: Time, end: Time, bounds: seq<Time>): (int, int)
    requires bounds != []
  {
    var k := |bounds| - 1;
    if k == 0 then (0, 0)
    else
      var (billable, down) := Summed(n, start, end, bounds[..k]);
      var (b, d) := Split(n, start, end, bounds[k - 1], bounds[k]);
      (billable + b, down + d)
  }

  lemma {:induction false} InstantsAdd(part: Part, n: Health, start: Time, end: Time, a: Time, b: Time, c: Time)
    requires a <= b <= c
    ensures Instants(part, n, start, end, a, b) + Instants(part, n, start, end, b, c)
        == Instants(part, n, start, end, a, c)
    decreases c
  {
    if b < c { InstantsAdd(part, n, start, end, a, b, c - 1); }
  }

  /** Metered time is conserved: over any tiling the billable parts and the downtimes add up to those of
      the single window from the first boundary to the last, so backfilling changes nothing. */
  lemma {:induction false} TilingConserves(n: Health, start: Time, end: Time, bounds: seq<Time>)
    requires Tiling(bounds)
    ensures Summed(n, start, end, bounds) == Split(n, start, end, bounds[0], bounds[|bounds| - 1])
  {
    var k := |bounds| - 1;
    if k > 0 {
      TilingConserves(n, start, end, bounds[..k]);
      var a, b, c := bounds[0], bounds[k - 1], bounds[k];
      SplitMeasures(n, start, end, a, b);
      SplitMeasures(n, start, end, b, c);
      SplitMeasures(n, start, end, a, c);
      InstantsAdd(Billable, n, start, end, a, b, c);
      InstantsAdd(Downtime, n, start, end, a, b, c);
    }
  }

  // ---- rounding ----

  /** math.Round: to the nearest integer, halves away from zero. */
  function RoundHalf(x: real): int
  {
    if x >= 0.0 then (x + 0.5).Floor else -((0.5 - x).Floor)
  }

  const NANO: real := 1000000000.0

  /** Nine decimal places. */
  function Round(q: real): real
  {
    RoundHalf(q * NANO) as real / NANO
  }

  function Abs(x: real): real { if x < 0.0 then -x else x }

  /** Round moves a quantity by at most half a unit of the ninth place, keeps the order of quantities,
      and leaves rounded ones alone. */
  lemma RoundIsClose(q: real, p: real)
    ensures Abs(Round(q) - q) <= 0.5 / NANO
    ensures q <= p ==> Round(q) <= Round(p)
    ensures Round(Round(q)) == Round(q)
  {
    var x := q * NANO;
    assert -0.5 <= RoundHalf(x) as real - x <= 0.5;
    assert Round(q) - q == (RoundHalf(x) as real - x) / NANO;
    assert Round(q) * NANO == RoundHalf(x) as real;
    WholeStays(RoundHalf(x));
    if q <= p { RoundHalfOrder(x, p * NANO); }
  }

  lemma WholeStays(k: int)
    ensures RoundHalf(k as real) == k
  {
  }

  lemma RoundHalfOrder(x: real, y: real)
    requires x <= y
    ensures RoundHalf(x) <= RoundHalf(y)
  {
  }

  /** A rate metered over a duration, in unit-hours. */
  function Quantity(rate: real, ns: int): real { rate * (ns as real / HOUR as real) }

  /** A rate is per hour. */
  lemma QuantityIsHourly(rate: real, ns: int, n: int)
    ensures Quantity(rate, ns) * (HOUR as real) == rate * (ns as real)
    ensures Quantity(rate, n * HOUR) == rate * (n as real)
  {
    var hours := n as real;
    assert (n * HOUR) as real == hours * (HOUR as real);
    assert (n * HOUR) as real / HOUR as real == hours;
  }

  /** The rounded quantities of one object, event by event. */
  function RoundedTotal(rate: real, n: Health, start: Time, end: Time, bounds: seq<Time>): real
    requires bounds != []
  {
    var k := |bounds| - 1;
    if k == 0 then 0.0
    else
      RoundedTotal(rate, n, start, end, bounds[..k])
      + Round(Quantity(rate, Split(n, start, end, bounds[k - 1], bounds[k]).0))
  }

  /** Half a unit of the ninth place for each of n events. */
  function Allowance(n: int): real { n as real * (0.5 / NANO) }

  /** Over n windows, rounding each event moves the total by at most n/2 units of the ninth place from
      what one unrounded event over the whole span would say. */
  lemma {:induction false} RoundedTotalIsClose(rate: real, n: Health, start: Time, end: Time, bounds: seq<Time>)
    requires Tiling(bounds)
    ensures var whole := Quantity(rate, Split(n, start, end, bounds[0], bounds[|bounds| - 1]).0);
      Abs(RoundedTotal(rate, n, start, end, bounds) - whole) <= Allowance(|bounds| - 1)
  {
    hide Split, Summed, RoundedTotal, Quantity, Allowance;
    TilingConserves(n, start, end, bounds);
    SumsRoundClose(rate, n, start, end, bounds);
  }

  lemma {:induction false} SumsRoundClose(rate: real, n: Health, start: Time, end: Time, bounds: seq<Time>)
    requires Tiling(bounds)
    ensures Abs(RoundedTotal(rate, n, start, end, bounds) - Quantity(rate,
        Summed(n, start, end, bounds).0)) <= Allowance(|bounds| - 1)
  {
    hide Split, Round, Quantity, Allowance;
    var k := |bounds| - 1;
    if k > 0 {
      SumsRoundClose(rate, n, start, end, bounds[..k]);
      var b := Split(n, start, end, bounds[k - 1], bounds[k]).0;
      RoundIsClose(Quantity(rate, b), 0.0);
      var before := Summed(n, start, end, bounds[..k]).0;
      QuantityAdds(rate, before, b);
      ErrorsAdd(RoundedTotal(rate, n, start, end, bounds[..k]), Quantity(rate, before), Round(Quantity(rate, b)),
          Quantity(rate, b), k);
    } else {
      NoError(rate);
    }
  }

  lemma ErrorsAdd(a: real, a': real, b: real, b': real, k: nat)
    requires k > 0 && Abs(a - a') <= Allowance(k - 1) && Abs(b - b') <= 0.5 / NANO
    ensures Abs(a + b - (a' + b')) <= Allowance(k)
  {
    assert Allowance(k) == Allowance(k - 1) + 0.5 / NANO;
  }

  lemma NoError(rate: real)
    ensures Abs(0.0 - Quantity(rate, 0)) <= Allowance(0)
  {
  }

  lemma QuantityAdds(rate: real, a: int, b: int)
    ensures Quantity(rate, a + b) == Quantity(rate, a) + Quantity(rate, b)
  {
    assert (a + b) as real / HOUR as real == a as real / HOUR as real + b as real / HOUR as real;
  }
}
