/** One delivery attempt: tenants first, then the batch, which is halved while the backend refuses it
    for good, down to single events that are parked (internal/pipeline/dispatcher.go). */
module Delivery {
  import opened Usage

  /** How a backend answers one SendEvents. */
  datatype Outcome =
    | Accepted
    | Partial(rejected: map<string, string>)  // event ID -> reason; every other event was accepted
    | Permanent(reason: string)
    | Retryable

  /** Everything outside the dispatcher's control: the answer to each call, by its number.
      A crash is a call that never succeeds. `reaches` says which events of a failed call the
      backend took in all the same. */
  datatype Backend = Backend(
    answer: (nat, seq<Event>) -> Outcome,
    reaches: (nat, Event) -> bool,
    ensure: (nat, string) -> Outcome,   // EnsureTenant; Partial counts as an ordinary error
    parks: nat -> bool,                 // whether writing the dead letter succeeds
    fingerprint: string -> string)      // the tenant's current state in the registry

  /** What has happened at one destination so far. */
  datatype World = World(
    sent: seq<seq<Event>>,            // the batch of each SendEvents call
    asked: seq<string>,               // the tenant of each EnsureTenant call
    writes: nat,                      // attempts to write a dead letter
    received: seq<Event>,             // every event that ever reached the backend, repeats included
    confirmed: seq<Event>,            // those of successful calls
    dead: seq<Event>,                 // the dead-letter file
    ensured: map<string, string>)     // tenant -> fingerprint

  datatype Result = Delivered(dead: nat) | Failed

  // ---- ensureTenants ----

  /** The tenants of a batch one after another; false when one must be retried. */
  function EnsureTenants(b: Backend, w: World, events: seq<Event>, seen: set<string>): (World, bool)
    decreases |events|
  {
    if events == [] then (w, true)
    else
      var t := events[0].tenant;
      if t in seen || (t in w.ensured && w.ensured[t] == b.fingerprint(t))
      then EnsureTenants(b, w, events[1..], seen + {t})
      else
        var w1 := w.(asked := w.asked + [t]);
        match b.ensure(|w.asked|, t)
        case Accepted => EnsureTenants(b, w1.(ensured := w.ensured[t := b.fingerprint(t)]), events[1..], seen + {t})
        case Permanent(_) => EnsureTenants(b, w1, events[1..], seen + {t})
        case _ => (w1, false)
  }

  // ---- deliver ----

  /** The events of a call that reached the backend. */
  function Reaching(b: Backend, call: nat, out: Outcome, events: seq<Event>): seq<Event>
  {
    if events == [] then []
    else
      var n := |events| - 1;
      var e := events[n];
      var reached := match out
        case Accepted => true
        case Partial(rejected) => e.id !in rejected
        case _ => b.reaches(call, e);
      Reaching(b, call, out, events[..n]) + if reached then [e] else []
  }

  function Unrejected(rejected: map<string, string>, events: seq<Event>): seq<Event>
  {
    if events == [] then []
    else
      var n := |events| - 1;
      Unrejected(rejected, events[..n]) + if events[n].id in rejected then [] else [events[n]]
  }

  /** SendEvents. */
  function Send(b: Backend, w: World, events: seq<Event>): (World, Outcome)
  {
    var out := b.answer(|w.sent|, events);
    (w.(sent := w.sent + [events],
        received := w.received + Reaching(b, |w.sent|, out, events),
        confirmed := w.confirmed + match out
          case Accepted => events
          case Partial(rejected) => Unrejected(rejected, events)
          case _ => []),
     out)
  }

  /** AddDeadLetter. */
  function Park(b: Backend, w: World, e: Event): (World, bool)
  {
    if b.parks(w.writes) then (w.(writes := w.writes + 1, dead := w.dead + [e]), true)
    else (w.(writes := w.writes + 1), false)
  }

  /** Parks the rejected events in order; stops at a write that fails. */
  function ParkRejected(b: Backend, w: World, rejected: map<string, string>, events: seq<Event>,
                        dead: nat): (World, Result)
    decreases |events|
  {
    if events == [] then (w, Delivered(dead))
    else if events[0].id !in rejected then ParkRejected(b, w, rejected, events[1..], dead)
    else
      var (w1, ok) := Park(b, w, events[0]);
      if ok then ParkRejected(b, w1, rejected, events[1..], dead + 1) else (w1, Failed)
  }

  function Deliver(b: Backend, w: World, events: seq<Event>): (World, Result)
    requires events != []
    decreases |events|, 1
  {
    var (w0, ready) := EnsureTenants(b, w, events, {});
    if !ready then (w0, Failed)
    else
      var (w1, out) := Send(b, w0, events);
      match out
      case Accepted => (w1, Delivered(0))
      case Partial(rejected) => ParkRejected(b, w1, rejected, events, 0)
      case Retryable => (w1, Failed)
      case Permanent(_) => Refused(b, w1, events)
  }

  /** After a permanent rejection: park a single event, or try the two halves. */
  function Refused(b: Backend, w1: World, events: seq<Event>): (World, Result)
    requires events != []
    decreases |events|, 0
  {
    if |events| == 1 then
      var (w2, ok) := Park(b, w1, events[0]);
      if ok then (w2, Delivered(1)) else (w2, Failed)
    else
      var (w2, left) := Deliver(b, w1, events[..|events| / 2]);
      if left.Failed? then (w2, Failed)
      else
        var (w3, right) := Deliver(b, w2, events[|events| / 2..]);
        if right.Failed? then (w3, Failed) else (w3, Delivered(left.dead + right.dead))
  }

  // ---- what a delivery does to the world ----

  ghost predicate From(part: seq<Event>, whole: seq<Event>)
  {
    forall e :: e in part ==> e in whole
  }

  /** Nothing is forgotten, nothing foreign is sent or parked, and what was confirmed was received. */
  ghost predicate Extends(w: World, w1: World, events: seq<Event>)
  {
    && w.sent <= w1.sent
    && w.received <= w1.received && From(w1.received[|w.received|..], events)
    && w.confirmed <= w1.confirmed && From(w1.confirmed[|w.confirmed|..], w1.received[|w.received|..])
    && w.dead <= w1.dead && From(w1.dead[|w.dead|..], events)
  }

  /** A successful delivery splits the batch into confirmed and parked events, and counts the latter. */
  ghost predicate Splits(w: World, w1: World, events: seq<Event>, dead: nat)
  {
    && Extends(w, w1, events)
    && |w1.dead| == |w.dead| + dead
    && multiset(w1.confirmed[|w.confirmed|..]) + multiset(w1.dead[|w.dead|..]) == multiset(events)
  }

  lemma ExtendsTrans(w: World, w1: World, w2: World, a: seq<Event>, b: seq<Event>)
    requires Extends(w, w1, a) && Extends(w1, w2, b)
    ensures Extends(w, w2, a + b)
  {
    var r, r1, r2 := |w.received|, |w1.received|, |w2.received|;
    assert w2.received[r..] == w1.received[r..] + w2.received[r1..];
    assert w2.confirmed[|w.confirmed|..] == w1.confirmed[|w.confirmed|..] + w2.confirmed[|w1.confirmed|..];
    assert w2.dead[|w.dead|..] == w1.dead[|w.dead|..] + w2.dead[|w1.dead|..];
  }

  lemma SplitsTrans(w: World, w1: World, w2: World, a: seq<Event>, b: seq<Event>, i: nat, j: nat)
    requires Splits(w, w1, a, i) && Splits(w1, w2, b, j)
    ensures Splits(w, w2, a + b, i + j)
  {
    ExtendsTrans(w, w1, w2, a, b);
    assert w2.confirmed[|w.confirmed|..] == w1.confirmed[|w.confirmed|..] + w2.confirmed[|w1.confirmed|..];
    assert w2.dead[|w.dead|..] == w1.dead[|w.dead|..] + w2.dead[|w1.dead|..];
  }

  lemma {:induction false} EnsureTouchesNothing(b: Backend, w: World, events: seq<Event>, seen: set<string>)
    ensures var w1 := EnsureTenants(b, w, events, seen).0;
      && w1.sent == w.sent && w1.writes == w.writes
      && w1.received == w.received && w1.confirmed == w.confirmed && w1.dead == w.dead
    decreases |events|
  {
    if events != [] {
      var t := events[0].tenant;
      if t in seen || (t in w.ensured && w.ensured[t] == b.fingerprint(t)) {
        EnsureTouchesNothing(b, w, events[1..], seen + {t});
      } else {
        var w1 := w.(asked := w.asked + [t]);
        match b.ensure(|w.asked|, t)
        case Accepted => EnsureTouchesNothing(b, w1.(ensured := w.ensured[t := b.fingerprint(t)]), events[1..], seen
            + {t});
        case Permanent(_) => EnsureTouchesNothing(b, w1, events[1..], seen + {t});
        case _ =>
      }
    }
  }

  lemma {:induction false} ReachingFrom(b: Backend, call: nat, out: Outcome, events: seq<Event>)
    ensures From(Reaching(b, call, out, events), events)
    ensures out.Accepted? ==> Reaching(b, call, out, events) == events
    ensures out.Partial? ==> Reaching(b, call, out, events) == Unrejected(out.rejected, events)
  {
    if events != [] {
      ReachingFrom(b, call, out, events[..|events| - 1]);
    }
  }

  function RejectedOf(rejected: map<string, string>, events: seq<Event>): seq<Event>
  {
    if events == [] then []
    else (if events[0].id in rejected then [events[0]] else []) + RejectedOf(rejected, events[1..])
  }

  lemma {:induction false} UnrejectedAppend(rejected: map<string, string>, a: seq<Event>, b: seq<Event>)
    ensures Unrejected(rejected, a + b) == Unrejected(rejected, a) + Unrejected(rejected, b)
  {
    if b == [] {
      assert a + b == a;
    } else {
      var n := |b| - 1;
      UnrejectedAppend(rejected, a, b[..n]);
      assert (a + b)[..|a + b| - 1] == a + b[..n] && (a + b)[|a + b| - 1] == b[n];
    }
  }

  /** Every event of a batch is either rejected or not, the same way each time it occurs. */
  lemma {:induction false} RejectionSplits(rejected: map<string, string>, events: seq<Event>)
    ensures multiset(Unrejected(rejected, events)) + multiset(RejectedOf(rejected, events)) == multiset(events)
    ensures From(RejectedOf(rejected, events), events)
  {
    hide Unrejected;
    if events == [] { assert Unrejected(rejected, []) == [] by { NoneUnrejected(rejected); } }
    if events != [] {
      var e, rest := events[0], events[1..];
      assert events == [e] + rest;
      UnrejectedAppend(rejected, [e], rest);
      RejectionSplits(rejected, rest);
      OneRejected(rejected, e);
      var u, r := Unrejected(rejected, rest), RejectedOf(rejected, rest);
      if e.id in rejected {
        assert Unrejected(rejected, events) == u && RejectedOf(rejected, events) == [e] + r;
      } else {
        assert Unrejected(rejected, events) == [e] + u && RejectedOf(rejected, events) == r;
      }
    }
  }

  lemma NoneUnrejected(rejected: map<string, string>)
    ensures Unrejected(rejected, []) == []
  {
  }

  lemma OneRejected(rejected: map<string, string>, e: Event)
    ensures Unrejected(rejected, [e]) == if e.id in rejected then [] else [e]
  {
    assert [e][..0] == [];
  }

  lemma {:induction false} ParkRejectedParks(b: Backend, w: World, rejected: map<string, string>, events: seq<Event>,
                                             dead: nat)
    ensures var (w1, r) := ParkRejected(b, w, rejected, events, dead);
      && w1.sent == w.sent && w1.received == w.received && w1.confirmed == w.confirmed
      && w.dead <= w1.dead && From(w1.dead[|w.dead|..], events)
      && (r.Delivered? ==> w1.dead == w.dead + RejectedOf(rejected, events)
                           && r.dead == dead + |RejectedOf(rejected, events)|)
    decreases |events|
  {
    if events != [] {
      var e, rest := events[0], events[1..];
      if e.id !in rejected {
        ParkRejectedParks(b, w, rejected, rest, dead);
      } else {
        var (w1, ok) := Park(b, w, e);
        if ok {
          ParkRejectedParks(b, w1, rejected, rest, dead + 1);
          var w2 := ParkRejected(b, w1, rejected, rest, dead + 1).0;
          assert w2.dead[|w.dead|..] == [e] + w2.dead[|w1.dead|..];
        }
      }
    }
  }

  /** One send, by its outcome. */
  lemma SendExtends(b: Backend, w: World, events: seq<Event>)
    ensures var (w1, out) := Send(b, w, events);
      && Extends(w, w1, events) && w1.dead == w.dead
      && (out.Accepted? ==> Splits(w, w1, events, 0))
      && (out.Partial? ==> w1.confirmed == w.confirmed + Unrejected(out.rejected, events))
  {
    var (w1, out) := Send(b, w, events);
    var r := Reaching(b, |w.sent|, out, events);
    ReachingFrom(b, |w.sent|, out, events);
    assert w1.received[|w.received|..] == r;
    assert w1.dead[|w.dead|..] == [];
    if out.Accepted? { assert w1.confirmed[|w.confirmed|..] == events; }
    if out.Partial? { assert w1.confirmed[|w.confirmed|..] == Unrejected(out.rejected, events); }
  }

  lemma PartialSplits(b: Backend, w: World, events: seq<Event>)
    requires Send(b, w, events).1.Partial?
    ensures var (w1, out) := Send(b, w, events); var (w2, r) := ParkRejected(b, w1, out.rejected, events, 0);
      Extends(w, w2, events) && (r.Delivered? ==> Splits(w, w2, events, r.dead))
  {
    var (w1, out) := Send(b, w, events);
    SendExtends(b, w, events);
    ParkRejectedParks(b, w1, out.rejected, events, 0);
    RejectionSplits(out.rejected, events);
    var (w2, r) := ParkRejected(b, w1, out.rejected, events, 0);
    if r.Delivered? {
      assert w2.dead[|w.dead|..] == RejectedOf(out.rejected, events);
      assert w2.confirmed[|w.confirmed|..] == Unrejected(out.rejected, events);
    }
  }

  lemma ParkOneSplits(b: Backend, w: World, w1: World, e: Event)
    requires Extends(w, w1, [e]) && w1.dead == w.dead && w1.confirmed == w.confirmed
    ensures var (w2, ok) := Park(b, w1, e); Extends(w, w2, [e]) && (ok ==> Splits(w, w2, [e], 1))
  {
    var (w2, ok) := Park(b, w1, e);
    if ok {
      assert w2.dead[|w.dead|..] == [e];
      assert w2.confirmed[|w.confirmed|..] == [];
    }
  }

  /** The main result on one delivery, whatever the backend answers: an attempt only adds to what
      happened, and a successful one accounts for every event of the batch exactly once. */
  lemma {:induction false} DeliverSplits(b: Backend, w: World, events: seq<Event>)
    requires events != []
    ensures var (w1, r) := Deliver(b, w, events);
      Extends(w, w1, events) && (r.Delivered? ==> Splits(w, w1, events, r.dead))
    decreases |events|, 1
  {
    hide Extends, Splits, Send, ParkRejected, Park, EnsureTenants;
    var (w0, ready) := EnsureTenants(b, w, events, {});
    EnsureTouchesNothing(b, w, events, {});
    EnsureThenExtends(w, w0, w0, events, 0);
    if ready {
      var (w1, out) := Send(b, w0, events);
      SendExtends(b, w0, events);
      EnsureThenExtends(w, w0, w1, events, 0);
      match out
      case Accepted =>
      case Retryable =>
      case Partial(rejected) =>
        PartialSplits(b, w0, events);
        var (w2, r) := ParkRejected(b, w1, rejected, events, 0);
        EnsureThenExtends(w, w0, w2, events, if r.Delivered? then r.dead else 0);
      case Permanent(_) =>
        RefusedSplits(b, w0, w1, events);
        var (w2, r) := Refused(b, w1, events);
        EnsureThenExtends(w, w0, w2, events, if r.Delivered? then r.dead else 0);
    }
  }

  lemma {:induction false} RefusedSplits(b: Backend, w: World, w1: World, events: seq<Event>)
    requires events != [] && Send(b, w, events).0 == w1 && Send(b, w, events).1.Permanent?
    ensures var (w2, r) := Refused(b, w1, events);
      Extends(w, w2, events) && (r.Delivered? ==> Splits(w, w2, events, r.dead))
    decreases |events|, 0
  {
    hide Extends, Splits, Send, Park;
    SendExtends(b, w, events);
    PermanentConfirmsNothing(b, w, events);
    if |events| == 1 {
      assert events == [events[0]];
      ParkOneSplits(b, w, w1, events[0]);
    } else {
      hide Deliver;
      var mid := |events| / 2;
      assert events == events[..mid] + events[mid..];
      DeliverSplits(b, w1, events[..mid]);
      var (w2, left) := Deliver(b, w1, events[..mid]);
      HalvesExtend(w, w1, w2, w2, events, mid);
      if left.Delivered? {
        DeliverSplits(b, w2, events[mid..]);
        var (w3, right) := Deliver(b, w2, events[mid..]);
        HalvesExtend(w, w1, w2, w3, events, mid);
        if right.Delivered? {
          SplitsTrans(w1, w2, w3, events[..mid], events[mid..], left.dead, right.dead);
          SplitAfterRefusal(w, w1, w3, events, left.dead + right.dead);
        }
      }
    }
  }

  lemma PermanentConfirmsNothing(b: Backend, w: World, events: seq<Event>)
    requires Send(b, w, events).1.Permanent?
    ensures Send(b, w, events).0.confirmed == w.confirmed && Send(b, w, events).0.dead == w.dead
  {
  }

  /** Creating tenants first changes none of this. */
  lemma EnsureThenExtends(w: World, w0: World, w1: World, events: seq<Event>, dead: nat)
    requires w0.sent == w.sent && w0.received == w.received && w0.confirmed == w.confirmed && w0.dead == w.dead
    ensures Extends(w0, w1, events) ==> Extends(w, w1, events)
    ensures Splits(w0, w1, events, dead) ==> Splits(w, w1, events, dead)
    ensures w1 == w0 ==> Extends(w, w1, events)
  {
    assert w.received[|w.received|..] == [] && w.confirmed[|w.confirmed|..] == [] && w.dead[|w.dead|..] == [];
  }

  lemma HalvesExtend(w: World, w1: World, w2: World, w3: World, events: seq<Event>, mid: nat)
    requires mid <= |events| && Extends(w, w1, events) && Extends(w1, w2, events[..mid])
    requires w3 == w2 || Extends(w2, w3, events[mid..])
    ensures Extends(w, w3, events)
  {
    ExtendsTrans(w, w1, w2, events, events[..mid]);
    ExtendsWithin(w, w2, events + events[..mid], events);
    if w3 != w2 {
      ExtendsTrans(w, w2, w3, events, events[mid..]);
      ExtendsWithin(w, w3, events + events[mid..], events);
    }
  }

  lemma ExtendsWithin(w: World, w1: World, a: seq<Event>, b: seq<Event>)
    requires Extends(w, w1, a) && From(a, b)
    ensures Extends(w, w1, b)
  {
  }

  /** A refused call before the halves adds no confirmed event and no dead letter. */
  lemma SplitAfterRefusal(w: World, w1: World, w3: World, events: seq<Event>, dead: nat)
    requires Extends(w, w3, events) && Splits(w1, w3, events, dead)
    requires w1.confirmed == w.confirmed && w1.dead == w.dead
    ensures Splits(w, w3, events, dead)
  {
  }

  // ---- bisection isolates exactly the poison ----

  function Filter(keep: Event -> bool, events: seq<Event>): seq<Event>
  {
    if events == [] then []
    else (if keep(events[0]) then [events[0]] else []) + Filter(keep, events[1..])
  }

  predicate HoldsPoison(bad: Event -> bool, events: seq<Event>)
  {
    exists i :: 0 <= i < |events| && bad(events[i])
  }

  /** A backend that rejects a batch for good iff it holds a poison event, and otherwise works. */
  ghost predicate Poisoned(b: Backend, bad: Event -> bool)
  {
    && (forall n: nat, events: seq<Event> :: HoldsPoison(bad, events) ==> b.answer(n, events).Permanent?)
    && (forall n: nat, events: seq<Event> :: !HoldsPoison(bad, events) ==> b.answer(n, events).Accepted?)
    && (forall n: nat, t: string :: b.ensure(n, t).Accepted?)
    && (forall n: nat :: b.parks(n))
  }

  /** The least k with n <= 2^k. */
  function CeilLog2(n: nat): nat { if n <= 1 then 0 else 1 + CeilLog2((n + 1) / 2) }

  lemma {:induction false} CeilLog2Monotonic(m: nat, n: nat)
    requires m <= n
    ensures CeilLog2(m) <= CeilLog2(n)
  {
    if m > 1 { CeilLog2Monotonic((m + 1) / 2, (n + 1) / 2); }
  }

  lemma FilterFirst(keep: Event -> bool, e: Event, events: seq<Event>)
    ensures Filter(keep, [e] + events) == (if keep(e) then [e] else []) + Filter(keep, events)
  {
    assert ([e] + events)[1..] == events;
  }

  lemma {:induction false} FilterAppend(keep: Event -> bool, a: seq<Event>, b: seq<Event>)
    ensures Filter(keep, a + b) == Filter(keep, a) + Filter(keep, b)
  {
    if a == [] {
      assert a + b == b;
    } else {
      hide Filter;
      FilterAppend(keep, a[1..], b);
      assert a == [a[0]] + a[1..] && a + b == [a[0]] + (a[1..] + b);
      FilterFirst(keep, a[0], a[1..]);
      FilterFirst(keep, a[0], a[1..] + b);
    }
  }

  lemma {:induction false} FilterByPoison(bad: Event -> bool, events: seq<Event>)
    ensures HoldsPoison(bad, events) <==> Filter(bad, events) != []
    ensures !HoldsPoison(bad, events) ==> Filter(e => !bad(e), events) == events
  {
    if events != [] {
      FilterByPoison(bad, events[1..]);
      assert forall i :: 0 <= i < |events| && bad(events[i]) && i > 0 ==> bad(events[1..][i - 1]);
      if HoldsPoison(bad, events[1..]) {
        var i :| 0 <= i < |events[1..]| && bad(events[1..][i]);
        assert bad(events[i + 1]);
      }
    }
  }

  lemma {:induction false} EnsureSucceeds(b: Backend, w: World, events: seq<Event>, seen: set<string>)
    requires forall n: nat, t: string :: b.ensure(n, t).Accepted?
    ensures EnsureTenants(b, w, events, seen).1
    decreases |events|
  {
    if events != [] {
      var t := events[0].tenant;
      if t in seen || (t in w.ensured && w.ensured[t] == b.fingerprint(t)) {
        EnsureSucceeds(b, w, events[1..], seen + {t});
      } else {
        var w1 := w.(asked := w.asked + [t], ensured := w.ensured[t := b.fingerprint(t)]);
        EnsureSucceeds(b, w1, events[1..], seen + {t});
      }
    }
  }

  lemma CallBudget(i: nat, j: nat, l1: nat, l2: nat, l: nat)
    requires i + j > 0 && l1 + 1 <= l && l2 + 1 <= l
    ensures 1 + (1 + 2 * i * l1) + (1 + 2 * j * l2) <= 1 + 2 * (i + j) * l
  {
    assert i * l1 <= i * (l - 1) by { if l1 < l - 1 { MulMonotonic(i, l1, l - 1); } }
    assert j * l2 <= j * (l - 1) by { if l2 < l - 1 { MulMonotonic(j, l2, l - 1); } }
    assert (i + j) * l == i * (l - 1) + j * (l - 1) + (i + j);
  }

  lemma {:induction false} MulMonotonic(a: nat, b: nat, c: nat)
    requires b <= c
    ensures a * b <= a * c
  {
  }

  ghost predicate Isolates(bad: Event -> bool, w: World, w1: World, r: Result, events: seq<Event>)
  {
    var k := |Filter(bad, events)|;
    && r == Delivered(k)
    && w1.dead == w.dead + Filter(bad, events)
    && w1.confirmed == w.confirmed + Filter(e => !bad(e), events)
    && |w1.sent| <= |w.sent| + 1 + 2 * k * CeilLog2(|events|)
  }

  lemma HalvesIsolate(bad: Event -> bool, w: World, w1: World, w2: World, w3: World, left: Result, right: Result,
                      events: seq<Event>)
    requires |events| > 1 && HoldsPoison(bad, events)
    requires |w1.sent| == |w.sent| + 1 && w1.dead == w.dead && w1.confirmed == w.confirmed
    requires Isolates(bad, w1, w2, left, events[..|events| / 2])
    requires Isolates(bad, w2, w3, right, events[|events| / 2..])
    ensures Isolates(bad, w, w3, Delivered(left.dead + right.dead), events)
  {
    var mid := |events| / 2;
    var a, c := events[..mid], events[mid..];
    assert events == a + c;
    FilterAppend(bad, a, c);
    FilterAppend(e => !bad(e), a, c);
    FilterByPoison(bad, events);
    CeilLog2Monotonic(mid, (|events| + 1) / 2);
    CallBudget(|Filter(bad, a)|, |Filter(bad, c)|, CeilLog2(|a|), CeilLog2(|c|), CeilLog2(|events|));
  }

  /** Bisection: when a batch is permanently rejected iff it holds a poison event, exactly the k
      poison events of n are dead-lettered, in order, all others are accepted, and SendEvents is
      called at most 1 + 2·k·⌈log2 n⌉ times. */
  lemma {:induction false} PoisonIsolated(b: Backend, bad: Event -> bool, w: World, events: seq<Event>)
    requires events != [] && Poisoned(b, bad)
    ensures var (w1, r) := Deliver(b, w, events); Isolates(bad, w, w1, r, events)
    decreases |events|
  {
    hide Isolates, EnsureTenants, Filter, CeilLog2, HoldsPoison;
    EnsureSucceeds(b, w, events, {});
    EnsureTouchesNothing(b, w, events, {});
    var w0 := EnsureTenants(b, w, events, {}).0;
    var (w1, out) := Send(b, w0, events);
    FilterByPoison(bad, events);
    if !HoldsPoison(bad, events) {
      IsolatesClean(bad, w, w1, events);
    } else if |events| == 1 {
      IsolatesOne(bad, w, w1, Park(b, w1, events[0]).0, events);
    } else {
      var mid := |events| / 2;
      PoisonIsolated(b, bad, w1, events[..mid]);
      var (w2, left) := Deliver(b, w1, events[..mid]);
      PoisonIsolated(b, bad, w2, events[mid..]);
      var (w3, right) := Deliver(b, w2, events[mid..]);
      assert left.Delivered? && right.Delivered? by {
        IsolatesDelivers(bad, w1, w2, left, events[..mid]);
        IsolatesDelivers(bad, w2, w3, right, events[mid..]);
      }
      HalvesIsolate(bad, w, w1, w2, w3, left, right, events);
    }
  }

  lemma IsolatesDelivers(bad: Event -> bool, w: World, w1: World, r: Result, events: seq<Event>)
    requires Isolates(bad, w, w1, r, events)
    ensures r.Delivered?
  {
  }

  lemma IsolatesClean(bad: Event -> bool, w: World, w1: World, events: seq<Event>)
    requires Filter(bad, events) == [] && Filter(e => !bad(e), events) == events
    requires |w1.sent| == |w.sent| + 1 && w1.dead == w.dead && w1.confirmed == w.confirmed + events
    ensures Isolates(bad, w, w1, Delivered(0), events)
  {
    assert w.dead + [] == w.dead;
  }

  lemma IsolatesOne(bad: Event -> bool, w: World, w1: World, w2: World, events: seq<Event>)
    requires |events| == 1 && HoldsPoison(bad, events)
    requires |w1.sent| == |w.sent| + 1 && w1.confirmed == w.confirmed
    requires w2.sent == w1.sent && w2.confirmed == w1.confirmed && w2.dead == w.dead + [events[0]]
    ensures Isolates(bad, w, w2, Delivered(1), events)
  {
    assert events[1..] == [];
    assert w.confirmed + [] == w.confirmed;
  }

  // ---- tenants come first ----

  /** Before a batch is sent, each of its tenants exists at the backend as the registry knows it
      now, or was refused for good during this very call. */
  lemma {:induction false} TenantsFirst(b: Backend, w: World, events: seq<Event>, seen: set<string>)
    requires EnsureTenants(b, w, events, seen).1
    ensures var w1 := EnsureTenants(b, w, events, seen).0;
      && w.asked <= w1.asked
      && (forall t :: t in w.ensured && w.ensured[t] == b.fingerprint(t) ==>
        t in w1.ensured && w1.ensured[t] == b.fingerprint(t))
      && (forall i :: 0 <= i < |events| ==> TenantReady(b, |w.asked|, w1, events[i].tenant) || events[i].tenant in seen)
    decreases |events|
  {
    if events != [] {
      var t := events[0].tenant;
      var w1 := EnsureTenants(b, w, events, seen).0;
      var next := w;
      if !(t in seen || (t in w.ensured && w.ensured[t] == b.fingerprint(t))) {
        next := w.(asked := w.asked + [t]);
        if b.ensure(|w.asked|, t).Accepted? { next := next.(ensured := w.ensured[t := b.fingerprint(t)]); }
      }
      TenantsFirst(b, next, events[1..], seen + {t});
      forall i | 0 <= i < |events| ensures TenantReady(b, |w.asked|, w1, events[i].tenant) || events[i].tenant in seen {
        if i > 0 { assert events[i] == events[1..][i - 1]; }
      }
    }
  }

  ghost predicate TenantReady(b: Backend, from: nat, w1: World, t: string)
  {
    || (t in w1.ensured && w1.ensured[t] == b.fingerprint(t))
    || (exists n: nat :: from <= n < |w1.asked| && w1.asked[n] == t && b.ensure(n, t).Permanent?)
  }

  /** Each tenant of the batch is asked for at most once, and only when the registry's state of it is not at the
      backend yet; and every such tenant is asked for, unless an earlier one must be retried. */
  lemma {:induction false} TenantsAsked(b: Backend, w: World, events: seq<Event>, seen: set<string>)
    ensures var (w1, ok) := EnsureTenants(b, w, events, seen);
      && w.asked <= w1.asked
      && (forall n :: |w.asked| <= n < |w1.asked| ==> AsksFor(b, w, events, seen, w1.asked[n]))
      && (forall n, k :: |w.asked| <= n < k < |w1.asked| ==> w1.asked[n] != w1.asked[k])
      && (ok ==> forall t :: AsksFor(b, w, events, seen, t) ==> t in w1.asked[|w.asked|..])
    decreases |events|
  {
    if events != [] {
      var t, rest := events[0].tenant, events[1..];
      var w1 := EnsureTenants(b, w, events, seen).0;
      if t in seen || IsEnsured(b, w, t) {
        TenantsAsked(b, w, rest, seen + {t});
        forall u ensures AsksFor(b, w, events, seen, u) <==> AsksFor(b, w, rest, seen + {t}, u) {
          OneMoreEvent(b, w, events, seen, u);
        }
      } else {
        var next := AfterAsking(b, w, t);
        forall u ensures AsksFor(b, w, events, seen, u) <==> u == t || AsksFor(b, next, rest, seen + {t}, u) {
          OneMoreEvent(b, w, events, seen, u);
        }
        if b.ensure(|w.asked|, t).Accepted? || b.ensure(|w.asked|, t).Permanent? {
          TenantsAsked(b, next, rest, seen + {t});
          forall n | |w.asked| <= n < |w1.asked| ensures AsksFor(b, w, events, seen, w1.asked[n]) {
            if n == |w.asked| { assert w1.asked[n] == next.asked[n]; }
          }
          forall n, k | |w.asked| <= n < k < |w1.asked| ensures w1.asked[n] != w1.asked[k] {
            if n == |w.asked| { assert w1.asked[n] == next.asked[n] == t; }
          }
          assert t == w1.asked[|w.asked|];
        }
      }
    }
  }

  predicate IsEnsured(b: Backend, w: World, t: string) { t in w.ensured && w.ensured[t] == b.fingerprint(t) }

  ghost predicate AsksFor(b: Backend, w: World, events: seq<Event>, seen: set<string>, t: string)
  {
    t !in seen && !IsEnsured(b, w, t) && exists i :: 0 <= i < |events| && events[i].tenant == t
  }

  function AfterAsking(b: Backend, w: World, t: string): World
  {
    var w1 := w.(asked := w.asked + [t]);
    if b.ensure(|w.asked|, t).Accepted? then w1.(ensured := w.ensured[t := b.fingerprint(t)]) else w1
  }

  lemma OneMoreEvent(b: Backend, w: World, events: seq<Event>, seen: set<string>, u: string)
    requires events != []
    ensures var t, rest := events[0].tenant, events[1..];
      && (t in seen || IsEnsured(b, w, t) ==>
            (AsksFor(b, w, events, seen, u) <==> AsksFor(b, w, rest, seen + {t}, u)))
      && (t !in seen && !IsEnsured(b, w, t) ==>
            (AsksFor(b, w, events, seen, u) <==> u == t || AsksFor(b, AfterAsking(b, w, t), rest, seen + {t}, u)))
  {
    var t, rest := events[0].tenant, events[1..];
    if exists i :: 0 <= i < |events| && events[i].tenant == u {
      var i :| 0 <= i < |events| && events[i].tenant == u;
      if i > 0 { assert rest[i - 1].tenant == u; }
    }
    if exists i :: 0 <= i < |rest| && rest[i].tenant == u {
      var i :| 0 <= i < |rest| && rest[i].tenant == u;
      assert events[i + 1].tenant == u;
    }
  }

  // ---- when an attempt fails ----

  /** A batch sent between the two worlds was to be retried. */
  ghost predicate SendRetried(b: Backend, w: World, w1: World)
  {
    exists n: nat :: |w.sent| <= n < |w1.sent| && b.answer(n, w1.sent[n]).Retryable?
  }

  /** A tenant asked for between the two worlds was neither taken nor refused for good. */
  ghost predicate TenantRetried(b: Backend, w: World, w1: World)
  {
    exists n: nat :: |w.asked| <= n < |w1.asked|
      && !b.ensure(n, w1.asked[n]).Accepted? && !b.ensure(n, w1.asked[n]).Permanent?
  }

  /** A dead letter could not be written between the two worlds. */
  ghost predicate WriteFailed(b: Backend, w: World, w1: World)
  {
    exists n: nat :: w.writes <= n < w1.writes && !b.parks(n)
  }

  ghost predicate Fault(b: Backend, w: World, w1: World)
  {
    SendRetried(b, w, w1) || TenantRetried(b, w, w1) || WriteFailed(b, w, w1)
  }

  /** Nothing that was asked, sent or written is taken back. */
  predicate Later(w: World, w1: World)
  {
    w.sent <= w1.sent && w.asked <= w1.asked && w.writes <= w1.writes
  }

  lemma FaultSplits(b: Backend, w: World, w1: World, w2: World)
    requires Later(w, w1) && Later(w1, w2)
    ensures Later(w, w2) && (Fault(b, w, w2) <==> Fault(b, w, w1) || Fault(b, w1, w2))
  {
    if SendRetried(b, w, w1) {
      var n: nat :| |w.sent| <= n < |w1.sent| && b.answer(n, w1.sent[n]).Retryable?;
      assert w2.sent[n] == w1.sent[n];
    }
    if SendRetried(b, w, w2) {
      var n: nat :| |w.sent| <= n < |w2.sent| && b.answer(n, w2.sent[n]).Retryable?;
      assert n < |w1.sent| ==> w2.sent[n] == w1.sent[n];
    }
    if TenantRetried(b, w, w1) {
      var n: nat :| |w.asked| <= n < |w1.asked|
        && !b.ensure(n, w1.asked[n]).Accepted? && !b.ensure(n, w1.asked[n]).Permanent?;
      assert w2.asked[n] == w1.asked[n];
    }
    if TenantRetried(b, w, w2) {
      var n: nat :| |w.asked| <= n < |w2.asked|
        && !b.ensure(n, w2.asked[n]).Accepted? && !b.ensure(n, w2.asked[n]).Permanent?;
      assert n < |w1.asked| ==> w2.asked[n] == w1.asked[n];
    }
  }

  lemma NoFault(b: Backend, w: World)
    ensures Later(w, w) && !Fault(b, w, w)
  {
  }

  lemma {:induction false} EnsureFails(b: Backend, w: World, events: seq<Event>, seen: set<string>)
    ensures var (w1, ok) := EnsureTenants(b, w, events, seen); Later(w, w1) && (!ok <==> Fault(b, w, w1))
    decreases |events|
  {
    if events == [] {
      NoFault(b, w);
    } else {
      var t, rest := events[0].tenant, events[1..];
      if t in seen || IsEnsured(b, w, t) {
        EnsureFails(b, w, rest, seen + {t});
      } else {
        var next := AfterAsking(b, w, t);
        AskFaults(b, w, t);
        if b.ensure(|w.asked|, t).Accepted? || b.ensure(|w.asked|, t).Permanent? {
          EnsureFails(b, next, rest, seen + {t});
          FaultSplits(b, w, next, EnsureTenants(b, w, events, seen).0);
        }
      }
    }
  }

  lemma AskFaults(b: Backend, w: World, t: string)
    ensures var w1 := AfterAsking(b, w, t); var out := b.ensure(|w.asked|, t);
      Later(w, w1) && (Fault(b, w, w1) <==> !out.Accepted? && !out.Permanent?)
  {
    assert AfterAsking(b, w, t).asked[|w.asked|] == t;
  }

  lemma SendFaults(b: Backend, w: World, events: seq<Event>)
    ensures var (w1, out) := Send(b, w, events); Later(w, w1) && (Fault(b, w, w1) <==> out.Retryable?)
  {
    assert Send(b, w, events).0.sent[|w.sent|] == events;
  }

  lemma ParkFaults(b: Backend, w: World, e: Event)
    ensures var (w1, ok) := Park(b, w, e); Later(w, w1) && (Fault(b, w, w1) <==> !ok)
  {
    assert Park(b, w, e).0.writes == w.writes + 1;
  }

  lemma {:induction false} ParkRejectedFails(b: Backend, w: World, rejected: map<string, string>, events: seq<Event>,
                                             dead: nat)
    ensures var (w1, r) := ParkRejected(b, w, rejected, events, dead); Later(w, w1) && (r.Failed? <==> Fault(b, w, w1))
    decreases |events|
  {
    if events == [] {
      NoFault(b, w);
    } else if events[0].id !in rejected {
      ParkRejectedFails(b, w, rejected, events[1..], dead);
    } else {
      var (w1, ok) := Park(b, w, events[0]);
      ParkFaults(b, w, events[0]);
      if ok {
        ParkRejectedFails(b, w1, rejected, events[1..], dead + 1);
        FaultSplits(b, w, w1, ParkRejected(b, w, rejected, events, dead).0);
      }
    }
  }

  /** An attempt fails exactly when, among what it asked, sent and wrote itself, a batch was to be retried, a
      tenant was neither taken nor refused for good, or a dead letter could not be written. So a rejection, of a
      whole batch or of part of one, never holds the batch back. */
  lemma {:induction false} DeliverFails(b: Backend, w: World, events: seq<Event>)
    requires events != []
    ensures var (w1, r) := Deliver(b, w, events); Later(w, w1) && (r.Failed? <==> Fault(b, w, w1))
    decreases |events|, 1
  {
    hide Fault, Later, Send, Park, ParkRejected, EnsureTenants;
    var (w0, ready) := EnsureTenants(b, w, events, {});
    EnsureFails(b, w, events, {});
    if ready {
      var (w1, out) := Send(b, w0, events);
      SendFaults(b, w0, events);
      FaultSplits(b, w, w0, w1);
      match out
      case Partial(rejected) =>
        ParkRejectedFails(b, w1, rejected, events, 0);
        FaultSplits(b, w, w1, ParkRejected(b, w1, rejected, events, 0).0);
      case Permanent(_) =>
        RefusedFails(b, w1, events);
        FaultSplits(b, w, w1, Refused(b, w1, events).0);
      case _ =>
    }
  }

  lemma {:induction false} RefusedFails(b: Backend, w: World, events: seq<Event>)
    requires events != []
    ensures var (w1, r) := Refused(b, w, events); Later(w, w1) && (r.Failed? <==> Fault(b, w, w1))
    decreases |events|, 0
  {
    hide Fault, Later, Park;
    if |events| == 1 {
      ParkFaults(b, w, events[0]);
    } else {
      var mid := |events| / 2;
      DeliverFails(b, w, events[..mid]);
      var (w2, left) := Deliver(b, w, events[..mid]);
      if left.Delivered? {
        DeliverFails(b, w2, events[mid..]);
        FaultSplits(b, w, w2, Deliver(b, w2, events[mid..]).0);
      }
    }
  }

  // ---- a partial rejection ----

  lemma {:induction false} RejectedIsFilter(rejected: map<string, string>, events: seq<Event>)
    ensures RejectedOf(rejected, events) == Filter((e: Event) => e.id in rejected, events)
  {
    if events != [] { RejectedIsFilter(rejected, events[1..]); }
  }

  lemma {:induction false} UnrejectedIsFilter(rejected: map<string, string>, events: seq<Event>)
    ensures Unrejected(rejected, events) == Filter((e: Event) => e.id !in rejected, events)
  {
    if events == [] {
      NoneUnrejected(rejected);
    } else {
      assert events == [events[0]] + events[1..];
      UnrejectedAppend(rejected, [events[0]], events[1..]);
      OneRejected(rejected, events[0]);
      UnrejectedIsFilter(rejected, events[1..]);
    }
  }

  /** A backend that rejects part of a batch: it is called once, the rejected events are parked, in order, and no
      others, the rest is confirmed, and the attempt succeeds. */
  lemma PartialDelivers(b: Backend, w: World, events: seq<Event>, rejected: map<string, string>)
    requires events != [] && EnsureTenants(b, w, events, {}).1
    requires b.answer(|w.sent|, events) == Partial(rejected) && forall n: nat :: n >= w.writes ==> b.parks(n)
    ensures var (w1, r) := Deliver(b, w, events); var bad := Filter((e: Event) => e.id in rejected, events);
      var good := Filter((e: Event) => e.id !in rejected, events);
      && r == Delivered(|bad|) && w1.dead == w.dead + bad
      && w1.confirmed == w.confirmed + good && w1.received == w.received + good && w1.sent == w.sent + [events]
  {
    hide Fault, Filter;
    var w0 := EnsureTenants(b, w, events, {}).0;
    EnsureTouchesNothing(b, w, events, {});
    var w1 := Send(b, w0, events).0;
    SendExtends(b, w0, events);
    ReachingFrom(b, |w0.sent|, Partial(rejected), events);
    RejectedIsFilter(rejected, events);
    UnrejectedIsFilter(rejected, events);
    ParkRejectedParks(b, w1, rejected, events, 0);
    ParkRejectedFails(b, w1, rejected, events, 0);
    ParkingWorks(b, w1, ParkRejected(b, w1, rejected, events, 0).0, rejected, events);
  }

  lemma ParkingWorks(b: Backend, w: World, w1: World, rejected: map<string, string>, events: seq<Event>)
    requires w1 == ParkRejected(b, w, rejected, events, 0).0 && forall n: nat :: n >= w.writes ==> b.parks(n)
    ensures !Fault(b, w, w1) && w1.sent == w.sent
  {
    ParkRejectedParks(b, w, rejected, events, 0);
    ParkRejectedAsks(b, w, rejected, events, 0);
  }

  lemma {:induction false} ParkRejectedAsks(b: Backend, w: World, rejected: map<string, string>, events: seq<Event>,
                                            dead: nat)
    ensures ParkRejected(b, w, rejected, events, dead).0.asked == w.asked
    decreases |events|
  {
    if events != [] {
      if events[0].id !in rejected {
        ParkRejectedAsks(b, w, rejected, events[1..], dead);
      } else {
        var (w1, ok) := Park(b, w, events[0]);
        if ok { ParkRejectedAsks(b, w1, rejected, events[1..], dead + 1); }
      }
    }
  }
}
