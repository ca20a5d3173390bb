/** The dispatcher's loop for one destination, as it runs over a spool object
    (internal/pipeline/dispatcher.go). */
module DispatcherObject {
  import opened Usage
  import opened Ledger
  import opened SpoolModel
  import opened SpoolInvariant
  import opened SpoolReads
  import opened Delivery
  import opened DeliveryRuns
  import SpoolObject

  datatype Status = Status(cursor: nat, delivered: nat, skipped: nat, deadLettered: nat, failures: nat)
  {
    /** Every event record accounted for so far. */
    function Counted(): nat { delivered + skipped + deadLettered }
  }

  function EventCount(recs: seq<Record>): nat
  {
    if recs == [] then 0 else EventCount(recs[..|recs| - 1]) + if recs[|recs| - 1].payload.EventPayload? then 1 else 0
  }

  /** What is reported once a batch is passed that holds so many events for this destination, so many of them
      dead-lettered: delivered are the others, skipped the events of no interest to it, and failures end. */
  predicate Passed(before: Status, after: Status, recs: seq<Record>, taken: nat, dead: int)
  {
    && recs != [] && after.cursor == recs[|recs| - 1].number && after.failures == 0
    && after.deadLettered == before.deadLettered + dead
    && after.delivered == before.delivered + taken - dead
    && after.skipped == before.skipped + EventCount(recs) - taken
  }

  class Dispatcher {
    const spool: SpoolObject.Spool
    const dest: Destination
    const batchSize: int

    var world: World
    var status: Status

    constructor (spool: SpoolObject.Spool, dest: Destination, batchSize: int)
      ensures this.spool == spool && this.dest == dest
      ensures this.batchSize == if batchSize <= 0 then BATCH_SIZE else batchSize
      ensures world == NEW_WORLD && status.Counted() == 0
    {
      this.spool, this.dest := spool, dest;
      this.batchSize := if batchSize <= 0 then BATCH_SIZE else batchSize;
      world, status := NEW_WORLD, Status(0, 0, 0, 0, 0);
    }

    ghost predicate Valid()
      reads this, spool, spool.disk
    {
      spool.Valid() && batchSize > 0
    }

    function View(): System
      reads this, spool, spool.disk
    {
      System(SpoolRuns.Spool(spool.View(), spool.disk.State()), world, Idle)
    }

    method EnsureTenants(b: Backend, events: seq<Event>) returns (ok: bool)
      modifies this`world
      ensures (world, ok) == Delivery.EnsureTenants(b, old(world), events, {})
    {
      var seen: set<string> := {};
      var i := 0;
      while i < |events|
        invariant i <= |events|
        invariant Delivery.EnsureTenants(b, world, events[i..], seen)
            == Delivery.EnsureTenants(b, old(world), events, {})
      {
        var t := events[i].tenant;
        assert events[i..][0] == events[i] && events[i..][1..] == events[i + 1..];
        if !(t in seen || (t in world.ensured && world.ensured[t] == b.fingerprint(t))) {
          var out := b.ensure(|world.asked|, t);
          world := world.(asked := world.asked + [t]);
          if out.Accepted? {
            world := world.(ensured := world.ensured[t := b.fingerprint(t)]);
          } else if !out.Permanent? {
            return false;
          }
        }
        seen := seen + {t};
        i := i + 1;
      }
      return true;
    }

    method SendEvents(b: Backend, events: seq<Event>) returns (out: Outcome)
      modifies this`world
      ensures (world, out) == Send(b, old(world), events)
    {
      var r := Send(b, world, events);
      world := r.0;
      return r.1;
    }

    method AddDeadLetter(b: Backend, e: Event) returns (ok: bool)
      modifies this`world
      ensures (world, ok) == Park(b, old(world), e)
    {
      ok := b.parks(world.writes);
      world := world.(writes := world.writes + 1);
      if ok { world := world.(dead := world.dead + [e]); }
    }

    /** The events a backend listed as rejected, one by one. */
    method ParkPartial(b: Backend, rejected: map<string, string>, events: seq<Event>) returns (r: Result)
      modifies this`world
      ensures (world, r) == ParkRejected(b, old(world), rejected, events, 0)
    {
      var dead := 0;
      var i := 0;
      while i < |events|
        invariant i <= |events|
        invariant ParkRejected(b, world, rejected, events[i..], dead)
            == ParkRejected(b, old(world), rejected, events, 0)
      {
        assert events[i..][0] == events[i] && events[i..][1..] == events[i + 1..];
        if events[i].id in rejected {
          var ok := AddDeadLetter(b, events[i]);
          if !ok { return Failed; }
          dead := dead + 1;
        }
        i := i + 1;
      }
      return Delivered(dead);
    }

    /** deliver, halving what is refused for good. A successful call accounts for every event. */
    method Deliver(b: Backend, events: seq<Event>) returns (r: Result)
      requires events != []
      modifies this`world
      ensures (world, r) == Delivery.Deliver(b, old(world), events)
      ensures Extends(old(world), world, events)
      ensures r.Delivered? ==> Splits(old(world), world, events, r.dead) && r.dead <= |events|
      ensures r.Delivered? ==> |world.dead| == |old(world).dead| + r.dead
      ensures r.Failed? <==> Fault(b, old(world), world)
      decreases |events|
    {
      hide Extends, Splits, Send, Park, Delivery.EnsureTenants, ParkRejected, Fault;
      DeliverSplits(b, world, events);
      DeliverFails(b, world, events);
      DeadAtMost(b, world, events);
      var ok := EnsureTenants(b, events);
      if !ok { return Failed; }
      var out := SendEvents(b, events);
      match out
      case Accepted => return Delivered(0);
      case Retryable => return Failed;
      case Partial(rejected) => r := ParkPartial(b, rejected, events);
      case Permanent(_) =>
        if |events| == 1 {
          var parked := AddDeadLetter(b, events[0]);
          return if parked then Delivered(1) else Failed;
        }
        var mid := |events| / 2;
        var left := Deliver(b, events[..mid]);
        if left.Failed? { return Failed; }
        var right := Deliver(b, events[mid..]);
        if right.Failed? { return Failed; }
        r := Delivered(left.dead + right.dead);
    }

    /** Commits and filtered metrics are passed over. */
    method Select(recs: seq<Record>) returns (events: seq<Event>, skipped: nat)
      ensures events == Deliverable(dest, recs)
      ensures |events| + skipped == EventCount(recs)
    {
      events, skipped := [], 0;
      var i := 0;
      while i < |recs|
        invariant i <= |recs|
        invariant events == Deliverable(dest, recs[..i]) && |events| + skipped == EventCount(recs[..i])
      {
        assert recs[..i + 1][..i] == recs[..i];
        if recs[i].payload.EventPayload? {
          if dest.accepts(recs[i].payload.event.metric) {
            events := events + [recs[i].payload.event];
          } else {
            skipped := skipped + 1;
          }
        }
        i := i + 1;
      }
      assert recs[..i] == recs;
    }

    /** Delivers what a batch holds for this destination, and counts it. */
    method Attempt(b: Backend, recs: seq<Record>) returns (r: Result, skipped: nat)
      modifies this`world, this`status
      ensures var events := Deliverable(dest, recs);
        && (world, r) == (if events == [] then (old(world), Delivered(0)) else Delivery.Deliver(b, old(world), events))
        && (r.Delivered? ==> |events| + skipped == EventCount(recs) && r.dead <= |events|)
        && (r.Delivered? ==> |world.dead| == |old(world).dead| + r.dead)
        && (r.Delivered? ==> status == old(status).(delivered := old(status).delivered + (|events| - r.dead),
                                                    deadLettered := old(status).deadLettered + r.dead))
        && (r.Failed? ==> status == old(status).(failures := old(status).failures + 1))
    {
      hide Deliverable, Delivery.Deliver, Extends, Splits, EventCount;
      var events;
      events, skipped := Select(recs);
      r := Delivered(0);
      if |events| > 0 { r := Deliver(b, events); }
      if r.Failed? {
        status := status.(failures := status.failures + 1);
      } else {
        status := status.(delivered := status.delivered + (|events| - r.dead), deadLettered := status.deadLettered
            + r.dead);
      }
    }

    /** One turn of the loop: read from the cursor, deliver, acknowledge. When the acknowledgement is saved the
        counters have grown by exactly the event records it moved over; when it is not, the cursor has moved
        in memory all the same and the records filtered out are never counted; and when nothing was
        delivered nothing is counted. */
    method Turn(b: Backend, lookFails: bool, ackFails: bool) returns (moved: bool)
      requires Valid()
      modifies this, spool`cursors, spool.disk`cursors
      ensures Valid() && View() == Round(spool.codec, dest, old(View()), b, batchSize, lookFails, ackFails)
      ensures var from := CursorOf(old(View()).spool.m, dest.name);
          var recs := Take(Newer(Retained(spool.history), from), batchSize);
        && (moved ==> !ackFails && status.Counted() == old(status).Counted() + EventCount(recs))
        && (!moved && CursorOf(View().spool.m, dest.name) != from ==>
              ackFails && status.Counted() == old(status).Counted() + |Deliverable(dest, recs)|)
        && (!moved && CursorOf(View().spool.m, dest.name) == from ==> status.Counted() == old(status).Counted())
      ensures moved ==>
        var recs := Take(Newer(Retained(spool.history), CursorOf(old(View()).spool.m, dest.name)), batchSize);
        Passed(old(status), status, recs, |Deliverable(dest, recs)|, |world.dead| - |old(world).dead|)
      ensures !moved ==> status.cursor == old(status).cursor && status.skipped == old(status).skipped
    {
      hide Deliverable, Delivery.Deliver, Inv, Newer, Take, Retained, EventCount, Finish, Read, Codec.Valid;
      RoundIs(spool.codec, dest, View(), b, batchSize, lookFails, ackFails);
      var cursor := spool.Cursor(dest.name, lookFails);
      BatchIsStretch(spool.codec, SpoolRuns.Spool(spool.View(), spool.disk.State()), spool.history, cursor, batchSize);
      ReadIsNaive(spool.codec, spool.View(), spool.disk.State(), spool.history, cursor, batchSize);
      var read := spool.Read(cursor, batchSize);
      var recs := read.value;
      if |recs| == 0 { return false; }
      var r, skipped := Attempt(b, recs);
      if r.Failed? { return false; }
      var last := recs[|recs| - 1].number;
      var ok := spool.Ack(dest.name, last, ackFails);
      if !ok { return false; }
      status := status.(cursor := last, skipped := status.skipped + skipped, failures := 0);
      return true;
    }
  }

  function CursorOf(m: Memory, dest: string): nat { if dest in m.cursors then m.cursors[dest] else m.committed }

  lemma DeadAtMost(b: Backend, w: World, events: seq<Event>)
    requires events != []
    ensures var (w1, r) := Delivery.Deliver(b, w, events);
      r.Delivered? ==> r.dead <= |events| && |w1.dead| == |w.dead| + r.dead
  {
    DeliverSplits(b, w, events);
    var (w1, r) := Delivery.Deliver(b, w, events);
    if r.Delivered? {
      var confirmed, dead := w1.confirmed[|w.confirmed|..], w1.dead[|w.dead|..];
      assert |multiset(confirmed) + multiset(dead)| == |multiset(events)|;
      assert |multiset(dead)| == |dead| == r.dead && |multiset(events)| == |events|;
    }
  }
}
