/** The accumulator as an object, and how what one tenant adds is merged into it
    (internal/metrics/collector.go, internal/metrics/tenant.go). */
module AccumulatorObject {
  import opened Text
  import opened Usage
  import opened Identity
  import opened Accumulation
  import opened Metering

  class Accumulator {
    const start: Time
    const end: Time
    var events: map<string, Measured>
    var order: seq<string>

    constructor (start: Time, end: Time)
      ensures View() == NewAcc(start, end)
    {
      this.start, this.end, events, order := start, end, map[], [];
    }

    function View(): Acc
      reads this
    {
      Acc(start, end, events, order)
    }

    /** Merges one observation into the event of its identity. */
    method Add(c: Codec, x: Addition)
      modifies this
      ensures View() == Accumulation.Add(c, old(View()), x)
    {
      hide ID;
      if x.quantity <= 0.0 { return; }
      var e := Placed(View(), x.template.event);
      var key := DeriveID(c, e);
      if key !in events {
        events, order := events[key := Measured(e, x.template.quantity)], order + [key];
      }
      events := events[key := events[key].(quantity := events[key].quantity + x.quantity)];
    }

    /** The events in first-seen order. */
    method List() returns (out: seq<Measured>)
      requires forall k :: k in order ==> k in events
      ensures |out| == |order| && forall i :: 0 <= i < |out| ==> out[i] == events[order[i]]
    {
      out := [];
      var i := 0;
      while i < |order|
        invariant i == |out| <= |order|
        invariant forall j :: 0 <= j < i ==> out[j] == events[order[j]]
      {
        assert order[i] in order;
        out := out + [events[order[i]]];
        i := i + 1;
      }
    }

    /** The window's events, finalized and in order of their IDs; nothing when one of them is invalid. */
    method FinishWindow(c: Codec, unitOf: string -> string, now: Time) returns (evs: Option<seq<Event>>)
      requires Filed(c, View())
      ensures evs.Some? <==> forall k :: k in order ==> IsValid(Finalized(c, events[k], unitOf, now))
      ensures evs.Some? ==>
        (forall k :: k in Sort(order) ==> k in events) && evs.value == Finish(c, View(), Sort(order), unitOf, now)
    {
      hide ID, IsValid, Sort, Finalized, Finish;
      var list := List();
      var out: seq<Event> := [];
      var i := 0;
      while i < |list|
        invariant i == |out| <= |list|
        invariant forall j :: 0 <= j < i ==> out[j] == Finalized(c, events[order[j]], unitOf, now) && IsValid(out[j])
      {
        assert order[i] in order;
        var ev := Finalize(c, list[i], unitOf, now);
        if !IsValid(ev) { return None; }
        out := out + [ev];
        i := i + 1;
      }
      assert out == Finish(c, View(), order, unitOf, now) by { FinishIs(c, View(), unitOf, now, out); }
      SortsAlike(c, View(), order, unitOf, now);
      return Some(SortEvents(out));
    }

    /** Adds every event of a temporary accumulator. */
    method MergeFrom(c: Codec, tmp: Accumulator)
      requires tmp != this && forall k :: k in tmp.order ==> k in tmp.events
      modifies this
      ensures View() == Merge(c, old(View()), tmp.View(), |tmp.order|)
    {
      hide ID, Accumulation.Add;
      var i := 0;
      while i < |tmp.order|
        invariant i <= |tmp.order| && tmp.View() == old(tmp.View())
        invariant View() == Merge(c, old(View()), tmp.View(), i)
      {
        assert tmp.order[i] in tmp.order;
        var m := tmp.events[tmp.order[i]];
        Add(c, Addition(Measured(m.event, 0.0), m.quantity));
        i := i + 1;
      }
    }
  }

  /** Fills in what an event lacks when its window is handed over. */
  method Finalize(c: Codec, m: Measured, unitOf: string -> string, now: Time) returns (ev: Event)
    ensures ev == Finalized(c, m, unitOf, now)
  {
    hide ID;
    ev := m.event;
    var id := DeriveID(c, ev);
    ev := ev.(schemaVersion := SCHEMA_VERSION, id := id, source := "collector", recordedAt := now,
              unit := if ev.unit == "" then unitOf(ev.metric) else ev.unit, quantity := RoundHalf(m.quantity * NANO));
  }

  lemma FinishIs(c: Codec, a: Acc, unitOf: string -> string, now: Time, out: seq<Event>)
    requires Filed(c, a) && |out| == |a.order|
    requires forall j :: 0 <= j < |out| ==>
      a.order[j] in a.events && out[j] == Finalized(c, a.events[a.order[j]], unitOf, now)
    ensures out == Finish(c, a, a.order, unitOf, now)
  {
    hide ID, Finalized;
  }

  /** Meters a tenant cluster through its own API into one accumulator per window: `seen` holds what the
      API shows for each window, or nothing when it fails part-way. All or nothing: when it fails no
      accumulator changes, otherwise each one is as if its observations had been added directly. */
  method CollectTenant(c: Codec, seen: Option<seq<seq<Addition>>>, accs: seq<Accumulator>) returns (ok: bool)
    requires seen.Some? ==> |seen.value| == |accs| && forall i :: 0 <= i < |accs| ==> ZeroTemplates(seen.value[i])
    requires forall i, j :: 0 <= i < j < |accs| ==> accs[i] != accs[j]
    modifies accs
    ensures ok == seen.Some?
    ensures !ok ==> forall i :: 0 <= i < |accs| ==> accs[i].View() == old(accs[i].View())
    ensures ok ==> forall i :: 0 <= i < |accs| ==> accs[i].View() == AddAll(c, old(accs[i].View()), seen.value[i])
  {
    hide ID, AddAll, Merge;
    if seen.None? { return false; }
    var i := 0;
    while i < |accs|
      invariant i <= |accs|
      invariant forall j :: 0 <= j < i ==> accs[j].View() == AddAll(c, old(accs[j].View()), seen.value[j])
      invariant forall j :: i <= j < |accs| ==> accs[j].View() == old(accs[j].View())
    {
      var tmp := Gather(c, accs[i].start, accs[i].end, seen.value[i]);
      MergeIsDirect(c, accs[i].View(), seen.value[i]);
      accs[i].MergeFrom(c, tmp);
      i := i + 1;
    }
    return true;
  }

  /** A temporary accumulator over one window. */
  method Gather(c: Codec, start: Time, end: Time, xs: seq<Addition>) returns (tmp: Accumulator)
    ensures fresh(tmp) && tmp.View() == AddAll(c, NewAcc(start, end), xs)
  {
    hide ID, Accumulation.Add;
    tmp := new Accumulator(start, end);
    var i := 0;
    assert xs[..0] == [];
    while i < |xs|
      invariant i <= |xs| && fresh(tmp) && tmp.View() == AddAll(c, NewAcc(start, end), xs[..i])
    {
      assert xs[..i + 1][..i] == xs[..i];
      tmp.Add(c, xs[i]);
      i := i + 1;
    }
    assert xs[..i] == xs;
  }
}
