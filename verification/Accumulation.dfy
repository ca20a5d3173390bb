/** Merging observations of the same identity into one event per window, and a tenant's part all or
    nothing (internal/metrics/collector.go, internal/metrics/tenant.go). Quantities are exact. */
module Accumulation {
  import opened Usage
  import opened Identity
  import opened Metering

  /** An event being accumulated; its quantity is kept beside it, unrounded. */
  datatype Measured = Measured(event: Event, quantity: real)

  /** One call of add. */
  datatype Addition = Addition(template: Measured, quantity: real)

  /** An accumulator's fields. */
  datatype Acc = Acc(start: Time, end: Time, events: map<string, Measured>, order: seq<string>)

  function NewAcc(start: Time, end: Time): Acc { Acc(start, end, map[], []) }

  /** The template as add stores it: without an ID, over the accumulator's window. */
  function Placed(a: Acc, e: Event): Event
  {
    e.(id := "", windowStart := a.start, windowEnd := a.end)
  }

  ghost function KeyOf(c: Codec, a: Acc, e: Event): string { ID(c, Placed(a, e)) }

  ghost function Add(c: Codec, a: Acc, x: Addition): Acc
  {
    if x.quantity <= 0.0 then a
    else
      var key := KeyOf(c, a, x.template.event);
      if key in a.events then Bump(a, key, x.quantity)
      else
        var first := Measured(Placed(a, x.template.event), x.template.quantity + x.quantity);
        a.(events := a.events[key := first], order := a.order + [key])
  }

  function Bump(a: Acc, key: string, q: real): Acc
    requires key in a.events
  {
    a.(events := a.events[key := a.events[key].(quantity := a.events[key].quantity + q)])
  }

  ghost function AddAll(c: Codec, a: Acc, xs: seq<Addition>): Acc
  {
    if xs == [] then a else Add(c, AddAll(c, a, xs[..|xs| - 1]), xs[|xs| - 1])
  }

  /** Keys in first-seen order, each with its event, filed under its own ID. */
  ghost predicate Filed(c: Codec, a: Acc)
  {
    && Distinct(a.order)
    && (forall k :: k in a.order <==> k in a.events)
    && (forall k :: k in a.events ==>
      Placed(a, a.events[k].event) == a.events[k].event && ID(c, a.events[k].event) == k)
  }

  ghost predicate ZeroTemplates(xs: seq<Addition>)
  {
    forall i :: 0 <= i < |xs| ==> xs[i].template.quantity == 0.0
  }

  /** The keys of the positive additions, in the order they come. */
  ghost function KeysAdded(c: Codec, a: Acc, xs: seq<Addition>): seq<string>
  {
    if xs == [] then []
    else
      var x := xs[|xs| - 1];
      KeysAdded(c, a, xs[..|xs| - 1]) + if x.quantity > 0.0 then [KeyOf(c, a, x.template.event)] else []
  }

  /** A list of keys with every repetition taken out. */
  function FirstSeen(keys: seq<string>): seq<string>
  {
    if keys == [] then []
    else
      var n := |keys| - 1;
      FirstSeen(keys[..n]) + if keys[n] in keys[..n] then [] else [keys[n]]
  }

  lemma {:induction false} FirstSeenHas(keys: seq<string>, k: string)
    ensures k in FirstSeen(keys) <==> k in keys
  {
    if keys != [] {
      FirstSeenHas(keys[..|keys| - 1], k);
      assert keys == keys[..|keys| - 1] + [keys[|keys| - 1]];
    }
  }

  lemma FirstSeenNext(keys: seq<string>, k: string)
    ensures FirstSeen(keys + [k]) == FirstSeen(keys) + if k in keys then [] else [k]
  {
    assert (keys + [k])[..|keys|] == keys;
  }

  /** Adding keeps every event under its own ID. */
  lemma {:induction false} AddAllFiles(c: Codec, a: Acc, xs: seq<Addition>)
    requires Filed(c, a)
    ensures Filed(c, AddAll(c, a, xs)) && AddAll(c, a, xs).start == a.start && AddAll(c, a, xs).end == a.end
  {
    hide ID;
    if xs != [] {
      AddAllFiles(c, a, xs[..|xs| - 1]);
    }
  }

  lemma AddLists(c: Codec, a: Acc, x: Addition)
    requires Filed(c, a)
    ensures var key := KeyOf(c, a, x.template.event);
      Add(c, a, x).order == a.order + if x.quantity > 0.0 && key !in a.order then [key] else []
  {
    hide ID, Placed;
  }

  lemma SameKey(c: Codec, a: Acc, b: Acc, e: Event)
    requires a.start == b.start && a.end == b.end
    ensures KeyOf(c, a, e) == KeyOf(c, b, e)
  {
    hide ID;
  }

  /** The keys are listed in the order in which they were first added. */
  lemma {:induction false} AddAllLists(c: Codec, a: Acc, xs: seq<Addition>)
    requires Filed(c, a) && a.order == []
    ensures AddAll(c, a, xs).order == FirstSeen(KeysAdded(c, a, xs))
  {
    hide Filed, Add, KeyOf, FirstSeen;
    if xs == [] {
      assert FirstSeen([]) == [] by { NoKeys(); }
    } else {
      var before, x := xs[..|xs| - 1], xs[|xs| - 1];
      AddAllLists(c, a, before);
      AddAllFiles(c, a, before);
      AddLists(c, AddAll(c, a, before), x);
      SameKey(c, AddAll(c, a, before), a, x.template.event);
      FirstSeenHas(KeysAdded(c, a, before), KeyOf(c, a, x.template.event));
      FirstSeenNext(KeysAdded(c, a, before), KeyOf(c, a, x.template.event));
      assert KeysAdded(c, a, before) + [] == KeysAdded(c, a, before);
    }
  }

  lemma NoKeys()
    ensures FirstSeen([]) == []
  {
  }

  // ---- conservation ----

  /** The positive quantities added under one key. */
  ghost function AddedTo(c: Codec, a: Acc, key: string, xs: seq<Addition>): real
  {
    if xs == [] then 0.0
    else
      var x := xs[|xs| - 1];
      AddedTo(c, a, key, xs[..|xs| - 1])
      + if x.quantity > 0.0 && KeyOf(c, a, x.template.event) == key then x.quantity else 0.0
  }

  function AddedInAll(xs: seq<Addition>): real
  {
    if xs == [] then 0.0
    else AddedInAll(xs[..|xs| - 1]) + if xs[|xs| - 1].quantity > 0.0 then xs[|xs| - 1].quantity else 0.0
  }

  function QuantityAt(a: Acc, key: string): real
  {
    if key in a.events then a.events[key].quantity else 0.0
  }

  function TotalOf(events: map<string, Measured>, order: seq<string>): real
    requires forall k :: k in order ==> k in events
  {
    if order == [] then 0.0
    else
      assert order[|order| - 1] in order;
      TotalOf(events, order[..|order| - 1]) + events[order[|order| - 1]].quantity
  }

  lemma {:induction false} TotalAfter(events: map<string, Measured>, events': map<string, Measured>,
                                      order: seq<string>, key: string, q: real)
    requires (forall k :: k in order ==> k in events && k in events') && Distinct(order)
    requires forall k :: k in order && k != key ==> events'[k] == events[k]
    requires key in order ==> events'[key].quantity == events[key].quantity + q
    ensures TotalOf(events', order) == TotalOf(events, order) + if key in order then q else 0.0
  {
    if order != [] {
      var n := |order| - 1;
      assert order == order[..n] + [order[n]];
      TotalAfter(events, events', order[..n], key, q);
    }
  }

  lemma AddTotals(c: Codec, a: Acc, x: Addition)
    requires Filed(c, a) && x.template.quantity == 0.0
    ensures var b := Add(c, a, x);
      Filed(c, b)
        && TotalOf(b.events, b.order) == TotalOf(a.events, a.order) + if x.quantity > 0.0 then x.quantity else 0.0
  {
    hide ID, Placed;
    var b := Add(c, a, x);
    AddAllFiles(c, a, [x]);
    assert [x][..0] == [] && AddAll(c, a, [x]) == b;
    if x.quantity > 0.0 {
      var key := KeyOf(c, a, x.template.event);
      TotalAfter(a.events, b.events, a.order, key, x.quantity);
      if key !in a.events { assert b.order[..|b.order| - 1] == a.order; }
    }
  }

  /** Accumulation is conservative: for any calls of add with zero-quantity templates, one event per key
      under pairwise distinct IDs (hence pairwise distinct identities), each with exactly the positive
      quantities added under its key, adding up to all the positive quantities. */
  lemma {:induction false} AccumulationConserves(c: Codec, start: Time, end: Time, xs: seq<Addition>)
    requires ZeroTemplates(xs)
    ensures var a := AddAll(c, NewAcc(start, end), xs);
      && Filed(c, a)
      && (forall key :: QuantityAt(a, key) == AddedTo(c, NewAcc(start, end), key, xs))
      && TotalOf(a.events, a.order) == AddedInAll(xs)
      && (forall k, l :: k in a.events && l in a.events && k != l ==>
        !SameIdentity(a.events[k].event, a.events[l].event))
  {
    hide ID, Placed, SameIdentity, QuantityAt, AddedTo, AddAll;
    var a := AddAll(c, NewAcc(start, end), xs);
    TotalsConserve(c, start, end, xs);
    forall key ensures QuantityAt(a, key) == AddedTo(c, NewAcc(start, end), key, xs) {
      KeyConserves(c, start, end, xs, key);
    }
    forall k, l | k in a.events && l in a.events && k != l ensures !SameIdentity(a.events[k].event, a.events[l].event) {
      if SameIdentity(a.events[k].event, a.events[l].event) {
        SameIdentitySameID(c, a.events[k].event, a.events[l].event);
      }
    }
  }

  lemma {:induction false} TotalsConserve(c: Codec, start: Time, end: Time, xs: seq<Addition>)
    requires ZeroTemplates(xs)
    ensures var a := AddAll(c, NewAcc(start, end), xs); Filed(c, a) && TotalOf(a.events, a.order) == AddedInAll(xs)
  {
    hide ID, Placed, Add, Filed;
    var empty := NewAcc(start, end);
    if xs == [] {
      assert Filed(c, empty) by { NewIsFiled(c, start, end); }
    } else {
      var n := |xs| - 1;
      TotalsConserve(c, start, end, xs[..n]);
      AddTotals(c, AddAll(c, empty, xs[..n]), xs[n]);
    }
  }

  lemma NewIsFiled(c: Codec, start: Time, end: Time)
    ensures Filed(c, NewAcc(start, end))
  {
  }

  lemma {:induction false} KeyConserves(c: Codec, start: Time, end: Time, xs: seq<Addition>, key: string)
    requires ZeroTemplates(xs)
    ensures QuantityAt(AddAll(c, NewAcc(start, end), xs), key) == AddedTo(c, NewAcc(start, end), key, xs)
  {
    hide ID, Placed, Filed;
    if xs != [] {
      var n := |xs| - 1;
      KeyConserves(c, start, end, xs[..n], key);
      NewIsFiled(c, start, end);
      AddAllFiles(c, NewAcc(start, end), xs[..n]);
      KeyByWindow(c, AddAll(c, NewAcc(start, end), xs[..n]), NewAcc(start, end), xs[n].template.event);
    }
  }

  lemma KeyByWindow(c: Codec, a: Acc, b: Acc, e: Event)
    requires a.start == b.start && a.end == b.end
    ensures KeyOf(c, a, e) == KeyOf(c, b, e)
  {
  }

  lemma SameIdentitySameID(c: Codec, e: Event, f: Event)
    requires SameIdentity(e, f)
    ensures ID(c, e) == ID(c, f)
  {
    SomeOrder(e.dimensions);
    var keys :| Enumerates(keys, e.dimensions);
    IDIs(c, e, keys);
    IDIs(c, f, keys);
  }

  // ---- temporary, then merged ----

  /** collectTenant's merge: every event of a temporary accumulator added once, with its sum. */
  ghost function Merge(c: Codec, a: Acc, tmp: Acc, n: nat): Acc
    requires n <= |tmp.order| && forall k :: k in tmp.order ==> k in tmp.events
  {
    if n == 0 then a
    else
      var m := tmp.events[tmp.order[n - 1]];
      Add(c, Merge(c, a, tmp, n - 1), Addition(Measured(m.event, 0.0), m.quantity))
  }

  ghost predicate Positive(a: Acc)
  {
    forall k :: k in a.events ==> a.events[k].quantity > 0.0
  }

  lemma MergeWindow(c: Codec, a: Acc, tmp: Acc, n: nat)
    requires n <= |tmp.order| && forall k :: k in tmp.order ==> k in tmp.events
    ensures Merge(c, a, tmp, n).start == a.start && Merge(c, a, tmp, n).end == a.end
  {
  }

  lemma FiledOrder(c: Codec, tmp: Acc)
    requires Filed(c, tmp)
    ensures forall k :: k in tmp.order ==> k in tmp.events
  {
  }

  lemma FiledAt(c: Codec, a: Acc, tmp: Acc, n: nat)
    requires Filed(c, tmp) && Positive(tmp) && 0 < n <= |tmp.order| && a.start == tmp.start && a.end == tmp.end
    ensures var k := tmp.order[n - 1];
      k !in tmp.order[..n - 1] && k in tmp.events && tmp.events[k].quantity > 0.0
          && KeyOf(c, a, tmp.events[k].event) == k
  {
    hide ID;
    assert tmp.order[n - 1] in tmp.order;
  }

  /** A larger sum in the temporary accumulator is a larger sum after the merge. */
  lemma {:induction false} MergeBump(c: Codec, a: Acc, tmp: Acc, key: string, q: real, n: nat)
    requires Filed(c, tmp) && Positive(tmp) && key in tmp.events && q > 0.0 && n <= |tmp.order|
    requires a.start == tmp.start && a.end == tmp.end
    ensures var merged := Merge(c, a, tmp, n); var more := Merge(c, a, Bump(tmp, key, q), n);
      if key in tmp.order[..n] then key in merged.events && more == Bump(merged, key, q) else more == merged
  {
    hide ID, KeyOf, Filed, Positive, Add;
    FiledOrder(c, tmp);
    if n > 0 {
      MergeBump(c, a, tmp, key, q, n - 1);
      MergeWindow(c, a, tmp, n - 1);
      var k := tmp.order[n - 1];
      assert tmp.order[..n] == tmp.order[..n - 1] + [k];
      var before := Merge(c, a, tmp, n - 1);
      FiledAt(c, before, tmp, n);
      var m := tmp.events[k];
      if k == key {
        BumpLate(c, before, Measured(m.event, 0.0), key, m.quantity, q);
      } else if key in tmp.order[..n - 1] {
        BumpEarly(c, before, Addition(Measured(m.event, 0.0), m.quantity), key, q);
      }
    }
  }

  lemma BumpLate(c: Codec, a: Acc, t: Measured, key: string, p: real, q: real)
    requires p > 0.0 && q > 0.0 && KeyOf(c, a, t.event) == key
    ensures var b := Add(c, a, Addition(t, p)); key in b.events && Add(c, a, Addition(t, p + q)) == Bump(b, key, q)
  {
    hide ID, Placed;
    var b := Add(c, a, Addition(t, p));
    assert Add(c, a, Addition(t, p + q)).events == Bump(b, key, q).events;
  }

  lemma BumpEarly(c: Codec, a: Acc, x: Addition, key: string, q: real)
    requires key in a.events && KeyOf(c, a, x.template.event) != key
    ensures key in Add(c, a, x).events && Add(c, Bump(a, key, q), x) == Bump(Add(c, a, x), key, q)
  {
    hide ID;
    assert Add(c, Bump(a, key, q), x).events == Bump(Add(c, a, x), key, q).events;
  }

  lemma {:induction false} MergeSame(c: Codec, a: Acc, tmp: Acc, tmp': Acc, n: nat)
    requires (forall k :: k in tmp.order ==> k in tmp.events) && (forall k :: k in tmp'.order ==> k in tmp'.events)
    requires n <= |tmp.order| && n <= |tmp'.order| && tmp.order[..n] == tmp'.order[..n]
    requires forall k :: k in tmp.order[..n] ==> k in tmp.events && k in tmp'.events && tmp.events[k] == tmp'.events[k]
    ensures Merge(c, a, tmp, n) == Merge(c, a, tmp', n)
  {
    hide Add;
    if n > 0 {
      assert tmp.order[..n - 1] == tmp.order[..n][..n - 1] && tmp'.order[..n - 1] == tmp'.order[..n][..n - 1];
      assert tmp.order[n - 1] == tmp.order[..n][n - 1] == tmp'.order[..n][n - 1] == tmp'.order[n - 1];
      assert tmp.order[n - 1] in tmp.order[..n];
      MergeSame(c, a, tmp, tmp', n - 1);
    }
  }

  ghost function Temporary(c: Codec, a: Acc, xs: seq<Addition>): Acc { AddAll(c, NewAcc(a.start, a.end), xs) }

  /** A temporary accumulator that is merged leaves the same map and the same order as adding directly. */
  lemma {:induction false} MergeIsDirect(c: Codec, a: Acc, xs: seq<Addition>)
    requires ZeroTemplates(xs)
    ensures var tmp := Temporary(c, a, xs);
      Filed(c, tmp) && Positive(tmp) && Merge(c, a, tmp, |tmp.order|) == AddAll(c, a, xs)
  {
    hide ID, Placed;
    if xs != [] {
      var n := |xs| - 1;
      MergeIsDirect(c, a, xs[..n]);
      AddAllFiles(c, NewAcc(a.start, a.end), xs[..n]);
      AddAllFiles(c, NewAcc(a.start, a.end), xs);
      MergeStep(c, a, Temporary(c, a, xs[..n]), xs[n]);
    }
  }

  lemma MergeStep(c: Codec, a: Acc, tmp: Acc, x: Addition)
    requires Filed(c, tmp) && Positive(tmp) && x.template.quantity == 0.0 && a.start == tmp.start && a.end == tmp.end
    ensures var tmp' := Add(c, tmp, x);
      && (forall k :: k in tmp'.order ==> k in tmp'.events) && Positive(tmp')
      && Merge(c, a, tmp', |tmp'.order|) == Add(c, Merge(c, a, tmp, |tmp.order|), x)
  {
    hide ID, KeyOf, Merge;
    if x.quantity > 0.0 {
      if KeyOf(c, tmp, x.template.event) in tmp.events { MergeOld(c, a, tmp, x); } else { MergeNew(c, a, tmp, x); }
    }
  }

  lemma MergeOld(c: Codec, a: Acc, tmp: Acc, x: Addition)
    requires Filed(c, tmp) && Positive(tmp) && x.quantity > 0.0 && a.start == tmp.start && a.end == tmp.end
    requires KeyOf(c, tmp, x.template.event) in tmp.events
    ensures Merge(c, a, Add(c, tmp, x), |tmp.order|) == Add(c, Merge(c, a, tmp, |tmp.order|), x)
  {
    hide ID, Placed, Merge, Positive;
    var key := KeyOf(c, tmp, x.template.event);
    MergeWindow(c, a, tmp, |tmp.order|);
    KeyByWindow(c, Merge(c, a, tmp, |tmp.order|), tmp, x.template.event);
    assert tmp.order[..|tmp.order|] == tmp.order;
    MergeBump(c, a, tmp, key, x.quantity, |tmp.order|);
  }

  lemma MergeNew(c: Codec, a: Acc, tmp: Acc, x: Addition)
    requires Filed(c, tmp) && Positive(tmp) && x.quantity > 0.0 && x.template.quantity == 0.0 && a.start == tmp.start
        && a.end == tmp.end
    requires KeyOf(c, tmp, x.template.event) !in tmp.events
    ensures var tmp' := Add(c, tmp, x);
      (forall k :: k in tmp'.order ==> k in tmp'.events)
        && Merge(c, a, tmp', |tmp'.order|) == Add(c, Merge(c, a, tmp, |tmp.order|), x)
  {
    hide ID, KeyOf, Merge, Positive, Distinct;
    var n := |tmp.order|;
    var tmp' := Add(c, tmp, x);
    var merged := Merge(c, a, tmp, n);
    MergeWindow(c, a, tmp, n);
    assert tmp'.order[..n] == tmp.order == tmp.order[..n];
    MergeSame(c, a, tmp, tmp', n);
    MergeLast(c, a, tmp', n);
    SameTemplate(c, merged, Addition(Measured(Placed(tmp, x.template.event), 0.0), x.quantity), x);
  }

  lemma MergeLast(c: Codec, a: Acc, tmp: Acc, n: nat)
    requires n < |tmp.order| && forall k :: k in tmp.order ==> k in tmp.events
    ensures tmp.order[n] in tmp.order
    ensures var m := tmp.events[tmp.order[n]];
      Merge(c, a, tmp, n + 1) == Add(c, Merge(c, a, tmp, n), Addition(Measured(m.event, 0.0), m.quantity))
  {
    hide Add;
  }

  lemma SameTemplate(c: Codec, a: Acc, x: Addition, y: Addition)
    requires x.quantity == y.quantity && x.template.quantity == y.template.quantity == 0.0
    requires Placed(a, x.template.event) == Placed(a, y.template.event)
    ensures Add(c, a, x) == Add(c, a, y)
  {
  }

  // ---- from an accumulator to committed events ----

  /** What the last loop of collect makes of one event. */
  ghost function Finalized(c: Codec, m: Measured, unitOf: string -> string, now: Time): Event
  {
    m.event.(schemaVersion := SCHEMA_VERSION, id := ID(c, m.event), source := "collector", recordedAt := now,
             unit := if m.event.unit == "" then unitOf(m.event.metric) else m.event.unit,
             quantity := RoundHalf(m.quantity * NANO))
  }

  /** What a window hands over, sorted by ID. */
  ghost function Finish(c: Codec, a: Acc, keys: seq<string>, unitOf: string -> string, now: Time): seq<Event>
    requires forall k :: k in keys ==> k in a.events
  {
    seq(|keys|, i requires 0 <= i < |keys| => assert keys[i] in keys; Finalized(c, a.events[keys[i]], unitOf, now))
  }

  function Sum(evs: seq<Event>): int
  {
    if evs == [] then 0 else Sum(evs[..|evs| - 1]) + evs[|evs| - 1].quantity
  }

  lemma {:induction false} TotalFront(events: map<string, Measured>, k: string, s: seq<string>)
    requires k in events && forall j :: j in s ==> j in events
    ensures TotalOf(events, [k] + s) == events[k].quantity + TotalOf(events, s)
  {
    if s == [] {
      assert ([k] + s)[..0] == [];
    } else {
      var n := |s| - 1;
      assert s == s[..n] + [s[n]];
      assert ([k] + s)[..n + 1] == [k] + s[..n];
      TotalFront(events, k, s[..n]);
    }
  }

  lemma {:induction false} TotalInsert(events: map<string, Measured>, k: string, s: seq<string>)
    requires k in events && (forall j :: j in s ==> j in events) && (forall j :: j in Insert(k, s) ==> j in events)
    ensures TotalOf(events, Insert(k, s)) == events[k].quantity + TotalOf(events, s)
  {
    hide Less, TotalOf;
    if s == [] || Less(k, s[0]) {
      TotalFront(events, k, s);
    } else {
      assert s == [s[0]] + s[1..];
      forall j | j in Insert(k, s[1..]) ensures j in events { assert j in Insert(k, s); }
      TotalInsert(events, k, s[1..]);
      TotalFront(events, s[0], s[1..]);
      TotalFront(events, s[0], Insert(k, s[1..]));
    }
  }

  lemma {:induction false} TotalSorted(events: map<string, Measured>, keys: seq<string>)
    requires Distinct(keys) && (forall k :: k in keys ==> k in events)
    ensures (forall k :: k in Sort(keys) ==> k in events) && TotalOf(events, Sort(keys)) == TotalOf(events, keys)
  {
    hide Insert;
    SortSorts(keys);
    if keys != [] {
      var n := |keys| - 1;
      assert keys == keys[..n] + [keys[n]];
      SortSorts(keys[..n]);
      TotalSorted(events, keys[..n]);
      TotalInsert(events, keys[n], Sort(keys[..n]));
    }
  }

  lemma {:induction false} SumIsClose(c: Codec, a: Acc, keys: seq<string>, unitOf: string -> string, now: Time)
    requires forall k :: k in keys ==> k in a.events
    ensures Abs(Sum(Finish(c, a, keys, unitOf, now)) as real / NANO - TotalOf(a.events, keys)) <= Allowance(|keys|)
  {
    hide ID, Abs, RoundHalf, Allowance;
    if keys == [] {
      NoSum();
    } else {
      var n := |keys| - 1;
      assert keys == keys[..n] + [keys[n]];
      SumIsClose(c, a, keys[..n], unitOf, now);
      var evs := Finish(c, a, keys, unitOf, now);
      assert evs[..n] == Finish(c, a, keys[..n], unitOf, now);
      var q := a.events[keys[n]].quantity;
      RoundIsClose(q, q);
      ErrorsAdd(Sum(evs[..n]) as real / NANO, TotalOf(a.events, keys[..n]), Round(q), q, n + 1);
      assert Sum(evs) as real / NANO == Sum(evs[..n]) as real / NANO + Round(q);
    }
  }

  lemma NoSum()
    ensures Abs(0 as real / NANO - 0.0) <= Allowance(0)
  {
  }

  /** What a window hands to the ledger: its events in strictly increasing order of ID, each under the
      ID derived from its own identity, one for every key; and their rounded quantities add up to what
      was accumulated, within half a unit of the ninth place per event. */
  lemma WindowHandsOver(c: Codec, a: Acc, unitOf: string -> string, now: Time)
    requires Filed(c, a)
    ensures var keys := Sort(a.order);
      && (forall k :: k in keys <==> k in a.events)
      && var evs := Finish(c, a, keys, unitOf, now);
        && |evs| == |keys|
        && (forall i :: 0 <= i < |evs| ==> evs[i].id == keys[i] == ID(c, evs[i]))
        && (forall i, j :: 0 <= i < j < |evs| ==> Less(evs[i].id, evs[j].id))
        && Abs(Sum(evs) as real / NANO - TotalOf(a.events, a.order)) <= Allowance(|evs|)
  {
    hide ID, Less, Sum, Abs, TotalOf, Sort, Allowance;
    var keys := Sort(a.order);
    SortSorts(a.order);
    TotalSorted(a.events, a.order);
    SumIsClose(c, a, keys, unitOf, now);
    var evs := Finish(c, a, keys, unitOf, now);
    forall i | 0 <= i < |evs| ensures evs[i].id == keys[i] == ID(c, evs[i]) {
      assert keys[i] in keys;
      FinalizedKeepsID(c, a.events[keys[i]], unitOf, now);
    }
  }

  /** The event is one of those added: of its tenant, metric, place and dimensions, in its unit or, without one,
      in that of the metric. */
  ghost predicate Describes(x: Addition, e: Event, unitOf: string -> string)
  {
    var t := x.template.event;
    && e.tenant == t.tenant && e.metric == t.metric && e.region == t.region && e.project == t.project
    && e.sku == t.sku && e.resourceID == t.resourceID && e.dimensions == t.dimensions
    && e.unit == if t.unit == "" then unitOf(t.metric) else t.unit
  }

  ghost predicate OfSome(xs: seq<Addition>, e: Event, unitOf: string -> string)
  {
    exists x :: x in xs && x.quantity > 0.0 && Describes(x, e, unitOf)
  }

  /** What the collector writes into every event of a window. */
  predicate Stamped(e: Event, start: Time, end: Time, now: Time)
  {
    && e.windowStart == start && e.windowEnd == end
    && e.source == "collector" && e.recordedAt == now && e.schemaVersion == SCHEMA_VERSION
  }

  ghost predicate UnderID(evs: seq<Event>, id: string) { exists e :: e in evs && e.id == id }

  ghost predicate FromSome(xs: seq<Addition>, a: Acc, e: Event)
  {
    exists x :: x in xs && x.quantity > 0.0 && Placed(a, x.template.event) == e
  }

  ghost predicate AddedAll(c: Codec, a: Acc, xs: seq<Addition>)
  {
    && (forall k :: k in a.events ==> FromSome(xs, a, a.events[k].event))
    && (forall x :: x in xs && x.quantity > 0.0 ==> KeyOf(c, a, x.template.event) in a.events)
  }

  lemma {:induction false} EventsAreAdded(c: Codec, start: Time, end: Time, xs: seq<Addition>)
    ensures var a := AddAll(c, NewAcc(start, end), xs); a.start == start && a.end == end && AddedAll(c, a, xs)
  {
    hide Add, AddedAll;
    if xs == [] {
      NothingAdded(c, start, end);
    } else {
      var n := |xs| - 1;
      EventsAreAdded(c, start, end, xs[..n]);
      var before := AddAll(c, NewAcc(start, end), xs[..n]);
      assert xs == xs[..n] + [xs[n]];
      OneAdded(c, before, xs[n]);
      OneMoreAdded(c, before, xs[..n], xs[n]);
    }
  }

  lemma NothingAdded(c: Codec, start: Time, end: Time)
    ensures AddedAll(c, NewAcc(start, end), [])
  {
  }

  lemma OneMoreAdded(c: Codec, a: Acc, xs: seq<Addition>, x: Addition)
    requires AddedAll(c, a, xs)
    ensures AddedAll(c, Add(c, a, x), xs + [x])
  {
    hide ID, Add, KeyOf, Placed, FromSome;
    var b := Add(c, a, x);
    OneAdded(c, a, x);
    forall k | k in b.events ensures FromSome(xs + [x], b, b.events[k].event) {
      if k in a.events {
        StillFromSome(xs, a, b, x, a.events[k].event);
      } else {
        FromLast(xs, a, b, x);
      }
    }
    forall y | y in xs + [x] && y.quantity > 0.0 ensures KeyOf(c, b, y.template.event) in b.events {
      SameKey(c, a, b, y.template.event);
    }
  }

  lemma StillFromSome(xs: seq<Addition>, a: Acc, b: Acc, x: Addition, e: Event)
    requires a.start == b.start && a.end == b.end && FromSome(xs, a, e)
    ensures FromSome(xs + [x], b, e)
  {
    hide Placed;
    var y :| y in xs && y.quantity > 0.0 && Placed(a, y.template.event) == e;
    SamePlace(a, b, y.template.event);
    assert y in xs + [x];
  }

  lemma FromLast(xs: seq<Addition>, a: Acc, b: Acc, x: Addition)
    requires a.start == b.start && a.end == b.end && x.quantity > 0.0
    ensures FromSome(xs + [x], b, Placed(a, x.template.event))
  {
    hide Placed;
    SamePlace(a, b, x.template.event);
    assert x in xs + [x];
  }

  lemma OneAdded(c: Codec, a: Acc, x: Addition)
    ensures var b := Add(c, a, x); var key := KeyOf(c, a, x.template.event);
      && b.start == a.start && b.end == a.end
      && b.events.Keys == a.events.Keys + (if x.quantity > 0.0 then {key} else {})
      && (forall k :: k in a.events ==> b.events[k].event == a.events[k].event)
      && (x.quantity > 0.0 && key !in a.events ==> b.events[key].event == Placed(a, x.template.event))
  {
    hide ID, Placed;
  }

  lemma SamePlace(a: Acc, b: Acc, e: Event)
    requires a.start == b.start && a.end == b.end
    ensures Placed(a, e) == Placed(b, e)
  {
  }

  /** Every event a window hands over is stamped with the window and describes something added to it; and
      everything positive added has its event there, under the ID of its identity in the window. */
  lemma WindowDescribes(c: Codec, start: Time, end: Time, xs: seq<Addition>, unitOf: string -> string, now: Time)
    ensures var a := AddAll(c, NewAcc(start, end), xs);
      && (forall k :: k in Sort(a.order) ==> k in a.events)
      && var evs := Finish(c, a, Sort(a.order), unitOf, now);
        && (forall e :: e in evs ==> Stamped(e, start, end, now) && OfSome(xs, e, unitOf))
        && (forall x :: x in xs && x.quantity > 0.0 ==>
              UnderID(evs, ID(c, x.template.event.(id := "", windowStart := start, windowEnd := end))))
  {
    hide ID, Sort, AddAll, Finalized, Finish, KeyOf, FromSome, OfSome, Stamped, UnderID;
    var a := AddAll(c, NewAcc(start, end), xs);
    NewIsFiled(c, start, end);
    AddAllFiles(c, NewAcc(start, end), xs);
    SortSorts(a.order);
    EventsAreAdded(c, start, end, xs);
    var keys := Sort(a.order);
    forall e | e in Finish(c, a, keys, unitOf, now) ensures Stamped(e, start, end, now) && OfSome(xs, e, unitOf) {
      var k := FinishedFrom(c, a, keys, unitOf, now, e);
      EventDescribes(c, a, xs, a.events[k], unitOf, now);
    }
    forall x | x in xs && x.quantity > 0.0
      ensures UnderID(Finish(c, a, keys, unitOf, now),
                      ID(c, x.template.event.(id := "", windowStart := start, windowEnd := end))) {
      PlacedKey(c, a, x.template.event);
      FinishedUnder(c, a, keys, unitOf, now, KeyOf(c, a, x.template.event));
    }
  }

  lemma PlacedKey(c: Codec, a: Acc, e: Event)
    ensures KeyOf(c, a, e) == ID(c, e.(id := "", windowStart := a.start, windowEnd := a.end))
  {
    hide ID;
  }

  lemma FinishedFrom(c: Codec, a: Acc, keys: seq<string>, unitOf: string -> string, now: Time, e: Event)
      returns (k: string)
    requires forall k :: k in keys ==> k in a.events
    requires e in Finish(c, a, keys, unitOf, now)
    ensures k in a.events && e == Finalized(c, a.events[k], unitOf, now)
  {
    hide ID, Finalized;
    var evs := Finish(c, a, keys, unitOf, now);
    var i :| 0 <= i < |evs| && evs[i] == e;
    assert keys[i] in keys;
    k := keys[i];
  }

  lemma FinishedUnder(c: Codec, a: Acc, keys: seq<string>, unitOf: string -> string, now: Time, key: string)
    requires forall k :: k in keys ==> k in a.events
    requires key in keys && ID(c, a.events[key].event) == key
    ensures UnderID(Finish(c, a, keys, unitOf, now), key)
  {
    hide ID, Finalized;
    var evs := Finish(c, a, keys, unitOf, now);
    var i :| 0 <= i < |keys| && keys[i] == key;
    FinalizedKeepsID(c, a.events[key], unitOf, now);
    assert evs[i] in evs;
  }

  lemma EventDescribes(c: Codec, a: Acc, xs: seq<Addition>, m: Measured, unitOf: string -> string, now: Time)
    requires FromSome(xs, a, m.event)
    ensures Stamped(Finalized(c, m, unitOf, now), a.start, a.end, now)
    ensures OfSome(xs, Finalized(c, m, unitOf, now), unitOf)
  {
    hide ID;
    var x :| x in xs && x.quantity > 0.0 && Placed(a, x.template.event) == m.event;
    assert Describes(x, Finalized(c, m, unitOf, now), unitOf);
  }

  lemma FinalizedKeepsID(c: Codec, m: Measured, unitOf: string -> string, now: Time)
    ensures ID(c, Finalized(c, m, unitOf, now)) == ID(c, m.event) == Finalized(c, m, unitOf, now).id
  {
    hide ID;
    SameIdentitySameID(c, Finalized(c, m, unitOf, now), m.event);
  }

  // ---- validation and order ----

  /** A hash is sixteen bytes in hexadecimal. */
  ghost predicate HexHash(c: Codec)
  {
    forall s :: |c.hash(s)| == 32 && IsID(c.hash(s))
  }

  /** An accumulated event is refused exactly for its tenant, metric, window or dimension keys: its
      derived ID and its rounded quantity always pass. */
  lemma AccumulatedIsValid(c: Codec, m: Measured, unitOf: string -> string, now: Time)
    requires HexHash(c) && m.quantity > 0.0
    ensures IsValid(Finalized(c, m, unitOf, now)) <==> WellDescribed(m.event)
  {
    SomeOrder(m.event.dimensions);
    var keys :| Enumerates(keys, m.event.dimensions);
    IDIs(c, m.event, keys);
    HashedIsID(c, HashedIn(c, m.event, keys));
    assert m.quantity * NANO > 0.0;
    assert RoundHalf(m.quantity * NANO) >= 0;
  }

  lemma HashedIsID(c: Codec, text: string)
    requires HexHash(c)
    ensures IsID("vb1_" + c.hash(text))
  {
    var id := "vb1_" + c.hash(text);
    forall i | 0 <= i < |id| ensures IDChar(id[i]) {
      if i >= 4 { assert id[i] == c.hash(text)[i - 4]; }
    }
  }

  /** The place of an event among events sorted by ID. */
  function InsertEvent(e: Event, s: seq<Event>): seq<Event>
  {
    if s == [] || Less(e.id, s[0].id) then [e] + s else [s[0]] + InsertEvent(e, s[1..])
  }

  function SortEvents(evs: seq<Event>): seq<Event>
  {
    if evs == [] then [] else InsertEvent(evs[|evs| - 1], SortEvents(evs[..|evs| - 1]))
  }

  lemma FinishFront(c: Codec, a: Acc, k: string, keys: seq<string>, unitOf: string -> string, now: Time)
    requires k in a.events && forall j :: j in keys ==> j in a.events
    ensures Finish(c, a, [k] + keys, unitOf, now) == [Finalized(c, a.events[k], unitOf, now)]
        + Finish(c, a, keys, unitOf, now)
  {
    hide ID, Finalized;
    var all := [k] + keys;
    forall i | 1 <= i < |all| ensures Finish(c, a, all, unitOf, now)[i] == Finish(c, a, keys, unitOf, now)[i - 1] {
      assert all[i] == keys[i - 1];
    }
  }

  lemma {:induction false} InsertsAlike(c: Codec, a: Acc, k: string, keys: seq<string>, unitOf: string -> string,
                                        now: Time)
    requires Filed(c, a) && k in a.events
    requires (forall j :: j in keys ==> j in a.events) && forall j :: j in Insert(k, keys) ==> j in a.events
    ensures InsertEvent(Finalized(c, a.events[k], unitOf, now), Finish(c, a, keys, unitOf, now))
        == Finish(c, a, Insert(k, keys), unitOf, now)
    decreases |keys|
  {
    hide ID, Less, Finish;
    FinalizedKeepsID(c, a.events[k], unitOf, now);
    if keys == [] {
      FinishFront(c, a, k, [], unitOf, now);
      assert Finish(c, a, [], unitOf, now) == [] by { NothingFinished(c, a, unitOf, now); }
    } else {
      var rest := keys[1..];
      assert keys == [keys[0]] + rest;
      FinalizedKeepsID(c, a.events[keys[0]], unitOf, now);
      FinishFront(c, a, keys[0], rest, unitOf, now);
      if Less(k, keys[0]) {
        FinishFront(c, a, k, keys, unitOf, now);
      } else {
        forall j | j in Insert(k, rest) ensures j in a.events { assert j in Insert(k, keys); }
        FinishFront(c, a, keys[0], Insert(k, rest), unitOf, now);
        InsertsAlike(c, a, k, rest, unitOf, now);
      }
    }
  }

  lemma NothingFinished(c: Codec, a: Acc, unitOf: string -> string, now: Time)
    ensures Finish(c, a, [], unitOf, now) == []
  {
  }

  /** Sorting the finalized events by ID gives the events in the order of the sorted keys. */
  lemma {:induction false} SortsAlike(c: Codec, a: Acc, keys: seq<string>, unitOf: string -> string, now: Time)
    requires Filed(c, a) && Distinct(keys) && forall k :: k in keys ==> k in a.events
    ensures (forall k :: k in Sort(keys) ==> k in a.events)
    ensures SortEvents(Finish(c, a, keys, unitOf, now)) == Finish(c, a, Sort(keys), unitOf, now)
  {
    hide ID, Insert, InsertEvent, Finalized;
    SortSorts(keys);
    if keys == [] {
      NothingFinished(c, a, unitOf, now);
    } else {
      var n := |keys| - 1;
      assert keys == keys[..n] + [keys[n]];
      SortSorts(keys[..n]);
      SortsAlike(c, a, keys[..n], unitOf, now);
      var evs := Finish(c, a, keys, unitOf, now);
      assert evs[..n] == Finish(c, a, keys[..n], unitOf, now) && evs[n] == Finalized(c, a.events[keys[n]], unitOf, now);
      InsertsAlike(c, a, keys[n], Sort(keys[..n]), unitOf, now);
    }
  }
}
