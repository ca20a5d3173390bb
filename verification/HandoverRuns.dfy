/** What a contract handover guarantees, for one call and over runs
    (internal/destinations/metronome/adapter.go). */
module HandoverRuns {
  import opened Text
  import opened Usage
  import opened Contracts
  import opened Handover

  predicate InForce(c: Contract, t: int)
  {
    !c.archived && c.start <= t && (c.ending.None? || t < c.ending.value)
  }

  /** What vBilling may do to a contract it owns: only shorten it. */
  predicate Narrowed(c: Contract, d: Contract)
  {
    && d.id == c.id && d.key == c.key && d.start == c.start
    && (c.archived ==> d.archived)
    && (c.ending.Some? ==> d.ending.Some? && d.ending.value <= c.ending.value)
  }

  /** Nothing of another owner changes, nothing disappears, and own contracts are only shortened. */
  ghost predicate LeavesOthers(m: Naming, tenant: string, before: seq<Contract>, after: seq<Contract>)
  {
    && |before| <= |after|
    && (forall i :: 0 <= i < |before| ==> Narrowed(before[i], after[i]))
    && (forall i :: 0 <= i < |before| && !Ours(m, tenant, before[i]) ==> after[i] == before[i])
  }

  lemma LeavesTrans(m: Naming, tenant: string, a: seq<Contract>, b: seq<Contract>, c: seq<Contract>)
    requires LeavesOthers(m, tenant, a, b) && LeavesOthers(m, tenant, b, c)
    ensures LeavesOthers(m, tenant, a, c)
  {
    hide ContractRateCard;
    forall i | 0 <= i < |a| ensures Narrowed(a[i], c[i]) && (!Ours(m, tenant, a[i]) ==> c[i] == a[i]) {
      assert Narrowed(a[i], b[i]) && Narrowed(b[i], c[i]);
    }
  }

  lemma PrefixLeaves(m: Naming, tenant: string, a: seq<Contract>, b: seq<Contract>)
    requires a <= b
    ensures LeavesOthers(m, tenant, a, b)
  {
    hide ContractRateCard;
  }

  lemma ClosingLeaves(m: Naming, tenant: string, base: seq<Contract>, cs: seq<Contract>, at: int)
    requires Closing(base, cs, at) && forall i :: 0 <= i < |base| && !Ours(m, tenant, base[i]) ==> cs[i] == base[i]
    ensures LeavesOthers(m, tenant, base, cs)
  {
    hide ContractRateCard;
  }

  /** The contracts as the call's listing finds them. */
  function Found(env: Remote, s: State): seq<Contract>
  {
    Called(env, s.world.(stuck := {})).store.contracts
  }

  /** Of the first n contracts, every one of the tenant other than `keep` and those in `except` is closed from `at`
      on. */
  ghost predicate AllClosed(m: Naming, tenant: string, cs: seq<Contract>, n: nat, keep: nat, at: int, except: set<nat>)
  {
    n <= |cs| && forall i :: 0 <= i < n && i != keep && Ours(m, tenant, cs[i]) && OpenAt(cs[i], at) ==> i in except
  }

  /** What one uncached call does, step by step. */
  ghost predicate Handed(m: Naming, tenant: string, rateCard: string, base: seq<Contract>, cs: seq<Contract>,
                         stuck: set<nat>, keep: Contract, today: int)
  {
    var at := TakeOver(keep, today);
    && Granted(m, tenant, rateCard, today, cs, keep)
    && Closing(base, cs, at)
    && (forall i :: 0 <= i < |base| && (i == keep.id || !Ours(m, tenant, base[i])) ==> cs[i] == base[i])
    && (forall i :: 0 <= i < |base| && i != keep.id && Ours(m, tenant, base[i]) ==>
      i in stuck || cs[i] == Closed(base[i], at))
  }

  /** The last step of a call: the contract is granted, the others are ended. */
  lemma EndStep(m: Naming, env: Remote, w: World, base: seq<Contract>, all: seq<Contract>, tenant: string,
                rateCard: string, keep: Contract, today: int)
    requires w.store.Valid() && base <= w.store.contracts && (forall c :: c in all <==> c in base) && w.stuck == {}
    requires forall i :: 0 <= i < |base| ==> base[i].id == i
    requires Granted(m, tenant, rateCard, today, w.store.contracts, keep)
    ensures var (w1, ok) := EndOthers(env, w, OursOf(m, tenant, all), keep.id, TakeOver(keep, today));
      && w1.store.Valid() && LeavesOthers(m, tenant, base, w1.store.contracts)
          && |w.store.contracts| <= |w1.store.contracts|
      && (ok ==> Handed(m, tenant, rateCard, base, w1.store.contracts, w1.stuck, keep, today))
      && (env.Quiet() ==> |w1.store.contracts| == |w.store.contracts|)
      && (forall i :: |base| <= i < |w.store.contracts| ==> w1.store.contracts[i] == w.store.contracts[i])
      && Closing(base, w1.store.contracts, TakeOver(keep, today))
      && (forall i :: 0 <= i < |base| && !Ours(m, tenant, base[i]) ==> w1.store.contracts[i] == base[i])
  {
    hide ContractRateCard, OursOf, EndOthers, Choose, Ours, RateCardToken, Closed, LeavesOthers;
    var ours := OursOf(m, tenant, all);
    var at := TakeOver(keep, today);
    forall c | c in ours ensures c.id < |base| && c == base[c.id] && Ours(m, tenant, c) { }
    EndOthersCloses(env, w, base, ours, keep.id, at);
    var (w1, ok) := EndOthers(env, w, ours, keep.id, at);
    forall i | 0 <= i < |base| && !Ours(m, tenant, base[i]) ensures !Names(ours, i) { }
    forall i | |base| <= i < |w.store.contracts| ensures !Names(ours, i) { }
    ClosingLeaves(m, tenant, base, w1.store.contracts, at);
    forall i | 0 <= i < |base| && i != keep.id && Ours(m, tenant, base[i]) ensures base[i] in ours { }
  }

  /** Every outcome of one uncached call. */
  lemma EnsureShape(m: Naming, env: Remote, s: State, tenant: string, rateCard: string, now: Time)
    requires m.Valid() && env.Faithful() && s.world.store.Valid() && rateCard != "" && !IsCurrent(s, tenant, rateCard)
    ensures var (s1, r) := Ensure(m, env, s, tenant, rateCard, now); var base := Found(env, s);
        var cs := s1.world.store.contracts;
      && s1.world.store.Valid() && s.world.store.contracts <= base
      && LeavesOthers(m, tenant, base, cs)
      && (r.Done? ==> Handed(m, tenant, rateCard, base, cs, s1.world.stuck, r.keep, Today(now)))
      && s1.current == (if r.Done? then s.current[tenant := rateCard] else s.current)
      && r != Cached
  {
    hide ContractRateCard, List, TryKeys, EndOthers, Choose, OursOf, RateCardToken;
    var w0 := s.world.(stuck := {});
    var (w1, all) := List(env, w0);
    ListKeeps(env, w0);
    var base := w1.store.contracts;
    PrefixLeaves(m, tenant, base, base);
    if all.Some? {
      var today := Today(now);
      var keep := Choose(m, tenant, RateCardToken(m, rateCard), today, all.value);
      TryKeysGrants(m, env, w1, tenant, rateCard, today, KeysOf(all.value), 1);
      var (w2, grant) := if keep.Some? then (w1, Kept(keep.value))
                         else TryKeys(m, env, w1, tenant, rateCard, today, KeysOf(all.value), 1);
      PrefixLeaves(m, tenant, base, w2.store.contracts);
      if grant.Kept? { EndStep(m, env, w2, base, all.value, tenant, rateCard, grant.c, today); }
    }
  }

  /** Contract handover. When ensureContract completes uncached, the kept contract is open and on the
      rate card; and every other contract vBilling holds for the tenant is closed from the takeover
      instant on, except those whose end was refused for good and those another replica created meanwhile. */
  lemma HandsOver(m: Naming, env: Remote, s: State, tenant: string, rateCard: string, now: Time)
    requires m.Valid() && env.Faithful() && s.world.store.Valid() && rateCard != "" && !IsCurrent(s, tenant, rateCard)
    ensures var (s1, r) := Ensure(m, env, s, tenant, rateCard, now); var cs := s1.world.store.contracts;
      (r.Done? ==>
        && Granted(m, tenant, rateCard, Today(now), cs, r.keep)
        && AllClosed(m, tenant, cs, |Found(env, s)|, r.keep.id, TakeOver(r.keep, Today(now)), s1.world.stuck))
  {
    hide ContractRateCard, Ensure;
    EnsureShape(m, env, s, tenant, rateCard, now);
    var (s1, r) := Ensure(m, env, s, tenant, rateCard, now);
    var base, cs := Found(env, s), s1.world.store.contracts;
    if r.Done? {
      var at := TakeOver(r.keep, Today(now));
      forall i | 0 <= i < |base| && i != r.keep.id && Ours(m, tenant, cs[i]) && OpenAt(cs[i], at)
        ensures i in s1.world.stuck {
        assert Narrowed(base[i], cs[i]);
        ClosedIsClosed(base[i], at);
      }
    }
  }

  // ---- one replica ----

  /** The contract kept without another replica: an open one that was there, or one new contract from today. */
  ghost predicate KeptOf(m: Naming, tenant: string, rateCard: string, before: seq<Contract>, after: seq<Contract>,
                         keep: Contract, today: int)
  {
    var token := RateCardToken(m, rateCard);
    if exists c :: c in before && Candidate(m, tenant, token, today, c) then
      && keep in before && |after| == |before|
      && forall c :: c in before && Candidate(m, tenant, token, today, c) ==> keep.start <= c.start
    else
      |after| == |before| + 1 && after[|before|] == keep == Contract(|before|, keep.key, today, None, false)
  }

  lemma EnsureQuiet(m: Naming, env: Remote, s: State, tenant: string, rateCard: string, now: Time)
    requires m.Valid() && env.Faithful() && env.Quiet() && s.world.store.Valid() && rateCard != ""
        && !IsCurrent(s, tenant, rateCard)
    ensures var (s1, r) := Ensure(m, env, s, tenant, rateCard, now); var before := s.world.store.contracts;
        var cs := s1.world.store.contracts;
      && Found(env, s) == before && |before| <= |cs|
      && (r.Done? ==> KeptOf(m, tenant, rateCard, before, cs, r.keep, Today(now)))
      && (r.ListFailed? ==> cs == before)
      && (r.NotGranted? ==> cs == before || AddedOurs(m, tenant, rateCard, before, cs, Today(now)))
      && (r.EndFailed? ==>
           (exists c :: c in before && Candidate(m, tenant, RateCardToken(m, rateCard), Today(now), c))
             || NewOurs(m, tenant, rateCard, before, cs))
  {
    hide ContractRateCard, List, TryKeys, EndOthers, Choose, OursOf, RateCardToken, LeavesOthers, Handed;
    var w0 := s.world.(stuck := {});
    var (w1, all) := List(env, w0);
    ListKeeps(env, w0);
    var before := s.world.store.contracts;
    if all.Some? {
      var today := Today(now);
      var keep := Choose(m, tenant, RateCardToken(m, rateCard), today, all.value);
      var used := KeysOf(all.value);
      forall c | c in before ensures c.key in used { assert c in all.value; }
      forall k | k in used ensures k in w1.store.used + {""} { }
      TryKeysQuiet(m, env, w1, tenant, rateCard, today, used, 1);
      TryKeysGrants(m, env, w1, tenant, rateCard, today, used, 1);
      var (w2, grant) := if keep.Some? then (w1, Kept(keep.value))
                         else TryKeys(m, env, w1, tenant, rateCard, today, used, 1);
      if grant.Kept? {
        EndStep(m, env, w2, before, all.value, tenant, rateCard, grant.c, today);
      }
    }
  }

  /** One more contract, of this tenant and on this rate card, in force from its start on. */
  ghost predicate NewOurs(m: Naming, tenant: string, rateCard: string, before: seq<Contract>, after: seq<Contract>)
  {
    && |after| == |before| + 1 && !after[|before|].archived && after[|before|].ending == None
    && ContractRateCard(m, after[|before|].key, tenant) == RateCardToken(m, rateCard) != ""
  }

  // ---- runs ----

  predicate Live(m: Naming, tenant: string, c: Contract)
  {
    Ours(m, tenant, c) && !c.archived
  }

  /** The live contracts of the tenant follow one another; those that have an end have ended by today. */
  ghost predicate Sequential(m: Naming, tenant: string, cs: seq<Contract>, today: int)
  {
    && (forall i :: 0 <= i < |cs| && Live(m, tenant, cs[i]) ==>
      cs[i].start <= today && (cs[i].ending.Some? ==> cs[i].ending.value <= today))
    && (forall i, j :: 0 <= i < j < |cs| && Live(m, tenant, cs[i]) && Live(m, tenant, cs[j]) ==> Before(cs[i], cs[j]))
  }

  predicate Before(c: Contract, d: Contract)
  {
    c.ending.Some? && c.ending.value <= d.start
  }

  /** Contracts that follow one another are never in force together. */
  lemma SequentialDisjoint(m: Naming, tenant: string, cs: seq<Contract>, today: int, i: nat, j: nat, t: int)
    requires Sequential(m, tenant, cs, today) && i < |cs| && j < |cs|
    requires Ours(m, tenant, cs[i]) && Ours(m, tenant, cs[j]) && InForce(cs[i], t) && InForce(cs[j], t)
    ensures i == j
  {
    hide Ours;
    assert Live(m, tenant, cs[i]) && Live(m, tenant, cs[j]);
  }

  /** Exactly one contract of the tenant is open, and it is on the rate card. */
  ghost predicate OneInForce(m: Naming, tenant: string, rateCard: string, cs: seq<Contract>, today: int)
  {
    exists k: nat :: k < |cs| && OnlyOpen(m, tenant, rateCard, cs, today, k)
  }

  ghost predicate OnlyOpen(m: Naming, tenant: string, rateCard: string, cs: seq<Contract>, today: int, k: nat)
    requires k < |cs|
  {
    && Candidate(m, tenant, RateCardToken(m, rateCard), today, cs[k])
    && forall i :: 0 <= i < |cs| && Ours(m, tenant, cs[i]) && OpenAt(cs[i], today) ==> i == k
  }

  lemma SequentialLater(m: Naming, tenant: string, cs: seq<Contract>, today: int, later: int)
    requires Sequential(m, tenant, cs, today) && today <= later
    ensures Sequential(m, tenant, cs, later)
    ensures forall rateCard :: OneInForce(m, tenant, rateCard, cs, today) ==> OneInForce(m, tenant, rateCard, cs, later)
  {
    hide ContractRateCard, RateCardToken;
    forall rateCard | OneInForce(m, tenant, rateCard, cs, today) ensures OneInForce(m, tenant, rateCard, cs, later) {
      var k: nat :| k < |cs| && OnlyOpen(m, tenant, rateCard, cs, today, k);
      assert Live(m, tenant, cs[k]);
      forall i | 0 <= i < |cs| && Ours(m, tenant, cs[i]) && OpenAt(cs[i], later) ensures i == k {
        assert Live(m, tenant, cs[i]);
      }
      assert OnlyOpen(m, tenant, rateCard, cs, later, k);
    }
  }

  /** Adopting an open contract in such a state changes nothing. */
  lemma AdoptKeeps(m: Naming, tenant: string, rateCard: string, before: seq<Contract>, cs: seq<Contract>,
                   stuck: set<nat>, keep: Contract, today: int)
    requires Sequential(m, tenant, before, today) && keep in before && |cs| == |before|
    requires forall i :: 0 <= i < |before| ==> before[i].id == i
    requires Handed(m, tenant, rateCard, before, cs, stuck, keep, today)
    ensures cs == before && OneInForce(m, tenant, rateCard, cs, today)
  {
    hide ContractRateCard, RateCardToken;
    var k := keep.id;
    assert before[k] == keep && Live(m, tenant, before[k]);
    forall i | 0 <= i < |before| && i != k && Ours(m, tenant, before[i]) ensures !OpenAt(before[i], today) {
      if i < k && Live(m, tenant, before[i]) { assert Before(before[i], before[k]); }
    }
    assert OnlyOpen(m, tenant, rateCard, before, today, k);
  }

  /** A new contract from today on follows all the others, which end by then. */
  lemma CreateFollows(m: Naming, tenant: string, rateCard: string, before: seq<Contract>, cs: seq<Contract>,
                      keep: Contract, today: int)
    requires Sequential(m, tenant, before, today) && |cs| == |before| + 1 && cs[|before|] == keep
    requires keep == Contract(|before|, keep.key, today, None, false)
    requires Handed(m, tenant, rateCard, before, cs, {}, keep, today)
    ensures Sequential(m, tenant, cs, today) && OneInForce(m, tenant, rateCard, cs, today)
  {
    hide ContractRateCard, RateCardToken;
    var n := |before|;
    forall i | 0 <= i < n && Ours(m, tenant, cs[i]) ensures cs[i] == Closed(before[i], today) { }
    forall i, j | 0 <= i < j < |cs| && Live(m, tenant, cs[i]) && Live(m, tenant, cs[j]) ensures Before(cs[i], cs[j]) {
      assert Live(m, tenant, before[i]);
      if j < n { assert Before(before[i], before[j]); }
    }
    forall i | 0 <= i < |cs| && Live(m, tenant, cs[i])
      ensures cs[i].start <= today && (cs[i].ending.Some? ==> cs[i].ending.value <= today) {
      if i < n { assert Live(m, tenant, before[i]); }
    }
    assert OnlyOpen(m, tenant, rateCard, cs, today, n);
  }

  /** The state between the calls of a run in which every call completes or changes nothing. */
  ghost predicate Settled(m: Naming, tenant: string, s: State, today: int)
  {
    && s.world.store.Valid()
    && Sequential(m, tenant, s.world.store.contracts, today)
    && (tenant in s.current ==>
      s.current[tenant] != "" && OneInForce(m, tenant, s.current[tenant], s.world.store.contracts, today))
  }

  /** A call that completes with every end accepted, or leaves the store alone. */
  ghost predicate Smooth(s: State, s1: State, r: Result)
  {
    s1.world.store == s.world.store || (r.Done? && s1.world.stuck == {})
  }

  /** A call that completes or changes nothing keeps the state settled; success means one open contract, on the card. */
  lemma EnsureSettles(m: Naming, env: Remote, s: State, tenant: string, rateCard: string, now: Time, today: int)
    requires m.Valid() && env.Faithful() && env.Quiet() && rateCard != "" && Settled(m, tenant, s, today)
        && today <= Today(now)
    requires var (s1, r) := Ensure(m, env, s, tenant, rateCard, now); Smooth(s, s1, r)
    ensures var (s1, r) := Ensure(m, env, s, tenant, rateCard, now);
      && Settled(m, tenant, s1, Today(now))
      && (r.Done? || r.Cached? ==> OneInForce(m, tenant, rateCard, s1.world.store.contracts, Today(now)))
  {
    var later := Today(now);
    var (s1, r) := Ensure(m, env, s, tenant, rateCard, now);
    SequentialLater(m, tenant, s.world.store.contracts, today, later);
    if !IsCurrent(s, tenant, rateCard) {
      hide ContractRateCard, RateCardToken, Ensure, Sequential, OneInForce;
      EnsureShape(m, env, s, tenant, rateCard, now);
      EnsureQuiet(m, env, s, tenant, rateCard, now);
      if r.Done? {
        var before, cs := s.world.store.contracts, s1.world.store.contracts;
        if |cs| == |before| {
          AdoptKeeps(m, tenant, rateCard, before, cs, s1.world.stuck, r.keep, later);
        } else {
          CreateFollows(m, tenant, rateCard, before, cs, r.keep, later);
        }
      }
    }
  }

  datatype Op = EnsureOp(rateCard: string, now: Time) | Forget  // Forget: the adapter restarts with its state lost

  function Step(m: Naming, env: Remote, tenant: string, s: State, op: Op): (State, Result)
  {
    match op
    case EnsureOp(rateCard, now) => Ensure(m, env, s, tenant, rateCard, now)
    case Forget => (s.(current := s.current - {tenant}), ListFailed)
  }

  function Run(m: Naming, env: Remote, tenant: string, s: State, ops: seq<Op>): State
  {
    if ops == [] then s else Step(m, env, tenant, Run(m, env, tenant, s, ops[..|ops| - 1]), ops[|ops| - 1]).0
  }

  /** The last day a run has seen. */
  function Day(ops: seq<Op>, first: int): int
  {
    if ops == [] then first
    else if ops[|ops| - 1].EnsureOp? then Today(ops[|ops| - 1].now)
    else Day(ops[..|ops| - 1], first)
  }

  /** Rate cards are named, the clock does not go back, and every call completes or changes nothing. */
  ghost predicate SmoothRun(m: Naming, env: Remote, tenant: string, s: State, ops: seq<Op>, first: int)
  {
    ops != [] ==>
      var n := |ops| - 1;
      var before := Run(m, env, tenant, s, ops[..n]);
      && SmoothRun(m, env, tenant, s, ops[..n], first)
      && (ops[n].EnsureOp? ==>
           && ops[n].rateCard != "" && Day(ops[..n], first) <= Today(ops[n].now)
           && Smooth(before, Step(m, env, tenant, before, ops[n]).0, Step(m, env, tenant, before, ops[n]).1))
  }

  /** No contract of the tenant yet; those of others are welcome. */
  ghost predicate Untouched(m: Naming, tenant: string, s: State)
  {
    && s.world.store.Valid() && tenant !in s.current
    && forall c :: c in s.world.store.contracts ==> !Ours(m, tenant, c)
  }

  /** After such a run the state is settled, and success of the last call means exactly one contract is
      open: the one on the requested rate card. */
  lemma {:induction false} RunSettles(m: Naming, env: Remote, tenant: string, s: State, ops: seq<Op>, first: int)
    requires m.Valid() && env.Faithful() && env.Quiet() && Untouched(m, tenant, s)
        && SmoothRun(m, env, tenant, s, ops, first)
    ensures Settled(m, tenant, Run(m, env, tenant, s, ops), Day(ops, first))
    ensures ops != [] && ops[|ops| - 1].EnsureOp? ==>
      var op := ops[|ops| - 1]; var (s1, r) := Step(m, env, tenant, Run(m, env, tenant, s, ops[..|ops| - 1]), op);
      (r.Done? || r.Cached? ==> OneInForce(m, tenant, op.rateCard, s1.world.store.contracts, Today(op.now)))
  {
    hide Ensure, OneInForce, Sequential;
    if ops == [] {
      assert Sequential(m, tenant, s.world.store.contracts, first) by { NoneIsSequential(m, tenant, s, first); }
    } else {
      var n := |ops| - 1;
      RunSettles(m, env, tenant, s, ops[..n], first);
      var before := Run(m, env, tenant, s, ops[..n]);
      if ops[n].EnsureOp? {
        EnsureSettles(m, env, before, tenant, ops[n].rateCard, ops[n].now, Day(ops[..n], first));
      }
    }
  }

  lemma NoneIsSequential(m: Naming, tenant: string, s: State, first: int)
    requires Untouched(m, tenant, s)
    ensures Sequential(m, tenant, s.world.store.contracts, first)
  {
  }

  // ---- runs with interrupted calls ----

  /** The live contracts of the tenant have started by today, and those that have an end have ended. */
  ghost predicate Dated(m: Naming, tenant: string, cs: seq<Contract>, today: int)
  {
    forall i :: 0 <= i < |cs| && Live(m, tenant, cs[i]) ==> DatedBy(cs[i], today)
  }

  predicate DatedBy(c: Contract, today: int)
  {
    c.start <= today && (c.ending.Some? ==> c.ending.value <= today)
  }

  /** What a call on a day can do, completed or not: close contracts of the tenant there, and start one there. */
  ghost predicate Advances(m: Naming, tenant: string, before: seq<Contract>, cs: seq<Contract>, today: int)
  {
    && |before| <= |cs| <= |before| + 1
    && (forall i :: 0 <= i < |before| ==>
      cs[i] == before[i] || (Ours(m, tenant, before[i]) && cs[i] == Closed(before[i], today)))
    && (|cs| > |before| ==> cs[|before|] == Contract(|before|, cs[|before|].key, today, None, false))
  }

  lemma EnsureAdvances(m: Naming, env: Remote, s: State, tenant: string, rateCard: string, now: Time, today: int)
    requires m.Valid() && env.Faithful() && env.Quiet() && rateCard != "" && s.world.store.Valid()
        && !IsCurrent(s, tenant, rateCard)
    requires Dated(m, tenant, s.world.store.contracts, today) && today <= Today(now)
    ensures var (s1, r) := Ensure(m, env, s, tenant, rateCard, now);
      s1.world.store.Valid() && Advances(m, tenant, s.world.store.contracts, s1.world.store.contracts, Today(now))
  {
    hide ContractRateCard, List, TryKeys, EndOthers, Choose, OursOf, RateCardToken, LeavesOthers, Handed;
    var w0 := s.world.(stuck := {});
    var (w1, all) := List(env, w0);
    ListKeeps(env, w0);
    var before := s.world.store.contracts;
    if all.Some? {
      var later := Today(now);
      var keep := Choose(m, tenant, RateCardToken(m, rateCard), later, all.value);
      var used := KeysOf(all.value);
      forall c | c in before ensures c.key in used { assert c in all.value; }
      forall k | k in used ensures k in w1.store.used + {""} { }
      TryKeysQuiet(m, env, w1, tenant, rateCard, later, used, 1);
      TryKeysGrants(m, env, w1, tenant, rateCard, later, used, 1);
      var (w2, grant) := if keep.Some? then (w1, Kept(keep.value))
                         else TryKeys(m, env, w1, tenant, rateCard, later, used, 1);
      if grant.Kept? {
        assert grant.c.start <= later by {
          if keep.Some? { assert Live(m, tenant, before[grant.c.id]); }
        }
        EndStep(m, env, w2, before, all.value, tenant, rateCard, grant.c, later);
      }
    }
  }

  /** Two contracts of the tenant in force at the instant t. */
  ghost predicate TwoInForce(m: Naming, tenant: string, cs: seq<Contract>, t: int)
  {
    exists i: nat, j: nat :: i < j < |cs| && Both(m, tenant, cs, i, j, t)
  }

  predicate Both(m: Naming, tenant: string, cs: seq<Contract>, i: nat, j: nat, t: int)
    requires i < |cs| && j < |cs|
  {
    Ours(m, tenant, cs[i]) && Ours(m, tenant, cs[j]) && InForce(cs[i], t) && InForce(cs[j], t)
  }

  predicate Endless(m: Naming, tenant: string, c: Contract)
  {
    Live(m, tenant, c) && c.ending == None
  }

  /** Two contracts of the tenant without an end. */
  ghost predicate TwoOpen(m: Naming, tenant: string, cs: seq<Contract>)
  {
    exists i: nat, j: nat :: i < j < |cs| && Endless(m, tenant, cs[i]) && Endless(m, tenant, cs[j])
  }

  /** From the last day on, in force together means open together. */
  lemma OpenFromToday(m: Naming, tenant: string, cs: seq<Contract>, today: int, t: int)
    requires Dated(m, tenant, cs, today) && today <= t
    ensures TwoInForce(m, tenant, cs, t) <==> TwoOpen(m, tenant, cs)
  {
    hide Ours;
    if TwoInForce(m, tenant, cs, t) {
      var i: nat, j: nat :| i < j < |cs| && Both(m, tenant, cs, i, j, t);
      assert Live(m, tenant, cs[i]) && Live(m, tenant, cs[j]);
    }
    if TwoOpen(m, tenant, cs) {
      var i: nat, j: nat :| i < j < |cs| && Endless(m, tenant, cs[i]) && Endless(m, tenant, cs[j]);
      assert Both(m, tenant, cs, i, j, t);
    }
  }

  /** A call leaves what was in force before its day as it was. */
  lemma PastStays(m: Naming, tenant: string, before: seq<Contract>, cs: seq<Contract>, today: int, t: int)
    requires Advances(m, tenant, before, cs, today) && t < today
    ensures TwoInForce(m, tenant, cs, t) <==> TwoInForce(m, tenant, before, t)
  {
    hide ContractRateCard;
    if TwoInForce(m, tenant, cs, t) {
      var i: nat, j: nat :| i < j < |cs| && Both(m, tenant, cs, i, j, t);
      assert Both(m, tenant, before, i, j, t);
    }
    if TwoInForce(m, tenant, before, t) {
      var i: nat, j: nat :| i < j < |before| && Both(m, tenant, before, i, j, t);
      assert Both(m, tenant, cs, i, j, t);
    }
  }

  lemma AdvancesDated(m: Naming, tenant: string, before: seq<Contract>, cs: seq<Contract>, today: int, later: int)
    requires Dated(m, tenant, before, today) && today <= later && Advances(m, tenant, before, cs, later)
    ensures Dated(m, tenant, cs, later)
  {
    hide ContractRateCard;
    forall i | 0 <= i < |cs| && Live(m, tenant, cs[i]) ensures DatedBy(cs[i], later) {
      if i < |before| { assert Live(m, tenant, before[i]); }
    }
  }

  /** The clock does not go back and rate cards are named. */
  ghost predicate Clocked(ops: seq<Op>, first: int)
  {
    ops != [] ==>
      var n := |ops| - 1;
      Clocked(ops[..n], first)
        && (ops[n].EnsureOp? ==> ops[n].rateCard != "" && Day(ops[..n], first) <= Today(ops[n].now))
  }

  function ContractsAfter(m: Naming, env: Remote, tenant: string, s: State, ops: seq<Op>): seq<Contract>
  {
    Run(m, env, tenant, s, ops).world.store.contracts
  }

  lemma {:induction false} RunDates(m: Naming, env: Remote, tenant: string, s: State, ops: seq<Op>, first: int)
    requires m.Valid() && env.Faithful() && env.Quiet() && Untouched(m, tenant, s) && Clocked(ops, first)
    ensures Run(m, env, tenant, s, ops).world.store.Valid()
        && Dated(m, tenant, ContractsAfter(m, env, tenant, s, ops), Day(ops, first))
  {
    hide Ensure, Dated, Advances;
    if ops == [] {
      NoneDated(m, tenant, s, first);
    } else {
      var n := |ops| - 1;
      RunDates(m, env, tenant, s, ops[..n], first);
      StepAdvances(m, env, tenant, s, ops, first);
    }
  }

  lemma NoneDated(m: Naming, tenant: string, s: State, first: int)
    requires Untouched(m, tenant, s)
    ensures Dated(m, tenant, s.world.store.contracts, first)
    ensures forall t :: !TwoInForce(m, tenant, s.world.store.contracts, t)
  {
  }

  /** The last call of a run, whatever it is. */
  lemma StepAdvances(m: Naming, env: Remote, tenant: string, s: State, ops: seq<Op>, first: int)
    requires m.Valid() && env.Faithful() && env.Quiet() && ops != [] && Clocked(ops, first)
    requires var before := Run(m, env, tenant, s, ops[..|ops| - 1]);
      before.world.store.Valid() && Dated(m, tenant, before.world.store.contracts, Day(ops[..|ops| - 1], first))
    ensures var before := ContractsAfter(m, env, tenant, s, ops[..|ops| - 1]);
        var cs := ContractsAfter(m, env, tenant, s, ops);
      && Run(m, env, tenant, s, ops).world.store.Valid()
      && (ops[|ops| - 1].EnsureOp? ==> Advances(m, tenant, before, cs, Today(ops[|ops| - 1].now)))
      && (!ops[|ops| - 1].EnsureOp? ==> cs == before)
      && Dated(m, tenant, cs, Day(ops, first))
  {
    hide Ensure, Dated, Advances;
    var n := |ops| - 1;
    var before := Run(m, env, tenant, s, ops[..n]);
    if ops[n].EnsureOp? {
      if IsCurrent(before, tenant, ops[n].rateCard) {
        CurrentIsCached(m, env, before, tenant, ops[n].rateCard, ops[n].now);
        SameAdvances(m, tenant, before.world.store.contracts, Today(ops[n].now));
      } else {
        EnsureAdvances(m, env, before, tenant, ops[n].rateCard, ops[n].now, Day(ops[..n], first));
      }
      AdvancesDated(m, tenant, before.world.store.contracts, ContractsAfter(m, env, tenant, s, ops),
          Day(ops[..n], first), Today(ops[n].now));
    }
  }

  lemma SameAdvances(m: Naming, tenant: string, cs: seq<Contract>, today: int)
    ensures Advances(m, tenant, cs, cs, today)
  {
  }

  /** Every call from the n-th on comes on a day after t. */
  ghost predicate After(ops: seq<Op>, n: nat, t: int)
  {
    forall k :: n <= k < |ops| && ops[k].EnsureOp? ==> t < Today(ops[k].now)
  }

  /** Over every run, with calls interrupted anywhere and repeated or not: what is in force together at an
      instant is settled by the calls up to its day, and no later call changes it. */
  lemma {:induction false} RunOverlaps(m: Naming, env: Remote, tenant: string, s: State, ops: seq<Op>, first: int,
                                       n: nat, t: int)
    requires m.Valid() && env.Faithful() && env.Quiet() && Untouched(m, tenant, s) && Clocked(ops, first)
    requires n <= |ops| && After(ops, n, t)
    ensures TwoInForce(m, tenant, ContractsAfter(m, env, tenant, s, ops), t)
      <==> TwoInForce(m, tenant, ContractsAfter(m, env, tenant, s, ops[..n]), t)
    decreases |ops|
  {
    hide Ensure, Dated, Advances, TwoInForce;
    if n == |ops| {
      assert ops[..n] == ops;
    } else {
      var k := |ops| - 1;
      assert ops[..k][..n] == ops[..n];
      RunOverlaps(m, env, tenant, s, ops[..k], first, n, t);
      RunDates(m, env, tenant, s, ops[..k], first);
      StepAdvances(m, env, tenant, s, ops, first);
      if ops[k].EnsureOp? {
        PastStays(m, tenant, ContractsAfter(m, env, tenant, s, ops[..k]), ContractsAfter(m, env, tenant, s, ops),
            Today(ops[k].now), t);
      }
    }
  }

  /** The calls of the run up to the n-th end a day: every later one comes on a later day. */
  ghost predicate EndsDay(ops: seq<Op>, n: nat, first: int)
    requires n <= |ops|
  {
    After(ops, n, Day(ops[..n], first))
  }

  /** The longest part of a run whose last day is not after t. */
  function UpToDay(ops: seq<Op>, first: int, t: int): (n: nat)
    ensures n <= |ops|
    ensures n > 0 ==> Day(ops[..n], first) <= t
  {
    if ops == [] then 0
    else if Day(ops, first) <= t then
      assert ops[..|ops|] == ops;
      |ops|
    else
      var n := UpToDay(ops[..|ops| - 1], first, t);
      assert ops[..|ops| - 1][..n] == ops[..n];
      n
  }

  lemma {:induction false} ClockedPrefix(ops: seq<Op>, first: int, n: nat)
    requires Clocked(ops, first) && n <= |ops|
    ensures Clocked(ops[..n], first)
    ensures Day(ops[..n], first) <= Day(ops, first)
    decreases |ops|
  {
    if n == |ops| {
      assert ops[..n] == ops;
    } else {
      assert ops[..|ops| - 1][..n] == ops[..n];
      ClockedPrefix(ops[..|ops| - 1], first, n);
    }
  }

  lemma {:induction false} UpToDayIs(ops: seq<Op>, first: int, t: int)
    ensures After(ops, UpToDay(ops, first, t), t)
  {
    if ops != [] && Day(ops, first) > t {
      var k := |ops| - 1;
      UpToDayIs(ops[..k], first, t);
      var n := UpToDay(ops, first, t);
      forall i | n <= i < |ops| && ops[i].EnsureOp? ensures t < Today(ops[i].now) {
        if i < k { assert ops[..k][i] == ops[i]; }
      }
    }
  }

  /** The last call of a day leaves two contracts open. */
  ghost predicate DayEndsWithTwo(m: Naming, env: Remote, tenant: string, s: State, ops: seq<Op>, first: int, n: nat)
    requires n <= |ops|
  {
    EndsDay(ops, n, first) && TwoOpen(m, tenant, ContractsAfter(m, env, tenant, s, ops[..n]))
  }

  /** The contracts of a tenant that are not archived are pairwise never in force together exactly when
      every day of the run ends with at most one of them open: a call that is interrupted after it created
      a contract does no harm if it is repeated to its end on the same day, and otherwise the contracts
      overlap from that day on until a later call completes. Any run without another replica is covered:
      lost replies, failures and restarts that lose the adapter's state fall anywhere. */
  lemma RunStaysDisjoint(m: Naming, env: Remote, tenant: string, s: State, ops: seq<Op>, first: int)
    requires m.Valid() && env.Faithful() && env.Quiet() && Untouched(m, tenant, s) && Clocked(ops, first)
    ensures (forall t :: !TwoInForce(m, tenant, ContractsAfter(m, env, tenant, s, ops), t))
      <==> forall n: nat :: n <= |ops| ==> !DayEndsWithTwo(m, env, tenant, s, ops, first, n)
  {
    hide ContractsAfter, TwoInForce, TwoOpen, Dated, After;
    if n: nat :| n <= |ops| && DayEndsWithTwo(m, env, tenant, s, ops, first, n) {
      var t := Day(ops[..n], first);
      OverlapAt(m, env, tenant, s, ops, first, n, t);
    }
    if t :| TwoInForce(m, tenant, ContractsAfter(m, env, tenant, s, ops), t) {
      var n := UpToDay(ops, first, t);
      UpToDayIs(ops, first, t);
      if n == 0 {
        RunOverlaps(m, env, tenant, s, ops, first, 0, t);
        NothingYet(m, env, tenant, s, ops, t);
      } else {
        OverlapAt(m, env, tenant, s, ops, first, n, t);
        EarlierDay(ops, n, first, t);
        assert DayEndsWithTwo(m, env, tenant, s, ops, first, n);
      }
    }
  }

  /** Exactly the overlap: on the span from one day of the run to the next, two contracts are in force
      together for good exactly when the calls up to that day leave two open. */
  lemma OverlapAt(m: Naming, env: Remote, tenant: string, s: State, ops: seq<Op>, first: int, n: nat, t: int)
    requires m.Valid() && env.Faithful() && env.Quiet() && Untouched(m, tenant, s) && Clocked(ops, first)
    requires n <= |ops| && Day(ops[..n], first) <= t && After(ops, n, t)
    ensures TwoInForce(m, tenant, ContractsAfter(m, env, tenant, s, ops), t)
      <==> TwoOpen(m, tenant, ContractsAfter(m, env, tenant, s, ops[..n]))
  {
    hide ContractsAfter, TwoInForce, TwoOpen, Dated, After, Run;
    RunOverlaps(m, env, tenant, s, ops, first, n, t);
    ClockedPrefix(ops, first, n);
    RunDates(m, env, tenant, s, ops[..n], first);
    OpenFromToday(m, tenant, ContractsAfter(m, env, tenant, s, ops[..n]), Day(ops[..n], first), t);
  }

  lemma NothingYet(m: Naming, env: Remote, tenant: string, s: State, ops: seq<Op>, t: int)
    requires Untouched(m, tenant, s)
    ensures !TwoInForce(m, tenant, ContractsAfter(m, env, tenant, s, ops[..0]), t)
  {
    assert ops[..0] == [];
    NoneDated(m, tenant, s, 0);
  }

  lemma EarlierDay(ops: seq<Op>, n: nat, first: int, t: int)
    requires n <= |ops| && After(ops, n, t) && Day(ops[..n], first) <= t
    ensures EndsDay(ops, n, first)
  {
  }

  /** An uncached call that completes, with no end refused, leaves exactly one contract open, on the
      requested card, whatever was open before; so it settles its day unless another is interrupted after it. */
  lemma CompletionSettles(m: Naming, env: Remote, s: State, tenant: string, rateCard: string, now: Time, today: int)
    requires m.Valid() && env.Faithful() && env.Quiet() && rateCard != "" && s.world.store.Valid()
        && !IsCurrent(s, tenant, rateCard)
    requires Dated(m, tenant, s.world.store.contracts, today) && today <= Today(now)
    ensures var (s1, r) := Ensure(m, env, s, tenant, rateCard, now); var cs := s1.world.store.contracts;
      (r.Done? && s1.world.stuck == {} ==> OneInForce(m, tenant, rateCard, cs, Today(now)) && !TwoOpen(m, tenant, cs))
  {
    hide ContractRateCard, Ensure, RateCardToken, OneInForce;
    EnsureShape(m, env, s, tenant, rateCard, now);
    EnsureQuiet(m, env, s, tenant, rateCard, now);
    var (s1, r) := Ensure(m, env, s, tenant, rateCard, now);
    if r.Done? && s1.world.stuck == {} {
      OthersClosed(m, tenant, rateCard, s.world.store.contracts, s1.world.store.contracts, r.keep, today, Today(now));
    }
  }

  /** A change of rate card that is interrupted, and a later uncached call that completes with no end refused.
      From the day of the interrupted call on, the tenant's contracts are in force together at exactly the
      instants before the day of the completing call, if the interrupted call left two open; nothing else
      changes. So the interruption does no harm exactly when it left at most one open, or is made good on the
      same day. */
  lemma InterruptedSpan(m: Naming, env: Remote, s: State, tenant: string, card1: string, now1: Time,
                        card2: string, now2: Time, today: int, t: int)
    requires m.Valid() && env.Faithful() && env.Quiet() && card1 != "" && card2 != "" && s.world.store.Valid()
    requires Dated(m, tenant, s.world.store.contracts, today) && today <= Today(now1) <= Today(now2)
    requires !IsCurrent(s, tenant, card1) && !IsCurrent(Ensure(m, env, s, tenant, card1, now1).0, tenant, card2)
    requires var (s2, r2) := Ensure(m, env, Ensure(m, env, s, tenant, card1, now1).0, tenant, card2, now2);
      r2.Done? && s2.world.stuck == {}
    ensures var s1 := Ensure(m, env, s, tenant, card1, now1).0; var s2 := Ensure(m, env, s1, tenant, card2, now2).0;
      TwoInForce(m, tenant, s2.world.store.contracts, t) <==>
        if t < Today(now1) then TwoInForce(m, tenant, s.world.store.contracts, t)
        else t < Today(now2) && TwoOpen(m, tenant, s1.world.store.contracts)
  {
    hide Ensure, Dated, Advances, TwoInForce, TwoOpen, IsCurrent, OneInForce;
    EnsureAdvances(m, env, s, tenant, card1, now1, today);
    var s1 := Ensure(m, env, s, tenant, card1, now1).0;
    var cs0, cs1 := s.world.store.contracts, s1.world.store.contracts;
    AdvancesDated(m, tenant, cs0, cs1, today, Today(now1));
    EnsureAdvances(m, env, s1, tenant, card2, now2, Today(now1));
    CompletionSettles(m, env, s1, tenant, card2, now2, Today(now1));
    var cs2 := Ensure(m, env, s1, tenant, card2, now2).0.world.store.contracts;
    AdvancesDated(m, tenant, cs1, cs2, Today(now1), Today(now2));
    if t < Today(now1) {
      PastStays(m, tenant, cs0, cs1, Today(now1), t);
      PastStays(m, tenant, cs1, cs2, Today(now2), t);
    } else if t < Today(now2) {
      PastStays(m, tenant, cs1, cs2, Today(now2), t);
      OpenFromToday(m, tenant, cs1, Today(now1), t);
    } else {
      OpenFromToday(m, tenant, cs2, Today(now2), t);
    }
  }

  lemma OthersClosed(m: Naming, tenant: string, rateCard: string, before: seq<Contract>, cs: seq<Contract>,
                     keep: Contract, today: int, later: int)
    requires Dated(m, tenant, before, today) && today <= later && forall i :: 0 <= i < |before| ==> before[i].id == i
    requires Handed(m, tenant, rateCard, before, cs, {}, keep, later)
        && KeptOf(m, tenant, rateCard, before, cs, keep, later)
    ensures OneInForce(m, tenant, rateCard, cs, later) && !TwoOpen(m, tenant, cs)
  {
    hide ContractRateCard, RateCardToken;
    assert keep.start <= later by { if keep in before { assert Live(m, tenant, before[keep.id]); } }
    forall i | 0 <= i < |cs| && i != keep.id && Ours(m, tenant, cs[i]) ensures !OpenAt(cs[i], later) {
      assert cs[i] == Closed(before[i], later);
      ClosedIsClosed(before[i], later);
    }
    assert OnlyOpen(m, tenant, rateCard, cs, later, keep.id);
  }

  /** Over every run at all, with any failures, lost replies and other replicas: contracts under foreign
      keys stay exactly as they are, nothing disappears, and its own contracts are only shortened. */
  lemma {:induction false} RunLeavesOthers(m: Naming, env: Remote, tenant: string, s: State, ops: seq<Op>)
    requires m.Valid() && env.Faithful() && s.world.store.Valid()
    requires forall i :: 0 <= i < |ops| && ops[i].EnsureOp? ==> ops[i].rateCard != ""
    ensures var s1 := Run(m, env, tenant, s, ops);
      s1.world.store.Valid() && LeavesOthers(m, tenant, s.world.store.contracts, s1.world.store.contracts)
  {
    hide Ensure, LeavesOthers, Found;
    PrefixLeaves(m, tenant, s.world.store.contracts, s.world.store.contracts);
    if ops != [] {
      var n := |ops| - 1;
      RunLeavesOthers(m, env, tenant, s, ops[..n]);
      var before := Run(m, env, tenant, s, ops[..n]);
      if ops[n].EnsureOp? && !IsCurrent(before, tenant, ops[n].rateCard) {
        EnsureShape(m, env, before, tenant, ops[n].rateCard, ops[n].now);
        var base, after := Found(env, before), Run(m, env, tenant, s, ops).world.store.contracts;
        PrefixLeaves(m, tenant, before.world.store.contracts, base);
        LeavesTrans(m, tenant, before.world.store.contracts, base, after);
        LeavesTrans(m, tenant, s.world.store.contracts, before.world.store.contracts, after);
      } else {
        assert Run(m, env, tenant, s, ops).world == before.world by { CachedSame(m, env, before, tenant, ops[n]); }
      }
    }
  }

  lemma CachedSame(m: Naming, env: Remote, s: State, tenant: string, op: Op)
    requires op.EnsureOp? ==> IsCurrent(s, tenant, op.rateCard)
    ensures Step(m, env, tenant, s, op).0.world == s.world
  {
  }

  // ---- repeating a call ----

  lemma {:induction false} NothingToEnd(env: Remote, w: World, ours: seq<Contract>, keep: nat, at: int)
    requires forall c :: c in ours && c.id != keep ==> !OpenAt(c, at)
    ensures EndOthers(env, w, ours, keep, at) == (w, true)
    decreases |ours|
  {
    if ours != [] {
      assert ours == [ours[0]] + ours[1..];
      NothingToEnd(env, w, ours[1..], keep, at);
    }
  }

  /** A restarted or second replica adopts the open contract: nothing is created, ended or archived. */
  lemma Adopts(m: Naming, env: Remote, s: State, tenant: string, rateCard: string, now: Time, today: int)
    requires m.Valid() && env.Faithful() && env.Quiet() && rateCard != "" && s.world.store.Valid()
        && !IsCurrent(s, tenant, rateCard)
    requires Sequential(m, tenant, s.world.store.contracts, today)
        && OneInForce(m, tenant, rateCard, s.world.store.contracts, today)
    requires today <= Today(now) && env.reply(s.world.calls).Answered?
    ensures var (s1, r) := Ensure(m, env, s, tenant, rateCard, now); r.Done? && s1.world.store == s.world.store
  {
    hide ContractRateCard, RateCardToken, List, EndOthers, TryKeys, Choose, OursOf, Sequential;
    var cs, later := s.world.store.contracts, Today(now);
    SequentialLater(m, tenant, cs, today, later);
    var k: nat :| k < |cs| && OnlyOpen(m, tenant, rateCard, cs, later, k);
    var w0 := s.world.(stuck := {});
    ListKeeps(env, w0);
    var (w1, all) := List(env, w0);
    var token := RateCardToken(m, rateCard);
    assert cs[k] in all.value && Candidate(m, tenant, token, later, cs[k]);
    var keep := Choose(m, tenant, token, later, all.value);
    assert keep.value in cs;
    assert cs[k].start <= later by { LiveStarted(m, tenant, cs, today, k); }
    NothingToEnd(env, w1, OursOf(m, tenant, all.value), keep.value.id, later);
  }

  lemma LiveStarted(m: Naming, tenant: string, cs: seq<Contract>, today: int, k: nat)
    requires Sequential(m, tenant, cs, today) && k < |cs| && Live(m, tenant, cs[k])
    ensures cs[k].start <= today
  {
  }

  /** A rate card can be taken up nine times a day: with an API that answers, createContract fails, and
      for good, exactly when the day's nine keys are all used up; otherwise it takes the first free one. */
  lemma NineKeysADay(m: Naming, env: Remote, w: World, tenant: string, rateCard: string, start: Time)
    requires m.Valid() && env.Faithful() && env.Quiet() && env.AlwaysAnswers() && w.store.Valid() && rateCard != ""
    ensures var (w1, grant) := TryKeys(m, env, w, tenant, rateCard, start, KeysOf(w.store.contracts), 1);
      && (grant.Exhausted? <==> forall k :: 1 <= k <= 9 ==> Key(m, tenant, rateCard, start, k) in w.store.used)
      && (!grant.Exhausted? ==> grant.Kept? && Added(w.store.contracts, w1.store.contracts, grant.c, start))
      && (!grant.Exhausted? ==>
            exists k :: 1 <= k <= 9 && FirstFree(m, w.store, tenant, rateCard, start, 1, k)
              && grant.c.key == Key(m, tenant, rateCard, start, k))
  {
    hide Key, TryKeys;
    var used := KeysOf(w.store.contracts);
    forall k | k in used ensures k in w.store.used + {""} { }
    TryKeysQuiet(m, env, w, tenant, rateCard, start, used, 1);
    TryKeysGrants(m, env, w, tenant, rateCard, start, used, 1);
    var grant := TryKeys(m, env, w, tenant, rateCard, start, used, 1).1;
    assert !grant.Failed? && !grant.TooLong?;
  }

  // ---- where the code slips ----

  /** A change of rate card that fails half-way and is then taken back. The old card is still the one
      remembered, so ensureContract returns success without a call; only the old card's contract is then
      open exactly when the failed change had created no contract. */
  lemma ChangeTakenBack(m: Naming, env: Remote, s: State, tenant: string, a: string, b: string, now: Time, after: Time,
                        today: int)
    requires m.Valid() && env.Faithful() && env.Quiet() && a != "" && b != ""
        && RateCardToken(m, a) != RateCardToken(m, b)
    requires Settled(m, tenant, s, today) && IsCurrent(s, tenant, a) && today <= Today(now) <= Today(after)
    requires !Ensure(m, env, s, tenant, b, now).1.Done?
    ensures var s1 := Ensure(m, env, s, tenant, b, now).0; var (s2, r2) := Ensure(m, env, s1, tenant, a, after);
      && r2 == Cached && s2 == s1
      && (OneInForce(m, tenant, a, s2.world.store.contracts, Today(after)) <==>
        |s2.world.store.contracts| == |s.world.store.contracts|)
  {
    hide ContractRateCard, RateCardToken, Ensure, Sequential, OnlyOpen;
    var (s1, r1) := Ensure(m, env, s, tenant, b, now);
    EnsureShape(m, env, s, tenant, b, now);
    EnsureQuiet(m, env, s, tenant, b, now);
    CurrentIsCached(m, env, s1, tenant, a, after);
    var before, cs := s.world.store.contracts, s1.world.store.contracts;
    SequentialLater(m, tenant, before, today, Today(now));
    SequentialLater(m, tenant, before, today, Today(after));
    NoOtherCandidate(m, tenant, a, b, before, Today(now));
    if |cs| == |before| + 1 { NewIsOpen(m, tenant, a, b, before, cs, Today(after)); }
  }

  lemma CurrentIsCached(m: Naming, env: Remote, s: State, tenant: string, rateCard: string, now: Time)
    requires IsCurrent(s, tenant, rateCard)
    ensures Ensure(m, env, s, tenant, rateCard, now) == (s, Cached)
  {
  }

  lemma NewIsOpen(m: Naming, tenant: string, a: string, b: string, before: seq<Contract>, cs: seq<Contract>, today: int)
    requires |cs| == |before| + 1 && NewOurs(m, tenant, b, before, cs) && RateCardToken(m, a) != RateCardToken(m, b)
    ensures !OneInForce(m, tenant, a, cs, today)
  {
    hide ContractRateCard, RateCardToken;
    assert Ours(m, tenant, cs[|before|]) && OpenAt(cs[|before|], today);
  }

  lemma NoOtherCandidate(m: Naming, tenant: string, a: string, b: string, cs: seq<Contract>, today: int)
    requires OneInForce(m, tenant, a, cs, today) && RateCardToken(m, a) != RateCardToken(m, b)
    ensures !exists c :: c in cs && Candidate(m, tenant, RateCardToken(m, b), today, c)
  {
    hide ContractRateCard, RateCardToken;
  }

  const NAMES: Naming := Naming((_: string) => "0123456789abcdef", (_: Time) => "2026-10-05")
  const THIRD_CALL_LOST: Remote :=
    Remote((n: nat) => if n == 2 then Lost(false) else Answered, (n: nat) => None, (n: nat, cs: seq<Contract>) => cs)

  /** Tenant acme on rate card payg since the first day. */
  function OnPayg(): State
  {
    var key := Key(NAMES, "acme", "payg", 0, 1);
    State(World(Store([Contract(0, key, 0, None, false)], {key}), 0, {}), map["acme" := "payg"])
  }

  const PAYG: Contract := Contract(0, Key(NAMES, "acme", "payg", 0, 1), 0, None, false)
  const COMMITTED: Contract := Contract(1, Key(NAMES, "acme", "committed", DAY, 1), DAY, None, false)

  function AfterFailure(): State
  {
    State(World(Store([PAYG, COMMITTED], {PAYG.key, COMMITTED.key}), 3, {}), map["acme" := "payg"])
  }

  lemma KeysOfCards()
    ensures ContractRateCard(NAMES, PAYG.key, "acme") == "payg"
        && ContractRateCard(NAMES, COMMITTED.key, "acme") == "committed"
    ensures PAYG.key != COMMITTED.key && |COMMITTED.key| <= MAX_KEY
  {
    hide ContractRateCard, Key;
    KeyRoundTrip(NAMES, "acme", "payg", 0, 1, "acme");
    KeyRoundTrip(NAMES, "acme", "committed", DAY, 1, "acme");
    KeysDistinct(NAMES, "acme", "payg", 0, 1, "acme", "committed", DAY, 1);
  }

  /** The change creates its contract and then loses the call that would end the old one. */
  lemma ChangeFails()
    ensures Ensure(NAMES, THIRD_CALL_LOST, OnPayg(), "acme", "committed", DAY) == (AfterFailure(), EndFailed)
  {
    hide ContractRateCard, Key;
    var s := OnPayg();
    KeysOfCards();
    DayStarts();
    var (w1, all) := List(THIRD_CALL_LOST, s.world);
    assert all == Some([PAYG]) && KeysOf([PAYG]) == {PAYG.key};
    assert [PAYG][..0] == [] && OursOf(NAMES, "acme", [PAYG]) == [PAYG];
    assert Choose(NAMES, "acme", "committed", DAY, [PAYG]) == None;
    var (w2, grant) := TryKeys(NAMES, THIRD_CALL_LOST, w1, "acme", "committed", DAY, {PAYG.key}, 1);
    assert grant == Kept(COMMITTED) && w2.store == AfterFailure().world.store && w2.calls == 2;
    assert EndOthers(THIRD_CALL_LOST, w2, [PAYG], 1, DAY) == (AfterFailure().world, false);
  }

  /** The slip happens: the change is taken back, and both contracts stay in force although
      ensureContract reports success. */
  lemma ChangeTakenBackSlips()
    ensures var (s1, r1) := Ensure(NAMES, THIRD_CALL_LOST, OnPayg(), "acme", "committed", DAY);
      var (s2, r2) := Ensure(NAMES, THIRD_CALL_LOST, s1, "acme", "payg", DAY); var cs := s2.world.store.contracts;
      && r1 == EndFailed && r2 == Cached && |cs| == 2
      && Ours(NAMES, "acme", cs[0]) && Ours(NAMES, "acme", cs[1]) && InForce(cs[0], DAY) && InForce(cs[1], DAY)
  {
    hide ContractRateCard, Key, Ensure;
    KeysOfCards();
    ChangeFails();
    CurrentIsCached(NAMES, THIRD_CALL_LOST, AfterFailure(), "acme", "payg", DAY);
  }

  /** The same change repeated the next day completes with nothing refused, and yet both contracts stay
      in force on exactly the day before, for good. */
  lemma RepeatedNextDay()
    ensures var s1 := Ensure(NAMES, THIRD_CALL_LOST, OnPayg(), "acme", "committed", DAY).0;
      var (s2, r2) := Ensure(NAMES, THIRD_CALL_LOST, s1, "acme", "committed", 2 * DAY);
          var cs := s2.world.store.contracts;
      && r2.Done? && s2.world.stuck == {} && |cs| == 2
      && forall t :: TwoInForce(NAMES, "acme", cs, t) <==> DAY <= t < 2 * DAY
  {
    hide ContractRateCard, Key, Ensure, TwoInForce;
    ChangeFails();
    NextDayCompletes();
    var s2 := Ensure(NAMES, THIRD_CALL_LOST, AfterFailure(), "acme", "committed", 2 * DAY).0;
    forall t ensures TwoInForce(NAMES, "acme", s2.world.store.contracts, t) <==> DAY <= t < 2 * DAY {
      OneDayTogether(t);
    }
  }

  lemma NextDayCompletes()
    ensures var (s2, r2) := Ensure(NAMES, THIRD_CALL_LOST, AfterFailure(), "acme", "committed", 2 * DAY);
      r2 == Done(COMMITTED) && s2.world.store.contracts == [PAYG.(ending := Some(2 * DAY)), COMMITTED]
          && s2.world.stuck == {}
  {
    hide ContractRateCard, Key;
    var s := AfterFailure();
    var cs := [PAYG, COMMITTED];
    KeysOfCards();
    DayStarts();
    var (w1, all) := List(THIRD_CALL_LOST, s.world);
    assert all == Some(cs);
    assert cs[..1] == [PAYG] && [PAYG][..0] == [];
    assert OursOf(NAMES, "acme", [PAYG]) == [PAYG] && OursOf(NAMES, "acme", cs) == cs;
    assert Choose(NAMES, "acme", "committed", 2 * DAY, [PAYG]) == None;
    assert Choose(NAMES, "acme", "committed", 2 * DAY, cs) == Some(COMMITTED);
    assert cs[1..] == [COMMITTED] && [COMMITTED][1..] == [];
    var (w2, reply) := End(THIRD_CALL_LOST, w1, 0, 2 * DAY);
    assert w2.store.contracts == [PAYG.(ending := Some(2 * DAY)), COMMITTED] && reply == Answered;
    assert EndOthers(THIRD_CALL_LOST, w2, [COMMITTED], 1, 2 * DAY) == (w2, true);
    assert EndOthers(THIRD_CALL_LOST, w1, cs, 1, 2 * DAY) == (w2, true);
  }

  lemma OneDayTogether(t: int)
    ensures TwoInForce(NAMES, "acme", [PAYG.(ending := Some(2 * DAY)), COMMITTED], t) <==> DAY <= t < 2 * DAY
  {
    hide ContractRateCard, Key;
    KeysOfCards();
    var cs := [PAYG.(ending := Some(2 * DAY)), COMMITTED];
    assert Both(NAMES, "acme", cs, 0, 1, t) <==> DAY <= t < 2 * DAY;
  }

  lemma DayStarts()
    ensures Today(DAY) == DAY && Today(2 * DAY) == 2 * DAY
  {
    assert DAY % DAY == 0;
    Windows.MultipleIs(2, DAY);
  }
}
