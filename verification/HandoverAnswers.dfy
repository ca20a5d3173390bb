/** What one call of ensureContract answers, and why: the rate card of the contract it keeps, the instants its
    other contracts are in force afterwards, the replies that make it fail, and a contract another replica
    created a moment before (internal/destinations/metronome/adapter.go). */
module HandoverAnswers {
  import opened Usage
  import opened Contracts
  import opened Handover
  import opened HandoverRuns

  // ---- the rate card ----

  /** A completed call for one rate card does not keep a contract made for another, and ends those it found,
      unless one token stands for both cards. */
  lemma KeepsItsCard(m: Naming, env: Remote, s: State, tenant: string, a: string, b: string, now: Time)
    requires m.Valid() && env.Faithful() && s.world.store.Valid() && a != "" && b != "" && !IsCurrent(s, tenant, b)
    requires a != b && !ConfusedCards(m, a, b)
    ensures var (s1, r) := Ensure(m, env, s, tenant, b, now); var base := Found(env, s);
      var cs := s1.world.store.contracts;
      (r.Done? ==>
        && !MadeFor(m, tenant, a, r.keep.key) && OpenAt(r.keep, Today(now))
        && |base| <= |cs|
        && forall i :: 0 <= i < |base| && MadeFor(m, tenant, a, base[i].key) && i !in s1.world.stuck ==>
             !OpenAt(cs[i], TakeOver(r.keep, Today(now))))
  {
    hide ContractRateCard, Ensure, MadeFor, RateCardToken, Key, LeavesOthers;
    EnsureShape(m, env, s, tenant, b, now);
    var (s1, r) := Ensure(m, env, s, tenant, b, now);
    var base, cs := Found(env, s), s1.world.store.contracts;
    if r.Done? {
      if MadeFor(m, tenant, a, r.keep.key) { OtherCardsKey(m, tenant, a, b, r.keep.key); }
      var at := TakeOver(r.keep, Today(now));
      forall i | 0 <= i < |base| && MadeFor(m, tenant, a, base[i].key) && i !in s1.world.stuck
        ensures !OpenAt(cs[i], at) {
        MadeForReads(m, tenant, a, base[i].key);
        OtherCardsKey(m, tenant, a, b, base[i].key);
        ClosedIsClosed(base[i], at);
      }
    }
  }

  /** An open contract made for the rate card is kept rather than a new one created, and the one that started
      first of several. */
  lemma KeepsWhatIsThere(m: Naming, env: Remote, s: State, tenant: string, rateCard: string, now: Time, c: Contract)
    requires m.Valid() && env.Faithful() && env.Quiet() && s.world.store.Valid() && rateCard != ""
    requires !IsCurrent(s, tenant, rateCard)
    requires c in s.world.store.contracts && MadeFor(m, tenant, rateCard, c.key) && OpenAt(c, Today(now))
    ensures var (s1, r) := Ensure(m, env, s, tenant, rateCard, now);
      (r.Done? ==>
        && r.keep in s.world.store.contracts && r.keep.start <= c.start
        && |s1.world.store.contracts| == |s.world.store.contracts|)
  {
    hide ContractRateCard, Ensure, MadeFor, RateCardToken;
    MadeForReads(m, tenant, rateCard, c.key);
    EnsureQuiet(m, env, s, tenant, rateCard, now);
    assert Candidate(m, tenant, RateCardToken(m, rateCard), Today(now), c);
  }

  // ---- the instants ----

  lemma ClosedInForce(c: Contract, at: int, t: int)
    ensures InForce(Closed(c, at), t) <==> InForce(c, t) && t < at
  {
  }

  /** A completed call leaves each other contract of the tenant it found in force exactly as long as it was,
      but no longer than to the start of the kept contract, or to today if that started before: no instant is
      taken from before the takeover, and none is left behind it. */
  lemma HandsOverExactly(m: Naming, env: Remote, s: State, tenant: string, rateCard: string, now: Time, i: nat, t: int)
    requires m.Valid() && env.Faithful() && s.world.store.Valid() && rateCard != "" && !IsCurrent(s, tenant, rateCard)
    requires i < |Found(env, s)| && Ours(m, tenant, Found(env, s)[i])
    ensures var (s1, r) := Ensure(m, env, s, tenant, rateCard, now);
      (r.Done? && i != r.keep.id && i !in s1.world.stuck ==>
        && i < |s1.world.store.contracts|
        && (InForce(s1.world.store.contracts[i], t)
            <==> InForce(Found(env, s)[i], t) && (t < r.keep.start || t < Today(now))))
  {
    hide ContractRateCard, Ensure, LeavesOthers;
    EnsureShape(m, env, s, tenant, rateCard, now);
    var (s1, r) := Ensure(m, env, s, tenant, rateCard, now);
    if r.Done? { ClosedInForce(Found(env, s)[i], TakeOver(r.keep, Today(now)), t); }
  }

  // ---- the replies ----

  /** A call made between the two worlds was lost. */
  ghost predicate SomeLost(env: Remote, w: World, w1: World)
  {
    exists n: nat :: w.calls <= n < w1.calls && env.reply(n).Lost?
  }

  ghost predicate AllAnswered(env: Remote, w: World, w1: World)
  {
    forall n: nat :: w.calls <= n < w1.calls ==> env.reply(n).Answered?
  }

  /** The requests of endOtherContracts: it stops exactly at one that is lost, and gives up on a contract
      exactly when a request is refused. */
  lemma {:induction false} EndOthersAnswers(env: Remote, w: World, base: seq<Contract>, ours: seq<Contract>, keep: nat,
                                            at: int)
    requires w.store.Valid() && Closing(base, w.store.contracts, at)
    requires forall c :: c in ours ==> c.id < |base| && c == base[c.id]
    ensures var (w1, ok) := EndOthers(env, w, ours, keep, at);
      && w.calls <= w1.calls && w.stuck <= w1.stuck
      && (!ok <==> SomeLost(env, w, w1))
      && (AllAnswered(env, w, w1) ==> ok && w1.stuck == w.stuck)
      && (ok && w1.stuck == {} ==> AllAnswered(env, w, w1))
    decreases |ours|
  {
    hide End, Archive;
    if ours != [] {
      var c := ours[0];
      assert ours == [c] + ours[1..];
      if c.id == keep || !OpenAt(c, at) {
        EndOthersAnswers(env, w, base, ours[1..], keep, at);
      } else {
        CloseOne(env, w, base, c, at);
        ClosedIsClosed(c, at);
        OneCall(env, w, c, at);
        var (w1, reply) := if c.start < at then End(env, w, c.id, at) else Archive(env, w, c.id);
        match reply {
          case Lost(_) => assert env.reply(w.calls).Lost?;
          case Answered => EndOthersAnswers(env, w1, base, ours[1..], keep, at);
          case Refused =>
            EndOthersAnswers(env, w1.(stuck := w1.stuck + {c.id}), base, ours[1..], keep, at);
            assert !env.reply(w.calls).Answered?;
        }
      }
    }
  }

  lemma OneCall(env: Remote, w: World, c: Contract, at: int)
    ensures (if c.start < at then End(env, w, c.id, at) else Archive(env, w, c.id)).0.calls == w.calls + 1
  {
  }

  /** createContract is granted a contract only when every call it made was answered, and fails otherwise;
      answered throughout, it gives up only when the keys run out. */
  lemma {:induction false} TryKeysAnswers(m: Naming, env: Remote, w: World, tenant: string, rateCard: string,
                                          start: Time, used: set<string>, n: nat)
    requires m.Valid() && env.Faithful() && w.store.Valid() && rateCard != "" && 1 <= n
    ensures var (w1, grant) := TryKeys(m, env, w, tenant, rateCard, start, used, n);
      && w.calls <= w1.calls && !grant.TooLong?
      && (grant.Failed? <==> !AllAnswered(env, w, w1))
    decreases 10 - n
  {
    hide ContractRateCard, Key;
    if n <= 9 {
      var key := Key(m, tenant, rateCard, start, n);
      KeyRoundTrip(m, tenant, rateCard, start, n, tenant);
      if key in used {
        TryKeysAnswers(m, env, w, tenant, rateCard, start, used, n + 1);
      } else {
        var (w1, out) := Create(env, w, key, start);
        CreateKeeps(env, w, key, start);
        CreateAnswers(env, w, key, start);
        if out.Conflict? {
          var (w2, all) := List(env, w1);
          ListKeeps(env, w1);
          if all.Some? && FirstOpen(all.value, key, start).None? {
            TryKeysAnswers(m, env, w2, tenant, rateCard, start, used, n + 1);
          }
          assert all.None? ==> !env.reply(w1.calls).Answered?;
        }
        assert out.NotCreated? ==> !env.reply(w.calls).Answered?;
      }
    }
  }

  lemma CreateAnswers(env: Remote, w: World, key: string, start: int)
    ensures var (w1, out) := Create(env, w, key, start);
      w1.calls == w.calls + 1 && (out.NotCreated? <==> !env.reply(w.calls).Answered?)
  {
  }

  /** An uncached call completes with no end refused exactly when each of its requests was answered and the
      day's keys did not run out; and with a request lost it does not complete. */
  lemma EnsureAnswers(m: Naming, env: Remote, s: State, tenant: string, rateCard: string, now: Time)
    requires m.Valid() && env.Faithful() && s.world.store.Valid() && rateCard != "" && !IsCurrent(s, tenant, rateCard)
    ensures var (s1, r) := Ensure(m, env, s, tenant, rateCard, now);
      && (r.Done? && s1.world.stuck == {}
          <==> AllAnswered(env, s.world, s1.world) && r != NotGranted(Exhausted))
      && (SomeLost(env, s.world, s1.world) ==> !r.Done?)
      && (r.EndFailed? ==> SomeLost(env, s.world, s1.world))
  {
    hide ContractRateCard, TryKeys, EndOthers, Choose, OursOf, RateCardToken, LeavesOthers;
    var w0 := s.world.(stuck := {});
    var (w1, all) := List(env, w0);
    ListKeeps(env, w0);
    var base := w1.store.contracts;
    assert all.None? ==> !env.reply(s.world.calls).Answered?;
    if all.Some? {
      assert env.reply(s.world.calls).Answered?;
      var today := Today(now);
      var keep := Choose(m, tenant, RateCardToken(m, rateCard), today, all.value);
      TryKeysGrants(m, env, w1, tenant, rateCard, today, KeysOf(all.value), 1);
      TryKeysAnswers(m, env, w1, tenant, rateCard, today, KeysOf(all.value), 1);
      var (w2, grant) := if keep.Some? then (w1, Kept(keep.value))
                         else TryKeys(m, env, w1, tenant, rateCard, today, KeysOf(all.value), 1);
      if grant.Kept? {
        var ours := OursOf(m, tenant, all.value);
        forall c | c in ours ensures c.id < |base| && c == base[c.id] { }
        StillClosing(base, w2.store.contracts, TakeOver(grant.c, today));
        EndOthersAnswers(env, w2, base, ours, grant.c.id, TakeOver(grant.c, today));
      }
    }
  }

  lemma StillClosing(base: seq<Contract>, cs: seq<Contract>, at: int)
    requires base <= cs
    ensures Closing(base, cs, at)
  {
  }

  /** ensureContract asks nothing exactly when the card is the one its last completed call was for, no card
      counting as "" before the first; and it remembers the card of the calls that complete. */
  lemma CachedExactly(m: Naming, env: Remote, s: State, tenant: string, rateCard: string, now: Time)
    ensures var (s1, r) := Ensure(m, env, s, tenant, rateCard, now);
      && (r.Cached? <==> if tenant in s.current then s.current[tenant] == rateCard else rateCard == "")
      && (r.Cached? ==> s1 == s)
      && s1.current == if r.Done? then s.current[tenant := rateCard] else s.current
  {
    hide TryKeys, EndOthers, Choose, OursOf, RateCardToken, List, KeysOf;
  }

  // ---- two replicas ----

  /** When the key is taken by a contract that is open, as another replica leaves it a moment before, that one
      is kept, and nothing is created. */
  lemma ConflictAdopts(m: Naming, env: Remote, w: World, tenant: string, rateCard: string, start: Time,
                       used: set<string>, n: nat)
    requires m.Valid() && env.Faithful() && w.store.Valid() && rateCard != "" && 1 <= n <= 9
    requires var key := Key(m, tenant, rateCard, start, n); var w1 := Create(env, w, key, start).0;
      && key !in used && Create(env, w, key, start).1.Conflict? && env.reply(w1.calls).Answered?
      && exists c :: c in Called(env, w1).store.contracts && c.key == key && OpenAt(c, start)
    ensures var key := Key(m, tenant, rateCard, start, n);
      var (w2, grant) := TryKeys(m, env, w, tenant, rateCard, start, used, n);
      && grant.Kept? && grant.c.key == key && OpenAt(grant.c, start)
      && w2.store == Called(env, Called(env, w)).store && grant.c in w2.store.contracts
  {
    hide ContractRateCard, Key;
    var key := Key(m, tenant, rateCard, start, n);
    KeyRoundTrip(m, tenant, rateCard, start, n, tenant);
    CreateKeeps(env, w, key, start);
    CreateAnswers(env, w, key, start);
    var (w1, out) := Create(env, w, key, start);
    ListKeeps(env, w1);
    assert w1 == Called(env, w);
  }
}
