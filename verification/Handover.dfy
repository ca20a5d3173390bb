/** Which Metronome contract of a tenant is in force: keeping or creating one, and ending the others
    (internal/destinations/metronome/adapter.go). */
module Handover {
  import opened Text
  import opened Usage
  import opened Contracts
  import Windows

  /** A contract at the remote store, where its id is its place. */
  datatype Contract = Contract(id: nat, key: string, start: int, ending: Option<int>, archived: bool)

  /** The contracts of one customer, archived ones included, and every uniqueness key ever used. */
  datatype Store = Store(contracts: seq<Contract>, used: set<string>)
  {
    ghost predicate Valid()
    {
      && (forall i :: 0 <= i < |contracts| ==> contracts[i].id == i)
      && (forall i :: 0 <= i < |contracts| && contracts[i].key != "" ==> contracts[i].key in used)
    }
  }

  /** How one API call goes. A lost call may have been applied all the same. */
  datatype Reply = Answered | Refused | Lost(applied: bool)

  /** Everything outside the adapter's control: the reply to each call by its number, the contract
      another replica creates just before it, and the order a listing comes in. */
  datatype Remote = Remote(reply: nat -> Reply, rival: nat -> Option<Contract>,
                           arrange: (nat, seq<Contract>) -> seq<Contract>)
  {
    ghost predicate Faithful()
    {
      forall n: nat, cs: seq<Contract>, c: Contract :: c in arrange(n, cs) <==> c in cs
    }

    /** No other replica at work. */
    ghost predicate Quiet()
    {
      forall n: nat :: rival(n) == None
    }

    ghost predicate AlwaysAnswers()
    {
      forall n: nat :: reply(n).Answered?
    }
  }

  /** `stuck` holds the contracts whose end the last uncached call gave up on, with a warning. */
  datatype World = World(store: Store, calls: nat, stuck: set<nat>)

  predicate OpenAt(c: Contract, t: int)
  {
    !c.archived && (c.ending.None? || c.ending.value > t)
  }

  predicate Ours(m: Naming, tenant: string, c: Contract)
  {
    ContractRateCard(m, c.key, tenant) != ""
  }

  // ---- the API ----

  function Arrive(store: Store, rival: Option<Contract>): Store
  {
    if rival.None? || (rival.value.key != "" && rival.value.key in store.used) then store
    else Store(store.contracts + [rival.value.(id := |store.contracts|)], store.used + {rival.value.key})
  }

  function Called(env: Remote, w: World): World
  {
    w.(store := Arrive(w.store, env.rival(w.calls)), calls := w.calls + 1)
  }

  /** ListContracts. */
  function List(env: Remote, w: World): (World, Option<seq<Contract>>)
  {
    var w1 := Called(env, w);
    (w1, if env.reply(w.calls).Answered? then Some(env.arrange(w.calls, w1.store.contracts)) else None)
  }

  datatype Creation = Created(c: Contract) | Conflict | NotCreated

  /** CreateContract: a key can be used once. */
  function Create(env: Remote, w: World, key: string, start: int): (World, Creation)
  {
    var w1 := Called(env, w);
    var reply := env.reply(w.calls);
    if key in w1.store.used then (w1, if reply.Answered? then Conflict else NotCreated)
    else
      var c := Contract(|w1.store.contracts|, key, start, None, false);
      var added := w1.(store := Store(w1.store.contracts + [c], w1.store.used + {key}));
      match reply
      case Answered => (added, Created(c))
      case Lost(true) => (added, NotCreated)
      case _ => (w1, NotCreated)
  }

  function Replace(w: World, id: nat, c: Contract): World
    requires id < |w.store.contracts|
  {
    w.(store := w.store.(contracts := w.store.contracts[id := c]))
  }

  predicate Applies(reply: Reply) { reply.Answered? || reply == Lost(true) }

  /** EndContract: the end must come after the start. */
  function End(env: Remote, w: World, id: nat, at: int): (World, Reply)
  {
    var w1 := Called(env, w);
    var reply := env.reply(w.calls);
    if id >= |w1.store.contracts| || at <= w1.store.contracts[id].start
    then (w1, if reply.Lost? then reply else Refused)
    else if !Applies(reply) then (w1, reply)
    else (Replace(w1, id, w1.store.contracts[id].(ending := Some(at))), reply)
  }

  /** ArchiveContract. */
  function Archive(env: Remote, w: World, id: nat): (World, Reply)
  {
    var w1 := Called(env, w);
    var reply := env.reply(w.calls);
    if id >= |w1.store.contracts| then (w1, if reply.Lost? then reply else Refused)
    else if !Applies(reply) then (w1, reply)
    else (Replace(w1, id, w1.store.contracts[id].(archived := true)), reply)
  }

  // ---- createContract ----

  datatype Grant = Kept(c: Contract) | Exhausted | TooLong | Failed

  function FirstOpen(all: seq<Contract>, key: string, start: int): (r: Option<Contract>)
    ensures r.Some? ==> r.value in all && r.value.key == key && OpenAt(r.value, start)
    ensures r.None? ==> forall c :: c in all && c.key == key ==> !OpenAt(c, start)
  {
    if all == [] then None
    else if all[0].key == key && OpenAt(all[0], start) then Some(all[0])
    else FirstOpen(all[1..], key, start)
  }

  /** The keys of a day from the n-th on: the first one that is free, or that another replica holds open. */
  function TryKeys(m: Naming, env: Remote, w: World, tenant: string, rateCard: string, start: Time, used: set<string>,
                   n: nat): (World, Grant)
    decreases 10 - n
  {
    if n > 9 then (w, Exhausted)
    else
      var key := Key(m, tenant, rateCard, start, n);
      if key in used then TryKeys(m, env, w, tenant, rateCard, start, used, n + 1)
      else if |key| > MAX_KEY then (w, TooLong)
      else
        var (w1, out) := Create(env, w, key, start);
        match out
        case Created(c) => (w1, Kept(c))
        case NotCreated => (w1, Failed)
        case Conflict =>
          var (w2, all) := List(env, w1);
          if all.None? then (w2, Failed)
          else
            var found := FirstOpen(all.value, key, start);
            if found.Some? then (w2, Kept(found.value))
            else TryKeys(m, env, w2, tenant, rateCard, start, used, n + 1)
  }

  // ---- endOtherContracts ----

  /** Where the kept contract takes over. */
  function TakeOver(keep: Contract, today: int): int
  {
    if keep.start < today then today else keep.start
  }

  /** Ends the contracts one after another; false when one must be retried. */
  function EndOthers(env: Remote, w: World, ours: seq<Contract>, keep: nat, at: int): (World, bool)
    decreases |ours|
  {
    if ours == [] then (w, true)
    else
      var c := ours[0];
      if c.id == keep || !OpenAt(c, at) then EndOthers(env, w, ours[1..], keep, at)
      else
        var (w1, reply) := if c.start < at then End(env, w, c.id, at) else Archive(env, w, c.id);
        match reply
        case Lost(_) => (w1, false)
        case Answered => EndOthers(env, w1, ours[1..], keep, at)
        case Refused => EndOthers(env, w1.(stuck := w1.stuck + {c.id}), ours[1..], keep, at)
  }

  // ---- ensureContract ----

  const DAY: nat := 24 * HOUR

  datatype State = State(world: World, current: map<string, string>)  // tenant -> rate card last ensured

  datatype Result = Cached | Done(keep: Contract) | ListFailed | NotGranted(grant: Grant) | EndFailed

  function OursOf(m: Naming, tenant: string, all: seq<Contract>): (r: seq<Contract>)
    ensures forall c :: c in r <==> c in all && Ours(m, tenant, c)
  {
    if all == [] then []
    else
      assert all == all[..|all| - 1] + [all[|all| - 1]];
      OursOf(m, tenant, all[..|all| - 1]) + if Ours(m, tenant, all[|all| - 1]) then [all[|all| - 1]] else []
  }

  predicate Candidate(m: Naming, tenant: string, token: string, today: int, c: Contract)
  {
    token != "" && ContractRateCard(m, c.key, tenant) == token && OpenAt(c, today)
  }

  /** The open contract on the rate card that started first. */
  function Choose(m: Naming, tenant: string, token: string, today: int, all: seq<Contract>): (r: Option<Contract>)
    ensures r.Some? ==> r.value in all && Candidate(m, tenant, token, today, r.value)
    ensures r.Some? ==> forall c :: c in all && Candidate(m, tenant, token, today, c) ==> r.value.start <= c.start
    ensures r.None? ==> forall c :: c in all ==> !Candidate(m, tenant, token, today, c)
  {
    if all == [] then None
    else
      var n := |all| - 1;
      assert all == all[..n] + [all[n]];
      var k := Choose(m, tenant, token, today, all[..n]);
      if Candidate(m, tenant, token, today, all[n]) && (k.None? || all[n].start < k.value.start)
      then Some(all[n]) else k
  }

  function KeysOf(all: seq<Contract>): set<string>
  {
    set c <- all :: c.key
  }

  /** The start of the day, counted from the start of year 1 as UTC days are. */
  function Today(now: Time): (today: Time)
    ensures today % DAY == 0 && today <= now < today + DAY
  {
    Windows.Truncate(now, DAY)
  }

  predicate IsCurrent(s: State, tenant: string, rateCard: string)
  {
    (if tenant in s.current then s.current[tenant] else "") == rateCard
  }

  function Ensure(m: Naming, env: Remote, s: State, tenant: string, rateCard: string, now: Time): (State, Result)
  {
    if IsCurrent(s, tenant, rateCard) then (s, Cached)
    else
      var (w1, all) := List(env, s.world.(stuck := {}));
      if all.None? then (s.(world := w1), ListFailed)
      else
        var today := Today(now);
        var keep := Choose(m, tenant, RateCardToken(m, rateCard), today, all.value);
        var (w2, grant) := if keep.Some? then (w1, Kept(keep.value))
                           else TryKeys(m, env, w1, tenant, rateCard, today, KeysOf(all.value), 1);
        if !grant.Kept? then (s.(world := w2), NotGranted(grant))
        else
          var (w3, ok) := EndOthers(env, w2, OursOf(m, tenant, all.value), grant.c.id, TakeOver(grant.c, today));
          if !ok then (s.(world := w3), EndFailed)
          else (State(w3, s.current[tenant := rateCard]), Done(grant.c))
  }

  // ---- one call at a time ----

  /** What endOtherContracts does to one contract. */
  function Closed(c: Contract, at: int): Contract
  {
    if !OpenAt(c, at) then c else if c.start < at then c.(ending := Some(at)) else c.(archived := true)
  }

  lemma ClosedIsClosed(c: Contract, at: int)
    ensures !OpenAt(Closed(c, at), at) && Closed(Closed(c, at), at) == Closed(c, at)
  {
  }

  lemma ArriveKeeps(store: Store, rival: Option<Contract>)
    requires store.Valid()
    ensures Arrive(store, rival).Valid() && store.contracts <= Arrive(store, rival).contracts
        && store.used <= Arrive(store, rival).used
  {
  }

  /** Whatever another replica does first: a key is used once, by one open contract more, and a conflict or a
      lost request says what it can have left. */
  lemma CreateKeeps(env: Remote, w: World, key: string, start: int)
    requires w.store.Valid()
    ensures var (w1, out) := Create(env, w, key, start);
      && w1.store.Valid() && w.store.contracts <= w1.store.contracts && w1.stuck == w.stuck
      && (out.Created? ==> out.c.id < |w1.store.contracts| && out.c == w1.store.contracts[out.c.id])
      && (out.Created? ==> out.c == Contract(out.c.id, key, start, None, false))
      && (env.reply(w.calls).Answered? ==> !out.NotCreated?)
    ensures var (w1, out) := Create(env, w, key, start); var met := Called(env, w).store;
      && (out.Created? ==> key !in met.used && w1.store == Store(met.contracts + [out.c], met.used + {key}))
      && (out.NotCreated? ==> w1.store == met || AddedKey(met.contracts, w1.store.contracts, key, start))
      && (out.Conflict? ==> key in met.used && w1.store == met)
      && (env.Quiet() ==> met == w.store)
  {
    ArriveKeeps(w.store, env.rival(w.calls));
    var w1 := Called(env, w);
    if env.Quiet() { assert env.rival(w.calls) == None; }
  }

  lemma ListKeeps(env: Remote, w: World)
    requires w.store.Valid() && env.Faithful()
    ensures var (w1, all) := List(env, w);
      && w1 == Called(env, w) && (all.Some? <==> env.reply(w.calls).Answered?) && w1.store.Valid()
        && w.store.contracts <= w1.store.contracts && w1.stuck == w.stuck
      && (all.Some? ==> forall c :: c in all.value <==> c in w1.store.contracts)
      && (env.Quiet() ==> w1.store == w.store)
  {
    ArriveKeeps(w.store, env.rival(w.calls));
    if env.Quiet() { assert env.rival(w.calls) == None; }
  }

  /** A contract granted by createContract is in the store, open, and on the rate card. */
  ghost predicate Granted(m: Naming, tenant: string, rateCard: string, start: int, cs: seq<Contract>, c: Contract)
  {
    c.id < |cs| && cs[c.id] == c && Candidate(m, tenant, RateCardToken(m, rateCard), start, c)
  }

  /** createContract only adds contracts; what it grants is open on the rate card; and the length
      limit is never met. */
  lemma {:induction false} TryKeysGrants(m: Naming, env: Remote, w: World, tenant: string, rateCard: string,
                                         start: Time, used: set<string>, n: nat)
    requires m.Valid() && env.Faithful() && w.store.Valid() && rateCard != "" && 1 <= n
    ensures var (w1, grant) := TryKeys(m, env, w, tenant, rateCard, start, used, n);
      && w1.store.Valid() && w.store.contracts <= w1.store.contracts && w1.stuck == w.stuck && !grant.TooLong?
      && (grant.Kept? ==> Granted(m, tenant, rateCard, start, w1.store.contracts, grant.c))
    decreases 10 - n
  {
    hide ContractRateCard, Key, Create, List;
    if n <= 9 {
      var key := Key(m, tenant, rateCard, start, n);
      KeyRoundTrip(m, tenant, rateCard, start, n, tenant);
      if key in used {
        TryKeysGrants(m, env, w, tenant, rateCard, start, used, n + 1);
      } else {
        var (w1, out) := Create(env, w, key, start);
        CreateKeeps(env, w, key, start);
        if out.Conflict? {
          var (w2, all) := List(env, w1);
          ListKeeps(env, w1);
          if all.Some? && FirstOpen(all.value, key, start).None? {
            TryKeysGrants(m, env, w2, tenant, rateCard, start, used, n + 1);
          }
        }
      }
    }
  }

  /** Without another replica, createContract creates one contract, with the first free key of the
      day, or none; it gives up for good exactly when all nine keys from the first are taken. */
  lemma {:induction false} TryKeysQuiet(m: Naming, env: Remote, w: World, tenant: string, rateCard: string,
                                        start: Time, used: set<string>, n: nat)
    requires m.Valid() && env.Faithful() && env.Quiet() && w.store.Valid() && rateCard != "" && 1 <= n <= 10
    requires forall c :: c in w.store.contracts ==> c.key in used
    requires used <= w.store.used + {""}
    ensures var (w1, grant) := TryKeys(m, env, w, tenant, rateCard, start, used, n);
      && (grant.Kept? ==> Added(w.store.contracts, w1.store.contracts, grant.c, start))
      && (grant.Failed? ==>
        w1.store == w.store || AddedOurs(m, tenant, rateCard, w.store.contracts, w1.store.contracts, start))
      && (env.AlwaysAnswers() ==> !grant.Failed?)
      && (grant.Exhausted? ==>
        w1.store == w.store && forall k :: n <= k <= 9 ==> Key(m, tenant, rateCard, start, k) in w.store.used)
      && (grant.Kept? ==>
            exists k :: n <= k <= 9 && FirstFree(m, w.store, tenant, rateCard, start, n, k)
              && grant.c.key == Key(m, tenant, rateCard, start, k))
    decreases 10 - n
  {
    hide ContractRateCard, Key, Create, List;
    if n <= 9 {
      var key := Key(m, tenant, rateCard, start, n);
      assert |key| <= 103 && key != "" && ContractRateCard(m, key, tenant) == RateCardToken(m, rateCard) != "" by {
        KeyRoundTrip(m, tenant, rateCard, start, n, tenant);
      }
      if key in used {
        TryKeysQuiet(m, env, w, tenant, rateCard, start, used, n + 1);
      } else {
        var (w1, out) := Create(env, w, key, start);
        CreateKeeps(env, w, key, start);
        assert env.AlwaysAnswers() ==> env.reply(w.calls).Answered? && env.reply(w1.calls).Answered?;
        if out.Conflict? {
          var (w2, all) := List(env, w1);
          ListKeeps(env, w1);
          if all.Some? {
            assert FirstOpen(all.value, key, start).None?;
            TryKeysQuiet(m, env, w2, tenant, rateCard, start, used, n + 1);
          }
        } else if out.Created? {
          assert FirstFree(m, w.store, tenant, rateCard, start, n, n);
        }
      }
    }
  }

  ghost predicate Added(before: seq<Contract>, after: seq<Contract>, c: Contract, start: int)
  {
    after == before + [c] && c == Contract(|before|, c.key, start, None, false)
  }

  ghost predicate AddedKey(before: seq<Contract>, after: seq<Contract>, key: string, start: int)
  {
    after == before + [Contract(|before|, key, start, None, false)]
  }

  ghost predicate AddedOurs(m: Naming, tenant: string, rateCard: string, before: seq<Contract>, after: seq<Contract>,
                            start: int)
  {
    && |after| == |before| + 1 && AddedKey(before, after, after[|before|].key, start)
    && ContractRateCard(m, after[|before|].key, tenant) == RateCardToken(m, rateCard) != ""
  }

  /** The k-th key of the day is free and those from the n-th before it are taken. */
  ghost predicate FirstFree(m: Naming, store: Store, tenant: string, rateCard: string, start: Time, n: nat, k: nat)
  {
    Key(m, tenant, rateCard, start, k) !in store.used && forall i :: n <= i < k ==>
      Key(m, tenant, rateCard, start, i) in store.used
  }

  /** Each contract of `base` is as it was or closed at `at`. */
  ghost predicate Closing(base: seq<Contract>, cs: seq<Contract>, at: int)
  {
    |base| <= |cs| && forall i :: 0 <= i < |base| ==> cs[i] == base[i] || cs[i] == Closed(base[i], at)
  }

  predicate Names(cs: seq<Contract>, i: nat)
  {
    exists c :: c in cs && c.id == i
  }

  /** One request of endOtherContracts. The server never turns it down for its dates. */
  lemma CloseOne(env: Remote, w: World, base: seq<Contract>, c: Contract, at: int)
    requires w.store.Valid() && Closing(base, w.store.contracts, at)
    requires c.id < |base| && c == base[c.id] && OpenAt(c, at)
    ensures var (w1, reply) := if c.start < at then End(env, w, c.id, at) else Archive(env, w, c.id);
      && w1.store.Valid() && |w.store.contracts| <= |w1.store.contracts| && w1.stuck == w.stuck
      && (env.Quiet() ==> |w.store.contracts| == |w1.store.contracts|)
      && reply == env.reply(w.calls)
      && (forall i :: 0 <= i < |w.store.contracts| && i != c.id ==> w1.store.contracts[i] == w.store.contracts[i])
      && w1.store.contracts[c.id] == (if Applies(reply) then Closed(c, at) else w.store.contracts[c.id])
  {
    ArriveKeeps(w.store, env.rival(w.calls));
    if env.Quiet() { assert env.rival(w.calls) == None; }
    assert Called(env, w).store.contracts[c.id] == w.store.contracts[c.id];
  }

  /** endOtherContracts closes exactly the listed contracts that are open at the takeover, except those
      it was refused for good, and touches nothing else. */
  lemma {:induction false} EndOthersCloses(env: Remote, w: World, base: seq<Contract>, ours: seq<Contract>, keep: nat,
                                           at: int)
    requires w.store.Valid() && Closing(base, w.store.contracts, at)
    requires forall c :: c in ours ==> c.id < |base| && c == base[c.id]
    ensures var (w1, ok) := EndOthers(env, w, ours, keep, at);
      && w1.store.Valid() && |w.store.contracts| <= |w1.store.contracts| && w.stuck <= w1.stuck
      && (env.Quiet() ==> |w.store.contracts| == |w1.store.contracts|)
      && Closing(base, w1.store.contracts, at)
      && (forall i :: 0 <= i < |w.store.contracts| && (i == keep || !Names(ours, i)) ==>
        w1.store.contracts[i] == w.store.contracts[i])
      && (forall i :: 0 <= i < |base| && w.store.contracts[i] == Closed(base[i], at) ==>
        w1.store.contracts[i] == w.store.contracts[i])
      && (ok ==>
        forall c :: c in ours && c.id != keep ==> c.id in w1.stuck || w1.store.contracts[c.id] == Closed(c, at))
    decreases |ours|
  {
    hide End, Archive;
    if ours != [] {
      var c := ours[0];
      assert ours == [c] + ours[1..];
      if c.id == keep || !OpenAt(c, at) {
        EndOthersCloses(env, w, base, ours[1..], keep, at);
      } else {
        CloseOne(env, w, base, c, at);
        ClosedIsClosed(c, at);
        var (w1, reply) := if c.start < at then End(env, w, c.id, at) else Archive(env, w, c.id);
        assert Names(ours, c.id);
        match reply {
          case Lost(_) =>
          case Answered => EndOthersCloses(env, w1, base, ours[1..], keep, at);
          case Refused => EndOthersCloses(env, w1.(stuck := w1.stuck + {c.id}), base, ours[1..], keep, at);
        }
      }
    }
  }
}
