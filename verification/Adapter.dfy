/** The Metronome adapter as an object over the remote contract store
    (internal/destinations/metronome/adapter.go). */
module AdapterObject {
  import opened Text
  import opened Usage
  import opened Contracts
  import opened Handover

  class Adapter {
    const names: Naming
    var world: World
    var current: map<string, string>

    constructor (names: Naming, world: World)
      ensures this.names == names && View() == State(world, map[])
    {
      this.names, this.world, this.current := names, world, map[];
    }

    function View(): State
      reads this
    {
      State(world, current)
    }

    method ListContracts(env: Remote) returns (all: Option<seq<Contract>>)
      modifies this`world
      ensures (world, all) == List(env, old(world))
    {
      var r := List(env, world);
      world := r.0;
      return r.1;
    }

    /** The first free key of the day, or the contract another replica created meanwhile. */
    method CreateContract(env: Remote, tenant: string, rateCard: string, start: Time,
                          used: set<string>) returns (grant: Grant)
      modifies this`world
      ensures (world, grant) == TryKeys(names, env, old(world), tenant, rateCard, start, used, 1)
    {
      hide Key, Create, List;
      var n := 1;
      while n <= 9
        invariant 1 <= n <= 10
        invariant TryKeys(names, env, world, tenant, rateCard, start, used, n)
            == TryKeys(names, env, old(world), tenant, rateCard, start, used, 1)
      {
        var key := Key(names, tenant, rateCard, start, n);
        if key !in used {
          if |key| > MAX_KEY { return TooLong; }
          var r := Create(env, world, key, start);
          world := r.0;
          match r.1 {
            case Created(c) => return Kept(c);
            case NotCreated => return Failed;
            case Conflict =>
              var all := ListContracts(env);
              if all.None? { return Failed; }
              var i := 0;
              while i < |all.value|
                invariant i <= |all.value|
                invariant FirstOpen(all.value, key, start) == FirstOpen(all.value[i..], key, start)
              {
                if all.value[i].key == key && OpenAt(all.value[i], start) { return Kept(all.value[i]); }
                assert all.value[i..][1..] == all.value[i + 1..];
                i := i + 1;
              }
          }
        }
        n := n + 1;
      }
      return Exhausted;
    }

    /** endOtherContracts: one request for each of `ours` that is open at the takeover and not `keep`. */
    method EndOtherContracts(env: Remote, ours: seq<Contract>, keep: Contract, today: Time) returns (ok: bool)
      modifies this`world
      ensures (world, ok) == EndOthers(env, old(world), ours, keep.id, TakeOver(keep, today))
    {
      hide End, Archive;
      var at := keep.start;
      if at < today { at := today; }
      var i := 0;
      while i < |ours|
        invariant i <= |ours|
        invariant EndOthers(env, world, ours[i..], keep.id, at) == EndOthers(env, old(world), ours, keep.id, at)
      {
        var c := ours[i];
        assert ours[i..][0] == c && ours[i..][1..] == ours[i + 1..];
        if c.id != keep.id && OpenAt(c, at) {
          var r := if c.start < at then End(env, world, c.id, at) else Archive(env, world, c.id);
          world := r.0;
          match r.1 {
            case Answered =>
            case Refused => world := world.(stuck := world.stuck + {c.id});
            case Lost(_) => return false;
          }
        }
        i := i + 1;
      }
      return true;
    }

    /** Goes through a listing: every key, the tenant's contracts, and the one to keep. */
    method Examine(all: seq<Contract>, tenant: string, token: string, today: Time)
      returns (keys: set<string>, ours: seq<Contract>, keep: Option<Contract>)
      ensures keys == KeysOf(all) && ours == OursOf(names, tenant, all)
      ensures keep == Choose(names, tenant, token, today, all)
    {
      hide ContractRateCard, Choose, OursOf, KeysOf, OpenAt;
      keys, ours, keep := {}, [], None;
      NoneExamined(names, tenant, token, today);
      var i := 0;
      while i < |all|
        invariant i <= |all|
        invariant keys == KeysOf(all[..i]) && ours == OursOf(names, tenant, all[..i])
        invariant keep == Choose(names, tenant, token, today, all[..i])
      {
        var c := all[i];
        OneExamined(names, tenant, token, today, all[..i], c);
        assert all[..i + 1] == all[..i] + [c];
        keys := keys + {c.key};
        var rc := ContractRateCard(names, c.key, tenant);
        if rc != "" {
          ours := ours + [c];
          if rc == token && OpenAt(c, today) && (keep.None? || c.start < keep.value.start) { keep := Some(c); }
        }
        i := i + 1;
      }
      assert all[..i] == all;
    }

    /** ensureContract, with the card remembered from the last success. */
    method EnsureContract(env: Remote, tenant: string, rateCard: string, now: Time) returns (r: Result)
      modifies this
      ensures (View(), r) == Ensure(names, env, old(View()), tenant, rateCard, now)
    {
      hide TryKeys, EndOthers, List, RateCardToken, Choose, OursOf, KeysOf;
      if IsCurrent(View(), tenant, rateCard) { return Cached; }
      world := world.(stuck := {});
      var all := ListContracts(env);
      if all.None? { return ListFailed; }
      var today := Today(now);
      var keys, ours, keep := Examine(all.value, tenant, RateCardToken(names, rateCard), today);
      if keep.None? {
        var grant := CreateContract(env, tenant, rateCard, today, keys);
        if !grant.Kept? { return NotGranted(grant); }
        keep := Some(grant.c);
      }
      var ok := EndOtherContracts(env, ours, keep.value, today);
      if !ok { return EndFailed; }
      current := current[tenant := rateCard];
      return Done(keep.value);
    }
  }

  lemma NoneExamined(m: Naming, tenant: string, token: string, today: int)
    ensures KeysOf([]) == {} && OursOf(m, tenant, []) == [] && Choose(m, tenant, token, today, []) == None
  {
  }

  lemma OneExamined(m: Naming, tenant: string, token: string, today: int, all: seq<Contract>, c: Contract)
    ensures KeysOf(all + [c]) == KeysOf(all) + {c.key}
    ensures OursOf(m, tenant, all + [c]) == OursOf(m, tenant, all) + if Ours(m, tenant, c) then [c] else []
    ensures var keep := Choose(m, tenant, token, today, all);
      Choose(m, tenant, token, today, all + [c]) ==
        if Candidate(m, tenant, token, today, c) && (keep.None? || c.start < keep.value.start) then Some(c) else keep
  {
    assert (all + [c])[..|all|] == all;
  }
}
