/** Which events share their identity string with another event: Validate lets NUL bytes pass, and the
    string separates its parts by NUL bytes (internal/usage/usage.go). */
module Confusion {
  import opened Text
  import opened Usage
  import opened Identity

  // ---- strings cut at NUL bytes ----

  function Cut(s: string): (r: seq<string>)
    ensures r != [] && (|r| == 1 <==> NUL !in s) && forall t :: t in r ==> NUL !in t
  {
    var i := IndexOf(s, NUL, 0);
    if i == |s| then [s]
    else
      assert NUL !in s[..i] && s[i] == NUL;
      [s[..i]] + Cut(s[i + 1..])
  }

  function CutAll(parts: seq<string>): (r: seq<string>)
    ensures |r| >= |parts| && forall t :: t in r ==> NUL !in t
  {
    if parts == [] then [] else Cut(parts[0]) + CutAll(parts[1..])
  }

  /** The string with these parts. */
  function Glue(ts: seq<string>): string
    requires ts != []
  {
    Join(ts)[1..]
  }

  lemma {:induction false} JoinConcat(a: seq<string>, b: seq<string>)
    ensures Join(a + b) == Join(a) + Join(b)
  {
    if a == [] {
      assert a + b == b;
    } else {
      assert (a + b)[1..] == a[1..] + b;
      JoinConcat(a[1..], b);
    }
  }

  lemma JoinOne(s: string)
    ensures Join([s]) == [NUL] + s
  {
    assert [s][1..] == [];
  }

  lemma SplitAt(s: string, i: nat)
    requires i < |s|
    ensures s == s[..i] + ([s[i]] + s[i + 1..])
  {
  }

  lemma {:induction false} JoinCut(s: string)
    ensures Join(Cut(s)) == [NUL] + s
  {
    hide Join, IndexOf;
    var i := IndexOf(s, NUL, 0);
    if i == |s| {
      JoinOne(s);
    } else {
      JoinCut(s[i + 1..]);
      JoinConcat([s[..i]], Cut(s[i + 1..]));
      JoinOne(s[..i]);
      SplitAt(s, i);
    }
  }

  lemma {:induction false} JoinCutAll(parts: seq<string>)
    ensures Join(CutAll(parts)) == Join(parts)
  {
    if parts != [] {
      JoinCut(parts[0]);
      JoinCutAll(parts[1..]);
      JoinConcat(Cut(parts[0]), CutAll(parts[1..]));
    }
  }

  /** Two lists of parts join to one string exactly when they cut into the same pieces. */
  lemma SameJoin(a: seq<string>, b: seq<string>)
    ensures Join(a) == Join(b) <==> CutAll(a) == CutAll(b)
  {
    JoinCutAll(a);
    JoinCutAll(b);
    if Join(a) == Join(b) { JoinInjective(CutAll(a), CutAll(b)); }
  }

  lemma {:induction false} CutAllConcat(a: seq<string>, b: seq<string>)
    ensures CutAll(a + b) == CutAll(a) + CutAll(b)
  {
    if a == [] {
      assert a + b == b;
    } else {
      assert (a + b)[1..] == a[1..] + b;
      CutAllConcat(a[1..], b);
    }
  }

  lemma CutPlain(s: string)
    requires NUL !in s
    ensures Cut(s) == [s]
  {
    assert IndexOf(s, NUL, 0) == |s|;
  }

  lemma GlueJoins(ts: seq<string>)
    requires ts != []
    ensures [NUL] + Glue(ts) == Join(ts)
  {
    assert Join(ts)[0] == NUL;
  }

  lemma CutGlue(ts: seq<string>)
    requires ts != [] && forall t :: t in ts ==> NUL !in t
    ensures Cut(Glue(ts)) == ts
  {
    GlueJoins(ts);
    JoinCut(Glue(ts));
    JoinInjective(Cut(Glue(ts)), ts);
  }

  // ---- the string of an event ----

  /** A rendering of an instant starts with a digit, so it is never a metric code. */
  ghost predicate TimesAreNoMetrics(c: Codec)
  {
    forall t: Time :: !IsMetric(c.render(t))
  }

  ghost function Tail(e: Event, keys: seq<string>): seq<string>
    requires forall k :: k in keys ==> k in e.dimensions
  {
    [e.region, e.project, e.sku, e.resourceID] + Pairs(keys, e.dimensions)
  }

  function Head(c: Codec, e: Event): seq<string>
  {
    [e.tenant, e.metric, c.render(e.windowStart), c.render(e.windowEnd)]
  }

  /** The pieces the identity string consists of. */
  ghost function Pieces(c: Codec, e: Event, keys: seq<string>): seq<string>
    requires forall k :: k in keys ==> k in e.dimensions
  {
    CutAll(Head(c, e)) + CutAll(Tail(e, keys))
  }

  lemma MetricIsPlain(m: string)
    requires IsMetric(m)
    ensures NUL !in m
  {
  }

  lemma HeadPieces(c: Codec, e: Event)
    requires c.Valid() && IsMetric(e.metric)
    ensures CutAll(Head(c, e)) == Cut(e.tenant) + [e.metric, c.render(e.windowStart), c.render(e.windowEnd)]
  {
    MetricIsPlain(e.metric);
    CutFour(e.tenant, e.metric, c.render(e.windowStart), c.render(e.windowEnd));
  }

  lemma CutAllFirst(p: string, rest: seq<string>)
    ensures CutAll([p] + rest) == Cut(p) + CutAll(rest)
  {
    assert ([p] + rest)[1..] == rest;
  }

  lemma CutFour(p: string, q: string, r: string, s: string)
    requires NUL !in q && NUL !in r && NUL !in s
    ensures CutAll([p, q, r, s]) == Cut(p) + [q, r, s]
  {
    hide CutAll, Cut;
    assert CutAll([]) == [] by { NothingCut(); }
    CutAllFirst(s, []);
    CutPlain(s);
    CutAllFirst(r, [s]);
    CutPlain(r);
    CutAllFirst(q, [r, s]);
    CutPlain(q);
    CutAllFirst(p, [q, r, s]);
    assert [s] + [] == [s] && [r] + [s] == [r, s] && [q] + [r, s] == [q, r, s] && [p] + [q, r, s] == [p, q, r, s];
  }

  lemma NothingCut()
    ensures CutAll([]) == []
  {
  }

  /** Two events hash one string exactly when theirs consist of the same pieces. */
  lemma SameString(c: Codec, e: Event, keys: seq<string>, f: Event, keys': seq<string>)
    requires Enumerates(keys, e.dimensions) && Enumerates(keys', f.dimensions)
    ensures Enumerates(Sort(keys), e.dimensions) && Enumerates(Sort(keys'), f.dimensions)
    ensures HashedIn(c, e, keys) == HashedIn(c, f, keys') <==> Pieces(c, e, Sort(keys)) == Pieces(c, f, Sort(keys'))
  {
    hide Join, CutAll, Pairs, Sort, Head, Tail;
    SortedEnumerates(keys, e.dimensions);
    SortedEnumerates(keys', f.dimensions);
    var a, b := Fields(c, e) + Pairs(Sort(keys), e.dimensions), Fields(c, f) + Pairs(Sort(keys'), f.dimensions);
    PartsAre(c, e, Sort(keys));
    PartsAre(c, f, Sort(keys'));
    CutAllConcat(Head(c, e), Tail(e, Sort(keys)));
    CutAllConcat(Head(c, f), Tail(f, Sort(keys')));
    SameJoin(a, b);
    assert (SCHEMA_VERSION + Join(a))[|SCHEMA_VERSION|..] == Join(a)
        && (SCHEMA_VERSION + Join(b))[|SCHEMA_VERSION|..] == Join(b);
  }

  lemma PartsAre(c: Codec, e: Event, keys: seq<string>)
    requires forall k :: k in keys ==> k in e.dimensions
    ensures Fields(c, e) + Pairs(keys, e.dimensions) == Head(c, e) + Tail(e, keys)
  {
    hide Pairs;
  }

  // ---- which events are confused ----

  /** f is valid, has another identity than e, and hashes the same string. */
  ghost predicate Confuses(c: Codec, e: Event, keys: seq<string>, f: Event, keys': seq<string>)
    requires Enumerates(keys, e.dimensions)
  {
    IsValid(f) && !SameIdentity(e, f) && Enumerates(keys', f.dimensions)
        && HashedIn(c, e, keys) == HashedIn(c, f, keys')
  }

  /** Something follows the resource ID, or a NUL byte stands in one of the last four fields. */
  predicate Loose(e: Event)
  {
    e.dimensions != map[] || NUL in e.region || NUL in e.project || NUL in e.sku || NUL in e.resourceID
  }

  /** The tenant's name holds a metric code and a window between NUL bytes, behind a prefix of its own. */
  ghost predicate HoldsHeader(c: Codec, tenant: string)
  {
    exists i: nat, s: Time, t: Time :: HeaderAt(c, Cut(tenant), i, s, t)
  }

  ghost predicate HeaderAt(c: Codec, ts: seq<string>, i: nat, s: Time, t: Time)
  {
    1 <= i && i + 3 <= |ts| && Glue(ts[..i]) != "" && IsMetric(ts[i]) && ts[i + 1] == c.render(s)
        && ts[i + 2] == c.render(t) && 0 < s < t
  }

  /** When nothing is loose the last four pieces are the last four fields. */
  lemma TightTail(e: Event, keys: seq<string>)
    requires !Loose(e) && Enumerates(keys, e.dimensions)
    ensures CutAll(Tail(e, keys)) == [e.region, e.project, e.sku, e.resourceID]
  {
    KeysNeedEntries(keys, e.dimensions);
    assert Tail(e, keys) == [e.region, e.project, e.sku, e.resourceID];
    CutFour(e.region, e.project, e.sku, e.resourceID);
    CutPlain(e.region);
  }

  lemma KeysNeedEntries(keys: seq<string>, dims: map<string, string>)
    requires Enumerates(keys, dims)
    ensures keys != [] ==> dims != map[]
  {
    if keys != [] { assert keys[0] in dims; }
  }

  lemma EntriesNeedKeys(keys: seq<string>, dims: map<string, string>)
    requires Enumerates(keys, dims)
    ensures dims != map[] ==> keys != []
  {
    if dims != map[] {
      var k :| k in dims;
      assert k in keys;
    }
  }

  lemma CutAllFour(a: string, b: string, c: string, d: string, rest: seq<string>)
    ensures CutAll([a, b, c, d] + rest) == Cut(a) + Cut(b) + Cut(c) + Cut(d) + CutAll(rest)
  {
    hide CutAll, Cut;
    assert [a, b, c, d] + rest == [a] + ([b] + ([c] + ([d] + rest)));
    CutAllFirst(d, rest);
    CutAllFirst(c, [d] + rest);
    CutAllFirst(b, [c] + ([d] + rest));
    CutAllFirst(a, [b] + ([c] + ([d] + rest)));
  }

  lemma LooseTail(e: Event, keys: seq<string>)
    requires Loose(e) && Enumerates(keys, e.dimensions)
    ensures |CutAll(Tail(e, keys))| > 4
  {
    hide CutAll, Cut, Pairs;
    CutAllFour(e.region, e.project, e.sku, e.resourceID, Pairs(keys, e.dimensions));
    EntriesNeedKeys(keys, e.dimensions);
  }

  lemma GlueCut(s: string)
    ensures Glue(Cut(s)) == s
  {
    hide Cut, Join;
    JoinCut(s);
  }

  // ---- the condition is necessary ----

  lemma OnlyThen(c: Codec, e: Event, keys: seq<string>, f: Event, keys': seq<string>)
    requires c.Valid() && TimesAreNoMetrics(c) && IsValid(e) && Enumerates(keys, e.dimensions)
        && Confuses(c, e, keys, f, keys')
    ensures Loose(e) || HoldsHeader(c, e.tenant)
  {
    hide Cut, CutAll, Tail, Head, Sort, IsMetric, HashedIn, Glue, HeaderAt;
    if !Loose(e) {
      SameString(c, e, keys, f, keys');
      var ts, us := Cut(e.tenant), Cut(f.tenant);
      HeadPieces(c, e);
      HeadPieces(c, f);
      TightTail(e, Sort(keys));
      var rest := CutAll(Tail(f, Sort(keys')));
      assert |rest| >= 4 by { AtLeastFour(f, Sort(keys')); }
      var p := ts + [e.metric, c.render(e.windowStart), c.render(e.windowEnd)]
          + [e.region, e.project, e.sku, e.resourceID];
      var q := us + [f.metric, c.render(f.windowStart), c.render(f.windowEnd)] + rest;
      assert p == q;
      assert |us| <= |ts|;
      var n, k := |ts|, |us|;
      assert p[n] == e.metric && q[k] == f.metric && q[k + 1] == c.render(f.windowStart)
          && q[k + 2] == c.render(f.windowEnd);
      if k == n {
        SameLength(c, e, Sort(keys), f, Sort(keys'), rest);
      } else if k + 3 <= n {
        assert p[..k] == ts[..k] && q[..k] == us;
        assert p[k] == ts[k] && p[k + 1] == ts[k + 1] && p[k + 2] == ts[k + 2];
        GlueCut(f.tenant);
        assert HeaderAt(c, ts, k, f.windowStart, f.windowEnd) by { HeaderIs(c, ts, k, f); }
      }
    }
  }

  lemma HeaderIs(c: Codec, ts: seq<string>, k: nat, f: Event)
    requires IsValid(f) && 1 <= k && k + 3 <= |ts| && Glue(ts[..k]) == f.tenant
    requires ts[k] == f.metric && ts[k + 1] == c.render(f.windowStart) && ts[k + 2] == c.render(f.windowEnd)
    ensures HeaderAt(c, ts, k, f.windowStart, f.windowEnd)
  {
    hide IsMetric, Glue;
  }

  lemma AtLeastFour(f: Event, keys: seq<string>)
    requires Enumerates(keys, f.dimensions)
    ensures |CutAll(Tail(f, keys))| >= 4
  {
    hide CutAll, Pairs;
  }

  /** With as many pieces in both tenants everything else falls into place too. */
  lemma SameLength(c: Codec, e: Event, keys: seq<string>, f: Event, keys': seq<string>, rest: seq<string>)
    requires c.Valid() && !Loose(e) && Enumerates(keys, e.dimensions) && Enumerates(keys', f.dimensions)
        && rest == CutAll(Tail(f, keys'))
    requires |Cut(e.tenant)| == |Cut(f.tenant)|
    requires Cut(e.tenant) + [e.metric, c.render(e.windowStart), c.render(e.windowEnd)]
        + [e.region, e.project, e.sku, e.resourceID]
      == Cut(f.tenant) + [f.metric, c.render(f.windowStart), c.render(f.windowEnd)] + rest
    ensures SameIdentity(e, f)
  {
    hide Cut, CutAll, Tail, Glue, Pairs;
    var ts, us := Cut(e.tenant), Cut(f.tenant);
    var p := ts + [e.metric, c.render(e.windowStart), c.render(e.windowEnd)]
        + [e.region, e.project, e.sku, e.resourceID];
    var q := us + [f.metric, c.render(f.windowStart), c.render(f.windowEnd)] + rest;
    var n := |ts|;
    assert p[..n] == ts && q[..n] == us;
    GlueCut(e.tenant);
    GlueCut(f.tenant);
    assert p[n] == e.metric && q[n] == f.metric && p[n + 1] == c.render(e.windowStart)
        && q[n + 1] == c.render(f.windowStart);
    assert p[n + 2] == c.render(e.windowEnd) && q[n + 2] == c.render(f.windowEnd);
    assert p[n + 3..] == [e.region, e.project, e.sku, e.resourceID] && q[n + 3..] == rest;
    if Loose(f) { LooseTail(f, keys'); } else { TightTail(f, keys'); }
    assert !Loose(f);
    assert rest[0] == f.region && rest[1] == f.project && rest[2] == f.sku && rest[3] == f.resourceID;
  }

  // ---- and sufficient ----

  lemma CutBoth(x: string, y: string)
    ensures Cut(x + [NUL] + y) == Cut(x) + Cut(y)
  {
    hide Cut, Join;
    JoinCut(x);
    JoinCut(y);
    JoinCut(x + [NUL] + y);
    JoinConcat(Cut(x), Cut(y));
    assert [NUL] + (x + [NUL] + y) == [NUL] + x + ([NUL] + y);
    JoinInjective(Cut(x + [NUL] + y), Cut(x) + Cut(y));
  }

  /** Moving pieces between the last four fields changes nothing in the string. */
  lemma MovedPieces(c: Codec, e: Event, keys: seq<string>, f: Event)
    requires Enumerates(keys, e.dimensions) && f.dimensions == e.dimensions && Head(c, e) == Head(c, f)
    requires Cut(e.region) + Cut(e.project) + Cut(e.sku) + Cut(e.resourceID)
      == Cut(f.region) + Cut(f.project) + Cut(f.sku) + Cut(f.resourceID)
    ensures HashedIn(c, e, keys) == HashedIn(c, f, keys)
  {
    hide Cut, CutAll, Pairs, Sort, HashedIn, Head;
    SameString(c, e, keys, f, keys);
    CutAllFour(e.region, e.project, e.sku, e.resourceID, Pairs(Sort(keys), e.dimensions));
    CutAllFour(f.region, f.project, f.sku, f.resourceID, Pairs(Sort(keys), e.dimensions));
  }

  /** A string with a NUL byte in two pieces. */
  lemma Halves(s: string) returns (x: string, y: string)
    requires NUL in s
    ensures s == x + [NUL] + y && |x| < |s|
  {
    var i := IndexOf(s, NUL, 0);
    x, y := s[..i], s[i + 1..];
    assert s == x + [NUL] + y;
  }

  lemma FieldMoves(c: Codec, e: Event, keys: seq<string>) returns (f: Event)
    requires IsValid(e) && Enumerates(keys, e.dimensions)
        && (NUL in e.region || NUL in e.project || NUL in e.sku || NUL in e.resourceID)
    ensures Confuses(c, e, keys, f, keys)
  {
    hide Cut, IsMetric, HashedIn;
    if NUL in e.region {
      var x, y := Halves(e.region);
      f := e.(region := x, project := y + [NUL] + e.project);
      CutBoth(x, y);
      CutBoth(y, e.project);
    } else if NUL in e.project {
      var x, y := Halves(e.project);
      f := e.(project := x, sku := y + [NUL] + e.sku);
      CutBoth(x, y);
      CutBoth(y, e.sku);
    } else if NUL in e.sku {
      var x, y := Halves(e.sku);
      f := e.(sku := x, resourceID := y + [NUL] + e.resourceID);
      CutBoth(x, y);
      CutBoth(y, e.resourceID);
    } else {
      var x, y := Halves(e.resourceID);
      f := e.(sku := e.sku + [NUL] + x, resourceID := y);
      CutBoth(x, y);
      CutBoth(e.sku, x);
    }
    MovedPieces(c, e, keys, f);
  }

  lemma SortOfSorted(keys: seq<string>)
    requires Sorted(keys)
    ensures Distinct(keys) && Sort(keys) == keys
  {
    hide Less, Sort;
    forall i, j | 0 <= i < j < |keys| ensures keys[i] != keys[j] { LessTotal(keys[i], keys[j]); }
    SortSorts(keys);
    SortedUnique(Sort(keys), keys);
  }

  lemma WithoutFirst(keys: seq<string>, dims: map<string, string>)
    requires Enumerates(keys, dims) && keys != []
    ensures Enumerates(keys[1..], dims - {keys[0]})
  {
    assert keys == [keys[0]] + keys[1..];
  }

  lemma FirstPair(keys: seq<string>, dims: map<string, string>)
    requires keys != [] && Enumerates(keys, dims) && Enumerates(keys[1..], dims - {keys[0]})
    ensures Pairs(keys, dims) == [keys[0] + ("=" + dims[keys[0]])] + Pairs(keys[1..], dims - {keys[0]})
  {
    hide Pairs;
    var p, q := Pairs(keys, dims), Pairs(keys[1..], dims - {keys[0]});
    forall i | 1 <= i < |keys| ensures p[i] == q[i - 1] {
      assert keys[1..][i - 1] == keys[i];
      LaterIn(keys[1..], dims - {keys[0]}, i - 1);
    }
    assert p == [p[0]] + q;
  }

  lemma LaterIn(keys: seq<string>, dims: map<string, string>, i: nat)
    requires i < |keys| && Enumerates(keys, dims)
    ensures keys[i] in dims
  {
    assert keys[i] in keys;
  }

  /** The event with everything one field further left, up to the first dimension. */
  function Shifted(e: Event, k: string): Event
    requires k in e.dimensions
  {
    e.(region := e.region + [NUL] + e.project, project := e.sku, sku := e.resourceID,
       resourceID := k + ("=" + e.dimensions[k]), dimensions := e.dimensions - {k})
  }

  lemma ShiftedPieces(c: Codec, e: Event, all: seq<string>)
    requires all != [] && Enumerates(all, e.dimensions) && Enumerates(all[1..], e.dimensions - {all[0]})
    ensures Pieces(c, e, all) == Pieces(c, Shifted(e, all[0]), all[1..])
  {
    hide Cut, CutAll, Pairs;
    var f := Shifted(e, all[0]);
    var rest := Pairs(all[1..], f.dimensions);
    FirstPair(all, e.dimensions);
    CutAllFour(e.region, e.project, e.sku, e.resourceID, [f.resourceID] + rest);
    CutAllFirst(f.resourceID, rest);
    CutAllFour(f.region, f.project, f.sku, f.resourceID, rest);
    CutBoth(e.region, e.project);
  }

  lemma DimensionMoves(c: Codec, e: Event, keys: seq<string>) returns (f: Event, keys': seq<string>)
    requires IsValid(e) && Enumerates(keys, e.dimensions) && e.dimensions != map[]
    ensures Confuses(c, e, keys, f, keys')
  {
    hide Pairs, Sort, IsMetric, HashedIn, Pieces;
    SortedEnumerates(keys, e.dimensions);
    var all := Sort(keys);
    EntriesNeedKeys(all, e.dimensions);
    keys' := all[1..];
    WithoutFirst(all, e.dimensions);
    f := Shifted(e, all[0]);
    TailSorted(keys, keys');
    SameString(c, e, keys, f, keys');
    ShiftedPieces(c, e, all);
    assert |f.region| > |e.region|;
  }

  lemma TailSorted(keys: seq<string>, rest: seq<string>)
    requires Distinct(keys) && Sort(keys) != [] && rest == Sort(keys)[1..]
    ensures Sort(rest) == rest
  {
    hide Sort, Less;
    SortSorts(keys);
    SortOfSorted(rest);
  }

  /** The event whose tenant stops before the header inside its name, which becomes its own header. */
  ghost function Reheaded(c: Codec, e: Event, i: nat, s: Time, t: Time): Event
    requires HeaderAt(c, Cut(e.tenant), i, s, t)
  {
    var ts := Cut(e.tenant);
    e.(tenant := Glue(ts[..i]), metric := ts[i], windowStart := s, windowEnd := t,
       region := Glue(ts[i + 3..] + [e.metric, c.render(e.windowStart), c.render(e.windowEnd)]) + [NUL] + e.region)
  }

  lemma ReheadedPieces(c: Codec, e: Event, keys: seq<string>, i: nat, s: Time, t: Time)
    requires c.Valid() && IsMetric(e.metric) && Enumerates(keys, e.dimensions) && HeaderAt(c, Cut(e.tenant), i, s, t)
    ensures Pieces(c, e, keys) == Pieces(c, Reheaded(c, e, i, s, t), keys) && Reheaded(c, e, i, s, t).tenant != e.tenant
  {
    hide Cut, CutAll, Pairs, IsMetric, Glue, Head;
    var ts := Cut(e.tenant);
    var f := Reheaded(c, e, i, s, t);
    var moved := ts[i + 3..] + [e.metric, c.render(e.windowStart), c.render(e.windowEnd)];
    MetricIsPlain(e.metric);
    CutGlue(ts[..i]);
    CutGlue(moved);
    CutBoth(Glue(moved), e.region);
    HeadPieces(c, e);
    HeadPieces(c, f);
    CutAllFour(e.region, e.project, e.sku, e.resourceID, Pairs(keys, e.dimensions));
    CutAllFour(f.region, f.project, f.sku, f.resourceID, Pairs(keys, e.dimensions));
    assert ts == ts[..i] + [ts[i], ts[i + 1], ts[i + 2]] + ts[i + 3..];
    assert |Cut(f.tenant)| < |ts|;
  }

  lemma HeaderMoves(c: Codec, e: Event, keys: seq<string>) returns (f: Event)
    requires c.Valid() && IsValid(e) && Enumerates(keys, e.dimensions) && HoldsHeader(c, e.tenant)
    ensures Confuses(c, e, keys, f, keys)
  {
    hide Cut, Sort, IsMetric, HashedIn, Glue, Pieces;
    var i: nat, s: Time, t: Time :| HeaderAt(c, Cut(e.tenant), i, s, t);
    f := Reheaded(c, e, i, s, t);
    GluedPrefix(e.tenant, i);
    SameString(c, e, keys, f, keys);
    ReheadedPieces(c, e, Sort(keys), i, s, t);
  }

  lemma GluedPrefix(s: string, i: nat)
    requires 1 <= i <= |Cut(s)|
    ensures |Glue(Cut(s)[..i])| <= |s|
  {
    hide Cut, Join;
    assert Cut(s) == Cut(s)[..i] + Cut(s)[i..];
    JoinConcat(Cut(s)[..i], Cut(s)[i..]);
    JoinCut(s);
    GlueJoins(Cut(s)[..i]);
  }

  /** Some valid event of another identity hashes the same string as a valid event exactly when that
      event has a dimension, or a NUL byte in its region, project, SKU or resource ID, or a tenant whose
      name holds a metric code and a window between NUL bytes. */
  lemma ConfusedExactly(c: Codec, e: Event, keys: seq<string>)
    requires c.Valid() && TimesAreNoMetrics(c) && IsValid(e) && Enumerates(keys, e.dimensions)
    ensures (exists f, keys' :: Confuses(c, e, keys, f, keys')) <==> Loose(e) || HoldsHeader(c, e.tenant)
  {
    hide Confuses, HoldsHeader;
    forall f, keys' | Confuses(c, e, keys, f, keys') ensures Loose(e) || HoldsHeader(c, e.tenant) {
      OnlyThen(c, e, keys, f, keys');
    }
    if e.dimensions != map[] {
      var f, keys' := DimensionMoves(c, e, keys);
    } else if Loose(e) {
      var f := FieldMoves(c, e, keys);
    } else if HoldsHeader(c, e.tenant) {
      var f := HeaderMoves(c, e, keys);
    }
  }

  // ---- an input ----

  function Plain(dims: map<string, string>): Event
  {
    Event("", "vb1_0", "acme", "gpu_hours", 1, "hour", 60, 120, "", "", "", "", dims, "collector", 120)
  }

  /** Two valid events whose dimensions differ, with one identity string. */
  lemma NulConfuses(c: Codec)
    ensures var e := Plain(map["a" := "1\0b=2"]); var f := Plain(map["a" := "1", "b" := "2"]);
      && IsValid(e) && IsValid(f) && !SameIdentity(e, f)
      && Enumerates(["a"], e.dimensions) && Enumerates(["a", "b"], f.dimensions)
      && HashedIn(c, e, ["a"]) == HashedIn(c, f, ["a", "b"])
  {
    hide HashedIn, Pieces, IsValid, IsMetric;
    var e, f := Plain(map["a" := "1\0b=2"]), Plain(map["a" := "1", "b" := "2"]);
    PlainIsValid(e.dimensions);
    PlainIsValid(f.dimensions);
    assert "b" !in e.dimensions && "b" in f.dimensions;
    SortOfSorted(["a"]);
    SortOfSorted(["a", "b"]);
    SameString(c, e, ["a"], f, ["a", "b"]);
    PlainPieces(c);
  }

  lemma PlainIsValid(dims: map<string, string>)
    requires forall k :: k in dims ==> k == "a" || k == "b"
    ensures IsValid(Plain(dims))
  {
  }

  lemma PlainPieces(c: Codec)
    requires Enumerates(["a"], Plain(map["a" := "1\0b=2"]).dimensions)
    requires Enumerates(["a", "b"], Plain(map["a" := "1", "b" := "2"]).dimensions)
    ensures Pieces(c, Plain(map["a" := "1\0b=2"]), ["a"]) == Pieces(c, Plain(map["a" := "1", "b" := "2"]), ["a", "b"])
  {
    hide Cut, CutAll, Pairs;
    PairsOfBoth();
    var joined := "a=1" + [NUL] + "b=2";
    CutBoth("a=1", "b=2");
    CutAllFour("", "", "", "", [joined]);
    CutAllFour("", "", "", "", ["a=1", "b=2"]);
    CutAllFirst(joined, []);
    CutAllFirst("b=2", []);
    CutAllFirst("a=1", ["b=2"]);
    assert [joined] + [] == [joined] && ["b=2"] + [] == ["b=2"] && ["a=1"] + ["b=2"] == ["a=1", "b=2"];
  }

  lemma PairsOfBoth()
    ensures Pairs(["a"], map["a" := "1\0b=2"]) == ["a=1" + [NUL] + "b=2"]
    ensures Pairs(["a", "b"], map["a" := "1", "b" := "2"]) == ["a=1", "b=2"]
  {
    assert "a" + ("=" + "1\0b=2") == "a=1" + [NUL] + "b=2";
    var dims := map["a" := "1", "b" := "2"];
    assert dims["a"] == "1" && dims["b"] == "2";
    var p := Pairs(["a", "b"], dims);
    assert p[0] == "a" + ("=" + "1") && p[1] == "b" + ("=" + "2");
    assert "a" + ("=" + "1") == "a=1" && "b" + ("=" + "2") == "b=2";
  }
}
