/** The string an event's ID is hashed from (DeriveID in internal/usage/usage.go). */
module Identity {
  import opened Usage

  const SCHEMA_VERSION: string := "vbilling.usage/v1"
  const NUL: char := '\0'

  /** Parameters: the rendering of an instant (RFC 3339, section 5.6, with nanoseconds, in UTC) and the hash of a
      string. */
  datatype Codec = Codec(render: Time -> string, hash: string -> string)
  {
    ghost predicate Valid()
    {
      && (forall t: Time :: NUL !in render(t))
      && (forall s: Time, t: Time :: render(s) == render(t) ==> s == t)
    }
  }

  // ---- sorting keys ----

  /** Byte order, as sort.Strings uses it. */
  predicate Less(a: string, b: string)
  {
    b != [] && (a == [] || a[0] < b[0] || (a[0] == b[0] && Less(a[1..], b[1..])))
  }

  lemma {:induction false} LessTrans(a: string, b: string, c: string)
    requires Less(a, b) && Less(b, c)
    ensures Less(a, c)
  {
    if a != [] && a[0] == b[0] == c[0] { LessTrans(a[1..], b[1..], c[1..]); }
  }

  lemma {:induction false} LessTotal(a: string, b: string)
    ensures Less(a, b) || Less(b, a) || a == b
    ensures !(Less(a, b) && Less(b, a)) && !Less(a, a)
  {
    if a != [] { LessTotal(a[1..], a[1..]); }
    if a != [] && b != [] && a[0] == b[0] {
      LessTotal(a[1..], b[1..]);
      assert a == [a[0]] + a[1..] && b == [b[0]] + b[1..];
    }
  }

  predicate Sorted(s: seq<string>)
  {
    forall i, j :: 0 <= i < j < |s| ==> Less(s[i], s[j])
  }

  /** The place of a new key among sorted ones. */
  function Insert(k: string, s: seq<string>): seq<string>
  {
    if s == [] || Less(k, s[0]) then [k] + s else [s[0]] + Insert(k, s[1..])
  }

  function Sort(keys: seq<string>): seq<string>
  {
    if keys == [] then [] else Insert(keys[|keys| - 1], Sort(keys[..|keys| - 1]))
  }

  lemma {:induction false} InsertSorts(k: string, s: seq<string>)
    requires Sorted(s) && k !in s
    ensures Sorted(Insert(k, s)) && forall j :: j in Insert(k, s) <==> j == k || j in s
  {
    if s != [] {
      LessTotal(k, s[0]);
      if Less(k, s[0]) {
        forall j | 1 <= j < |s| ensures Less(k, s[j]) { LessTrans(k, s[0], s[j]); }
      } else {
        assert s == [s[0]] + s[1..];
        InsertSorts(k, s[1..]);
        var rest := Insert(k, s[1..]);
        forall j | 0 <= j < |rest| ensures Less(s[0], rest[j]) { assert rest[j] in rest; }
      }
    }
  }

  /** The keys of a map in any order, as a range over it yields them. */
  ghost predicate Enumerates(keys: seq<string>, dims: map<string, string>)
  {
    && (forall k :: k in keys <==> k in dims)
    && (forall i, j :: 0 <= i < j < |keys| ==> keys[i] != keys[j])
  }

  predicate Distinct(keys: seq<string>)
  {
    forall i, j :: 0 <= i < j < |keys| ==> keys[i] != keys[j]
  }

  lemma {:induction false} SortSorts(keys: seq<string>)
    requires Distinct(keys)
    ensures Sorted(Sort(keys)) && forall k :: k in Sort(keys) <==> k in keys
  {
    if keys != [] {
      var n := |keys| - 1;
      assert keys == keys[..n] + [keys[n]];
      SortSorts(keys[..n]);
      InsertSorts(keys[n], Sort(keys[..n]));
    }
  }

  lemma EmptyTogether(a: seq<string>, b: seq<string>)
    requires forall k :: k in a <==> k in b
    ensures a == [] <==> b == []
  {
    if a != [] { assert a[0] in b; }
    if b != [] { assert b[0] in a; }
  }

  lemma {:induction false} SortedUnique(a: seq<string>, b: seq<string>)
    requires Sorted(a) && Sorted(b) && forall k :: k in a <==> k in b
    ensures a == b
  {
    hide Less;
    EmptyTogether(a, b);
    if a != [] {
      assert a[0] in b && b != [];
      assert b[0] in a;
      HeadsAgree(a, b);
      assert a == [a[0]] + a[1..] && b == [b[0]] + b[1..];
      LessTotal(a[0], a[0]);
      forall k ensures k in a[1..] <==> k in b[1..] {
        assert k in a[1..] ==> k in b && Less(a[0], k);
        assert k in b[1..] ==> k in a && Less(b[0], k);
      }
      SortedUnique(a[1..], b[1..]);
    }
  }

  lemma HeadIsLeast(s: seq<string>, k: string)
    requires Sorted(s) && k in s
    ensures k == s[0] || Less(s[0], k)
  {
  }

  lemma HeadsAgree(a: seq<string>, b: seq<string>)
    requires a != [] && b != [] && Sorted(a) && Sorted(b) && a[0] in b && b[0] in a
    ensures a[0] == b[0]
  {
    LessTotal(a[0], b[0]);
    HeadIsLeast(a, b[0]);
    HeadIsLeast(b, a[0]);
  }

  // ---- the identity string ----

  /** Each part behind a NUL byte. */
  function Join(parts: seq<string>): string
  {
    if parts == [] then "" else [NUL] + parts[0] + Join(parts[1..])
  }

  function Fields(c: Codec, e: Event): seq<string>
  {
    [e.tenant, e.metric, c.render(e.windowStart), c.render(e.windowEnd), e.region, e.project, e.sku, e.resourceID]
  }

  function Pairs(keys: seq<string>, dims: map<string, string>): (r: seq<string>)
    requires forall k :: k in keys ==> k in dims
    ensures |r| == |keys| && forall i :: 0 <= i < |r| ==> r[i] == keys[i] + ("=" + dims[keys[i]])
  {
    seq(|keys|, i requires 0 <= i < |keys| => keys[i] + ("=" + dims[keys[i]]))
  }

  /** What DeriveID hashes when the map yields its keys in this order. */
  ghost function HashedIn(c: Codec, e: Event, keys: seq<string>): string
    requires Enumerates(keys, e.dimensions)
  {
    SortSorts(keys);
    SCHEMA_VERSION + Join(Fields(c, e) + Pairs(Sort(keys), e.dimensions))
  }

  lemma SomeOrder(dims: map<string, string>)
    ensures exists keys :: Enumerates(keys, dims)
  {
    var keys: seq<string> := [];
    var left := dims.Keys;
    while left != {}
      invariant left <= dims.Keys && Distinct(keys) && forall k :: k in keys <==> k in dims && k !in left
      decreases |left|
    {
      var k :| k in left;
      left, keys := left - {k}, keys + [k];
    }
    assert Enumerates(keys, dims);
  }

  /** The derived ID of an event. */
  ghost function ID(c: Codec, e: Event): string
  {
    SomeOrder(e.dimensions);
    var keys :| Enumerates(keys, e.dimensions);
    "vb1_" + c.hash(HashedIn(c, e, keys))
  }

  /** The order a map yields its keys in does not matter. */
  lemma OrderIndependent(c: Codec, e: Event, keys: seq<string>, keys': seq<string>)
    requires Enumerates(keys, e.dimensions) && Enumerates(keys', e.dimensions)
    ensures HashedIn(c, e, keys) == HashedIn(c, e, keys')
  {
    SortSorts(keys);
    SortSorts(keys');
    SortedUnique(Sort(keys), Sort(keys'));
  }

  // ---- canonical ----

  predicate KeyChar(ch: char) { 'a' <= ch <= 'z' || '0' <= ch <= '9' || ch == '_' }

  /** dimKeyRe. */
  predicate IsDimKey(k: string)
  {
    1 <= |k| <= 64 && 'a' <= k[0] <= 'z' && forall i :: 0 <= i < |k| ==> KeyChar(k[i])
  }

  predicate IDChar(ch: char)
  {
    'A' <= ch <= 'Z' || 'a' <= ch <= 'z' || '0' <= ch <= '9' || ch == '.' || ch == '_' || ch == ':' || ch == '-'
  }

  /** idRe. */
  predicate IsID(s: string) { 1 <= |s| <= 100 && forall i :: 0 <= i < |s| ==> IDChar(s[i]) }

  /** metricRe. */
  predicate IsMetric(s: string)
  {
    1 <= |s| <= 100 && 'a' <= s[0] <= 'z' && forall i :: 0 <= i < |s| ==> KeyChar(s[i])
  }

  /** What Validate checks besides the ID and the quantity. */
  predicate WellDescribed(e: Event)
  {
    && 1 <= |e.tenant| <= 128 && IsMetric(e.metric)
    && e.windowStart != 0 && e.windowEnd != 0 && e.windowStart < e.windowEnd
    && forall k :: k in e.dimensions ==> IsDimKey(k)
  }

  /** Validate. */
  predicate IsValid(e: Event)
  {
    IsID(e.id) && e.quantity >= 0 && WellDescribed(e)
  }

  ghost predicate Clean(e: Event)
  {
    && NUL !in e.tenant && NUL !in e.metric && NUL !in e.region && NUL !in e.project && NUL !in e.sku
        && NUL !in e.resourceID
    && forall k :: k in e.dimensions ==> IsDimKey(k) && NUL !in e.dimensions[k]
  }

  predicate SameIdentity(e: Event, f: Event)
  {
    && e.tenant == f.tenant && e.metric == f.metric && e.windowStart == f.windowStart && e.windowEnd == f.windowEnd
    && e.region == f.region && e.project == f.project && e.sku == f.sku && e.resourceID == f.resourceID
    && e.dimensions == f.dimensions
  }

  lemma CutAtMark(p: string, s: string, q: string, t: string, ch: char)
    requires ch !in p && ch !in q && p + s == q + t
    requires (s == [] || s[0] == ch) && (t == [] || t[0] == ch)
    ensures p == q && s == t
  {
    assert s != [] ==> (p + s)[|p|] == ch;
    assert t != [] ==> (q + t)[|q|] == ch;
    assert forall i :: 0 <= i < |q| ==> (q + t)[i] == q[i];
    assert forall i :: 0 <= i < |p| ==> (p + s)[i] == p[i];
    assert (p + s)[..|p|] == p && (q + t)[..|q|] == q;
    assert (p + s)[|p|..] == s && (q + t)[|q|..] == t;
  }

  lemma {:induction false} JoinInjective(a: seq<string>, b: seq<string>)
    requires (forall p :: p in a ==> NUL !in p) && (forall p :: p in b ==> NUL !in p) && Join(a) == Join(b)
    ensures a == b
  {
    if a != [] && b != [] {
      assert Join(a)[1..] == a[0] + Join(a[1..]) && Join(b)[1..] == b[0] + Join(b[1..]);
      CutAtMark(a[0], Join(a[1..]), b[0], Join(b[1..]), NUL);
      JoinInjective(a[1..], b[1..]);
      assert a == [a[0]] + a[1..] && b == [b[0]] + b[1..];
    }
  }

  lemma PartsClean(c: Codec, e: Event, keys: seq<string>)
    requires c.Valid() && Clean(e) && forall k :: k in keys ==> k in e.dimensions
    ensures forall p :: p in Fields(c, e) + Pairs(keys, e.dimensions) ==> NUL !in p
  {
    var parts := Fields(c, e) + Pairs(keys, e.dimensions);
    forall i | 8 <= i < |parts| ensures NUL !in parts[i] {
      var k := keys[i - 8];
      assert IsDimKey(k);
      assert parts[i] == k + ("=" + e.dimensions[k]);
    }
  }

  lemma PairInjective(k: string, v: string, l: string, w: string)
    requires IsDimKey(k) && IsDimKey(l) && k + ("=" + v) == l + ("=" + w)
    ensures k == l && v == w
  {
    CutAtMark(k, "=" + v, l, "=" + w, '=');
    assert ("=" + v)[1..] == v && ("=" + w)[1..] == w;
  }

  lemma PairsInjective(e: Event, keys: seq<string>, f: Event, keys': seq<string>)
    requires Clean(e) && Clean(f) && Enumerates(keys, e.dimensions) && Enumerates(keys', f.dimensions)
    requires Pairs(keys, e.dimensions) == Pairs(keys', f.dimensions)
    ensures e.dimensions == f.dimensions
  {
    hide Pairs;
    assert |keys| == |keys'| == |Pairs(keys, e.dimensions)|;
    forall i | 0 <= i < |keys| ensures keys[i] == keys'[i] && e.dimensions[keys[i]] == f.dimensions[keys'[i]] {
      assert IsDimKey(keys[i]) && IsDimKey(keys'[i]);
      assert Pairs(keys, e.dimensions)[i] == Pairs(keys', f.dimensions)[i];
      PairInjective(keys[i], e.dimensions[keys[i]], keys'[i], f.dimensions[keys'[i]]);
    }
    assert keys == keys';
    assert forall k :: k in e.dimensions <==> k in f.dimensions;
  }

  lemma SortedEnumerates(keys: seq<string>, dims: map<string, string>)
    requires Enumerates(keys, dims)
    ensures Enumerates(Sort(keys), dims)
  {
    SortSorts(keys);
    var s := Sort(keys);
    forall i, j | 0 <= i < j < |s| ensures s[i] != s[j] { LessTotal(s[i], s[j]); }
  }

  /** Identity strings are canonical: for fields without NUL bytes and dimension keys Validate accepts,
      two events hash the same string exactly when every identity-bearing field and the dimension map
      are equal, whatever order the maps yield their keys in. */
  lemma Canonical(c: Codec, e: Event, keys: seq<string>, f: Event, keys': seq<string>)
    requires c.Valid() && Clean(e) && Clean(f) && Enumerates(keys, e.dimensions) && Enumerates(keys', f.dimensions)
    ensures HashedIn(c, e, keys) == HashedIn(c, f, keys') <==> SameIdentity(e, f)
  {
    hide Join, Pairs, Clean, Sort;
    SortSorts(keys);
    SortSorts(keys');
    if SameIdentity(e, f) { OrderIndependent(c, e, keys, keys'); }
    if HashedIn(c, e, keys) == HashedIn(c, f, keys') {
      var a := Fields(c, e) + Pairs(Sort(keys), e.dimensions);
      var b := Fields(c, f) + Pairs(Sort(keys'), f.dimensions);
      assert (SCHEMA_VERSION + Join(a))[|SCHEMA_VERSION|..] == Join(a)
          && (SCHEMA_VERSION + Join(b))[|SCHEMA_VERSION|..] == Join(b);
      PartsClean(c, e, Sort(keys));
      PartsClean(c, f, Sort(keys'));
      JoinInjective(a, b);
      SortedEnumerates(keys, e.dimensions);
      SortedEnumerates(keys', f.dimensions);
      SameParts(c, e, keys, f, keys');
    }
  }

  lemma SameParts(c: Codec, e: Event, keys: seq<string>, f: Event, keys': seq<string>)
    requires c.Valid() && Clean(e) && Clean(f) && Enumerates(keys, e.dimensions) && Enumerates(keys', f.dimensions)
    requires Enumerates(Sort(keys), e.dimensions) && Enumerates(Sort(keys'), f.dimensions)
    requires Fields(c, e) + Pairs(Sort(keys), e.dimensions) == Fields(c, f) + Pairs(Sort(keys'), f.dimensions)
    ensures SameIdentity(e, f)
  {
    var a := Fields(c, e) + Pairs(Sort(keys), e.dimensions);
    var b := Fields(c, f) + Pairs(Sort(keys'), f.dimensions);
    assert a[..8] == Fields(c, e) && b[..8] == Fields(c, f);
    assert a[8..] == Pairs(Sort(keys), e.dimensions) && b[8..] == Pairs(Sort(keys'), f.dimensions);
    assert Fields(c, e)[0] == Fields(c, f)[0] && Fields(c, e)[1] == Fields(c, f)[1]
        && Fields(c, e)[2] == Fields(c, f)[2];
    assert Fields(c, e)[3] == Fields(c, f)[3] && Fields(c, e)[4] == Fields(c, f)[4]
        && Fields(c, e)[5] == Fields(c, f)[5];
    assert Fields(c, e)[6] == Fields(c, f)[6] && Fields(c, e)[7] == Fields(c, f)[7];
    PairsInjective(e, Sort(keys), f, Sort(keys'));
  }

  /** So derived IDs are equal exactly for the same identity, or for two identity strings the hash confuses. */
  lemma IDsIdentify(c: Codec, e: Event, keys: seq<string>, f: Event, keys': seq<string>)
    requires c.Valid() && Clean(e) && Clean(f) && Enumerates(keys, e.dimensions) && Enumerates(keys', f.dimensions)
    ensures ID(c, e) == ID(c, f) <==>
      SameIdentity(e, f) || (HashedIn(c, e, keys) != HashedIn(c, f, keys')
          && c.hash(HashedIn(c, e, keys)) == c.hash(HashedIn(c, f, keys')))
  {
    hide Clean, SameIdentity;
    Canonical(c, e, keys, f, keys');
    IDIs(c, e, keys);
    IDIs(c, f, keys');
  }

  lemma IDIs(c: Codec, e: Event, keys: seq<string>)
    requires Enumerates(keys, e.dimensions)
    ensures ID(c, e) == "vb1_" + c.hash(HashedIn(c, e, keys)) && ID(c, e)[4..] == c.hash(HashedIn(c, e, keys))
  {
    hide HashedIn;
    SomeOrder(e.dimensions);
    forall other | Enumerates(other, e.dimensions) ensures HashedIn(c, e, other) == HashedIn(c, e, keys) {
      OrderIndependent(c, e, other, keys);
    }
    assert ID(c, e) == "vb1_" + c.hash(HashedIn(c, e, keys));
  }

  // ---- as the code computes it ----

  /** The keys of a map, in whatever order a range yields them. */
  method RangeKeys(dims: map<string, string>) returns (keys: seq<string>)
    ensures Enumerates(keys, dims)
  {
    keys := [];
    var left := dims.Keys;
    while left != {}
      invariant left <= dims.Keys && Distinct(keys) && forall k :: k in keys <==> k in dims && k !in left
      decreases |left|
    {
      var k :| k in left;
      left, keys := left - {k}, keys + [k];
    }
  }

  /** DeriveID: the fixed fields, then the sorted dimensions, each behind a NUL byte. */
  method DeriveID(c: Codec, e: Event) returns (id: string)
    ensures id == ID(c, e)
  {
    hide Sort, Pairs, Join, Fields;
    NothingJoined();
    var b := SCHEMA_VERSION;
    var parts := Fields(c, e);
    var i := 0;
    while i < |parts|
      invariant i <= |parts| && b == SCHEMA_VERSION + Join(parts[..i])
    {
      JoinAppend(parts[..i], parts[i]);
      assert parts[..i + 1] == parts[..i] + [parts[i]];
      b := b + [NUL] + parts[i];
      i := i + 1;
    }
    assert parts[..i] == parts;
    var keys := RangeKeys(e.dimensions);
    SortSorts(keys);
    var sorted := Sort(keys);
    ghost var pairs := Pairs(sorted, e.dimensions);
    i := 0;
    assert parts + pairs[..0] == parts;
    while i < |sorted|
      invariant i <= |sorted| && b == SCHEMA_VERSION + Join(parts + pairs[..i])
    {
      var pair := sorted[i] + ("=" + e.dimensions[sorted[i]]);
      JoinAppend(parts + pairs[..i], pair);
      assert parts + pairs[..i + 1] == parts + pairs[..i] + [pair];
      b := b + [NUL] + pair;
      i := i + 1;
    }
    assert pairs[..i] == pairs;
    IDIs(c, e, keys);
    return "vb1_" + c.hash(b);
  }

  lemma NothingJoined()
    ensures Join([]) == []
  {
  }

  lemma {:induction false} JoinAppend(parts: seq<string>, p: string)
    ensures Join(parts + [p]) == Join(parts) + [NUL] + p
  {
    if parts == [] {
      assert [p][1..] == [];
    } else {
      assert (parts + [p])[1..] == parts[1..] + [p];
      JoinAppend(parts[1..], p);
    }
  }
}
