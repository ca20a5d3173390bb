/** The properties asked of the ledger's codec can be met: a plain encoding of records has them all. */
module CodecExists {
  import opened Text
  import opened Usage
  import opened Ledger
  import Identity
  import Confusion

  // ---- numbers and strings, readable from the front ----

  /** The digits and a mark. */
  function Number(n: nat): (s: string)
    ensures '\n' !in s
  {
    Decimal(n) + ";"
  }

  lemma NumberFront(a: nat, x: string, b: nat, y: string)
    requires Number(a) + x == Number(b) + y
    ensures a == b && x == y
  {
    assert Number(a) + x == Decimal(a) + (";" + x) && Number(b) + y == Decimal(b) + (";" + y);
    Identity.CutAtMark(Decimal(a), ";" + x, Decimal(b), ";" + y, ';');
    assert (";" + x)[1..] == x && (";" + y)[1..] == y;
    DecimalRoundTrip(a);
    DecimalRoundTrip(b);
  }

  function Numbers(ns: seq<nat>): (s: string)
    ensures '\n' !in s
  {
    if ns == [] then "" else Number(ns[0]) + Numbers(ns[1..])
  }

  lemma {:induction false} NumbersFront(a: seq<nat>, x: string, b: seq<nat>, y: string)
    requires |a| == |b| && Numbers(a) + x == Numbers(b) + y
    ensures a == b && x == y
  {
    if a != [] {
      assert Numbers(a) + x == Number(a[0]) + (Numbers(a[1..]) + x)
          && Numbers(b) + y == Number(b[0]) + (Numbers(b[1..]) + y);
      NumberFront(a[0], Numbers(a[1..]) + x, b[0], Numbers(b[1..]) + y);
      NumbersFront(a[1..], x, b[1..], y);
      assert a == [a[0]] + a[1..] && b == [b[0]] + b[1..];
    } else {
      assert "" + x == x && "" + y == y;
    }
  }

  function Codes(s: string): (r: seq<nat>)
    ensures |r| == |s|
  {
    seq(|s|, i requires 0 <= i < |s| => s[i] as nat)
  }

  /** A string as its length and its character codes. */
  function Quoted(s: string): (r: string)
    ensures '\n' !in r
  {
    Number(|s|) + Numbers(Codes(s))
  }

  lemma QuotedFront(a: string, x: string, b: string, y: string)
    requires Quoted(a) + x == Quoted(b) + y
    ensures a == b && x == y
  {
    assert Quoted(a) + x == Number(|a|) + (Numbers(Codes(a)) + x)
        && Quoted(b) + y == Number(|b|) + (Numbers(Codes(b)) + y);
    NumberFront(|a|, Numbers(Codes(a)) + x, |b|, Numbers(Codes(b)) + y);
    NumbersFront(Codes(a), x, Codes(b), y);
    forall i | 0 <= i < |a| ensures a[i] == b[i] { assert Codes(a)[i] == Codes(b)[i]; }
  }

  function AllQuoted(ss: seq<string>): (r: string)
    ensures '\n' !in r
  {
    if ss == [] then "" else Quoted(ss[0]) + AllQuoted(ss[1..])
  }

  lemma {:induction false} AllQuotedInjective(a: seq<string>, b: seq<string>)
    requires |a| == |b| && AllQuoted(a) == AllQuoted(b)
    ensures a == b
  {
    if a != [] {
      QuotedFront(a[0], AllQuoted(a[1..]), b[0], AllQuoted(b[1..]));
      AllQuotedInjective(a[1..], b[1..]);
      assert a == [a[0]] + a[1..] && b == [b[0]] + b[1..];
    }
  }

  // ---- records ----

  ghost function Keys(dims: map<string, string>): (keys: seq<string>)
    ensures Identity.Enumerates(keys, dims)
  {
    Identity.SomeOrder(dims);
    var keys :| Identity.Enumerates(keys, dims);
    keys
  }

  /** Keys and values in turn. */
  ghost function Entries(dims: map<string, string>): seq<string>
  {
    var keys := Keys(dims);
    keys + seq(|keys|, i requires 0 <= i < |keys| => dims[keys[i]])
  }

  lemma EntriesInjective(d: map<string, string>, e: map<string, string>)
    requires Entries(d) == Entries(e)
    ensures d == e
  {
    var ks, ls := Keys(d), Keys(e);
    assert |Entries(d)| == 2 * |ks| && |Entries(e)| == 2 * |ls|;
    assert Entries(d)[..|ks|] == ks && Entries(e)[..|ks|] == ls;
    forall k | k in d ensures k in e && d[k] == e[k] {
      var i :| 0 <= i < |ks| && ks[i] == k;
      assert Entries(d)[|ks| + i] == d[k] && Entries(e)[|ks| + i] == e[k];
    }
  }

  function SignOf(n: int): nat { if n < 0 then 1 else 0 }

  function Size(n: int): nat { if n < 0 then -n else n }

  ghost function NumbersOf(r: Record): seq<nat>
  {
    match r.payload
    case EventPayload(e) => [0, r.number, r.at, SignOf(e.quantity), Size(e.quantity), e.windowStart, e.windowEnd,
        e.recordedAt]
    case CommitPayload(c) => [1, r.number, r.at, c.windowEnd, c.events, 0, 0, 0]
  }

  ghost function StringsOf(r: Record): seq<string>
  {
    match r.payload
    case EventPayload(e) =>
      [r.prev, e.schemaVersion, e.id, e.tenant, e.metric, e.unit, e.region, e.project, e.sku, e.resourceID, e.source]
          + Entries(e.dimensions)
    case CommitPayload(c) => [r.prev, c.source, c.note]
  }

  ghost function Body(r: Record): string
  {
    Numbers(NumbersOf(r)) + (Number(|StringsOf(r)|) + AllQuoted(StringsOf(r)))
  }

  lemma SameFields(r: Record, s: Record)
    requires NumbersOf(r) == NumbersOf(s) && StringsOf(r) == StringsOf(s)
    ensures r == s
  {
    assert NumbersOf(r)[0] == NumbersOf(s)[0] && NumbersOf(r)[1] == NumbersOf(s)[1]
        && NumbersOf(r)[2] == NumbersOf(s)[2];
    assert StringsOf(r)[0] == StringsOf(s)[0];
    match (r.payload, s.payload)
    case (EventPayload(e), EventPayload(f)) => SameEvents(r, s, e, f);
    case (CommitPayload(c), CommitPayload(d)) =>
      assert NumbersOf(r)[3] == NumbersOf(s)[3] && NumbersOf(r)[4] == NumbersOf(s)[4];
      assert StringsOf(r)[1] == StringsOf(s)[1] && StringsOf(r)[2] == StringsOf(s)[2];
    case _ =>
  }

  lemma SameEvents(r: Record, s: Record, e: Event, f: Event)
    requires r.payload == EventPayload(e) && s.payload == EventPayload(f)
    requires NumbersOf(r) == NumbersOf(s) && StringsOf(r) == StringsOf(s)
    ensures e == f
  {
    hide Entries;
    assert forall i :: 3 <= i < 8 ==> NumbersOf(r)[i] == NumbersOf(s)[i];
    assert e.quantity == f.quantity by {
      assert NumbersOf(r)[3] == NumbersOf(s)[3] && NumbersOf(r)[4] == NumbersOf(s)[4];
    }
    assert NumbersOf(r)[5] == NumbersOf(s)[5] && NumbersOf(r)[6] == NumbersOf(s)[6]
        && NumbersOf(r)[7] == NumbersOf(s)[7];
    var a, b := StringsOf(r), StringsOf(s);
    assert a[1] == b[1] && a[2] == b[2] && a[3] == b[3] && a[4] == b[4] && a[5] == b[5];
    assert a[6] == b[6] && a[7] == b[7] && a[8] == b[8] && a[9] == b[9] && a[10] == b[10];
    assert a[11..] == Entries(e.dimensions) && b[11..] == Entries(f.dimensions);
    EntriesInjective(e.dimensions, f.dimensions);
  }

  lemma BodyInjective(r: Record, s: Record)
    requires Body(r) == Body(s)
    ensures r == s
  {
    hide NumbersOf, StringsOf, Number, Numbers, AllQuoted;
    assert |NumbersOf(r)| == |NumbersOf(s)| == 8 by { EightNumbers(r); EightNumbers(s); }
    NumbersFront(NumbersOf(r), Number(|StringsOf(r)|) + AllQuoted(StringsOf(r)), NumbersOf(s), Number(|StringsOf(s)|)
        + AllQuoted(StringsOf(s)));
    NumberFront(|StringsOf(r)|, AllQuoted(StringsOf(r)), |StringsOf(s)|, AllQuoted(StringsOf(s)));
    AllQuotedInjective(StringsOf(r), StringsOf(s));
    SameFields(r, s);
  }

  lemma EightNumbers(r: Record)
    ensures |NumbersOf(r)| == 8
  {
  }

  // ---- the codec ----

  ghost function Marshal(r: Record): string
  {
    SEQ_PREFIX + Decimal(r.number) + "," + Body(r)
  }

  lemma MarshalInjective(r: Record, s: Record)
    requires Marshal(r) == Marshal(s)
    ensures r == s
  {
    hide Body;
    var a, b := Decimal(r.number) + ("," + Body(r)), Decimal(s.number) + ("," + Body(s));
    assert Marshal(r) == SEQ_PREFIX + a && Marshal(s) == SEQ_PREFIX + b;
    assert (SEQ_PREFIX + a)[|SEQ_PREFIX|..] == a && (SEQ_PREFIX + b)[|SEQ_PREFIX|..] == b;
    Identity.CutAtMark(Decimal(r.number), "," + Body(r), Decimal(s.number), "," + Body(s), ',');
    assert ("," + Body(r))[1..] == Body(r) && ("," + Body(s))[1..] == Body(s);
    BodyInjective(r, s);
  }

  ghost function Unmarshal(s: string): Option<Record>
  {
    if exists r :: Marshal(r) == s then (var r :| Marshal(r) == s; Some(r)) else None
  }

  const DIGEST: string := seq(64, _ => '0')

  ghost function Peek(line: string): Option<(Time, Time)>
  {
    if |line| < 65 then None
    else match Unmarshal(line[65..])
      case Some(Record(_, _, _, EventPayload(e))) => Some((e.windowStart, e.windowEnd))
      case _ => None
  }

  ghost function Sample(): Codec
  {
    Codec((r: Record) => Marshal(r), (s: string) => Unmarshal(s), (_: string) => DIGEST, (line: string) => Peek(line))
  }

  /** What the ledger results ask of JSON, the hash and the text search is satisfiable. */
  lemma CodecsExist()
    ensures Sample().Valid()
  {
    hide Body;
    var c := Sample();
    forall r ensures c.unmarshal(c.marshal(r)) == Some(r) { Unmarshals(r); }
    forall r ensures '\n' !in c.marshal(r) { NoNewline(r); }
    forall r ensures c.StartsWithSeq(r) {
      assert c.marshal(r)[..|SEQ_PREFIX + Decimal(r.number) + ","|] == SEQ_PREFIX + Decimal(r.number) + ",";
    }
    forall r ensures c.PeeksWindow(r) {
      assert c.Stem(r)[65..] == Marshal(r);
      Unmarshals(r);
    }
    assert |DIGEST| == 64 && forall ch :: ch in DIGEST ==> ch == '0';
  }

  lemma Unmarshals(r: Record)
    ensures Unmarshal(Marshal(r)) == Some(r)
  {
    hide Marshal;
    forall s | Marshal(s) == Marshal(r) ensures s == r { MarshalInjective(s, r); }
  }

  lemma NoNewline(r: Record)
    ensures '\n' !in Marshal(r)
  {
    hide NumbersOf, StringsOf, Numbers, AllQuoted;
  }

  /** So is what the identity results ask of the rendering of instants. */
  lemma RenderingsExist()
    ensures var c := Identity.Codec((t: Time) => Decimal(t), (s: string) => s);
      c.Valid() && Confusion.TimesAreNoMetrics(c)
  {
    forall t: Time ensures Identity.NUL !in Decimal(t) { }
    forall t: Time ensures !Identity.IsMetric(Decimal(t)) { assert Decimal(t)[0] in Decimal(t); }
    forall s: Time, t: Time | Decimal(s) == Decimal(t) ensures s == t {
      DecimalRoundTrip(s);
      DecimalRoundTrip(t);
    }
  }
}
