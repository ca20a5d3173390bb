/** Ledger records, their line format "<digest>\t<body>\n" and the hash chain
    (internal/spool/spool.go). Marshalling and the digest are parameters. */
module Ledger {
  import opened Text
  import opened Usage

  datatype Commit = Commit(source: string, windowEnd: Time, events: nat, note: string)

  datatype Payload =
    | EventPayload(event: Event)
    | CommitPayload(commit: Commit)

  datatype Record = Record(number: nat, at: Time, prev: string, payload: Payload)

  const SEQ_PREFIX: string := "{\"seq\":"

  /** The calls into encoding/json, crypto/sha256 and the text search of peekWindow. */
  datatype Codec = Codec(
    marshal: Record -> string,
    unmarshal: string -> Option<Record>,
    sha: string -> string,
    peek: string -> Option<(Time, Time)>)
  {
    /** Where a marshalled body's "seq" field ends. */
    ghost predicate StartsWithSeq(r: Record) {
      SEQ_PREFIX + Decimal(r.number) + "," <= marshal(r)
    }

    /** What peekWindow finds in the line of a record: an event's window, nothing in a commit. */
    ghost predicate PeeksWindow(r: Record) {
      peek(Stem(r)) == match r.payload
        case EventPayload(e) => Some((e.windowStart, e.windowEnd))
        case CommitPayload(_) => None
    }

    ghost predicate Valid() {
      && (forall r :: unmarshal(marshal(r)) == Some(r))
      && (forall r :: '\n' !in marshal(r))
      && (forall r :: StartsWithSeq(r))
      && (forall r :: PeeksWindow(r))
      && (forall b :: |sha(b)| == 64 && '\t' !in sha(b) && '\n' !in sha(b))
    }

    function Digest(r: Record): string { sha(marshal(r)) }

    /** A record's line without its newline. */
    function Stem(r: Record): string { Digest(r) + "\t" + marshal(r) }

    function Line(r: Record): string { Stem(r) + "\n" }
  }

  /** The bytes of a run of records. */
  function Lines(c: Codec, recs: seq<Record>): string
  {
    if recs == [] then "" else Lines(c, recs[..|recs| - 1]) + c.Line(recs[|recs| - 1])
  }

  lemma {:induction false} LinesAppend(c: Codec, a: seq<Record>, b: seq<Record>)
    ensures Lines(c, a + b) == Lines(c, a) + Lines(c, b)
  {
    if b == [] {
      assert a + b == a;
    } else {
      var n := |b| - 1;
      LinesAppend(c, a, b[..n]);
      assert (a + b)[..|a + b| - 1] == a + b[..n];
      assert (a + b)[|a + b| - 1] == b[n];
    }
  }

  /** Record k's line stands right after the lines of the first k records. */
  lemma LineAt(c: Codec, recs: seq<Record>, k: nat)
    requires k < |recs|
    ensures Lines(c, recs[..k + 1]) == Lines(c, recs[..k]) + c.Line(recs[k])
    ensures Lines(c, recs) == Lines(c, recs[..k]) + c.Line(recs[k]) + Lines(c, recs[k + 1..])
  {
    assert recs[..k + 1][..k] == recs[..k];
    assert recs == recs[..k + 1] + recs[k + 1..];
    LinesAppend(c, recs[..k + 1], recs[k + 1..]);
  }

  // ---- parsing ----

  /** A line read back: the record and the digest written before it. */
  datatype Parsed = Parsed(rec: Record, hash: string, body: string)

  /** parseLine on a line without its newline; None for a malformed line or a wrong digest. */
  function ParseLine(c: Codec, text: string): Option<Parsed>
  {
    var tab := IndexOf(text, '\t', 0);
    if tab == |text| || tab != 64 then None
    else
      var body := text[tab + 1..];
      if c.sha(body) != text[..tab] then None
      else match c.unmarshal(body)
        case None => None
        case Some(rec) => Some(Parsed(rec, text[..tab], body))
  }

  /** parseLineNoVerify: the digest is taken on trust. */
  function ParseLineNoVerify(c: Codec, text: string): Option<Parsed>
  {
    if |text| < 66 || text[64] != '\t' then None
    else match c.unmarshal(text[65..])
      case None => None
      case Some(rec) => Some(Parsed(rec, text[..64], text[65..]))
  }

  /** peekSeq: the number between the body's {"seq": and the next comma. */
  function PeekSeq(text: string): Option<nat>
  {
    if |text| < 65 + |SEQ_PREFIX| || !(SEQ_PREFIX <= text[65..]) then None
    else
      var rest := text[65 + |SEQ_PREFIX|..];
      var end := IndexOf(rest, ',', 0);
      if end == |rest| || end == 0 then None else ParseUint(rest[..end])
  }

  lemma StemParses(c: Codec, r: Record)
    requires c.Valid()
    ensures '\n' !in c.Stem(r)
    ensures ParseLine(c, c.Stem(r)) == Some(Parsed(r, c.Digest(r), c.marshal(r)))
    ensures ParseLineNoVerify(c, c.Stem(r)) == Some(Parsed(r, c.Digest(r), c.marshal(r)))
  {
    var t := c.Stem(r);
    var h := c.Digest(r);
    assert h == c.sha(c.marshal(r));
    assert t[..64] == h && t[64] == '\t' && t[65..] == c.marshal(r);
    assert forall j :: 0 <= j < 64 ==> t[j] == h[j];
    assert IndexOf(t, '\t', 0) == 64;
    assert c.StartsWithSeq(r);
  }

  /** Peeking at a written line gives its number, or nothing past 64 bits. */
  lemma PeekSeqFinds(c: Codec, r: Record)
    requires c.Valid()
    ensures PeekSeq(c.Stem(r)) == if r.number < UINT64_LIMIT then Some(r.number) else None
  {
    var t := c.Stem(r);
    StemParses(c, r);
    assert t[65..] == c.marshal(r);
    assert c.StartsWithSeq(r);
    var d := Decimal(r.number);
    var rest := t[65 + |SEQ_PREFIX|..];
    assert rest == c.marshal(r)[|SEQ_PREFIX|..];
    assert SEQ_PREFIX + d + "," <= c.marshal(r);
    assert rest[..|d|] == d && rest[|d|] == ',';
    assert forall j :: 0 <= j < |d| ==> rest[j] == d[j] && IsDigit(d[j]);
    assert IndexOf(rest, ',', 0) == |d|;
    ParseDecimal(r.number);
  }

  // ---- the chain ----

  /** The digest the next record must name: that of the last record, or `start` before any. */
  function HeadOf(c: Codec, recs: seq<Record>, start: string): string
  {
    if recs == [] then start else c.Digest(recs[|recs| - 1])
  }

  /** Record i has the number its place gives it and names the digest of the record before it. */
  ghost predicate Linked(c: Codec, recs: seq<Record>, first: nat, start: string, i: nat)
    requires i < |recs|
  {
    recs[i].number == first + i && recs[i].prev == if i == 0 then start else c.Digest(recs[i - 1])
  }

  ghost predicate Chained(c: Codec, recs: seq<Record>, first: nat, start: string)
  {
    forall i :: 0 <= i < |recs| ==> Linked(c, recs, first, start, i)
  }

  /** The records one append writes: the payloads numbered after seq and chained after head. */
  function Batch(c: Codec, last: nat, head: string, at: Time, payloads: seq<Payload>): (recs: seq<Record>)
    ensures |recs| == |payloads|
  {
    if payloads == [] then []
    else
      var n := |payloads| - 1;
      var before := Batch(c, last, head, at, payloads[..n]);
      before + [Record(last + n + 1, at, HeadOf(c, before, head), payloads[n])]
  }

  lemma {:induction false} BatchChained(c: Codec, last: nat, head: string, at: Time, payloads: seq<Payload>)
    ensures Chained(c, Batch(c, last, head, at, payloads), last + 1, head)
    ensures var b := Batch(c, last, head, at, payloads);
      forall i :: 0 <= i < |b| ==> b[i].at == at && b[i].payload == payloads[i] && b[i].number == last + 1 + i
  {
    if payloads != [] {
      var n := |payloads| - 1;
      BatchChained(c, last, head, at, payloads[..n]);
      var before := Batch(c, last, head, at, payloads[..n]);
      var b := Batch(c, last, head, at, payloads);
      forall i | 0 <= i < |b|
        ensures Linked(c, b, last + 1, head, i)
        ensures b[i].at == at && b[i].payload == payloads[i] && b[i].number == last + 1 + i
      {
        if i < n { assert Linked(c, before, last + 1, head, i); }
      }
    }
  }

  lemma ChainedAppend(c: Codec, a: seq<Record>, b: seq<Record>, first: nat, start: string)
    requires Chained(c, a, first, start)
    requires Chained(c, b, first + |a|, HeadOf(c, a, start))
    ensures Chained(c, a + b, first, start)
    ensures HeadOf(c, a + b, start) == HeadOf(c, b, HeadOf(c, a, start))
  {
    var s := a + b;
    forall i | 0 <= i < |s| ensures Linked(c, s, first, start, i) {
      if i < |a| {
        assert Linked(c, a, first, start, i);
      } else {
        assert Linked(c, b, first + |a|, HeadOf(c, a, start), i - |a|);
      }
    }
  }

  // ---- commits, batches and watermarks ----

  predicate IsWindowCommit(r: Record) { r.payload.CommitPayload? && r.payload.commit.windowEnd != 0 }

  /** A log every append of which is complete. */
  predicate Closed(recs: seq<Record>) { recs == [] || recs[|recs| - 1].payload.CommitPayload? }

  /** The window end each source committed last. */
  function Watermarks(recs: seq<Record>): map<string, Time>
  {
    if recs == [] then map[]
    else
      var before := Watermarks(recs[..|recs| - 1]);
      var r := recs[|recs| - 1];
      if IsWindowCommit(r) then before[r.payload.commit.source := r.payload.commit.windowEnd] else before
  }

  /** Each source's committed windows strictly advance. */
  ghost predicate WindowsAdvance(recs: seq<Record>)
  {
    forall i, j :: 0 <= i < j < |recs| && IsWindowCommit(recs[i]) && IsWindowCommit(recs[j])
                   && recs[i].payload.commit.source == recs[j].payload.commit.source
      ==> recs[i].payload.commit.windowEnd < recs[j].payload.commit.windowEnd
  }
}
