/** Verify: every reachable ledger passes, and two ledgers that pass with the same head and
    record count hold the same records, unless two bodies share a digest. */
module SpoolVerify {
  import opened Text
  import opened Ledger
  import opened Segments
  import opened SpoolModel
  import opened SpoolInvariant
  import opened SpoolSteps
  import opened SpoolReads

  datatype VerifyError =
    | Unreadable(first: nat)
    | BadLine(first: nat)
    | SequenceGap(expected: nat, got: nat)
    | ChainBreak(number: nat)

  /** The running report; `due` is 0 before the first record, `prev` ends up as the head. */
  datatype VerifyState = VerifyState(prev: string, due: nat, records: nat, first: nat, last: nat,
                                     errors: seq<VerifyError>)
  {
    function Fail(e: VerifyError): VerifyState
    {
      if |errors| < 20 then this.(errors := errors + [e]) else this
    }

    predicate Ok() { errors == [] }
  }

  /** One parsed record against the chain so far. */
  function CheckLink(st: VerifyState, p: Parsed): VerifyState
  {
    var st1 := if st.due != 0 && p.rec.number != st.due then st.Fail(SequenceGap(st.due, p.rec.number)) else st;
    var st2 := if p.rec.prev != st.prev then st1.Fail(ChainBreak(p.rec.number)) else st1;
    st2.(prev := p.hash, due := p.rec.number + 1, records := st.records + 1,
         first := if st.records == 0 then p.rec.number else st.first, last := p.rec.number)
  }

  function VerifyLines(c: Codec, data: string, off: nat, name: nat, committed: nat, st: VerifyState): VerifyState
    requires off <= |data|
    decreases |data| - off
  {
    var nl := IndexOf(data, '\n', off);
    if nl == |data| then st
    else match ParseLine(c, data[off..nl])
      case None => VerifyLines(c, data, nl + 1, name, committed, st.Fail(BadLine(name)))
      case Some(p) =>
        if p.rec.number > committed then st
        else VerifyLines(c, data, nl + 1, name, committed, CheckLink(st, p))
  }

  function VerifySegments(c: Codec, files: map<nat, string>, segs: seq<Segment>, i: nat, committed: nat,
                          st: VerifyState): VerifyState
    requires i <= |segs|
    decreases |segs| - i
  {
    if i == |segs| then st
    else
      var first := segs[i].first;
      if first !in files then VerifySegments(c, files, segs, i + 1, committed, st.Fail(Unreadable(first)))
      else VerifySegments(c, files, segs, i + 1, committed, VerifyLines(c, files[first], 0, first, committed, st))
  }

  function VerifyStart(anchor: string): VerifyState { VerifyState(anchor, 0, 0, 0, 0, []) }

  function Verify(c: Codec, m: Memory, d: DiskState): VerifyState
  {
    VerifySegments(c, d.files, m.segs, 0, m.committed, VerifyStart(m.anchor))
  }

  // ---- tamper evidence: any files whatsoever ----

  /** The records Verify walks over in one file: every line that parses, up to one past committed. */
  function LineTrace(c: Codec, data: string, off: nat, committed: nat): seq<Parsed>
    requires off <= |data|
    decreases |data| - off
  {
    var nl := IndexOf(data, '\n', off);
    if nl == |data| then []
    else match ParseLine(c, data[off..nl])
      case None => LineTrace(c, data, nl + 1, committed)
      case Some(p) => if p.rec.number > committed then [] else [p] + LineTrace(c, data, nl + 1, committed)
  }

  /** The records of a ledger, in the order Verify walks over them. */
  function Trace(c: Codec, files: map<nat, string>, segs: seq<Segment>, i: nat, committed: nat): seq<Parsed>
    requires i <= |segs|
    decreases |segs| - i
  {
    if i == |segs| then []
    else
      (if segs[i].first in files then LineTrace(c, files[segs[i].first], 0, committed) else [])
      + Trace(c, files, segs, i + 1, committed)
  }

  function EndHash(t: seq<Parsed>, prev: string): string { if t == [] then prev else EndHash(t[1..], t[0].hash) }

  /** A line is what it says it is: its digest is that of its body, and its record is the body decoded. */
  predicate Genuine(c: Codec, p: Parsed) { c.sha(p.body) == p.hash && c.unmarshal(p.body) == Some(p.rec) }

  /** Genuine records, each naming the digest of the one before, with consecutive numbers from `due` (0: any). */
  predicate LinkedTrace(c: Codec, t: seq<Parsed>, prev: string, due: nat)
  {
    t == [] || (Genuine(c, t[0]) && t[0].rec.prev == prev && (due != 0 ==> t[0].rec.number == due)
                && LinkedTrace(c, t[1..], t[0].hash, t[0].rec.number + 1))
  }

  function NextExpected(t: seq<Parsed>, due: nat): nat
  {
    if t == [] then due else NextExpected(t[1..], t[0].rec.number + 1)
  }

  lemma {:induction false} LinkedAppend(c: Codec, a: seq<Parsed>, b: seq<Parsed>, prev: string, due: nat)
    ensures EndHash(a + b, prev) == EndHash(b, EndHash(a, prev))
    ensures NextExpected(a + b, due) == NextExpected(b, NextExpected(a, due))
    ensures LinkedTrace(c, a + b, prev, due)
            <==> LinkedTrace(c, a, prev, due) && LinkedTrace(c, b, EndHash(a, prev), NextExpected(a, due))
  {
    if a == [] {
      assert a + b == b;
    } else {
      LinkedAppend(c, a[1..], b, a[0].hash, a[0].rec.number + 1);
      assert (a + b)[1..] == a[1..] + b;
    }
  }

  lemma NothingLinked(c: Codec, prev: string, due: nat)
    ensures LinkedTrace(c, [], prev, due) && EndHash([], prev) == prev && NextExpected([], due) == due
  {
  }

  lemma LinkedFirst(c: Codec, p: Parsed, rest: seq<Parsed>, prev: string, due: nat)
    ensures LinkedTrace(c, [p] + rest, prev, due)
      <==> Genuine(c, p) && p.rec.prev == prev && (due != 0 ==> p.rec.number == due)
           && LinkedTrace(c, rest, p.hash, p.rec.number + 1)
    ensures EndHash([p] + rest, prev) == EndHash(rest, p.hash)
    ensures NextExpected([p] + rest, due) == NextExpected(rest, p.rec.number + 1)
  {
    assert ([p] + rest)[1..] == rest;
  }

  lemma ParsedIsGenuine(c: Codec, text: string)
    ensures var p := ParseLine(c, text); p.Some? ==> Genuine(c, p.value)
  {
  }

  /** Every complete line parses, up to a record past committed. */
  predicate LinesParse(c: Codec, data: string, off: nat, committed: nat)
    requires off <= |data|
    decreases |data| - off
  {
    var nl := IndexOf(data, '\n', off);
    nl == |data| || match ParseLine(c, data[off..nl])
      case None => false
      case Some(p) => p.rec.number > committed || LinesParse(c, data, nl + 1, committed)
  }

  /** Every segment from the i-th on has its file, in which every line parses. */
  predicate FilesParse(c: Codec, files: map<nat, string>, segs: seq<Segment>, i: nat, committed: nat)
    requires i <= |segs|
  {
    forall k :: i <= k < |segs| ==> segs[k].first in files && LinesParse(c, files[segs[k].first], 0, committed)
  }

  /** Errors are never taken back, and there is none exactly when every line parses and the records walked over
      form a chain. With errors, too, the walk goes on over every record that parses. */
  lemma {:induction false} LinesPass(c: Codec, data: string, off: nat, name: nat, committed: nat, st: VerifyState)
    requires off <= |data|
    ensures var out := VerifyLines(c, data, off, name, committed, st); var t := LineTrace(c, data, off, committed);
      && (out.Ok() <==> st.Ok() && LinesParse(c, data, off, committed) && LinkedTrace(c, t, st.prev, st.due))
      && out.prev == EndHash(t, st.prev) && out.due == NextExpected(t, st.due)
      && out.records == st.records + |t|
    decreases |data| - off
  {
    hide ParseLine, IndexOf, Genuine, LinkedTrace, EndHash, NextExpected;
    var nl := IndexOf(data, '\n', off);
    NothingLinked(c, st.prev, st.due);
    if nl < |data| {
      match ParseLine(c, data[off..nl])
      case None => LinesPass(c, data, nl + 1, name, committed, st.Fail(BadLine(name)));
      case Some(p) =>
        ParsedIsGenuine(c, data[off..nl]);
        if p.rec.number <= committed {
          LinesPass(c, data, nl + 1, name, committed, CheckLink(st, p));
          LinkedFirst(c, p, LineTrace(c, data, nl + 1, committed), st.prev, st.due);
        }
    }
  }

  lemma {:induction false} SegmentsPass(c: Codec, files: map<nat, string>, segs: seq<Segment>, i: nat, committed: nat,
                                        st: VerifyState)
    requires i <= |segs|
    ensures var out := VerifySegments(c, files, segs, i, committed, st); var t := Trace(c, files, segs, i, committed);
      && (out.Ok() <==> st.Ok() && FilesParse(c, files, segs, i, committed) && LinkedTrace(c, t, st.prev, st.due))
      && out.prev == EndHash(t, st.prev) && out.records == st.records + |t|
    decreases |segs| - i
  {
    hide VerifyLines, LineTrace, Genuine, LinesParse;
    if i < |segs| {
      var first := segs[i].first;
      if first !in files {
        SegmentsPass(c, files, segs, i + 1, committed, st.Fail(Unreadable(first)));
        assert [] + Trace(c, files, segs, i + 1, committed) == Trace(c, files, segs, i + 1, committed);
      } else {
        var data := files[first];
        LinesPass(c, data, 0, first, committed, st);
        SegmentsPass(c, files, segs, i + 1, committed, VerifyLines(c, data, 0, first, committed, st));
        LinkedAppend(c, LineTrace(c, data, 0, committed), Trace(c, files, segs, i + 1, committed), st.prev, st.due);
      }
    }
  }

  /** Verify passes exactly the ledgers that have every segment file, in which every complete line is whole and
      genuine, and whose records form one chain from the anchor; and it always counts all the records it can read
      and ends at the digest of the last. */
  lemma VerifiesExactly(c: Codec, m: Memory, d: DiskState)
    ensures var out := Verify(c, m, d); var t := Trace(c, d.files, m.segs, 0, m.committed);
      && (out.Ok() <==> FilesParse(c, d.files, m.segs, 0, m.committed) && LinkedTrace(c, t, m.anchor, 0))
      && out.records == |t| && out.prev == EndHash(t, m.anchor)
  {
    hide VerifySegments, Trace, FilesParse, LinkedTrace;
    SegmentsPass(c, d.files, m.segs, 0, m.committed, VerifyStart(m.anchor));
  }

  /** Two different bodies at the same place with the same digest. */
  ghost predicate Collide(c: Codec, t: seq<Parsed>, u: seq<Parsed>)
  {
    exists i :: 0 <= i < |t| && i < |u| && t[i].body != u[i].body && c.sha(t[i].body) == c.sha(u[i].body)
  }

  lemma {:induction false} SameEndSameTrace(c: Codec, t: seq<Parsed>, p: string, e: nat, u: seq<Parsed>, q: string,
                                            f: nat)
    requires LinkedTrace(c, t, p, e) && LinkedTrace(c, u, q, f)
    requires |t| == |u| && EndHash(t, p) == EndHash(u, q)
    ensures (t == u && p == q) || Collide(c, t, u)
  {
    if t == [] {
      assert u == [];
    } else {
      var t1, u1 := t[1..], u[1..];
      SameEndSameTrace(c, t1, t[0].hash, t[0].rec.number + 1, u1, u[0].hash, u[0].rec.number + 1);
      if Collide(c, t1, u1) {
        var i :| 0 <= i < |t1| && i < |u1| && t1[i].body != u1[i].body && c.sha(t1[i].body) == c.sha(u1[i].body);
        assert t[i + 1].body != u[i + 1].body && c.sha(t[i + 1].body) == c.sha(u[i + 1].body);
      } else if t[0].body == u[0].body {
        assert t == [t[0]] + t1 && u == [u[0]] + u1;
      }
    }
  }

  /** Tamper evidence. Whatever is in the files: if two ledgers both pass Verify with the same head
      and the same number of records, they hold the same records in the same order and start from
      the same anchor, or a SHA-256 collision is on the table. */
  lemma TamperEvident(c: Codec, m1: Memory, d1: DiskState, m2: Memory, d2: DiskState)
    requires Verify(c, m1, d1).Ok() && Verify(c, m2, d2).Ok()
    requires Verify(c, m1, d1).prev == Verify(c, m2, d2).prev
    requires Verify(c, m1, d1).records == Verify(c, m2, d2).records
    ensures var t1 := Trace(c, d1.files, m1.segs, 0, m1.committed);
        var t2 := Trace(c, d2.files, m2.segs, 0, m2.committed);
      (t1 == t2 && m1.anchor == m2.anchor) || Collide(c, t1, t2)
  {
    hide VerifySegments, Trace, Genuine;
    SegmentsPass(c, d1.files, m1.segs, 0, m1.committed, VerifyStart(m1.anchor));
    SegmentsPass(c, d2.files, m2.segs, 0, m2.committed, VerifyStart(m2.anchor));
    var t1, t2 := Trace(c, d1.files, m1.segs, 0, m1.committed), Trace(c, d2.files, m2.segs, 0, m2.committed);
    SameEndSameTrace(c, t1, m1.anchor, 0, t2, m2.anchor, 0);
  }

  // ---- every reachable ledger passes ----

  /** The report after walking over recs, when nothing is wrong. */
  function Walked(c: Codec, st: VerifyState, recs: seq<Record>): VerifyState
  {
    if recs == [] then st
    else
      var r := recs[|recs| - 1];
      CheckLink(Walked(c, st, recs[..|recs| - 1]), Parsed(r, c.Digest(r), c.marshal(r)))
  }

  lemma {:induction false} VerifyWalks(c: Codec, recs: seq<Record>, k: nat, name: nat, committed: nat, st: VerifyState)
    requires c.Valid() && k <= |recs| && forall i :: 0 <= i < |recs| ==> recs[i].number <= committed
    ensures |Lines(c, recs[..k])| <= |Lines(c, recs)|
    ensures VerifyLines(c, Lines(c, recs), |Lines(c, recs[..k])|, name, committed, Walked(c, st, recs[..k]))
        == Walked(c, st, recs)
    decreases |recs| - k
  {
    hide Lines, Codec.Valid, IndexOf, CheckLink, ParseLine;
    var data := Lines(c, recs);
    if k == |recs| {
      assert recs[..k] == recs;
      assert IndexOf(data, '\n', |data|) == |data|;
    } else {
      var r := recs[k];
      assert data + "" == data;
      NextNewline(c, recs, "", k);
      StemParses(c, r);
      assert recs[..k + 1][..k] == recs[..k];
      VerifyWalks(c, recs, k + 1, name, committed, st);
    }
  }

  lemma {:induction false} WalkedAppend(c: Codec, st: VerifyState, a: seq<Record>, b: seq<Record>)
    ensures Walked(c, st, a + b) == Walked(c, Walked(c, st, a), b)
  {
    hide CheckLink;
    if b == [] {
      assert a + b == a;
    } else {
      var n := |b| - 1;
      WalkedAppend(c, st, a, b[..n]);
      assert (a + b)[..|a + b| - 1] == a + b[..n] && (a + b)[|a + b| - 1] == b[n];
    }
  }

  lemma {:induction false} VerifySegmentsWalk(c: Codec, files: map<nat, string>, segs: seq<Segment>, h: History, i: nat,
                                              committed: nat, st: VerifyState)
    requires c.Valid() && SegmentFilesOk(c, files, segs, h) && PartsNumbered(segs, h, committed) && i <= |segs|
    ensures VerifySegments(c, files, segs, i, committed, st) == Walked(c, st, Flatten(h.parts[i..]))
    decreases |segs| - i
  {
    hide Codec.Valid, Lines, Describes, Walked;
    if i == |segs| {
      assert h.parts[i..] == [];
      assert Walked(c, st, []) == st by { WalkedNothing(c, st); }
    } else {
      hide Flatten;
      var part := h.parts[i];
      FlattenFirst(h.parts, i);
      WalkedAppend(c, st, part, Flatten(h.parts[i + 1..]));
      assert |Lines(c, part[..0])| == 0 by { NoLines(c); assert part[..0] == []; }
      WalkedNothing(c, st);
      assert part[..0] == [];
      VerifyWalks(c, part, 0, segs[i].first, committed, st);
      VerifySegmentsWalk(c, files, segs, h, i + 1, committed, Walked(c, st, part));
    }
  }

  lemma WalkedNothing(c: Codec, st: VerifyState)
    ensures Walked(c, st, []) == st
  {
  }

  /** Walking a stretch of a good chain from the right start reports nothing. */
  lemma {:induction false} GoodWalk(c: Codec, log: seq<Record>, a: nat, b: nat, anchor: string)
    requires Chained(c, log, 1, "") && a <= b <= |log|
    ensures var out := Walked(c, VerifyStart(anchor), log[a..b]);
      && out.records == b - a
      && out.prev == (if a == b then anchor else c.Digest(log[b - 1]))
      && (a < b ==> out.due == b + 1 && out.first == a + 1 && out.last == b)
      && (out.Ok() <==> a == b || anchor == HeadOf(c, log[..a], ""))
    decreases b - a
  {
    if a == b {
      assert log[a..b] == [];
    } else {
      hide Codec.Stem, Chained;
      GoodWalk(c, log, a, b - 1, anchor);
      WalkOneMore(c, VerifyStart(anchor), log, a, b);
      assert Linked(c, log, 1, "", b - 1) by { LinkAt(c, log, b - 1); }
      if a > 0 { assert log[..a][|log[..a]| - 1] == log[a - 1]; }
    }
  }

  lemma WalkOneMore(c: Codec, st: VerifyState, log: seq<Record>, a: nat, b: nat)
    requires a < b <= |log|
    ensures Walked(c, st, log[a..b]) == CheckLink(Walked(c, st, log[a..b - 1]),
        Parsed(log[b - 1], c.Digest(log[b - 1]), c.marshal(log[b - 1])))
  {
    hide CheckLink;
    assert log[a..b][..|log[a..b]| - 1] == log[a..b - 1];
  }

  lemma LinkAt(c: Codec, log: seq<Record>, i: nat)
    requires Chained(c, log, 1, "") && i < |log|
    ensures Linked(c, log, 1, "", i)
  {
  }

  /** Verify on a ledger whose files are in order passes exactly when the anchor is the digest of
      the last compacted record (or nothing is retained), and reports how far the ledger reaches.
      What that means for the older anchor a crash inside Compact leaves is in SpoolCompactCrash. */
  lemma AnchorDecides(c: Codec, m: Memory, d: DiskState, h: History, anchor: string)
    requires c.Valid() && Inv(c, m, d, h)
    ensures var out := Verify(c, m.(anchor := anchor), d);
      && (out.Ok() <==> Retained(h) == [] || anchor == HeadOf(c, h.gone, ""))
      && out.records == |Retained(h)|
      && (Retained(h) != [] ==> out.first == |h.gone| + 1 && out.last == |h.Log()| && out.prev == m.head)
  {
    hide Codec.Valid, Describes, Lines, Flatten, Walked, Placed, DiskOk, SegmentsOk, Closed, Timed, WindowsAdvance,
        VerifySegments;
    InvNumbered(c, m, d, h);
    InvSegmentFiles(c, m, d, h);
    VerifySegmentsWalk(c, d.files, m.segs, h, 0, m.committed, VerifyStart(anchor));
    assert h.parts[0..] == h.parts;
    var log := h.Log();
    GoodWalk(c, log, |h.gone|, |log|, anchor);
    assert log[|h.gone|..|log|] == Retained(h);
    assert log[..|h.gone|] == h.gone;
  }

  /** Every reachable ledger passes Verify, with the head the next append will chain on. */
  lemma ReachablePasses(c: Codec, m: Memory, d: DiskState, h: History)
    requires c.Valid() && Inv(c, m, d, h)
    ensures Verify(c, m, d).Ok() && Verify(c, m, d).records == |Retained(h)| && Verify(c, m, d).prev == m.head
  {
    hide Codec.Valid, Describes, Lines, Flatten, Placed, DiskOk, SegmentsOk, GoodLog, Verify;
    AnchorDecides(c, m, d, h, m.anchor);
    assert m.(anchor := m.anchor) == m;
    if Retained(h) == [] {
      assert h.Log() == h.gone;
      EmptyVerify(c, m, d, h);
    }
  }

  lemma EmptyVerify(c: Codec, m: Memory, d: DiskState, h: History)
    requires c.Valid() && Inv(c, m, d, h) && Retained(h) == []
    ensures Verify(c, m, d).prev == m.anchor
  {
    hide Codec.Valid, Describes, Lines, Flatten, Placed, DiskOk, SegmentsOk, GoodLog, VerifySegments;
    InvNumbered(c, m, d, h);
    InvSegmentFiles(c, m, d, h);
    VerifySegmentsWalk(c, d.files, m.segs, h, 0, m.committed, VerifyStart(m.anchor));
    assert h.parts[0..] == h.parts;
  }
}
