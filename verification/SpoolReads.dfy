/** Reading the ledger through the sparse index and binary search gives exactly what reading
    all of it would; so does the pruned scan, for events that are appended promptly. */
module SpoolReads {
  import opened Text
  import opened Usage
  import opened Ledger
  import opened Segments
  import opened SpoolModel
  import opened SpoolInvariant
  import opened SpoolRecovery
  import opened SpoolSteps

  // ---- readSegmentOpts ----

  /** The seek position: the last index entry before one past `from`. */
  function StartOffset(index: seq<Offset>, from: nat, start: nat): nat
  {
    if index == [] || index[0].number > from then start else StartOffset(index[1..], from, index[0].off)
  }

  function Parse(c: Codec, text: string, verify: bool): Option<Parsed>
  {
    if verify then ParseLine(c, text) else ParseLineNoVerify(c, text)
  }

  predicate Full(got: seq<Record>, limit: Option<nat>) { limit.Some? && |got| >= limit.value }

  /** The reading loop from byte off: the records handed to the callback, which stops when it has
      `limit` of them; None when a line does not parse. */
  function ReadLines(c: Codec, data: string, off: nat, from: nat, upto: nat, verify: bool,
                     keep: string -> bool, limit: Option<nat>, got: seq<Record>): Option<seq<Record>>
    requires off <= |data|
    decreases |data| - off
  {
    var nl := IndexOf(data, '\n', off);
    if nl == |data| then Some(got)
    else
      var text := data[off..nl];
      var peeked := PeekSeq(text);
      if peeked.Some? && peeked.value < from then ReadLines(c, data, nl + 1, from, upto, verify, keep, limit, got)
      else if peeked.Some? && peeked.value > upto then Some(got)
      else if !keep(text) then ReadLines(c, data, nl + 1, from, upto, verify, keep, limit, got)
      else match Parse(c, text, verify)
        case None => None
        case Some(p) =>
          if p.rec.number > upto then Some(got)
          else if p.rec.number < from then ReadLines(c, data, nl + 1, from, upto, verify, keep, limit, got)
          else if Full(got + [p.rec], limit) then Some(got + [p.rec])
          else ReadLines(c, data, nl + 1, from, upto, verify, keep, limit, got + [p.rec])
  }

  function ReadSegment(c: Codec, files: map<nat, string>, sg: Segment, from: nat, upto: nat, verify: bool,
                       keep: string -> bool, limit: Option<nat>, got: seq<Record>): Option<seq<Record>>
  {
    if sg.last == 0 || sg.last < from || sg.first > upto then Some(got)
    else if sg.first !in files then None
    else
      var data := files[sg.first];
      var start := StartOffset(sg.index, from, 0);
      if start > |data| then Some(got) else ReadLines(c, data, start, from, upto, verify, keep, limit, got)
  }

  // ---- what the loop collects from well-formed lines ----

  /** The records wanted among recs, behind those already collected, up to the limit. */
  function Collect(recs: seq<Record>, from: nat, want: Record -> bool, limit: Option<nat>,
                   got: seq<Record>): seq<Record>
  {
    if recs == [] then got
    else if recs[0].number < from || !want(recs[0]) then Collect(recs[1..], from, want, limit, got)
    else if Full(got + [recs[0]], limit) then got + [recs[0]]
    else Collect(recs[1..], from, want, limit, got + [recs[0]])
  }

  ghost predicate NumberedFrom(recs: seq<Record>, first: nat)
  {
    forall i :: 0 <= i < |recs| ==> recs[i].number == first + i
  }

  /** One round on the line of a record no newer than upto. */
  lemma ReadLine(c: Codec, data: string, off: nat, from: nat, upto: nat, verify: bool, keep: string -> bool,
                 limit: Option<nat>, got: seq<Record>, r: Record, want: Record -> bool)
    requires c.Valid() && off + |c.Line(r)| <= |data| && r.number <= upto
    requires IndexOf(data, '\n', off) == off + |c.Stem(r)|
    requires data[off..off + |c.Stem(r)|] == c.Stem(r)
    requires keep(c.Stem(r)) == want(r)
    ensures ReadLines(c, data, off, from, upto, verify, keep, limit, got) ==
      var next := off + |c.Line(r)|;
      if r.number < from || !want(r) then ReadLines(c, data, next, from, upto, verify, keep, limit, got)
      else if Full(got + [r], limit) then Some(got + [r])
      else ReadLines(c, data, next, from, upto, verify, keep, limit, got + [r])
  {
    hide PeekSeq, ParseLine, ParseLineNoVerify, IndexOf;
    StemParses(c, r);
    PeekSeqFinds(c, r);
  }

  lemma ReadEnd(c: Codec, data: string, from: nat, upto: nat, verify: bool, keep: string -> bool, limit: Option<nat>,
                got: seq<Record>,
                want: Record -> bool)
    ensures ReadLines(c, data, |data|, from, upto, verify, keep, limit, got)
        == Some(Collect([], from, want, limit, got))
  {
    assert IndexOf(data, '\n', |data|) == |data|;
  }

  lemma CollectOne(recs: seq<Record>, k: nat, from: nat, want: Record -> bool, limit: Option<nat>, got: seq<Record>)
    requires k < |recs|
    ensures Collect(recs[k..], from, want, limit, got) ==
      if recs[k].number < from || !want(recs[k]) then Collect(recs[k + 1..], from, want, limit, got)
      else if Full(got + [recs[k]], limit) then got + [recs[k]]
      else Collect(recs[k + 1..], from, want, limit, got + [recs[k]])
  {
    assert recs[k..][0] == recs[k] && recs[k..][1..] == recs[k + 1..];
  }

  lemma {:induction false} ReadLinesCollects(c: Codec, recs: seq<Record>, k: nat, from: nat, upto: nat, verify: bool,
                                             keep: string -> bool, limit: Option<nat>, got: seq<Record>,
                                                 want: Record -> bool)
    requires c.Valid() && k <= |recs|
    requires forall i :: 0 <= i < |recs| ==> recs[i].number <= upto && keep(c.Stem(recs[i])) == want(recs[i])
    ensures |Lines(c, recs[..k])| <= |Lines(c, recs)|
    ensures ReadLines(c, Lines(c, recs), |Lines(c, recs[..k])|, from, upto, verify, keep, limit, got)
            == Some(Collect(recs[k..], from, want, limit, got))
    decreases |recs| - k
  {
    hide Lines, Codec.Valid, Full, ReadLines, Collect;
    var data := Lines(c, recs);
    if k == |recs| {
      assert recs[..k] == recs;
      assert recs[k..] == [];
      ReadEnd(c, data, from, upto, verify, keep, limit, got, want);
    } else {
      var r := recs[k];
      assert data + "" == data;
      NextNewline(c, recs, "", k);
      ReadLine(c, data, |Lines(c, recs[..k])|, from, upto, verify, keep, limit, got, r, want);
      CollectOne(recs, k, from, want, limit, got);
      if r.number < from || !want(r) {
        ReadLinesCollects(c, recs, k + 1, from, upto, verify, keep, limit, got, want);
      } else if !Full(got + [r], limit) {
        ReadLinesCollects(c, recs, k + 1, from, upto, verify, keep, limit, got + [r], want);
      }
    }
  }

  /** Every index entry points at the line of the record it names. */
  /** The index has an entry for every 256th record, at its first byte. */
  lemma {:induction false} IndexHolds(c: Codec, first: nat, recs: seq<Record>)
    requires NumberedFrom(recs, first)
    ensures var index := IndexOfLines(c, first, recs);
      && |index| == (|recs| + 255) / 256
      && forall k :: 0 <= k < |index| ==> index[k] == Offset(first + 256 * k, |Lines(c, recs[..256 * k])|)
  {
    hide Lines;
    if recs != [] {
      var n := |recs| - 1;
      IndexHolds(c, first, recs[..n]);
      var before, index := IndexOfLines(c, first, recs[..n]), IndexOfLines(c, first, recs);
      assert recs[n].number == first + n;
      forall k | 0 <= k < |before| ensures index[k] == Offset(first + 256 * k, |Lines(c, recs[..256 * k])|) {
        assert recs[..n][..256 * k] == recs[..256 * k];
      }
    }
  }

  /** With its index, reading begins at most 255 records before the one wanted. */
  lemma StartsNear(c: Codec, first: nat, recs: seq<Record>, from: nat)
    requires NumberedFrom(recs, first) && first <= from < first + |recs|
    ensures StartOffset(IndexOfLines(c, first, recs), from, 0)
      == |Lines(c, recs[..(from - first) / 256 * 256])|
  {
    hide Lines, IndexOfLines, NumberedFrom;
    IndexHolds(c, first, recs);
    var index := IndexOfLines(c, first, recs);
    assert index[0..] == index;
    StartsAt(c, first, recs, index, from, 0, 0);
  }

  lemma {:induction false} StartsAt(c: Codec, first: nat, recs: seq<Record>, index: seq<Offset>, from: nat, k: nat,
                                    start: nat)
    requires first <= from < first + |recs| && |index| == (|recs| + 255) / 256
    requires forall j :: 0 <= j < |index| ==> index[j] == Offset(first + 256 * j, |Lines(c, recs[..256 * j])|)
    requires k <= (from - first) / 256 + 1 && (k > 0 ==> start == index[k - 1].off)
    ensures StartOffset(index[k..], from, start) == |Lines(c, recs[..(from - first) / 256 * 256])|
    decreases |index| - k
  {
    hide Lines;
    if k <= (from - first) / 256 {
      assert index[k..][1..] == index[k + 1..];
      StartsAt(c, first, recs, index, from, k + 1, index[k].off);
    }
  }

  ghost predicate IndexPoints(c: Codec, index: seq<Offset>, recs: seq<Record>)
  {
    forall e :: e in index ==> exists k: nat :: PointsAt(c, e, recs, k)
  }

  ghost predicate PointsAt(c: Codec, e: Offset, recs: seq<Record>, k: nat)
  {
    k < |recs| && e == Offset(recs[k].number, |Lines(c, recs[..k])|)
  }

  lemma {:induction false} IndexOfLinesPoints(c: Codec, first: nat, recs: seq<Record>)
    ensures IndexPoints(c, IndexOfLines(c, first, recs), recs)
  {
    hide Lines;
    if recs != [] {
      var n := |recs| - 1;
      IndexOfLinesPoints(c, first, recs[..n]);
      forall e | e in IndexOfLines(c, first, recs) ensures exists k: nat :: PointsAt(c, e, recs, k) {
        if e in IndexOfLines(c, first, recs[..n]) {
          var k: nat :| PointsAt(c, e, recs[..n], k);
          assert recs[..n][..k] == recs[..k];
          assert PointsAt(c, e, recs, k);
        } else {
          assert PointsAt(c, e, recs, n);
        }
      }
    }
  }

  /** Wherever the index says to start, no wanted record lies before it. */
  lemma {:induction false} StartSkipsNothing(c: Codec, index: seq<Offset>, recs: seq<Record>, first: nat, from: nat,
                                             start: nat, k0: nat)
      returns (k: nat)
    requires IndexPoints(c, index, recs) && NumberedFrom(recs, first)
    requires k0 <= |recs| && start == |Lines(c, recs[..k0])| && (k0 == 0 || first + k0 <= from)
    ensures k <= |recs| && StartOffset(index, from, start) == |Lines(c, recs[..k])| && (k == 0 || first + k <= from)
  {
    hide Lines;
    if index == [] || index[0].number > from {
      k := k0;
    } else {
      assert index[0] in index;
      var k1: nat :| PointsAt(c, index[0], recs, k1);
      assert forall e :: e in index[1..] ==> e in index;
      k := StartSkipsNothing(c, index[1..], recs, first, from, index[0].off, k1);
    }
  }

  /** Records below `from` at the front change nothing. */
  lemma {:induction false} CollectSkips(recs: seq<Record>, k: nat, from: nat, want: Record -> bool, limit: Option<nat>,
                                        got: seq<Record>)
    requires k <= |recs| && forall i :: 0 <= i < k ==> recs[i].number < from
    ensures Collect(recs, from, want, limit, got) == Collect(recs[k..], from, want, limit, got)
  {
    if k > 0 {
      CollectSkips(recs[1..], k - 1, from, want, limit, got);
      assert recs[1..][k - 1..] == recs[k..];
    }
  }

  lemma {:induction false} CollectNothing(recs: seq<Record>, from: nat, want: Record -> bool, limit: Option<nat>,
                                          got: seq<Record>)
    requires forall i :: 0 <= i < |recs| ==> recs[i].number < from || !want(recs[i])
    ensures Collect(recs, from, want, limit, got) == got
  {
    if recs != [] { CollectNothing(recs[1..], from, want, limit, got); }
  }

  /** Reading a segment through its index collects what is wanted of all its records. */
  lemma SegmentCollects(c: Codec, files: map<nat, string>, sg: Segment, recs: seq<Record>, from: nat, upto: nat,
                        verify: bool,
                        keep: string -> bool, limit: Option<nat>, got: seq<Record>, want: Record -> bool)
    requires c.Valid() && Describes(c, sg, sg.first, recs) && NumberedFrom(recs, sg.first) && sg.first > 0
    requires sg.first in files && files[sg.first] == Lines(c, recs)
    requires forall i :: 0 <= i < |recs| ==> recs[i].number <= upto && keep(c.Stem(recs[i])) == want(recs[i])
    ensures ReadSegment(c, files, sg, from, upto, verify, keep, limit, got)
        == Some(Collect(recs, from, want, limit, got))
  {
    hide Lines, Codec.Valid, IndexOfLines, ReadLines, Full;
    if sg.last == 0 || sg.last < from || sg.first > upto {
      if recs != [] {
        assert recs[0].number <= upto && recs[|recs| - 1].number == sg.last;
        assert forall i :: 0 <= i < |recs| ==> recs[i].number <= sg.last;
      }
      CollectNothing(recs, from, want, limit, got);
    } else {
      IndexOfLinesPoints(c, sg.first, recs);
      assert |Lines(c, recs[..0])| == 0 by { NoLines(c); assert recs[..0] == []; }
      var k := StartSkipsNothing(c, sg.index, recs, sg.first, from, 0, 0);
      ReadLinesCollects(c, recs, k, from, upto, verify, keep, limit, got, want);
      CollectSkips(recs, k, from, want, limit, got);
    }
  }

  // ---- Read ----

  /** sort.Search's answer: the first segment that is empty or reaches past `after`. */
  function FirstLive(segs: seq<Segment>, after: nat, i: nat): (k: nat)
    requires i <= |segs|
    ensures i <= k <= |segs|
    decreases |segs| - i
  {
    if i == |segs| || segs[i].last == 0 || segs[i].last > after then i else FirstLive(segs, after, i + 1)
  }

  const KEEP_ALL: string -> bool := _ => true

  /** Read's loop over the segments from i on. */
  function ReadSegments(c: Codec, files: map<nat, string>, segs: seq<Segment>, i: nat, from: nat, upto: nat, max: nat,
                        got: seq<Record>): Option<seq<Record>>
    requires i <= |segs|
    decreases |segs| - i
  {
    if i == |segs| || |got| >= max then Some(got)
    else match ReadSegment(c, files, segs[i], from, upto, true, KEEP_ALL, Some(max), got)
      case None => None
      case Some(more) => ReadSegments(c, files, segs, i + 1, from, upto, max, more)
  }

  function Read(c: Codec, m: Memory, d: DiskState, after: nat, max: int): Option<seq<Record>>
  {
    if after >= m.committed || max <= 0 then Some([])
    else ReadSegments(c, d.files, m.segs, FirstLive(m.segs, after, 0), after + 1, m.committed, max, [])
  }

  /** The naive reading: all retained records with a number past `after`. */
  function Newer(recs: seq<Record>, after: nat): seq<Record>
  {
    if recs == [] then []
    else Newer(recs[..|recs| - 1], after) + if recs[|recs| - 1].number > after then [recs[|recs| - 1]] else []
  }

  function Take(recs: seq<Record>, max: nat): seq<Record> { if |recs| <= max then recs else recs[..max] }

  lemma NewerNone(recs: seq<Record>, after: nat)
    requires recs == []
    ensures Newer(recs, after) == []
  {
  }

  lemma NewerOne(r: Record, after: nat)
    ensures Newer([r], after) == if r.number > after then [r] else []
  {
    assert Newer([r][..0], after) == [];
  }

  lemma {:induction false} NewerAppend(a: seq<Record>, b: seq<Record>, after: nat)
    ensures Newer(a + b, after) == Newer(a, after) + Newer(b, after)
  {
    if b == [] {
      assert a + b == a;
    } else {
      var n := |b| - 1;
      NewerAppend(a, b[..n], after);
      assert (a + b)[..|a + b| - 1] == a + b[..n] && (a + b)[|a + b| - 1] == b[n];
    }
  }

  lemma {:induction false} CollectIsNewer(recs: seq<Record>, after: nat, max: nat, got: seq<Record>)
    requires |got| < max
    ensures Collect(recs, after + 1, _ => true, Some(max), got) == Take(got + Newer(recs, after), max)
  {
    if recs != [] {
      hide Newer;
      var r, rest := recs[0], recs[1..];
      assert recs == [r] + rest;
      NewerAppend([r], rest, after);
      NewerOne(r, after);
      if r.number <= after {
        CollectIsNewer(rest, after, max, got);
      } else if |got| + 1 < max {
        CollectIsNewer(rest, after, max, got + [r]);
        assert got + [r] + Newer(rest, after) == got + Newer(recs, after);
      } else {
        assert (got + Newer(recs, after))[..max] == got + [r];
      }
    }
  }

  /** The parts, each numbered on from its segment's first. */
  ghost predicate PartsNumbered(segs: seq<Segment>, h: History, upto: nat)
  {
    && |segs| == |h.parts|
    && forall i :: 0 <= i < |segs| ==>
         segs[i].first > 0 && NumberedFrom(h.parts[i], segs[i].first) && segs[i].first + |h.parts[i]| <= upto + 1
  }

  lemma InvNumbered(c: Codec, m: Memory, d: DiskState, h: History)
    requires Inv(c, m, d, h)
    ensures PartsNumbered(m.segs, h, m.committed)
    ensures NumberedFrom(h.Log(), 1)
  {
    hide Lines, IndexOfLines, Flatten, Watermarks, Closed, Timed, WindowsAdvance, Describes, MetaOf;
    var log := h.Log();
    forall k | 0 <= k < |log| ensures log[k].number == 1 + k { assert Linked(c, log, 1, "", k); }
    forall i | 0 <= i < |m.segs|
      ensures m.segs[i].first > 0 && NumberedFrom(h.parts[i], m.segs[i].first)
      ensures m.segs[i].first + |h.parts[i]| <= m.committed + 1
    {
      UpToNext(h, i);
      assert Firsts(m.segs)[i] == |h.UpTo(i)| + 1;
      forall k | 0 <= k < |h.parts[i]| ensures h.parts[i][k].number == m.segs[i].first + k {
        assert h.parts[i][k] == h.UpTo(i + 1)[|h.UpTo(i)| + k] == log[|h.UpTo(i)| + k];
      }
    }
  }

  ghost predicate SegmentFilesOk(c: Codec, files: map<nat, string>, segs: seq<Segment>, h: History)
  {
    && |segs| == |h.parts|
    && forall i :: 0 <= i < |segs| ==>
         && Describes(c, segs[i], segs[i].first, h.parts[i])
         && segs[i].first in files && files[segs[i].first] == Lines(c, h.parts[i])
  }

  lemma InvSegmentFiles(c: Codec, m: Memory, d: DiskState, h: History)
    requires Inv(c, m, d, h)
    ensures SegmentFilesOk(c, d.files, m.segs, h)
  {
    hide Lines, IndexOfLines, Flatten, Watermarks, GoodLog, Placed, Describes, MetaOf, Tail;
    forall i | 0 <= i < |m.segs|
      ensures m.segs[i].first in d.files && d.files[m.segs[i].first] == Lines(c, h.parts[i])
    {
      assert Firsts(m.segs)[i] == m.segs[i].first;
      NoTail(Firsts(m.segs), i, Lines(c, h.parts[i]));
    }
  }

  lemma TakeThrough(got: seq<Record>, a: seq<Record>, b: seq<Record>, max: nat)
    requires |got| <= max
    ensures Take(Take(got + a, max) + b, max) == Take(got + (a + b), max)
    ensures |got| == max ==> Take(got + (a + b), max) == got
    ensures |Take(got + a, max)| <= max
  {
    var all := got + (a + b);
    assert all == got + a + b;
    if |got + a| > max { assert ((got + a)[..max] + b)[..max] == all[..max]; }
    if |got| == max { assert |all| > max ==> all[..max] == got; }
  }

  lemma {:induction false} ReadSegmentsNewer(c: Codec, files: map<nat, string>, segs: seq<Segment>, h: History, i: nat,
                                             after: nat, upto: nat, max: nat, got: seq<Record>)
    requires c.Valid() && SegmentFilesOk(c, files, segs, h) && PartsNumbered(segs, h, upto)
    requires i <= |segs| && |got| <= max
    ensures ReadSegments(c, files, segs, i, after + 1, upto, max, got)
            == Some(Take(got + Newer(Flatten(h.parts[i..]), after), max))
    decreases |segs| - i
  {
    hide Codec.Valid, Lines, Describes, ReadSegment;
    if i == |segs| {
      assert h.parts[i..] == [];
      assert got + [] == got;
    } else {
      hide Flatten, Newer, Take, Collect;
      var part, rest := h.parts[i], Flatten(h.parts[i + 1..]);
      FlattenFirst(h.parts, i);
      NewerAppend(part, rest, after);
      TakeThrough(got, Newer(part, after), Newer(rest, after), max);
      if |got| < max {
        SegmentCollects(c, files, segs[i], part, after + 1, upto, true, KEEP_ALL, Some(max), got, _ => true);
        CollectIsNewer(part, after, max, got);
        ReadSegmentsNewer(c, files, segs, h, i + 1, after, upto, max, Take(got + Newer(part, after), max));
      }
    }
  }

  lemma FlattenFirst(parts: seq<seq<Record>>, i: nat)
    requires i < |parts|
    ensures Flatten(parts[i..]) == parts[i] + Flatten(parts[i + 1..])
  {
    assert parts[i..] == [parts[i]] + parts[i + 1..];
    FlattenAppend([parts[i]], parts[i + 1..]);
    assert [parts[i]][..0] == [];
  }

  lemma {:induction false} NewerNothing(recs: seq<Record>, after: nat)
    requires forall i :: 0 <= i < |recs| ==> recs[i].number <= after
    ensures Newer(recs, after) == []
  {
    if recs != [] { NewerNothing(recs[..|recs| - 1], after); }
  }

  /** The segments the binary search passes over hold nothing newer. */
  lemma {:induction false} SkippedAreOld(c: Codec, segs: seq<Segment>, h: History, i: nat, after: nat, upto: nat)
    requires PartsNumbered(segs, h, upto) && i <= |segs|
    requires forall k :: 0 <= k < |segs| ==> Describes(c, segs[k], segs[k].first, h.parts[k])
    ensures Newer(Flatten(h.parts[i..]), after) == Newer(Flatten(h.parts[FirstLive(segs, after, i)..]), after)
    decreases |segs| - i
  {
    hide Lines, IndexOfLines;
    if i < |segs| && segs[i].last != 0 && segs[i].last <= after {
      SkippedAreOld(c, segs, h, i + 1, after, upto);
      FlattenFirst(h.parts, i);
      NewerAppend(h.parts[i], Flatten(h.parts[i + 1..]), after);
      assert h.parts[i] != [] ==> h.parts[i][|h.parts[i]| - 1].number == segs[i].last;
      NewerNothing(h.parts[i], after);
    }
  }

  /** The retained records: those past what compaction removed. */
  function Retained(h: History): seq<Record> { Flatten(h.parts) }

  /** Records numbered 1, 2, ... newer than `after` are the ones from that place on. */
  lemma {:induction false} NewerIsSuffix(log: seq<Record>, gone: nat, after: nat)
    requires NumberedFrom(log, 1) && gone <= |log|
    ensures var start := if after < gone then gone else if after < |log| then after else |log|;
      Newer(log[gone..], after) == log[start..]
    decreases |log|
  {
    hide Newer;
    var start := if after < gone then gone else if after < |log| then after else |log|;
    if gone == |log| {
      NewerNone(log[gone..], after);
    } else {
      var n := |log| - 1;
      var l := log[..n];
      NewerIsSuffix(l, gone, after);
      assert log[gone..] == l[gone..] + [log[n]];
      NewerAppend(l[gone..], [log[n]], after);
      NewerOne(log[n], after);
      if start <= n { assert log[start..] == l[start..] + [log[n]]; }
    }
  }

  /** The main result on reads: the first max retained records past `after`, in order, without a gap. */
  lemma ReadIsNaive(c: Codec, m: Memory, d: DiskState, h: History, after: nat, max: int)
    requires c.Valid() && Inv(c, m, d, h)
    ensures Read(c, m, d, after, max) == Some(Take(Newer(Retained(h), after), if max < 0 then 0 else max))
    ensures var start := if after < |h.gone| then |h.gone| else if after < |h.Log()| then after else |h.Log()|;
      Newer(Retained(h), after) == h.Log()[start..]
  {
    hide Codec.Valid, Lines, Describes, Inv, Flatten, ReadSegments, FirstLive, Newer;
    InvNumbered(c, m, d, h);
    InvSegmentFiles(c, m, d, h);
    NewerIsSuffix(h.Log(), |h.gone|, after);
    assert h.Log()[|h.gone|..] == Retained(h);
    assert m.committed == |h.Log()| by { InvCommitted(c, m, d, h); }
    if after < m.committed && max > 0 {
      var i := FirstLive(m.segs, after, 0);
      ReadSegmentsNewer(c, d.files, m.segs, h, i, after, m.committed, max, []);
      SkippedAreOld(c, m.segs, h, 0, after, m.committed);
      assert h.parts[0..] == h.parts;
      assert [] + Newer(Flatten(h.parts[i..]), after) == Newer(Flatten(h.parts[i..]), after);
    }
  }

  lemma InvCommitted(c: Codec, m: Memory, d: DiskState, h: History)
    requires Inv(c, m, d, h)
    ensures m.number == m.committed == |h.Log()|
  {
    hide GoodHistory, DiskOk, MemoryOk;
    MemoryNumber(c, m, h);
  }

  // ---- Scan ----

  const SCAN_SKEW: nat := HOUR

  /** The event's window overlaps [from, to). */
  predicate Overlaps(e: Event, from: Time, to: Time) { e.windowEnd > from && e.windowStart < to }

  /** Overlapping means having an instant in common. */
  lemma OverlapIsCommon(e: Event, from: Time, to: Time)
    requires e.windowStart < e.windowEnd && from < to
    ensures Overlaps(e, from, to) <==> exists t: Time :: Spans(e.windowStart, e.windowEnd, t) && Spans(from, to, t)
  {
    if Overlaps(e, from, to) {
      var t := if from < e.windowStart then e.windowStart else from;
      assert Spans(e.windowStart, e.windowEnd, t) && Spans(from, to, t);
    }
  }

  predicate Spans(from: Time, to: Time, t: Time) { from <= t < to }

  /** The line prefilter, on the window peekWindow finds. */
  function InRange(c: Codec, from: Time, to: Time): string -> bool
  {
    text => var w := c.peek(text); w.Some? && w.value.1 > from && w.value.0 < to
  }

  predicate Wanted(r: Record, from: Time, to: Time) { r.payload.EventPayload? && Overlaps(r.payload.event, from, to) }

  /** The events visited among the records that reach the callback. */
  function Visited(recs: seq<Record>, from: Time, to: Time): seq<Event>
  {
    if recs == [] then []
    else
      var r := recs[|recs| - 1];
      Visited(recs[..|recs| - 1], from, to) + if Wanted(r, from, to) then [r.payload.event] else []
  }

  predicate Skipped(sg: Segment, from: Time) { sg.last == 0 || sg.lastAt < from - SCAN_SKEW }

  function ScanSegments(c: Codec, files: map<nat, string>, segs: seq<Segment>, i: nat, upto: nat, from: Time, to: Time,
                        got: seq<Event>): Option<seq<Event>>
    requires i <= |segs|
    decreases |segs| - i
  {
    if i == |segs| then Some(got)
    else if Skipped(segs[i], from) then ScanSegments(c, files, segs, i + 1, upto, from, to, got)
    else match ReadSegment(c, files, segs[i], segs[i].first, upto, false, InRange(c, from, to), None, [])
      case None => None
      case Some(recs) => ScanSegments(c, files, segs, i + 1, upto, from, to, got + Visited(recs, from, to))
  }

  /** Scan's events, in order. */
  function Scan(c: Codec, m: Memory, d: DiskState, from: Time, to: Time): Option<seq<Event>>
  {
    ScanSegments(c, d.files, m.segs, 0, m.committed, from, to, [])
  }

  lemma {:induction false} VisitedAppend(a: seq<Record>, b: seq<Record>, from: Time, to: Time)
    ensures Visited(a + b, from, to) == Visited(a, from, to) + Visited(b, from, to)
  {
    if b == [] {
      assert a + b == a;
    } else {
      var n := |b| - 1;
      VisitedAppend(a, b[..n], from, to);
      assert (a + b)[..|a + b| - 1] == a + b[..n] && (a + b)[|a + b| - 1] == b[n];
    }
  }

  /** Dropping unwanted lines unread loses no visited event. */
  lemma {:induction false} PrefilterLosesNothing(recs: seq<Record>, first: nat, from: Time, to: Time, got: seq<Record>)
    requires forall i :: 0 <= i < |recs| ==> recs[i].number >= first
    ensures Visited(Collect(recs, first, (r: Record) => Wanted(r, from, to), None, got), from, to)
            == Visited(got, from, to) + Visited(recs, from, to)
  {
    if recs != [] {
      var r, rest := recs[0], recs[1..];
      assert recs == [r] + rest;
      VisitedAppend([r], rest, from, to);
      assert [r][..0] == [];
      if Wanted(r, from, to) {
        VisitedAppend(got, [r], from, to);
        PrefilterLosesNothing(rest, first, from, to, got + [r]);
      } else {
        PrefilterLosesNothing(rest, first, from, to, got);
      }
    }
  }

  ghost predicate TimesAscend(log: seq<Record>)
  {
    forall i, j :: 0 <= i < j < |log| ==> log[i].at <= log[j].at
  }

  /** Append times never decrease, and every event is appended no earlier than an hour before its window ends. */
  ghost predicate Prompt(log: seq<Record>)
  {
    && TimesAscend(log)
    && (forall i :: 0 <= i < |log| && log[i].payload.EventPayload? ==>
      log[i].payload.event.windowEnd <= log[i].at + SCAN_SKEW)
  }

  lemma {:induction false} VisitedNothing(recs: seq<Record>, from: Time, to: Time)
    requires forall i :: 0 <= i < |recs| ==> !Wanted(recs[i], from, to)
    ensures Visited(recs, from, to) == []
  {
    if recs != [] { VisitedNothing(recs[..|recs| - 1], from, to); }
  }

  /** A segment written well before the range holds nothing of it. */
  lemma SkippedHoldsNothing(c: Codec, sg: Segment, recs: seq<Record>, from: Time, to: Time)
    requires Describes(c, sg, sg.first, recs) && Prompt(recs) && Skipped(sg, from)
    requires NumberedFrom(recs, sg.first) && sg.first > 0
    ensures Visited(recs, from, to) == []
  {
    hide Lines, IndexOfLines;
    if recs != [] {
      var n := |recs| - 1;
      assert sg.last == recs[n].number > 0;
      forall i | 0 <= i < |recs| ensures !Wanted(recs[i], from, to) {
        assert recs[i].at <= recs[n].at;
      }
      VisitedNothing(recs, from, to);
    }
  }

  lemma SegmentScanned(c: Codec, files: map<nat, string>, sg: Segment, recs: seq<Record>, upto: nat, from: Time,
                       to: Time)
    requires c.Valid() && Describes(c, sg, sg.first, recs) && NumberedFrom(recs, sg.first) && sg.first > 0
    requires sg.first + |recs| <= upto + 1
    requires sg.first in files && files[sg.first] == Lines(c, recs)
    ensures var out := ReadSegment(c, files, sg, sg.first, upto, false, InRange(c, from, to), None, []);
      out.Some? && Visited(out.value, from, to) == Visited(recs, from, to)
  {
    hide Lines, Describes, ReadSegment, Visited;
    var want := (r: Record) => Wanted(r, from, to);
    forall i | 0 <= i < |recs| ensures InRange(c, from, to)(c.Stem(recs[i])) == want(recs[i]) {
      assert c.PeeksWindow(recs[i]);
    }
    SegmentCollects(c, files, sg, recs, sg.first, upto, false, InRange(c, from, to), None, [], want);
    PrefilterLosesNothing(recs, sg.first, from, to, []);
    assert Visited([], from, to) == [] by { VisitedNothing([], from, to); }
    assert [] + Visited(recs, from, to) == Visited(recs, from, to);
  }

  lemma {:induction false} ScanSegmentsVisit(c: Codec, files: map<nat, string>, segs: seq<Segment>, h: History, i: nat,
                                             upto: nat, from: Time, to: Time, got: seq<Event>)
    requires c.Valid() && SegmentFilesOk(c, files, segs, h) && PartsNumbered(segs, h, upto) && i <= |segs|
    requires forall k :: 0 <= k < |segs| ==> Prompt(h.parts[k])
    ensures ScanSegments(c, files, segs, i, upto, from, to, got) == Some(got + Visited(Flatten(h.parts[i..]), from, to))
    decreases |segs| - i
  {
    hide Codec.Valid, Lines, Describes, ReadSegment, Skipped, Visited, Prompt;
    if i == |segs| {
      assert h.parts[i..] == [];
      VisitedNothing([], from, to);
      assert got + [] == got;
    } else {
      FlattenFirst(h.parts, i);
      var rest := Flatten(h.parts[i + 1..]);
      VisitedAppend(h.parts[i], rest, from, to);
      if Skipped(segs[i], from) {
        SkippedHoldsNothing(c, segs[i], h.parts[i], from, to);
        ScanSegmentsVisit(c, files, segs, h, i + 1, upto, from, to, got);
        assert [] + Visited(rest, from, to) == Visited(rest, from, to);
      } else {
        SegmentScanned(c, files, segs[i], h.parts[i], upto, from, to);
        var more := got + Visited(h.parts[i], from, to);
        ScanSegmentsVisit(c, files, segs, h, i + 1, upto, from, to, more);
        assert more + Visited(rest, from, to) == got + (Visited(h.parts[i], from, to) + Visited(rest, from, to));
      }
    }
  }

  lemma PromptParts(h: History)
    requires Prompt(Retained(h))
    ensures forall k :: 0 <= k < |h.parts| ==> Prompt(h.parts[k])
  {
    hide Flatten;
    forall k | 0 <= k < |h.parts| ensures Prompt(h.parts[k]) {
      UpToNext(h, k);
      var a := |Flatten(h.parts[..k])|;
      var part := h.parts[k];
      PartInside(h.parts, k);
      forall i, j | 0 <= i < j < |part| ensures part[i].at <= part[j].at {
        assert Retained(h)[a + i] == part[i] && Retained(h)[a + j] == part[j];
      }
      forall i | 0 <= i < |part| && part[i].payload.EventPayload?
        ensures part[i].payload.event.windowEnd <= part[i].at + SCAN_SKEW
      {
        assert Retained(h)[a + i] == part[i];
      }
    }
  }

  lemma PartInside(parts: seq<seq<Record>>, k: nat)
    requires k < |parts|
    ensures var a := |Flatten(parts[..k])|;
      a + |parts[k]| <= |Flatten(parts)| && Flatten(parts)[a..a + |parts[k]|] == parts[k]
  {
    assert parts == parts[..k] + parts[k..];
    FlattenAppend(parts[..k], parts[k..]);
    FlattenFirst(parts, k);
  }

  /** The main result on scans: with prompt appends, skipping segments by their last append time
      and lines by their peeked window visits each overlapping retained event exactly once, in order. */
  lemma ScanIsFilter(c: Codec, m: Memory, d: DiskState, h: History, from: Time, to: Time)
    requires c.Valid() && Inv(c, m, d, h) && Prompt(Retained(h))
    ensures Scan(c, m, d, from, to) == Some(Visited(Retained(h), from, to))
  {
    hide Codec.Valid, Inv, Flatten, ScanSegments, Visited, Prompt;
    InvNumbered(c, m, d, h);
    InvSegmentFiles(c, m, d, h);
    PromptParts(h);
    ScanSegmentsVisit(c, d.files, m.segs, h, 0, m.committed, from, to, []);
    assert h.parts[0..] == h.parts;
    assert [] + Visited(Flatten(h.parts), from, to) == Visited(Flatten(h.parts), from, to);
  }
}
