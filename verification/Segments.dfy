/** Segment metadata, the sparse offset index, and scanSegment: reading a segment file back
    after a restart (internal/spool/spool.go). */
module Segments {
  import opened Text
  import opened Usage
  import opened Ledger

  const INDEX_EVERY: nat := 256

  datatype Offset = Offset(number: nat, off: nat)

  datatype Segment = Segment(
    first: nat,
    last: nat,        // 0 when empty
    firstAt: Time,
    lastAt: Time,
    lastHash: string,
    size: nat,
    index: seq<Offset>)

  function EmptySegment(first: nat): Segment { Segment(first, 0, 0, 0, "", 0, []) }

  // ---- what the metadata of a file must be ----

  /** One index entry for every 256th record, at its byte offset. */
  function IndexOfLines(c: Codec, first: nat, recs: seq<Record>): seq<Offset>
  {
    if recs == [] then []
    else
      var n := |recs| - 1;
      IndexOfLines(c, first, recs[..n]) + IndexEntry(first, recs[n].number, |Lines(c, recs[..n])|)
  }

  function IndexEntry(first: nat, number: nat, off: nat): seq<Offset>
  {
    if (number - first) % INDEX_EVERY == 0 then [Offset(number, off)] else []
  }

  /** The metadata of a segment holding exactly the lines of recs. */
  function MetaOf(c: Codec, first: nat, recs: seq<Record>): Segment
  {
    if recs == [] then EmptySegment(first)
    else
      var r := recs[|recs| - 1];
      Segment(first, r.number, recs[0].at, r.at, c.Digest(r), |Lines(c, recs)|, IndexOfLines(c, first, recs))
  }

  /** Correct metadata: the index may be missing, as it is for segments taken from the manifest. */
  ghost predicate Describes(c: Codec, sg: Segment, first: nat, recs: seq<Record>)
  {
    sg == MetaOf(c, first, recs) || sg == MetaOf(c, first, recs).(index := [])
  }

  // ---- scanSegment ----

  datatype ScanState = ScanState(
    off: nat,
    goodEnd: nat,     // end of the last commit
    lastNumber: nat,  // of the last commit, 0 before any
    lastAt: Time,
    lastHash: string,
    pending: map<string, Time>,
    index: seq<Offset>,
    firstAt: Time)

  const SCAN_START: ScanState := ScanState(0, 0, 0, 0, "", map[], [], 0)

  datatype ScanOutcome = Scanned(st: ScanState) | TornClosed | Corrupt(off: nat)

  /** One parsed line of len bytes, newline included. */
  function Absorb(st: ScanState, p: Parsed, first: nat, len: nat): ScanState
  {
    var rec := p.rec;
    var st1 := st.(index := st.index + IndexEntry(first, rec.number, st.off), off := st.off + len);
    var st2 :=
      if rec.payload.EventPayload? then st1
      else
        var cm := rec.payload.commit;
        st1.(goodEnd := st1.off, lastNumber := rec.number, lastAt := rec.at, lastHash := p.hash,
             pending := if cm.windowEnd != 0 then st1.pending[cm.source := cm.windowEnd] else st1.pending);
    if st2.firstAt == 0 then st2.(firstAt := rec.at) else st2
  }

  /** The reading loop, from any point of any file. */
  function ScanFrom(c: Codec, data: string, first: nat, newest: bool, st: ScanState): (out: ScanOutcome)
    requires st.goodEnd <= st.off <= |data|
    ensures out.Scanned? ==> out.st.goodEnd <= out.st.off <= |data|
    decreases |data| - st.off
  {
    var nl := IndexOf(data, '\n', st.off);
    if st.off == |data| then Scanned(st)
    else if nl == |data| then if newest then Scanned(st) else TornClosed
    else match ParseLine(c, data[st.off..nl])
      case None => Corrupt(st.off)
      case Some(p) => ScanFrom(c, data, first, newest, Absorb(st, p, first, nl + 1 - st.off))
  }

  function KeepBelow(index: seq<Offset>, limit: nat): seq<Offset>
  {
    if index == [] then []
    else
      var n := |index| - 1;
      KeepBelow(index[..n], limit) + (if index[n].off < limit then [index[n]] else [])
  }

  /** What scanSegment concludes: the metadata and the size the file keeps. */
  function Conclude(st: ScanState, size: nat, first: nat, newest: bool): Segment
  {
    var cut := newest && size > st.goodEnd;
    var index := if cut then KeepBelow(st.index, st.goodEnd) else st.index;
    var kept := if cut then st.goodEnd else st.off;
    if st.lastNumber != 0
    then Segment(first, st.lastNumber, st.firstAt, st.lastAt, st.lastHash, kept, index)
    else Segment(first, 0, 0, 0, "", kept, index)
  }

  /** watermarks[k] = v for every pending v later than what is there (a missing one counts as time 0). */
  function Raise(wm: map<string, Time>, pending: map<string, Time>): map<string, Time>
  {
    map k | k in wm.Keys + pending.Keys && (k in wm || pending[k] > 0) ::
      if k in pending && (k !in wm || pending[k] > wm[k]) then pending[k] else wm[k]
  }

  // ---- scanning a file of well-formed lines ----

  /** The scan state after the lines of recs. */
  function StateAfter(c: Codec, first: nat, recs: seq<Record>): ScanState
  {
    if recs == [] then SCAN_START
    else
      var r := recs[|recs| - 1];
      Absorb(StateAfter(c, first, recs[..|recs| - 1]), Parsed(r, c.Digest(r), c.marshal(r)), first, |c.Line(r)|)
  }

  lemma {:induction false} StateAfterOffset(c: Codec, first: nat, recs: seq<Record>)
    ensures StateAfter(c, first, recs).goodEnd <= StateAfter(c, first, recs).off == |Lines(c, recs)|
    ensures StateAfter(c, first, recs).index == IndexOfLines(c, first, recs)
  {
    if recs != [] { StateAfterOffset(c, first, recs[..|recs| - 1]); }
  }

  /** The line of record k starts at its offset and ends at the next newline. */
  lemma NextNewline(c: Codec, recs: seq<Record>, tail: string, k: nat)
    requires c.Valid() && k < |recs|
    ensures var data := Lines(c, recs) + tail; var off := |Lines(c, recs[..k])|;
      && off + |c.Line(recs[k])| <= |data|
      && IndexOf(data, '\n', off) == off + |c.Stem(recs[k])| < |data|
      && data[off..off + |c.Stem(recs[k])|] == c.Stem(recs[k])
      && |Lines(c, recs[..k + 1])| == off + |c.Line(recs[k])|
  {
    hide Lines, Codec.Valid, ParseLine, ParseLineNoVerify;
    LineAt(c, recs, k);
    StemParses(c, recs[k]);
    var data := Lines(c, recs) + tail;
    var off := |Lines(c, recs[..k])|;
    var stem := c.Stem(recs[k]);
    assert data == Lines(c, recs[..k]) + stem + "\n" + Lines(c, recs[k + 1..]) + tail;
    assert data[off..off + |stem|] == stem;
    assert forall j :: off <= j < off + |stem| ==> data[j] == stem[j - off];
    assert data[off + |stem|] == '\n';
  }

  /** One round of the loop on the line of a record. */
  lemma ScanLine(c: Codec, data: string, first: nat, newest: bool, st: ScanState, r: Record)
    requires c.Valid()
    requires st.goodEnd <= st.off && st.off + |c.Line(r)| <= |data|
    requires IndexOf(data, '\n', st.off) == st.off + |c.Stem(r)|
    requires data[st.off..st.off + |c.Stem(r)|] == c.Stem(r)
    ensures ScanFrom(c, data, first, newest, st)
            == ScanFrom(c, data, first, newest, Absorb(st, Parsed(r, c.Digest(r), c.marshal(r)), first, |c.Line(r)|))
  {
    StemParses(c, r);
  }

  lemma {:induction false} ScanReaches(c: Codec, first: nat, recs: seq<Record>, tail: string, newest: bool, k: nat)
    requires c.Valid() && k <= |recs|
    ensures var data := Lines(c, recs) + tail;
      && StateAfter(c, first, recs[..k]).goodEnd <= StateAfter(c, first, recs[..k]).off <= |data|
      && StateAfter(c, first, recs).goodEnd <= StateAfter(c, first, recs).off <= |data|
      && ScanFrom(c, data, first, newest, StateAfter(c, first, recs[..k]))
         == ScanFrom(c, data, first, newest, StateAfter(c, first, recs))
    decreases |recs| - k
  {
    hide ScanFrom, IndexOf, IndexOfLines, ParseLine, Lines;
    var data := Lines(c, recs) + tail;
    StateAfterOffset(c, first, recs);
    if k == |recs| {
      assert recs[..k] == recs;
    } else {
      var st := StateAfter(c, first, recs[..k]);
      StateAfterOffset(c, first, recs[..k]);
      NextNewline(c, recs, tail, k);
      ScanLine(c, data, first, newest, st, recs[k]);
      assert recs[..k + 1][..k] == recs[..k];
      assert StateAfter(c, first, recs[..k + 1])
        == Absorb(st, Parsed(recs[k], c.Digest(recs[k]), c.marshal(recs[k])), first, |c.Line(recs[k])|);
      ScanReaches(c, first, recs, tail, newest, k + 1);
    }
  }

  /** A scan of complete lines and a torn rest stops after the last complete line. Only the newest segment
      may end in a torn line. */
  lemma ScanStops(c: Codec, first: nat, recs: seq<Record>, torn: string, newest: bool)
    requires c.Valid() && '\n' !in torn
    ensures ScanFrom(c, Lines(c, recs) + torn, first, newest, SCAN_START)
            == if torn == "" || newest then Scanned(StateAfter(c, first, recs)) else TornClosed
  {
    hide ParseLine, Absorb, IndexOfLines, Lines;
    ScanReaches(c, first, recs, torn, newest, 0);
    StateAfterOffset(c, first, recs);
    assert recs[..0] == [];
    var data := Lines(c, recs) + torn;
    var off := |Lines(c, recs)|;
    assert forall j :: off <= j < |data| ==> data[j] == torn[j - off];
  }

  ghost predicate NoCommits(recs: seq<Record>)
  {
    forall i :: 0 <= i < |recs| ==> recs[i].payload.EventPayload?
  }

  ghost predicate Timed(recs: seq<Record>)
  {
    forall i :: 0 <= i < |recs| ==> recs[i].at > 0 && recs[i].number > 0
  }

  /** The state at the end of a committed run of records. */
  lemma {:induction false} StateCommitted(c: Codec, first: nat, recs: seq<Record>)
    requires Timed(recs)
    ensures var st := StateAfter(c, first, recs);
      && st.pending == Watermarks(recs)
      && (recs != [] ==> st.firstAt == recs[0].at)
      && (recs == [] ==> st.firstAt == 0)
      && (Closed(recs) && recs != [] ==>
           var r := recs[|recs| - 1];
           st.goodEnd == st.off && st.lastNumber == r.number && st.lastAt == r.at && st.lastHash == c.Digest(r))
  {
    if recs != [] {
      var n := |recs| - 1;
      StateCommitted(c, first, recs[..n]);
      if n > 0 { assert recs[..n][0] == recs[0]; }
    }
  }

  lemma KeepBelowLast(index: seq<Offset>, number: nat, off: nat, first: nat, limit: nat)
    requires limit <= off
    ensures KeepBelow(index + IndexEntry(first, number, off), limit) == KeepBelow(index, limit)
  {
    var e := IndexEntry(first, number, off);
    if e == [] {
      assert index + e == index;
    } else {
      assert (index + e)[..|index|] == index;
    }
  }

  /** Events after the last commit change nothing that survives truncation. */
  lemma {:induction false} StateUncommitted(c: Codec, first: nat, recs: seq<Record>, evs: seq<Record>)
    requires NoCommits(evs) && Timed(recs)
    ensures var st := StateAfter(c, first, recs + evs); var st0 := StateAfter(c, first, recs);
      && st.goodEnd == st0.goodEnd && st.lastNumber == st0.lastNumber && st.lastAt == st0.lastAt
      && st.lastHash == st0.lastHash && st.pending == st0.pending
      && (recs != [] ==> st.firstAt == recs[0].at)
      && st.off >= st0.off
      && KeepBelow(st.index, st0.off) == KeepBelow(st0.index, st0.off)
  {
    if evs == [] {
      assert recs + evs == recs;
      StateCommitted(c, first, recs);
    } else {
      var n := |evs| - 1;
      hide KeepBelow, Codec.Line;
      StateUncommitted(c, first, recs, evs[..n]);
      var all := recs + evs;
      var r := evs[n];
      assert all[..|all| - 1] == recs + evs[..n] && all[|all| - 1] == r;
      var st1 := StateAfter(c, first, recs + evs[..n]);
      assert StateAfter(c, first, all) == Absorb(st1, Parsed(r, c.Digest(r), c.marshal(r)), first, |c.Line(r)|);
      KeepBelowLast(st1.index, r.number, st1.off, first, StateAfter(c, first, recs).off);
    }
  }

  /** Every index entry of complete lines lies below their end. */
  lemma {:induction false} IndexBelowEnd(c: Codec, first: nat, recs: seq<Record>, limit: nat)
    requires |Lines(c, recs)| <= limit
    ensures KeepBelow(IndexOfLines(c, first, recs), limit) == IndexOfLines(c, first, recs)
  {
    if recs != [] {
      var n := |recs| - 1;
      IndexBelowEnd(c, first, recs[..n], limit);
      var before := IndexOfLines(c, first, recs[..n]);
      var e := IndexEntry(first, recs[n].number, |Lines(c, recs[..n])|);
      if e != [] {
        assert (before + e)[..|before + e| - 1] == before;
      } else {
        assert before + e == before;
      }
    }
  }

  /** Recovery of one segment: committed records, then events of a batch whose commit was
      never written, then part of a line. The result is what the committed records alone give. */
  lemma ScanRecovers(c: Codec, first: nat, recs: seq<Record>, evs: seq<Record>, torn: string, newest: bool)
    requires c.Valid() && Closed(recs) && Timed(recs) && NoCommits(evs) && '\n' !in torn
    requires evs != [] || torn != "" ==> newest
    ensures var data := Lines(c, recs + evs) + torn;
      var out := ScanFrom(c, data, first, newest, SCAN_START);
      && out.Scanned?
      && out.st.pending == Watermarks(recs)
      && Conclude(out.st, |data|, first, newest) == MetaOf(c, first, recs)
      && Lines(c, recs) <= data
      && MetaOf(c, first, recs).size == |Lines(c, recs)|
  {
    hide ScanFrom, ParseLine, IndexOf, Absorb, IndexOfLines;
    var all := recs + evs;
    ScanStops(c, first, all, torn, newest);
    LinesAppend(c, recs, evs);
    StateAfterOffset(c, first, recs);
    StateAfterOffset(c, first, all);
    StateCommitted(c, first, recs);
    StateUncommitted(c, first, recs, evs);
    IndexBelowEnd(c, first, recs, |Lines(c, recs)|);
    var st := StateAfter(c, first, all);
    if evs == [] {
      assert all == recs;
    }
    if recs != [] {
      assert Watermarks(recs) == st.pending;
      assert recs[|recs| - 1].number > 0;
    } else {
      assert st.goodEnd == 0 && st.lastNumber == 0;
      KeepNothing(st.index);
    }
  }

  lemma {:induction false} KeepNothing(index: seq<Offset>)
    ensures KeepBelow(index, 0) == []
  {
    if index != [] { KeepNothing(index[..|index| - 1]); }
  }
}
