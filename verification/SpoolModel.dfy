/** The spool's memory and disk as values, and what each operation makes of them
    (internal/spool/spool.go). The class in Spool.dfy is proved against these functions. */
module SpoolModel {
  import opened Text
  import opened Usage
  import opened Ledger
  import opened Segments

  datatype Options = Options(maxRecords: int, maxAge: int, retention: int, dedupeWindow: int)

  function Defaults(o: Options): (r: Options)
    ensures r.maxRecords > 0 && r.maxAge > 0 && r.dedupeWindow > 0 && r.retention == o.retention
    ensures (o.maxRecords > 0 ==> r.maxRecords == o.maxRecords) && (o.maxAge > 0 ==> r.maxAge == o.maxAge)
    ensures o.dedupeWindow > 0 ==> r.dedupeWindow == o.dedupeWindow
  {
    Options(
      if o.maxRecords <= 0 then 20000 else o.maxRecords,
      if o.maxAge <= 0 then HOUR else o.maxAge,
      o.retention,
      if o.dedupeWindow <= 0 then 48 * HOUR else o.dedupeWindow)
  }

  datatype Manifest = Manifest(segments: seq<Segment>, watermarks: map<string, Time>, anchor: string)

  const NO_MANIFEST: Manifest := Manifest([], map[], "")

  /** The spool directory. A segment file is named by its first sequence number; ingest-ids.log
      is represented by the second each ID was last recorded at. */
  datatype DiskState = DiskState(
    files: map<nat, string>,
    manifest: Option<Manifest>,
    cursors: Option<map<string, nat>>,
    ingestIDs: map<string, nat>)

  datatype Memory = Memory(
    segs: seq<Segment>,
    number: nat,      // last written
    committed: nat,
    head: string,
    anchor: string,
    watermarks: map<string, Time>,
    cursors: map<string, nat>,
    recentIDs: map<string, Time>)

  // ---- recovery ----

  /** The smallest name, searching upwards from k; x bounds the search. */
  function Least(names: set<nat>, k: nat, x: nat): (least: nat)
    requires x in names && k <= x
    requires forall n :: n in names ==> k <= n
    ensures least in names
    ensures forall n :: n in names ==> least <= n
    decreases x - k
  {
    if k in names then k else Least(names, k + 1, x)
  }

  ghost function LeastOf(names: set<nat>): (least: nat)
    requires names != {}
    ensures least in names
    ensures forall n :: n in names ==> least <= n
  {
    var x :| x in names;
    Least(names, 0, x)
  }

  /** Segment names in order. Names are zero-padded, so their order is that of the numbers. */
  ghost function Listing(names: set<nat>): seq<nat>
  {
    if names == {} then [] else [LeastOf(names)] + Listing(names - {LeastOf(names)})
  }

  ghost predicate Ascending(s: seq<nat>) { forall i, j :: 0 <= i < j < |s| ==> s[i] < s[j] }

  /** An ascending sequence is the only listing of its elements. */
  lemma {:induction false} ListingUnique(names: set<nat>, s: seq<nat>)
    requires Ascending(s) && forall n :: n in s <==> n in names
    ensures Listing(names) == s
  {
    if s == [] {
      assert forall n :: n in names ==> n in s;
    } else {
      hide LeastOf;
      assert s[0] in names;
      var least := LeastOf(names);
      assert least in s;
      assert least == s[0];
      RestIsListed(names, s);
      ListingUnique(names - {least}, s[1..]);
      assert s == [least] + s[1..];
    }
  }

  lemma RestIsListed(names: set<nat>, s: seq<nat>)
    requires s != [] && Ascending(s) && forall n :: n in s <==> n in names
    ensures forall n :: n in s[1..] <==> n in names - {s[0]}
  {
    assert s == [s[0]] + s[1..];
    forall n | n in s[1..] ensures n != s[0] { var i :| 1 <= i < |s| && s[i] == n; }
  }

  /** The listing holds exactly the names there are. */
  lemma {:induction false} ListingMembers(names: set<nat>)
    ensures forall n :: n in Listing(names) <==> n in names
  {
    if names != {} { ListingMembers(names - {LeastOf(names)}); }
  }

  function Known(segments: seq<Segment>, first: nat): Option<Segment>
  {
    if segments == [] then None
    else
      var sg := segments[|segments| - 1];
      if sg.first == first then Some(sg) else Known(segments[..|segments| - 1], first)
  }

  datatype Recovery = Recovery(segs: seq<Segment>, watermarks: map<string, Time>, files: map<nat, string>)

  /** The recovery loop over the segment files, from file i on; None when a file is refused. */
  function RecoverFrom(c: Codec, known: seq<Segment>, names: seq<nat>, i: nat, r: Recovery): Option<Recovery>
    requires i <= |names|
    requires forall j :: 0 <= j < |names| ==> names[j] in r.files
    decreases |names| - i
  {
    if i == |names| then Some(r)
    else
      var first := names[i];
      var newest := i == |names| - 1;
      var data := r.files[first];
      var k := Known(known, first);
      if k.Some? && !newest && k.value.size == |data| then
        RecoverFrom(c, known, names, i + 1, r.(segs := r.segs + [k.value]))
      else match ScanFrom(c, data, first, newest, SCAN_START)
        case Scanned(st) =>
          var sg := Conclude(st, |data|, first, newest);
          RecoverFrom(c, known, names, i + 1, Recovery(
            r.segs + [sg],
            Raise(r.watermarks, st.pending),
            r.files[first := data[..sg.size]]))
        case _ => None
  }

  function LastNonEmpty(segs: seq<Segment>): Option<Segment>
  {
    if segs == [] then None
    else if segs[|segs| - 1].last != 0 then Some(segs[|segs| - 1])
    else LastNonEmpty(segs[..|segs| - 1])
  }

  /** loadCursors: a cursor ahead of the log falls back to its end. */
  function ClampCursors(cursors: Option<map<string, nat>>, committed: nat): (r: map<string, nat>)
    ensures forall d :: d in r <==> cursors.Some? && d in cursors.value
    ensures forall d :: d in r ==> r[d] <= committed && (cursors.value[d] <= committed ==> r[d] == cursors.value[d])
  {
    if cursors.None? then map[]
    else map d | d in cursors.value :: if cursors.value[d] > committed then committed else cursors.value[d]
  }

  function Remembered(ids: map<string, nat>, cutoff: int): map<string, nat>
  {
    map id | id in ids && ids[id] * SECOND >= cutoff :: ids[id]
  }

  /** Where the log ends: at the last record of any segment, or else just before the name of the active one. */
  function TipOf(segs: seq<Segment>, anchor: string): (nat, string)
  {
    var tip := LastNonEmpty(segs);
    if tip.Some? then (tip.value.last, tip.value.lastHash)
    else if segs == [] then (0, "")
    else (if segs[|segs| - 1].first > 0 then segs[|segs| - 1].first - 1 else 0, anchor)
  }

  /** What Open makes of the segments it read: cursors, remembered IDs and an active segment. */
  function Assemble(o: Options, d: DiskState, anchor: string, r: Recovery, now: Clock): (Memory, DiskState)
  {
    var (number, head) := TipOf(r.segs, anchor);
    var ids := Remembered(d.ingestIDs, now - o.dedupeWindow);
    var segs := if r.segs == [] then [EmptySegment(number + 1)] else r.segs;
    var active := segs[|segs| - 1].first;
    (Memory(segs, number, number, head, anchor, r.watermarks, ClampCursors(d.cursors, number),
            map id | id in ids :: ids[id] * SECOND),
     d.(files := if active in r.files then r.files else r.files[active := ""], ingestIDs := ids))
  }

  function ManifestOf(d: DiskState): Manifest { if d.manifest.Some? then d.manifest.value else NO_MANIFEST }

  /** recover's loop over every segment file, in order. */
  ghost function Recovered(c: Codec, d: DiskState): Option<Recovery>
  {
    var man := ManifestOf(d);
    ListingMembers(d.files.Keys);
    RecoverFrom(c, man.segments, Listing(d.files.Keys), 0, Recovery([], man.watermarks, d.files))
  }

  /** Open on whatever the directory holds; None when recovery refuses it. */
  ghost function Open(c: Codec, o: Options, d: DiskState, now: Clock): Option<(Memory, DiskState)>
  {
    match Recovered(c, d)
    case None => None
    case Some(r) => Some(Assemble(o, d, ManifestOf(d).anchor, r, now))
  }

  // ---- appending ----

  function StoredSegment(sg: Segment): Segment { sg.(index := []) }

  function StoredSegments(segs: seq<Segment>): (s: seq<Segment>)
    ensures |s| == |segs|
    ensures forall i :: 0 <= i < |segs| ==> s[i] == StoredSegment(segs[i])
  {
    seq(|segs|, i requires 0 <= i < |segs| => StoredSegment(segs[i]))
  }

  /** writeManifestLocked: closed segments only, without their index. */
  function WriteManifest(m: Memory, d: DiskState): DiskState
    requires m.segs != []
  {
    d.(manifest := Some(Manifest(StoredSegments(m.segs[..|m.segs| - 1]), m.watermarks, m.anchor)))
  }

  predicate RotationDue(o: Options, m: Memory, now: Clock)
    requires m.segs != []
  {
    var sg := m.segs[|m.segs| - 1];
    && sg.last != 0
    && (sg.last - sg.first + 1 >= o.maxRecords || now - sg.firstAt >= o.maxAge)
  }

  function CreateNext(m: Memory, d: DiskState): (r: (Memory, DiskState))
    ensures |r.0.segs| == |m.segs| + 1
  {
    var first := m.number + 1;
    (m.(segs := m.segs + [EmptySegment(first)]),
     if first in d.files then d else d.(files := d.files[first := ""]))
  }

  /** maybeRotateLocked. */
  function Rotate(o: Options, m: Memory, d: DiskState, now: Clock): (r: (Memory, DiskState))
    requires m.segs != []
    ensures r.0.segs != []
  {
    if !RotationDue(o, m, now) then (m, d)
    else
      var (m1, d1) := CreateNext(m, d);
      (m1, WriteManifest(m1, d1))
  }

  function EventPayloads(events: seq<Event>): (ps: seq<Payload>)
    ensures |ps| == |events|
    ensures forall i :: 0 <= i < |events| ==> ps[i] == EventPayload(events[i])
  {
    seq(|events|, i requires 0 <= i < |events| => EventPayload(events[i]))
  }

  /** What an append is asked to write, and the times it reads the clock at. */
  datatype Request = Request(source: string, windowEnd: Time, events: seq<Event>, note: string, rotateAt: Clock,
                             at: Clock)

  function RequestPayloads(q: Request): seq<Payload>
  {
    EventPayloads(q.events) + [CommitPayload(Commit(q.source, q.windowEnd, |q.events|, q.note))]
  }

  /** The records an append adds to a log ending at m.number with digest m.head. */
  function NewRecords(c: Codec, m: Memory, q: Request): (recs: seq<Record>)
    ensures |recs| == |q.events| + 1
  {
    Batch(c, m.number, m.head, q.at, RequestPayloads(q))
  }

  /** Index entries for records written from byte `start` on. */
  function NewEntries(c: Codec, first: nat, start: nat, recs: seq<Record>): seq<Offset>
  {
    if recs == [] then []
    else
      var n := |recs| - 1;
      NewEntries(c, first, start, recs[..n]) + IndexEntry(first, recs[n].number, start + |Lines(c, recs[..n])|)
  }

  /** The active segment's metadata once recs are written behind it. */
  function Extend(c: Codec, sg: Segment, recs: seq<Record>, at: Time): Segment
    requires recs != []
  {
    var r := recs[|recs| - 1];
    Segment(sg.first, r.number, if sg.last == 0 then at else sg.firstAt, at, c.Digest(r),
            sg.size + |Lines(c, recs)|, sg.index + NewEntries(c, sg.first, sg.size, recs))
  }

  /** appendLocked after rotation, the write having succeeded. */
  function WriteBatch(c: Codec, m: Memory, d: DiskState, q: Request): (Memory, DiskState)
    requires m.segs != [] && m.segs[|m.segs| - 1].first in d.files
  {
    var recs := NewRecords(c, m, q);
    var n := |m.segs| - 1;
    var sg := m.segs[n];
    (m.(segs := m.segs[n := Extend(c, sg, recs, q.at)],
        number := recs[|recs| - 1].number,
        committed := recs[|recs| - 1].number,
        head := HeadOf(c, recs, m.head),
        watermarks := if q.windowEnd != 0 then m.watermarks[q.source := q.windowEnd] else m.watermarks),
     d.(files := d.files[sg.first := d.files[sg.first] + Lines(c, recs)]))
  }

  predicate Writable(m: Memory, d: DiskState)
  {
    m.segs != [] && m.segs[|m.segs| - 1].first in d.files
  }

  /** appendLocked. A failed write leaves the rotation and nothing else. */
  function AppendLocked(c: Codec, o: Options, m: Memory, d: DiskState, q: Request,
                        writeFails: bool): (r: (Memory, DiskState))
    requires Writable(m, d)
  {
    var (m1, d1) := Rotate(o, m, d, q.rotateAt);
    if writeFails then (m1, d1) else WriteBatch(c, m1, d1, q)
  }

  /** AppendWindow's guard: windows of one source only ever go forward. */
  predicate WindowAccepted(m: Memory, source: string, windowEnd: Time)
  {
    windowEnd == 0 || source !in m.watermarks || windowEnd > m.watermarks[source]
  }

  // ---- a crash inside an append ----

  datatype CrashPoint =
    | BeforeRotation
    | FileCreated          // the next segment exists, the manifest does not list its predecessor yet
    | Writing(bytes: nat)  // this many bytes of the batch reached the file

  /** What the disk holds when the process dies inside appendLocked. */
  function CrashDisk(c: Codec, o: Options, m: Memory, d: DiskState, q: Request, p: CrashPoint): DiskState
    requires Writable(m, d)
  {
    match p
    case BeforeRotation => d
    case FileCreated => if RotationDue(o, m, q.rotateAt) then CreateNext(m, d).1 else d
    case Writing(bytes) =>
      var (m1, d1) := Rotate(o, m, d, q.rotateAt);
      var text := Lines(c, NewRecords(c, m1, q));
      var first := m1.segs[|m1.segs| - 1].first;
      d1.(files := d1.files[first := d1.files[first] + text[..if bytes < |text| then bytes else |text|]])
  }

  /** Whether every byte of the batch got out. */
  predicate Survives(c: Codec, o: Options, m: Memory, d: DiskState, q: Request, p: CrashPoint)
    requires Writable(m, d)
  {
    p.Writing? && p.bytes >= |Lines(c, NewRecords(c, Rotate(o, m, d, q.rotateAt).0, q))|
  }

  // ---- cursors ----

  /** A destination's first cursor is the end of the log. */
  function TakeCursor(m: Memory, d: DiskState, dest: string, writeFails: bool): (Memory, DiskState)
  {
    if dest in m.cursors then (m, d) else StoreCursors(m, d, m.cursors[dest := m.committed], writeFails)
  }

  function SetCursor(m: Memory, d: DiskState, dest: string, number: nat, writeFails: bool): (Memory, DiskState)
  {
    StoreCursors(m, d, m.cursors[dest := if number > m.committed then m.committed else number], writeFails)
  }

  /** A missing cursor counts as 0 here. */
  function Ack(m: Memory, d: DiskState, dest: string, number: nat, writeFails: bool): (Memory, DiskState)
  {
    if number <= (if dest in m.cursors then m.cursors[dest] else 0) then (m, d)
    else StoreCursors(m, d, m.cursors[dest := number], writeFails)
  }

  /** The cursors move in memory first; a write that fails leaves the file as it was. */
  function StoreCursors(m: Memory, d: DiskState, cs: map<string, nat>, writeFails: bool): (Memory, DiskState)
  {
    (m.(cursors := cs), if writeFails then d else d.(cursors := Some(cs)))
  }

  // ---- retention ----

  /** The lowest cursor among the consumers; one without a cursor counts as caught up. */
  function MinCursor(m: Memory, consumers: seq<string>): (low: nat)
    ensures low <= m.committed
    ensures forall d :: d in consumers && d in m.cursors ==> low <= m.cursors[d]
  {
    if consumers == [] then m.committed
    else
      var n := |consumers| - 1;
      var low := MinCursor(m, consumers[..n]);
      var cur := if consumers[n] in m.cursors then m.cursors[consumers[n]] else m.committed;
      assert forall d :: d in consumers ==> d in consumers[..n] || d == consumers[n];
      if cur < low then cur else low
  }

  predicate Expired(sg: Segment, cutoff: int, low: nat)
  {
    sg.last == 0 || (sg.lastAt <= cutoff && sg.last <= low)
  }

  /** How many leading closed segments go. */
  function RemovedCount(segs: seq<Segment>, cutoff: int, low: nat): (n: nat)
    ensures segs != [] ==> n < |segs|
    ensures segs == [] ==> n == 0
    ensures forall i :: 0 <= i < n ==> Expired(segs[i], cutoff, low)
    ensures n + 1 < |segs| ==> !Expired(segs[n], cutoff, low)
  {
    if |segs| < 2 || !Expired(segs[0], cutoff, low) then 0 else 1 + RemovedCount(segs[1..], cutoff, low)
  }

  function AnchorAfter(segs: seq<Segment>, n: nat, anchor: string): string
    requires n <= |segs|
  {
    if n == 0 then anchor
    else if segs[n - 1].lastHash != "" then segs[n - 1].lastHash
    else AnchorAfter(segs, n - 1, anchor)
  }

  function RemoveFiles(files: map<nat, string>, segs: seq<Segment>, n: nat): map<nat, string>
    requires n <= |segs|
  {
    files - set i | 0 <= i < n :: segs[i].first
  }

  /** compactDedupeLocked: the file is rewritten only when something expired. */
  function CompactIDs(m: Memory, d: DiskState, cutoff: int): (Memory, DiskState)
  {
    var kept := map id | id in m.recentIDs && m.recentIDs[id] >= cutoff :: m.recentIDs[id];
    if kept == m.recentIDs then (m, d)
    else (m.(recentIDs := kept), d.(ingestIDs := map id | id in kept :: kept[id] / SECOND))
  }

  /** Compact, run to completion. */
  function Compact(o: Options, m: Memory, d: DiskState, consumers: seq<string>, now: Clock): (Memory, DiskState)
    requires m.segs != []
  {
    if o.retention <= 0 || |m.segs| < 2 then CompactIDs(m, d, now - o.dedupeWindow)
    else
      var n := RemovedCount(m.segs, now - o.retention, MinCursor(m, consumers));
      var m1 := m.(anchor := AnchorAfter(m.segs, n, m.anchor));
      var d1 := d.(files := RemoveFiles(d.files, m.segs, n));
      var (m2, d2) := CompactIDs(m1, d1, now - o.dedupeWindow);
      if n == 0 then (m2, d2)
      else
        var m3 := m2.(segs := m.segs[n..]);
        (m3, WriteManifest(m3, d2))
  }
}
