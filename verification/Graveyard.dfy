/** The graveyard as an object, and the pods a collection meters
    (internal/metrics/graveyard.go, internal/metrics/collector.go). */
module GraveyardObject {
  import opened Text
  import opened Usage
  import opened Deletions

  datatype Pod = Pod(uid: string, namespace: string, start: Time, end: Time)
  datatype Node = Node(name: string, created: Time)

  /** One entry of the merged pod list, with the date of its deletion if it is gone. */
  datatype PodEntry = PodEntry(pod: Pod, deletedAt: Option<Time>)

  /** Deletes what is older than the cutoff, key by key. */
  method ExpireSeen(seen: map<string, Time>, cutoff: int) returns (r: map<string, Time>)
    ensures r == RecentlySeen(seen, cutoff)
  {
    r := seen;
    var left := seen.Keys;
    while left != {}
      invariant left <= seen.Keys
      invariant r == map k | k in seen && (k in left || seen[k] >= cutoff) :: seen[k]
      decreases |left|
    {
      var k :| k in left;
      left := left - {k};
      if seen[k] < cutoff { r := r - {k}; }
    }
  }

  method ExpireGone<T>(gone: map<string, Dead<T>>, cutoff: int) returns (r: map<string, Dead<T>>)
    ensures r == RecentlyGone(gone, cutoff)
  {
    r := gone;
    var left := gone.Keys;
    while left != {}
      invariant left <= gone.Keys
      invariant r == map k | k in gone && (k in left || gone[k].at >= cutoff) :: gone[k]
      decreases |left|
    {
      var k :| k in left;
      left := left - {k};
      if gone[k].at < cutoff { r := r - {k}; }
    }
  }

  class Graveyard {
    const retention: nat
    var pods: map<string, Dead<Pod>>
    var nodes: map<string, Dead<Node>>
    var seenPods: map<string, Time>
    var seenNodes: map<string, Time>

    constructor (retention: nat)
      ensures this.retention == retention && PodSide() == Side(map[], map[]) && NodeSide() == Side(map[], map[])
    {
      this.retention := retention;
      pods, nodes, seenPods, seenNodes := map[], map[], map[], map[];
    }

    function PodSide(): Side<Pod>
      reads this
    {
      Side(pods, seenPods)
    }

    function NodeSide(): Side<Node>
      reads this
    {
      Side(nodes, seenNodes)
    }

    method RecordPod(p: Pod, at: Time, uncertain: bool)
      modifies this`pods
      ensures PodSide() == Record(old(PodSide()), p.uid, p, at, uncertain)
    {
      var date := at;
      if uncertain && p.uid in seenPods && seenPods[p.uid] < at { date := seenPods[p.uid]; }
      pods := pods[p.uid := Dead(p, date)];
    }

    method RecordNode(n: Node, at: Time, uncertain: bool)
      modifies this`nodes
      ensures NodeSide() == Record(old(NodeSide()), n.name, n, at, uncertain)
    {
      var date := at;
      if uncertain && n.name in seenNodes && seenNodes[n.name] < at { date := seenNodes[n.name]; }
      nodes := nodes[n.name := Dead(n, date)];
    }

    method SeenPods(list: seq<Pod>, at: Time)
      modifies this`seenPods
      ensures PodSide() == See(old(PodSide()), UIDs(list), at)
    {
      var i := 0;
      while i < |list|
        invariant i <= |list|
        invariant seenPods == old(seenPods) + map k | k in UIDs(list[..i]) :: at
      {
        UIDsAppend(list, i);
        seenPods := seenPods[list[i].uid := at];
        i := i + 1;
      }
      assert list[..i] == list;
    }

    method SeenNodes(list: seq<Node>, at: Time)
      modifies this`seenNodes
      ensures NodeSide() == See(old(NodeSide()), Names(list), at)
    {
      var i := 0;
      while i < |list|
        invariant i <= |list|
        invariant seenNodes == old(seenNodes) + map k | k in Names(list[..i]) :: at
      {
        NamesAppend(list, i);
        seenNodes := seenNodes[list[i].name := at];
        i := i + 1;
      }
      assert list[..i] == list;
    }

    method PruneLocked(now: Time)
      modifies this
      ensures PodSide() == Prune(old(PodSide()), now - retention)
          && NodeSide() == Prune(old(NodeSide()), now - retention)
    {
      hide RecentlyGone, RecentlySeen;
      var cutoff := now - retention;
      seenPods := ExpireSeen(seenPods, cutoff);
      seenNodes := ExpireSeen(seenNodes, cutoff);
      pods := ExpireGone(pods, cutoff);
      nodes := ExpireGone(nodes, cutoff);
    }

    /** Prunes, then lists what is left of one namespace, or of all for "", in some order. */
    method Pods(namespace: string, now: Time) returns (out: seq<Dead<Pod>>)
      modifies this
      ensures PodSide() == Prune(old(PodSide()), now - retention)
          && NodeSide() == Prune(old(NodeSide()), now - retention)
      ensures forall d :: d in out <==>
        exists k :: k in pods && pods[k] == d && (namespace == "" || d.obj.namespace == namespace)
    {
      hide Prune;
      PruneLocked(now);
      out := [];
      var left := pods.Keys;
      while left != {}
        invariant left <= pods.Keys
        invariant PodSide() == Prune(old(PodSide()), now - retention)
            && NodeSide() == Prune(old(NodeSide()), now - retention)
        invariant forall d :: d in out <==>
          exists k :: k in pods && k !in left && pods[k] == d && (namespace == "" || d.obj.namespace == namespace)
        decreases |left|
      {
        var k :| k in left;
        left := left - {k};
        if namespace == "" || pods[k].obj.namespace == namespace { out := out + [pods[k]]; }
      }
    }

    /** Prunes, then lists what is left, in some order. */
    method Nodes(now: Time) returns (out: seq<Dead<Node>>)
      modifies this
      ensures PodSide() == Prune(old(PodSide()), now - retention)
          && NodeSide() == Prune(old(NodeSide()), now - retention)
      ensures forall d :: d in out <==> exists k :: k in nodes && nodes[k] == d
    {
      hide Prune;
      PruneLocked(now);
      out := [];
      var left := nodes.Keys;
      while left != {}
        invariant left <= nodes.Keys
        invariant PodSide() == Prune(old(PodSide()), now - retention)
            && NodeSide() == Prune(old(NodeSide()), now - retention)
        invariant forall d :: d in out <==> exists k :: k in nodes && k !in left && nodes[k] == d
        decreases |left|
      {
        var k :| k in left;
        left := left - {k};
        out := out + [nodes[k]];
      }
    }
  }

  function UIDs(list: seq<Pod>): seq<string> { seq(|list|, i requires 0 <= i < |list| => list[i].uid) }

  function Names(list: seq<Node>): seq<string> { seq(|list|, i requires 0 <= i < |list| => list[i].name) }

  lemma UIDsAppend(list: seq<Pod>, i: nat)
    requires i < |list|
    ensures UIDs(list[..i + 1]) == UIDs(list[..i]) + [list[i].uid]
  {
  }

  lemma NamesAppend(list: seq<Node>, i: nat)
    requires i < |list|
    ensures Names(list[..i + 1]) == Names(list[..i]) + [list[i].name]
  {
  }

  /** The pods to meter: every live pod once and without a deletion date, then each deleted pod that is
      not live, with its date. */
  method WithDeleted(live: seq<Pod>, gone: seq<Dead<Pod>>) returns (out: seq<PodEntry>)
    ensures |live| <= |out| && forall i :: 0 <= i < |live| ==> out[i] == PodEntry(live[i], None)
    ensures out[|live|..] == Absent(live, gone)
    ensures forall e :: e in out[|live|..] <==>
      exists d :: d in gone && d.obj.uid !in UIDs(live) && e == PodEntry(d.obj, Some(d.at))
  {
    out := [];
    var seen: set<string> := {};
    var i := 0;
    while i < |live|
      invariant i == |out| <= |live| && forall j :: 0 <= j < i ==> out[j] == PodEntry(live[j], None)
      invariant forall k :: k in seen <==> k in UIDs(live[..i])
    {
      UIDsAppend(live, i);
      out := out + [PodEntry(live[i], None)];
      seen := seen + {live[i].uid};
      i := i + 1;
    }
    assert live[..i] == live;
    i := 0;
    while i < |gone|
      invariant i <= |gone| && |live| <= |out| && out[|live|..] == Absent(live, gone[..i])
      invariant forall j :: 0 <= j < |live| ==> out[j] == PodEntry(live[j], None)
    {
      assert gone[..i + 1][..i] == gone[..i];
      if gone[i].obj.uid !in seen { out := out + [PodEntry(gone[i].obj, Some(gone[i].at))]; }
      i := i + 1;
    }
    assert gone[..i] == gone;
    assert out[|live|..] == Absent(live, gone);
    AbsentAre(live, gone);
  }

  function Absent(live: seq<Pod>, gone: seq<Dead<Pod>>): seq<PodEntry>
  {
    if gone == [] then []
    else
      var d := gone[|gone| - 1];
      Absent(live, gone[..|gone| - 1]) + if d.obj.uid in UIDs(live) then [] else [PodEntry(d.obj, Some(d.at))]
  }

  lemma {:induction false} AbsentAre(live: seq<Pod>, gone: seq<Dead<Pod>>)
    ensures forall e :: e in Absent(live, gone) <==>
      exists d :: d in gone && d.obj.uid !in UIDs(live) && e == PodEntry(d.obj, Some(d.at))
  {
    if gone != [] {
      var n := |gone| - 1;
      AbsentAre(live, gone[..n]);
      assert gone == gone[..n] + [gone[n]];
    }
  }
}
