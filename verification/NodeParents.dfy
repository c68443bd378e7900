/** Where the parents of nodes come from: a node's recorded parent, or the one node it is a relay
    or chain copy of. */
module NodeParents {

  import opened Basics
  import opened NodeOwners

  /** A node as stored.  `baseTag` is the tag without a "-relay" suffix, `configKey` the
      configuration without its name, empty if there is no usable one. */
  datatype StoredNode = StoredNode(id: NodeId, serverName: string, tag: string, baseTag: string, parentId: NodeId,
                                   chainId: int64, relayHost: string, configKey: string)

  predicate IsRelay(n: StoredNode) {
    n.relayHost != "" || n.baseTag != n.tag
  }

  /** Only a node of its own can be what another node copies. */
  predicate CanBeSource(n: StoredNode) {
    n.parentId == 0 && n.chainId == 0 && !IsRelay(n)
  }

  predicate Copies(n: StoredNode, source: StoredNode) {
    source.id != n.id && CanBeSource(source) &&
    ((IsRelay(n) && n.serverName != "" && n.serverName == source.serverName && source.tag != "" &&
      (n.tag == source.tag || n.baseTag == source.tag)) ||
     (n.chainId != 0 && n.configKey != "" && n.configKey == source.configKey))
  }

  function Candidates(nodes: seq<StoredNode>, n: StoredNode): seq<NodeId> {
    if nodes == [] then []
    else
      var last := nodes[|nodes| - 1];
      Candidates(nodes[..|nodes| - 1], n) + if Copies(n, last) then [last.id] else []
  }

  predicate HasId(nodes: seq<StoredNode>, id: NodeId) {
    exists n :: n in nodes && n.id == id
  }

  /** The parent written down for a node is another existing node. */
  predicate Recorded(nodes: seq<StoredNode>, n: StoredNode) {
    HasId(nodes, n.parentId) && n.parentId != n.id
  }

  /** The recorded parent; without one, the only node that this one copies. */
  function ParentOf(nodes: seq<StoredNode>, n: StoredNode): Option<NodeId> {
    if Recorded(nodes, n) then Some(n.parentId)
    else if |Candidates(nodes, n)| == 1 then Some(Candidates(nodes, n)[0])
    else None
  }

  function Parents(all: seq<StoredNode>, nodes: seq<StoredNode>): map<NodeId, NodeId> {
    if nodes == [] then map[]
    else
      var m, last := Parents(all, nodes[..|nodes| - 1]), nodes[|nodes| - 1];
      match ParentOf(all, last)
      case Some(p) => m[last.id := p]
      case None => m
  }

  ghost predicate DistinctIds(nodes: seq<StoredNode>) {
    (forall n :: n in nodes ==> n.id != 0) &&
    forall i, j :: 0 <= i < j < |nodes| ==> nodes[i].id != nodes[j].id
  }

  method FindCandidates(nodes: seq<StoredNode>, n: StoredNode) returns (candidates: seq<NodeId>)
    ensures candidates == Candidates(nodes, n)
  {
    candidates := [];
    for i := 0 to |nodes|
      invariant candidates == Candidates(nodes[..i], n)
    {
      assert nodes[..i + 1][..i] == nodes[..i];
      var source := nodes[i];
      if source.id == n.id || source.parentId != 0 || source.chainId != 0 || IsRelay(source) {
        continue;
      }
      var sameInbound := n.serverName != "" && n.serverName == source.serverName && source.tag != "" &&
                         (n.tag == source.tag || n.baseTag == source.tag);
      if (IsRelay(n) && sameInbound) || (n.chainId != 0 && n.configKey != "" && n.configKey == source.configKey) {
        candidates := candidates + [source.id];
      }
    }
    assert nodes[..|nodes|] == nodes;
  }

  /** The node is a relay copy of a node that stands alone, with the same inbound up to "-relay", or
      a chain copy with the same configuration. */
  ghost predicate IsCopyOf(n: StoredNode, s: StoredNode) {
    s.id != n.id && s.parentId == 0 && s.chainId == 0 && s.relayHost == "" && s.tag == s.baseTag &&
    (((n.relayHost != "" || n.tag != n.baseTag) && n.serverName == s.serverName != "" && s.tag != "" &&
      (s.tag == n.tag || s.tag == n.baseTag)) ||
     (n.chainId != 0 && n.configKey == s.configKey != ""))
  }

  ghost predicate OnlyCopied(nodes: seq<StoredNode>, n: StoredNode, s: StoredNode) {
    s in nodes && IsCopyOf(n, s) && forall t :: t in nodes && IsCopyOf(n, t) ==> t == s
  }

  /** The recorded parent, if that is another node; otherwise the one node that this is a copy of. */
  ghost predicate ParentIs(nodes: seq<StoredNode>, n: StoredNode, p: NodeId) {
    if exists m :: m in nodes && m.id == n.parentId != n.id then p == n.parentId
    else exists s :: OnlyCopied(nodes, n, s) && p == s.id
  }

  lemma CopiesMeans(n: StoredNode, s: StoredNode)
    ensures Copies(n, s) <==> IsCopyOf(n, s)
  {
  }

  lemma OnlyCopiedMore(init: seq<StoredNode>, last: StoredNode, n: StoredNode, s: StoredNode)
    requires last !in init
    ensures OnlyCopied(init + [last], n, s) <==>
            if IsCopyOf(n, last) then s == last && NoneCopied(init, n) else OnlyCopied(init, n, s)
  {
    assert last in init + [last];
    if OnlyCopied(init + [last], n, s) && IsCopyOf(n, last) {
      assert forall t :: t in init ==> t in init + [last];
    }
  }

  ghost predicate NoneCopied(nodes: seq<StoredNode>, n: StoredNode) {
    forall s :: s in nodes ==> !IsCopyOf(n, s)
  }

  lemma {:induction false} OneCandidate(nodes: seq<StoredNode>, n: StoredNode)
    requires DistinctIds(nodes)
    ensures Candidates(nodes, n) == [] <==> NoneCopied(nodes, n)
    ensures |Candidates(nodes, n)| == 1 <==> exists s :: OnlyCopied(nodes, n, s)
    ensures forall s :: OnlyCopied(nodes, n, s) ==> Candidates(nodes, n) == [s.id]
  {
    if nodes != [] {
      var init, last := nodes[..|nodes| - 1], nodes[|nodes| - 1];
      OneCandidate(init, n);
      assert nodes == init + [last] && last !in init;
      CopiesMeans(n, last);
      forall s
        ensures OnlyCopied(nodes, n, s) <==>
                if IsCopyOf(n, last) then s == last && NoneCopied(init, n) else OnlyCopied(init, n, s)
      {
        OnlyCopiedMore(init, last, n, s);
      }
      assert last in nodes;
      if NoneCopied(init, n) {
        assert IsCopyOf(n, last) ==> OnlyCopied(nodes, n, last);
      }
    }
  }

  lemma ParentOfMeans(nodes: seq<StoredNode>, n: StoredNode, p: NodeId)
    requires DistinctIds(nodes)
    ensures ParentOf(nodes, n) == Some(p) <==> ParentIs(nodes, n, p)
  {
    OneCandidate(nodes, n);
  }

  method InferParents(nodes: seq<StoredNode>) returns (parents: map<NodeId, NodeId>)
    ensures parents == Parents(nodes, nodes)
    ensures DistinctIds(nodes) ==>
              forall n, p :: n in nodes ==> (n.id in parents && parents[n.id] == p <==> ParentIs(nodes, n, p))
  {
    if DistinctIds(nodes) {
      forall n, p | n in nodes
        ensures n.id in Parents(nodes, nodes) && Parents(nodes, nodes)[n.id] == p <==> ParentIs(nodes, n, p)
      {
        ParentsAre(nodes, nodes, n);
        ParentOfMeans(nodes, n, p);
      }
    }
    var ids := set n | n in nodes :: n.id;
    parents := map[];
    for i := 0 to |nodes|
      invariant parents == Parents(nodes, nodes[..i])
    {
      assert nodes[..i + 1][..i] == nodes[..i];
      var n := nodes[i];
      if n.parentId in ids && n.parentId != n.id {
        parents := parents[n.id := n.parentId];
        continue;
      }
      var candidates := FindCandidates(nodes, n);
      if |candidates| == 1 {
        parents := parents[n.id := candidates[0]];
      }
    }
    assert nodes[..|nodes|] == nodes;
  }

  // ---------- what the parents are ----------

  lemma {:induction false} ParentsAre(all: seq<StoredNode>, nodes: seq<StoredNode>, n: StoredNode)
    requires DistinctIds(nodes) && n in nodes
    ensures (if n.id in Parents(all, nodes) then Some(Parents(all, nodes)[n.id]) else None) == ParentOf(all, n)
  {
    var k := |nodes| - 1;
    var init := nodes[..k];
    if n == nodes[k] {
      OnlyOwnIds(all, init, n.id);
    } else {
      assert n in init;
      ParentsAre(all, init, n);
    }
  }

  lemma {:induction false} OnlyOwnIds(all: seq<StoredNode>, nodes: seq<StoredNode>, id: NodeId)
    requires forall n :: n in nodes ==> n.id != id
    ensures id !in Parents(all, nodes)
  {
    if nodes != [] {
      OnlyOwnIds(all, nodes[..|nodes| - 1], id);
    }
  }

  lemma {:induction false} CandidatesAreCopied(nodes: seq<StoredNode>, n: StoredNode, c: NodeId)
    requires c in Candidates(nodes, n)
    ensures exists s :: s in nodes && s.id == c && Copies(n, s)
  {
    var init, last := nodes[..|nodes| - 1], nodes[|nodes| - 1];
    if c in Candidates(init, n) {
      CandidatesAreCopied(init, n, c);
    } else {
      assert last in nodes && last.id == c && Copies(n, last);
    }
  }

  lemma {:induction false} SourcesCopyNothing(nodes: seq<StoredNode>, s: StoredNode)
    requires CanBeSource(s)
    ensures Candidates(nodes, s) == []
  {
    if nodes != [] {
      SourcesCopyNothing(nodes[..|nodes| - 1], s);
    }
  }

  /** A parent that is inferred has no parent itself. */
  lemma InferredParentIsARoot(nodes: seq<StoredNode>, n: StoredNode) returns (source: StoredNode)
    requires DistinctIds(nodes) && n in nodes && !Recorded(nodes, n) && ParentOf(nodes, n).Some?
    ensures source in nodes && ParentOf(nodes, n) == Some(source.id) && Copies(n, source)
    ensures ParentOf(nodes, source) == None
  {
    var c := ParentOf(nodes, n).value;
    CandidatesAreCopied(nodes, n, c);
    source :| source in nodes && source.id == c && Copies(n, source);
    SourcesCopyNothing(nodes, source);
  }

  /** The stored nodes as the resolution sees them. */
  ghost predicate Describes(d: Data, nodes: seq<StoredNode>) {
    DistinctIds(nodes) && d.parents == Parents(nodes, nodes) && d.nodes.Keys == set n | n in nodes :: n.id
  }

  lemma ParentInData(d: Data, nodes: seq<StoredNode>, n: StoredNode)
    requires Describes(d, nodes) && n in nodes
    ensures d.Parent(n.id) == match ParentOf(nodes, n) case Some(p) => p case None => 0
  {
    ParentsAre(nodes, nodes, n);
  }

  lemma {:induction false} ParentsPointToNodes(all: seq<StoredNode>, nodes: seq<StoredNode>)
    requires forall n :: n in nodes ==> n in all
    ensures forall id :: id in Parents(all, nodes) ==> HasId(nodes, id) && HasId(all, Parents(all, nodes)[id])
  {
    if nodes != [] {
      var init, last := nodes[..|nodes| - 1], nodes[|nodes| - 1];
      ParentsPointToNodes(all, init);
      assert last in nodes;
      if !Recorded(all, last) && |Candidates(all, last)| == 1 {
        CandidatesAreCopied(all, last, Candidates(all, last)[0]);
      }
    }
  }

  /** The parents are what the resolution of owners needs. */
  lemma ParentsAreValid(d: Data, nodes: seq<StoredNode>)
    requires Describes(d, nodes)
    ensures d.Valid()
  {
    ParentsPointToNodes(nodes, nodes);
  }

  /** A node whose parent is inferred has that parent as its root. */
  lemma InferredHasRoot(d: Data, nodes: seq<StoredNode>, n: StoredNode)
    requires Describes(d, nodes) && n in nodes && !Recorded(nodes, n)
    ensures d.HasRoot(n.id)
    ensures ParentOf(nodes, n).Some? ==>
              d.Ancestor(n.id, 1) == ParentOf(nodes, n).value && d.Parent(d.Ancestor(n.id, 1)) == 0
  {
    ParentInData(d, nodes, n);
    if ParentOf(nodes, n).Some? {
      var source := InferredParentIsARoot(nodes, n);
      ParentInData(d, nodes, source);
      assert d.Ancestor(n.id, 1) == d.Ancestor(source.id, 0) == source.id;
      assert d.Parent(d.Ancestor(n.id, 1)) == 0;
    } else {
      assert d.Parent(d.Ancestor(n.id, 0)) == 0;
    }
  }

  /** Only recorded parents can lead in a circle: a node without a root, and all its ancestors,
      follow recorded parents. */
  lemma {:induction false} RootlessNodesFollowRecordedParents(d: Data, nodes: seq<StoredNode>, n: StoredNode, k: nat)
    requires Describes(d, nodes) && n in nodes && !d.HasRoot(n.id)
    ensures exists a :: a in nodes && a.id == d.Ancestor(n.id, k) && Recorded(nodes, a)
    decreases k
  {
    if !Recorded(nodes, n) {
      InferredHasRoot(d, nodes, n);
    } else {
      ParentInData(d, nodes, n);
      assert d.Parent(n.id) == n.parentId;
      assert d.Parent(d.Ancestor(n.id, 0)) != 0;
      if k > 0 {
        var p :| p in nodes && p.id == n.parentId;
        d.RootOfParent(n.id);
        RootlessNodesFollowRecordedParents(d, nodes, p, k - 1);
      }
    }
  }
}
