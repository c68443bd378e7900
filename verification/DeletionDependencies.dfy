/** What else goes when a server is deleted: tunnels that forward to a removed hop and
    nodes that depend on a removed node.

    Both sets are grown by passes over a map until a pass changes nothing.  The order of
    a pass is unspecified, so the loops below pick the next entry arbitrarily; the result
    is nevertheless one definite set, the least one closed under the rules. */
module DeletionDependencies {

  import opened Basics

  type NodeId = int64

  datatype Node = Node(
    id: NodeId,
    parent: NodeId,
    chainProxy: NodeId,
    routedTarget: NodeId,
    relayGroup: seq<NodeId>,
    host: string,
    port: int64)

  type NodeTable = map<NodeId, Node>

  // ---------- nodes ----------

  /** A node depends on removed nodes through one of its three references, or because
      its relay group lost a member and has no existing member left. */
  ghost predicate Depends(nodes: NodeTable, id: NodeId, removed: set<NodeId>)
    requires id in nodes
  {
    var n := nodes[id];
    || n.parent in removed
    || n.chainProxy in removed
    || n.routedTarget in removed
    || ((exists ref :: ref in n.relayGroup && ref in removed)
        && forall ref :: ref in n.relayGroup ==> ref in removed || ref !in nodes)
  }

  ghost predicate NodesClosed(nodes: NodeTable, removed: set<NodeId>) {
    forall id | id in nodes && id !in removed :: !Depends(nodes, id, removed)
  }

  ghost predicate IsLeastNodeClosure(nodes: NodeTable, seeds: set<NodeId>, removed: set<NodeId>) {
    && seeds <= removed
    && NodesClosed(nodes, removed)
    && (forall other: set<NodeId> | seeds <= other && NodesClosed(nodes, other) :: removed <= other)
  }

  lemma DependsIsMonotone(nodes: NodeTable, id: NodeId, smaller: set<NodeId>, larger: set<NodeId>)
    requires id in nodes && smaller <= larger && Depends(nodes, id, smaller)
    ensures Depends(nodes, id, larger)
  {
    if ref :| ref in nodes[id].relayGroup && ref in smaller {
      assert ref in larger;
    }
  }

  /** Counts the removed and the remaining members of a relay group. */
  method CountRelayMembers(nodes: NodeTable, refs: seq<NodeId>, reasons: set<NodeId>)
    returns (removed: nat, remaining: nat)
    ensures removed > 0 <==> exists ref :: ref in refs && ref in reasons
    ensures remaining > 0 <==> exists ref :: ref in refs && ref !in reasons && ref in nodes
    ensures removed + remaining <= |refs|
  {
    removed, remaining := 0, 0;
    for i := 0 to |refs|
      invariant removed > 0 <==> exists j | 0 <= j < i :: refs[j] in reasons
      invariant remaining > 0 <==> exists j | 0 <= j < i :: refs[j] !in reasons && refs[j] in nodes
      invariant removed + remaining <= i
    {
      if refs[i] in reasons {
        removed := removed + 1;
      } else if refs[i] in nodes {
        remaining := remaining + 1;
      }
    }
  }

  /** Decides one node of a pass. */
  method NodeMustGo(nodes: NodeTable, id: NodeId, reasons: set<NodeId>) returns (gone: bool)
    requires id in nodes && id !in reasons
    ensures gone <==> Depends(nodes, id, reasons)
  {
    var n := nodes[id];
    gone := false;
    var keys := [n.parent, n.chainProxy, n.routedTarget];
    for i := 0 to 3
      invariant gone <==> exists j | 0 <= j < i :: keys[j] in reasons
    {
      if keys[i] in reasons {
        gone := true;
        break;
      }
    }
    assert (exists j | 0 <= j < 3 :: keys[j] in reasons) <==>
             keys[0] in reasons || keys[1] in reasons || keys[2] in reasons;
    var removed, remaining := CountRelayMembers(nodes, n.relayGroup, reasons);
    if removed > 0 && remaining == 0 && !gone {
      gone := true;
    }
  }

  /** The fixpoint loop over the nodes. */
  method CloseNodes(nodes: NodeTable, seeds: set<NodeId>) returns (reasons: set<NodeId>)
    ensures IsLeastNodeClosure(nodes, seeds, reasons)
    ensures reasons <= seeds + nodes.Keys
  {
    reasons := seeds;
    var changed := true;
    while changed
      invariant seeds <= reasons <= seeds + nodes.Keys
      invariant forall other: set<NodeId> | seeds <= other && NodesClosed(nodes, other) :: reasons <= other
      invariant !changed ==> NodesClosed(nodes, reasons)
      decreases nodes.Keys - reasons, changed
    {
      changed := false;
      ghost var before := reasons;
      var pass := nodes.Keys;
      while pass != {}
        invariant pass <= nodes.Keys
        invariant before <= reasons && seeds <= reasons <= seeds + nodes.Keys
        invariant forall other: set<NodeId> | seeds <= other && NodesClosed(nodes, other) :: reasons <= other
        invariant changed <==> reasons != before
        invariant changed ==> nodes.Keys - reasons < nodes.Keys - before
        invariant !changed ==> forall id | id in nodes && id !in pass && id !in reasons :: !Depends(nodes, id, reasons)
        decreases pass
      {
        var id :| id in pass;
        pass := pass - {id};
        if id !in reasons {
          var gone := NodeMustGo(nodes, id, reasons);
          if gone {
            forall other: set<NodeId> | seeds <= other && NodesClosed(nodes, other)
              ensures id in other
            {
              DependsIsMonotone(nodes, id, reasons, other);
            }
            assert id in nodes.Keys - before && id !in nodes.Keys - (reasons + {id});
            reasons := reasons + {id};
            changed := true;
          }
        }
      }
    }
  }

  /** Whatever order the passes took, the result is the same set. */
  lemma NodeClosureIsUnique(nodes: NodeTable, seeds: set<NodeId>, one: set<NodeId>, two: set<NodeId>)
    requires IsLeastNodeClosure(nodes, seeds, one) && IsLeastNodeClosure(nodes, seeds, two)
    ensures one == two
  {
    assert one <= two && two <= one;
  }

  /** Fewer reasons to start from never remove more nodes. */
  lemma NodeClosureIsMonotone(nodes: NodeTable, few: set<NodeId>, many: set<NodeId>, fromFew: set<NodeId>,
                              fromMany: set<NodeId>)
    requires few <= many
    requires IsLeastNodeClosure(nodes, few, fromFew) && IsLeastNodeClosure(nodes, many, fromMany)
    ensures fromFew <= fromMany
  {
    assert few <= fromMany;
  }

  // ---------- retained nodes ----------

  /** The members of a relay group that are not removed, in their old order. */
  function Kept(refs: seq<NodeId>, removed: set<NodeId>): seq<NodeId> {
    if refs == [] then []
    else Kept(refs[..|refs| - 1], removed) + if refs[|refs| - 1] in removed then [] else [refs[|refs| - 1]]
  }

  lemma {:induction false} KeptMembers(refs: seq<NodeId>, removed: set<NodeId>)
    ensures forall ref :: ref in Kept(refs, removed) <==> ref in refs && ref !in removed
    ensures |Kept(refs, removed)| <= |refs|
    ensures |Kept(refs, removed)| == |refs| ==> Kept(refs, removed) == refs
  {
    if refs != [] {
      var last := refs[|refs| - 1];
      assert refs == refs[..|refs| - 1] + [last];
      KeptMembers(refs[..|refs| - 1], removed);
    }
  }

  method KeepMembers(refs: seq<NodeId>, removed: set<NodeId>) returns (kept: seq<NodeId>)
    ensures kept == Kept(refs, removed)
  {
    kept := [];
    for i := 0 to |refs|
      invariant kept == Kept(refs[..i], removed)
    {
      assert refs[..i + 1][..i] == refs[..i];
      if refs[i] !in removed {
        kept := kept + [refs[i]];
      }
    }
    assert refs[..|refs|] == refs;
  }

  datatype Trim = Trim(id: NodeId, relayGroup: seq<NodeId>)

  ghost predicate IsTrimOf(nodes: NodeTable, removed: set<NodeId>, trim: Trim) {
    && trim.id in nodes && trim.id !in removed
    && trim.relayGroup == Kept(nodes[trim.id].relayGroup, removed)
    && trim.relayGroup != nodes[trim.id].relayGroup
  }

  /** Retained nodes that lost relay members get a step with the members they keep. */
  method TrimRelayGroups(nodes: NodeTable, removed: set<NodeId>) returns (trims: seq<Trim>)
    ensures forall t :: t in trims <==> IsTrimOf(nodes, removed, t)
  {
    trims := [];
    var rows := nodes.Keys;
    while rows != {}
      invariant rows <= nodes.Keys
      invariant forall t :: t in trims <==> t.id !in rows && IsTrimOf(nodes, removed, t)
      decreases rows
    {
      var id :| id in rows;
      rows := rows - {id};
      if id !in removed {
        var refs := nodes[id].relayGroup;
        var kept := KeepMembers(refs, removed);
        KeptMembers(refs, removed);
        if |refs| != |kept| {
          trims := trims + [Trim(id, kept)];
        }
      }
    }
  }

  /** A retained node references no removed node, and if its relay group was trimmed, an
      existing retained member is left in it. */
  lemma RetainedNodeKeepsItsReferences(nodes: NodeTable, seeds: set<NodeId>, removed: set<NodeId>, id: NodeId)
    requires IsLeastNodeClosure(nodes, seeds, removed)
    requires id in nodes && id !in removed
    ensures nodes[id].parent !in removed && nodes[id].chainProxy !in removed && nodes[id].routedTarget !in removed
    ensures forall ref :: ref in Kept(nodes[id].relayGroup, removed) ==> ref !in removed
    ensures Kept(nodes[id].relayGroup, removed) != nodes[id].relayGroup ==>
      exists ref :: ref in Kept(nodes[id].relayGroup, removed) && ref in nodes && ref !in removed
  {
    var refs := nodes[id].relayGroup;
    KeptMembers(refs, removed);
    if Kept(refs, removed) != refs {
      LostMember(refs, removed);
      assert !Depends(nodes, id, removed);
      var ref :| ref in refs && ref !in removed && ref in nodes;
      assert ref in Kept(refs, removed);
    }
  }

  lemma {:induction false} LostMember(refs: seq<NodeId>, removed: set<NodeId>)
    requires Kept(refs, removed) != refs
    ensures exists ref :: ref in refs && ref in removed
  {
    var last := refs[|refs| - 1];
    if last !in removed {
      assert refs == refs[..|refs| - 1] + [last];
      LostMember(refs[..|refs| - 1], removed);
      var ref :| ref in refs[..|refs| - 1] && ref in removed;
      assert ref in refs;
    }
  }

  // ---------- tunnels ----------

  datatype TunnelKey = TunnelKey(server: int64, tag: string)

  /** `position` is the chain label and hop number encoded in the tag, if it has them. */
  datatype Tunnel = Tunnel(
    server: int64,
    listenPort: int64,
    targetHost: string,
    targetPort: int64,
    position: Option<(string, int)>)

  type TunnelTable = map<TunnelKey, Tunnel>

  function HostsOf(hosts: map<int64, set<string>>, server: int64): set<string> {
    if server in hosts then hosts[server] else {}
  }

  ghost predicate ForwardsTo(hosts: map<int64, set<string>>, t: Tunnel, hop: Tunnel) {
    t.targetPort == hop.listenPort && t.targetHost in HostsOf(hosts, hop.server)
  }

  ghost predicate TunnelsClosed(tunnels: TunnelTable, hosts: map<int64, set<string>>, broken: set<TunnelKey>) {
    forall k, hop | k in tunnels && hop in broken && hop in tunnels && ForwardsTo(hosts, tunnels[k], tunnels[hop]) ::
             k in broken
  }

  ghost predicate IsLeastTunnelClosure(tunnels: TunnelTable, hosts: map<int64, set<string>>, seeds: set<TunnelKey>,
                                       broken: set<TunnelKey>) {
    && seeds <= broken
    && TunnelsClosed(tunnels, hosts, broken)
    && (forall other: set<TunnelKey> | seeds <= other && TunnelsClosed(tunnels, hosts, other) :: broken <= other)
  }

  // ---------- the tunnels that the deleted server takes down by itself ----------

  /** A tunnel as it is listed, alone or as a hop of a chain. */
  datatype TunnelRow = TunnelRow(key: TunnelKey, tunnel: Tunnel)

  /** The addresses of a server that no other server has. */
  ghost function OwnHosts(hosts: map<int64, set<string>>, server: int64): set<string> {
    set h | h in HostsOf(hosts, server) && forall other | other in hosts && other != server :: h !in hosts[other]
  }

  /** The tunnel is on the server or leads to it. */
  ghost predicate Hits(hosts: map<int64, set<string>>, deleted: int64, t: Tunnel) {
    t.server == deleted || t.targetHost in OwnHosts(hosts, deleted)
  }

  /** Some hop of a chain from the `i`-th on leads to the deleted server. */
  ghost predicate LaterHopHits(hosts: map<int64, set<string>>, deleted: int64, chain: seq<TunnelRow>, i: nat) {
    exists j :: i <= j < |chain| && Hits(hosts, deleted, chain[j].tunnel)
  }

  /** The tunnel is listed and hit, or a hop of a chain of which it or a later hop is hit. */
  ghost predicate Seeded(rows: seq<TunnelRow>, chains: seq<seq<TunnelRow>>, hosts: map<int64, set<string>>,
                         deleted: int64, k: TunnelKey) {
    (exists r :: r in rows && r.key == k && Hits(hosts, deleted, r.tunnel)) ||
    exists c :: c in chains && SeededBy(c, hosts, deleted, k)
  }

  ghost predicate SeededBy(chain: seq<TunnelRow>, hosts: map<int64, set<string>>, deleted: int64, k: TunnelKey) {
    exists i :: 0 <= i < |chain| && chain[i].key == k && LaterHopHits(hosts, deleted, chain, i)
  }

  /** The table after more rows: the last row of a key counts. */
  function Merged(table: TunnelTable, rows: seq<TunnelRow>): (r: TunnelTable)
    ensures forall k :: k in r <==> k in table || exists row :: row in rows && row.key == k
  {
    if rows == [] then table
    else
      var last := rows[|rows| - 1];
      assert rows == rows[..|rows| - 1] + [last];
      Merged(table, rows[..|rows| - 1])[last.key := last.tunnel]
  }

  function MergedAll(table: TunnelTable, chains: seq<seq<TunnelRow>>): TunnelTable {
    if chains == [] then table
    else Merged(MergedAll(table, chains[..|chains| - 1]), chains[|chains| - 1])
  }

  method CollectOwnHosts(hosts: map<int64, set<string>>, deleted: int64) returns (own: set<string>)
    ensures own == OwnHosts(hosts, deleted)
  {
    own := HostsOf(hosts, deleted);
    var todo := hosts.Keys;
    while todo != {}
      invariant todo <= hosts.Keys
      invariant forall h :: h in own <==>
                              h in HostsOf(hosts, deleted) &&
                              forall other | other in hosts.Keys - todo && other != deleted :: h !in hosts[other]
      decreases todo
    {
      var other :| other in todo;
      todo := todo - {other};
      if other != deleted {
        own := own - hosts[other];
      }
    }
  }

  /** One chain: everything up to its last hop that is hit. */
  method BreakChain(table: TunnelTable, chain: seq<TunnelRow>, own: set<string>, hosts: map<int64, set<string>>,
                    deleted: int64)
    returns (tunnels: TunnelTable, broken: set<TunnelKey>)
    requires own == OwnHosts(hosts, deleted)
    ensures tunnels == Merged(table, chain)
    ensures forall k :: k in broken <==> SeededBy(chain, hosts, deleted, k)
  {
    tunnels := table;
    var lastBroken := -1;
    for i := 0 to |chain|
      invariant tunnels == Merged(table, chain[..i]) && -1 <= lastBroken < i
      invariant lastBroken >= 0 ==> Hits(hosts, deleted, chain[lastBroken].tunnel)
      invariant forall j :: lastBroken < j < i ==> !Hits(hosts, deleted, chain[j].tunnel)
    {
      assert chain[..i + 1][..i] == chain[..i];
      tunnels := tunnels[chain[i].key := chain[i].tunnel];
      if chain[i].tunnel.server == deleted || chain[i].tunnel.targetHost in own {
        lastBroken := i;
      }
    }
    assert chain[..|chain|] == chain;
    broken := set i | 0 <= i <= lastBroken :: chain[i].key;
    forall k
      ensures k in broken <==> SeededBy(chain, hosts, deleted, k)
    {
      if k in broken {
        var i :| 0 <= i <= lastBroken && chain[i].key == k;
        assert LaterHopHits(hosts, deleted, chain, i);
      }
    }
  }

  lemma OneMoreRow(rows: seq<TunnelRow>, row: TunnelRow, hosts: map<int64, set<string>>, deleted: int64, k: TunnelKey)
    ensures Seeded(rows + [row], [], hosts, deleted, k) <==>
            Seeded(rows, [], hosts, deleted, k) || (row.key == k && Hits(hosts, deleted, row.tunnel))
  {
    assert row in rows + [row];
  }

  lemma OneMoreChain(rows: seq<TunnelRow>, chains: seq<seq<TunnelRow>>, chain: seq<TunnelRow>,
                     hosts: map<int64, set<string>>, deleted: int64, k: TunnelKey)
    ensures Seeded(rows, chains + [chain], hosts, deleted, k) <==>
            Seeded(rows, chains, hosts, deleted, k) || SeededBy(chain, hosts, deleted, k)
  {
    assert chain in chains + [chain];
  }

  method CollectRows(rows: seq<TunnelRow>, own: set<string>, hosts: map<int64, set<string>>, deleted: int64)
    returns (tunnels: TunnelTable, seeds: set<TunnelKey>)
    requires own == OwnHosts(hosts, deleted)
    ensures tunnels == Merged(map[], rows)
    ensures seeds <= tunnels.Keys && forall k :: k in seeds <==> Seeded(rows, [], hosts, deleted, k)
  {
    tunnels, seeds := map[], {};
    for i := 0 to |rows|
      invariant tunnels == Merged(map[], rows[..i]) && seeds <= tunnels.Keys
      invariant forall k :: k in seeds <==> Seeded(rows[..i], [], hosts, deleted, k)
    {
      assert rows[..i + 1] == rows[..i] + [rows[i]] && rows[..i + 1][..i] == rows[..i];
      forall k
        ensures Seeded(rows[..i + 1], [], hosts, deleted, k) <==>
                k in seeds || (rows[i].key == k && Hits(hosts, deleted, rows[i].tunnel))
      {
        OneMoreRow(rows[..i], rows[i], hosts, deleted, k);
      }
      tunnels := tunnels[rows[i].key := rows[i].tunnel];
      if rows[i].tunnel.server == deleted || rows[i].tunnel.targetHost in own {
        seeds := seeds + {rows[i].key};
      }
    }
    assert rows[..|rows|] == rows;
  }

  /** The table of all tunnels and those that the deleted server takes down by itself. */
  method CollectTunnels(rows: seq<TunnelRow>, chains: seq<seq<TunnelRow>>, hosts: map<int64, set<string>>,
                        deleted: int64)
    returns (tunnels: TunnelTable, seeds: set<TunnelKey>)
    ensures tunnels == MergedAll(Merged(map[], rows), chains)
    ensures seeds <= tunnels.Keys && forall k :: k in seeds <==> Seeded(rows, chains, hosts, deleted, k)
  {
    var own := CollectOwnHosts(hosts, deleted);
    tunnels, seeds := CollectRows(rows, own, hosts, deleted);
    for i := 0 to |chains|
      invariant tunnels == MergedAll(Merged(map[], rows), chains[..i]) && seeds <= tunnels.Keys
      invariant forall k :: k in seeds <==> Seeded(rows, chains[..i], hosts, deleted, k)
    {
      assert chains[..i + 1] == chains[..i] + [chains[i]] && chains[..i + 1][..i] == chains[..i];
      forall k
        ensures Seeded(rows, chains[..i + 1], hosts, deleted, k) <==>
                k in seeds || SeededBy(chains[i], hosts, deleted, k)
      {
        OneMoreChain(rows, chains[..i], chains[i], hosts, deleted, k);
      }
      var merged, broken := BreakChain(tunnels, chains[i], own, hosts, deleted);
      SeededByIsListed(chains[i], hosts, deleted);
      tunnels, seeds := merged, seeds + broken;
    }
    assert chains[..|chains|] == chains;
  }

  lemma SeededByIsListed(chain: seq<TunnelRow>, hosts: map<int64, set<string>>, deleted: int64)
    ensures forall k :: SeededBy(chain, hosts, deleted, k) ==> exists row :: row in chain && row.key == k
  {
  }

  // ---------- labels and the forwarding closure ----------

  /** A hop comes no later in its labelled chain than a broken one. */
  ghost predicate BeforeBrokenHop(tunnels: TunnelTable, broken: set<TunnelKey>, k: TunnelKey)
    requires broken <= tunnels.Keys && k in tunnels
  {
    && tunnels[k].position.Some?
    && exists other :: other in broken && tunnels[other].position.Some?
        && tunnels[other].position.value.0 == tunnels[k].position.value.0
        && tunnels[k].position.value.1 <= tunnels[other].position.value.1
  }

  /** Offline snapshots: everything up to the last broken hop of a labelled chain goes. */
  method BreakLabels(tunnels: TunnelTable, seeds: set<TunnelKey>) returns (broken: set<TunnelKey>)
    requires seeds <= tunnels.Keys
    ensures broken <= tunnels.Keys
    ensures forall k :: k in broken <==> k in tunnels && (k in seeds || BeforeBrokenHop(tunnels, seeds, k))
  {
    var last: map<string, int> := map[];
    var todo := seeds;
    while todo != {}
      invariant todo <= seeds
      invariant forall l: string :: l in last ==>
        exists k :: k in seeds && tunnels[k].position == Some((l, last[l]))
      invariant forall k :: k in seeds - todo && tunnels[k].position.Some? ==>
        var p := tunnels[k].position.value; p.0 in last && p.1 <= last[p.0]
      decreases todo
    {
      var k :| k in todo;
      todo := todo - {k};
      match tunnels[k].position {
        case None =>
        case Some((l, n)) =>
          if l !in last || n > last[l] {
            last := last[l := n];
          }
      }
    }
    broken := seeds;
    var pass := tunnels.Keys;
    while pass != {}
      invariant pass <= tunnels.Keys && seeds <= broken <= tunnels.Keys
      invariant forall k :: k in broken <==>
                              k in seeds || (k in tunnels && k !in pass && BeforeBrokenHop(tunnels, seeds, k))
      decreases pass
    {
      var k :| k in pass;
      pass := pass - {k};
      var hit := false;
      match tunnels[k].position {
        case None =>
        case Some((l, n)) =>
          hit := l in last && n <= last[l];
      }
      if hit {
        broken := broken + {k};
      }
    }
  }

  /** The fixpoint loop over the tunnels. */
  method CloseTunnels(tunnels: TunnelTable, hosts: map<int64, set<string>>, seeds: set<TunnelKey>)
    returns (broken: set<TunnelKey>)
    requires seeds <= tunnels.Keys
    ensures IsLeastTunnelClosure(tunnels, hosts, seeds, broken)
    ensures broken <= tunnels.Keys
  {
    broken := seeds;
    var changed := true;
    while changed
      invariant seeds <= broken <= tunnels.Keys
      invariant forall other: set<TunnelKey> | seeds <= other && TunnelsClosed(tunnels, hosts, other) :: broken <= other
      invariant !changed ==> TunnelsClosed(tunnels, hosts, broken)
      decreases tunnels.Keys - broken, changed
    {
      changed := false;
      ghost var before := broken;
      var pass := tunnels.Keys;
      while pass != {}
        invariant pass <= tunnels.Keys
        invariant before <= broken && seeds <= broken <= tunnels.Keys
        invariant forall other: set<TunnelKey> | seeds <= other && TunnelsClosed(tunnels, hosts, other) ::
                    broken <= other
        invariant !changed ==> broken == before
        invariant changed ==> tunnels.Keys - broken < tunnels.Keys - before
        invariant !changed ==> forall k, hop | k in tunnels.Keys - pass && hop in broken &&
                               ForwardsTo(hosts, tunnels[k], tunnels[hop]) :: k in broken
        decreases pass
      {
        var k :| k in pass;
        pass := pass - {k};
        if k in broken {
          continue;
        }
        var hit := HitsBrokenHop(tunnels, hosts, broken, k);
        if hit {
          assert k in tunnels.Keys - before && k !in tunnels.Keys - (broken + {k});
          broken := broken + {k};
          changed := true;
        }
      }
    }
  }

  method HitsBrokenHop(tunnels: TunnelTable, hosts: map<int64, set<string>>, broken: set<TunnelKey>, k: TunnelKey)
    returns (hit: bool)
    requires k in tunnels && broken <= tunnels.Keys
    ensures hit <==> exists hop :: hop in broken && ForwardsTo(hosts, tunnels[k], tunnels[hop])
  {
    var others := broken;
    while others != {}
      invariant others <= broken
      invariant forall hop :: hop in broken - others ==> !ForwardsTo(hosts, tunnels[k], tunnels[hop])
      decreases others
    {
      var other :| other in others;
      others := others - {other};
      var hop := tunnels[other];
      if tunnels[k].targetPort == hop.listenPort && tunnels[k].targetHost in HostsOf(hosts, hop.server) {
        return true;
      }
    }
    return false;
  }

  // ---------- labels and forwarding ----------

  /** From tunnel to tunnel along the forwarding, ending at one of some hops. */
  ghost predicate LeadsAlong(tunnels: TunnelTable, hosts: map<int64, set<string>>, hops: set<TunnelKey>,
                             path: seq<TunnelKey>) {
    && path != [] && (forall i | 0 <= i < |path| :: path[i] in tunnels)
    && (forall i | 0 <= i < |path| - 1 :: ForwardsTo(hosts, tunnels[path[i]], tunnels[path[i + 1]]))
    && path[|path| - 1] in hops
  }

  ghost predicate LeadsTo(tunnels: TunnelTable, hosts: map<int64, set<string>>, hops: set<TunnelKey>, k: TunnelKey) {
    exists path :: LeadsAlong(tunnels, hosts, hops, path) && path[0] == k
  }

  lemma {:induction false} PathIsInClosure(tunnels: TunnelTable, hosts: map<int64, set<string>>, seeds: set<TunnelKey>,
                                           broken: set<TunnelKey>, path: seq<TunnelKey>)
    requires seeds <= broken && TunnelsClosed(tunnels, hosts, broken) && LeadsAlong(tunnels, hosts, seeds, path)
    ensures path[0] in broken
  {
    if |path| > 1 {
      var rest := path[1..];
      forall i | 0 <= i < |rest| - 1
        ensures ForwardsTo(hosts, tunnels[rest[i]], tunnels[rest[i + 1]])
      {
        var j := i + 1;
        assert ForwardsTo(hosts, tunnels[path[j]], tunnels[path[j + 1]]);
      }
      PathIsInClosure(tunnels, hosts, seeds, broken, rest);
      assert ForwardsTo(hosts, tunnels[path[0]], tunnels[path[1]]);
    }
  }

  lemma StepBack(tunnels: TunnelTable, hosts: map<int64, set<string>>, hops: set<TunnelKey>, k: TunnelKey,
                 next: TunnelKey)
    requires k in tunnels && next in tunnels && ForwardsTo(hosts, tunnels[k], tunnels[next]) &&
             LeadsTo(tunnels, hosts, hops, next)
    ensures LeadsTo(tunnels, hosts, hops, k)
  {
    var path :| LeadsAlong(tunnels, hosts, hops, path) && path[0] == next;
    var longer := [k] + path;
    forall i | 0 <= i < |longer| - 1
      ensures ForwardsTo(hosts, tunnels[longer[i]], tunnels[longer[i + 1]])
    {
      if i > 0 {
        var j := i - 1;
        assert ForwardsTo(hosts, tunnels[path[j]], tunnels[path[j + 1]]);
      }
    }
    assert LeadsAlong(tunnels, hosts, hops, longer);
  }

  lemma ClosureLeads(tunnels: TunnelTable, hosts: map<int64, set<string>>, seeds: set<TunnelKey>,
                     broken: set<TunnelKey>)
    requires seeds <= tunnels.Keys && IsLeastTunnelClosure(tunnels, hosts, seeds, broken)
    ensures forall k :: k in broken ==> LeadsTo(tunnels, hosts, seeds, k)
  {
    var leading := set k | k in tunnels && LeadsTo(tunnels, hosts, seeds, k);
    forall k | k in seeds
      ensures k in leading
    {
      assert LeadsAlong(tunnels, hosts, seeds, [k]);
    }
    forall k, hop | k in tunnels && hop in leading && hop in tunnels && ForwardsTo(hosts, tunnels[k], tunnels[hop])
      ensures k in leading
    {
      StepBack(tunnels, hosts, seeds, k, hop);
    }
    assert broken <= leading;
  }

  /** The closure is what leads to the labelled hops by forwarding. */
  lemma ClosureIsReachability(tunnels: TunnelTable, hosts: map<int64, set<string>>, seeds: set<TunnelKey>,
                              broken: set<TunnelKey>)
    requires seeds <= tunnels.Keys && IsLeastTunnelClosure(tunnels, hosts, seeds, broken)
    ensures forall k :: k in broken <==> LeadsTo(tunnels, hosts, seeds, k)
  {
    ClosureLeads(tunnels, hosts, seeds, broken);
    forall k | LeadsTo(tunnels, hosts, seeds, k)
      ensures k in broken
    {
      var path :| LeadsAlong(tunnels, hosts, seeds, path) && path[0] == k;
      PathIsInClosure(tunnels, hosts, seeds, broken, path);
    }
  }

  /** In the same labelled chain and no later. */
  predicate NotAfter(tunnels: TunnelTable, k: TunnelKey, hop: TunnelKey)
    requires k in tunnels && hop in tunnels
  {
    tunnels[k].position.Some? && tunnels[hop].position.Some? &&
    tunnels[k].position.value.0 == tunnels[hop].position.value.0 &&
    tunnels[k].position.value.1 <= tunnels[hop].position.value.1
  }

  ghost predicate LabelClosed(tunnels: TunnelTable, broken: set<TunnelKey>)
    requires broken <= tunnels.Keys
  {
    forall k | k in tunnels && BeforeBrokenHop(tunnels, broken, k) :: k in broken
  }

  /** Labels are not applied again after the forwarding closure.  The result is closed under them,
      too, exactly if of any labelled chain, with a hop that leads to a labelled broken one by
      forwarding, the hops before it lead there as well. */
  lemma ClosureKeepsLabelsExactlyIf(tunnels: TunnelTable, hosts: map<int64, set<string>>, labelled: set<TunnelKey>,
                                    broken: set<TunnelKey>)
    requires labelled <= tunnels.Keys && broken <= tunnels.Keys &&
             IsLeastTunnelClosure(tunnels, hosts, labelled, broken)
    ensures LabelClosed(tunnels, broken) <==>
      forall k, hop | k in tunnels && hop in tunnels && NotAfter(tunnels, k, hop) &&
             LeadsTo(tunnels, hosts, labelled, hop) ::
        LeadsTo(tunnels, hosts, labelled, k)
  {
    ClosureIsReachability(tunnels, hosts, labelled, broken);
    if LabelClosed(tunnels, broken) {
      forall k, hop | k in tunnels && hop in tunnels && NotAfter(tunnels, k, hop) &&
             LeadsTo(tunnels, hosts, labelled, hop)
        ensures LeadsTo(tunnels, hosts, labelled, k)
      {
        assert hop in broken;
        assert BeforeBrokenHop(tunnels, broken, k);
      }
    }
    if forall k, hop | k in tunnels && hop in tunnels && NotAfter(tunnels, k, hop) &&
       LeadsTo(tunnels, hosts, labelled, hop) ::
        LeadsTo(tunnels, hosts, labelled, k) {
      forall k | k in tunnels && BeforeBrokenHop(tunnels, broken, k)
        ensures k in broken
      {
        var hop :| hop in broken && tunnels[hop].position.Some? &&
                   tunnels[hop].position.value.0 == tunnels[k].position.value.0 &&
                   tunnels[k].position.value.1 <= tunnels[hop].position.value.1;
        assert NotAfter(tunnels, k, hop);
      }
    }
  }

  const LOST := TunnelKey(4, "lost")
  const FIRST_HOP := TunnelKey(2, "tunnel-x-h1")
  const SECOND_HOP := TunnelKey(3, "tunnel-x-h2")

  const FORKED_HOSTS: map<int64, set<string>> := map[1 := {"one"}, 4 := {"four"}]

  /** A tunnel on server 4 leads to server 1; the second hop of a labelled chain forwards to that
      tunnel, the first hop goes elsewhere. */
  const FORKED_ROWS := [
    TunnelRow(LOST, Tunnel(4, 10, "one", 443, None)),
    TunnelRow(FIRST_HOP, Tunnel(2, 20, "elsewhere", 99, Some(("tunnel-x", 1)))),
    TunnelRow(SECOND_HOP, Tunnel(3, 30, "four", 10, Some(("tunnel-x", 2))))]

  const FORKED: TunnelTable := map[
    LOST := FORKED_ROWS[0].tunnel, FIRST_HOP := FORKED_ROWS[1].tunnel, SECOND_HOP := FORKED_ROWS[2].tunnel]

  lemma ForkedIsCollected()
    ensures MergedAll(Merged(map[], FORKED_ROWS), []) == FORKED
    ensures forall k :: Seeded(FORKED_ROWS, [], FORKED_HOSTS, 1, k) <==> k == LOST
  {
    var rows := FORKED_ROWS;
    assert rows[..2][..1] == rows[..1] && rows[..1][..0] == [];
    assert Merged(map[], rows[..1]) == map[LOST := rows[0].tunnel];
    assert Merged(map[], rows[..2]) == map[LOST := rows[0].tunnel, FIRST_HOP := rows[1].tunnel];
    assert OwnHosts(FORKED_HOSTS, 1) == {"one"};
    assert rows[0] in rows;
  }

  /** Server 1 is deleted.  The second hop goes with the lost tunnel, the first hop before it stays. */
  lemma LaterHopGoesEarlierHopStays()
    ensures MergedAll(Merged(map[], FORKED_ROWS), []) == FORKED
    ensures forall k :: Seeded(FORKED_ROWS, [], FORKED_HOSTS, 1, k) <==> k == LOST
    ensures forall k :: k in FORKED && BeforeBrokenHop(FORKED, {LOST}, k) ==> k == LOST
    ensures IsLeastTunnelClosure(FORKED, FORKED_HOSTS, {LOST}, {LOST, SECOND_HOP})
    ensures BeforeBrokenHop(FORKED, {LOST, SECOND_HOP}, FIRST_HOP) && !LabelClosed(FORKED, {LOST, SECOND_HOP})
  {
    ForkedIsCollected();
    var broken := {LOST, SECOND_HOP};
    assert ForwardsTo(FORKED_HOSTS, FORKED[SECOND_HOP], FORKED[LOST]);
    forall k, hop | k in FORKED && hop in broken && ForwardsTo(FORKED_HOSTS, FORKED[k], FORKED[hop])
      ensures k in broken
    {
      assert HostsOf(FORKED_HOSTS, 3) == {};
    }
    assert SECOND_HOP in broken;
  }

  // ---------- the two together ----------

  ghost predicate BehindTunnel(nodes: NodeTable, tunnels: TunnelTable, hosts: map<int64, set<string>>,
                               broken: set<TunnelKey>, id: NodeId)
    requires broken <= tunnels.Keys
  {
    && id in nodes
    && exists k :: k in broken && nodes[id].host in HostsOf(hosts, tunnels[k].server) &&
                   nodes[id].port == tunnels[k].listenPort
  }

  /** The removed tunnels and nodes of a deletion plan, from the tunnels and nodes that the
      deleted server itself takes down. */
  method PlanDependencies(nodes: NodeTable, tunnels: TunnelTable, hosts: map<int64, set<string>>,
                          tunnelSeeds: set<TunnelKey>, nodeSeeds: set<NodeId>)
    returns (broken: set<TunnelKey>, removed: set<NodeId>, ghost labelled: set<TunnelKey>, ghost seeds: set<NodeId>)
    requires tunnelSeeds <= tunnels.Keys
    ensures labelled <= tunnels.Keys && broken <= tunnels.Keys
    ensures forall k :: k in labelled <==>
                          k in tunnels && (k in tunnelSeeds || BeforeBrokenHop(tunnels, tunnelSeeds, k))
    ensures IsLeastTunnelClosure(tunnels, hosts, labelled, broken)
    ensures forall id: NodeId :: id in seeds <==> id in nodeSeeds || BehindTunnel(nodes, tunnels, hosts, broken, id)
    ensures IsLeastNodeClosure(nodes, seeds, removed)
  {
    var start := BreakLabels(tunnels, tunnelSeeds);
    broken := CloseTunnels(tunnels, hosts, start);
    var reasons := nodeSeeds;
    var todo := broken;
    while todo != {}
      invariant todo <= broken
      invariant forall id: NodeId ::
                  id in reasons <==> id in nodeSeeds || BehindTunnel(nodes, tunnels, hosts, broken - todo, id)
      decreases todo
    {
      var k :| k in todo;
      todo := todo - {k};
      var t := tunnels[k];
      reasons := reasons + set id | id in nodes && nodes[id].host in HostsOf(hosts, t.server) &&
                 nodes[id].port == t.listenPort;
    }
    assert broken - todo == broken;
    labelled, seeds := start, reasons;
    removed := CloseNodes(nodes, reasons);
  }

  /** No retained tunnel forwards to a removed hop, and no retained node listens behind one. */
  lemma RetainedPathsAvoidBrokenHops(nodes: NodeTable, tunnels: TunnelTable, hosts: map<int64, set<string>>,
                                     labelled: set<TunnelKey>, broken: set<TunnelKey>, seeds: set<NodeId>,
                                     removed: set<NodeId>)
    requires broken <= tunnels.Keys
    requires IsLeastTunnelClosure(tunnels, hosts, labelled, broken)
    requires forall id: NodeId | BehindTunnel(nodes, tunnels, hosts, broken, id) :: id in seeds
    requires IsLeastNodeClosure(nodes, seeds, removed)
    ensures forall k, hop | k in tunnels && k !in broken && hop in broken ::
              !ForwardsTo(hosts, tunnels[k], tunnels[hop])
    ensures forall id, hop | id in nodes && id !in removed && hop in broken ::
      !(nodes[id].host in HostsOf(hosts, tunnels[hop].server) && nodes[id].port == tunnels[hop].listenPort)
  {
    forall id, hop | id in nodes && id !in removed && hop in broken
      ensures !(nodes[id].host in HostsOf(hosts, tunnels[hop].server) && nodes[id].port == tunnels[hop].listenPort)
    {
      assert !BehindTunnel(nodes, tunnels, hosts, broken, id);
    }
  }
}
