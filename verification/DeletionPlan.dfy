/** From the broken forward chains to the nodes that go: the seeds of the node closure, and what is
    true of the nodes that stay. */
module DeletionPlan {

  import opened Basics
  import opened ChainMatching
  import opened ForwardChains
  import opened DeletionDependencies

  /** A node on a forward chain, with the exit server it is pinned to. */
  datatype ChainNode = ChainNode(node: NodeId, chain: int64, pinnedExit: Server)

  /** The rows that describe the forward chains. */
  datatype Chains = Chains(members: seq<MemberRow>, hops: seq<HopRow>, nodes: seq<ChainNode>)

  /** The chain is touched by the deletion and offers no path any more. */
  ghost predicate Breaks(chains: Chains, servers: set<Server>, deleted: Server, chain: int64) {
    Touched(chains.members, chains.hops, deleted, chain) &&
    !Survives(chains.members, chains.hops, servers, deleted, chain)
  }

  /** The node lies on a chain that breaks, or its exit is the deleted server. */
  ghost predicate LosesChain(chains: Chains, servers: set<Server>, deleted: Server, id: NodeId) {
    exists f :: f in chains.nodes && f.node == id &&
                (Breaks(chains, servers, deleted, f.chain) || f.pinnedExit == deleted)
  }

  method AddChainNodes(rows: seq<ChainNode>, broken: set<int64>, deleted: Server, start: set<NodeId>)
    returns (seeds: set<NodeId>)
    ensures forall id: NodeId :: id in seeds <==>
              id in start || exists f :: f in rows && f.node == id && (f.chain in broken || f.pinnedExit == deleted)
  {
    seeds := start;
    for i := 0 to |rows|
      invariant forall id: NodeId :: id in seeds <==>
                  id in start || exists f ::
                                   f in rows[..i] && f.node == id && (f.chain in broken || f.pinnedExit == deleted)
    {
      assert rows[..i + 1] == rows[..i] + [rows[i]];
      if rows[i].chain in broken || rows[i].pinnedExit == deleted {
        seeds := seeds + {rows[i].node};
      }
    }
    assert rows[..|rows|] == rows;
  }

  /** The removed tunnels and nodes: `direct` are the nodes that depend on the server by themselves. */
  method PlanRemoval(chains: Chains, servers: set<Server>, deleted: Server, direct: set<NodeId>, nodes: NodeTable,
                     rows: seq<TunnelRow>, tunnelChains: seq<seq<TunnelRow>>, hosts: map<int64, set<string>>)
    returns (tunnels: TunnelTable, broken: set<TunnelKey>, removed: set<NodeId>, ghost lost: set<TunnelKey>,
             ghost labelled: set<TunnelKey>, ghost seeds: set<NodeId>)
    ensures tunnels == MergedAll(Merged(map[], rows), tunnelChains)
    ensures lost <= tunnels.Keys && forall k :: k in lost <==> Seeded(rows, tunnelChains, hosts, deleted, k)
    ensures forall k :: k in labelled <==> k in tunnels && (k in lost || BeforeBrokenHop(tunnels, lost, k))
    ensures labelled <= tunnels.Keys && broken <= tunnels.Keys && IsLeastTunnelClosure(tunnels, hosts, labelled, broken)
    ensures forall id: NodeId :: id in seeds <==>
              id in direct || LosesChain(chains, servers, deleted, id) ||
              BehindTunnel(nodes, tunnels, hosts, broken, id)
    ensures IsLeastNodeClosure(nodes, seeds, removed)
    ensures forall id: NodeId :: id !in removed ==> !LosesChain(chains, servers, deleted, id)
  {
    var brokenChains, degraded := DecideChains(chains.members, chains.hops, servers, deleted);
    var start := AddChainNodes(chains.nodes, brokenChains, deleted, direct);
    var own: set<TunnelKey>;
    tunnels, own := CollectTunnels(rows, tunnelChains, hosts, deleted);
    lost := own;
    broken, removed, labelled, seeds := PlanDependencies(nodes, tunnels, hosts, own, start);
  }

  /** A node that stays lies only on chains that the deletion leaves a path, is not pinned to the
      deleted server, is not behind a removed tunnel, and references no node that goes. */
  lemma RetainedNodesKeepTheirChains(chains: Chains, servers: set<Server>, deleted: Server, nodes: NodeTable,
                                     tunnels: TunnelTable, hosts: map<int64, set<string>>, broken: set<TunnelKey>,
                                     seeds: set<NodeId>, removed: set<NodeId>, f: ChainNode)
    requires broken <= tunnels.Keys && IsLeastNodeClosure(nodes, seeds, removed)
    requires forall id: NodeId ::
               LosesChain(chains, servers, deleted, id) || BehindTunnel(nodes, tunnels, hosts, broken, id) ==>
                 id in seeds
    requires f in chains.nodes && f.node in nodes && f.node !in removed
    ensures f.pinnedExit != deleted
    ensures Touched(chains.members, chains.hops, deleted, f.chain) ==>
              Survives(chains.members, chains.hops, servers, deleted, f.chain)
    ensures !BehindTunnel(nodes, tunnels, hosts, broken, f.node) && !Depends(nodes, f.node, removed)
  {
    assert !LosesChain(chains, servers, deleted, f.node);
  }
}
