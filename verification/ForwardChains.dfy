/** Which forward chains survive the deletion of a server. */
module ForwardChains {

  import opened Basics
  import opened ChainMatching

  datatype MemberRow = MemberRow(group: Group, server: Server)
  datatype HopRow = HopRow(chain: int64, group: Group)

  /** The members a group keeps: known servers other than the deleted one, in row order. */
  function Survivors(rows: seq<MemberRow>, servers: set<Server>, deleted: Server): map<Group, seq<Server>> {
    if rows == [] then map[]
    else
      var m := Survivors(rows[..|rows| - 1], servers, deleted);
      var row := rows[|rows| - 1];
      if row.server == deleted || row.server !in servers then m
      else m[row.group := MembersOf(m, row.group) + [row.server]]
  }

  function MembersOf(m: map<Group, seq<Server>>, g: Group): seq<Server> {
    if g in m then m[g] else []
  }

  /** The groups along a chain, in row order. */
  function GroupsOf(hops: seq<HopRow>, chain: int64): seq<Group> {
    if hops == [] then []
    else
      GroupsOf(hops[..|hops| - 1], chain) +
      if hops[|hops| - 1].chain == chain then [hops[|hops| - 1].group] else []
  }

  ghost predicate LosesMember(rows: seq<MemberRow>, deleted: Server, g: Group) {
    MemberRow(g, deleted) in rows
  }

  /** The deleted server takes part in some hop of the chain. */
  ghost predicate Touched(rows: seq<MemberRow>, hops: seq<HopRow>, deleted: Server, chain: int64) {
    exists i | 0 <= i < |hops| :: hops[i].chain == chain && LosesMember(rows, deleted, hops[i].group)
  }

  /** A server that a group has and the deletion leaves. */
  predicate Stays(rows: seq<MemberRow>, servers: set<Server>, deleted: Server, g: Group, s: Server) {
    MemberRow(g, s) in rows && s in servers && s != deleted
  }

  /** One server for every hop of the chain, no server twice; `choice` has an entry for each hop row. */
  ghost predicate Serves(rows: seq<MemberRow>, hops: seq<HopRow>, servers: set<Server>, deleted: Server, chain: int64,
                         choice: seq<Server>) {
    && |choice| == |hops|
    && (forall i | 0 <= i < |hops| && hops[i].chain == chain ::
          Stays(rows, servers, deleted, hops[i].group, choice[i]))
    && (forall i, j | 0 <= i < j < |hops| && hops[i].chain == chain && hops[j].chain == chain ::
          choice[i] != choice[j])
  }

  /** What remains of the chain still offers every hop a server of its own. */
  ghost predicate Survives(rows: seq<MemberRow>, hops: seq<HopRow>, servers: set<Server>, deleted: Server,
                           chain: int64) {
    exists choice :: Serves(rows, hops, servers, deleted, chain, choice)
  }

  /** A group keeps exactly the members that stay ... */
  lemma {:induction false} SurvivorsStay(rows: seq<MemberRow>, servers: set<Server>, deleted: Server, g: Group,
                                         s: Server)
    ensures s in MembersOf(Survivors(rows, servers, deleted), g) <==> Stays(rows, servers, deleted, g, s)
  {
    if rows != [] {
      var rest, row := rows[..|rows| - 1], rows[|rows| - 1];
      assert rows == rest + [row];
      SurvivorsStay(rest, servers, deleted, g, s);
    }
  }

  /** ... in the order of their rows. */
  lemma {:induction false} SurvivorsInOrder(rows: seq<MemberRow>, servers: set<Server>, deleted: Server, g: Group,
                                            i: nat, j: nat)
    returns (p: nat, q: nat)
    requires i < j < |MembersOf(Survivors(rows, servers, deleted), g)|
    ensures p < q < |rows|
    ensures rows[p] == MemberRow(g, MembersOf(Survivors(rows, servers, deleted), g)[i])
    ensures rows[q] == MemberRow(g, MembersOf(Survivors(rows, servers, deleted), g)[j])
  {
    var n := |rows| - 1;
    var before, after := MembersOf(Survivors(rows[..n], servers, deleted), g),
                         MembersOf(Survivors(rows, servers, deleted), g);
    if j < |before| {
      p, q := SurvivorsInOrder(rows[..n], servers, deleted, g, i, j);
    } else {
      assert after == before + [rows[n].server] && rows[n].group == g;
      SurvivorsStay(rows[..n], servers, deleted, g, before[i]);
      p :| 0 <= p < n && rows[..n][p] == MemberRow(g, before[i]);
      q := n;
    }
  }

  /** A choice of servers for a chain's hops is a path through its groups ... */
  lemma {:induction false} ChoiceIsPath(hops: seq<HopRow>, chain: int64, members: map<Group, seq<Server>>,
                                        choice: seq<Server>)
    returns (path: seq<Server>)
    requires |choice| == |hops|
    requires forall i | 0 <= i < |hops| && hops[i].chain == chain :: choice[i] in MembersOf(members, hops[i].group)
    requires forall i, j | 0 <= i < j < |hops| && hops[i].chain == chain && hops[j].chain == chain ::
               choice[i] != choice[j]
    ensures IsPath(GroupsOf(hops, chain), members, path)
    ensures forall s | s in path :: exists i | 0 <= i < |hops| :: hops[i].chain == chain && choice[i] == s
  {
    if hops == [] {
      path := [];
    } else {
      var n := |hops| - 1;
      path := ChoiceIsPath(hops[..n], chain, members, choice[..n]);
      ghost var groups := GroupsOf(hops[..n], chain);
      if hops[n].chain == chain {
        assert GroupsOf(hops, chain) == groups + [hops[n].group];
        forall i | 0 <= i < |path|
          ensures (path + [choice[n]])[i] in Options(GroupsOf(hops, chain), members, i) && path[i] != choice[n]
        {
          assert path[i] in Options(groups, members, i) && path[i] in path;
        }
        path := path + [choice[n]];
      } else {
        assert GroupsOf(hops, chain) == groups;
      }
    }
  }

  /** ... and the other way round. */
  lemma {:induction false} PathIsChoice(hops: seq<HopRow>, chain: int64, members: map<Group, seq<Server>>,
                                        path: seq<Server>)
    returns (choice: seq<Server>)
    requires IsPath(GroupsOf(hops, chain), members, path)
    ensures |choice| == |hops|
    ensures forall i | 0 <= i < |hops| && hops[i].chain == chain ::
              choice[i] in path && choice[i] in MembersOf(members, hops[i].group)
    ensures forall i, j | 0 <= i < j < |hops| && hops[i].chain == chain && hops[j].chain == chain ::
              choice[i] != choice[j]
  {
    if hops == [] {
      choice := [];
    } else {
      var n := |hops| - 1;
      var groups := GroupsOf(hops[..n], chain);
      if hops[n].chain == chain {
        var m := |path| - 1;
        assert GroupsOf(hops, chain) == groups + [hops[n].group];
        forall i | 0 <= i < m
          ensures path[..m][i] in Options(groups, members, i)
        {
          assert path[i] in Options(GroupsOf(hops, chain), members, i);
        }
        assert path[m] in Options(GroupsOf(hops, chain), members, m);
        choice := PathIsChoice(hops[..n], chain, members, path[..m]);
        choice := choice + [path[m]];
      } else {
        assert GroupsOf(hops, chain) == groups;
        choice := PathIsChoice(hops[..n], chain, members, path);
        choice := choice + [0];
      }
    }
  }

  /** The chain survives exactly if its groups still have a path. */
  lemma SurvivesExactlyIfPath(rows: seq<MemberRow>, hops: seq<HopRow>, servers: set<Server>, deleted: Server,
                              chain: int64)
    ensures Survives(rows, hops, servers, deleted, chain) <==>
            HasPath(GroupsOf(hops, chain), Survivors(rows, servers, deleted))
  {
    var members := Survivors(rows, servers, deleted);
    forall g: Group, s: Server
      ensures s in MembersOf(members, g) <==> Stays(rows, servers, deleted, g, s)
    {
      SurvivorsStay(rows, servers, deleted, g, s);
    }
    if choice :| Serves(rows, hops, servers, deleted, chain, choice) {
      var path := ChoiceIsPath(hops, chain, members, choice);
    }
    if path :| IsPath(GroupsOf(hops, chain), members, path) {
      var choice := PathIsChoice(hops, chain, members, path);
      assert Serves(rows, hops, servers, deleted, chain, choice);
    }
  }

  /** A hop of the chain lost a member; `empty` says whether its group has none left. */
  ghost predicate HopAffected(hops: seq<HopRow>, affected: set<Group>, members: map<Group, seq<Server>>, chain: int64,
                              empty: bool) {
    exists i | 0 <= i < |hops| ::
      hops[i].chain == chain && hops[i].group in affected && (MembersOf(members, hops[i].group) == [] <==> empty)
  }

  method CollectMembers(rows: seq<MemberRow>, servers: set<Server>, deleted: Server)
    returns (members: map<Group, seq<Server>>, affected: set<Group>)
    ensures members == Survivors(rows, servers, deleted)
    ensures forall g: Group, s: Server :: s in MembersOf(members, g) <==> Stays(rows, servers, deleted, g, s)
    ensures forall g: Group :: g in affected <==> LosesMember(rows, deleted, g)
  {
    members, affected := map[], {};
    for i := 0 to |rows|
      invariant members == Survivors(rows[..i], servers, deleted)
      invariant forall g: Group :: g in affected <==> LosesMember(rows[..i], deleted, g)
    {
      assert rows[..i + 1][..i] == rows[..i] && rows[..i + 1] == rows[..i] + [rows[i]];
      var row := rows[i];
      if row.server == deleted {
        affected := affected + {row.group};
      } else if row.server in servers {
        members := members[row.group := MembersOf(members, row.group) + [row.server]];
      }
    }
    assert rows[..|rows|] == rows;
    forall g: Group, s: Server
      ensures s in MembersOf(members, g) <==> Stays(rows, servers, deleted, g, s)
    {
      SurvivorsStay(rows, servers, deleted, g, s);
    }
  }

  function GroupsIn(chains: map<int64, seq<Group>>, chain: int64): seq<Group> {
    if chain in chains then chains[chain] else []
  }

  ghost predicate ListsGroups(chains: map<int64, seq<Group>>, hops: seq<HopRow>) {
    forall c: int64 :: GroupsIn(chains, c) == GroupsOf(hops, c)
  }

  /** The chains with an affected hop whose group is empty (or is not). */
  ghost predicate Marks(marked: set<int64>, hops: seq<HopRow>, affected: set<Group>, members: map<Group, seq<Server>>,
                        empty: bool) {
    forall c: int64 :: c in marked <==> HopAffected(hops, affected, members, c, empty)
  }

  method CollectHops(hops: seq<HopRow>, affected: set<Group>, members: map<Group, seq<Server>>)
    returns (chains: map<int64, seq<Group>>, broken: set<int64>, degraded: set<int64>)
    ensures ListsGroups(chains, hops)
    ensures Marks(broken, hops, affected, members, true) && Marks(degraded, hops, affected, members, false)
  {
    chains, broken, degraded := map[], {}, {};
    for i := 0 to |hops|
      invariant ListsGroups(chains, hops[..i])
      invariant Marks(broken, hops[..i], affected, members, true)
      invariant Marks(degraded, hops[..i], affected, members, false)
    {
      var hop := hops[i];
      OneMoreGroup(chains, hops, i);
      OneMoreMark(broken, hops, i, affected, members, true);
      OneMoreMark(degraded, hops, i, affected, members, false);
      chains := chains[hop.chain := GroupsIn(chains, hop.chain) + [hop.group]];
      if hop.group in affected {
        if MembersOf(members, hop.group) == [] {
          broken := broken + {hop.chain};
        } else {
          degraded := degraded + {hop.chain};
        }
      }
    }
    assert hops[..|hops|] == hops;
  }

  lemma OneMoreGroup(chains: map<int64, seq<Group>>, hops: seq<HopRow>, i: nat)
    requires i < |hops| && ListsGroups(chains, hops[..i])
    ensures ListsGroups(chains[hops[i].chain := GroupsIn(chains, hops[i].chain) + [hops[i].group]], hops[..i + 1])
  {
    assert hops[..i + 1][..i] == hops[..i];
    var more := chains[hops[i].chain := GroupsIn(chains, hops[i].chain) + [hops[i].group]];
    forall c: int64
      ensures GroupsIn(more, c) == GroupsOf(hops[..i + 1], c)
    {
      assert GroupsIn(chains, c) == GroupsOf(hops[..i], c);
      assert GroupsOf(hops[..i], c) + [] == GroupsOf(hops[..i], c);
    }
  }

  lemma OneMoreMark(marked: set<int64>, hops: seq<HopRow>, i: nat, affected: set<Group>,
                    members: map<Group, seq<Server>>, empty: bool)
    requires i < |hops| && Marks(marked, hops[..i], affected, members, empty)
    ensures hops[i].group in affected && (MembersOf(members, hops[i].group) == [] <==> empty) ==>
      Marks(marked + {hops[i].chain}, hops[..i + 1], affected, members, empty)
    ensures !(hops[i].group in affected && (MembersOf(members, hops[i].group) == [] <==> empty)) ==>
      Marks(marked, hops[..i + 1], affected, members, empty)
  {
    var before, after := hops[..i], hops[..i + 1];
    assert after[i] == hops[i];
    forall c: int64
      ensures HopAffected(after, affected, members, c, empty) <==>
        || HopAffected(before, affected, members, c, empty)
        || (c == hops[i].chain && hops[i].group in affected && (MembersOf(members, hops[i].group) == [] <==> empty))
    {
      if HopAffected(before, affected, members, c, empty) {
        var j :| 0 <= j < |before| && before[j].chain == c && before[j].group in affected &&
                 (MembersOf(members, before[j].group) == [] <==> empty);
        assert after[j] == before[j];
      }
    }
  }

  /** Adds the degraded chains that have no path any more; they are visited in any order. */
  method TryChains(chains: map<int64, seq<Group>>, hops: seq<HopRow>, members: map<Group, seq<Server>>,
                   empty: set<int64>, degraded: set<int64>)
    returns (broken: set<int64>)
    requires ListsGroups(chains, hops)
    ensures forall c: int64 :: c in broken <==> c in empty || (c in degraded && !HasPath(GroupsOf(hops, c), members))
  {
    broken := empty;
    var todo := degraded;
    while todo != {}
      invariant todo <= degraded
      invariant forall c: int64 ::
                  c in broken <==> c in empty || (c in degraded - todo && !HasPath(GroupsOf(hops, c), members))
      decreases todo
    {
      var c :| c in todo;
      todo := todo - {c};
      assert GroupsIn(chains, c) == GroupsOf(hops, c);
      var ok := ChainHasPath(GroupsIn(chains, c), members);
      if !ok {
        broken := broken + {c};
      }
    }
  }

  /** Decides every chain.  A chain is broken exactly when the deletion touches it and there is no
      choice of pairwise different servers left, one for each hop; every other touched chain is
      degraded. */
  method DecideChains(rows: seq<MemberRow>, hops: seq<HopRow>, servers: set<Server>, deleted: Server)
    returns (broken: set<int64>, degraded: set<int64>)
    ensures forall c: int64 :: c in broken <==>
      Touched(rows, hops, deleted, c) && !Survives(rows, hops, servers, deleted, c)
    ensures forall c: int64 :: c in degraded - broken <==>
      Touched(rows, hops, deleted, c) && Survives(rows, hops, servers, deleted, c)
  {
    var members, affected := CollectMembers(rows, servers, deleted);
    var chains, empty;
    chains, empty, degraded := CollectHops(hops, affected, members);
    broken := TryChains(chains, hops, members, empty, degraded);
    forall c: int64
      ensures c in broken <==>
              Touched(rows, hops, deleted, c) && !Survives(rows, hops, servers, deleted, c)
      ensures c in degraded - broken <==>
              Touched(rows, hops, deleted, c) && Survives(rows, hops, servers, deleted, c)
    {
      TouchedHop(rows, hops, deleted, affected, members, c);
      SurvivesExactlyIfPath(rows, hops, servers, deleted, c);
      if c in empty {
        EmptyHopExcludesPaths(hops, c, affected, members);
      }
    }
  }

  lemma TouchedHop(rows: seq<MemberRow>, hops: seq<HopRow>, deleted: Server, affected: set<Group>,
                   members: map<Group, seq<Server>>, chain: int64)
    requires forall g: Group :: g in affected <==> LosesMember(rows, deleted, g)
    ensures Touched(rows, hops, deleted, chain) <==>
      HopAffected(hops, affected, members, chain, true) || HopAffected(hops, affected, members, chain, false)
  {
    if Touched(rows, hops, deleted, chain) {
      var i :| 0 <= i < |hops| && hops[i].chain == chain && LosesMember(rows, deleted, hops[i].group);
      assert hops[i].group in affected;
      if MembersOf(members, hops[i].group) == [] {
        assert HopAffected(hops, affected, members, chain, true);
      } else {
        assert HopAffected(hops, affected, members, chain, false);
      }
    }
  }

  lemma {:induction false} GroupsOfContains(hops: seq<HopRow>, chain: int64, j: nat) returns (i: nat)
    requires j < |hops| && hops[j].chain == chain
    ensures i < |GroupsOf(hops, chain)| && GroupsOf(hops, chain)[i] == hops[j].group
    decreases |hops|
  {
    if j == |hops| - 1 {
      i := |GroupsOf(hops, chain)| - 1;
    } else {
      i := GroupsOfContains(hops[..|hops| - 1], chain, j);
    }
  }

  lemma EmptyHopExcludesPaths(hops: seq<HopRow>, chain: int64, affected: set<Group>, members: map<Group, seq<Server>>)
    requires HopAffected(hops, affected, members, chain, true)
    ensures !HasPath(GroupsOf(hops, chain), members)
  {
    var j :| 0 <= j < |hops| && hops[j].chain == chain && hops[j].group in affected &&
      (MembersOf(members, hops[j].group) == [] <==> true);
    var i := GroupsOfContains(hops, chain, j);
    assert MembersOf(members, hops[j].group) == [] == Options(GroupsOf(hops, chain), members, i);
  }
}
