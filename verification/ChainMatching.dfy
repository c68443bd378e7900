/** Whether the surviving members of a forward chain still form a path.

    Every hop of a chain listens on the same port, so a path must use a different
    server for each hop.  The program decides this with an augmenting-path search:
    `Assign` tries to give one hop a server and moves other hops to other servers
    when it has to.  The matching and the set of visited servers are shared by the
    whole recursion, as they are in the program. */
module ChainMatching {

  import opened Basics

  type Server = int64
  type Group = int64


  /** The servers a hop can use, in the order in which the search tries them. */
  function Options(groups: seq<Group>, members: map<Group, seq<Server>>, hop: nat): seq<Server>
    requires hop < |groups|
  {
    if groups[hop] in members then members[groups[hop]] else []
  }

  ghost function AllServers(members: map<Group, seq<Server>>): (all: set<Server>)
    ensures forall g, s | g in members && s in members[g] :: s in all
  {
    set g, s | g in members && s in members[g] :: s
  }

  /** A path: one server for each hop, from the hop's own group, no server twice. */
  ghost predicate IsPath(groups: seq<Group>, members: map<Group, seq<Server>>, path: seq<Server>) {
    && |path| == |groups|
    && (forall i | 0 <= i < |path| :: path[i] in Options(groups, members, i))
    && (forall i, j | 0 <= i < j < |path| :: path[i] != path[j])
  }

  ghost predicate HasPath(groups: seq<Group>, members: map<Group, seq<Server>>) {
    exists path :: IsPath(groups, members, path)
  }

  /** More hops than servers: every option of every hop in `hops` is in `servers`. */
  ghost predicate IsHallViolator(groups: seq<Group>, members: map<Group, seq<Server>>, hops: set<nat>,
                                 servers: set<Server>) {
    && |hops| > |servers|
    && (forall h | h in hops :: h < |groups| && forall s | s in Options(groups, members, h) :: s in servers)
  }

  /** Keys outside `skip` carry pairwise different values. */
  ghost predicate InjectiveOutside(m: map<Server, nat>, skip: set<Server>) {
    forall s, t | s in m && t in m && s !in skip && t !in skip && m[s] == m[t] :: s == t
  }

  ghost function ValuesOutside(m: map<Server, nat>, skip: set<Server>): set<nat> {
    set s | s in m && s !in skip :: m[s]
  }

  /** The search took `id` for `hop` after `before` became `after`, where the hop that
      had `id`, if there was one, found another server outside `visited`. */
  lemma MoveKeepsMatching(before: map<Server, nat>, after: map<Server, nat>, skip: set<Server>, visited: set<Server>,
                          id: Server, hop: nat)
    requires InjectiveOutside(before, skip) && hop !in ValuesOutside(before, skip)
    requires skip <= visited && id !in visited
    requires id !in before ==> after == before
    requires id in before ==>
      && InjectiveOutside(after, visited + {id})
      && ValuesOutside(after, visited + {id}) == ValuesOutside(before, visited + {id}) + {before[id]}
      && (forall s | s in visited + {id} :: (s in after <==> s in before) && (s in after ==> after[s] == before[s]))
    ensures InjectiveOutside(after[id := hop], skip)
    ensures ValuesOutside(after[id := hop], skip) == ValuesOutside(before, skip) + {hop}
  {
    var result := after[id := hop];
    if id in before {
      forall s | s in after && s !in skip && s != id
        ensures after[s] in ValuesOutside(before, skip)
      {
        if s !in visited {
          assert after[s] in ValuesOutside(after, visited + {id});
        }
      }
      forall s, t | s in after && t in after && s !in skip && t !in skip && s != id && t != id && after[s] == after[t]
        ensures s == t
      {
        if s in visited && t !in visited {
          StaysElsewhere(before, after, skip, visited, id, s, t);
        } else if t in visited && s !in visited {
          StaysElsewhere(before, after, skip, visited, id, t, s);
        }
      }
      forall h | h in ValuesOutside(before, skip)
        ensures h in ValuesOutside(result, skip)
      {
        var s :| s in before && s !in skip && before[s] == h;
        if s !in visited || s == id {
          assert h in ValuesOutside(after, visited + {id});
          var t :| t in after && t !in visited + {id} && after[t] == h;
          assert result[t] == h;
        } else {
          assert result[s] == h;
        }
      }
    }
    assert result[id] == hop;
  }

  /** A hop served from inside the visited servers is not served from outside too. */
  lemma StaysElsewhere(before: map<Server, nat>, after: map<Server, nat>, skip: set<Server>, visited: set<Server>,
                       id: Server, s: Server, t: Server)
    requires InjectiveOutside(before, skip)
    requires skip <= visited && id !in visited && id in before
    requires ValuesOutside(after, visited + {id}) == ValuesOutside(before, visited + {id}) + {before[id]}
    requires s in visited && s !in skip && s in before && s in after && after[s] == before[s]
    requires t in after && t !in visited + {id}
    ensures after[s] != after[t]
  {
    assert after[t] in ValuesOutside(after, visited + {id});
    if after[t] != before[id] {
      var u :| u in before && u !in visited + {id} && before[u] == after[t];
    }
  }

  /** Exactly the hops before `n` are served. */
  ghost predicate ServesExactly(m: map<Server, nat>, n: nat) {
    forall h: nat :: h in ValuesOutside(m, {}) <==> h < n
  }

  class Matcher {
    const groups: seq<Group>
    const members: map<Group, seq<Server>>
    var serves: map<Server, nat>
    var seen: set<Server>

    constructor (groups: seq<Group>, members: map<Group, seq<Server>>)
      ensures this.groups == groups && this.members == members
      ensures serves == map[]
    {
      this.groups, this.members, serves, seen := groups, members, map[], {};
    }

    ghost predicate Valid()
      reads this
    {
      forall s | s in serves :: serves[s] < |groups| && s in Options(groups, members, serves[s])
    }

    /** Finds a server for `hop`, which has none outside the visited servers.  On success
        exactly one more server outside them is in use and all hops served from there
        still are; on failure nothing moved and every server visited on the way serves a
        hop that has no unvisited option either. */
    method Assign(hop: nat) returns (found: bool)
      requires Valid() && hop < |groups|
      requires InjectiveOutside(serves, seen) && hop !in ValuesOutside(serves, seen)
      modifies this
      ensures Valid() && old(seen) <= seen
      ensures found ==>
        && InjectiveOutside(serves, old(seen))
        && ValuesOutside(serves, old(seen)) == ValuesOutside(old(serves), old(seen)) + {hop}
        && (forall s | s in old(seen) ::
              (s in serves <==> s in old(serves)) && (s in serves ==> serves[s] == old(serves)[s]))
      ensures !found ==>
        && serves == old(serves)
        && (forall s | s in Options(groups, members, hop) :: s in seen)
        && (forall s | s in seen && s !in old(seen) ::
              && s in serves
              && forall t | t in Options(groups, members, serves[s]) :: t in seen)
      decreases AllServers(members) - seen
    {
      var options := Options(groups, members, hop);
      for i := 0 to |options|
        invariant Valid() && old(seen) <= seen
        invariant serves == old(serves)
        invariant forall j | 0 <= j < i :: options[j] in seen
        invariant forall s | s in seen && s !in old(seen) ::
            && s in serves
            && forall t | t in Options(groups, members, serves[s]) :: t in seen
      {
        var id := options[i];
        if id in seen {
          continue;
        }
        assert id in AllServers(members);
        label before:
        seen := seen + {id};
        var free := id !in serves;
        if !free {
          free := Assign(serves[id]);
        }
        if free {
          MoveKeepsMatching(old(serves), serves, old(seen), old@before(seen), id, hop);
          serves := serves[id := hop];
          return true;
        }
      }
      return false;
    }

    /** Serves the hops one after the other.  The answer is exactly whether the hops have
        pairwise distinct servers; a refusal comes with the hops and servers that rule
        every path out. */
    method HasDistinctServers() returns (ok: bool, ghost hops: set<nat>)
      requires Valid() && serves == map[]
      modifies this
      ensures ok <==> HasPath(groups, members)
      ensures !ok ==> IsHallViolator(groups, members, hops, seen)
    {
      hops := {};
      for hop := 0 to |groups|
        invariant Valid() && InjectiveOutside(serves, {})
        invariant ServesExactly(serves, hop)
      {
        seen := {};
        ghost var matching := serves;
        var found := Assign(hop);
        if !found {
          hops := Stuck(groups, members, matching, hop, seen);
          ViolatorExcludesPaths(groups, members, hops, seen);
          return false, hops;
        }
      }
      MatchingIsPath(groups, members, serves);
      return true, hops;
    }
  }

  /** True exactly when the hops have pairwise distinct servers. */
  method ChainHasPath(groups: seq<Group>, members: map<Group, seq<Server>>) returns (ok: bool)
    ensures ok <==> HasPath(groups, members)
  {
    var matcher := new Matcher(groups, members);
    ghost var hops;
    ok, hops := matcher.HasDistinctServers();
  }

  // ---------- what the two answers mean ----------

  ghost function ServerOf(matching: map<Server, nat>, n: nat, hop: nat): (s: Server)
    requires ServesExactly(matching, n) && hop < n
    ensures s in matching && matching[s] == hop
  {
    assert hop in ValuesOutside(matching, {});
    var s :| s in matching && matching[s] == hop; s
  }

  /** A complete matching, read from the hops' side, is a path. */
  lemma MatchingIsPath(groups: seq<Group>, members: map<Group, seq<Server>>, matching: map<Server, nat>)
    requires forall s | s in matching :: matching[s] < |groups| && s in Options(groups, members, matching[s])
    requires ServesExactly(matching, |groups|)
    ensures HasPath(groups, members)
  {
    var path := seq(|groups|, h requires 0 <= h < |groups| => ServerOf(matching, |groups|, h));
    assert forall h | 0 <= h < |path| :: path[h] in matching && matching[path[h]] == h;
    assert IsPath(groups, members, path);
  }

  /** A failed search closes under "the hop this server serves and all its options": the
      hops served by the visited servers, with the hop that got none, are one too many. */
  lemma Stuck(groups: seq<Group>, members: map<Group, seq<Server>>, matching: map<Server, nat>, hop: nat,
              seen: set<Server>) returns (hops: set<nat>)
    requires hop < |groups| && hop !in ValuesOutside(matching, {})
    requires InjectiveOutside(matching, {})
    requires forall s | s in Options(groups, members, hop) :: s in seen
    requires seen <= matching.Keys && forall s | s in seen :: matching[s] < |groups|
    requires forall s | s in seen :: forall t | t in Options(groups, members, matching[s]) :: t in seen
    ensures hops == {hop} + HopsServed(seen, matching)
    ensures IsHallViolator(groups, members, hops, seen)
  {
    var served := HopsServed(seen, matching);
    hops := {hop} + served;
    assert forall s | s in seen :: matching[s] in ValuesOutside(matching, {});
    ImageSize(seen, matching);
  }

  ghost function HopsServed(servers: set<Server>, m: map<Server, nat>): set<nat>
    requires servers <= m.Keys
  {
    set s | s in servers :: m[s]
  }

  lemma {:induction false} ImageSize(servers: set<Server>, m: map<Server, nat>)
    requires servers <= m.Keys
    requires forall s, t | s in servers && t in servers && s != t :: m[s] != m[t]
    ensures |HopsServed(servers, m)| == |servers|
    decreases |servers|
  {
    if servers != {} {
      var k :| k in servers;
      ImageSize(servers - {k}, m);
      assert HopsServed(servers, m) == HopsServed(servers - {k}, m) + {m[k]};
    }
  }

  /** The easy half of Hall's theorem. */
  lemma ViolatorExcludesPaths(groups: seq<Group>, members: map<Group, seq<Server>>, hops: set<nat>,
                              servers: set<Server>)
    requires IsHallViolator(groups, members, hops, servers)
    ensures !HasPath(groups, members)
  {
    forall path | IsPath(groups, members, path)
      ensures false
    {
      forall h | h in hops
        ensures path[h] in servers
      {
        assert path[h] in Options(groups, members, h);
      }
      PathImage(path, hops, servers);
    }
  }

  lemma {:induction false} PathImage(path: seq<Server>, hops: set<nat>, servers: set<Server>)
    requires forall h | h in hops :: h < |path| && path[h] in servers
    requires forall i, j | 0 <= i < j < |path| :: path[i] != path[j]
    ensures |hops| <= |servers|
    decreases hops
  {
    if hops != {} {
      var h :| h in hops;
      PathImage(path, hops - {h}, servers - {path[h]});
    }
  }
}
