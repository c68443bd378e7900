/** Who owns a node.  A node with a parent takes over its parent's owner; a node without
    one is decided by the credentials of its inbound, by packages, or by the administrators.

    The program resolves parents recursively, remembers every result, and guards against
    parent cycles with the set of nodes being resolved.  The results are those of the plain
    rule, in whatever order the nodes are resolved. */
module NodeOwners {

  import opened Basics

  type NodeId = int64
  type User = string

  datatype Inbound = Inbound(server: int64, tag: string)

  /** `baseTag` is the tag without a "-relay" suffix; the two are equal when there is none. */
  datatype Node = Node(serverName: string, server: int64, tag: string, baseTag: string)

  datatype Source = NoSource | Credential | FromPackage | DefaultAdmin

  datatype Owner = Owner(users: set<User>, source: Source, adminOnly: bool, shared: bool, inboundBacked: bool,
                         parent: NodeId)

  /** `parents` leads from a node to its parent node; node id 0 stands for no parent.
      `admins` tells of every known user whether it is an administrator, `credentials` which
      users have a recorded credential on an inbound, `snapshots` which administrators the
      saved configuration of an existing inbound names, `packages` which users' packages
      contain a node. */
  datatype Data = Data(
    nodes: map<NodeId, Node>,
    parents: map<NodeId, NodeId>,
    admins: map<User, bool>,
    credentials: map<Inbound, set<User>>,
    snapshots: map<Inbound, set<User>>,
    packages: map<NodeId, set<User>>)
  {
    ghost predicate Valid() {
      parents.Keys <= nodes.Keys && forall id | id in parents :: parents[id] == 0 || parents[id] in nodes
    }

    function Parent(id: NodeId): NodeId {
      if id in parents then parents[id] else 0
    }

    function CredentialsOn(i: Inbound): set<User> {
      if i in credentials then credentials[i] else {}
    }

    function PackagesOf(id: NodeId): set<User> {
      if id in packages then packages[id] else {}
    }

    predicate IsAdmin(u: User) {
      u in admins && admins[u]
    }

    function Admins(): set<User> {
      set u | u in admins && admins[u]
    }

    predicate Backed(id: NodeId)
      requires id in nodes
    {
      nodes[id].serverName != "" && nodes[id].tag != ""
    }

    // ---------- ancestors ----------

    /** The `n`-th ancestor; roots stay where they are. */
    function Ancestor(id: NodeId, n: nat): NodeId
      decreases n
    {
      if n == 0 || Parent(id) == 0 then id else Ancestor(Parent(id), n - 1)
    }

    ghost predicate IsAncestor(id: NodeId, above: NodeId) {
      exists n: nat :: Ancestor(id, n) == above
    }

    ghost predicate Below(id: NodeId, above: NodeId) {
      Parent(id) != 0 && exists n: nat :: n > 0 && Ancestor(id, n) == above
    }

    ghost predicate HasRoot(id: NodeId) {
      exists n: nat :: Parent(Ancestor(id, n)) == 0
    }

    ghost function Root(id: NodeId): NodeId
      requires HasRoot(id)
    {
      var n: nat :| Parent(Ancestor(id, n)) == 0;
      Ancestor(id, n)
    }

    lemma {:induction false} AncestorOfParent(id: NodeId, n: nat)
      requires Parent(id) != 0
      ensures Ancestor(id, n + 1) == Ancestor(Parent(id), n)
    {
    }

    lemma {:induction false} AncestorsCompose(id: NodeId, m: nat, n: nat)
      ensures Ancestor(id, m + n) == Ancestor(Ancestor(id, m), n)
      decreases m
    {
      if m > 0 && Parent(id) != 0 {
        AncestorsCompose(Parent(id), m - 1, n);
      } else if m > 0 {
        RootStays(id, n);
        RootStays(id, m + n);
      }
    }

    lemma RootStays(id: NodeId, n: nat)
      requires Parent(id) == 0
      ensures Ancestor(id, n) == id
    {
    }

    lemma RootsAgree(id: NodeId, m: nat, n: nat)
      requires Parent(Ancestor(id, m)) == 0 && Parent(Ancestor(id, n)) == 0
      ensures Ancestor(id, m) == Ancestor(id, n)
    {
      if m <= n {
        AncestorsCompose(id, m, n - m);
        RootStays(Ancestor(id, m), n - m);
      } else {
        AncestorsCompose(id, n, m - n);
        RootStays(Ancestor(id, n), m - n);
      }
    }

    /** A node has a root exactly when its parent has, and it is the same one. */
    lemma RootOfParent(id: NodeId)
      requires Parent(id) != 0
      ensures HasRoot(id) <==> HasRoot(Parent(id))
      ensures HasRoot(id) ==> Root(id) == Root(Parent(id))
    {
      if HasRoot(id) {
        var n: nat :| Parent(Ancestor(id, n)) == 0 && Root(id) == Ancestor(id, n);
        AncestorOfParent(id, n - 1);
      }
      if HasRoot(Parent(id)) {
        var n: nat :| Parent(Ancestor(Parent(id), n)) == 0 && Root(Parent(id)) == Ancestor(Parent(id), n);
        AncestorOfParent(id, n);
        assert Parent(Ancestor(id, n + 1)) == 0;
        var m: nat :| Parent(Ancestor(id, m)) == 0 && Root(id) == Ancestor(id, m);
        RootsAgree(id, m, n + 1);
      }
    }

    lemma RootOfRoot(id: NodeId)
      requires Parent(id) == 0
      ensures HasRoot(id) && Root(id) == id
    {
      assert Parent(Ancestor(id, 0)) == 0;
      var n: nat :| Parent(Ancestor(id, n)) == 0 && Root(id) == Ancestor(id, n);
      RootStays(id, n);
    }

    /** A node above itself has no root. */
    lemma {:induction false} CycleHasNoRoot(id: NodeId, n: nat, k: nat)
      requires n > 0 && Parent(id) != 0 && Ancestor(id, n) == id
      ensures Parent(Ancestor(id, k)) != 0
      decreases k
    {
      if k >= n {
        AncestorsCompose(id, n, k - n);
        CycleHasNoRoot(id, n, k - n);
      } else if Parent(Ancestor(id, k)) == 0 {
        AncestorsCompose(id, k, n - k);
        RootStays(Ancestor(id, k), n - k);
      }
    }

    // ---------- the plain rule ----------

    /** The inbound whose credentials count: a relay copy without its own falls back to the
        tag it copies. */
    function OwnInbound(id: NodeId): Inbound
      requires id in nodes
    {
      var n := nodes[id];
      if CredentialsOn(Inbound(n.server, n.tag)) == {} then Inbound(n.server, n.baseTag) else Inbound(n.server, n.tag)
    }

    function CredentialUsers(id: NodeId): set<User>
      requires id in nodes
    {
      var i := OwnInbound(id);
      if Backed(id) && CredentialsOn(i) == {} then (if i in snapshots then snapshots[i] else {}) else CredentialsOn(i)
    }

    /** Another node whose packages count for this one too. */
    ghost predicate Alias(alias: NodeId, id: NodeId)
      requires alias in nodes && id in nodes
    {
      IsAncestor(alias, id) ||
      (nodes[alias].serverName == nodes[id].serverName && nodes[alias].baseTag == nodes[id].baseTag)
    }

    ghost function BoundUsers(id: NodeId): set<User>
      requires id in nodes
    {
      PackagesOf(id) + set alias, u | Backed(id) && alias in nodes && Alias(alias, id) && u in PackagesOf(alias) :: u
    }

    function Decide(id: NodeId, users: set<User>, bound: set<User>): Owner
      requires id in nodes
    {
      var ordinary := set u | u in users && !IsAdmin(u);
      if Backed(id) && users != {} then
        if ordinary == {} then Owner(users, Credential, true, false, true, 0)
        else Owner(ordinary, Credential, false, |ordinary| > 1, true, 0)
      else if |bound| == 1 || (Backed(id) && |bound| > 1)
        then Owner(bound, FromPackage, false, |bound| > 1, Backed(id), 0)
      else if Backed(id) && OwnInbound(id) in snapshots then Owner(Admins(), DefaultAdmin, true, false, true, 0)
      else Owner({}, NoSource, false, false, Backed(id), 0)
    }

    ghost function RootOwner(id: NodeId): Owner
      requires id in nodes
    {
      Decide(id, CredentialUsers(id), BoundUsers(id))
    }

    // ---------- what the rule means ----------

    /** The user's credential counts for the node: recorded on its own inbound, or, when that has
        none, on the one it copies, or, when neither has one, named by the saved configuration. */
    ghost predicate Holds(id: NodeId, u: User)
      requires id in nodes
    {
      var own, copied := Inbound(nodes[id].server, nodes[id].tag), Inbound(nodes[id].server, nodes[id].baseTag);
      if own in credentials && credentials[own] != {} then u in credentials[own]
      else if copied in credentials && credentials[copied] != {} then u in credentials[copied]
      else copied in snapshots && u in snapshots[copied]
    }

    /** The user's packages contain the node, or, if it is backed by an inbound, a node below it or
        one with the same inbound up to "-relay". */
    ghost predicate Booked(id: NodeId, u: User)
      requires id in nodes
    {
      || (id in packages && u in packages[id])
      || (nodes[id].serverName != "" && nodes[id].tag != "" && exists alias ::
            && alias in nodes && alias in packages && u in packages[alias]
            && ((nodes[alias].serverName == nodes[id].serverName && nodes[alias].baseTag == nodes[id].baseTag) ||
                IsAncestor(alias, id)))
    }

    /** The owner of a node without a parent, told by its users one by one: credentials first, where
        administrators count only among themselves; then packages, for a node without an inbound
        only of a single user; then all the administrators, if the saved configuration has the
        inbound. */
    ghost predicate ByTheRules(id: NodeId, o: Owner)
      requires id in nodes
    {
      var n := nodes[id];
      var backed := n.serverName != "" && n.tag != "";
      && o.parent == 0 && o.inboundBacked == backed && o.shared == (!o.adminOnly && |o.users| > 1)
      && (o.source == Credential <==> backed && exists u :: Holds(id, u))
      && (o.source == FromPackage <==>
          && o.source != Credential && (exists u :: Booked(id, u))
          && (backed || forall u, v | Booked(id, u) && Booked(id, v) :: u == v))
      && (o.source == DefaultAdmin <==>
          o.source !in {Credential, FromPackage} && backed && Inbound(n.server, n.baseTag) in snapshots)
      && match o.source
         case Credential =>
           && (o.adminOnly <==> forall u | Holds(id, u) :: u in admins && admins[u])
           && forall u :: u in o.users <==> Holds(id, u) && (o.adminOnly || !(u in admins && admins[u]))
         case FromPackage => !o.adminOnly && forall u :: u in o.users <==> Booked(id, u)
         case DefaultAdmin => o.adminOnly && forall u :: u in o.users <==> u in admins && admins[u]
         case NoSource => !o.adminOnly && o.users == {}
    }

    lemma OneUser(users: set<User>)
      ensures |users| == 1 <==> users != {} && forall u, v | u in users && v in users :: u == v
      ensures |users| > 1 ==> users != {}
    {
      if users != {} {
        var u :| u in users;
        assert users == {u} + (users - {u});
        if users - {u} != {} {
          var v :| v in users - {u};
          assert |{u, v}| == 2 && {u, v} <= users;
          assert users == {u, v} + (users - {u, v});
        }
      }
    }

    lemma HoldersAre(id: NodeId)
      requires id in nodes
      ensures nodes[id].serverName != "" && nodes[id].tag != "" ==>
                forall u :: u in CredentialUsers(id) <==> Holds(id, u)
    {
    }

    lemma BookerIs(id: NodeId, u: User)
      requires id in nodes
      ensures u in BoundUsers(id) <==> Booked(id, u)
    {
      if Booked(id, u) && u !in PackagesOf(id) {
        var alias :| alias in nodes && alias in packages && u in packages[alias] && Alias(alias, id);
        assert u in PackagesOf(alias);
      }
      if u in BoundUsers(id) && u !in PackagesOf(id) {
        var alias :| alias in nodes && Alias(alias, id) && u in PackagesOf(alias);
        assert alias in packages;
      }
    }

    lemma BookersAre(id: NodeId)
      requires id in nodes
      ensures forall u :: u in BoundUsers(id) <==> Booked(id, u)
    {
      forall u
        ensures u in BoundUsers(id) <==> Booked(id, u)
      {
        BookerIs(id, u);
      }
    }

    lemma CredentialsByTheRules(id: NodeId)
      requires id in nodes && Backed(id) && CredentialUsers(id) != {}
      ensures ByTheRules(id, RootOwner(id))
    {
      HoldersAre(id);
      var users := CredentialUsers(id);
      var ordinary := set u | u in users && !IsAdmin(u);
      assert forall u | u in users && !IsAdmin(u) :: u in ordinary;
      assert forall u | Holds(id, u) :: u in users;
      assert RootOwner(id).source == Credential;
    }

    lemma RootOwnerByTheRules(id: NodeId)
      requires id in nodes
      ensures ByTheRules(id, RootOwner(id))
    {
      if Backed(id) && CredentialUsers(id) != {} {
        CredentialsByTheRules(id);
      } else {
        HoldersAre(id);
        BookersAre(id);
        OneUser(BoundUsers(id));
        assert RootOwner(id).source != Credential;
      }
    }

    /** What the resolution of a node must be.  With a root above it, the root's owner, with
        the direct parent recorded.  On or below a cycle, nobody; the flag for a backing
        inbound is then that of some node of its parent chain. */
    ghost predicate IsOwnerOf(id: NodeId, o: Owner)
      requires id in nodes
    {
      if HasRoot(id) && Root(id) in nodes then
        o == RootOwner(Root(id)).(parent := Parent(id))
      else
        && o.users == {} && o.source == NoSource && !o.adminOnly && !o.shared
        && exists n: nat :: Ancestor(id, n) in nodes && o.inboundBacked == Backed(Ancestor(id, n))
    }

    lemma {:induction false} AncestorsAreNodes(id: NodeId, n: nat)
      requires Valid() && id in nodes
      ensures Ancestor(id, n) in nodes
      decreases n
    {
      if n > 0 && Parent(id) != 0 {
        AncestorsAreNodes(Parent(id), n - 1);
      }
    }

    lemma OwnerOfRoot(id: NodeId, o: Owner)
      requires id in nodes && Parent(id) == 0 && o == RootOwner(id)
      ensures IsOwnerOf(id, o)
    {
      RootOfRoot(id);
      assert o.parent == 0;
    }

    lemma OwnerFromParent(id: NodeId, o: Owner)
      requires Valid() && id in nodes && Parent(id) != 0 && IsOwnerOf(Parent(id), o)
      ensures IsOwnerOf(id, o.(parent := Parent(id)))
    {
      RootOfParent(id);
      if !(HasRoot(id) && Root(id) in nodes) {
        var n: nat :| Ancestor(Parent(id), n) in nodes && o.inboundBacked == Backed(Ancestor(Parent(id), n));
        AncestorOfParent(id, n);
        assert Ancestor(id, n + 1) in nodes;
      }
    }

    // ---------- where a resolution stops ----------

    /** Walking up from a node: the first node that is visited again, or the root. */
    ghost function Entry(id: NodeId, visiting: set<NodeId>): (e: NodeId)
      requires Valid() && id in nodes && visiting <= nodes.Keys
      ensures e in nodes
      decreases nodes.Keys - visiting
    {
      if id in visiting || Parent(id) == 0 then id else Entry(Parent(id), visiting + {id})
    }

    /** The flag that a resolution hands down: that of the first remembered node, or, if it meets
        none, that of the node at which it stops. */
    ghost function Flag(id: NodeId, memo: map<NodeId, Owner>, visiting: set<NodeId>): bool
      requires Valid() && id in nodes && visiting <= nodes.Keys
      decreases nodes.Keys - visiting
    {
      if id in memo then memo[id].inboundBacked
      else if id in visiting || Parent(id) == 0 then Backed(id)
      else Flag(Parent(id), memo, visiting + {id})
    }

    /** The nodes that a resolution remembers. */
    ghost function Walked(id: NodeId, memo: map<NodeId, Owner>, visiting: set<NodeId>): set<NodeId>
      requires Valid() && id in nodes && visiting <= nodes.Keys
      decreases nodes.Keys - visiting
    {
      if id in memo || id in visiting then {}
      else if Parent(id) == 0 then {id}
      else {id} + Walked(Parent(id), memo, visiting + {id})
    }

    /** The nodes on the way up so far are not remembered. */
    ghost predicate OnTheWay(id: NodeId, memo: map<NodeId, Owner>, visiting: set<NodeId>) {
      forall w | w in visiting :: w !in memo && Parent(w) != 0 && (Parent(w) in visiting || Parent(w) == id)
    }

    ghost predicate UpClosed(closed: set<NodeId>) {
      forall s | s in closed && Parent(s) != 0 :: Parent(s) in closed
    }

    lemma {:induction false} AncestorsStayInside(id: NodeId, closed: set<NodeId>, k: nat)
      requires id in closed && UpClosed(closed)
      ensures Ancestor(id, k) in closed
      decreases k
    {
      if k > 0 && Parent(id) != 0 {
        AncestorsStayInside(Parent(id), closed, k - 1);
      }
    }

    ghost predicate MeetsMemo(id: NodeId, memo: map<NodeId, Owner>) {
      exists n: nat :: Ancestor(id, n) in memo
    }

    lemma MeetsMemoFromParent(id: NodeId, memo: map<NodeId, Owner>)
      requires id !in memo
      ensures Parent(id) != 0 ==> (MeetsMemo(id, memo) <==> MeetsMemo(Parent(id), memo))
      ensures Parent(id) == 0 ==> !MeetsMemo(id, memo)
    {
      if Parent(id) != 0 && MeetsMemo(id, memo) {
        var n: nat :| Ancestor(id, n) in memo;
        AncestorOfParent(id, n - 1);
        assert Ancestor(Parent(id), n - 1) in memo;
      }
      if Parent(id) != 0 && MeetsMemo(Parent(id), memo) {
        var n: nat :| Ancestor(Parent(id), n) in memo;
        AncestorOfParent(id, n);
        assert Ancestor(id, n + 1) in memo;
      }
    }

    /** A resolution that meets a remembered node hands down its flag, any other one that of the
        node at which it stops. */
    lemma {:induction false} FlagIs(id: NodeId, memo: map<NodeId, Owner>, visiting: set<NodeId>)
      requires Valid() && id in nodes && visiting <= nodes.Keys && OnTheWay(id, memo, visiting)
      ensures MeetsMemo(id, memo) ==>
                exists n: nat ::
                  Ancestor(id, n) in memo && Flag(id, memo, visiting) == memo[Ancestor(id, n)].inboundBacked
      ensures !MeetsMemo(id, memo) ==> Flag(id, memo, visiting) == Backed(Entry(id, visiting))
      decreases nodes.Keys - visiting
    {
      if id in memo {
        assert Ancestor(id, 0) in memo;
      } else if id in visiting {
        if MeetsMemo(id, memo) {
          var n: nat :| Ancestor(id, n) in memo;
          AncestorsStayInside(id, visiting, n);
        }
      } else {
        MeetsMemoFromParent(id, memo);
        if Parent(id) != 0 {
          FlagIs(Parent(id), memo, visiting + {id});
          if MeetsMemo(id, memo) {
            var n: nat :| Ancestor(Parent(id), n) in memo &&
                          Flag(Parent(id), memo, visiting + {id}) == memo[Ancestor(Parent(id), n)].inboundBacked;
            AncestorOfParent(id, n);
            assert Ancestor(id, n + 1) in memo;
          }
        }
      }
    }

    lemma {:induction false} WalkedIsAbove(id: NodeId, memo: map<NodeId, Owner>, visiting: set<NodeId>)
      requires Valid() && id in nodes && visiting <= nodes.Keys
      ensures forall k | k in Walked(id, memo, visiting) :: IsAncestor(id, k) && k in nodes
      decreases nodes.Keys - visiting
    {
      assert Ancestor(id, 0) == id;
      if id !in memo && id !in visiting && Parent(id) != 0 {
        WalkedIsAbove(Parent(id), memo, visiting + {id});
        forall k | k in Walked(Parent(id), memo, visiting + {id})
          ensures IsAncestor(id, k)
        {
          var n: nat :| Ancestor(Parent(id), n) == k;
          AncestorOfParent(id, n);
          assert Ancestor(id, n + 1) == k;
        }
      }
    }

    lemma {:induction false} WalkedIsClosed(id: NodeId, memo: map<NodeId, Owner>, visiting: set<NodeId>)
      requires Valid() && id in nodes && visiting <= nodes.Keys && OnTheWay(id, memo, visiting) && UpClosed(memo.Keys)
      ensures UpClosed(memo.Keys + visiting + Walked(id, memo, visiting))
      ensures id in memo.Keys + visiting + Walked(id, memo, visiting)
      decreases nodes.Keys - visiting
    {
      if id !in memo && id !in visiting && Parent(id) != 0 {
        WalkedIsClosed(Parent(id), memo, visiting + {id});
        assert memo.Keys + (visiting + {id}) + Walked(Parent(id), memo, visiting + {id}) == memo.Keys + visiting +
               Walked(id, memo, visiting);
      }
    }

    /** What a resolution adds to the memory. */
    ghost predicate WalkedTo(id: NodeId, visiting: set<NodeId>, before: map<NodeId, Owner>, after: map<NodeId, Owner>,
                             owner: Owner)
      requires Valid() && id in nodes && visiting <= nodes.Keys
    {
      && owner.inboundBacked == Flag(id, before, visiting)
      && after.Keys == before.Keys + Walked(id, before, visiting)
      && (forall k | k in before :: after[k] == before[k])
      && (forall k | k in after && k !in before ::
            after[k].inboundBacked == owner.inboundBacked && after[k].parent == Parent(k))
    }

    lemma WalkOn(id: NodeId, visiting: set<NodeId>, before: map<NodeId, Owner>, middle: map<NodeId, Owner>,
                 owner: Owner)
      requires Valid() && id in nodes && visiting <= nodes.Keys && id !in visiting && id !in before && Parent(id) != 0
      requires WalkedTo(Parent(id), visiting + {id}, before, middle, owner)
      ensures var o := owner.(parent := Parent(id)); WalkedTo(id, visiting, before, middle[id := o], o)
    {
    }

    lemma WalkEnds(id: NodeId, visiting: set<NodeId>, before: map<NodeId, Owner>, owner: Owner)
      requires Valid() && id in nodes && visiting <= nodes.Keys && id !in visiting && id !in before && Parent(id) == 0
      requires owner == RootOwner(id)
      ensures WalkedTo(id, visiting, before, before[id := owner], owner)
    {
    }

    // ---------- which resolution decides ----------

    /** Two nodes with a common node above them (or at them). */
    ghost predicate Meets(a: NodeId, b: NodeId) {
      exists m: nat, n: nat :: Ancestor(a, m) == Ancestor(b, n)
    }

    lemma MeetsAbove(a: NodeId, n: nat)
      ensures Meets(a, Ancestor(a, n)) && Meets(a, a)
    {
      assert Ancestor(a, n) == Ancestor(Ancestor(a, n), 0);
      assert Ancestor(a, 0) == Ancestor(a, 0);
    }

    lemma MeetsSymmetric(a: NodeId, b: NodeId)
      requires Meets(a, b)
      ensures Meets(b, a)
    {
      var m: nat, n: nat :| Ancestor(a, m) == Ancestor(b, n);
      assert Ancestor(b, n) == Ancestor(a, m);
    }

    lemma MeetsTransitive(a: NodeId, b: NodeId, c: NodeId)
      requires Meets(a, b) && Meets(b, c)
      ensures Meets(a, c)
    {
      var m: nat, n: nat :| Ancestor(a, m) == Ancestor(b, n);
      var p: nat, q: nat :| Ancestor(b, p) == Ancestor(c, q);
      if n <= p {
        AncestorsCompose(a, m, p - n);
        AncestorsCompose(b, n, p - n);
        assert Ancestor(a, m + (p - n)) == Ancestor(c, q);
      } else {
        AncestorsCompose(c, q, n - p);
        AncestorsCompose(b, p, n - p);
        assert Ancestor(a, m) == Ancestor(c, q + (n - p));
      }
    }

    /** The first listed node that meets a node, or the node itself. */
    ghost function First(order: seq<NodeId>, id: NodeId): NodeId {
      if order == [] then id else if Meets(order[0], id) then order[0] else First(order[1..], id)
    }

    ghost predicate AnyMeets(order: seq<NodeId>, id: NodeId) {
      exists a :: a in order && Meets(a, id)
    }

    lemma AnyMeetsTail(order: seq<NodeId>, id: NodeId)
      requires order != []
      ensures AnyMeets(order, id) <==> Meets(order[0], id) || AnyMeets(order[1..], id)
    {
      assert order == [order[0]] + order[1..];
    }

    lemma {:induction false} FirstMeets(order: seq<NodeId>, id: NodeId)
      requires AnyMeets(order, id)
      ensures First(order, id) in order && Meets(First(order, id), id)
    {
      AnyMeetsTail(order, id);
      if !Meets(order[0], id) {
        FirstMeets(order[1..], id);
      }
    }

    /** Nodes that meet have the same first one. */
    lemma {:induction false} FirstIsShared(order: seq<NodeId>, a: NodeId, b: NodeId)
      requires Meets(a, b) && AnyMeets(order, a)
      ensures First(order, a) == First(order, b) && AnyMeets(order, b)
    {
      MeetsSymmetric(a, b);
      AnyMeetsTail(order, a);
      AnyMeetsTail(order, b);
      if Meets(order[0], a) {
        MeetsTransitive(order[0], a, b);
      } else {
        if Meets(order[0], b) {
          MeetsTransitive(order[0], b, a);
        }
        FirstIsShared(order[1..], a, b);
      }
    }

    lemma {:induction false} FirstOfMore(order: seq<NodeId>, a: NodeId, id: NodeId)
      ensures AnyMeets(order, id) ==> First(order + [a], id) == First(order, id)
      ensures !AnyMeets(order, id) && Meets(a, id) ==> First(order + [a], id) == a
      ensures AnyMeets(order + [a], id) <==> AnyMeets(order, id) || Meets(a, id)
    {
      var more := order + [a];
      AnyMeetsTail(more, id);
      if order != [] {
        assert more[1..] == order[1..] + [a];
        FirstOfMore(order[1..], a, id);
        AnyMeetsTail(order, id);
      } else {
        assert more[1..] == [];
      }
    }

    /** The flag a node ends up with when nodes are resolved in an order. */
    ghost function FlagIn(order: seq<NodeId>, id: NodeId): bool
      requires Valid() && id in nodes && forall a | a in order :: a in nodes
    {
      if AnyMeets(order, id) then (FirstMeets(order, id); Backed(Entry(First(order, id), {})))
      else Backed(Entry(id, {}))
    }

    /** What is remembered after some nodes were resolved in order: everything above them, with the
        flags of the order. */
    ghost predicate Remembered(memo: map<NodeId, Owner>, order: seq<NodeId>)
      requires Valid() && forall a | a in order :: a in nodes
    {
      && memo.Keys <= nodes.Keys && UpClosed(memo.Keys) && (forall a | a in order :: a in memo)
      && (forall k | k in memo :: exists i | 0 <= i < |order| :: IsAncestor(order[i], k))
      && (forall k | k in memo :: memo[k].inboundBacked == FlagIn(order, k))
    }

    lemma RememberedMeets(memo: map<NodeId, Owner>, order: seq<NodeId>, k: NodeId)
      requires Valid() && (forall a | a in order :: a in nodes) && Remembered(memo, order) && k in memo
      ensures AnyMeets(order, k)
    {
      var i :| 0 <= i < |order| && IsAncestor(order[i], k);
      var n: nat :| Ancestor(order[i], n) == k;
      MeetsAbove(order[i], n);
      assert order[i] in order;
    }

    /** A node meets what was resolved before exactly if a remembered node is above it. */
    lemma MeetsOrderOrMemo(memo: map<NodeId, Owner>, order: seq<NodeId>, a: NodeId)
      requires Valid() && a in nodes && (forall d | d in order :: d in nodes) && Remembered(memo, order)
      ensures MeetsMemo(a, memo) <==> AnyMeets(order, a)
    {
      if MeetsMemo(a, memo) {
        var n: nat :| Ancestor(a, n) in memo;
        RememberedMeets(memo, order, Ancestor(a, n));
        MeetsAbove(a, n);
        MeetsSymmetric(a, Ancestor(a, n));
        FirstIsShared(order, Ancestor(a, n), a);
      }
      if AnyMeets(order, a) {
        var d :| d in order && Meets(d, a);
        var m: nat, n: nat :| Ancestor(d, m) == Ancestor(a, n);
        AncestorsStayInside(d, memo.Keys, m);
      }
    }

    /** The flag of the next resolution is that of the order. */
    lemma NextFlag(memo: map<NodeId, Owner>, order: seq<NodeId>, a: NodeId)
      requires Valid() && a in nodes && (forall d | d in order :: d in nodes) && Remembered(memo, order)
      ensures Flag(a, memo, {}) == FlagIn(order + [a], a)
    {
      FlagIs(a, memo, {});
      MeetsOrderOrMemo(memo, order, a);
      FirstOfMore(order, a, a);
      MeetsAbove(a, 0);
      if MeetsMemo(a, memo) {
        var n: nat :| Ancestor(a, n) in memo && Flag(a, memo, {}) == memo[Ancestor(a, n)].inboundBacked;
        RememberedMeets(memo, order, Ancestor(a, n));
        MeetsAbove(a, n);
        FirstIsShared(order, a, Ancestor(a, n));
      }
    }

    /** Everything below the same node has the same flag. */
    lemma SameFlagAbove(order: seq<NodeId>, a: NodeId, k: NodeId)
      requires Valid() && a in nodes && k in nodes && (forall d | d in order :: d in nodes) && IsAncestor(a, k)
      ensures FlagIn(order + [a], k) == FlagIn(order + [a], a)
    {
      var n: nat :| Ancestor(a, n) == k;
      MeetsAbove(a, n);
      assert a in order + [a];
      FirstIsShared(order + [a], a, k);
    }

    lemma NextRemembered(memo: map<NodeId, Owner>, order: seq<NodeId>, a: NodeId, after: map<NodeId, Owner>,
                         owner: Owner)
      requires Valid() && a in nodes && (forall d | d in order :: d in nodes) && Remembered(memo, order)
      requires WalkedTo(a, {}, memo, after, owner)
      ensures Remembered(after, order + [a])
    {
      WalkedIsAbove(a, memo, {});
      WalkedIsClosed(a, memo, {});
      assert memo.Keys + {} + Walked(a, memo, {}) == after.Keys;
      NextFlag(memo, order, a);
      var more := order + [a];
      forall k | k in after
        ensures exists i | 0 <= i < |more| :: IsAncestor(more[i], k)
        ensures after[k].inboundBacked == FlagIn(more, k)
      {
        if k in memo {
          var i :| 0 <= i < |order| && IsAncestor(order[i], k);
          assert more[i] == order[i];
          RememberedMeets(memo, order, k);
          FirstOfMore(order, a, k);
        } else {
          assert IsAncestor(more[|order|], k);
          SameFlagAbove(order, a, k);
        }
      }
    }

    // ---------- when the order matters ----------

    /** A node on the cycle that a node leads to. */
    ghost predicate OnCycleOf(id: NodeId, c: NodeId) {
      IsAncestor(id, c) && Below(c, c)
    }

    lemma BelowStep(id: NodeId, visiting: set<NodeId>)
      requires Parent(id) != 0
      requires forall v | v in visiting :: Below(v, id)
      ensures forall v | v in visiting + {id} :: Below(v, Parent(id))
    {
      forall v | v in visiting + {id}
        ensures Below(v, Parent(id))
      {
        if v in visiting {
          var n: nat :| n > 0 && Ancestor(v, n) == id;
          AncestorsCompose(v, n, 1);
          assert Ancestor(v, n + 1) == Parent(id);
        } else {
          assert Ancestor(id, 1) == Parent(id);
        }
      }
    }

    lemma {:induction false} EntryIsOnTheCycle(id: NodeId, visiting: set<NodeId>)
      requires Valid() && id in nodes && visiting <= nodes.Keys && !HasRoot(id)
      requires forall v | v in visiting :: Below(v, id)
      ensures OnCycleOf(id, Entry(id, visiting))
      decreases nodes.Keys - visiting
    {
      assert Ancestor(id, 0) == id;
      if id !in visiting {
        assert Parent(Ancestor(id, 0)) != 0;
        RootOfParent(id);
        BelowStep(id, visiting);
        EntryIsOnTheCycle(Parent(id), visiting + {id});
        var e := Entry(id, visiting);
        var n: nat :| Ancestor(Parent(id), n) == e;
        AncestorOfParent(id, n);
        assert Ancestor(id, n + 1) == e;
      }
    }

    lemma {:induction false} LeastPeriod(c: NodeId, n: nat) returns (p: nat)
      requires n > 0 && Ancestor(c, n) == c
      ensures 0 < p <= n && Ancestor(c, p) == c && forall k: nat | 0 < k < p :: Ancestor(c, k) != c
      decreases n
    {
      if k: nat :| 0 < k < n && Ancestor(c, k) == c {
        p := LeastPeriod(c, k);
      } else {
        p := n;
      }
    }

    /** The nodes passed in the first steps up from a node. */
    ghost predicate FirstSteps(c: NodeId, m: nat, visiting: set<NodeId>) {
      forall v :: v in visiting <==> Passed(c, m, v)
    }

    ghost predicate Passed(c: NodeId, m: nat, v: NodeId) {
      exists j: nat | j < m :: Ancestor(c, j) == v
    }

    lemma OneStepMore(c: NodeId, m: nat, visiting: set<NodeId>)
      requires FirstSteps(c, m, visiting)
      ensures FirstSteps(c, m + 1, visiting + {Ancestor(c, m)})
    {
      forall v
        ensures Passed(c, m + 1, v) <==> Passed(c, m, v) || v == Ancestor(c, m)
      {
        if Passed(c, m + 1, v) {
          var j: nat :| j < m + 1 && Ancestor(c, j) == v;
          assert j < m ==> Passed(c, m, v);
        }
      }
    }

    lemma {:induction false} EntryFrom(c: NodeId, m: nat, n: nat, visiting: set<NodeId>)
      requires Valid() && c in nodes && Parent(c) != 0 && visiting <= nodes.Keys && Ancestor(c, m) in nodes
      requires m <= n && n > 0 && Ancestor(c, n) == c && forall k: nat | 0 < k < n :: Ancestor(c, k) != c
      requires FirstSteps(c, m, visiting)
      ensures Entry(Ancestor(c, m), visiting) == c
      decreases n - m
    {
      if m == n {
        assert Ancestor(c, 0) == c;
      } else {
        var id := Ancestor(c, m);
        if id in visiting {
          var j: nat :| j < m && Ancestor(c, j) == id;
          AncestorsCompose(c, m, n - m);
          AncestorsCompose(c, j, n - m);
        }
        CycleHasNoRoot(c, n, m);
        AncestorsCompose(c, m, 1);
        assert Ancestor(c, m + 1) == Parent(id);
        OneStepMore(c, m, visiting);
        EntryFrom(c, m + 1, n, visiting + {id});
      }
    }

    /** A walk that starts on a cycle stops where it started. */
    lemma EntryOnCycleIsItself(c: NodeId)
      requires Valid() && c in nodes && Below(c, c)
      ensures Entry(c, {}) == c
    {
      var n: nat :| n > 0 && Ancestor(c, n) == c;
      var p := LeastPeriod(c, n);
      EntryFrom(c, 0, p, {});
    }

    lemma {:induction false} CycleLeadsBack(e: NodeId, d: nat)
      requires Below(e, e)
      ensures exists t: nat :: Ancestor(Ancestor(e, d), t) == e
      decreases d
    {
      if d == 0 {
        assert Ancestor(Ancestor(e, 0), 0) == e;
      } else {
        CycleLeadsBack(e, d - 1);
        var y := Ancestor(e, d - 1);
        var t: nat :| Ancestor(y, t) == e;
        var n: nat :| n > 0 && Ancestor(e, n) == e;
        CycleHasNoRoot(e, n, d - 1);
        AncestorsCompose(e, d - 1, 1);
        assert Ancestor(e, d) == Parent(y);
        if t > 0 {
          AncestorOfParent(y, t - 1);
          assert Ancestor(Parent(y), t - 1) == e;
        } else {
          AncestorOfParent(e, n - 1);
          assert Ancestor(Parent(y), n - 1) == e;
        }
      }
    }

    /** Nodes that meet lead to the same cycle. */
    lemma CycleIsShared(f: NodeId, id: NodeId, e: NodeId)
      requires Meets(f, id) && OnCycleOf(f, e)
      ensures OnCycleOf(id, e)
    {
      var m: nat, n: nat :| Ancestor(f, m) == Ancestor(id, n);
      var p: nat :| Ancestor(f, p) == e;
      if m <= p {
        AncestorsCompose(f, m, p - m);
        AncestorsCompose(id, n, p - m);
        assert Ancestor(id, n + (p - m)) == e;
      } else {
        AncestorsCompose(f, p, m - p);
        CycleLeadsBack(e, m - p);
        var t: nat :| Ancestor(Ancestor(e, m - p), t) == e;
        AncestorsCompose(id, n, t);
        assert Ancestor(id, n + t) == e;
      }
    }

    /** An order of all nodes. */
    ghost predicate Lists(order: seq<NodeId>) {
      && (forall a :: a in order <==> a in nodes)
      && forall i, j | 0 <= i < j < |order| :: order[i] != order[j]
    }

    lemma {:induction false} SomeList(ids: set<NodeId>) returns (order: seq<NodeId>)
      ensures forall a :: a in order <==> a in ids
      ensures forall i, j | 0 <= i < j < |order| :: order[i] != order[j]
    {
      order := [];
      if ids != {} {
        var a :| a in ids;
        var rest := SomeList(ids - {a});
        order := [a] + rest;
      }
    }

    /** Whatever the order, the flag of a node that leads to a cycle is that of a node on it. */
    lemma FlagIsOfTheCycle(order: seq<NodeId>, id: NodeId) returns (c: NodeId)
      requires Valid() && id in nodes && !HasRoot(id) && Lists(order)
      ensures c in nodes && OnCycleOf(id, c) && FlagIn(order, id) == Backed(c)
    {
      var i :| 0 <= i < |order| && order[i] == id;
      MeetsAbove(id, 0);
      assert Meets(order[i], id);
      FirstMeets(order, id);
      var f := First(order, id);
      if HasRoot(f) {
        RootIsShared(f, id);
      }
      EntryIsOnTheCycle(f, {});
      c := Entry(f, {});
      CycleIsShared(f, id, c);
    }

    lemma RootIsShared(f: NodeId, id: NodeId)
      requires Meets(f, id) && HasRoot(f)
      ensures HasRoot(id)
    {
      var m: nat, n: nat :| Ancestor(f, m) == Ancestor(id, n);
      var r: nat :| Parent(Ancestor(f, r)) == 0;
      if m <= r {
        AncestorsCompose(f, m, r - m);
        AncestorsCompose(id, n, r - m);
        assert Parent(Ancestor(id, n + (r - m))) == 0;
      } else {
        AncestorsCompose(f, r, m - r);
        RootStays(Ancestor(f, r), m - r);
        assert Parent(Ancestor(id, n)) == 0;
      }
    }

    lemma CycleDecidesWhenFirst(c: NodeId, id: NodeId) returns (order: seq<NodeId>)
      requires Valid() && id in nodes && c in nodes && OnCycleOf(id, c)
      ensures Lists(order) && FlagIn(order, id) == Backed(c)
    {
      var rest := SomeList(nodes.Keys - {c});
      order := [c] + rest;
      assert order[0] == c && forall i | 0 < i < |order| :: order[i] == rest[i - 1] && order[i] in rest;
      var n: nat :| Ancestor(id, n) == c;
      MeetsAbove(id, n);
      MeetsSymmetric(id, c);
      assert Meets(order[0], id);
      EntryOnCycleIsItself(c);
    }

    /** The flag of a node that leads to a cycle is the same in every order exactly if the nodes on
        the cycle are all backed by an inbound or all not. */
    lemma OrderMattersExactlyOnMixedCycles(id: NodeId)
      requires Valid() && id in nodes && !HasRoot(id)
      ensures (forall one, two | Lists(one) && Lists(two) :: FlagIn(one, id) == FlagIn(two, id)) <==>
              (forall c, d | c in nodes && d in nodes && OnCycleOf(id, c) && OnCycleOf(id, d) :: Backed(c) == Backed(d))
    {
      if forall one, two | Lists(one) && Lists(two) :: FlagIn(one, id) == FlagIn(two, id) {
        forall c, d | c in nodes && d in nodes && OnCycleOf(id, c) && OnCycleOf(id, d)
          ensures Backed(c) == Backed(d)
        {
          var one := CycleDecidesWhenFirst(c, id);
          var two := CycleDecidesWhenFirst(d, id);
        }
      }
      if forall c, d | c in nodes && d in nodes && OnCycleOf(id, c) && OnCycleOf(id, d) :: Backed(c) == Backed(d) {
        forall one, two | Lists(one) && Lists(two)
          ensures FlagIn(one, id) == FlagIn(two, id)
        {
          var c := FlagIsOfTheCycle(one, id);
          var d := FlagIsOfTheCycle(two, id);
        }
      }
    }
  }

  /** Two nodes that are each other's parent, only the first one backed by an inbound. */
  const MIXED_CYCLE :=
    Data(map[1 := Node("s", 7, "t", "t"), 2 := Node("", 0, "", "")], map[1 := 2, 2 := 1], map[], map[], map[], map[])

  lemma OrderMatters()
    ensures MIXED_CYCLE.Valid() && MIXED_CYCLE.Lists([1, 2]) && MIXED_CYCLE.Lists([2, 1])
    ensures MIXED_CYCLE.FlagIn([1, 2], 1) && !MIXED_CYCLE.FlagIn([2, 1], 1)
  {
    var d := MIXED_CYCLE;
    assert d.Ancestor(1, 1) == d.Ancestor(2, 0) && d.Ancestor(2, 1) == d.Ancestor(1, 0);
    assert d.Ancestor(1, 2) == d.Ancestor(2, 1) == 1 && d.Ancestor(2, 2) == d.Ancestor(1, 1) == 2;
    assert d.Below(1, 1) && d.Below(2, 2);
    assert d.Meets(2, 1) && d.Ancestor(1, 0) == d.Ancestor(1, 0);
    assert d.Meets(1, 1) && [1, 2][0] == 1 && [2, 1][0] == 2;
    assert 1 in [1, 2] && 2 in [2, 1];
    d.EntryOnCycleIsItself(1);
    d.EntryOnCycleIsItself(2);
  }

  class Resolver {
    const data: Data
    var result: map<NodeId, Owner>
    /** Snapshot lookups done so far. */
    var snapshotRefs: map<Inbound, set<User>>
    var snapshotInbounds: set<Inbound>

    constructor (data: Data)
      requires data.Valid()
      ensures this.data == data && Valid() && result == map[]
    {
      this.data := data;
      result, snapshotRefs, snapshotInbounds := map[], map[], {};
    }

    ghost predicate Valid()
      reads this
    {
      && data.Valid()
      && (forall id | id in result :: id in data.nodes && data.IsOwnerOf(id, result[id]))
      && (forall i | i in snapshotRefs :: snapshotRefs[i] == if i in data.snapshots then data.snapshots[i] else {})
      && (forall i | i in snapshotRefs :: i in snapshotInbounds <==> i in data.snapshots)
    }

    /** Walks up from `alias` until it meets `id`, a root, or a node seen before. */
    method Reaches(alias: NodeId, id: NodeId) returns (found: bool)
      requires data.Valid() && alias in data.nodes
      ensures found <==> data.IsAncestor(alias, id)
    {
      var ancestor, seen: set<NodeId> := alias, {};
      ghost var n: nat := 0;
      while data.Parent(ancestor) != 0 && ancestor != id && ancestor !in seen
        invariant ancestor in data.nodes && seen <= data.nodes.Keys
        invariant ancestor == data.Ancestor(alias, n)
        invariant alias in seen + {ancestor} && id !in seen
        invariant forall s | s in seen :: data.Parent(s) in seen + {ancestor}
        decreases data.nodes.Keys - seen
      {
        seen := seen + {ancestor};
        data.AncestorsCompose(alias, n, 1);
        ancestor := data.Parent(ancestor);
        n := n + 1;
      }
      if ancestor != id {
        forall k: nat
          ensures data.Ancestor(alias, k) != id
        {
          data.AncestorsStayInside(alias, seen + {ancestor}, k);
        }
      }
      return ancestor == id;
    }

    method CollectBound(id: NodeId) returns (bound: set<User>)
      requires data.Valid() && id in data.nodes
      ensures bound == data.BoundUsers(id)
    {
      bound := data.PackagesOf(id);
      if data.Backed(id) {
        var todo := data.nodes.Keys;
        while todo != {}
          invariant todo <= data.nodes.Keys
          invariant bound == data.PackagesOf(id) +
            set alias, u | alias in data.nodes && alias !in todo && data.Alias(alias, id) &&
            u in data.PackagesOf(alias) :: u
          decreases todo
        {
          var alias :| alias in todo;
          todo := todo - {alias};
          var above := Reaches(alias, id);
          if above || (data.nodes[alias].serverName == data.nodes[id].serverName &&
                       data.nodes[alias].baseTag == data.nodes[id].baseTag) {
            bound := bound + data.PackagesOf(alias);
          }
        }
      }
    }

    /** The users with a credential on the node's inbound, looking a snapshot up at most once. */
    method FindUsers(id: NodeId) returns (users: set<User>, key: Inbound)
      requires Valid() && id in data.nodes
      modifies this`snapshotRefs, this`snapshotInbounds
      ensures Valid() && users == data.CredentialUsers(id) && key == data.OwnInbound(id)
      ensures data.Backed(id) && users == {} ==> key in snapshotRefs
    {
      var node := data.nodes[id];
      key := Inbound(node.server, node.tag);
      users := data.CredentialsOn(key);
      if users == {} && node.tag != node.baseTag {
        key := Inbound(node.server, node.baseTag);
        users := data.CredentialsOn(key);
      }
      if data.Backed(id) && users == {} {
        if key !in snapshotRefs {
          if key in data.snapshots {
            snapshotRefs := snapshotRefs[key := data.snapshots[key]];
            snapshotInbounds := snapshotInbounds + {key};
          } else {
            snapshotRefs := snapshotRefs[key := {}];
            snapshotInbounds := snapshotInbounds - {key};
          }
        }
        users := snapshotRefs[key];
      }
    }

    /** Decides a node without a parent. */
    method ResolveRoot(id: NodeId) returns (owner: Owner)
      requires Valid() && id in data.nodes
      modifies this`snapshotRefs, this`snapshotInbounds
      ensures Valid() && owner == data.RootOwner(id)
      ensures data.ByTheRules(id, owner)
    {
      data.RootOwnerByTheRules(id);
      var users, key := FindUsers(id);
      owner := Owner({}, NoSource, false, false, data.Backed(id), 0);
      if data.Backed(id) && users != {} {
        var ordinary := set u | u in users && !data.IsAdmin(u);
        owner := owner.(users := ordinary);
        if ordinary == {} {
          owner := owner.(users := users, adminOnly := true);
        }
        owner := owner.(source := Credential, shared := !owner.adminOnly && |owner.users| > 1);
      } else {
        var bound := CollectBound(id);
        if |bound| == 1 || (data.Backed(id) && |bound| > 1) {
          owner := owner.(users := bound, source := FromPackage, shared := |bound| > 1);
        } else if data.Backed(id) && key in snapshotInbounds {
          owner := owner.(users := data.Admins(), adminOnly := true, source := DefaultAdmin);
        }
      }
    }

    /** The memoised recursion.  `visiting` holds the nodes below `id` that wait for it. */
    method Resolve(id: NodeId, visiting: set<NodeId>) returns (owner: Owner)
      requires Valid() && id in data.nodes
      requires visiting <= data.nodes.Keys
      requires forall v | v in visiting :: data.Below(v, id)
      modifies this
      ensures Valid() && data.IsOwnerOf(id, owner)
      ensures data.WalkedTo(id, visiting, old(result), result, owner)
      decreases data.nodes.Keys - visiting
    {
      if id in result {
        return result[id];
      }
      owner := Owner({}, NoSource, false, false, data.Backed(id), 0);
      if id in visiting {
        OnCycle(id, owner);
        return;
      }
      var parent := data.Parent(id);
      if parent != 0 {
        ExtendVisiting(id, visiting);
        owner := Resolve(parent, visiting + {id});
        data.WalkOn(id, visiting, old(result), result, owner);
        data.OwnerFromParent(id, owner);
        owner := owner.(parent := parent);
      } else {
        owner := ResolveRoot(id);
        data.WalkEnds(id, visiting, old(result), owner);
        data.OwnerOfRoot(id, owner);
      }
      Remember(id, owner);
    }

    method Remember(id: NodeId, owner: Owner)
      requires Valid() && id in data.nodes && data.IsOwnerOf(id, owner)
      modifies this`result
      ensures Valid() && result == old(result)[id := owner]
    {
      result := result[id := owner];
    }

    lemma OnCycle(id: NodeId, owner: Owner)
      requires data.Valid() && id in data.nodes
      requires data.Below(id, id)
      requires owner == Owner({}, NoSource, false, false, data.Backed(id), 0)
      ensures data.IsOwnerOf(id, owner)
    {
      var n: nat :| n > 0 && data.Ancestor(id, n) == id;
      forall k: nat
        ensures data.Parent(data.Ancestor(id, k)) != 0
      {
        data.CycleHasNoRoot(id, n, k);
      }
      assert data.Ancestor(id, 0) in data.nodes;
    }

    lemma ExtendVisiting(id: NodeId, visiting: set<NodeId>)
      requires data.Parent(id) != 0
      requires forall v | v in visiting :: data.Below(v, id)
      ensures forall v | v in visiting + {id} :: data.Below(v, data.Parent(id))
    {
      data.BelowStep(id, visiting);
    }

    ghost predicate ParentsNoted()
      reads this
    {
      forall k | k in result :: result[k].parent == data.Parent(k)
    }

    method ResolveListed(order: seq<NodeId>)
      requires Valid() && result == map[] && forall a | a in order :: a in data.nodes
      modifies this
      ensures Valid() && (forall a | a in order :: a in data.nodes)
      ensures data.Remembered(result, order) && ParentsNoted()
    {
      for i := 0 to |order|
        invariant Valid() && ParentsNoted()
        invariant data.Remembered(result, order[..i])
      {
        assert order[..i + 1] == order[..i] + [order[i]];
        ResolveNext(order[i], order[..i]);
      }
      assert order[..|order|] == order;
    }

    method ResolveNext(id: NodeId, ghost before: seq<NodeId>)
      requires Valid() && ParentsNoted() && id in data.nodes && forall a | a in before :: a in data.nodes
      requires data.Remembered(result, before)
      modifies this
      ensures Valid() && ParentsNoted() && data.Remembered(result, before + [id])
    {
      ghost var memo := result;
      var owner := Resolve(id, {});
      data.NextRemembered(memo, before, id, result, owner);
    }

    /** Resolves every node, in the order in which they are listed. */
    method ResolveAll(order: seq<NodeId>)
      requires Valid() && result == map[] && data.Lists(order)
      modifies this
      ensures Valid() && result.Keys == data.nodes.Keys
      ensures forall id | id in data.nodes && data.HasRoot(id) ::
        data.Root(id) in data.nodes && result[id].parent == data.Parent(id) &&
        data.ByTheRules(data.Root(id), result[id].(parent := 0))
      ensures forall id | id in data.nodes && !data.HasRoot(id) ::
        result[id] == Owner({}, NoSource, false, false, data.FlagIn(order, id), data.Parent(id))
    {
      ResolveListed(order);
      forall id | id in data.nodes && data.HasRoot(id)
        ensures data.Root(id) in data.nodes && data.ByTheRules(data.Root(id), result[id].(parent := 0))
      {
        RootIsANode(id);
        data.RootOwnerByTheRules(data.Root(id));
        assert result[id].(parent := 0) == data.RootOwner(data.Root(id));
      }
    }

    lemma RootIsANode(id: NodeId)
      requires data.Valid() && id in data.nodes && data.HasRoot(id)
      ensures data.Root(id) in data.nodes
    {
      var n: nat :| data.Parent(data.Ancestor(id, n)) == 0 && data.Root(id) == data.Ancestor(id, n);
      data.AncestorsAreNodes(id, n);
    }
  }
}
