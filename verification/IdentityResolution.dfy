/** Which management user owns each protocol identity of an inbound.

    The program builds the answer in several passes that edit shared lists in place:
    relations from bindings and inbound owners first, then manual assignments for what is
    left, removing identities that more than one user claims.  The passes compute a plain
    rule, `OwnerOf`. */
module IdentityResolution {

  import opened Basics

  type User = string
  type Identity = string

  datatype Source = Binding | InboundOwner | Manual

  /** An empty identity stands for the whole port. */
  datatype Relation = Relation(user: User, identity: Identity, source: Source)

  type Lists = map<User, seq<Identity>>

  // ---------- the plain rule ----------

  function Officials(relations: seq<Relation>): (official: seq<Relation>)
    ensures forall r :: r in official <==> r in relations && r.source != Manual
  {
    if relations == [] then []
    else
      assert relations == relations[..|relations| - 1] + [relations[|relations| - 1]];
      Officials(relations[..|relations| - 1]) +
      if relations[|relations| - 1].source != Manual then [relations[|relations| - 1]] else []
  }

  function Manuals(relations: seq<Relation>): (manual: seq<Relation>)
    ensures forall r :: r in manual <==> r in relations && r.source == Manual
  {
    if relations == [] then []
    else
      assert relations == relations[..|relations| - 1] + [relations[|relations| - 1]];
      Manuals(relations[..|relations| - 1]) +
      if relations[|relations| - 1].source == Manual then [relations[|relations| - 1]] else []
  }

  function UsersOf(relations: seq<Relation>): set<User> {
    set r | r in relations :: r.user
  }

  predicate HasPortRelation(relations: seq<Relation>) {
    exists r :: r in relations && r.identity == ""
  }

  /** Users with a relation to this very identity. */
  function Claimants(relations: seq<Relation>, i: Identity): set<User> {
    set r | r in relations && r.identity == i && i != "" :: r.user
  }

  ghost function Sole(users: set<User>): Option<User> {
    if |users| == 1 then (var u :| u in users; Some(u)) else None
  }

  /** One official user with a relation to the port owns everything on it.  Otherwise an
      identity goes to the only official user who claims it, failing that to the only user
      who claims it manually.  Without official relations, one user with a manual port
      assignment owns everything, and else an identity goes to its only claimant. */
  ghost function OwnerOf(relations: seq<Relation>, i: Identity): Option<User> {
    var official, manual := Officials(relations), Manuals(relations);
    if official != [] then
      if |UsersOf(official)| == 1 && HasPortRelation(official) then Sole(UsersOf(official))
      else if Sole(Claimants(official, i)).Some? then Sole(Claimants(official, i))
      else Sole(Claimants(manual, i))
    else
      if |UsersOf(manual)| == 1 && HasPortRelation(manual) then Sole(UsersOf(manual))
      else Sole(Claimants(manual, i))
  }

  /** The relations for which identities without an owner are listed. */
  predicate ListsUnassigned(relations: seq<Relation>) {
    Officials(relations) != [] || |UsersOf(relations)| == 1
  }

  // ---------- what the rule means ----------

  /** The relations that count first: the official ones, or, if there are none, the manual ones. */
  ghost predicate CountsFirst(relations: seq<Relation>, r: Relation) {
    r in relations && (r.source == Manual ==> forall other | other in relations :: other.source == Manual)
  }

  /** All relations that count first are the user's, and one of them is to the whole port. */
  ghost predicate HasWholePort(relations: seq<Relation>, u: User) {
    (forall r | CountsFirst(relations, r) :: r.user == u) && exists r :: CountsFirst(relations, r) && r.identity == ""
  }

  /** The user is the only one whom a relation that counts first names for the identity. */
  ghost predicate NamedFirst(relations: seq<Relation>, i: Identity, u: User) {
    (exists r :: CountsFirst(relations, r) && r.identity == i && r.user == u) &&
    forall r | CountsFirst(relations, r) && r.identity == i :: r.user == u
  }

  /** The user is the only one whom a manual relation names for the identity. */
  ghost predicate NamedManually(relations: seq<Relation>, i: Identity, u: User) {
    (exists r :: r in relations && r.source == Manual && r.identity == i && r.user == u) &&
    forall r | r in relations && r.source == Manual && r.identity == i :: r.user == u
  }

  /** One user with the whole port has everything on it; otherwise an identity is that of the only
      user named for it, officially first and manually next. */
  ghost predicate IsOwner(relations: seq<Relation>, i: Identity, u: User) {
    if exists v :: HasWholePort(relations, v) then HasWholePort(relations, u)
    else if exists v :: i != "" && NamedFirst(relations, i, v) then NamedFirst(relations, i, u)
    else i != "" && NamedManually(relations, i, u)
  }

  lemma CountsFirstIs(relations: seq<Relation>, r: Relation)
    ensures CountsFirst(relations, r) <==>
            r in if Officials(relations) != [] then Officials(relations) else Manuals(relations)
  {
    if Officials(relations) != [] {
      assert Officials(relations)[0] in Officials(relations);
    } else if r in relations {
      assert r !in Officials(relations);
      forall other | other in relations
        ensures other.source == Manual
      {
        assert other !in Officials(relations);
      }
    }
  }

  lemma SoleMeans(users: set<User>, u: User)
    ensures Sole(users) == Some(u) <==> u in users && forall v | v in users :: v == u
  {
    if u in users && forall v | v in users :: v == u {
      assert users == {u};
    } else if |users| == 1 {
      SoleOf(users, u);
    }
  }

  lemma OwnerOfMeans(relations: seq<Relation>, i: Identity, u: User)
    ensures OwnerOf(relations, i) == Some(u) <==> IsOwner(relations, i, u)
  {
    var official, manual := Officials(relations), Manuals(relations);
    var first := if official != [] then official else manual;
    forall r
      ensures CountsFirst(relations, r) <==> r in first
    {
      CountsFirstIs(relations, r);
    }
    forall v
      ensures HasWholePort(relations, v) <==> HasPortRelation(first) && Sole(UsersOf(first)) == Some(v)
    {
      WholePortIs(relations, first, v);
    }
    forall v | i != ""
      ensures (NamedFirst(relations, i, v) <==> Sole(Claimants(first, i)) == Some(v)) &&
              (NamedManually(relations, i, v) <==> Sole(Claimants(manual, i)) == Some(v))
    {
      NamedIs(relations, first, manual, i, v);
    }
  }

  lemma WholePortIs(relations: seq<Relation>, first: seq<Relation>, v: User)
    requires forall r :: CountsFirst(relations, r) <==> r in first
    ensures HasWholePort(relations, v) <==> HasPortRelation(first) && Sole(UsersOf(first)) == Some(v)
  {
    SoleMeans(UsersOf(first), v);
    assert forall r | r in first :: r.user in UsersOf(first);
    if HasPortRelation(first) && Sole(UsersOf(first)) == Some(v) {
      var r :| r in first && r.identity == "";
      assert CountsFirst(relations, r);
    }
  }

  lemma NamedIs(relations: seq<Relation>, first: seq<Relation>, manual: seq<Relation>, i: Identity, v: User)
    requires forall r :: CountsFirst(relations, r) <==> r in first
    requires manual == Manuals(relations) && i != ""
    ensures NamedFirst(relations, i, v) <==> Sole(Claimants(first, i)) == Some(v)
    ensures NamedManually(relations, i, v) <==> Sole(Claimants(manual, i)) == Some(v)
  {
    ClaimantsAre(first, i, v);
    ClaimantsAre(manual, i, v);
  }

  lemma ClaimantsAre(relations: seq<Relation>, i: Identity, v: User)
    requires i != ""
    ensures Sole(Claimants(relations, i)) == Some(v) <==>
            (exists r :: r in relations && r.identity == i && r.user == v) &&
            forall r | r in relations && r.identity == i :: r.user == v
  {
    SoleMeans(Claimants(relations, i), v);
    assert forall r | r in relations && r.identity == i :: r.user in Claimants(relations, i);
  }

  /** Relations of a single user. */
  ghost predicate AllOf(relations: seq<Relation>, u: User) {
    relations != [] && forall r | r in relations :: r.user == u
  }

  lemma OneUserMeans(relations: seq<Relation>)
    ensures |UsersOf(relations)| == 1 <==> exists u :: AllOf(relations, u)
  {
    assert forall r | r in relations :: r.user in UsersOf(relations);
    if u :| AllOf(relations, u) {
      assert relations[0] in relations;
      assert UsersOf(relations) == {u};
    }
    if |UsersOf(relations)| == 1 {
      var u :| u in UsersOf(relations);
      SoleMeans(UsersOf(relations), u);
      assert Sole(UsersOf(relations)) == Some(u) by {
        SoleOf(UsersOf(relations), u);
        assert |UsersOf(relations) - {u}| == 0;
      }
      assert AllOf(relations, u);
    }
  }

  lemma ListsUnassignedMeans(relations: seq<Relation>)
    ensures ListsUnassigned(relations) <==>
            (exists r :: r in relations && r.source != Manual) || exists u :: AllOf(relations, u)
  {
    OneUserMeans(relations);
    if Officials(relations) != [] {
      assert Officials(relations)[0] in Officials(relations);
    }
  }

  // ---------- lists ----------

  ghost predicate Owns(byUser: Lists, u: User, i: Identity) {
    u in byUser && i in byUser[u]
  }

  /** No identity has two owners. */
  ghost predicate Functional(byUser: Lists) {
    forall u, v, i | Owns(byUser, u, i) && Owns(byUser, v, i) :: u == v
  }

  ghost predicate NoRepeats(values: seq<Identity>) {
    forall i, j | 0 <= i < j < |values| :: values[i] != values[j]
  }

  ghost predicate NoRepeatsIn(byUser: Lists) {
    forall u | u in byUser :: NoRepeats(byUser[u])
  }

  function Values(byUser: Lists, u: User): seq<Identity> {
    if u in byUser then byUser[u] else []
  }

  method AppendUnique(values: seq<Identity>, value: Identity) returns (result: seq<Identity>)
    ensures forall x :: x in result <==> x in values || x == value
    ensures NoRepeats(values) ==> NoRepeats(result)
    ensures values <= result
  {
    for i := 0 to |values|
      invariant forall j | 0 <= j < i :: values[j] != value
    {
      if values[i] == value {
        return values;
      }
    }
    return values + [value];
  }

  /** The values without one of them, in order. */
  function Without(values: seq<Identity>, unwanted: Identity): seq<Identity> {
    if values == [] then []
    else
      var last := values[|values| - 1];
      Without(values[..|values| - 1], unwanted) + if last == unwanted then [] else [last]
  }

  lemma {:induction false} WithoutCounts(values: seq<Identity>, unwanted: Identity, x: Identity)
    ensures multiset(Without(values, unwanted))[x] == if x == unwanted then 0 else multiset(values)[x]
  {
    if values != [] {
      WithoutCounts(values[..|values| - 1], unwanted, x);
      assert values == values[..|values| - 1] + [values[|values| - 1]];
    }
  }

  lemma {:induction false} WithoutKeeps(values: seq<Identity>, unwanted: Identity)
    ensures forall x :: x in Without(values, unwanted) <==> x in values && x != unwanted
    ensures NoRepeats(values) ==> NoRepeats(Without(values, unwanted))
  {
    if values != [] {
      var init, last := values[..|values| - 1], values[|values| - 1];
      WithoutKeeps(init, unwanted);
      assert values == init + [last];
      if NoRepeats(values) {
        assert NoRepeats(init) && last !in init;
      }
    }
  }

  method RemoveString(values: seq<Identity>, unwanted: Identity) returns (result: seq<Identity>)
    ensures result == Without(values, unwanted)
    ensures forall x :: multiset(result)[x] == if x == unwanted then 0 else multiset(values)[x]
    ensures forall x :: x in result <==> x in values && x != unwanted
    ensures NoRepeats(values) ==> NoRepeats(result)
  {
    result := [];
    for i := 0 to |values|
      invariant result == Without(values[..i], unwanted)
    {
      assert values[..i + 1][..i] == values[..i];
      if values[i] != unwanted {
        result := result + [values[i]];
      }
    }
    assert values[..|values|] == values;
    WithoutKeeps(values, unwanted);
    forall x
      ensures multiset(result)[x] == if x == unwanted then 0 else multiset(values)[x]
    {
      WithoutCounts(values, unwanted, x);
    }
  }

  /** Everyone whose list contains the identity. */
  method OwnersIn(byUser: Lists, i: Identity) returns (owners: set<User>)
    ensures forall u :: u in owners <==> Owns(byUser, u, i)
  {
    owners := {};
    var todo := byUser.Keys;
    while todo != {}
      invariant todo <= byUser.Keys
      invariant forall u :: u in owners <==> u !in todo && Owns(byUser, u, i)
      decreases todo
    {
      var u :| u in todo;
      todo := todo - {u};
      if i in byUser[u] {
        owners := owners + {u};
      }
    }
  }

  /** Takes an identity out of the lists of all given users. */
  method RemoveFrom(byUser: Lists, owners: set<User>, i: Identity) returns (result: Lists)
    requires owners <= byUser.Keys
    ensures forall u, x :: Owns(result, u, x) <==> Owns(byUser, u, x) && !(u in owners && x == i)
    ensures NoRepeatsIn(byUser) ==> NoRepeatsIn(result)
    ensures result.Keys == byUser.Keys
  {
    result := byUser;
    var todo := owners;
    while todo != {}
      invariant todo <= owners && result.Keys == byUser.Keys
      invariant forall u, x :: Owns(result, u, x) <==> Owns(byUser, u, x) && !(u in owners - todo && x == i)
      invariant NoRepeatsIn(byUser) ==> NoRepeatsIn(result)
      decreases todo
    {
      var u :| u in todo;
      todo := todo - {u};
      var kept := RemoveString(result[u], i);
      result := result[u := kept];
    }
  }

  /** The owners as the program lists them: one entry for every matching list entry. */
  method ListOwners(byUser: Lists, i: Identity) returns (owners: seq<User>)
    requires NoRepeatsIn(byUser)
    ensures forall u :: u in owners <==> Owns(byUser, u, i)
    ensures NoRepeats(owners)
  {
    owners := [];
    var todo := byUser.Keys;
    while todo != {}
      invariant todo <= byUser.Keys
      invariant forall u :: u in owners <==> u !in todo && Owns(byUser, u, i)
      invariant NoRepeats(owners)
      decreases todo
    {
      var u :| u in todo;
      todo := todo - {u};
      ghost var before := owners;
      var values := byUser[u];
      for k := 0 to |values|
        invariant owners == before + if i in values[..k] then [u] else []
      {
        if values[k] == i {
          assert i !in values[..k];
          owners := owners + [u];
        }
      }
      assert values[..|values|] == values;
    }
  }

  lemma SoleOf(users: set<User>, u: User)
    ensures Sole(users) == Some(u) <==> users == {u}
  {
    if Sole(users) == Some(u) {
      var v :| v in users;
      assert |users - {v}| == 0;
      assert users == {v};
    }
  }

  lemma {:induction false} NoRepeatsSize(values: seq<string>)
    requires NoRepeats(values)
    ensures |set v | v in values| == |values|
  {
    if values != [] {
      var rest, last := values[..|values| - 1], values[|values| - 1];
      NoRepeatsSize(rest);
      assert values == rest + [last];
      assert (set v | v in values) == (set v | v in rest) + {last};
    }
  }

  lemma SoleOwner(owners: seq<User>, users: set<User>)
    requires NoRepeats(owners) && forall u :: u in owners <==> u in users
    ensures |owners| == 1 <==> Sole(users).Some?
  {
    NoRepeatsSize(owners);
    assert users == set u | u in owners;
  }

  // ---------- the passes ----------

  /** Exactly the listed identities that a user has a relation to. */
  ghost predicate ListsClaims(byUser: Lists, relations: seq<Relation>, identities: seq<Identity>) {
    forall u, i :: Owns(byUser, u, i) <==> i in identities && u in Claimants(relations, i)
  }

  /** Only listed identities; a port without identities may be owned as the empty one. */
  ghost predicate Within(byUser: Lists, identities: seq<Identity>) {
    forall u, i :: Owns(byUser, u, i) ==> i in identities || (identities == [] && i == "")
  }

  /** The official users' part of the rule. */
  ghost function OfficialOwner(official: seq<Relation>, i: Identity): Option<User> {
    if |UsersOf(official)| == 1 && HasPortRelation(official) then Sole(UsersOf(official))
    else Sole(Claimants(official, i))
  }

  /** The rule when there are official relations. */
  ghost function SplitOwner(official: seq<Relation>, manual: seq<Relation>, i: Identity): Option<User> {
    if OfficialOwner(official, i).Some? then OfficialOwner(official, i) else Sole(Claimants(manual, i))
  }

  /** The owner once the first `k` manual relations have been looked at. */
  ghost function PartialOwner(official: seq<Relation>, manual: seq<Relation>, k: nat, i: Identity): Option<User>
    requires k <= |manual|
  {
    if OfficialOwner(official, i).Some? then OfficialOwner(official, i)
    else if Claimants(manual[..k], i) != {} then Sole(Claimants(manual, i))
    else None
  }

  ghost predicate PartialStep(official: seq<Relation>, manual: seq<Relation>, k: nat, i: Identity)
    requires k < |manual|
  {
    PartialOwner(official, manual, k + 1, i) ==
      if manual[k].identity == i && i != "" && PartialOwner(official, manual, k, i) == None
        then Sole(Claimants(manual, i))
      else PartialOwner(official, manual, k, i)
  }

  class Resolution {
    var byUser: Lists
    var unassigned: seq<Identity>

    constructor ()
      ensures byUser == map[] && unassigned == []
    {
      byUser, unassigned := map[], [];
    }

    /** Lists every related identity that exists on the port. */
    method ListClaims(relations: seq<Relation>, identities: seq<Identity>)
      requires byUser == map[]
      modifies this`byUser
      ensures ListsClaims(byUser, relations, identities) && NoRepeatsIn(byUser)
      ensures byUser.Keys <= UsersOf(relations)
    {
      for k := 0 to |relations|
        invariant ListsClaims(byUser, relations[..k], identities) && NoRepeatsIn(byUser)
        invariant byUser.Keys <= UsersOf(relations)
      {
        var r := relations[k];
        ghost var before := byUser;
        if r.identity != "" && r.identity in identities {
          var values := AppendUnique(Values(byUser, r.user), r.identity);
          byUser := byUser[r.user := values];
        }
        MoreClaimants(relations, k);
        assert forall u, i :: Owns(byUser, u, i) <==>
          Owns(before, u, i) || (u == r.user && i == r.identity && i != "" && i in identities);
      }
      assert relations[..|relations|] == relations;
    }

    lemma MoreClaimants(relations: seq<Relation>, k: nat)
      requires k < |relations|
      ensures forall u, i :: u in Claimants(relations[..k + 1], i) <==>
        u in Claimants(relations[..k], i) || (relations[k].user == u && relations[k].identity == i && i != "")
    {
      assert relations[..k + 1] == relations[..k] + [relations[k]];
      forall u, i | u in Claimants(relations[..k], i)
        ensures u in Claimants(relations[..k + 1], i)
      {
        var r :| r in relations[..k] && r.identity == i && r.user == u;
        assert r in relations[..k + 1];
      }
      assert relations[k] in relations[..k + 1];
    }

    /** Gives every identity of the port to one user. */
    method AssignAll(user: User, identities: seq<Identity>)
      requires NoRepeatsIn(byUser)
      modifies this`byUser
      ensures NoRepeatsIn(byUser)
      ensures forall u, i :: Owns(byUser, u, i) <==>
        Owns(old(byUser), u, i) || (u == user && (i in identities || (identities == [] && i == "")))
    {
      for k := 0 to |identities|
        invariant NoRepeatsIn(byUser)
        invariant forall u, i :: Owns(byUser, u, i) <==> Owns(old(byUser), u, i) || (u == user && i in identities[..k])
      {
        var values := AppendUnique(Values(byUser, user), identities[k]);
        byUser := byUser[user := values];
      }
      assert identities[..|identities|] == identities;
      if |identities| == 0 {
        var values := AppendUnique(Values(byUser, user), "");
        byUser := byUser[user := values];
      }
    }

    /** Binding and inbound-owner relations. */
    method ResolveAuthoritative(official: seq<Relation>, identities: seq<Identity>)
      requires official != [] && byUser == map[] && unassigned == []
      modifies this
      ensures NoRepeatsIn(byUser) && Within(byUser, identities)
      ensures forall u, i | i in identities :: Owns(byUser, u, i) <==> OfficialOwner(official, i) == Some(u)
      ensures forall i :: i in unassigned ==> i in identities && OfficialOwner(official, i) == None
      ensures Functional(byUser)
    {
      ListClaims(official, identities);
      var users := UsersOf(official);
      if |users| == 1 && HasPortRelation(official) {
        var username :| username in users;
        SoleOf(users, username);
        assert |users - {username}| == 0 && users == {username};
        AssignAll(username, identities);
        return;
      }
      if |identities| == 0 {
        return;
      }
      RemoveAmbiguous(official, identities);
    }

    /** Takes out every identity that does not have exactly one owner. */
    method RemoveAmbiguous(ghost official: seq<Relation>, identities: seq<Identity>)
      requires ListsClaims(byUser, official, identities) && NoRepeatsIn(byUser) && unassigned == []
      modifies this
      ensures NoRepeatsIn(byUser) && Within(byUser, identities)
      ensures forall u, i :: Owns(byUser, u, i) <==> i in identities && Sole(Claimants(official, i)) == Some(u)
      ensures forall i :: i in unassigned <==> i in identities && Sole(Claimants(official, i)) == None
    {
      for k := 0 to |identities|
        invariant NoRepeatsIn(byUser) && Within(byUser, identities)
        invariant forall u, i :: Owns(byUser, u, i) <==>
          i in identities &&
          (if i in identities[..k] then Sole(Claimants(official, i)) == Some(u) else u in Claimants(official, i))
        invariant forall i :: i in unassigned <==> i in identities[..k] && Sole(Claimants(official, i)) == None
      {
        var identity := identities[k];
        var owners := OwnersIn(byUser, identity);
        OwnersAreClaimants(byUser, official, identities, k, owners);
        if |owners| != 1 {
          var listed := AppendUnique(unassigned, identity);
          unassigned := listed;
          var rest := RemoveFrom(byUser, owners, identity);
          byUser := rest;
        }
      }
      assert identities[..|identities|] == identities;
    }

    lemma OwnersAreClaimants(byUser: Lists, relations: seq<Relation>, identities: seq<Identity>, k: nat,
                             owners: set<User>)
      requires k < |identities|
      requires forall u, i :: Owns(byUser, u, i) <==>
        i in identities &&
        (if i in identities[..k] then Sole(Claimants(relations, i)) == Some(u) else u in Claimants(relations, i))
      requires forall u :: u in owners <==> Owns(byUser, u, identities[k])
      ensures Sole(owners) == Sole(Claimants(relations, identities[k]))
      ensures forall u :: u in owners && |owners| == 1 <==> Sole(Claimants(relations, identities[k])) == Some(u)
    {
      var claimants := Claimants(relations, identities[k]);
      forall u
        ensures Sole(claimants) == Some(u) <==> claimants == {u}
        ensures Sole(owners) == Some(u) <==> owners == {u}
      {
        SoleOf(claimants, u);
        SoleOf(owners, u);
      }
      if identities[k] in identities[..k] {
        if Sole(claimants).Some? {
          assert owners == {Sole(claimants).value};
        } else {
          assert owners == {};
        }
      } else {
        assert owners == claimants;
      }
      if |owners| == 1 {
        var u :| u in owners;
        assert |owners - {u}| == 0 && owners == {u};
      }
    }

    /** Adds an identity to a user's list and takes it off the unassigned ones. */
    method TakeIdentity(user: User, identity: Identity)
      requires NoRepeatsIn(byUser)
      modifies this
      ensures NoRepeatsIn(byUser)
      ensures forall u, i :: Owns(byUser, u, i) <==> Owns(old(byUser), u, i) || (u == user && i == identity)
      ensures forall i :: i in unassigned <==> i in old(unassigned) && i != identity
    {
      var values := AppendUnique(Values(byUser, user), identity);
      byUser := byUser[user := values];
      var rest := RemoveString(unassigned, identity);
      unassigned := rest;
    }

    lemma OneMoreManual(official: seq<Relation>, manual: seq<Relation>, k: nat, i: Identity)
      requires k < |manual|
      ensures PartialStep(official, manual, k, i)
    {
      MoreClaimants(manual, k);
      assert Claimants(manual[..k + 1], i) == Claimants(manual[..k], i) +
             if manual[k].identity == i && i != "" then {manual[k].user} else {};
    }

    ghost predicate IsFree(i: Identity)
      reads this`byUser
    {
      forall u :: !Owns(byUser, u, i)
    }

    /** One manual relation: its identity goes to its only manual claimant if it is free. */
    method TakeIfSole(manual: seq<Relation>, r: Relation, identities: seq<Identity>)
      requires NoRepeatsIn(byUser) && r in manual
      modifies this
      ensures NoRepeatsIn(byUser)
      ensures forall u, i :: Owns(byUser, u, i) <==>
        Owns(old(byUser), u, i)
        || (i == r.identity && i != "" && i in identities && old(IsFree(i)) && Sole(Claimants(manual, i)) == Some(u))
      ensures forall i :: i in unassigned <==>
        i in old(unassigned)
        && !(i == r.identity && i != "" && i in identities && old(IsFree(i)) && Sole(Claimants(manual, i)).Some?)
      ensures identities == [] ==> byUser == old(byUser)
    {
      if r.identity == "" || r.identity !in identities {
        return;
      }
      var mapped := OwnersIn(byUser, r.identity);
      assert IsFree(r.identity) <==> mapped == {};
      if mapped != {} {
        return;
      }
      var owners := Claimants(manual, r.identity);
      assert r.user in owners;
      forall u ensures Sole(owners) == Some(u) <==> owners == {u} { SoleOf(owners, u); }
      if |owners| == 1 {
        assert |owners - {r.user}| == 0 && owners == {r.user};
        TakeIdentity(r.user, r.identity);
      }
    }

    /** Identities that nobody owns are listed as unassigned. */
    method ListUnassigned(identities: seq<Identity>)
      modifies this`unassigned
      ensures forall i :: i in unassigned <==> i in old(unassigned) || (i in identities && IsFree(i))
    {
      for k := 0 to |identities|
        invariant forall i :: i in unassigned <==> i in old(unassigned) || (i in identities[..k] && IsFree(i))
      {
        var mapped := OwnersIn(byUser, identities[k]);
        assert IsFree(identities[k]) <==> mapped == {};
        if mapped == {} {
          var listed := AppendUnique(unassigned, identities[k]);
          unassigned := listed;
        }
      }
      assert identities[..|identities|] == identities;
    }

    /** Manual assignments for identities that nobody owns yet; the rest stays unassigned. */
    method ResolveRemainingManual(ghost official: seq<Relation>, manual: seq<Relation>, identities: seq<Identity>)
      requires NoRepeatsIn(byUser) && Within(byUser, identities)
      requires forall u, i | i in identities :: Owns(byUser, u, i) <==> OfficialOwner(official, i) == Some(u)
      requires forall i :: i in unassigned ==> i in identities && OfficialOwner(official, i) == None
      modifies this
      ensures NoRepeatsIn(byUser) && Within(byUser, identities)
      ensures forall u, i | i in identities :: Owns(byUser, u, i) <==> SplitOwner(official, manual, i) == Some(u)
      ensures forall i :: i in unassigned <==> i in identities && SplitOwner(official, manual, i) == None
      ensures identities == [] ==> byUser == old(byUser)
    {
      for k := 0 to |manual|
        invariant NoRepeatsIn(byUser) && Within(byUser, identities)
        invariant forall u, i | i in identities ::
                    Owns(byUser, u, i) <==> PartialOwner(official, manual, k, i) == Some(u)
        invariant forall i :: i in unassigned ==> i in identities && PartialOwner(official, manual, k, i) == None
        invariant identities == [] ==> byUser == old(byUser)
      {
        forall i | i in identities
          ensures IsFree(i) <==> PartialOwner(official, manual, k, i) == None
          ensures PartialStep(official, manual, k, i)
        {
          OneMoreManual(official, manual, k, i);
          if PartialOwner(official, manual, k, i).Some? {
            assert Owns(byUser, PartialOwner(official, manual, k, i).value, i);
          }
        }
        TakeIfSole(manual, manual[k], identities);
      }
      AllManual(official, manual, identities);
      forall i | i in identities
        ensures IsFree(i) <==> SplitOwner(official, manual, i) == None
      {
        if SplitOwner(official, manual, i).Some? {
          assert Owns(byUser, SplitOwner(official, manual, i).value, i);
        }
      }
      ListUnassigned(identities);
    }

    lemma AllManual(official: seq<Relation>, manual: seq<Relation>, identities: seq<Identity>)
      ensures forall i :: PartialOwner(official, manual, |manual|, i) == SplitOwner(official, manual, i)
    {
      assert manual[..|manual|] == manual;
      forall i | Claimants(manual, i) == {} ensures Sole(Claimants(manual, i)) == None { }
    }

    /** One user with manual identity assignments only keeps just those. */
    lemma OnlyUser(manual: seq<Relation>, username: User)
      requires UsersOf(manual) == {username}
      ensures forall u, i :: u in Claimants(manual, i) <==> Sole(Claimants(manual, i)) == Some(u)
    {
      forall u, i
        ensures u in Claimants(manual, i) <==> Sole(Claimants(manual, i)) == Some(u)
      {
        SoleOf(Claimants(manual, i), u);
        assert forall v :: v in Claimants(manual, i) ==> v in UsersOf(manual);
        if u in Claimants(manual, i) {
          assert Claimants(manual, i) == {u};
        }
      }
    }

    /** Takes out every identity without exactly one manual owner. */
    method DropAmbiguous(ghost manual: seq<Relation>, identities: seq<Identity>)
      requires ListsClaims(byUser, manual, identities) && NoRepeatsIn(byUser)
      modifies this`byUser
      ensures forall u, i :: Owns(byUser, u, i) <==> i in identities && Sole(Claimants(manual, i)) == Some(u)
    {
      for k := 0 to |identities|
        invariant NoRepeatsIn(byUser)
        invariant forall u, i :: Owns(byUser, u, i) <==>
          i in identities &&
          (if i in identities[..k] then Sole(Claimants(manual, i)) == Some(u) else u in Claimants(manual, i))
      {
        var owners := ListOwners(byUser, identities[k]);
        var users := set u | u in owners;
        OwnersAreClaimants(byUser, manual, identities, k, users);
        SoleOwner(owners, users);
        if |owners| != 1 {
          var rest := RemoveFrom(byUser, users, identities[k]);
          byUser := rest;
        }
      }
      assert identities[..|identities|] == identities;
    }

    /** Only manual relations. */
    method ResolveManual(manual: seq<Relation>, identities: seq<Identity>)
      requires byUser == map[] && unassigned == []
      modifies this
      ensures Within(byUser, identities) && Functional(byUser)
      ensures forall u, i | i in identities :: Owns(byUser, u, i) <==> OfficialOwner(manual, i) == Some(u)
      ensures |UsersOf(manual)| == 1 ==>
                forall i :: i in unassigned <==> i in identities && OfficialOwner(manual, i) == None
      ensures |UsersOf(manual)| != 1 ==> unassigned == []
    {
      ListClaims(manual, identities);
      var users := UsersOf(manual);
      if |users| == 1 {
        var username :| username in users;
        SoleOf(users, username);
        assert |users - {username}| == 0 && users == {username};
        OnlyUser(manual, username);
        if HasPortRelation(manual) {
          AssignAll(username, identities);
        } else {
          forall i | i in identities
            ensures IsFree(i) <==> OfficialOwner(manual, i) == None
          {
            if OfficialOwner(manual, i).Some? {
              assert Owns(byUser, OfficialOwner(manual, i).value, i);
            }
          }
          ListUnassigned(identities);
        }
      } else if |identities| > 0 {
        DropAmbiguous(manual, identities);
      }
    }

    /** All relations of one inbound: every identity ends up with the owner the rule names,
        and the unassigned ones are exactly those without an owner, except that with only manual
        relations by several (or no) users none is listed. */
    method Resolve(relations: seq<Relation>, identities: seq<Identity>)
      requires byUser == map[] && unassigned == []
      modifies this
      ensures Within(byUser, identities) && Functional(byUser)
      ensures forall u, i | i in identities :: Owns(byUser, u, i) <==> OwnerOf(relations, i) == Some(u)
      ensures forall u, i | i in identities :: Owns(byUser, u, i) <==> IsOwner(relations, i, u)
      ensures !ListsUnassigned(relations) ==> unassigned == []
      ensures (forall i :: i in unassigned <==> i in identities && OwnerOf(relations, i) == None) <==>
              ListsUnassigned(relations) || forall i | i in identities :: OwnerOf(relations, i).Some?
    {
      forall u, i | i in identities
        ensures OwnerOf(relations, i) == Some(u) <==> IsOwner(relations, i, u)
      {
        OwnerOfMeans(relations, i, u);
      }
      var official, manual := Officials(relations), Manuals(relations);
      if |official| > 0 {
        ResolveAuthoritative(official, identities);
        ResolveRemainingManual(official, manual, identities);
      } else {
        assert UsersOf(relations) == UsersOf(manual);
        ResolveManual(manual, identities);
      }
    }
  }

  // ---------- what follows from the rule ----------

  /** Owners come from the relations themselves: an identity's owner has a relation to it or
      to some whole port of theirs. */
  lemma OwnersAreRelated(relations: seq<Relation>, i: Identity)
    requires OwnerOf(relations, i).Some?
    ensures exists r :: r in relations && r.user == OwnerOf(relations, i).value
    ensures (exists r :: r in relations && r.user == OwnerOf(relations, i).value && r.identity == i)
      || HasPortRelation(relations)
  {
    var owner := OwnerOf(relations, i).value;
    var official, manual := Officials(relations), Manuals(relations);
    SoleOf(UsersOf(official), owner);
    SoleOf(UsersOf(manual), owner);
    SoleOf(Claimants(official, i), owner);
    SoleOf(Claimants(manual, i), owner);
    if HasPortRelation(relations) {
      assert owner in UsersOf(relations) by {
        assert owner in UsersOf(official) || owner in UsersOf(manual)
          || owner in Claimants(official, i) || owner in Claimants(manual, i);
      }
    } else {
      assert !HasPortRelation(official) && !HasPortRelation(manual);
      assert owner in Claimants(official, i) || owner in Claimants(manual, i);
    }
  }

  /** Adding a manual relation never takes an identity from its official owner. */
  lemma ManualNeverOverridesOfficial(relations: seq<Relation>, extra: Relation, i: Identity)
    requires extra.source == Manual && Officials(relations) != []
    requires OfficialOwner(Officials(relations), i).Some?
    ensures OwnerOf(relations + [extra], i) == OwnerOf(relations, i) == OfficialOwner(Officials(relations), i)
  {
    assert (relations + [extra])[..|relations|] == relations;
    assert Officials(relations + [extra]) == Officials(relations);
  }

  const TWO_MANUAL := [Relation("u", "a", Manual), Relation("v", "b", Manual)]

  /** Two users with a manual relation each: a third identity has no owner and is not listed. */
  lemma UnownedIsNotListed()
    ensures !ListsUnassigned(TWO_MANUAL) && OwnerOf(TWO_MANUAL, "c") == None
  {
    assert TWO_MANUAL[0] in TWO_MANUAL && TWO_MANUAL[1] in TWO_MANUAL;
    assert "u" in UsersOf(TWO_MANUAL) && "v" in UsersOf(TWO_MANUAL);
    assert |UsersOf(TWO_MANUAL)| == 2 by {
      assert UsersOf(TWO_MANUAL) == {"u", "v"};
    }
    assert !HasPortRelation(Manuals(TWO_MANUAL));
    assert TWO_MANUAL[..1] == [TWO_MANUAL[0]] && TWO_MANUAL[..1][..0] == [];
    assert Officials(TWO_MANUAL[..1]) == [];
    assert Claimants(Manuals(TWO_MANUAL), "c") == {};
  }
}
