/** The per-user view of a server's connections: every management user's ports, which
    protocol identities belong to whom, and connection totals. */
module ManagementView {

  import opened Basics
  import opened IdentityResolution

  type Tag = string

  // ---------- effective relations ----------

  function Priority(source: Source): nat {
    match source
    case Binding => 3
    case InboundOwner => 2
    case Manual => 1
  }

  /** Official relations count only at the highest priority: of the whole port for a port
      relation, of the identity for an identity relation.  Manual ones always count. */
  predicate Effective(relations: seq<Relation>, r: Relation) {
    r.source == Manual ||
    forall other | other in relations && other.source != Manual && (r.identity == "" || other.identity == r.identity) ::
      Priority(other.source) <= Priority(r.source)
  }

  /** What that means for the three sources: manual relations and bindings always count; an inbound
      owner counts for an identity unless a binding names it, and for the whole port unless there is
      any binding. */
  predicate Counts(relations: seq<Relation>, r: Relation) {
    r.source == Manual || r.source == Binding ||
    forall b | b in relations && b.source == Binding :: r.identity != "" && b.identity != r.identity
  }

  lemma EffectiveMeansCounts(relations: seq<Relation>, r: Relation)
    requires r in relations
    ensures Effective(relations, r) <==> Counts(relations, r)
  {
    if r.source == InboundOwner && !Effective(relations, r) {
      var other :| other in relations && other.source != Manual && (r.identity == "" || other.identity == r.identity) &&
        Priority(other.source) > Priority(r.source);
      assert other.source == Binding;
    }
  }

  predicate SamePair(a: Relation, b: Relation) {
    a.user == b.user && a.identity == b.identity
  }

  /** The highest priority among official relations, of all or of one identity. */
  function Top(relations: seq<Relation>): nat {
    if relations == [] then 0
    else
      var r, rest := relations[|relations| - 1], Top(relations[..|relations| - 1]);
      if r.source != Manual && Priority(r.source) > rest then Priority(r.source) else rest
  }

  function TopOf(relations: seq<Relation>, i: Identity): nat {
    if relations == [] then 0
    else
      var r, rest := relations[|relations| - 1], TopOf(relations[..|relations| - 1], i);
      if r.source != Manual && r.identity == i && Priority(r.source) > rest then Priority(r.source) else rest
  }

  lemma {:induction false} TopBounds(relations: seq<Relation>, i: Identity)
    ensures forall r :: r in relations && r.source != Manual ==> Priority(r.source) <= Top(relations)
    ensures Top(relations) == 0 ||
            exists r :: r in relations && r.source != Manual && Priority(r.source) == Top(relations)
    ensures forall r :: r in relations && r.source != Manual && r.identity == i ==>
                          Priority(r.source) <= TopOf(relations, i)
    ensures TopOf(relations, i) == 0
      || exists r :: r in relations && r.source != Manual && r.identity == i &&
                     Priority(r.source) == TopOf(relations, i)
  {
    if relations != [] {
      var rest, last := relations[..|relations| - 1], relations[|relations| - 1];
      assert relations == rest + [last];
      TopBounds(rest, i);
      assert last in relations;
      forall r | r in rest ensures r in relations { }
    }
  }

  function Get(tops: map<Identity, nat>, i: Identity): nat {
    if i in tops then tops[i] else 0
  }

  method CollectPriorities(relations: seq<Relation>) returns (top: nat, tops: map<Identity, nat>)
    ensures top == Top(relations) && forall i :: Get(tops, i) == TopOf(relations, i)
  {
    top, tops := 0, map[];
    for k := 0 to |relations|
      invariant top == Top(relations[..k]) && forall i :: Get(tops, i) == TopOf(relations[..k], i)
    {
      assert relations[..k + 1][..k] == relations[..k];
      var r := relations[k];
      if r.source != Manual {
        var value := Priority(r.source);
        if value > top {
          top := value;
        }
        if value > Get(tops, r.identity) {
          tops := tops[r.identity := value];
        }
      }
    }
    assert relations[..|relations|] == relations;
  }

  lemma WantedIsEffective(relations: seq<Relation>, r: Relation)
    requires r in relations
    ensures Effective(relations, r) <==>
      r.source == Manual ||
      Priority(r.source) == (if r.identity == "" then Top(relations) else TopOf(relations, r.identity))
  {
    TopBounds(relations, r.identity);
  }

  predicate HasPair(kept: seq<Relation>, r: Relation) {
    exists x :: x in kept && SamePair(x, r)
  }

  /** The first effective relation of each user and identity among the first `n`. */
  function FirstEffective(relations: seq<Relation>, n: nat): seq<Relation>
    requires n <= |relations|
  {
    if n == 0 then []
    else
      var kept := FirstEffective(relations, n - 1);
      var r := relations[n - 1];
      if Effective(relations, r) && !HasPair(kept, r) then kept + [r] else kept
  }

  lemma PairsWithOneMore(kept: seq<Relation>, r: Relation, other: Relation)
    ensures HasPair(kept + [r], other) <==> HasPair(kept, other) || SamePair(r, other)
  {
    assert r in kept + [r];
    if HasPair(kept, other) {
      var x :| x in kept && SamePair(x, other);
      assert x in kept + [r];
    }
  }

  ghost predicate NoPairTwice(kept: seq<Relation>) {
    forall i, j | 0 <= i < j < |kept| :: !SamePair(kept[i], kept[j])
  }

  lemma {:induction false} OnlyEffectiveIsKept(relations: seq<Relation>, n: nat)
    requires n <= |relations|
    ensures forall r :: r in FirstEffective(relations, n) ==> r in relations && Effective(relations, r)
    decreases n
  {
    if n > 0 {
      OnlyEffectiveIsKept(relations, n - 1);
      assert relations[n - 1] in relations;
    }
  }

  lemma {:induction false} NoPairIsKeptTwice(relations: seq<Relation>, n: nat)
    requires n <= |relations|
    ensures NoPairTwice(FirstEffective(relations, n))
    decreases n
  {
    if n > 0 {
      NoPairIsKeptTwice(relations, n - 1);
      var kept, r := FirstEffective(relations, n - 1), relations[n - 1];
      if !HasPair(kept, r) {
        assert forall i | 0 <= i < |kept| :: kept[i] in kept && !SamePair(kept[i], r);
        assert NoPairTwice(kept + [r]);
      }
    }
  }

  lemma {:induction false} EffectiveIsKept(relations: seq<Relation>, n: nat, k: nat)
    requires k < n <= |relations| && Effective(relations, relations[k])
    ensures HasPair(FirstEffective(relations, n), relations[k])
    decreases n
  {
    var kept, r := FirstEffective(relations, n - 1), relations[n - 1];
    PairsWithOneMore(kept, r, relations[k]);
    if k < n - 1 {
      EffectiveIsKept(relations, n - 1, k);
    }
  }

  lemma FirstEffectiveKeeps(relations: seq<Relation>, n: nat)
    requires n <= |relations|
    ensures forall r :: r in FirstEffective(relations, n) ==> r in relations && Effective(relations, r)
    ensures forall k | 0 <= k < n && Effective(relations, relations[k]) ::
      HasPair(FirstEffective(relations, n), relations[k])
    ensures NoPairTwice(FirstEffective(relations, n))
  {
    OnlyEffectiveIsKept(relations, n);
    NoPairIsKeptTwice(relations, n);
    forall k | 0 <= k < n && Effective(relations, relations[k])
      ensures HasPair(FirstEffective(relations, n), relations[k])
    {
      EffectiveIsKept(relations, n, k);
    }
  }

  ghost predicate OnlyWhatCounts(relations: seq<Relation>, kept: seq<Relation>) {
    forall r | r in kept :: r in relations && Counts(relations, r)
  }

  /** Exactly the relations that count are kept, one for every user and identity. */
  ghost predicate KeepsWhatCounts(relations: seq<Relation>, kept: seq<Relation>) {
    && OnlyWhatCounts(relations, kept)
    && (forall r | r in relations && Counts(relations, r) ::
          exists x :: x in kept && x.user == r.user && x.identity == r.identity)
    && (forall i, j | 0 <= i < j < |kept| :: kept[i].user != kept[j].user || kept[i].identity != kept[j].identity)
  }

  lemma FirstEffectiveCounts(relations: seq<Relation>)
    ensures KeepsWhatCounts(relations, FirstEffective(relations, |relations|))
  {
    var kept := FirstEffective(relations, |relations|);
    FirstEffectiveKeeps(relations, |relations|);
    forall r | r in relations
      ensures Effective(relations, r) <==> Counts(relations, r)
    {
      EffectiveMeansCounts(relations, r);
    }
    forall r | r in relations && Counts(relations, r)
      ensures exists x :: x in kept && x.user == r.user && x.identity == r.identity
    {
      var k :| 0 <= k < |relations| && relations[k] == r;
      assert Effective(relations, relations[k]);
      assert HasPair(kept, relations[k]);
      var x :| x in kept && SamePair(x, relations[k]);
    }
    forall i, j | 0 <= i < j < |kept|
      ensures kept[i].user != kept[j].user || kept[i].identity != kept[j].identity
    {
      assert !SamePair(kept[i], kept[j]);
    }
  }

  /** Of relations with the same user and identity the first one that counts is kept. */
  lemma {:induction false} FirstOfItsPairIsKept(relations: seq<Relation>, n: nat, k: nat)
    requires k < n <= |relations| && Counts(relations, relations[k])
    requires forall j | 0 <= j < k && Counts(relations, relations[j]) ::
               relations[j].user != relations[k].user || relations[j].identity != relations[k].identity
    ensures relations[k] in FirstEffective(relations, n)
    decreases n
  {
    EffectiveMeansCounts(relations, relations[k]);
    if k < n - 1 {
      FirstOfItsPairIsKept(relations, n - 1, k);
    } else {
      NothingFromNowhere(relations, k);
      forall x | x in FirstEffective(relations, k)
        ensures !SamePair(x, relations[k])
      {
        var j :| 0 <= j < k && relations[j] == x && Effective(relations, x);
        EffectiveMeansCounts(relations, relations[j]);
      }
    }
  }

  lemma {:induction false} NothingFromNowhere(relations: seq<Relation>, n: nat)
    requires n <= |relations|
    ensures forall x | x in FirstEffective(relations, n) ::
              exists j :: 0 <= j < n && relations[j] == x && Effective(relations, x)
    decreases n
  {
    if n > 0 {
      NothingFromNowhere(relations, n - 1);
    }
  }

  /** A binding names the identity for the user, and for no other; no official relation is about the
      whole port; and manual relations, which are loaded last, come after it. */
  ghost predicate BoundTo(relations: seq<Relation>, u: User, i: Identity) {
    && i != ""
    && (exists k :: 0 <= k < |relations| && relations[k] == Relation(u, i, Binding) &&
                    forall j | 0 <= j < k :: relations[j].source != Manual)
    && (forall r | r in relations && r.source == Binding && r.identity == i :: r.user == u)
    && (forall r | r in relations && r.source != Manual :: r.identity != "")
  }

  lemma {:induction false} FirstBinding(relations: seq<Relation>, b: Relation, k: nat) returns (j: nat)
    requires k < |relations| && relations[k] == b
    ensures j <= k && relations[j] == b && forall i | 0 <= i < j :: relations[i] != b
  {
    j := 0;
    while relations[j] != b
      invariant j <= k && forall i | 0 <= i < j :: relations[i] != b
      decreases k - j
    {
      j := j + 1;
    }
  }

  lemma BindingIsKept(relations: seq<Relation>, u: User, i: Identity)
    requires BoundTo(relations, u, i)
    ensures Relation(u, i, Binding) in relations
    ensures Relation(u, i, Binding) in FirstEffective(relations, |relations|)
  {
    var b := Relation(u, i, Binding);
    var k :| 0 <= k < |relations| && relations[k] == b && forall j | 0 <= j < k :: relations[j].source != Manual;
    var first := FirstBinding(relations, b, k);
    assert b in relations;
    FirstOfItsPairIsKept(relations, |relations|, first);
  }

  /** No official relation is about the whole port, and none gives the identity to another user. */
  ghost predicate OnlyFor(official: seq<Relation>, u: User, i: Identity) {
    forall r | r in official :: r.identity != "" && (r.identity == i ==> r.user == u)
  }

  lemma OnlyTheBinderClaims(relations: seq<Relation>, kept: seq<Relation>, u: User, i: Identity)
    requires BoundTo(relations, u, i) && OnlyWhatCounts(relations, kept)
    ensures OnlyFor(Officials(kept), u, i)
  {
    assert Relation(u, i, Binding) in relations;
    forall r | r in Officials(kept)
      ensures r.identity != "" && (r.identity == i ==> r.user == u)
    {
      assert r in relations && Counts(relations, r);
    }
  }

  lemma ClaimedByOne(official: seq<Relation>, u: User, i: Identity)
    requires i != "" && Relation(u, i, Binding) in official && OnlyFor(official, u, i)
    ensures Claimants(official, i) == {u} && !HasPortRelation(official) && official != []
  {
    assert u in Claimants(official, i);
  }

  lemma SoleClaimantOwns(kept: seq<Relation>, u: User, i: Identity)
    requires Officials(kept) != [] && !HasPortRelation(Officials(kept))
    requires Sole(Claimants(Officials(kept), i)) == Some(u)
    ensures OwnerOf(kept, i) == Some(u)
  {
  }

  lemma OwnedByTheBinder(kept: seq<Relation>, u: User, i: Identity)
    requires i != "" && Relation(u, i, Binding) in kept && OnlyFor(Officials(kept), u, i)
    ensures OwnerOf(kept, i) == Some(u)
  {
    ClaimedByOne(Officials(kept), u, i);
    SoleOf(Claimants(Officials(kept), i), u);
    SoleClaimantOwns(kept, u, i);
  }

  lemma OnlyWhatCountsIsKept(relations: seq<Relation>)
    ensures OnlyWhatCounts(relations, FirstEffective(relations, |relations|))
  {
    FirstEffectiveCounts(relations);
  }

  /** The binding decides, whatever inbound owners there are for the identity and whatever is manual. */
  lemma BindingDecides(relations: seq<Relation>, u: User, i: Identity)
    requires BoundTo(relations, u, i)
    ensures OwnerOf(FirstEffective(relations, |relations|), i) == Some(u)
  {
    var kept := FirstEffective(relations, |relations|);
    BindingIsKept(relations, u, i);
    OnlyWhatCountsIsKept(relations);
    OnlyTheBinderClaims(relations, kept, u, i);
    OwnedByTheBinder(kept, u, i);
  }

  method EffectiveRelations(relations: seq<Relation>) returns (result: seq<Relation>)
    ensures result == FirstEffective(relations, |relations|)
    ensures KeepsWhatCounts(relations, result)
  {
    result := KeepEffective(relations);
    FirstEffectiveCounts(relations);
  }

  method KeepEffective(relations: seq<Relation>) returns (result: seq<Relation>)
    ensures result == FirstEffective(relations, |relations|)
  {
    var top, tops := CollectPriorities(relations);
    result := [];
    for k := 0 to |relations|
      invariant result == FirstEffective(relations, k)
    {
      var r := relations[k];
      WantedIsEffective(relations, r);
      if r.source != Manual {
        var wanted := if r.identity == "" then top else Get(tops, r.identity);
        if Priority(r.source) != wanted {
          continue;
        }
      }
      if HasPair(result, r) {
        continue;
      }
      result := result + [r];
    }
  }

  // ---------- the view ----------

  /** One proxy user's connections; its identity is the pair of its tag and user. */
  datatype Record = Record(tag: Tag, user: Identity, total: int)

  datatype Port = Port(tag: Tag, identities: seq<Identity>, total: int)

  type Key = (Tag, Identity)

  datatype UnassignedPort = UnassignedPort(tag: Tag, identities: seq<Identity>)

  function PortsTotal(ports: seq<Port>): int {
    if ports == [] then 0 else PortsTotal(ports[..|ports| - 1]) + ports[|ports| - 1].total
  }

  /** Total over all users. */
  ghost function GrandTotal(users: map<User, seq<Port>>): int
    decreases |users|
  {
    if users == map[] then 0
    else
      var u :| u in users;
      PortsTotal(users[u]) + GrandTotal(users - {u})
  }

  lemma {:induction false} GrandTotalWithout(users: map<User, seq<Port>>, u: User)
    requires u in users
    ensures GrandTotal(users) == PortsTotal(users[u]) + GrandTotal(users - {u})
    decreases |users|
  {
    var v :| v in users && GrandTotal(users) == PortsTotal(users[v]) + GrandTotal(users - {v});
    if v != u {
      GrandTotalWithout(users - {v}, u);
      GrandTotalWithout(users - {u}, v);
      assert users - {v} - {u} == users - {u} - {v};
    }
  }

  lemma GrandTotalUpdate(users: map<User, seq<Port>>, u: User, ports: seq<Port>)
    ensures GrandTotal(users[u := ports]) == GrandTotal(users) +
            PortsTotal(ports) - (if u in users then PortsTotal(users[u]) else 0)
  {
    GrandTotalWithout(users[u := ports], u);
    assert users[u := ports] - {u} == users - {u};
    if u in users {
      GrandTotalWithout(users, u);
    } else {
      assert users - {u} == users;
    }
  }

  lemma {:induction false} PortsTotalUpdate(ports: seq<Port>, k: nat, port: Port)
    requires k < |ports|
    ensures PortsTotal(ports[k := port]) == PortsTotal(ports) + port.total - ports[k].total
  {
    var n := |ports| - 1;
    if k < n {
      PortsTotalUpdate(ports[..n], k, port);
      assert ports[k := port][..n] == ports[..n][k := port];
    } else {
      assert ports[k := port][..n] == ports[..n];
    }
  }

  // ---------- each user's own totals ----------

  function PortsOf(users: map<User, seq<Port>>, u: User): seq<Port> {
    if u in users then users[u] else []
  }

  /** What the ports for one tag add up to. */
  function PortTotal(ports: seq<Port>, tag: Tag): int {
    if ports == [] then 0
    else
      var last := ports[|ports| - 1];
      PortTotal(ports[..|ports| - 1], tag) + if last.tag == tag then last.total else 0
  }

  lemma {:induction false} PortTotalUpdate(ports: seq<Port>, k: nat, port: Port, tag: Tag)
    requires k < |ports| && port.tag == ports[k].tag
    ensures PortTotal(ports[k := port], tag) ==
            PortTotal(ports, tag) + if port.tag == tag then port.total - ports[k].total else 0
  {
    var n := |ports| - 1;
    if k < n {
      PortTotalUpdate(ports[..n], k, port, tag);
      assert ports[k := port][..n] == ports[..n][k := port];
    } else {
      assert ports[k := port][..n] == ports[..n];
    }
  }

  /** One port of one user has grown by an amount, and no other. */
  ghost predicate Adds(before: map<User, seq<Port>>, after: map<User, seq<Port>>, u: User, tag: Tag, total: int) {
    (forall v, t :: PortTotal(PortsOf(after, v), t) ==
                    PortTotal(PortsOf(before, v), t) + if v == u && t == tag then total else 0) &&
    forall v :: PortsTotal(PortsOf(after, v)) == PortsTotal(PortsOf(before, v)) + if v == u then total else 0
  }

  ghost predicate SameTotals(before: map<User, seq<Port>>, after: map<User, seq<Port>>) {
    (forall v, t :: PortTotal(PortsOf(after, v), t) == PortTotal(PortsOf(before, v), t)) &&
    forall v :: PortsTotal(PortsOf(after, v)) == PortsTotal(PortsOf(before, v))
  }

  /** The records of a tag that are mapped to a user. */
  function PortPart(records: seq<Record>, tag: Tag, mappings: map<Key, User>, u: User): int {
    if records == [] then 0
    else
      var r := records[|records| - 1];
      PortPart(records[..|records| - 1], tag, mappings, u) +
      if r.tag == tag && Lookup(mappings, (r.tag, r.user)) == Some(u) then r.total else 0
  }

  /** The records that are mapped to a user. */
  function UserPart(records: seq<Record>, mappings: map<Key, User>, u: User): int {
    if records == [] then 0
    else
      var r := records[|records| - 1];
      UserPart(records[..|records| - 1], mappings, u) +
      if Lookup(mappings, (r.tag, r.user)) == Some(u) then r.total else 0
  }

  /** The users' ports have grown by what the records add to them. */
  ghost predicate AddedAll(before: map<User, seq<Port>>, after: map<User, seq<Port>>, records: seq<Record>,
                           mappings: map<Key, User>) {
    (forall v, t :: PortTotal(PortsOf(after, v), t) ==
                    PortTotal(PortsOf(before, v), t) + PortPart(records, t, mappings, v)) &&
    forall v :: PortsTotal(PortsOf(after, v)) == PortsTotal(PortsOf(before, v)) + UserPart(records, mappings, v)
  }

  lemma AddedOneMore(before: map<User, seq<Port>>, middle: map<User, seq<Port>>, after: map<User, seq<Port>>,
                     records: seq<Record>, k: nat, mappings: map<Key, User>)
    requires k < |records| && AddedAll(before, middle, records[..k], mappings)
    requires var key := (records[k].tag, records[k].user);
             if key in mappings then Adds(middle, after, mappings[key], records[k].tag, records[k].total)
             else after == middle
    ensures AddedAll(before, after, records[..k + 1], mappings)
  {
    assert records[..k + 1][..k] == records[..k];
  }

  /** Only the given tags count. */
  function PartOfTags(records: seq<Record>, tags: set<Tag>, mappings: map<Key, User>, u: User): int {
    if records == [] then 0
    else
      var r := records[|records| - 1];
      PartOfTags(records[..|records| - 1], tags, mappings, u) +
      if r.tag in tags && Lookup(mappings, (r.tag, r.user)) == Some(u) then r.total else 0
  }

  /** The totals of all users and ports, with some of the tags done. */
  ghost predicate TotalsAre(users: map<User, seq<Port>>, records: seq<Record>, done: set<Tag>,
                            mappings: map<Key, User>) {
    (forall v, t :: PortTotal(PortsOf(users, v), t) == if t in done then PortPart(records, t, mappings, v) else 0) &&
    forall v :: PortsTotal(PortsOf(users, v)) == PartOfTags(records, done, mappings, v)
  }

  /** Two mappings that agree but for one tag. */
  ghost predicate AgreeBut(tag: Tag, before: map<Key, User>, after: map<Key, User>) {
    forall key: Key | key.0 != tag :: Lookup(after, key) == Lookup(before, key)
  }

  lemma OneMoreOfTag(records: seq<Record>, tag: Tag)
    requires records != []
    ensures var rest, r := records[..|records| - 1], records[|records| - 1];
            OfTag(records, tag) == if r.tag == tag then OfTag(rest, tag) + [r] else OfTag(rest, tag)
  {
  }

  lemma OneMoreRecord(records: seq<Record>, r: Record, t: Tag, mappings: map<Key, User>, u: User)
    ensures PortPart(records + [r], t, mappings, u) ==
            PortPart(records, t, mappings, u) +
            if r.tag == t && Lookup(mappings, (r.tag, r.user)) == Some(u) then r.total else 0
    ensures UserPart(records + [r], mappings, u) ==
            UserPart(records, mappings, u) + if Lookup(mappings, (r.tag, r.user)) == Some(u) then r.total else 0
  {
    assert (records + [r])[..|records|] == records;
  }

  lemma {:induction false} OtherPortsKeep(records: seq<Record>, tag: Tag, before: map<Key, User>,
                                          after: map<Key, User>, t: Tag, u: User)
    requires AgreeBut(tag, before, after) && t != tag
    ensures PortPart(records, t, after, u) == PortPart(records, t, before, u)
    ensures PortPart(OfTag(records, tag), t, after, u) == 0
  {
    if records != [] {
      var rest, r := records[..|records| - 1], records[|records| - 1];
      OtherPortsKeep(rest, tag, before, after, t, u);
      assert (r.tag, r.user).0 == r.tag;
      OneMoreOfTag(records, tag);
      OneMoreRecord(OfTag(rest, tag), r, t, after, u);
    }
  }

  lemma {:induction false} OwnPortIsOfTag(records: seq<Record>, tag: Tag, mappings: map<Key, User>, u: User)
    ensures PortPart(OfTag(records, tag), tag, mappings, u) == PortPart(records, tag, mappings, u)
  {
    if records != [] {
      var rest, r := records[..|records| - 1], records[|records| - 1];
      OwnPortIsOfTag(rest, tag, mappings, u);
      OneMoreOfTag(records, tag);
      OneMoreRecord(OfTag(rest, tag), r, tag, mappings, u);
    }
  }

  lemma {:induction false} TagAddsToUser(records: seq<Record>, tags: set<Tag>, tag: Tag, before: map<Key, User>,
                                         after: map<Key, User>, u: User)
    requires AgreeBut(tag, before, after) && tag !in tags
    ensures PartOfTags(records, tags + {tag}, after, u) ==
            PartOfTags(records, tags, before, u) + UserPart(OfTag(records, tag), after, u)
  {
    if records != [] {
      var rest, r := records[..|records| - 1], records[|records| - 1];
      TagAddsToUser(rest, tags, tag, before, after, u);
      assert (r.tag, r.user).0 == r.tag;
      OneMoreOfTag(records, tag);
      OneMoreRecord(OfTag(rest, tag), r, tag, after, u);
    }
  }

  lemma PortTotalWithTag(before: map<User, seq<Port>>, after: map<User, seq<Port>>, records: seq<Record>,
                         done: set<Tag>, tag: Tag, mappings: map<Key, User>, more: map<Key, User>, v: User, t: Tag)
    requires PortTotal(PortsOf(before, v), t) == if t in done then PortPart(records, t, mappings, v) else 0
    requires PortTotal(PortsOf(after, v), t) ==
             PortTotal(PortsOf(before, v), t) + PortPart(OfTag(records, tag), t, more, v)
    requires tag !in done && AgreeBut(tag, mappings, more)
    ensures PortTotal(PortsOf(after, v), t) == if t in done + {tag} then PortPart(records, t, more, v) else 0
  {
    if t == tag {
      OwnPortIsOfTag(records, tag, more, v);
    } else {
      OtherPortsKeep(records, tag, mappings, more, t, v);
    }
  }

  lemma TotalsWithTag(before: map<User, seq<Port>>, after: map<User, seq<Port>>, records: seq<Record>, done: set<Tag>,
                      tag: Tag, mappings: map<Key, User>, more: map<Key, User>)
    requires TotalsAre(before, records, done, mappings) && tag !in done && AgreeBut(tag, mappings, more)
    requires AddedAll(before, after, OfTag(records, tag), more)
    ensures TotalsAre(after, records, done + {tag}, more)
  {
    forall v, t
      ensures PortTotal(PortsOf(after, v), t) == if t in done + {tag} then PortPart(records, t, more, v) else 0
    {
      PortTotalWithTag(before, after, records, done, tag, mappings, more, v, t);
    }
    forall v
      ensures PortsTotal(PortsOf(after, v)) == PartOfTags(records, done + {tag}, more, v)
    {
      TagAddsToUser(records, done, tag, mappings, more, v);
    }
  }

  lemma {:induction false} AllTagsOfUser(records: seq<Record>, tags: set<Tag>, mappings: map<Key, User>, u: User)
    requires forall r :: r in records ==> r.tag in tags || (r.tag, r.user) !in mappings
    ensures PartOfTags(records, tags, mappings, u) == UserPart(records, mappings, u)
  {
    if records != [] {
      var rest, last := records[..|records| - 1], records[|records| - 1];
      assert last in records && forall r :: r in rest ==> r in records;
      AllTagsOfUser(rest, tags, mappings, u);
    }
  }

  lemma {:induction false} NothingDone(records: seq<Record>, u: User)
    ensures PartOfTags(records, {}, map[], u) == 0
  {
    if records != [] {
      NothingDone(records[..|records| - 1], u);
    }
  }

  /** A tag with no mapped records adds nothing to anybody. */
  lemma {:induction false} NothingForUser(tag: Tag, records: seq<Record>, mappings: map<Key, User>, t: Tag, u: User)
    requires forall r :: r in records ==> r.tag == tag
    requires forall key | key in mappings :: key.0 != tag
    ensures PortPart(records, t, mappings, u) == 0 && UserPart(records, mappings, u) == 0
  {
    if records != [] {
      var rest, last := records[..|records| - 1], records[|records| - 1];
      assert last in records && (last.tag, last.user).0 == tag;
      NothingForUser(tag, rest, mappings, t, u);
    }
  }

  // ---------- what is listed as unassigned ----------

  /** An identity seen on the tag that nobody owns. */
  ghost predicate Unowned(records: seq<Record>, tag: Tag, relations: seq<Relation>, i: Identity) {
    (exists r :: r in records && r.tag == tag && r.user == i) && OwnerOf(relations, i) == None
  }

  /** A tag is listed if it has no relations, or if the rule lists identities without an owner and
      there are some; it is listed with exactly those. */
  ghost predicate ListsTag(unassigned: seq<UnassignedPort>, records: seq<Record>, tag: Tag, relations: seq<Relation>) {
    ((exists p :: p in unassigned && p.tag == tag) <==>
       relations == [] || (ListsUnassigned(relations) && exists i :: Unowned(records, tag, relations, i))) &&
    forall p | p in unassigned && p.tag == tag :: forall i :: i in p.identities <==> Unowned(records, tag, relations, i)
  }

  /** Every tag that is done is listed as it should be, once at most, and no other is. */
  ghost predicate ListingIs(unassigned: seq<UnassignedPort>, records: seq<Record>,
                            relationsByTag: map<Tag, seq<Relation>>, done: set<Tag>) {
    (forall t | t in done :: ListsTag(unassigned, records, t, EffectiveOf(relationsByTag, t))) &&
    (forall p | p in unassigned :: p.tag in done) &&
    forall j, k | 0 <= j < k < |unassigned| :: unassigned[j].tag != unassigned[k].tag
  }

  lemma OtherTagsStayListed(unassigned: seq<UnassignedPort>, part: seq<UnassignedPort>, records: seq<Record>,
                            tag: Tag, t: Tag, relations: seq<Relation>)
    requires t != tag && (forall p | p in part :: p.tag == tag) && ListsTag(unassigned, records, t, relations)
    ensures ListsTag(unassigned + part, records, t, relations)
  {
    assert forall p :: p in unassigned ==> p in unassigned + part;
  }

  lemma TagIsListed(unassigned: seq<UnassignedPort>, part: seq<UnassignedPort>, records: seq<Record>, tag: Tag,
                    relations: seq<Relation>)
    requires (forall p | p in unassigned :: p.tag != tag) && ListsTag(part, OfTag(records, tag), tag, relations)
    ensures ListsTag(unassigned + part, records, tag, relations)
  {
    OfTagIs(records, tag);
    assert forall p :: p in part ==> p in unassigned + part;
    forall i
      ensures Unowned(records, tag, relations, i) <==> Unowned(OfTag(records, tag), tag, relations, i)
    {
      if r :| r in records && r.tag == tag && r.user == i {
        assert r in OfTag(records, tag);
      }
    }
  }

  lemma ListingWithTag(unassigned: seq<UnassignedPort>, part: seq<UnassignedPort>, records: seq<Record>,
                       relationsByTag: map<Tag, seq<Relation>>, done: set<Tag>, tag: Tag)
    requires ListingIs(unassigned, records, relationsByTag, done) && tag !in done
    requires |part| <= 1 && forall p | p in part :: p.tag == tag
    requires ListsTag(part, OfTag(records, tag), tag, EffectiveOf(relationsByTag, tag))
    ensures ListingIs(unassigned + part, records, relationsByTag, done + {tag})
  {
    forall t | t in done + {tag}
      ensures ListsTag(unassigned + part, records, t, EffectiveOf(relationsByTag, t))
    {
      if t == tag {
        TagIsListed(unassigned, part, records, tag, EffectiveOf(relationsByTag, tag));
      } else {
        OtherTagsStayListed(unassigned, part, records, tag, t, EffectiveOf(relationsByTag, t));
      }
    }
    forall j, k | 0 <= j < k < |unassigned + part|
      ensures (unassigned + part)[j].tag != (unassigned + part)[k].tag
    {
      assert unassigned[j] in unassigned;
      if k == |unassigned| {
        assert part[0] in part;
      }
    }
  }

  /** Records of the given tags whose identity is mapped. */
  ghost function MappedTotal(records: seq<Record>, tags: set<Tag>, mappings: map<Key, User>): int {
    if records == [] then 0
    else
      var r := records[|records| - 1];
      MappedTotal(records[..|records| - 1], tags, mappings) +
      if r.tag in tags && (r.tag, r.user) in mappings then r.total else 0
  }

  function OfTag(records: seq<Record>, tag: Tag): seq<Record> {
    if records == [] then []
    else OfTag(records[..|records| - 1], tag) + if records[|records| - 1].tag == tag then [records[|records| - 1]]
                                                else []
  }

  lemma {:induction false} OfTagIs(records: seq<Record>, tag: Tag)
    ensures forall r :: r in OfTag(records, tag) <==> r in records && r.tag == tag
  {
    if records != [] {
      assert records == records[..|records| - 1] + [records[|records| - 1]];
      OfTagIs(records[..|records| - 1], tag);
    }
  }

  /** Total of the first `n` records of one tag whose identity is mapped. */
  ghost function TagTotal(records: seq<Record>, mappings: map<Key, User>): int {
    if records == [] then 0
    else
      var r := records[|records| - 1];
      TagTotal(records[..|records| - 1], mappings) + if (r.tag, r.user) in mappings then r.total else 0
  }

  /** A tag that is added brings in exactly its own mapped records. */
  lemma {:induction false} TagAddsItsRecords(records: seq<Record>, tags: set<Tag>, tag: Tag, before: map<Key, User>,
                                             after: map<Key, User>)
    requires tag !in tags
    requires forall key: Key | key.0 != tag :: key in before <==> key in after
    ensures MappedTotal(records, tags + {tag}, after) == MappedTotal(records, tags, before) +
            TagTotal(OfTag(records, tag), after)
  {
    if records != [] {
      var rest, r := records[..|records| - 1], records[|records| - 1];
      TagAddsItsRecords(rest, tags, tag, before, after);
      var key := (r.tag, r.user);
      assert key.0 != tag ==> (key in before <==> key in after);
      if r.tag == tag {
        assert OfTag(records, tag) == OfTag(rest, tag) + [r];
        assert OfTag(records, tag)[..|OfTag(rest, tag)|] == OfTag(rest, tag);
      } else {
        assert OfTag(records, tag) == OfTag(rest, tag);
      }
    }
  }

  ghost predicate OnePortPerTag(ports: seq<Port>) {
    forall i, j | 0 <= i < j < |ports| :: ports[i].tag != ports[j].tag
  }

  ghost predicate HasPort(users: map<User, seq<Port>>, u: User, tag: Tag) {
    u in users && exists k | 0 <= k < |users[u]| :: users[u][k].tag == tag
  }

  function Lookup(mappings: map<Key, User>, key: Key): Option<User> {
    if key in mappings then Some(mappings[key]) else None
  }

  function EffectiveOf(relationsByTag: map<Tag, seq<Relation>>, tag: Tag): seq<Relation> {
    if tag in relationsByTag then FirstEffective(relationsByTag[tag], |relationsByTag[tag]|) else []
  }

  /** Total of the records whose identity is mapped. */
  ghost function RecordsTotal(records: seq<Record>, mappings: map<Key, User>): int {
    if records == [] then 0
    else
      var r := records[|records| - 1];
      RecordsTotal(records[..|records| - 1], mappings) + if (r.tag, r.user) in mappings then r.total else 0
  }

  lemma {:induction false} AllTagsTotal(records: seq<Record>, tags: set<Tag>, mappings: map<Key, User>)
    requires forall r :: r in records ==> r.tag in tags || (r.tag, r.user) !in mappings
    ensures MappedTotal(records, tags, mappings) == RecordsTotal(records, mappings)
  {
    if records != [] {
      var rest, last := records[..|records| - 1], records[|records| - 1];
      assert last in records && forall r :: r in rest ==> r in records;
      AllTagsTotal(rest, tags, mappings);
    }
  }

  /** The tags of the inbounds and of the records. */
  function TagsOf(records: seq<Record>, inbounds: set<Tag>): set<Tag> {
    inbounds + set r | r in records && r.tag != "" :: r.tag
  }

  lemma NobodyOwnsWithoutRelations(i: Identity)
    ensures OwnerOf([], i) == None
  {
    assert UsersOf([]) == {} && Claimants([], i) == {};
  }

  class ViewBuilder {
    var users: map<User, seq<Port>>
    var mappings: map<Key, User>
    var unassigned: seq<UnassignedPort>

    constructor ()
      ensures users == map[] && mappings == map[] && unassigned == []
    {
      users, mappings, unassigned := map[], map[], [];
    }

    /** One port per user and tag, and every mapped identity belongs to a user with the port. */
    ghost predicate Valid()
      reads this
    {
      && (forall u | u in users :: OnePortPerTag(users[u]))
      && (forall key | key in mappings :: HasPort(users, mappings[key], key.0))
    }

    method FindPort(ports: seq<Port>, tag: Tag) returns (k: nat)
      ensures k <= |ports|
      ensures k < |ports| ==> ports[k].tag == tag
      ensures k == |ports| ==> forall j | 0 <= j < |ports| :: ports[j].tag != tag
    {
      for index := 0 to |ports|
        invariant forall j | 0 <= j < index :: ports[j].tag != tag
      {
        if ports[index].tag == tag {
          return index;
        }
      }
      return |ports|;
    }

    /** Makes sure the user has a port for the tag; a new one starts at zero. */
    method FindOrAppendPort(u: User, tag: Tag)
      requires Valid()
      modifies this`users
      ensures Valid() && HasPort(users, u, tag)
      ensures forall v, t :: HasPort(old(users), v, t) ==> HasPort(users, v, t)
      ensures GrandTotal(users) == old(GrandTotal(users)) && SameTotals(old(users), users)
    {
      var ports := if u in users then users[u] else [];
      var k := FindPort(ports, tag);
      if k == |ports| {
        var grown := ports + [Port(tag, [], 0)];
        AppendPort(users, u, ports, grown);
        users := users[u := grown];
      }
    }

    lemma AppendPort(users: map<User, seq<Port>>, u: User, ports: seq<Port>, grown: seq<Port>)
      requires ports == if u in users then users[u] else []
      requires |grown| == |ports| + 1 && grown[..|ports|] == ports && grown[|ports|].total == 0
      ensures GrandTotal(users[u := grown]) == GrandTotal(users) && SameTotals(users, users[u := grown])
      ensures HasPort(users[u := grown], u, grown[|ports|].tag)
      ensures forall v, t :: HasPort(users, v, t) ==> HasPort(users[u := grown], v, t)
    {
      GrandTotalUpdate(users, u, grown);
      var after := users[u := grown];
      assert after[u][|ports|] == grown[|ports|];
      forall v, t | HasPort(users, v, t)
        ensures HasPort(after, v, t)
      {
        var j :| 0 <= j < |users[v]| && users[v][j].tag == t;
        assert v == u ==> grown[j] == ports[j];
        assert after[v][j].tag == t;
      }
    }

    /** Adds to the total of a user's port for a tag. */
    method AddToPort(u: User, tag: Tag, total: int)
      requires Valid() && HasPort(users, u, tag)
      modifies this`users
      ensures Valid()
      ensures forall v, t :: HasPort(users, v, t) <==> HasPort(old(users), v, t)
      ensures GrandTotal(users) == old(GrandTotal(users)) + total && Adds(old(users), users, u, tag, total)
    {
      var k := FindPort(users[u], tag);
      var port := users[u][k];
      port := port.(total := port.total + total);
      SamePorts(users, u, k, port);
      users := users[u := users[u][k := port]];
    }

    /** The mappings, with the identities of a tag given to a user unless they were mapped. */
    ghost predicate MapsMore(before: map<Key, User>, after: map<Key, User>, tag: Tag, u: User,
                             identities: seq<Identity>) {
      && (forall key: Key :: key in after <==> key in before || (key.0 == tag && key.1 in identities))
      && (forall key | key in after :: after[key] == if key in before then before[key] else u)
    }

    lemma MapOne(before: map<Key, User>, after: map<Key, User>, tag: Tag, u: User, identities: seq<Identity>,
                 i: Identity)
      requires MapsMore(before, after, tag, u, identities)
      requires (tag, i) in after ==> after[(tag, i)] == u
      ensures MapsMore(before, after[(tag, i) := u], tag, u, identities + [i])
    {
      var more := after[(tag, i) := u];
      forall key: Key
        ensures key in more <==> key in before || (key.0 == tag && key.1 in identities + [i])
      {
        assert key == (key.0, key.1);
      }
    }

    ghost predicate KeepsPorts(before: map<User, seq<Port>>, after: map<User, seq<Port>>) {
      forall v, t :: HasPort(before, v, t) ==> HasPort(after, v, t)
    }

    /** One relation's share: its user's port, and the identities resolved to that user. */
    method AddRelation(tag: Tag, u: User, identities: seq<Identity>, ghost byUser: Lists)
      requires Valid() && Functional(byUser) && identities == Values(byUser, u)
      requires forall key | key in mappings && key.0 == tag :: Owns(byUser, mappings[key], key.1)
      modifies this
      ensures Valid() && unassigned == old(unassigned)
      ensures KeepsPorts(old(users), users)
      ensures HasPort(users, u, tag)
      ensures MapsMore(old(mappings), mappings, tag, u, identities)
      ensures GrandTotal(users) == old(GrandTotal(users)) && SameTotals(old(users), users)
    {
      FindOrAppendPort(u, tag);
      for k := 0 to |identities|
        invariant Valid()
        invariant HasPort(users, u, tag)
        invariant KeepsPorts(old(users), users)
        invariant unassigned == old(unassigned) && GrandTotal(users) == old(GrandTotal(users))
        invariant SameTotals(old(users), users)
        invariant MapsMore(old(mappings), mappings, tag, u, identities[..k])
      {
        assert Owns(byUser, u, identities[k]);
        assert identities[..k + 1] == identities[..k] + [identities[k]];
        ghost var key := (tag, identities[k]);
        assert key in mappings ==> mappings[key] == u by {
          if key in mappings && key in old(mappings) {
            assert Owns(byUser, mappings[key], identities[k]);
          }
        }
        MapOne(old(mappings), mappings, tag, u, identities[..k], identities[k]);
        MapIdentity(tag, u, identities[k]);
      }
      assert identities[..|identities|] == identities;
    }

    /** Maps one identity to its user, unless another user has it already. */
    method MapIdentity(tag: Tag, u: User, identity: Identity)
      requires Valid() && HasPort(users, u, tag)
      requires (tag, identity) in mappings ==> mappings[(tag, identity)] == u
      modifies this
      ensures Valid() && unassigned == old(unassigned)
      ensures mappings == old(mappings)[(tag, identity) := u]
      ensures forall v, t :: HasPort(users, v, t) <==> HasPort(old(users), v, t)
      ensures GrandTotal(users) == old(GrandTotal(users)) && SameTotals(old(users), users)
    {
      var key := (tag, identity);
      if key in mappings && mappings[key] != u {
        assert false;  // no two users ever own the same identity
      }
      mappings := mappings[key := u];
      ListIdentity(u, tag, identity);
    }

    /** Lists an identity on a user's port. */
    method ListIdentity(u: User, tag: Tag, identity: Identity)
      requires Valid() && HasPort(users, u, tag)
      modifies this`users
      ensures Valid()
      ensures forall v, t :: HasPort(users, v, t) <==> HasPort(old(users), v, t)
      ensures GrandTotal(users) == old(GrandTotal(users)) && SameTotals(old(users), users)
    {
      var k := FindPort(users[u], tag);
      var port := users[u][k];
      var listed := AppendUnique(port.identities, identity);
      SamePorts(users, u, k, port.(identities := listed));
      users := users[u := users[u][k := port.(identities := listed)]];
    }

    lemma SamePorts(users: map<User, seq<Port>>, u: User, k: nat, port: Port)
      requires u in users && k < |users[u]| && port.tag == users[u][k].tag
      ensures forall v, t :: HasPort(users[u := users[u][k := port]], v, t) <==> HasPort(users, v, t)
      ensures OnePortPerTag(users[u]) ==> OnePortPerTag(users[u][k := port])
      ensures GrandTotal(users[u := users[u][k := port]]) == GrandTotal(users) + port.total - users[u][k].total
      ensures Adds(users, users[u := users[u][k := port]], u, port.tag, port.total - users[u][k].total)
    {
      var after := users[u := users[u][k := port]];
      forall t
        ensures PortTotal(after[u], t) ==
                PortTotal(users[u], t) + if t == port.tag then port.total - users[u][k].total else 0
      {
        PortTotalUpdate(users[u], k, port, t);
      }
      PortsTotalUpdate(users[u], k, port);
      GrandTotalUpdate(users, u, users[u][k := port]);
      forall v, t
        ensures HasPort(after, v, t) <==> HasPort(users, v, t)
      {
        if v in users {
          assert forall j | 0 <= j < |users[v]| :: after[v][j].tag == users[v][j].tag;
        }
      }
    }

    /** Adds up the connections of a tag's mapped records. */
    method AddRecords(tag: Tag, records: seq<Record>)
      requires Valid() && forall r :: r in records ==> r.tag == tag
      modifies this`users
      ensures Valid()
      ensures GrandTotal(users) == old(GrandTotal(users)) + TagTotal(records, mappings)
      ensures AddedAll(old(users), users, records, mappings)
    {
      for k := 0 to |records|
        invariant Valid()
        invariant GrandTotal(users) == old(GrandTotal(users)) + TagTotal(records[..k], mappings)
        invariant AddedAll(old(users), users, records[..k], mappings)
      {
        var r := records[k];
        ghost var middle := users;
        assert records[..k + 1][..k] == records[..k];
        var key := (r.tag, r.user);
        if key in mappings {
          assert HasPort(users, mappings[key], key.0);
          AddToPort(mappings[key], tag, r.total);
        }
        AddedOneMore(old(users), middle, users, records, k, mappings);
      }
      assert records[..|records|] == records;
    }

    /** All relations of one tag. */
    method AddRelations(tag: Tag, relations: seq<Relation>, byUser: Lists)
      requires Valid() && Functional(byUser)
      requires forall key | key in mappings :: key.0 != tag
      modifies this
      ensures Valid() && unassigned == old(unassigned)
      ensures forall key: Key | key.0 != tag :: key in mappings <==> key in old(mappings)
      ensures forall key | key in old(mappings) :: mappings[key] == old(mappings)[key]
      ensures forall i :: (tag, i) in mappings <==> exists r :: r in relations && Owns(byUser, r.user, i)
      ensures forall i | (tag, i) in mappings :: Owns(byUser, mappings[(tag, i)], i)
      ensures GrandTotal(users) == old(GrandTotal(users)) && SameTotals(old(users), users)
    {
      for k := 0 to |relations|
        invariant Valid() && unassigned == old(unassigned) && GrandTotal(users) == old(GrandTotal(users))
        invariant SameTotals(old(users), users)
        invariant forall key: Key | key.0 != tag :: key in mappings <==> key in old(mappings)
        invariant forall key | key in old(mappings) :: key in mappings && mappings[key] == old(mappings)[key]
        invariant forall i :: (tag, i) in mappings <==> exists j | 0 <= j < k :: Owns(byUser, relations[j].user, i)
        invariant forall i | (tag, i) in mappings :: Owns(byUser, mappings[(tag, i)], i)
      {
        var u := relations[k].user;
        assert forall i :: i in Values(byUser, u) <==> Owns(byUser, u, i);
        forall key | key in mappings && key.0 == tag
          ensures Owns(byUser, mappings[key], key.1)
        {
          assert key == (tag, key.1);
        }
        AddRelation(tag, u, Values(byUser, u), byUser);
      }
    }

    method UniqueIdentities(records: seq<Record>) returns (identities: seq<Identity>)
      ensures forall i :: i in identities <==> exists r :: r in records && r.user == i
    {
      identities := [];
      for k := 0 to |records|
        invariant forall i :: i in identities <==> exists j | 0 <= j < k :: records[j].user == i
      {
        identities := AppendUnique(identities, records[k].user);
      }
    }

    /** What is listed for one tag with relations. */
    method ListTag(tag: Tag, records: seq<Record>, relations: seq<Relation>, identities: seq<Identity>,
                   rest: seq<Identity>)
      returns (part: seq<UnassignedPort>)
      requires relations != [] && forall i :: i in identities <==> exists r :: r in records && r.user == i
      requires forall r :: r in records ==> r.tag == tag
      requires ListsUnassigned(relations) ==>
                 forall i :: i in rest <==> i in identities && OwnerOf(relations, i) == None
      requires !ListsUnassigned(relations) ==> rest == []
      ensures |part| <= 1 && forall p | p in part :: p.tag == tag
      ensures ListsTag(part, records, tag, relations)
    {
      forall i
        ensures Unowned(records, tag, relations, i) <==> i in identities && OwnerOf(relations, i) == None
      {
      }
      part := [];
      if |rest| > 0 {
        part := [UnassignedPort(tag, rest)];
        assert part[0] in part && rest[0] in rest;
      }
    }

    /** Everything about one tag. */
    method AddTag(tag: Tag, records: seq<Record>, relations: seq<Relation>) returns (ghost part: seq<UnassignedPort>)
      requires Valid() && forall r :: r in records ==> r.tag == tag
      requires forall key | key in mappings :: key.0 != tag
      modifies this
      ensures Valid()
      ensures AgreeBut(tag, old(mappings), mappings)
      ensures forall r :: r in records ==> Lookup(mappings, (tag, r.user)) == OwnerOf(relations, r.user)
      ensures GrandTotal(users) == old(GrandTotal(users)) + TagTotal(records, mappings)
      ensures AddedAll(old(users), users, records, mappings)
      ensures unassigned == old(unassigned) + part && |part| <= 1 && forall p | p in part :: p.tag == tag
      ensures ListsTag(part, records, tag, relations)
    {
      var identities := UniqueIdentities(records);
      forall i ensures OwnerOf([], i) == None { NobodyOwnsWithoutRelations(i); }
      if relations == [] {
        part := [UnassignedPort(tag, identities)];
        assert part[0] in part;
        unassigned := unassigned + [UnassignedPort(tag, identities)];
        NothingMapped(tag, records, mappings);
        forall t, u ensures PortPart(records, t, mappings, u) == 0 { NothingForUser(tag, records, mappings, t, u); }
        forall u ensures UserPart(records, mappings, u) == 0 { NothingForUser(tag, records, mappings, tag, u); }
        return;
      }
      var rest := MapTag(tag, records, relations, identities);
      var listed := ListTag(tag, records, relations, identities, rest);
      part := listed;
      unassigned := unassigned + listed;
      AddRecords(tag, records);
    }

    /** Resolves a tag's identities and maps them; returns the unassigned ones. */
    method MapTag(tag: Tag, records: seq<Record>, relations: seq<Relation>, identities: seq<Identity>)
      returns (rest: seq<Identity>)
      requires Valid() && relations != [] && forall key | key in mappings :: key.0 != tag
      requires forall i :: i in identities <==> exists r :: r in records && r.user == i
      modifies this
      ensures Valid() && unassigned == old(unassigned)
      ensures AgreeBut(tag, old(mappings), mappings)
      ensures forall r :: r in records ==> Lookup(mappings, (tag, r.user)) == OwnerOf(relations, r.user)
      ensures GrandTotal(users) == old(GrandTotal(users)) && SameTotals(old(users), users)
      ensures ListsUnassigned(relations) ==> forall i :: i in rest <==> i in identities && OwnerOf(relations, i) == None
      ensures !ListsUnassigned(relations) ==> rest == []
    {
      var resolution := new Resolution();
      resolution.Resolve(relations, identities);
      AddRelations(tag, relations, resolution.byUser);
      forall r | r in records
        ensures Lookup(mappings, (tag, r.user)) == OwnerOf(relations, r.user)
      {
        assert r.user in identities;
        OwnerIsMapped(tag, relations, resolution.byUser, mappings, r.user);
      }
      return resolution.unassigned;
    }

    lemma OwnerIsMapped(tag: Tag, relations: seq<Relation>, byUser: Lists, mappings: map<Key, User>, i: Identity)
      requires forall u :: Owns(byUser, u, i) <==> OwnerOf(relations, i) == Some(u)
      requires (tag, i) in mappings <==> exists r :: r in relations && Owns(byUser, r.user, i)
      requires (tag, i) in mappings ==> Owns(byUser, mappings[(tag, i)], i)
      ensures Lookup(mappings, (tag, i)) == OwnerOf(relations, i)
    {
      if OwnerOf(relations, i).Some? {
        OwnersAreRelated(relations, i);
        var r :| r in relations && r.user == OwnerOf(relations, i).value;
        assert Owns(byUser, r.user, i);
      }
    }

    lemma {:induction false} NothingMapped(tag: Tag, records: seq<Record>, mappings: map<Key, User>)
      requires forall r :: r in records ==> r.tag == tag
      requires forall key | key in mappings :: key.0 != tag
      ensures TagTotal(records, mappings) == 0
    {
      if records != [] {
        var rest, last := records[..|records| - 1], records[|records| - 1];
        assert last in records && (last.tag, last.user).0 == tag;
        NothingMapped(tag, rest, mappings);
      }
    }

    /** The whole view.  An identity on a named tag is mapped to exactly the user the ownership
        rule gives for the tag's effective relations; every user has at most one port per tag; each
        port's total is that of exactly the tag's records that are mapped to its user, each user's
        that of exactly the records mapped to them, and no mapped record is lost; and a tag is
        listed as unassigned, with exactly the identities nobody owns, when the rule says so. */
    method BuildView(records: seq<Record>, inbounds: set<Tag>, relationsByTag: map<Tag, seq<Relation>>)
      requires users == map[] && mappings == map[] && unassigned == [] && "" !in inbounds
      modifies this
      ensures Valid()
      ensures forall r :: r in records && r.tag != "" ==>
        Lookup(mappings, (r.tag, r.user)) == OwnerOf(EffectiveOf(relationsByTag, r.tag), r.user)
      ensures forall r, u | r in records && r.tag != "" && r.tag in relationsByTag &&
                            BoundTo(relationsByTag[r.tag], u, r.user) ::
        Lookup(mappings, (r.tag, r.user)) == Some(u)
      ensures forall u | u in users :: OnePortPerTag(users[u])
      ensures GrandTotal(users) == RecordsTotal(records, mappings)
      ensures forall u, t | t in TagsOf(records, inbounds) ::
        PortTotal(PortsOf(users, u), t) == PortPart(records, t, mappings, u)
      ensures forall u :: PortsTotal(PortsOf(users, u)) == UserPart(records, mappings, u)
      ensures ListingIs(unassigned, records, relationsByTag, TagsOf(records, inbounds))
    {
      var tags := TagsOf(records, inbounds);
      var todo := tags;
      EmptyTotal(records);
      forall u ensures PartOfTags(records, {}, map[], u) == 0 { NothingDone(records, u); }
      assert tags - todo == {};
      while todo != {}
        invariant Valid() && todo <= tags
        invariant forall key | key in mappings :: key.0 in tags - todo
        invariant forall r :: r in records && r.tag in tags - todo ==>
          Lookup(mappings, (r.tag, r.user)) == OwnerOf(EffectiveOf(relationsByTag, r.tag), r.user)
        invariant GrandTotal(users) == MappedTotal(records, tags - todo, mappings)
        invariant TotalsAre(users, records, tags - todo, mappings)
        invariant ListingIs(unassigned, records, relationsByTag, tags - todo)
        decreases todo
      {
        var tag :| tag in todo;
        ghost var done := tags - todo;
        todo := todo - {tag};
        assert tags - todo == done + {tag};
        AddOneTag(tag, records, relationsByTag, done);
      }
      assert tags - todo == tags;
      forall r | r in records
        ensures r.tag in tags || (r.tag, r.user) !in mappings
      {
        assert (r.tag, r.user).0 == r.tag;
      }
      AllTagsTotal(records, tags, mappings);
      forall u ensures PartOfTags(records, tags, mappings, u) == UserPart(records, mappings, u) {
        AllTagsOfUser(records, tags, mappings, u);
      }
      forall r, u | r in records && r.tag != "" && r.tag in relationsByTag &&
                    BoundTo(relationsByTag[r.tag], u, r.user)
        ensures Lookup(mappings, (r.tag, r.user)) == Some(u)
      {
        BindingDecides(relationsByTag[r.tag], u, r.user);
      }
    }

    /** One round of the loop over the tags. */
    method AddOneTag(tag: Tag, records: seq<Record>, relationsByTag: map<Tag, seq<Relation>>, ghost done: set<Tag>)
      requires Valid() && tag !in done && forall key | key in mappings :: key.0 in done
      requires forall r :: r in records && r.tag in done ==>
        Lookup(mappings, (r.tag, r.user)) == OwnerOf(EffectiveOf(relationsByTag, r.tag), r.user)
      requires GrandTotal(users) == MappedTotal(records, done, mappings) && TotalsAre(users, records, done, mappings)
      requires ListingIs(unassigned, records, relationsByTag, done)
      modifies this
      ensures Valid() && forall key | key in mappings :: key.0 in done + {tag}
      ensures forall r :: r in records && r.tag in done + {tag} ==>
        Lookup(mappings, (r.tag, r.user)) == OwnerOf(EffectiveOf(relationsByTag, r.tag), r.user)
      ensures GrandTotal(users) == MappedTotal(records, done + {tag}, mappings)
      ensures TotalsAre(users, records, done + {tag}, mappings)
      ensures ListingIs(unassigned, records, relationsByTag, done + {tag})
    {
      ghost var before, listed, users0 := mappings, unassigned, users;
      var effective: seq<Relation> := [];
      if tag in relationsByTag {
        effective := EffectiveRelations(relationsByTag[tag]);
      }
      OfTagIs(records, tag);
      ghost var part := AddTag(tag, OfTag(records, tag), effective);
      forall key: Key | key.0 != tag
        ensures key in before <==> key in mappings
      {
        assert Lookup(mappings, key) == Lookup(before, key);
      }
      TagAddsItsRecords(records, done, tag, before, mappings);
      TotalsWithTag(users0, users, records, done, tag, before, mappings);
      ListingWithTag(listed, part, records, relationsByTag, done, tag);
      forall r | r in records && r.tag in done + {tag}
        ensures Lookup(mappings, (r.tag, r.user)) == OwnerOf(EffectiveOf(relationsByTag, r.tag), r.user)
      {
        assert (r.tag, r.user).0 == r.tag;
        if r.tag == tag {
          assert r in OfTag(records, tag);
        }
      }
    }

    lemma {:induction false} EmptyTotal(records: seq<Record>)
      ensures MappedTotal(records, {}, map[]) == 0
    {
      if records != [] {
        EmptyTotal(records[..|records| - 1]);
      }
    }
  }
}
