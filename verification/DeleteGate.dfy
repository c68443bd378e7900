/** Deleting a user from an inbound: the plan made from one configuration, and the gates a
    later configuration has to pass before anything is removed.

    Entries stand for their own hashes. */
module DeleteGate {

  import opened AccessSwap

  datatype Action = DeleteWhole | RemoveUser | Conflict

  datatype PlanStatus = Open | Done | Blocked

  /** A binding of somebody else to the inbound: whose it is, as written and trimmed, whether
      it names no credential (exactly, and up to white space), and the entries it matches. */
  datatype Binding = Binding(username: string, name: string, empty: bool, blank: bool, matches: set<Credential>)

  datatype Plan = Plan(action: Action, status: PlanStatus, protocol: string,
                       targets: seq<Credential>, nonTargets: seq<Credential>, defaults: seq<Credential>)

  datatype Config = Missing | Unreadable(protocol: string) | Listed(protocol: string, entries: seq<Credential>)

  // ---------- what the plan says ----------

  function Targets(own: set<Credential>, entries: seq<Credential>): seq<Credential> {
    if entries == [] then []
    else
      var last := entries[|entries| - 1];
      Targets(own, entries[..|entries| - 1]) + if last in own then [last] else []
  }

  function NonTargets(own: set<Credential>, entries: seq<Credential>): seq<Credential> {
    if entries == [] then []
    else
      var last := entries[|entries| - 1];
      NonTargets(own, entries[..|entries| - 1]) + if last in own then [] else [last]
  }

  /** Somebody else's binding accounts for the entry. */
  predicate Covered(bindings: seq<Binding>, entry: Credential) {
    exists b :: b in bindings && (entry in b.matches || b.blank)
  }

  predicate IsDefault(defaults: seq<Credential>, entry: Credential) {
    exists d :: d in defaults && Matches(entry, d)
  }

  function PlannedDefaults(bindings: seq<Binding>, defaults: seq<Credential>,
                           others: seq<Credential>): seq<Credential> {
    if others == [] then []
    else
      var last := others[|others| - 1];
      PlannedDefaults(bindings, defaults, others[..|others| - 1]) +
      if !Covered(bindings, last) && IsDefault(defaults, last) then [last] else []
  }

  /** Nobody is known to use the entry. */
  predicate Unknown(bindings: seq<Binding>, defaults: seq<Credential>, entry: Credential) {
    !Covered(bindings, entry) && !IsDefault(defaults, entry)
  }

  predicate AnyUnknown(bindings: seq<Binding>, defaults: seq<Credential>, others: seq<Credential>) {
    exists e :: e in others && Unknown(bindings, defaults, e)
  }

  /** A binding of somebody else may be using the target too. */
  predicate Uses(binding: Binding, target: Credential) {
    binding.empty || target in binding.matches
  }

  predicate Shared(bindings: seq<Binding>, targets: seq<Credential>) {
    exists t, b :: t in targets && b in bindings && Uses(b, t)
  }

  function BusinessUsers(bindings: seq<Binding>): set<string> {
    set b | b in bindings && b.name != "" :: b.name
  }

  function BlankUsers(bindings: seq<Binding>): set<string> {
    set b | b in bindings && b.blank :: b.username
  }

  function MatchingUsers(bindings: seq<Binding>, entry: Credential): set<string> {
    set b | b in bindings && entry in b.matches :: b.username
  }

  function AccountedUsers(bindings: seq<Binding>, entry: Credential): set<string> {
    MatchingUsers(bindings, entry) + if Covered(bindings, entry) then BlankUsers(bindings) else {}
  }

  /** Users whose bindings some other entry accounts for. */
  function MatchedUsers(bindings: seq<Binding>, others: seq<Credential>): set<string> {
    if others == [] then {}
    else
      var last := others[|others| - 1];
      MatchedUsers(bindings, others[..|others| - 1]) + AccountedUsers(bindings, last)
  }

  /** The plan for an inbound that lists its entries. */
  function Decide(protocol: string, own: set<Credential>, entries: seq<Credential>, bindings: seq<Binding>,
                  defaults: seq<Credential>): Plan {
    var targets, others := Targets(own, entries), NonTargets(own, entries);
    var planned := Plan(Conflict, Blocked, protocol, targets, others, PlannedDefaults(bindings, defaults, others));
    if Shared(bindings, targets) then planned.(defaults := [])
    else if AnyUnknown(bindings, defaults, others) then planned
    else if |MatchedUsers(bindings, others)| < |BusinessUsers(bindings)| then planned
    else if BusinessUsers(bindings) != {}
      then planned.(action := RemoveUser, status := if targets == [] then Done else Open)
    else if targets == [] then planned.(action := RemoveUser, status := Done)
    else planned.(action := DeleteWhole, status := Open)
  }

  // ---------- what the plan means ----------

  /** The targets are the user's own entries and the others are all the rest, entry for entry. */
  lemma {:induction false} EntriesAreSplit(own: set<Credential>, entries: seq<Credential>)
    ensures multiset(Targets(own, entries)) + multiset(NonTargets(own, entries)) == multiset(entries)
    ensures forall e :: e in Targets(own, entries) <==> e in entries && e in own
    ensures forall e :: e in NonTargets(own, entries) <==> e in entries && e !in own
  {
    if entries != [] {
      var rest, last := entries[..|entries| - 1], entries[|entries| - 1];
      assert entries == rest + [last];
      EntriesAreSplit(own, rest);
    }
  }

  /** Somebody else may be using an entry of the user. */
  ghost predicate InUse(own: set<Credential>, entries: seq<Credential>, bindings: seq<Binding>) {
    exists e, b :: e in entries && e in own && b in bindings && (b.empty || e in b.matches)
  }

  /** An entry that is not the user's, no binding accounts for, and is no default one. */
  ghost predicate Stray(own: set<Credential>, bindings: seq<Binding>, defaults: seq<Credential>, e: Credential) {
    e !in own && Unclaimed(bindings, e) &&
    forall d :: d in defaults ==> !Matches(e, d)
  }

  /** Some entry that is not the user's can be the one of the binding. */
  ghost predicate Served(own: set<Credential>, entries: seq<Credential>, b: Binding) {
    exists e :: e in entries && e !in own && (e in b.matches || b.blank)
  }

  ghost function ServedUsers(own: set<Credential>, entries: seq<Credential>, bindings: seq<Binding>): set<string> {
    set b | b in bindings && Served(own, entries, b) :: b.username
  }

  /** Something stands in the way: an entry in use by others, one of unknown origin, or fewer users
      with an entry than there are users. */
  ghost predicate Obstructed(own: set<Credential>, entries: seq<Credential>, bindings: seq<Binding>,
                             defaults: seq<Credential>) {
    InUse(own, entries, bindings) || (exists e :: e in entries && Stray(own, bindings, defaults, e)) ||
    |ServedUsers(own, entries, bindings)| < |set b | b in bindings && b.name != "" :: b.name|
  }

  /** No binding accounts for the entry. */
  ghost predicate Unclaimed(bindings: seq<Binding>, e: Credential) {
    forall b :: b in bindings ==> e !in b.matches && !b.blank
  }

  /** The planned defaults are unclaimed other entries that match a default credential ... */
  ghost predicate OnlyDefaults(planned: seq<Credential>, others: seq<Credential>, bindings: seq<Binding>,
                               defaults: seq<Credential>) {
    forall e :: e in planned ==> e in others && Unclaimed(bindings, e) && exists d :: d in defaults && Matches(e, d)
  }

  /** ... and every unclaimed other entry is one. */
  ghost predicate AllUnclaimed(planned: seq<Credential>, others: seq<Credential>, bindings: seq<Binding>) {
    forall e :: e in others && Unclaimed(bindings, e) ==> e in planned
  }

  /** What a plan for a listed inbound is. */
  ghost predicate PlanIs(plan: Plan, own: set<Credential>, entries: seq<Credential>, bindings: seq<Binding>,
                         defaults: seq<Credential>) {
    && multiset(plan.targets) + multiset(plan.nonTargets) == multiset(entries)
    && (forall e :: e in plan.targets <==> e in entries && e in own)
    && (forall e :: e in plan.nonTargets <==> e in entries && e !in own)
    && (plan.action == Conflict <==> Obstructed(own, entries, bindings, defaults))
    && (plan.action == DeleteWhole <==> !Obstructed(own, entries, bindings, defaults) && plan.targets != [] &&
                                        forall b :: b in bindings ==> b.name == "")
    && (plan.status == Blocked <==> plan.action == Conflict)
    && (plan.action != Conflict ==> (plan.status == Done <==> plan.targets == []))
    && OnlyDefaults(plan.defaults, plan.nonTargets, bindings, defaults)
    && (plan.action != Conflict ==> AllUnclaimed(plan.defaults, plan.nonTargets, bindings))
  }

  ghost predicate ServedBy(bindings: seq<Binding>, e: Credential, u: string) {
    exists b :: b in bindings && b.username == u && (e in b.matches || b.blank)
  }

  lemma AccountedAre(bindings: seq<Binding>, e: Credential, u: string)
    ensures u in AccountedUsers(bindings, e) <==> ServedBy(bindings, e, u)
  {
    if b :| b in bindings && b.username == u && (e in b.matches || b.blank) {
      assert b.blank ==> u in BlankUsers(bindings) && Covered(bindings, e);
      assert e in b.matches ==> u in MatchingUsers(bindings, e);
    }
  }

  lemma {:induction false} MatchedAre(bindings: seq<Binding>, others: seq<Credential>, u: string)
    ensures u in MatchedUsers(bindings, others) <==> exists e :: e in others && ServedBy(bindings, e, u)
  {
    if others != [] {
      var rest, last := others[..|others| - 1], others[|others| - 1];
      assert others == rest + [last];
      MatchedAre(bindings, rest, u);
      AccountedAre(bindings, last, u);
    }
  }

  lemma MatchedAreServed(own: set<Credential>, entries: seq<Credential>, bindings: seq<Binding>)
    ensures MatchedUsers(bindings, NonTargets(own, entries)) == ServedUsers(own, entries, bindings)
  {
    EntriesAreSplit(own, entries);
    forall u
      ensures u in MatchedUsers(bindings, NonTargets(own, entries)) <==> u in ServedUsers(own, entries, bindings)
    {
      MatchedAre(bindings, NonTargets(own, entries), u);
      if u in ServedUsers(own, entries, bindings) {
        var b :| b in bindings && Served(own, entries, b) && b.username == u;
        var e :| e in entries && e !in own && (e in b.matches || b.blank);
        assert e in NonTargets(own, entries) && ServedBy(bindings, e, u);
      }
    }
  }

  lemma {:induction false} DefaultsAre(bindings: seq<Binding>, defaults: seq<Credential>, others: seq<Credential>,
                                       e: Credential)
    ensures e in PlannedDefaults(bindings, defaults, others) <==>
            e in others && Unclaimed(bindings, e) && exists d :: d in defaults && Matches(e, d)
  {
    if others != [] {
      var rest, last := others[..|others| - 1], others[|others| - 1];
      assert others == rest + [last];
      DefaultsAre(bindings, defaults, rest, e);
    }
  }

  lemma SharedIsInUse(own: set<Credential>, entries: seq<Credential>, bindings: seq<Binding>)
    ensures Shared(bindings, Targets(own, entries)) <==> InUse(own, entries, bindings)
  {
    EntriesAreSplit(own, entries);
    if InUse(own, entries, bindings) {
      var e, b :| e in entries && e in own && b in bindings && (b.empty || e in b.matches);
      assert e in Targets(own, entries) && Uses(b, e);
    }
  }

  lemma UnknownIsStray(own: set<Credential>, entries: seq<Credential>, bindings: seq<Binding>,
                       defaults: seq<Credential>)
    ensures AnyUnknown(bindings, defaults, NonTargets(own, entries)) <==>
            exists e :: e in entries && Stray(own, bindings, defaults, e)
  {
    EntriesAreSplit(own, entries);
    if e :| e in entries && Stray(own, bindings, defaults, e) {
      assert e in NonTargets(own, entries) && Unknown(bindings, defaults, e);
    }
    if e :| e in NonTargets(own, entries) && Unknown(bindings, defaults, e) {
      assert Stray(own, bindings, defaults, e);
    }
  }

  lemma ObstructedIs(own: set<Credential>, entries: seq<Credential>, bindings: seq<Binding>,
                     defaults: seq<Credential>)
    ensures Obstructed(own, entries, bindings, defaults) <==>
            Shared(bindings, Targets(own, entries)) || AnyUnknown(bindings, defaults, NonTargets(own, entries)) ||
            |MatchedUsers(bindings, NonTargets(own, entries))| < |BusinessUsers(bindings)|
  {
    SharedIsInUse(own, entries, bindings);
    UnknownIsStray(own, entries, bindings, defaults);
    MatchedAreServed(own, entries, bindings);
    NobodyNamed(bindings);
  }

  lemma AllDefaultsAre(bindings: seq<Binding>, defaults: seq<Credential>, others: seq<Credential>)
    ensures OnlyDefaults(PlannedDefaults(bindings, defaults, others), others, bindings, defaults)
    ensures OnlyDefaults([], others, bindings, defaults)
  {
    forall e | e in PlannedDefaults(bindings, defaults, others)
      ensures e in others && Unclaimed(bindings, e) && exists d :: d in defaults && Matches(e, d)
    {
      DefaultsAre(bindings, defaults, others, e);
    }
  }

  lemma KnownAreDefaults(bindings: seq<Binding>, defaults: seq<Credential>, others: seq<Credential>)
    requires !AnyUnknown(bindings, defaults, others)
    ensures AllUnclaimed(PlannedDefaults(bindings, defaults, others), others, bindings)
  {
    forall e | e in others && Unclaimed(bindings, e)
      ensures e in PlannedDefaults(bindings, defaults, others)
    {
      assert !Unknown(bindings, defaults, e);
      DefaultsAre(bindings, defaults, others, e);
    }
  }

  lemma NobodyBound(bindings: seq<Binding>)
    ensures BusinessUsers(bindings) == {} <==> forall b :: b in bindings ==> b.name == ""
  {
    NobodyNamed(bindings);
  }

  lemma DecisionIsPlan(protocol: string, own: set<Credential>, entries: seq<Credential>, bindings: seq<Binding>,
                       defaults: seq<Credential>)
    ensures PlanIs(Decide(protocol, own, entries, bindings, defaults), own, entries, bindings, defaults)
  {
    EntriesAreSplit(own, entries);
    ObstructedIs(own, entries, bindings, defaults);
    AllDefaultsAre(bindings, defaults, NonTargets(own, entries));
    if !AnyUnknown(bindings, defaults, NonTargets(own, entries)) {
      KnownAreDefaults(bindings, defaults, NonTargets(own, entries));
    }
    NobodyBound(bindings);
  }

  lemma NobodyNamed(bindings: seq<Binding>)
    ensures BusinessUsers(bindings) == {} <==> forall b :: b in bindings ==> b.name == ""
    ensures BusinessUsers(bindings) == set b | b in bindings && b.name != "" :: b.name
  {
    if b :| b in bindings && b.name != "" {
      assert b.name in BusinessUsers(bindings);
    }
  }

  // ---------- making the plan ----------

  method SplitEntries(own: set<Credential>, entries: seq<Credential>)
    returns (targets: seq<Credential>, others: seq<Credential>)
    ensures targets == Targets(own, entries) && others == NonTargets(own, entries)
  {
    targets, others := [], [];
    for i := 0 to |entries|
      invariant targets == Targets(own, entries[..i]) && others == NonTargets(own, entries[..i])
    {
      assert entries[..i + 1][..i] == entries[..i];
      if entries[i] in own {
        targets := targets + [entries[i]];
      } else {
        others := others + [entries[i]];
      }
    }
    assert entries[..|entries|] == entries;
  }

  method FindShared(bindings: seq<Binding>, targets: seq<Credential>) returns (shared: bool)
    ensures shared <==> Shared(bindings, targets)
  {
    for i := 0 to |targets|
      invariant forall t, b :: t in targets[..i] && b in bindings ==> !Uses(b, t)
    {
      for j := 0 to |bindings|
        invariant forall b :: b in bindings[..j] ==> !Uses(b, targets[i])
      {
        if Uses(bindings[j], targets[i]) {
          return true;
        }
      }
    }
    return false;
  }

  method CollectUsers(bindings: seq<Binding>) returns (users: set<string>, blankUsers: set<string>, wholePort: bool)
    ensures users == BusinessUsers(bindings) && blankUsers == BlankUsers(bindings)
    ensures wholePort <==> exists b :: b in bindings && b.blank
  {
    users, blankUsers, wholePort := {}, {}, false;
    for i := 0 to |bindings|
      invariant users == BusinessUsers(bindings[..i]) && blankUsers == BlankUsers(bindings[..i])
      invariant wholePort <==> exists b :: b in bindings[..i] && b.blank
    {
      var b := bindings[i];
      assert bindings[..i + 1] == bindings[..i] + [b];
      if b.name != "" {
        users := users + {b.name};
      }
      if b.blank {
        wholePort, blankUsers := true, blankUsers + {b.username};
      }
    }
    assert bindings[..|bindings|] == bindings;
  }

  method FindMatching(bindings: seq<Binding>, entry: Credential) returns (found: bool, users: set<string>)
    ensures found <==> exists b :: b in bindings && entry in b.matches
    ensures users == MatchingUsers(bindings, entry)
  {
    found, users := false, {};
    for i := 0 to |bindings|
      invariant found <==> exists b :: b in bindings[..i] && entry in b.matches
      invariant users == MatchingUsers(bindings[..i], entry)
    {
      var b := bindings[i];
      assert bindings[..i + 1] == bindings[..i] + [b];
      if entry in b.matches {
        found, users := true, users + {b.username};
      }
    }
    assert bindings[..|bindings|] == bindings;
  }

  method FindDefault(defaults: seq<Credential>, entry: Credential) returns (found: bool)
    ensures found <==> IsDefault(defaults, entry)
  {
    for i := 0 to |defaults|
      invariant forall d :: d in defaults[..i] ==> !Matches(entry, d)
    {
      if Matches(entry, defaults[i]) {
        return true;
      }
    }
    return false;
  }

  method Account(bindings: seq<Binding>, entry: Credential, blankUsers: set<string>, wholePort: bool)
    returns (covered: bool, users: set<string>)
    requires blankUsers == BlankUsers(bindings)
    requires wholePort <==> exists b :: b in bindings && b.blank
    ensures covered <==> Covered(bindings, entry)
    ensures users == AccountedUsers(bindings, entry)
  {
    covered, users := FindMatching(bindings, entry);
    if covered || wholePort {
      covered, users := true, users + blankUsers;
    }
  }

  method ClassifyOthers(bindings: seq<Binding>, defaults: seq<Credential>, others: seq<Credential>,
                        blankUsers: set<string>, wholePort: bool)
    returns (matched: set<string>, planned: seq<Credential>, unknown: nat)
    requires blankUsers == BlankUsers(bindings)
    requires wholePort <==> exists b :: b in bindings && b.blank
    ensures matched == MatchedUsers(bindings, others)
    ensures planned == PlannedDefaults(bindings, defaults, others)
    ensures unknown > 0 <==> AnyUnknown(bindings, defaults, others)
  {
    matched, planned, unknown := {}, [], 0;
    for i := 0 to |others|
      invariant matched == MatchedUsers(bindings, others[..i])
      invariant planned == PlannedDefaults(bindings, defaults, others[..i])
      invariant unknown > 0 <==> AnyUnknown(bindings, defaults, others[..i])
    {
      var entry := others[i];
      assert others[..i + 1][..i] == others[..i] && others[..i + 1] == others[..i] + [entry];
      var covered, users := Account(bindings, entry, blankUsers, wholePort);
      matched := matched + users;
      if covered {
        assert !Unknown(bindings, defaults, entry);
        continue;
      }
      var default := FindDefault(defaults, entry);
      if default {
        planned := planned + [entry];
      } else {
        assert Unknown(bindings, defaults, entry) && entry in others[..i + 1];
        unknown := unknown + 1;
      }
    }
    assert others[..|others|] == others;
  }

  /** The plan for an inbound as found: a missing inbound counts as deleted, one whose entries
      cannot be listed is a conflict. */
  method Analyze(config: Config, known: string, own: set<Credential>, bindings: seq<Binding>,
                 defaults: seq<Credential>) returns (plan: Plan)
    ensures config.Missing? ==> plan == Plan(DeleteWhole, Done, known, [], [], [])
    ensures config.Unreadable? ==> plan == Plan(Conflict, Blocked, config.protocol, [], [], [])
    ensures config.Listed? ==> plan == Decide(config.protocol, own, config.entries, bindings, defaults)
    ensures config.Listed? ==> plan.protocol == config.protocol && PlanIs(plan, own, config.entries, bindings, defaults)
  {
    if config.Listed? {
      DecisionIsPlan(config.protocol, own, config.entries, bindings, defaults);
    }
    var users, blankUsers, wholePort := CollectUsers(bindings);
    match config
    case Missing =>
      return Plan(DeleteWhole, Done, known, [], [], []);
    case Unreadable(protocol) =>
      return Plan(Conflict, Blocked, protocol, [], [], []);
    case Listed(protocol, entries) =>
      var targets, others := SplitEntries(own, entries);
      var shared := FindShared(bindings, targets);
      if shared {
        return Plan(Conflict, Blocked, protocol, targets, others, []);
      }
      var matched, planned, unknown := ClassifyOthers(bindings, defaults, others, blankUsers, wholePort);
      plan := Plan(Conflict, Blocked, protocol, targets, others, planned);
      if unknown > 0 || |matched| < |users| {
        return;
      }
      if |users| > 0 {
        return plan.(action := RemoveUser, status := if targets == [] then Done else Open);
      }
      if targets == [] {
        return plan.(action := RemoveUser, status := Done);
      }
      return plan.(action := DeleteWhole, status := Open);
  }

  // ---------- the gates ----------

  predicate IsTarget(targets: seq<Credential>, entry: Credential) {
    exists t :: t in targets && Matches(entry, t)
  }

  function LiveTargets(targets: seq<Credential>, entries: seq<Credential>): seq<Credential> {
    if entries == [] then []
    else
      var last := entries[|entries| - 1];
      LiveTargets(targets, entries[..|entries| - 1]) + if IsTarget(targets, last) then [last] else []
  }

  function LiveOthers(targets: seq<Credential>, entries: seq<Credential>): seq<Credential> {
    if entries == [] then []
    else
      var last := entries[|entries| - 1];
      LiveOthers(targets, entries[..|entries| - 1]) + if IsTarget(targets, last) then [] else [last]
  }

  /** The live entries are the targets' and the others, entry for entry. */
  lemma {:induction false} LiveIsSplit(targets: seq<Credential>, entries: seq<Credential>)
    ensures multiset(LiveTargets(targets, entries)) + multiset(LiveOthers(targets, entries)) == multiset(entries)
    ensures forall e :: e in LiveTargets(targets, entries) <==>
                          e in entries && exists t :: t in targets && Matches(e, t)
    ensures forall e :: e in LiveOthers(targets, entries) <==>
                          e in entries && forall t :: t in targets ==> !Matches(e, t)
  {
    if entries != [] {
      var rest, last := entries[..|entries| - 1], entries[|entries| - 1];
      assert entries == rest + [last];
      LiveIsSplit(targets, rest);
    }
  }

  datatype Decision = Withhold | FinishNodes | Nothing | RemoveInbound | RemoveClients(clients: seq<Credential>)

  /** The other credentials on the inbound are the planned ones, one for one. */
  ghost predicate FirstGate(plan: Plan, entries: seq<Credential>) {
    multiset(LiveOthers(plan.targets, entries)) == multiset(plan.nonTargets)
  }

  /** Every other credential is a planned default one. */
  ghost predicate SecondGate(plan: Plan, entries: seq<Credential>) {
    multiset(LiveOthers(plan.targets, entries)) <= multiset(plan.defaults)
  }

  function CountOf(counts: map<Credential, nat>, c: Credential): nat {
    if c in counts then counts[c] else 0
  }

  ghost predicate Counts(counts: map<Credential, nat>, m: multiset<Credential>) {
    forall c :: CountOf(counts, c) == m[c]
  }

  method HashCounts(hashes: seq<Credential>) returns (counts: map<Credential, nat>)
    ensures Counts(counts, multiset(hashes))
  {
    counts := map[];
    for i := 0 to |hashes|
      invariant Counts(counts, multiset(hashes[..i]))
    {
      assert hashes[..i + 1] == hashes[..i] + [hashes[i]];
      counts := counts[hashes[i] := CountOf(counts, hashes[i]) + 1];
    }
    assert hashes[..|hashes|] == hashes;
  }

  method FindTarget(targets: seq<Credential>, entry: Credential) returns (found: bool)
    ensures found <==> IsTarget(targets, entry)
  {
    for i := 0 to |targets|
      invariant forall t :: t in targets[..i] ==> !Matches(entry, t)
    {
      if Matches(entry, targets[i]) {
        return true;
      }
    }
    return false;
  }

  /** The allowed entries are the ones taken so far and what is left, counted. */
  ghost predicate Consumed(left: map<Credential, nat>, allowed: seq<Credential>, taken: seq<Credential>) {
    forall c :: multiset(taken)[c] + CountOf(left, c) == multiset(allowed)[c]
  }

  ghost predicate Within(taken: seq<Credential>, allowed: seq<Credential>) {
    multiset(taken) <= multiset(allowed)
  }

  lemma ConsumedIsWithin(left: map<Credential, nat>, allowed: seq<Credential>, taken: seq<Credential>)
    requires Consumed(left, allowed, taken)
    ensures Within(taken, allowed)
  {
    forall c ensures multiset(taken)[c] <= multiset(allowed)[c] {
      assert CountOf(left, c) >= 0;
    }
  }

  function TakeOff(left: map<Credential, nat>, entry: Credential): map<Credential, nat>
    requires CountOf(left, entry) > 0
  {
    left[entry := left[entry] - 1]
  }

  lemma TakeOne(left: map<Credential, nat>, allowed: seq<Credential>, taken: seq<Credential>, entry: Credential)
    requires Consumed(left, allowed, taken)
    ensures CountOf(left, entry) == 0 ==> !Within(taken + [entry], allowed)
    ensures CountOf(left, entry) > 0 ==> Consumed(TakeOff(left, entry), allowed, taken + [entry])
  {
    assert multiset(taken + [entry])[entry] == multiset(taken)[entry] + 1;
    if CountOf(left, entry) > 0 {
      var after := TakeOff(left, entry);
      forall c ensures multiset(taken + [entry])[c] + CountOf(after, c) == multiset(allowed)[c] {
        if c != entry {
          assert CountOf(after, c) == CountOf(left, c);
        }
      }
    }
  }

  lemma {:induction false} TakenStay(targets: seq<Credential>, entries: seq<Credential>, allowed: seq<Credential>,
                                     n: nat)
    requires n <= |entries| && !Within(LiveOthers(targets, entries[..n]), allowed)
    ensures !Within(LiveOthers(targets, entries), allowed)
    decreases |entries|
  {
    if n < |entries| {
      assert entries[..|entries| - 1][..n] == entries[..n];
      TakenStay(targets, entries[..|entries| - 1], allowed, n);
      assert multiset(LiveOthers(targets, entries[..|entries| - 1])) <= multiset(LiveOthers(targets, entries));
    } else {
      assert entries[..n] == entries;
    }
  }

  lemma LiveStep(targets: seq<Credential>, entries: seq<Credential>, i: nat)
    requires i < |entries|
    ensures var others, live := LiveOthers(targets, entries[..i]), LiveTargets(targets, entries[..i]);
            var target := IsTarget(targets, entries[i]);
            LiveOthers(targets, entries[..i + 1]) == (if target then others else others + [entries[i]]) &&
            LiveTargets(targets, entries[..i + 1]) == (if target then live + [entries[i]] else live)
  {
    assert entries[..i + 1][..i] == entries[..i];
  }

  /** Takes one entry off what is left of the allowed ones, unless it is not among them. */
  method TakeEntry(left: map<Credential, nat>, ghost allowed: seq<Credential>, ghost taken: seq<Credential>,
                   entry: Credential)
    returns (ok: bool, rest: map<Credential, nat>)
    requires Consumed(left, allowed, taken)
    ensures !ok ==> !Within(taken + [entry], allowed)
    ensures ok ==> Consumed(rest, allowed, taken + [entry])
  {
    TakeOne(left, allowed, taken, entry);
    if CountOf(left, entry) == 0 {
      return false, left;
    }
    return true, TakeOff(left, entry);
  }

  /** Takes the other entries off the allowed ones, one by one; stops at the first that is
      not allowed (any more). */
  method Consume(targets: seq<Credential>, entries: seq<Credential>, allowed: seq<Credential>)
    returns (ok: bool, left: map<Credential, nat>, current: seq<Credential>, others: nat)
    ensures ok <==> Within(LiveOthers(targets, entries), allowed)
    ensures ok ==> Consumed(left, allowed, LiveOthers(targets, entries))
    ensures ok ==> current == LiveTargets(targets, entries) && others == |LiveOthers(targets, entries)|
  {
    left := HashCounts(allowed);
    current, others := [], 0;
    ghost var taken: seq<Credential> := [];
    for i := 0 to |entries|
      invariant taken == LiveOthers(targets, entries[..i])
      invariant Consumed(left, allowed, taken)
      invariant current == LiveTargets(targets, entries[..i]) && others == |taken|
    {
      LiveStep(targets, entries, i);
      var matched := FindTarget(targets, entries[i]);
      if matched {
        current := current + [entries[i]];
        continue;
      }
      var within, rest := TakeEntry(left, allowed, taken, entries[i]);
      if !within {
        TakenStay(targets, entries, allowed, i + 1);
        return false, left, current, others;
      }
      left, taken := rest, taken + [entries[i]];
      others := others + 1;
    }
    assert entries[..|entries|] == entries;
    ConsumedIsWithin(left, allowed, taken);
    return true, left, current, others;
  }

  lemma NothingLeft(left: map<Credential, nat>, allowed: seq<Credential>, taken: seq<Credential>)
    requires Consumed(left, allowed, taken)
    ensures (forall c :: c in left ==> left[c] == 0) <==> multiset(taken) == multiset(allowed)
  {
    if forall c :: c in left ==> left[c] == 0 {
      forall c ensures multiset(taken)[c] == multiset(allowed)[c] {
        assert CountOf(left, c) == 0;
      }
    } else {
      var c :| c in left && left[c] != 0;
      assert CountOf(left, c) != 0;
    }
  }

  method AllZero(left: map<Credential, nat>) returns (zero: bool)
    ensures zero <==> forall c :: c in left ==> left[c] == 0
  {
    var rest := left.Keys;
    while rest != {}
      invariant rest <= left.Keys
      invariant forall c :: c in left && c !in rest ==> left[c] == 0
    {
      var c :| c in rest;
      if left[c] != 0 {
        return false;
      }
      rest := rest - {c};
    }
    return true;
  }

  // ---------- carrying out the plan ----------

  /** The live protocol is the planned one (a plan without a protocol takes any). */
  predicate SameProtocol(plan: Plan, protocol: string) {
    plan.protocol == "" || protocol == plan.protocol
  }

  lemma OthersStay(plan: Plan, entries: seq<Credential>)
    requires FirstGate(plan, entries)
    ensures multiset(entries) == multiset(LiveTargets(plan.targets, entries)) + multiset(plan.nonTargets)
    ensures forall e :: e in LiveTargets(plan.targets, entries) ==> exists t :: t in plan.targets && Matches(e, t)
    ensures LiveOthers(plan.targets, entries) != [] ==> plan.nonTargets != []
  {
    LiveIsSplit(plan.targets, entries);
    if LiveOthers(plan.targets, entries) != [] {
      assert LiveOthers(plan.targets, entries)[0] in multiset(LiveOthers(plan.targets, entries));
    }
  }

  lemma OnlyDefaultsStay(plan: Plan, entries: seq<Credential>)
    requires FirstGate(plan, entries) && SecondGate(plan, entries)
    ensures multiset(plan.nonTargets) <= multiset(entries)
    ensures forall e :: e in entries ==> e in plan.defaults || exists t :: t in plan.targets && Matches(e, t)
  {
    LiveIsSplit(plan.targets, entries);
    forall e | e in entries && e !in plan.defaults
      ensures exists t :: t in plan.targets && Matches(e, t)
    {
      assert e !in multiset(plan.defaults);
      assert e !in LiveOthers(plan.targets, entries);
    }
  }

  /** What is decided for a plan and the live configuration. */
  method Execute(plan: Plan, live: Config) returns (decision: Decision)
    ensures plan.action == Conflict ==> decision == Withhold
    ensures plan.action != Conflict && live.Missing? ==> decision == FinishNodes
    ensures plan.action != Conflict && plan.targets == [] && plan.status == Done && !live.Missing? ==>
              decision == Nothing
    ensures decision.RemoveInbound? ==>
              live.Listed? && plan.action == DeleteWhole && SameProtocol(plan, live.protocol) &&
              FirstGate(plan, live.entries) && SecondGate(plan, live.entries)
    ensures live.Listed? && plan.action == DeleteWhole && !(plan.targets == [] && plan.status == Done) &&
            SameProtocol(plan, live.protocol) &&
            FirstGate(plan, live.entries) && SecondGate(plan, live.entries) ==>
              decision == RemoveInbound
    ensures decision.RemoveClients? ==>
              live.Listed? && plan.action == RemoveUser && SameProtocol(plan, live.protocol) &&
              FirstGate(plan, live.entries) &&
              decision.clients == LiveTargets(plan.targets, live.entries) &&
              decision.clients != [] && LiveOthers(plan.targets, live.entries) != []
    ensures live.Listed? && plan.action == RemoveUser && plan.targets != [] && SameProtocol(plan, live.protocol) &&
            FirstGate(plan, live.entries) && LiveTargets(plan.targets, live.entries) != [] &&
            LiveOthers(plan.targets, live.entries) != [] ==>
              decision.RemoveClients?
    ensures decision == FinishNodes ==> live.Missing?
    ensures decision == Nothing ==>
              (plan.targets == [] && plan.status == Done) ||
              (live.Listed? && plan.action == RemoveUser && FirstGate(plan, live.entries) &&
               LiveTargets(plan.targets, live.entries) == [])
    ensures live.Listed? && plan.action == RemoveUser && plan.targets != [] && SameProtocol(plan, live.protocol) &&
            FirstGate(plan, live.entries) && LiveTargets(plan.targets, live.entries) == [] ==>
              decision == Nothing
    ensures decision.RemoveClients? ==>
              live.Listed? && plan.nonTargets != [] &&
              multiset(live.entries) == multiset(decision.clients) + multiset(plan.nonTargets) &&
              forall e :: e in decision.clients ==> exists t :: t in plan.targets && Matches(e, t)
    ensures decision.RemoveInbound? ==>
              live.Listed? && multiset(plan.nonTargets) <= multiset(live.entries) &&
              forall e :: e in live.entries ==>
                            e in plan.defaults || exists t :: t in plan.targets && Matches(e, t)
  {
    if plan.action == Conflict {
      return Withhold;
    }
    if live.Missing? {
      return FinishNodes;
    }
    if plan.targets == [] {
      if plan.status == Done {
        return Nothing;
      }
      if plan.action != DeleteWhole {
        return Withhold;
      }
    }
    if live.Unreadable? || !SameProtocol(plan, live.protocol) {
      return Withhold;
    }
    var ok, left, current, others := Consume(plan.targets, live.entries, plan.nonTargets);
    if !ok {
      return Withhold;
    }
    NothingLeft(left, plan.nonTargets, LiveOthers(plan.targets, live.entries));
    var zero := AllZero(left);
    if !zero {
      return Withhold;
    }
    if current == [] && plan.action != DeleteWhole {
      return Nothing;
    }
    if plan.action == DeleteWhole {
      var allowed, _, _, _ := Consume(plan.targets, live.entries, plan.defaults);
      if allowed {
        OnlyDefaultsStay(plan, live.entries);
      }
      return if allowed then RemoveInbound else Withhold;
    }
    if others == 0 {
      return Withhold;
    }
    OthersStay(plan, live.entries);
    return RemoveClients(current);
  }

  method TargetsGone(targets: seq<Credential>, entries: seq<Credential>) returns (gone: bool)
    ensures gone <==> LiveTargets(targets, entries) == []
  {
    for i := 0 to |entries|
      invariant LiveTargets(targets, entries[..i]) == []
    {
      LiveStep(targets, entries, i);
      var matched := FindTarget(targets, entries[i]);
      if matched {
        TargetsStay(targets, entries, i);
        return false;
      }
    }
    assert entries[..|entries|] == entries;
    return true;
  }

  lemma PrefixWithin(planned: seq<Credential>, n: nat, entries: seq<Credential>)
    requires n <= |planned| && !Within(planned[..n], entries)
    ensures !Within(planned, entries)
  {
    assert planned == planned[..n] + planned[n..];
    assert multiset(planned) == multiset(planned[..n]) + multiset(planned[n..]);
    var c :| multiset(planned[..n])[c] > multiset(entries)[c];
    assert multiset(planned)[c] > multiset(entries)[c];
  }

  lemma PresentStep(planned: seq<Credential>, i: nat, entries: seq<Credential>, left: map<Credential, nat>)
    requires i < |planned| && Consumed(left, entries, planned[..i])
    ensures CountOf(left, planned[i]) == 0 ==> !Within(planned, entries)
    ensures CountOf(left, planned[i]) > 0 ==> Consumed(TakeOff(left, planned[i]), entries, planned[..i + 1])
  {
    TakeOne(left, entries, planned[..i], planned[i]);
    assert planned[..i + 1] == planned[..i] + [planned[i]];
    if CountOf(left, planned[i]) == 0 {
      PrefixWithin(planned, i + 1, entries);
    }
  }

  lemma PresentAtEnd(planned: seq<Credential>, entries: seq<Credential>, left: map<Credential, nat>)
    requires Consumed(left, entries, planned[..|planned|])
    ensures Within(planned, entries)
  {
    assert planned[..|planned|] == planned;
    ConsumedIsWithin(left, entries, planned);
  }

  method OthersPresent(planned: seq<Credential>, entries: seq<Credential>) returns (present: bool)
    ensures present <==> Within(planned, entries)
  {
    var left: map<Credential, nat> := HashCounts(entries);
    for i := 0 to |planned|
      invariant Consumed(left, entries, planned[..i])
    {
      PresentStep(planned, i, entries, left);
      if CountOf(left, planned[i]) == 0 {
        return false;
      }
      left := TakeOff(left, planned[i]);
    }
    PresentAtEnd(planned, entries, left);
    return true;
  }

  /** After removing clients: no target may be left, and no planned other entry may be gone. */
  method Verify(plan: Plan, after: Config) returns (ok: bool)
    ensures ok <==> after.Listed? && LiveTargets(plan.targets, after.entries) == [] &&
                    Within(plan.nonTargets, after.entries)
  {
    if !after.Listed? {
      return false;
    }
    ok := TargetsGone(plan.targets, after.entries);
    if ok {
      ok := OthersPresent(plan.nonTargets, after.entries);
    }
  }

  lemma {:induction false} TargetsStay(targets: seq<Credential>, entries: seq<Credential>, i: nat)
    requires i < |entries| && IsTarget(targets, entries[i])
    ensures LiveTargets(targets, entries) != []
  {
    if i < |entries| - 1 {
      TargetsStay(targets, entries[..|entries| - 1], i);
    }
  }

  // ---------- the two gates ----------

  lemma {:induction false} KnownOrCovered(bindings: seq<Binding>, defaults: seq<Credential>, others: seq<Credential>)
    requires !AnyUnknown(bindings, defaults, others)
    ensures Within(PlannedDefaults(bindings, defaults, others), others)
    ensures (forall e :: e in others ==> !Covered(bindings, e)) ==>
              PlannedDefaults(bindings, defaults, others) == others
    ensures (exists e :: e in others && Covered(bindings, e)) ==>
              |PlannedDefaults(bindings, defaults, others)| < |others|
    ensures |PlannedDefaults(bindings, defaults, others)| <= |others|
  {
    if others != [] {
      var init, last := others[..|others| - 1], others[|others| - 1];
      assert others == init + [last];
      KnownOrCovered(bindings, defaults, init);
      assert !Unknown(bindings, defaults, last);
    }
  }

  lemma WholeDeletions(protocol: string, own: set<Credential>, entries: seq<Credential>, bindings: seq<Binding>,
                       defaults: seq<Credential>)
    requires Decide(protocol, own, entries, bindings, defaults).action == DeleteWhole
    ensures var plan := Decide(protocol, own, entries, bindings, defaults);
            plan.defaults == PlannedDefaults(bindings, defaults, plan.nonTargets) &&
            !AnyUnknown(bindings, defaults, plan.nonTargets)
    ensures BusinessUsers(bindings) == {}
  {
  }

  lemma SameMultiset(part: seq<Credential>, whole: seq<Credential>)
    requires Within(part, whole) && Within(whole, part)
    ensures |part| == |whole|
  {
    assert multiset(part) == multiset(whole);
    assert |multiset(part)| == |part| && |multiset(whole)| == |whole|;
  }

  /** For a plan that deletes the whole inbound, a configuration that passes the first gate
      passes the second one exactly if no other entry was accounted for by a binding. */
  lemma SecondGateFollowsFirst(protocol: string, own: set<Credential>, entries: seq<Credential>, bindings: seq<Binding>,
                               defaults: seq<Credential>, live: seq<Credential>)
    requires var plan := Decide(protocol, own, entries, bindings, defaults);
             plan.action == DeleteWhole && FirstGate(plan, live)
    ensures var plan := Decide(protocol, own, entries, bindings, defaults);
            SecondGate(plan, live) <==> forall e :: e in plan.nonTargets ==> !Covered(bindings, e)
  {
    WholeDeletions(protocol, own, entries, bindings, defaults);
    var plan := Decide(protocol, own, entries, bindings, defaults);
    KnownOrCovered(bindings, defaults, plan.nonTargets);
    if SecondGate(plan, live) {
      SameMultiset(plan.defaults, plan.nonTargets);
    }
  }

  lemma NamedBindingsHaveUsers(bindings: seq<Binding>)
    requires bindings != [] && bindings[0].name != ""
    ensures BusinessUsers(bindings) != {}
  {
    assert bindings[0].name in BusinessUsers(bindings);
  }

  /** With every binding naming its user, deleting the whole inbound means that nobody else is
      bound to it, and the second gate cannot fail after the first. */
  lemma NamedBindingsNeverTripTheSecondGate(protocol: string, own: set<Credential>, entries: seq<Credential>,
                                            bindings: seq<Binding>, defaults: seq<Credential>, live: seq<Credential>)
    requires var plan := Decide(protocol, own, entries, bindings, defaults);
             plan.action == DeleteWhole && FirstGate(plan, live)
    requires forall b :: b in bindings ==> b.name != ""
    ensures bindings == []
    ensures SecondGate(Decide(protocol, own, entries, bindings, defaults), live)
  {
    WholeDeletions(protocol, own, entries, bindings, defaults);
    if bindings != [] {
      NamedBindingsHaveUsers(bindings);
    }
    SecondGateFollowsFirst(protocol, own, entries, bindings, defaults, live);
  }

  const MINE := Credential("a", "a", "", "")
  const OTHER := Credential("b", "b", "", "")
  const NAMELESS := Binding("", "", false, false, {OTHER})

  lemma NamelessPlan()
    ensures Decide("vless", {MINE}, [MINE, OTHER], [NAMELESS], []) == Plan(DeleteWhole, Open, "vless", [MINE], [OTHER],
                                                                           [])
  {
    var entries := [MINE, OTHER];
    assert entries[..1] == [MINE];
    assert Targets({MINE}, entries[..1]) == [MINE] && NonTargets({MINE}, entries[..1]) == [];
    assert NAMELESS in [NAMELESS] && Covered([NAMELESS], OTHER);
    assert PlannedDefaults([NAMELESS], [], [OTHER]) == [];
    assert BusinessUsers([NAMELESS]) == {};
    assert !Shared([NAMELESS], [MINE]);
  }

  lemma NamelessLive()
    ensures LiveOthers([MINE], [MINE, OTHER]) == [OTHER]
  {
    var entries := [MINE, OTHER];
    assert entries[..1] == [MINE];
    assert MINE in [MINE] && IsTarget([MINE], MINE) && !IsTarget([MINE], OTHER);
    assert LiveOthers([MINE], entries[..1]) == [];
  }

  /** A binding without a user name that matches another entry: the plan deletes the whole
      inbound, and the unchanged inbound then fails the second gate. */
  lemma NamelessBindingTripsTheSecondGate()
    ensures var plan := Decide("vless", {MINE}, [MINE, OTHER], [NAMELESS], []);
            plan.action == DeleteWhole && FirstGate(plan, [MINE, OTHER]) && !SecondGate(plan, [MINE, OTHER])
  {
    NamelessPlan();
    NamelessLive();
    assert OTHER in multiset([OTHER]);
  }

  // ---------- a removal that takes effect ----------

  lemma {:induction false} OthersAreNoTargets(targets: seq<Credential>, entries: seq<Credential>)
    ensures LiveTargets(targets, LiveOthers(targets, entries)) == []
  {
    if entries != [] {
      var init, last := entries[..|entries| - 1], entries[|entries| - 1];
      OthersAreNoTargets(targets, init);
      var rest := LiveOthers(targets, init);
      if IsTarget(targets, last) {
        assert rest + [] == rest;
      } else {
        assert (rest + [last])[..|rest|] == rest;
      }
    }
  }

  /** If the configuration passed the first gate and the live targets are then gone and nothing
      else changed, in whatever order the entries now stand, the verification succeeds. */
  lemma CleanRemovalVerifies(plan: Plan, live: seq<Credential>, after: seq<Credential>)
    requires FirstGate(plan, live)
    requires multiset(after) == multiset(LiveOthers(plan.targets, live))
    ensures LiveTargets(plan.targets, after) == [] && Within(plan.nonTargets, after)
  {
    OthersAreNoTargets(plan.targets, live);
    forall i | 0 <= i < |after| ensures !IsTarget(plan.targets, after[i]) {
      assert after[i] in multiset(after);
      var j :| 0 <= j < |LiveOthers(plan.targets, live)| && LiveOthers(plan.targets, live)[j] == after[i];
      if IsTarget(plan.targets, after[i]) {
        TargetsStay(plan.targets, LiveOthers(plan.targets, live), j);
        assert false;
      }
    }
    NoTargets(plan.targets, after);
  }

  lemma {:induction false} NoTargets(targets: seq<Credential>, entries: seq<Credential>)
    requires forall i :: 0 <= i < |entries| ==> !IsTarget(targets, entries[i])
    ensures LiveTargets(targets, entries) == []
  {
    if entries != [] {
      NoTargets(targets, entries[..|entries| - 1]);
    }
  }
}
