/** Disabling a user by swapping the user's credentials on an inbound for unusable ones, and
    enabling the user by swapping them back.

    An inbound is analysed against the credentials the user is known to have and the
    backups of earlier swaps.  The result is a complete new list of entries, or a refusal.
    Hashes of entries are compared in the program; here the entries themselves are. */
module AccessSwap {

  import opened Basics

  /** The fields of an entry as text; a missing field reads as NIL.  `primary` is the field
      that authenticates under the inbound's protocol. */
  datatype Credential = Credential(primary: string, email: string, secret: string, rest: string)

  const NIL := "<nil>"

  predicate NonEmpty(value: string) {
    value != "" && value != NIL
  }

  /** Same authentication; by e-mail when one of the two has no primary value. */
  predicate Matches(actual: Credential, expected: Credential) {
    if NonEmpty(actual.primary) && NonEmpty(expected.primary) then actual.primary == expected.primary
    else NonEmpty(actual.email) && NonEmpty(expected.email) && actual.email == expected.email
  }

  type Protocol = string

  const PROTOCOLS: set<Protocol> := {"vless", "vmess", "trojan", "shadowsocks", "ss", "anytls", "snell", "mieru",
    "hysteria", "hysteria2", "hy2", "socks", "http"}

  /** `single` marks a password held by the inbound itself instead of a list of entries. */
  datatype Inbound = Inbound(protocol: Protocol, shape: string, single: bool, anonymous: bool, nodeValues: bool,
                             entries: seq<Credential>)

  /** What is known of one of the user's credentials: the credential, the entries its node
      configuration points at, or nothing usable. */
  datatype Ref = Structured(credential: Credential) | NodeValues(hits: set<Credential>) | Unusable

  /** The program's key is a hash of both. */
  datatype Key = Key(protocol: Protocol, value: string)

  datatype Backup = Backup(key: Key, original: Credential, disabled: Credential)

  /** Random or derived replacement values for a key. */
  datatype Draw = Draw(primary: string, secret: string)

  /** The unusable counterpart of an entry. */
  function Disabled(protocol: Protocol, original: Credential, draw: Draw): Option<Credential> {
    if protocol !in PROTOCOLS then None
    else if protocol in {"mieru", "socks", "http"} then Some(original.(primary := draw.primary, secret := draw.secret))
    else Some(original.(primary := draw.primary))
  }

  /** The protocols whose credentials can be replaced, and no others. */
  lemma ReplaceableProtocols(protocol: Protocol, original: Credential, draw: Draw)
    ensures Disabled(protocol, original, draw).Some? <==>
            || protocol == "vless" || protocol == "vmess" || protocol == "trojan" || protocol == "shadowsocks"
            || protocol == "ss" || protocol == "anytls" || protocol == "snell" || protocol == "mieru"
            || protocol == "hysteria" || protocol == "hysteria2" || protocol == "hy2" || protocol == "socks"
            || protocol == "http"
  {
  }

  /** A pair made for a key: the drawn value takes the place of the one that authenticates, the drawn
      secret that of the second one where the protocol has two, and all else is the user's. */
  ghost predicate IsDrawn(protocol: Protocol, k: Key, pair: Backup, draw: Draw) {
    && pair.key == k && pair.disabled.primary == draw.primary
    && pair.disabled.email == pair.original.email && pair.disabled.rest == pair.original.rest
    && pair.disabled.secret == if protocol == "mieru" || protocol == "socks" || protocol == "http" then draw.secret
                               else pair.original.secret
  }

  // ---------- what is expected on the inbound ----------

  datatype Expected = Expected(original: Credential, backup: Option<Backup>)

  function BackupMap(backups: seq<Backup>): map<Key, Backup> {
    if backups == [] then map[]
    else BackupMap(backups[..|backups| - 1])[backups[|backups| - 1].key := backups[|backups| - 1]]
  }

  datatype Hit = NoHit | OneHit(credential: Credential) | Ambiguous

  function HitIn(entries: seq<Credential>, hits: set<Credential>): Hit {
    if entries == [] then NoHit
    else
      var last := entries[|entries| - 1];
      match HitIn(entries[..|entries| - 1], hits)
      case NoHit => if last in hits then OneHit(last) else NoHit
      case OneHit(c) => if last in hits then Ambiguous else OneHit(c)
      case Ambiguous => Ambiguous
  }

  lemma {:induction false} HitsAre(entries: seq<Credential>, hits: set<Credential>)
    ensures HitIn(entries, hits) == NoHit <==> forall i | 0 <= i < |entries| :: entries[i] !in hits
    ensures HitIn(entries, hits) == Ambiguous <==>
            exists i, j | 0 <= i < j < |entries| :: entries[i] in hits && entries[j] in hits
    ensures HitIn(entries, hits).OneHit? ==> HitIn(entries, hits).credential in entries &&
                                             HitIn(entries, hits).credential in hits
  {
    if entries != [] {
      var n := |entries| - 1;
      var rest := entries[..n];
      HitsAre(rest, hits);
      assert entries == rest + [entries[n]];
      if HitIn(rest, hits).OneHit? {
        var i :| 0 <= i < n && rest[i] in hits;
        assert entries[i] == rest[i];
      }
      if i, j :| 0 <= i < j < |entries| && entries[i] in hits && entries[j] in hits {
        assert rest[i] in hits;
      }
      if i, j :| 0 <= i < j < n && rest[i] in hits && rest[j] in hits {
        assert entries[i] in hits && entries[j] in hits;
      }
    }
  }

  /** The credential a reference stands for. */
  function Meant(inbound: Inbound, ref: Ref): Hit {
    match ref
    case Structured(c) => OneHit(c)
    case NodeValues(hits) => if inbound.nodeValues then HitIn(inbound.entries, hits) else NoHit
    case Unusable => NoHit
  }

  /** The credential written down, or the only entry that a node configuration points at, where the
      inbound can be pointed at. */
  lemma MeantIs(inbound: Inbound, ref: Ref)
    ensures Meant(inbound, ref) == Ambiguous <==>
            ref.NodeValues? && inbound.nodeValues &&
            exists i, j | 0 <= i < j < |inbound.entries| ::
              inbound.entries[i] in ref.hits && inbound.entries[j] in ref.hits
    ensures forall c :: Meant(inbound, ref) == OneHit(c) ==>
              ref == Structured(c) ||
              (ref.NodeValues? && inbound.nodeValues && c in inbound.entries && c in ref.hits)
    ensures Meant(inbound, ref) == NoHit <==>
            ref == Unusable ||
            (ref.NodeValues? && (!inbound.nodeValues || forall e | e in inbound.entries :: e !in ref.hits))
  {
    if ref.NodeValues? {
      HitsAre(inbound.entries, ref.hits);
    }
  }

  function MeantKeys(inbound: Inbound, refs: seq<Ref>): set<Key> {
    set r | r in refs && Meant(inbound, r).OneHit? && Meant(inbound, r).credential.primary != "" ::
      Key(inbound.protocol, Meant(inbound, r).credential.primary)
  }

  /** Keys of the references and of the backups, each with its backup if there is one. */
  ghost predicate IsExpected(inbound: Inbound, refs: seq<Ref>, backups: seq<Backup>, expected: map<Key, Expected>) {
    && expected.Keys == MeantKeys(inbound, refs) + BackupMap(backups).Keys
    && (forall k | k in expected ::
          if k in BackupMap(backups) then expected[k].backup == Some(BackupMap(backups)[k])
          else expected[k].backup == None && Key(inbound.protocol, expected[k].original.primary) == k)
  }

  // ---------- where it is ----------

  datatype Located = NotFound | Drifted | Found(index: nat, disabled: bool)

  /** The first entry that authenticates as the original or the disabled credential.  One
      that does so but differs otherwise has drifted. */
  function Locate(entries: seq<Credential>, e: Expected, from: nat): (r: Located)
    requires from <= |entries|
    ensures r.Found? ==> from <= r.index < |entries|
    decreases |entries| - from
  {
    if from == |entries| then NotFound
    else
      var actual := entries[from];
      match e.backup
      case Some(b) =>
        if Matches(actual, b.original) then (if actual == b.original then Found(from, false) else Drifted)
        else if Matches(actual, b.disabled) then (if actual == b.disabled then Found(from, true) else Drifted)
        else Locate(entries, e, from + 1)
      case None =>
        if Matches(actual, e.original) then Found(from, false) else Locate(entries, e, from + 1)
  }

  /** Where both have a value that authenticates it alone decides, otherwise the e-mail does. */
  lemma FoundByPrimaryOrEmail(actual: Credential, wanted: Credential)
    requires NonEmpty(wanted.primary) && NonEmpty(wanted.email)
    ensures NonEmpty(actual.primary) ==>
              Locate([actual], Expected(wanted, None), 0) ==
              if actual.primary == wanted.primary then Found(0, false) else NotFound
    ensures actual.primary == "" || actual.primary == "<nil>" ==>
              Locate([actual], Expected(wanted, None), 0) ==
              if actual.email == wanted.email then Found(0, false) else NotFound
  {
    assert Locate([actual], Expected(wanted, None), 1) == NotFound;
  }

  /** The two authenticate alike: by the value that authenticates, or by e-mail where one of them has
      none. */
  ghost predicate Alike(a: Credential, b: Credential) {
    if a.primary !in {"", "<nil>"} && b.primary !in {"", "<nil>"} then a.primary == b.primary
    else a.email == b.email && a.email !in {"", "<nil>"}
  }

  /** The entry is one that an expectation is about. */
  ghost predicate Concerns(e: Expected, actual: Credential) {
    match e.backup
    case Some(b) => Alike(actual, b.original) || Alike(actual, b.disabled)
    case None => Alike(actual, e.original)
  }

  ghost predicate FirstConcerned(entries: seq<Credential>, e: Expected, from: nat, i: nat) {
    from <= i < |entries| && Concerns(e, entries[i]) && forall j | from <= j < i :: !Concerns(e, entries[j])
  }

  /** The first entry that concerns the expectation decides: it has to be exactly the credential it
      authenticates as, the original if both; with no backup known there is nothing to compare. */
  ghost predicate LocatedIs(entries: seq<Credential>, e: Expected, from: nat, r: Located) {
    match r
    case NotFound => forall i | from <= i < |entries| :: !Concerns(e, entries[i])
    case Found(i, disabled) =>
      FirstConcerned(entries, e, from, i) && (e.backup == None ==> !disabled) &&
      (e.backup.Some? ==> disabled == !Alike(entries[i], e.backup.value.original) &&
                          entries[i] == if disabled then e.backup.value.disabled else e.backup.value.original)
    case Drifted =>
      e.backup.Some? && exists i: nat ::
        FirstConcerned(entries, e, from, i) &&
        entries[i] != if Alike(entries[i], e.backup.value.original) then e.backup.value.original
                      else e.backup.value.disabled
  }

  lemma {:induction false} LocateIs(entries: seq<Credential>, e: Expected, from: nat)
    requires from <= |entries|
    ensures LocatedIs(entries, e, from, Locate(entries, e, from))
    decreases |entries| - from
  {
    if from < |entries| {
      if Concerns(e, entries[from]) {
        assert FirstConcerned(entries, e, from, from);
      } else {
        LocateIs(entries, e, from + 1);
        assert Locate(entries, e, from) == Locate(entries, e, from + 1);
        forall i: nat
          ensures FirstConcerned(entries, e, from, i) <==> FirstConcerned(entries, e, from + 1, i)
        {
        }
      }
    }
  }

  /** The pair of credentials for a located expectation; a new one is drawn if needed. */
  function PairFor(inbound: Inbound, k: Key, e: Expected, draw: Key -> Draw): Option<Backup> {
    match e.backup
    case Some(b) => Some(b)
    case None =>
      match Locate(inbound.entries, e, 0)
      case Found(index, _) =>
        (match Disabled(inbound.protocol, inbound.entries[index], draw(k))
         case Some(d) => Some(Backup(k, inbound.entries[index], d))
         case None => None)
      case _ => None
  }

  // ---------- the analysis ----------

  datatype Status = Pending | Completed | Failed

  /** `backups` are the pairs involved, `entries` the list the inbound is to have. */
  datatype Item = Item(status: Status, backups: map<Key, Backup>, entries: seq<Credential>)

  /** Enabling leaves alone what was never swapped. */
  ghost predicate Wanted(expected: map<Key, Expected>, enable: bool, k: Key) {
    k in expected && (enable ==> expected[k].backup.Some?)
  }

  ghost predicate Changes(inbound: Inbound, expected: map<Key, Expected>, enable: bool, k: Key, i: nat) {
    && Wanted(expected, enable, k)
    && Locate(inbound.entries, expected[k], 0) == Found(i, enable)
  }

  ghost predicate CanSwap(inbound: Inbound, expected: map<Key, Expected>, draw: Key -> Draw, k: Key)
    requires k in expected
  {
    Locate(inbound.entries, expected[k], 0).Found? && PairFor(inbound, k, expected[k], draw).Some?
  }

  function Side(pair: Backup, disabled: bool): Credential {
    if disabled then pair.disabled else pair.original
  }

  /** The side of a pair that an operation puts in place. */
  function Desired(pair: Backup, enable: bool): Credential {
    Side(pair, !enable)
  }

  /** A password held by the inbound itself is written back alone. */
  function Placed(inbound: Inbound, actual: Credential, desired: Credential): Credential {
    if inbound.single then actual.(primary := desired.primary) else desired
  }

  /** What an analysis may say: a refusal exactly when something expected is missing, has
      drifted or cannot be swapped, and otherwise the list with the located entries swapped
      in place and every other entry as it was. */
  ghost predicate IsAnalysis(inbound: Inbound, enable: bool, expected: map<Key, Expected>, draw: Key -> Draw,
                             item: Item) {
    && (item.status == Failed <==>
          expected == map[] || exists k :: Wanted(expected, enable, k) && !CanSwap(inbound, expected, draw, k))
    && (item.status != Failed ==>
          && (forall k :: k in item.backups <==> Wanted(expected, enable, k))
          && (forall k | k in item.backups :: PairFor(inbound, k, expected[k], draw) == Some(item.backups[k]))
          && |item.entries| == |inbound.entries|
          && (forall i | 0 <= i < |item.entries| ::
                || (item.entries[i] == inbound.entries[i] && forall k :: !Changes(inbound, expected, enable, k, i))
                || exists k :: k in item.backups && Changes(inbound, expected, enable, k, i) &&
                               item.entries[i] == Placed(inbound, inbound.entries[i], Desired(item.backups[k], enable)))
          && (item.status == Completed <==> forall k, i: nat :: !Changes(inbound, expected, enable, k, i)))
  }

  /** The pairs without a backup are made from the draws. */
  ghost predicate NewPairsAreDrawn(inbound: Inbound, expected: map<Key, Expected>, draw: Key -> Draw, item: Item) {
    forall k | k in item.backups && k in expected && expected[k].backup == None ::
      IsDrawn(inbound.protocol, k, item.backups[k], draw(k)) && item.backups[k].original in inbound.entries
  }

  lemma AnalysisDraws(inbound: Inbound, enable: bool, expected: map<Key, Expected>, draw: Key -> Draw, item: Item)
    requires IsAnalysis(inbound, enable, expected, draw, item) && item.status != Failed
    ensures NewPairsAreDrawn(inbound, expected, draw, item)
  {
    forall k | k in item.backups && k in expected && expected[k].backup == None
      ensures IsDrawn(inbound.protocol, k, item.backups[k], draw(k)) && item.backups[k].original in inbound.entries
    {
      assert PairFor(inbound, k, expected[k], draw) == Some(item.backups[k]);
      var i := Locate(inbound.entries, expected[k], 0).index;
      assert item.backups[k].original == inbound.entries[i];
    }
  }

  /** An entry that changes becomes the wanted side of a pair; of a password held by the inbound
      itself only the value that authenticates changes. */
  ghost predicate BecomesSides(inbound: Inbound, enable: bool, item: Item) {
    && |item.entries| == |inbound.entries|
    && (forall i | 0 <= i < |item.entries| && item.entries[i] != inbound.entries[i] ::
          exists k :: k in item.backups &&
                      var side := if enable then item.backups[k].original else item.backups[k].disabled;
                      item.entries[i] == if inbound.single then inbound.entries[i].(primary := side.primary) else side)
  }

  method CollectExpected(inbound: Inbound, refs: seq<Ref>, backups: seq<Backup>)
    returns (ambiguous: bool, expected: map<Key, Expected>)
    ensures ambiguous <==> exists r :: r in refs && Meant(inbound, r).Ambiguous?
    ensures !ambiguous ==> IsExpected(inbound, refs, backups, expected)
  {
    var backupByKey := map[];
    for i := 0 to |backups|
      invariant backupByKey == BackupMap(backups[..i])
    {
      assert backups[..i + 1][..i] == backups[..i];
      backupByKey := backupByKey[backups[i].key := backups[i]];
    }
    assert backups[..|backups|] == backups;
    ambiguous, expected := false, map[];
    for i := 0 to |refs|
      invariant forall j | 0 <= j < i :: !Meant(inbound, refs[j]).Ambiguous?
      invariant expected.Keys == MeantKeys(inbound, refs[..i])
      invariant forall k | k in expected ::
        if k in backupByKey then expected[k].backup == Some(backupByKey[k])
        else expected[k].backup == None && Key(inbound.protocol, expected[k].original.primary) == k
    {
      MoreKeys(inbound, refs, i);
      match Meant(inbound, refs[i]) {
        case NoHit =>
        case Ambiguous => return true, expected;
        case OneHit(credential) =>
          var key := Key(inbound.protocol, credential.primary);
          if credential.primary != "" && key !in expected {
            expected := expected[key :=
              if key in backupByKey then Expected(backupByKey[key].original, Some(backupByKey[key]))
              else Expected(credential, None)];
          }
      }
    }
    assert refs[..|refs|] == refs;
    expected := expected + map k | k in backupByKey && k !in expected ::
                  Expected(backupByKey[k].original, Some(backupByKey[k]));
  }

  lemma MoreKeys(inbound: Inbound, refs: seq<Ref>, i: nat)
    requires i < |refs|
    ensures MeantKeys(inbound, refs[..i + 1]) == MeantKeys(inbound, refs[..i]) +
      (if Meant(inbound, refs[i]).OneHit? && Meant(inbound, refs[i]).credential.primary != ""
       then {Key(inbound.protocol, Meant(inbound, refs[i]).credential.primary)} else {})
  {
    assert refs[..i + 1] == refs[..i] + [refs[i]];
    assert refs[i] in refs[..i + 1];
    forall r | r in refs[..i] ensures r in refs[..i + 1] { }
  }

  method Find(entries: seq<Credential>, e: Expected) returns (r: Located)
    ensures r == Locate(entries, e, 0)
  {
    for index := 0 to |entries|
      invariant Locate(entries, e, 0) == Locate(entries, e, index)
    {
      var actual := entries[index];
      match e.backup {
        case Some(b) =>
          if Matches(actual, b.original) {
            return if actual == b.original then Found(index, false) else Drifted;
          }
          if Matches(actual, b.disabled) {
            return if actual == b.disabled then Found(index, true) else Drifted;
          }
        case None =>
          if Matches(actual, e.original) {
            return Found(index, false);
          }
      }
    }
    return NotFound;
  }

  /** Pairs and replacements for the expectations in `done`. */
  ghost predicate AreSwaps(inbound: Inbound, enable: bool, expected: map<Key, Expected>, draw: Key -> Draw,
                           done: set<Key>, pairs: map<Key, Backup>, replacements: map<nat, Credential>)
  {
    && (forall k :: k in pairs <==> k in done && Wanted(expected, enable, k))
    && (forall k | k in pairs ::
          CanSwap(inbound, expected, draw, k) && PairFor(inbound, k, expected[k], draw) == Some(pairs[k]))
    && (forall k, i: nat | k in pairs && Changes(inbound, expected, enable, k, i) :: i in replacements)
    && (forall i | i in replacements ::
          exists k :: k in pairs && Changes(inbound, expected, enable, k, i) &&
                      replacements[i] == Desired(pairs[k], enable))
  }

  lemma OneMoreSwap(inbound: Inbound, enable: bool, expected: map<Key, Expected>, draw: Key -> Draw, done: set<Key>,
                    pairs: map<Key, Backup>, replacements: map<nat, Credential>, k: Key)
    requires AreSwaps(inbound, enable, expected, draw, done, pairs, replacements)
    requires Wanted(expected, enable, k) && k !in done && CanSwap(inbound, expected, draw, k)
    ensures var pair := PairFor(inbound, k, expected[k], draw).value;
      var located := Locate(inbound.entries, expected[k], 0);
      AreSwaps(inbound, enable, expected, draw, done + {k}, pairs[k := pair],
        if located.disabled == enable then replacements[located.index := Desired(pair, enable)] else replacements)
  {
    var pair := PairFor(inbound, k, expected[k], draw).value;
    var located := Locate(inbound.entries, expected[k], 0);
    var pairs' := pairs[k := pair];
    var replacements' := if located.disabled == enable then replacements[located.index := Desired(pair, enable)]
                         else replacements;
    forall i | i in replacements'
      ensures exists k :: k in pairs' && Changes(inbound, expected, enable, k, i) &&
                          replacements'[i] == Desired(pairs'[k], enable)
    {
      if located.disabled == enable && i == located.index {
        assert Changes(inbound, expected, enable, k, i);
      } else {
        var k' :| k' in pairs && Changes(inbound, expected, enable, k', i) &&
                  replacements[i] == Desired(pairs[k'], enable);
        assert k' in pairs' && pairs'[k'] == pairs[k'];
      }
    }
  }

  method CollectSwaps(inbound: Inbound, enable: bool, expected: map<Key, Expected>, draw: Key -> Draw)
    returns (ok: bool, pairs: map<Key, Backup>, replacements: map<nat, Credential>)
    ensures ok <==> forall k :: Wanted(expected, enable, k) ==> CanSwap(inbound, expected, draw, k)
    ensures ok ==> AreSwaps(inbound, enable, expected, draw, expected.Keys, pairs, replacements)
  {
    pairs, replacements := map[], map[];
    var todo := expected.Keys;
    while todo != {}
      invariant todo <= expected.Keys
      invariant AreSwaps(inbound, enable, expected, draw, expected.Keys - todo, pairs, replacements)
      invariant forall k :: k in expected.Keys - todo && Wanted(expected, enable, k) ==>
                              CanSwap(inbound, expected, draw, k)
      decreases todo
    {
      var k :| k in todo;
      ghost var done := expected.Keys - todo;
      todo := todo - {k};
      assert expected.Keys - todo == done + {k};
      if !(enable && expected[k].backup == None) {
        var located := Find(inbound.entries, expected[k]);
        var pair := PairFor(inbound, k, expected[k], draw);
        if !located.Found? || pair == None {
          assert Wanted(expected, enable, k) && !CanSwap(inbound, expected, draw, k);
          return false, pairs, replacements;
        }
        OneMoreSwap(inbound, enable, expected, draw, done, pairs, replacements, k);
        pairs := pairs[k := pair.value];
        if located.disabled == enable {
          replacements := replacements[located.index := Desired(pair.value, enable)];
        }
      }
    }
    assert expected.Keys - todo == expected.Keys;
    return true, pairs, replacements;
  }

  method Rewrite(inbound: Inbound, replacements: map<nat, Credential>) returns (entries: seq<Credential>)
    ensures |entries| == |inbound.entries|
    ensures forall i | 0 <= i < |entries| ::
      entries[i] == if i in replacements then Placed(inbound, inbound.entries[i], replacements[i])
                    else inbound.entries[i]
  {
    entries := [];
    for i := 0 to |inbound.entries|
      invariant |entries| == i
      invariant forall j | 0 <= j < i ::
        entries[j] == if j in replacements then Placed(inbound, inbound.entries[j], replacements[j])
                      else inbound.entries[j]
    {
      entries := entries + [if i in replacements then Placed(inbound, inbound.entries[i], replacements[i])
                            else inbound.entries[i]];
    }
  }

  /** Swaps everything expected, or refuses. */
  method SwapExpected(inbound: Inbound, enable: bool, expected: map<Key, Expected>, draw: Key -> Draw)
    returns (item: Item)
    requires inbound.single ==> |inbound.entries| == 1
    ensures IsAnalysis(inbound, enable, expected, draw, item)
  {
    if expected == map[] {
      return Item(Failed, map[], []);
    }
    var ok, pairs, replacements := CollectSwaps(inbound, enable, expected, draw);
    if !ok {
      return Item(Failed, map[], []);
    }
    var entries := Rewrite(inbound, replacements);
    item := Item(if replacements == map[] then Completed else Pending, pairs, entries);
    SwapsAreAnalysis(inbound, enable, expected, draw, replacements, item);
  }

  lemma SwapsAreAnalysis(inbound: Inbound, enable: bool, expected: map<Key, Expected>, draw: Key -> Draw,
                         replacements: map<nat, Credential>, item: Item)
    requires expected != map[] && AreSwaps(inbound, enable, expected, draw, expected.Keys, item.backups, replacements)
    requires item.status == if replacements == map[] then Completed else Pending
    requires |item.entries| == |inbound.entries|
    requires forall i | 0 <= i < |item.entries| ::
      item.entries[i] == if i in replacements then Placed(inbound, inbound.entries[i], replacements[i])
                         else inbound.entries[i]
    ensures IsAnalysis(inbound, enable, expected, draw, item)
  {
    forall k, i: nat | Changes(inbound, expected, enable, k, i)
      ensures k in item.backups && i in replacements
    {
    }
    if replacements != map[] {
      var i :| i in replacements;
      var k :| k in item.backups && Changes(inbound, expected, enable, k, i);
      assert Changes(inbound, expected, enable, k, i);
    }
  }

  /** Analyses one inbound.  `None` stands for an inbound that is gone or has no readable
      list of entries. */
  method Analyze(found: Option<Inbound>, enable: bool, refs: seq<Ref>, backups: seq<Backup>, draw: Key -> Draw)
    returns (item: Item, ghost expected: map<Key, Expected>)
    requires found.Some? && found.value.single ==> |found.value.entries| == 1
    ensures refs == [] && backups == [] ==> item.status == Failed
    ensures enable && backups == [] && refs != [] ==> item.status == Completed
    ensures !(enable && backups == []) && found == None ==> item.status == Failed
    ensures found.Some? && found.value.anonymous && !enable ==> item.status == Failed
    ensures found.Some? && (exists r :: r in refs && Meant(found.value, r).Ambiguous?) &&
            !(enable && backups == []) ==>
              item.status == Failed
    ensures found.Some? && backups != [] && (found.value.anonymous ==> enable) &&
            (forall r :: r in refs ==> !Meant(found.value, r).Ambiguous?) ==>
              IsExpected(found.value, refs, backups, expected) && IsAnalysis(found.value, enable, expected, draw, item)
    ensures found.Some? && !enable && refs != [] && !found.value.anonymous &&
            (forall r :: r in refs ==> !Meant(found.value, r).Ambiguous?) ==>
              IsExpected(found.value, refs, backups, expected) && IsAnalysis(found.value, enable, expected, draw, item)
    ensures found.Some? && item.status != Failed ==> NewPairsAreDrawn(found.value, expected, draw, item)
    ensures item.status == Pending ==> found.Some? && BecomesSides(found.value, enable, item)
  {
    expected := map[];
    var refusal := Item(Failed, map[], []);
    if |refs| == 0 && |backups| == 0 {
      return refusal, expected;
    }
    if enable && |backups| == 0 {
      return Item(Completed, map[], []), expected;
    }
    if found == None {
      return refusal, expected;
    }
    var inbound := found.value;
    if inbound.anonymous && !enable {
      return refusal, expected;
    }
    var ambiguous, wanted := CollectExpected(inbound, refs, backups);
    if ambiguous {
      return refusal, expected;
    }
    expected := wanted;
    item := SwapExpected(inbound, enable, wanted, draw);
    if item.status != Failed {
      AnalysisDraws(inbound, enable, wanted, draw, item);
    }
  }

  // ---------- undoing ----------

  /** Every entry authenticates by its own primary value. */
  ghost predicate WellKeyed(entries: seq<Credential>) {
    && (forall i | 0 <= i < |entries| :: NonEmpty(entries[i].primary))
    && (forall i, j | 0 <= i < j < |entries| :: entries[i].primary != entries[j].primary)
  }

  /** No entry authenticates like `c`. */
  ghost predicate Absent(entries: seq<Credential>, c: Credential) {
    forall i | 0 <= i < |entries| :: entries[i].primary != c.primary
  }

  /** Inbounds that hold a single password use protocols whose swap changes nothing else. */
  ghost predicate WellFormed(inbound: Inbound) {
    && WellKeyed(inbound.entries)
    && (inbound.single ==> |inbound.entries| == 1 && inbound.protocol in {"shadowsocks", "ss"})
  }

  /** An entry that is one of a pair, with the other one absent, is found as it is. */
  lemma {:induction false} LocatePresent(entries: seq<Credential>, e: Expected, from: nat, i: nat, disabled: bool)
    requires WellKeyed(entries) && from <= i < |entries| && e.backup.Some?
    requires NonEmpty(e.backup.value.original.primary) && NonEmpty(e.backup.value.disabled.primary)
    requires entries[i] == Side(e.backup.value, disabled) && Absent(entries, Side(e.backup.value, !disabled))
    ensures Locate(entries, e, from) == Found(i, disabled)
    decreases |entries| - from
  {
    if from < i {
      assert entries[from].primary != entries[i].primary;
      LocatePresent(entries, e, from + 1, i, disabled);
    }
  }

  /** A first swap finds the entry with the expected primary value. */
  lemma {:induction false} LocateByPrimary(entries: seq<Credential>, e: Expected, from: nat)
    requires WellKeyed(entries) && from <= |entries| && e.backup == None && NonEmpty(e.original.primary)
    ensures var r := Locate(entries, e, from);
            !r.Drifted? && (r.Found? ==> !r.disabled && entries[r.index].primary == e.original.primary)
    decreases |entries| - from
  {
    if from < |entries| {
      LocateByPrimary(entries, e, from + 1);
    }
  }

  /** What an analysis did to one entry. */
  lemma ChangedEntry(inbound: Inbound, enable: bool, expected: map<Key, Expected>, draw: Key -> Draw, item: Item,
                     k: Key, i: nat)
    requires IsAnalysis(inbound, enable, expected, draw, item) && item.status != Failed && i < |inbound.entries|
    requires Changes(inbound, expected, enable, k, i)
    requires forall other | Changes(inbound, expected, enable, other, i) :: other == k
    ensures k in item.backups &&
            item.entries[i] == Placed(inbound, inbound.entries[i], Desired(item.backups[k], enable))
    ensures item.status == Pending
  {
  }

  lemma UnchangedEntry(inbound: Inbound, enable: bool, expected: map<Key, Expected>, draw: Key -> Draw, item: Item,
                       i: nat)
    requires IsAnalysis(inbound, enable, expected, draw, item) && item.status != Failed && i < |inbound.entries|
    requires forall k :: !Changes(inbound, expected, enable, k, i)
    ensures item.entries[i] == inbound.entries[i]
  {
  }

  /** The pairs of earlier swaps, found again on a later list: each pair is there in one state, the
      disabled one for the keys in `off`, and no pair interferes with another. */
  ghost predicate PairsOn(inbound: Inbound, pairs: map<Key, Backup>, off: set<Key>) {
    && (forall k | k in pairs ::
          && NonEmpty(pairs[k].original.primary) && NonEmpty(pairs[k].disabled.primary)
          && Side(pairs[k], k in off) in inbound.entries && Absent(inbound.entries, Side(pairs[k], k !in off)))
    && (forall k, l | k in pairs && l in pairs && k != l ::
          && pairs[k].original.primary != pairs[l].original.primary &&
             pairs[k].disabled.primary != pairs[l].disabled.primary
          && pairs[k].original.primary != pairs[l].disabled.primary)
    && (inbound.single ==>
          forall k | k in pairs :: pairs[k].disabled == pairs[k].original.(primary := pairs[k].disabled.primary))
  }

  /** All pairs in the same state. */
  function AllOff(pairs: map<Key, Backup>, disabled: bool): set<Key> {
    if disabled then pairs.Keys else {}
  }

  /** With a backup for each of them, the expectations that matter are exactly the pairs. */
  ghost predicate ExpectsPairs(expected: map<Key, Expected>, pairs: map<Key, Backup>, enable: bool) {
    && pairs != map[]
    && (forall k :: Wanted(expected, enable, k) <==> k in pairs)
    && (forall k | k in pairs :: expected[k].backup == Some(pairs[k]))
  }

  /** A pair is located exactly where its present side is. */
  lemma LocatedPair(inbound: Inbound, expected: map<Key, Expected>, pairs: map<Key, Backup>, enable: bool,
                    off: set<Key>, k: Key) returns (i: nat)
    requires WellFormed(inbound) && PairsOn(inbound, pairs, off) && ExpectsPairs(expected, pairs, enable)
    requires k in pairs
    ensures i < |inbound.entries| && inbound.entries[i] == Side(pairs[k], k in off)
    ensures Locate(inbound.entries, expected[k], 0) == Found(i, k in off)
  {
    assert expected[k].backup.value == pairs[k];
    i :| 0 <= i < |inbound.entries| && inbound.entries[i] == Side(pairs[k], k in off);
    LocatePresent(inbound.entries, expected[k], 0, i, k in off);
  }

  lemma PairsAnalysisSucceeds(inbound: Inbound, enable: bool, expected: map<Key, Expected>, pairs: map<Key, Backup>,
                              off: set<Key>, draw: Key -> Draw, item: Item)
    requires WellFormed(inbound) && PairsOn(inbound, pairs, off) && ExpectsPairs(expected, pairs, enable)
    requires IsAnalysis(inbound, enable, expected, draw, item)
    ensures item.status != Failed && item.backups == pairs && |item.entries| == |inbound.entries|
  {
    forall k | Wanted(expected, enable, k)
      ensures CanSwap(inbound, expected, draw, k)
    {
      var i := LocatedPair(inbound, expected, pairs, enable, off, k);
    }
    var k :| k in pairs;
    assert Wanted(expected, enable, k);
    BackupsArePairs(inbound, enable, expected, pairs, draw, item);
  }

  lemma BackupsArePairs(inbound: Inbound, enable: bool, expected: map<Key, Expected>, pairs: map<Key, Backup>,
                        draw: Key -> Draw, item: Item)
    requires ExpectsPairs(expected, pairs, enable)
    requires IsAnalysis(inbound, enable, expected, draw, item) && item.status != Failed
    ensures item.backups == pairs
  {
    assert item.backups.Keys == pairs.Keys;
    forall k | k in pairs
      ensures item.backups[k] == pairs[k]
    {
      assert PairFor(inbound, k, expected[k], draw) == Some(pairs[k]);
    }
  }

  /** An entry that is the swapped side of a pair is replaced by its partner; any other entry
      stays. */
  ghost predicate EntrySwapped(before: seq<Credential>, pairs: map<Key, Backup>, enable: bool, after: seq<Credential>,
                               i: nat)
    requires i < |before| == |after|
  {
    && (forall k | k in pairs && before[i] == Side(pairs[k], enable) :: after[i] == Side(pairs[k], !enable))
    && ((forall k | k in pairs :: before[i] != Side(pairs[k], enable)) ==> after[i] == before[i])
  }

  ghost predicate AllSwapped(before: seq<Credential>, pairs: map<Key, Backup>, enable: bool, after: seq<Credential>) {
    |before| == |after| && forall i: nat | i < |before| :: EntrySwapped(before, pairs, enable, after, i)
  }

  /** An entry is changed for a pair exactly if it is the side to be swapped. */
  lemma ChangesAreSides(inbound: Inbound, enable: bool, expected: map<Key, Expected>, pairs: map<Key, Backup>,
                        off: set<Key>, k: Key, i: nat)
    requires WellFormed(inbound) && PairsOn(inbound, pairs, off) && ExpectsPairs(expected, pairs, enable)
    requires i < |inbound.entries|
    ensures Changes(inbound, expected, enable, k, i) <==> k in pairs && inbound.entries[i] == Side(pairs[k], enable)
    ensures Changes(inbound, expected, enable, k, i) ==> (k in off <==> enable)
  {
    if k in pairs {
      var j := LocatedPair(inbound, expected, pairs, enable, off, k);
      if inbound.entries[i] == Side(pairs[k], enable) {
        assert k in off <==> enable;
        assert i == j;
      }
    }
  }

  /** One entry under an operation. */
  lemma SwappedEntry(inbound: Inbound, enable: bool, expected: map<Key, Expected>, pairs: map<Key, Backup>,
                     off: set<Key>, draw: Key -> Draw, item: Item, i: nat)
    requires WellFormed(inbound) && PairsOn(inbound, pairs, off) && ExpectsPairs(expected, pairs, enable)
    requires IsAnalysis(inbound, enable, expected, draw, item) && item.status != Failed && item.backups == pairs
    requires i < |inbound.entries| == |item.entries|
    ensures EntrySwapped(inbound.entries, pairs, enable, item.entries, i)
  {
    forall k
      ensures Changes(inbound, expected, enable, k, i) <==> k in pairs && inbound.entries[i] == Side(pairs[k], enable)
    {
      ChangesAreSides(inbound, enable, expected, pairs, off, k, i);
    }
    forall k | k in pairs && inbound.entries[i] == Side(pairs[k], enable)
      ensures item.entries[i] == Side(pairs[k], !enable)
    {
      ChangedEntry(inbound, enable, expected, draw, item, k, i);
    }
    if forall k | k in pairs :: inbound.entries[i] != Side(pairs[k], enable) {
      UnchangedEntry(inbound, enable, expected, draw, item, i);
    }
  }

  /** Swapping known pairs, whichever of them are swapped already, on a list that may have changed
      in any way elsewhere: succeeds, replaces each side that is to go by its partner in place, and
      touches nothing else; there is nothing to do exactly if no pair is in the other state. */
  lemma SwapsExactlyThePairs(inbound: Inbound, enable: bool, expected: map<Key, Expected>, pairs: map<Key, Backup>,
                             off: set<Key>, draw: Key -> Draw, item: Item)
    requires WellFormed(inbound) && PairsOn(inbound, pairs, off) && ExpectsPairs(expected, pairs, enable)
    requires IsAnalysis(inbound, enable, expected, draw, item)
    ensures item.status != Failed && item.backups == pairs && AllSwapped(inbound.entries, pairs, enable, item.entries)
    ensures item.status == Completed <==> forall k | k in pairs :: (k in off) == !enable
  {
    PairsAnalysisSucceeds(inbound, enable, expected, pairs, off, draw, item);
    forall i: nat | i < |inbound.entries|
      ensures EntrySwapped(inbound.entries, pairs, enable, item.entries, i)
    {
      SwappedEntry(inbound, enable, expected, pairs, off, draw, item, i);
    }
    if k :| k in pairs && (k in off) == enable {
      var i := LocatedPair(inbound, expected, pairs, enable, off, k);
      assert Changes(inbound, expected, enable, k, i);
    } else {
      NothingToChange(inbound, enable, expected, pairs, off);
    }
  }

  lemma NothingToChange(inbound: Inbound, enable: bool, expected: map<Key, Expected>, pairs: map<Key, Backup>,
                        off: set<Key>)
    requires WellFormed(inbound) && PairsOn(inbound, pairs, off) && ExpectsPairs(expected, pairs, enable)
    requires forall k | k in pairs :: (k in off) == !enable
    ensures forall k, i: nat :: !Changes(inbound, expected, enable, k, i)
  {
    forall k, i: nat
      ensures !Changes(inbound, expected, enable, k, i)
    {
      if k in pairs {
        var j := LocatedPair(inbound, expected, pairs, enable, off, k);
      }
    }
  }

  /** Repeating an operation whose pairs are all in place already changes nothing. */
  lemma RepeatingIsNoOp(inbound: Inbound, enable: bool, expected: map<Key, Expected>, pairs: map<Key, Backup>,
                        draw: Key -> Draw, item: Item)
    requires WellFormed(inbound) && PairsOn(inbound, pairs, AllOff(pairs, !enable)) &&
             ExpectsPairs(expected, pairs, enable)
    requires IsAnalysis(inbound, enable, expected, draw, item)
    ensures item.status == Completed && item.entries == inbound.entries
  {
    SwapsExactlyThePairs(inbound, enable, expected, pairs, AllOff(pairs, !enable), draw, item);
    NothingToChange(inbound, enable, expected, pairs, AllOff(pairs, !enable));
    forall i: nat | i < |inbound.entries|
      ensures item.entries[i] == inbound.entries[i]
    {
      UnchangedEntry(inbound, enable, expected, draw, item, i);
    }
  }

  // ---------- there and back ----------

  /** After a swap every pair is in the wanted state, again without interference. */
  lemma AfterSwap(inbound: Inbound, pairs: map<Key, Backup>, off: set<Key>, enable: bool, after: seq<Credential>)
    requires WellFormed(inbound) && PairsOn(inbound, pairs, off)
    requires AllSwapped(inbound.entries, pairs, enable, after)
    ensures WellFormed(inbound.(entries := after)) && PairsOn(inbound.(entries := after), pairs, AllOff(pairs, !enable))
  {
    AfterSwapIsKeyed(inbound, pairs, off, enable, after);
    forall k | k in pairs
      ensures Side(pairs[k], !enable) in after && Absent(after, Side(pairs[k], enable))
    {
      AfterSwapHasPair(inbound, pairs, off, enable, after, k);
    }
  }

  lemma AfterSwapIsKeyed(inbound: Inbound, pairs: map<Key, Backup>, off: set<Key>, enable: bool, after: seq<Credential>)
    requires WellFormed(inbound) && PairsOn(inbound, pairs, off)
    requires AllSwapped(inbound.entries, pairs, enable, after)
    ensures WellKeyed(after)
  {
    var before := inbound.entries;
    forall i, j | 0 <= i < j < |after|
      ensures after[i].primary != after[j].primary
    {
      SwappedPrimary(inbound, pairs, off, enable, after, i);
      SwappedPrimary(inbound, pairs, off, enable, after, j);
      assert before[i].primary != before[j].primary;
    }
    forall i | 0 <= i < |after|
      ensures NonEmpty(after[i].primary)
    {
      SwappedPrimary(inbound, pairs, off, enable, after, i);
    }
  }

  lemma AfterSwapHasPair(inbound: Inbound, pairs: map<Key, Backup>, off: set<Key>, enable: bool,
                         after: seq<Credential>, k: Key)
    requires WellFormed(inbound) && PairsOn(inbound, pairs, off) && k in pairs
    requires AllSwapped(inbound.entries, pairs, enable, after)
    ensures Side(pairs[k], !enable) in after && Absent(after, Side(pairs[k], enable))
  {
    var before := inbound.entries;
    var j :| 0 <= j < |before| && before[j] == Side(pairs[k], k in off);
    SwappedPrimary(inbound, pairs, off, enable, after, j);
    assert after[j] == Side(pairs[k], !enable);
    forall i | 0 <= i < |after|
      ensures after[i].primary != Side(pairs[k], enable).primary
    {
      SwappedPrimary(inbound, pairs, off, enable, after, i);
      assert i != j ==> before[i].primary != before[j].primary;
    }
  }

  /** Where an entry's primary value comes from. */
  lemma SwappedPrimary(inbound: Inbound, pairs: map<Key, Backup>, off: set<Key>, enable: bool, after: seq<Credential>,
                       i: nat)
    requires PairsOn(inbound, pairs, off) && i < |after| == |inbound.entries|
    requires EntrySwapped(inbound.entries, pairs, enable, after, i)
    ensures (after[i] == inbound.entries[i] && forall k | k in pairs :: inbound.entries[i] != Side(pairs[k], enable))
      || exists k :: k in pairs && (k in off <==> enable) && inbound.entries[i] == Side(pairs[k], enable) &&
                     after[i] == Side(pairs[k], !enable)
  {
  }

  /** Swapping one way and back restores the list. */
  lemma SwapTwice(inbound: Inbound, pairs: map<Key, Backup>, enable: bool, after: seq<Credential>,
                  restored: seq<Credential>)
    requires WellFormed(inbound) && PairsOn(inbound, pairs, AllOff(pairs, enable))
    requires AllSwapped(inbound.entries, pairs, enable, after) && AllSwapped(after, pairs, !enable, restored)
    ensures restored == inbound.entries
  {
    forall i: nat | i < |after|
      ensures restored[i] == inbound.entries[i]
    {
      SwappedPrimary(inbound, pairs, AllOff(pairs, enable), enable, after, i);
      assert EntrySwapped(after, pairs, !enable, restored, i);
    }
  }

  /** The values drawn for the swapped entries are usable, new to the inbound, and different
      from each other. */
  /** The drawn values are usable, different, and not on the inbound. */
  ghost predicate FreshDraws(inbound: Inbound, keys: set<Key>, draw: Key -> Draw) {
    && (forall k | k in keys :: NonEmpty(draw(k).primary))
    && (forall k, i | k in keys && 0 <= i < |inbound.entries| :: inbound.entries[i].primary != draw(k).primary)
    && (forall k, l | k in keys && l in keys && k != l :: draw(k).primary != draw(l).primary)
  }

  /** A first swap pairs the entry with the expected primary value with a drawn one. */
  ghost predicate SwapsFirst(inbound: Inbound, expected: map<Key, Expected>, draw: Key -> Draw, item: Item, k: Key,
                             i: nat) {
    && k in expected && k in item.backups && i < |inbound.entries|
    && k == Key(inbound.protocol, inbound.entries[i].primary)
    && Locate(inbound.entries, expected[k], 0) == Found(i, false)
    && item.backups[k].original == inbound.entries[i]
    && IsDrawn(inbound.protocol, k, item.backups[k], draw(k))
  }

  lemma FirstSwapAt(inbound: Inbound, refs: seq<Ref>, expected: map<Key, Expected>, draw: Key -> Draw, item: Item,
                    k: Key) returns (i: nat)
    requires WellFormed(inbound) && IsExpected(inbound, refs, [], expected)
    requires k in expected && NonEmpty(k.value)
    requires IsAnalysis(inbound, false, expected, draw, item) && item.status != Failed
    ensures SwapsFirst(inbound, expected, draw, item, k, i)
  {
    assert expected[k].backup == None && k == Key(inbound.protocol, expected[k].original.primary);
    assert Wanted(expected, false, k);
    assert CanSwap(inbound, expected, draw, k);
    LocateByPrimary(inbound.entries, expected[k], 0);
    i := Locate(inbound.entries, expected[k], 0).index;
    AnalysisDraws(inbound, false, expected, draw, item);
  }

  lemma FirstSwapEntry(inbound: Inbound, refs: seq<Ref>, expected: map<Key, Expected>, draw: Key -> Draw, item: Item,
                       i: nat)
    requires WellFormed(inbound) && IsExpected(inbound, refs, [], expected)
    requires forall k | k in expected :: NonEmpty(k.value)
    requires IsAnalysis(inbound, false, expected, draw, item) && item.status != Failed
    requires i < |inbound.entries| == |item.entries|
    ensures EntrySwapped(inbound.entries, item.backups, false, item.entries, i)
  {
    forall k | Changes(inbound, expected, false, k, i)
      ensures k == Key(inbound.protocol, inbound.entries[i].primary) && k in item.backups &&
              item.backups[k].original == inbound.entries[i]
    {
      var j := FirstSwapAt(inbound, refs, expected, draw, item, k);
    }
    forall k | k in item.backups && inbound.entries[i] == Side(item.backups[k], false)
      ensures item.entries[i] == Side(item.backups[k], true)
    {
      assert k in expected;
      var j := FirstSwapAt(inbound, refs, expected, draw, item, k);
      assert inbound.entries[i].primary == inbound.entries[j].primary;
      assert i == j;
      ChangedEntry(inbound, false, expected, draw, item, k, i);
    }
    if forall k | k in item.backups :: inbound.entries[i] != Side(item.backups[k], false) {
      UnchangedEntry(inbound, false, expected, draw, item, i);
    }
  }

  /** A first disable swaps exactly the entries whose primary values were expected for drawn ones.
      Afterwards no entry authenticates as one of the user's, and each drawn value is there. */
  lemma FirstDisable(inbound: Inbound, refs: seq<Ref>, expected: map<Key, Expected>, draw: Key -> Draw, item: Item)
    requires WellFormed(inbound) && IsExpected(inbound, refs, [], expected)
    requires forall k | k in expected :: NonEmpty(k.value)
    requires IsAnalysis(inbound, false, expected, draw, item) && item.status != Failed &&
             FreshDraws(inbound, expected.Keys, draw)
    ensures item.backups.Keys == expected.Keys && PairsOn(inbound, item.backups, {}) && item.backups != map[]
    ensures AllSwapped(inbound.entries, item.backups, false, item.entries)
    ensures forall k | k in item.backups ::
              IsDrawn(inbound.protocol, k, item.backups[k], draw(k)) && item.backups[k].original in inbound.entries &&
              item.backups[k].original.primary == k.value && Absent(item.entries, item.backups[k].original) &&
              item.backups[k].disabled in item.entries
  {
    FirstBackups(inbound, refs, expected, draw, item);
    forall k | k in item.backups
      ensures FirstPair(inbound, k, item.backups[k], draw(k))
    {
      var i := FirstSwapAt(inbound, refs, expected, draw, item, k);
    }
    FirstPairsDoNotInterfere(inbound, item.backups, draw);
    forall i: nat | i < |item.entries|
      ensures EntrySwapped(inbound.entries, item.backups, false, item.entries, i)
    {
      FirstSwapEntry(inbound, refs, expected, draw, item, i);
    }
    AfterSwap(inbound, item.backups, {}, false, item.entries);
    forall k | k in item.backups
      ensures Absent(item.entries, item.backups[k].original) && item.backups[k].disabled in item.entries
    {
      assert k in AllOff(item.backups, true);
    }
  }

  lemma FirstBackups(inbound: Inbound, refs: seq<Ref>, expected: map<Key, Expected>, draw: Key -> Draw, item: Item)
    requires IsAnalysis(inbound, false, expected, draw, item) && item.status != Failed
    ensures item.backups.Keys == expected.Keys && item.backups != map[] && |item.entries| == |inbound.entries|
  {
    assert forall k :: k in item.backups <==> Wanted(expected, false, k);
  }

  ghost predicate FirstPair(inbound: Inbound, k: Key, pair: Backup, draw: Draw) {
    && k == Key(inbound.protocol, pair.original.primary) && pair.original in inbound.entries
    && IsDrawn(inbound.protocol, k, pair, draw)
  }

  lemma FirstPairsDoNotInterfere(inbound: Inbound, pairs: map<Key, Backup>, draw: Key -> Draw)
    requires WellFormed(inbound) && FreshDraws(inbound, pairs.Keys, draw)
    requires forall k | k in pairs :: FirstPair(inbound, k, pairs[k], draw(k))
    ensures PairsOn(inbound, pairs, {})
  {
  }

  /** Disable, then enable with the saved backups: the list is exactly what it was. */
  lemma EnableUndoesDisable(inbound: Inbound, refs: seq<Ref>, expected: map<Key, Expected>, draw: Key -> Draw,
                            disabled: Item, expected': map<Key, Expected>, enabled: Item)
    requires WellFormed(inbound) && IsExpected(inbound, refs, [], expected)
    requires forall k | k in expected :: NonEmpty(k.value)
    requires IsAnalysis(inbound, false, expected, draw, disabled) && disabled.status != Failed &&
             FreshDraws(inbound, expected.Keys, draw)
    requires ExpectsPairs(expected', disabled.backups, true)
    requires IsAnalysis(inbound.(entries := disabled.entries), true, expected', draw, enabled)
    ensures enabled.status == Pending && enabled.entries == inbound.entries
  {
    FirstDisable(inbound, refs, expected, draw, disabled);
    AfterSwap(inbound, disabled.backups, {}, false, disabled.entries);
    SwapsExactlyThePairs(inbound.(entries := disabled.entries), true, expected', disabled.backups,
                         AllOff(disabled.backups, true), draw, enabled);
    SwapTwice(inbound, disabled.backups, false, disabled.entries, enabled.entries);
  }

  /** What an enable expects depends on the backups alone, whatever references are given. */
  lemma EnableExpectsTheBackups(inbound: Inbound, refs: seq<Ref>, backups: seq<Backup>, expected: map<Key, Expected>)
    requires backups != [] && IsExpected(inbound, refs, backups, expected)
    ensures ExpectsPairs(expected, BackupMap(backups), true)
  {
    assert backups[|backups| - 1].key in BackupMap(backups);
  }

  /** The pairs as they are saved, one backup each, in any order. */
  method SavePairs(pairs: map<Key, Backup>) returns (backups: seq<Backup>)
    requires forall k | k in pairs :: pairs[k].key == k
    ensures BackupMap(backups) == pairs
  {
    backups := [];
    var todo := pairs.Keys;
    while todo != {}
      invariant todo <= pairs.Keys
      invariant BackupMap(backups) == map k | k in pairs && k !in todo :: pairs[k]
    {
      var k :| k in todo;
      assert (backups + [pairs[k]])[..|backups|] == backups;
      backups := backups + [pairs[k]];
      todo := todo - {k};
    }
  }

  /** Each of the references fits one entry at most. */
  ghost predicate Unambiguous(inbound: Inbound, refs: seq<Ref>) {
    forall hits | NodeValues(hits) in refs && inbound.nodeValues :: !FitsTwice(inbound.entries, hits)
  }

  ghost predicate FitsTwice(entries: seq<Credential>, hits: set<Credential>) {
    exists i, j | 0 <= i < j < |entries| :: entries[i] in hits && entries[j] in hits
  }

  lemma UnambiguousMeans(inbound: Inbound, refs: seq<Ref>)
    ensures Unambiguous(inbound, refs) <==> forall r :: r in refs ==> !Meant(inbound, r).Ambiguous?
  {
    forall r | r in refs
      ensures Meant(inbound, r).Ambiguous? <==>
              r.NodeValues? && inbound.nodeValues && FitsTwice(inbound.entries, r.hits)
    {
      MeantIs(inbound, r);
    }
  }

  lemma NewBackupsAreKeyed(inbound: Inbound, refs: seq<Ref>, expected: map<Key, Expected>, draw: Key -> Draw,
                           item: Item)
    requires IsExpected(inbound, refs, [], expected) && IsAnalysis(inbound, false, expected, draw, item) &&
             item.status != Failed
    ensures forall k | k in item.backups :: k in expected && item.backups[k].key == k
  {
    forall k | k in item.backups
      ensures k in expected && item.backups[k].key == k
    {
      assert Wanted(expected, false, k);
      assert k !in BackupMap([]);
      assert PairFor(inbound, k, expected[k], draw) == Some(item.backups[k]);
    }
  }

  /** The two analyses one after the other, with the backups saved in between: unless the first
      is refused, the second finds all it needs and gives back the list of entries. */
  method DisableThenEnable(inbound: Inbound, refs: seq<Ref>, later: seq<Ref>, draw: Key -> Draw)
    returns (disabled: Item, enabled: Item)
    requires WellFormed(inbound) && refs != [] && Unambiguous(inbound, refs)
    ensures disabled.status != Failed && (forall k | k in disabled.backups :: NonEmpty(k.value)) &&
            FreshDraws(inbound, disabled.backups.Keys, draw) ==>
              (forall k | k in disabled.backups ::
                 IsDrawn(inbound.protocol, k, disabled.backups[k], draw(k)) &&
                 Absent(disabled.entries, disabled.backups[k].original) &&
                 disabled.backups[k].disabled in disabled.entries) &&
              (Unambiguous(inbound.(entries := disabled.entries), later) ==>
                 enabled.status == Pending && enabled.entries == inbound.entries)
  {
    ghost var expected, expected';
    UnambiguousMeans(inbound, refs);
    disabled, expected := Analyze(Some(inbound), false, refs, [], draw);
    if disabled.status == Failed {
      return disabled, disabled;
    }
    NewBackupsAreKeyed(inbound, refs, expected, draw, disabled);
    var backups := SavePairs(disabled.backups);
    UnambiguousMeans(inbound.(entries := disabled.entries), later);
    enabled, expected' := Analyze(Some(inbound.(entries := disabled.entries)), true, later, backups, draw);
    FirstBackups(inbound, refs, expected, draw, disabled);
    if (forall k | k in disabled.backups :: NonEmpty(k.value)) && FreshDraws(inbound, disabled.backups.Keys, draw) {
      FirstDisable(inbound, refs, expected, draw, disabled);
    }
    if (forall k | k in disabled.backups :: NonEmpty(k.value)) && FreshDraws(inbound, disabled.backups.Keys, draw) &&
       Unambiguous(inbound.(entries := disabled.entries), later) {
      assert backups != [];
      EnableExpectsTheBackups(inbound.(entries := disabled.entries), later, backups, expected');
      EnableUndoesDisable(inbound, refs, expected, draw, disabled, expected', enabled);
    }
  }

  // ---------- applying a plan to a list that has moved on ----------

  datatype Decision = Refuse | AlreadyDone | Write(entries: seq<Credential>)

  /** Just before writing, the inbound is read again.  If only its entries changed since the
      plan, the plan's own pairs are analysed against the entries found now. */
  method Rebase(source: Inbound, planned: Item, backups: seq<Backup>, current: Option<Inbound>, enable: bool,
                draw: Key -> Draw)
    returns (decision: Decision, ghost expected: map<Key, Expected>, ghost item: Item)
    requires planned.status == Pending && backups != [] && BackupMap(backups) == planned.backups
    requires current.Some? && current.value.single ==> |current.value.entries| == 1
    ensures current == Some(source) ==> decision == Write(planned.entries)
    ensures current == None || (current.value != source && current.value.(entries := source.entries) != source) ==>
              decision == Refuse
    ensures current.Some? && current.value != source && current.value.(entries := source.entries) == source &&
            (current.value.anonymous ==> enable) ==>
        && ExpectsPairs(expected, planned.backups, enable)
        && IsAnalysis(current.value, enable, expected, draw, item)
        && decision == match item.status
             case Failed => Refuse
             case Completed => AlreadyDone
             case Pending => Write(item.entries)
  {
    expected, item := map[], planned;
    if current == None {
      return Refuse, expected, item;
    }
    if current.value == source {
      return Write(planned.entries), expected, item;
    }
    if current.value.(entries := source.entries) != source {
      return Refuse, expected, item;
    }
    var rebased, wanted := Analyze(current, enable, [], backups, draw);
    expected, item := wanted, rebased;
    if current.value.anonymous ==> enable {
      OnlyBackupsExpected(current.value, backups, wanted, enable);
    }
    match rebased.status {
      case Failed => return Refuse, expected, item;
      case Completed => return AlreadyDone, expected, item;
      case Pending => return Write(rebased.entries), expected, item;
    }
  }

  lemma OnlyBackupsExpected(inbound: Inbound, backups: seq<Backup>, expected: map<Key, Expected>, enable: bool)
    requires backups != [] && IsExpected(inbound, [], backups, expected)
    ensures ExpectsPairs(expected, BackupMap(backups), enable)
  {
    assert backups[|backups| - 1].key in BackupMap(backups);
    assert MeantKeys(inbound, []) == {};
  }
}
