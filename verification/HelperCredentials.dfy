/** Install tokens and helper credentials: minted, redeemed, promoted by a report, moved by a
    rebind, pruned; with the state file behind or ahead of the memory when a save fails.

    Tokens stand for their own hashes. */
module HelperCredentials {

  import opened Basics
  import opened Management
  import opened ManagementQueue

  const DAY := 86400

  /** `secret` says that the record holds the credential itself and not only its hash. */
  datatype Install = Install(server: string, uuid: string, hash: string, secret: bool, expires: int, preserve: bool)

  datatype Rebind = Rebind(server: string, expires: int)

  /** What the state file holds. */
  datatype Books = Books(servers: map<string, Identity>, installs: map<string, Install>, rebinds: map<string, Rebind>)

  // ---------- where a credential stands ----------

  datatype Slot = InstallSlot(token: string) | PendingSlot(server: string) | CurrentSlot(server: string)

  function Rank(slot: Slot): nat {
    match slot
    case InstallSlot(_) => 1
    case PendingSlot(_) => 2
    case CurrentSlot(_) => 3
  }

  /** The credential in a place; a record without the credential itself leads nowhere. */
  function HashAt(b: Books, slot: Slot): string {
    match slot
    case InstallSlot(token) => if token in b.installs && b.installs[token].secret then b.installs[token].hash else ""
    case PendingSlot(server) => if server in b.servers then b.servers[server].pendingHash else ""
    case CurrentSlot(server) => if server in b.servers then b.servers[server].tokenHash else ""
  }

  ghost predicate Placed(b: Books, h: string) {
    h != "" && exists slot :: HashAt(b, slot) == h
  }

  /** Every credential is in one place at most. */
  ghost predicate Wf(b: Books) {
    forall s, s' :: HashAt(b, s) == HashAt(b, s') != "" ==> s == s'
  }

  /** Everything in the books has been minted. */
  ghost predicate Known(b: Books, hashes: set<string>, tokens: set<string>) {
    (forall s :: HashAt(b, s) != "" ==> HashAt(b, s) in hashes) && b.installs.Keys <= tokens
  }

  /** A credential in a place is new (not among the known ones), or stood no further on. */
  ghost predicate Forward(a: Books, b: Books, known: set<string>, slot: Slot) {
    HashAt(b, slot) == "" || HashAt(b, slot) !in known ||
    exists s :: HashAt(a, s) == HashAt(b, slot) && Rank(s) <= Rank(slot)
  }

  /** Credentials only move forward, and tokens are never opened again. */
  ghost predicate Advances(a: Books, b: Books, hashes: set<string>, tokens: set<string>) {
    (forall slot :: Forward(a, b, hashes, slot)) &&
    forall t :: t in b.installs ==> t !in tokens || (t in a.installs && a.installs[t] == b.installs[t])
  }

  lemma AdvancesTransitive(a: Books, b: Books, c: Books, hashes: set<string>, tokens: set<string>)
    requires Advances(a, b, hashes, tokens) && Advances(b, c, hashes, tokens)
    ensures Advances(a, c, hashes, tokens)
  {
    forall slot
      ensures Forward(a, c, hashes, slot)
    {
      assert Forward(b, c, hashes, slot);
      if HashAt(c, slot) != "" && HashAt(c, slot) in hashes {
        var s :| HashAt(b, s) == HashAt(c, slot) && Rank(s) <= Rank(slot);
        assert Forward(a, b, hashes, s);
      }
    }
  }

  /** A known credential never stands further back than before, and one that is nowhere stays
      nowhere. */
  lemma OnlyForward(a: Books, b: Books, hashes: set<string>, tokens: set<string>, h: string)
    requires Wf(a) && Advances(a, b, hashes, tokens) && h in hashes && h != ""
    ensures forall s, s' :: HashAt(a, s) == h && HashAt(b, s') == h ==> Rank(s) <= Rank(s')
    ensures !Placed(a, h) ==> !Placed(b, h)
    ensures forall k, s' :: HashAt(a, CurrentSlot(k)) == h == HashAt(b, s') ==> s'.CurrentSlot?
    ensures forall k, s' :: HashAt(a, PendingSlot(k)) == h == HashAt(b, s') ==> !s'.InstallSlot?
  {
    forall s'
      ensures HashAt(b, s') == h ==> exists s :: HashAt(a, s) == h && Rank(s) <= Rank(s')
    {
      assert Forward(a, b, hashes, s');
    }
  }

  /** The books after one credential has moved (possibly not at all) and others have been dropped. */
  ghost predicate Shifted(a: Books, b: Books, from: Slot, to: Slot) {
    Rank(from) <= Rank(to) && HashAt(b, to) == HashAt(a, from) && (from != to ==> HashAt(b, from) == "") &&
    forall s :: s != to ==> HashAt(b, s) == "" || HashAt(b, s) == HashAt(a, s)
  }

  lemma ShiftAdvances(a: Books, b: Books, from: Slot, to: Slot, hashes: set<string>, tokens: set<string>)
    requires Wf(a) && Known(a, hashes, tokens) && Shifted(a, b, from, to)
    requires forall t :: t in b.installs ==> t in a.installs && a.installs[t] == b.installs[t]
    ensures Wf(b) && Known(b, hashes, tokens) && Advances(a, b, hashes, tokens)
  {
    forall s, s' | HashAt(b, s) == HashAt(b, s') != ""
      ensures s == s'
    {
      var r := if s == to then from else s;
      var r' := if s' == to then from else s';
      assert HashAt(a, r) == HashAt(b, s) && HashAt(a, r') == HashAt(b, s');
    }
    forall slot
      ensures Forward(a, b, hashes, slot)
    {
      var r := if slot == to then from else slot;
      assert HashAt(b, slot) != "" ==> HashAt(a, r) == HashAt(b, slot);
    }
    forall s | HashAt(b, s) != ""
      ensures HashAt(b, s) in hashes
    {
      assert HashAt(a, if s == to then from else s) == HashAt(b, s);
    }
  }

  // ---------- expiry ----------

  predicate PendingExpired(identity: Identity, now: int) {
    identity.pendingHash != "" && now >= identity.pendingExpires
  }

  function ClearExpired(identity: Identity, now: int): Identity {
    if PendingExpired(identity, now) then identity.(pendingHash := "", pendingExpires := 0) else identity
  }

  /** The books without expired pending credentials, install tokens and rebind tokens. */
  function Pruned(b: Books, now: int): Books {
    b.(servers := map k | k in b.servers :: ClearExpired(b.servers[k], now),
       installs := map t | t in b.installs && now <= b.installs[t].expires :: b.installs[t],
       rebinds := map t | t in b.rebinds && now <= b.rebinds[t].expires :: b.rebinds[t])
  }

  lemma PruneAdvances(b: Books, now: int, hashes: set<string>, tokens: set<string>)
    requires Wf(b) && Known(b, hashes, tokens)
    ensures Wf(Pruned(b, now)) && Known(Pruned(b, now), hashes, tokens) && Advances(b, Pruned(b, now), hashes, tokens)
  {
    var a := Pruned(b, now);
    forall s
      ensures HashAt(a, s) == "" || HashAt(a, s) == HashAt(b, s)
      ensures Forward(b, a, hashes, s)
    {
    }
  }

  method PruneServers(servers: map<string, Identity>, now: int) returns (r: map<string, Identity>)
    ensures r == map k | k in servers :: ClearExpired(servers[k], now)
  {
    r := servers;
    var todo := servers.Keys;
    while todo != {}
      invariant todo <= servers.Keys && r.Keys == servers.Keys
      invariant forall k :: k in servers ==> r[k] == if k in todo then servers[k] else ClearExpired(servers[k], now)
    {
      var k :| k in todo;
      if PendingExpired(r[k], now) {
        r := r[k := r[k].(pendingHash := "", pendingExpires := 0)];
      }
      todo := todo - {k};
    }
  }

  method PruneInstalls(installs: map<string, Install>, now: int) returns (r: map<string, Install>)
    ensures r == map t | t in installs && now <= installs[t].expires :: installs[t]
  {
    r := installs;
    var todo := installs.Keys;
    while todo != {}
      invariant todo <= installs.Keys && todo <= r.Keys
      invariant r == map t | t in installs && (t in todo || now <= installs[t].expires) :: installs[t]
    {
      var t :| t in todo;
      if now > r[t].expires {
        r := r - {t};
      }
      todo := todo - {t};
    }
  }

  method PruneRebinds(rebinds: map<string, Rebind>, now: int) returns (r: map<string, Rebind>)
    ensures r == map t | t in rebinds && now <= rebinds[t].expires :: rebinds[t]
  {
    r := rebinds;
    var todo := rebinds.Keys;
    while todo != {}
      invariant todo <= rebinds.Keys && todo <= r.Keys
      invariant r == map t | t in rebinds && (t in todo || now <= rebinds[t].expires) :: rebinds[t]
    {
      var t :| t in todo;
      if now > r[t].expires {
        r := r - {t};
      }
      todo := todo - {t};
    }
  }

  // ---------- the operations on the books ----------

  function IdentityOf(b: Books, server: string): Identity {
    if server in b.servers then b.servers[server] else Identity("", "", "", 0, "")
  }

  /** A new credential and install token for a server, known or new. */
  function Mint(b: Books, server: string, uuid: string, hash: string, token: string, expires: int): Books {
    var identity := if server in b.servers then b.servers[server] else Identity(uuid, "", "", 0, uuid);
    b.(servers := b.servers[server := identity],
       installs := b.installs[token := Install(server, identity.uuid, hash, true, expires, identity.tokenHash != "")])
  }

  lemma MintAdvances(b: Books, server: string, uuid: string, hash: string, token: string, expires: int,
                     hashes: set<string>, tokens: set<string>)
    requires Wf(b) && Known(b, hashes, tokens) && hash != "" && hash !in hashes && token !in tokens
    ensures var after := Mint(b, server, uuid, hash, token, expires);
            Wf(after) && Known(after, hashes + {hash}, tokens + {token}) && Advances(b, after, hashes, tokens) &&
            HashAt(after, InstallSlot(token)) == hash
  {
    var after := Mint(b, server, uuid, hash, token, expires);
    assert forall s :: s != InstallSlot(token) ==> HashAt(after, s) == HashAt(b, s);
    forall s, s' | HashAt(after, s) == HashAt(after, s') != ""
      ensures s == s'
    {
      if s != InstallSlot(token) && s' != InstallSlot(token) {
        assert HashAt(b, s) == HashAt(b, s');
      }
    }
    forall s
      ensures Forward(b, after, hashes, s)
    {
      assert s != InstallSlot(token) ==> HashAt(after, s) == HashAt(b, s);
    }
  }

  /** A token that can be redeemed at some time. */
  predicate Open(b: Books, token: string) {
    token in b.installs && (b.installs[token].preserve || b.installs[token].secret)
  }

  predicate Redeemable(b: Books, token: string, now: int) {
    Open(b, token) && now <= b.installs[token].expires
  }

  /** Where the credential of a redeemed token goes. */
  function Destination(record: Install): Slot {
    if record.preserve then PendingSlot(record.server) else CurrentSlot(record.server)
  }

  function RedeemedIdentity(b: Books, record: Install): Identity {
    var identity := IdentityOf(b, record.server).(uuid := record.uuid);
    if !record.preserve then identity.(tokenHash := record.hash)
    else if record.secret then identity.(pendingHash := record.hash, pendingExpires := record.expires + DAY)
    else identity
  }

  function Redeemed(b: Books, token: string): Books
    requires token in b.installs
  {
    var record := b.installs[token];
    b.(servers := b.servers[record.server := RedeemedIdentity(b, record)],
       rebinds := b.rebinds[token := Rebind(record.server, record.expires)],
       installs := b.installs - {token})
  }

  function WithoutToken(b: Books, token: string): Books {
    b.(installs := b.installs - {token})
  }

  lemma RedeemAdvances(b: Books, token: string, hashes: set<string>, tokens: set<string>)
    requires Wf(b) && Known(b, hashes, tokens) && Open(b, token)
    ensures var after := Redeemed(b, token);
            Wf(after) && Known(after, hashes, tokens) && Advances(b, after, hashes, tokens)
    ensures b.installs[token].secret ==>
              HashAt(Redeemed(b, token), Destination(b.installs[token])) == b.installs[token].hash
  {
    var record, after := b.installs[token], Redeemed(b, token);
    if record.secret {
      assert Shifted(b, after, InstallSlot(token), Destination(record));
      ShiftAdvances(b, after, InstallSlot(token), Destination(record), hashes, tokens);
    } else {
      var same := PendingSlot(record.server);
      assert Shifted(b, after, same, same);
      ShiftAdvances(b, after, same, same, hashes, tokens);
    }
  }

  lemma DropTokenAdvances(b: Books, token: string, hashes: set<string>, tokens: set<string>)
    requires Wf(b) && Known(b, hashes, tokens)
    ensures var after := WithoutToken(b, token);
            Wf(after) && Known(after, hashes, tokens) && Advances(b, after, hashes, tokens)
  {
    var same := PendingSlot("");
    assert Shifted(b, WithoutToken(b, token), same, same);
    ShiftAdvances(b, WithoutToken(b, token), same, same, hashes, tokens);
  }

  /** A report with a pending credential makes it the current one, and the rebind tokens for the
      server go. */
  function PromotedBooks(b: Books, server: string, hash: string): Books
    requires server in b.servers
  {
    b.(servers := b.servers[server := Promoted(b.servers[server], hash)],
       rebinds := map t | t in b.rebinds && b.rebinds[t].server != server :: b.rebinds[t])
  }

  lemma PromoteAdvances(b: Books, server: string, hash: string, hashes: set<string>, tokens: set<string>)
    requires Wf(b) && Known(b, hashes, tokens) && server in b.servers && b.servers[server].pendingHash == hash != ""
    ensures var after := PromotedBooks(b, server, hash);
            Wf(after) && Known(after, hashes, tokens) && Advances(b, after, hashes, tokens) &&
            HashAt(after, CurrentSlot(server)) == hash
  {
    var after := PromotedBooks(b, server, hash);
    assert Shifted(b, after, PendingSlot(server), CurrentSlot(server));
    ShiftAdvances(b, after, PendingSlot(server), CurrentSlot(server), hashes, tokens);
  }

  function WithMachine(b: Books, server: string, machineId: string): Books
    requires server in b.servers
  {
    if PersistentMachineId(machineId)
      then b.(servers := b.servers[server := b.servers[server].(machineId := machineId)]) else b
  }

  lemma MachineAdvances(b: Books, server: string, machineId: string, hashes: set<string>, tokens: set<string>)
    requires Wf(b) && Known(b, hashes, tokens) && server in b.servers
    ensures var after := WithMachine(b, server, machineId);
            Wf(after) && Known(after, hashes, tokens) && Advances(b, after, hashes, tokens) &&
            forall s :: HashAt(after, s) == HashAt(b, s)
  {
    var after, same := WithMachine(b, server, machineId), PendingSlot(server);
    assert Shifted(b, after, same, same);
    ShiftAdvances(b, after, same, same, hashes, tokens);
  }

  /** The report is taken: its credential is the server's current one, or its pending one. */
  predicate Taken(b: Books, server: string, hash: string, now: int) {
    server in b.servers && Authorised(b.servers[server], hash, now)
  }

  predicate Promotes(b: Books, server: string, hash: string, now: int) {
    server in b.servers && AcceptsPending(b.servers[server], hash, now)
  }

  /** The books after a report that is taken. */
  function Reported(b: Books, server: string, hash: string, machineId: string, now: int): Books
    requires server in b.servers
  {
    var seen := WithMachine(b, server, machineId);
    if Promotes(b, server, hash, now) then PromotedBooks(seen, server, hash) else seen
  }

  lemma ReportAdvances(b: Books, server: string, hash: string, machineId: string, now: int, hashes: set<string>,
                       tokens: set<string>)
    requires Wf(b) && Known(b, hashes, tokens) && server in b.servers && hash != ""
    ensures var after := Reported(b, server, hash, machineId, now);
            Wf(after) && Known(after, hashes, tokens) && Advances(b, after, hashes, tokens) &&
            after.installs == b.installs
    ensures !Promotes(b, server, hash, now) ==>
              forall s :: HashAt(Reported(b, server, hash, machineId, now), s) == HashAt(b, s)
    ensures Promotes(b, server, hash, now) ==>
              HashAt(Reported(b, server, hash, machineId, now), CurrentSlot(server)) == hash
  {
    MachineAdvances(b, server, machineId, hashes, tokens);
    var seen := WithMachine(b, server, machineId);
    if Promotes(b, server, hash, now) {
      PromoteAdvances(seen, server, hash, hashes, tokens);
      AdvancesTransitive(b, seen, PromotedBooks(seen, server, hash), hashes, tokens);
    }
  }

  predicate RebindMatches(server: string, identity: Identity, machineId: string, hash: string, configServer: string) {
    identity.tokenHash == hash &&
    (identity.machineId == machineId || identity.uuid == machineId ||
     (identity.machineId == "" && configServer != "" && configServer == server))
  }

  predicate RebindSource(b: Books, source: string, machineId: string, hash: string, configServer: string) {
    source in b.servers && RebindMatches(source, b.servers[source], machineId, hash, configServer)
  }

  /** Only one server can match: a credential is current for one server at most. */
  lemma OneRebindSource(b: Books, s: string, s': string, machineId: string, hash: string, configServer: string)
    requires Wf(b) && hash != ""
    requires RebindSource(b, s, machineId, hash, configServer) && RebindSource(b, s', machineId, hash, configServer)
    ensures s == s'
  {
    assert HashAt(b, CurrentSlot(s)) == HashAt(b, CurrentSlot(s'));
  }

  /** The identity of the source, with its current credential, takes the place of the target. */
  function Rebound(b: Books, source: string, target: string, machineId: string, token: string): Books
    requires source in b.servers
  {
    var identity := b.servers[source].(machineId := machineId, pendingHash := "", pendingExpires := 0);
    b.(servers := if source == target then b.servers[target := identity] else b.servers[target := identity] - {source},
       rebinds := b.rebinds - {token})
  }

  lemma RebindAdvances(b: Books, source: string, target: string, machineId: string, token: string, hashes: set<string>,
                       tokens: set<string>)
    requires Wf(b) && Known(b, hashes, tokens) && source in b.servers
    ensures var after := Rebound(b, source, target, machineId, token);
            Wf(after) && Known(after, hashes, tokens) && Advances(b, after, hashes, tokens) &&
            HashAt(after, CurrentSlot(target)) == HashAt(b, CurrentSlot(source))
  {
    var after := Rebound(b, source, target, machineId, token);
    assert Shifted(b, after, CurrentSlot(source), CurrentSlot(target));
    ShiftAdvances(b, after, CurrentSlot(source), CurrentSlot(target), hashes, tokens);
  }

  // ---------- memory and disk ----------

  /** How a save ends: with the file as it was; the same, but with earlier renames made durable;
      with the new file in place but the directory not synced, which is reported as a failure; or well. */
  datatype SaveResult = Untouched | Synced | Replaced | Saved

  /** What the file reads as now, and what it may read as after a crash. */
  datatype Disk = Disk(file: Books, possible: set<Books>)

  function SaveTo(disk: Disk, data: Books, save: SaveResult): Disk {
    match save
    case Untouched => disk
    case Synced => Disk(disk.file, {disk.file})
    case Replaced => Disk(data, {disk.file, data})
    case Saved => Disk(data, {data})
  }

  /** The memory and the disk.  `hashes` and `tokens` are history: all credentials and install
      tokens minted, and `written` all credentials that ever were in a file; nothing forgets them. */
  datatype Snapshot = Snapshot(data: Books, disk: Disk, hashes: set<string>, tokens: set<string>, written: set<string>)

  datatype Op =
    | CreateToken(server: string, uuid: string, hash: string, token: string, expires: int, now: int, save: SaveResult)
    | Consume(token: string, now: int, save: SaveResult)
    // `news` tells whether the queue, the result or the status in the report alone need a save.
    | HelperReport(server: string, hash: string, machineId: string, news: bool, now: int, save: SaveResult)
    | Move(token: string, source: string, machineId: string, hash: string, configServer: string, now: int,
           save: SaveResult)
    | OtherSave(save: SaveResult)
    | Restart
    | Crash(found: Books)

  predicate CanMove(b: Books, op: Op)
    requires op.Move?
  {
    op.token in b.rebinds && op.now <= b.rebinds[op.token].expires &&
    RebindSource(Pruned(b, op.now), op.source, op.machineId, op.hash, op.configServer)
  }

  /** What an operation can be called with: fresh secrets, a credential, and, for a move, the
      source that the search finds, if there is one. */
  ghost predicate Allowed(x: Snapshot, op: Op) {
    match op
    case CreateToken(_, _, hash, token, _, _, _) => hash != "" && hash !in x.hashes && token !in x.tokens
    case HelperReport(_, hash, _, _, _, _) => hash != ""
    case Move(token, source, machineId, hash, configServer, now, _) =>
      hash != "" &&
      ((exists k :: RebindSource(Pruned(x.data, now), k, machineId, hash, configServer)) ==>
         RebindSource(Pruned(x.data, now), source, machineId, hash, configServer))
    case Crash(found) => found in x.disk.possible
    case _ => true
  }

  /** What an operation makes of the books in memory, before it saves them. */
  function Applied(b: Books, op: Op): Books {
    match op
    case CreateToken(server, uuid, hash, token, expires, now, _) =>
      Mint(Pruned(b, now), server, uuid, hash, token, expires)
    case Consume(token, now, _) =>
      if Redeemable(b, token, now) then Redeemed(Pruned(b, now), token) else WithoutToken(Pruned(b, now), token)
    case HelperReport(server, hash, machineId, _, now, _) =>
      if Taken(b, server, hash, now) then Reported(b, server, hash, machineId, now) else b
    case Move(token, source, machineId, _, _, now, _) =>
      if CanMove(b, op) then Rebound(Pruned(b, now), source, b.rebinds[token].server, machineId, token)
      else Pruned(b, now)
    case _ => b
  }

  /** Whether an operation saves. */
  predicate Saves(b: Books, op: Op) {
    match op
    case CreateToken(_, _, _, _, _, _, _) => true
    case Consume(token, now, _) => token in Pruned(b, now).installs
    case HelperReport(server, hash, machineId, news, now, _) =>
      Taken(b, server, hash, now) &&
      (news || Promotes(b, server, hash, now) ||
       Reported(b, server, hash, machineId, now).servers[server].machineId != b.servers[server].machineId)
    case Move(_, _, _, _, _, _, _) => CanMove(b, op)
    case OtherSave(_) => true
    case _ => false
  }

  function HashesIn(b: Books): set<string> {
    (set t | t in b.installs && b.installs[t].secret :: b.installs[t].hash) +
    (set k | k in b.servers :: b.servers[k].pendingHash) + (set k | k in b.servers :: b.servers[k].tokenHash) - {""}
  }

  lemma HashesInAre(b: Books, h: string)
    requires h != ""
    ensures h in HashesIn(b) <==> Placed(b, h)
  {
    if h in HashesIn(b) {
      if t :| t in b.installs && b.installs[t].secret && b.installs[t].hash == h {
        assert HashAt(b, InstallSlot(t)) == h;
      } else if k :| k in b.servers && b.servers[k].pendingHash == h {
        assert HashAt(b, PendingSlot(k)) == h;
      } else {
        var k :| k in b.servers && b.servers[k].tokenHash == h;
        assert HashAt(b, CurrentSlot(k)) == h;
      }
    }
  }

  /** Only a report takes back what it did in memory when its save fails, whether or not the
      file was replaced. */
  function KeptInMemory(b: Books, op: Op): Books {
    if Saves(b, op) && op.HelperReport? && op.save != Saved then b else Applied(b, op)
  }

  function Step(x: Snapshot, op: Op): Snapshot {
    match op
    case Restart => x.(data := x.disk.file)
    case Crash(found) => x.(data := found, disk := Disk(found, {found}))
    case _ =>
      var d := Applied(x.data, op);
      var y := if op.CreateToken? then x.(hashes := x.hashes + {op.hash}, tokens := x.tokens + {op.token}) else x;
      if !Saves(x.data, op) then y.(data := d)
      else y.(data := KeptInMemory(x.data, op), disk := SaveTo(x.disk, d, op.save),
              written := if op.save.Replaced? || op.save.Saved? then x.written + HashesIn(d) else x.written)
  }

  // ---------- what the operations do, record by record ----------

  /** The record of an install token goes exactly if it has expired. */
  ghost predicate InstallKept(a: Books, b: Books, now: int, t: string) {
    (t in b.installs <==> t in a.installs && now <= a.installs[t].expires) &&
    (t in b.installs ==> b.installs[t] == a.installs[t])
  }

  ghost predicate RebindKept(a: Books, b: Books, now: int, t: string) {
    (t in b.rebinds <==> t in a.rebinds && now <= a.rebinds[t].expires) &&
    (t in b.rebinds ==> b.rebinds[t] == a.rebinds[t])
  }

  /** An identity keeps everything but a pending credential that has expired. */
  ghost predicate IdentityKept(a: Books, b: Books, now: int, k: string) {
    (k in b.servers <==> k in a.servers) &&
    (k in b.servers ==>
       var was, left := a.servers[k], b.servers[k];
       left.uuid == was.uuid && left.tokenHash == was.tokenHash && left.machineId == was.machineId &&
       if was.pendingHash != "" && now >= was.pendingExpires then left.pendingHash == "" && left.pendingExpires == 0
       else left.pendingHash == was.pendingHash && left.pendingExpires == was.pendingExpires)
  }

  /** Expired records go and nothing else does. */
  ghost predicate Expired(a: Books, b: Books, now: int) {
    (forall t :: InstallKept(a, b, now, t)) && (forall t :: RebindKept(a, b, now, t)) &&
    forall k :: IdentityKept(a, b, now, k)
  }

  lemma PrunedIs(b: Books, now: int)
    ensures Expired(b, Pruned(b, now), now)
  {
  }

  /** A new token: its record holds the credential and says whether the server has one already; a
      server that was not known gets an identity without a credential. */
  ghost predicate TokenCreated(a: Books, b: Books, server: string, uuid: string, hash: string, token: string,
                               expires: int, now: int) {
    (forall t :: t != token ==> InstallKept(a, b, now, t)) && (forall t :: RebindKept(a, b, now, t)) &&
    (forall k :: k != server || k in a.servers ==> IdentityKept(a, b, now, k)) &&
    server in b.servers && (server !in a.servers ==> b.servers[server] == Identity(uuid, "", "", 0, uuid)) &&
    token in b.installs &&
    b.installs[token] == Install(server, b.servers[server].uuid, hash, true, expires,
                                 server in a.servers && a.servers[server].tokenHash != "")
  }

  /** The token can be redeemed now: it has not expired, and does not need the credential or has it. */
  ghost predicate Redeems(a: Books, token: string, now: int) {
    token in a.installs && now <= a.installs[token].expires && (a.installs[token].secret || a.installs[token].preserve)
  }

  /** The identity after a redemption.  With a credential to preserve the new one waits until a day
      after the token's expiry; otherwise it is the current one at once. */
  ghost predicate Installed(a: Books, b: Books, record: Install, now: int) {
    record.server in b.servers &&
    var known, left := record.server in a.servers, b.servers[record.server];
    left.uuid == record.uuid && left.machineId == (if known then a.servers[record.server].machineId else "") &&
    left.tokenHash == (if !record.preserve then record.hash
                     else if known then a.servers[record.server].tokenHash else "") &&
    if record.preserve && record.secret
      then left.pendingHash == record.hash && left.pendingExpires == record.expires + 86400
    else if known && (a.servers[record.server].pendingHash == "" || now < a.servers[record.server].pendingExpires)
      then left.pendingHash == a.servers[record.server].pendingHash &&
           left.pendingExpires == a.servers[record.server].pendingExpires
    else left.pendingHash == "" && left.pendingExpires == 0
  }

  /** A redemption: the token is gone in any case, and if it could be redeemed it lives on as a
      rebind token for its server. */
  ghost predicate TokenConsumed(a: Books, b: Books, token: string, now: int) {
    token !in b.installs && (forall t :: t != token ==> InstallKept(a, b, now, t)) &&
    if Redeems(a, token, now) then
      var record := a.installs[token];
      Installed(a, b, record, now) && (forall k :: k != record.server ==> IdentityKept(a, b, now, k)) &&
      token in b.rebinds && b.rebinds[token] == Rebind(record.server, record.expires) &&
      forall t :: t != token ==> RebindKept(a, b, now, t)
    else (forall t :: RebindKept(a, b, now, t)) && forall k :: IdentityKept(a, b, now, k)
  }

  /** The credential is the server's pending one and has not expired. */
  ghost predicate Pending(a: Books, server: string, hash: string, now: int) {
    server in a.servers && a.servers[server].pendingHash == hash != "" && now < a.servers[server].pendingExpires
  }

  /** The credential is the server's current one, or its pending one. */
  ghost predicate Valued(a: Books, server: string, hash: string, now: int) {
    server in a.servers && (a.servers[server].tokenHash == hash || Pending(a, server, hash, now))
  }

  /** A report.  With the pending credential it makes that the current one and ends the server's
      rebind tokens; the machine it names is noted if that is a proper identifier. */
  ghost predicate ReportTaken(a: Books, b: Books, server: string, hash: string, machineId: string, now: int) {
    b.installs == a.installs && (forall k :: k in b.servers <==> k in a.servers) &&
    (forall k :: k in a.servers && k != server ==> b.servers[k] == a.servers[k]) &&
    (!Pending(a, server, hash, now) ==> b.rebinds == a.rebinds) &&
    (Pending(a, server, hash, now) ==>
       forall t :: (t in b.rebinds <==> t in a.rebinds && a.rebinds[t].server != server) &&
                   (t in b.rebinds ==> b.rebinds[t] == a.rebinds[t])) &&
    if !Valued(a, server, hash, now) then b.servers == a.servers
    else b.servers[server] ==
         Identity(a.servers[server].uuid,
                  if Pending(a, server, hash, now) then hash else a.servers[server].tokenHash,
                  if Pending(a, server, hash, now) then "" else a.servers[server].pendingHash,
                  if Pending(a, server, hash, now) then 0 else a.servers[server].pendingExpires,
                  if PersistentMachineId(machineId) then machineId else a.servers[server].machineId)
  }

  /** The source proves itself to a rebind token that has not expired: by its current credential
      together with its machine, or, while no machine is on record, with the server it was
      configured for. */
  ghost predicate Proven(a: Books, token: string, source: string, machineId: string, hash: string,
                         configServer: string, now: int) {
    token in a.rebinds && now <= a.rebinds[token].expires && source in a.servers &&
    var identity := a.servers[source];
    identity.tokenHash == hash &&
    (machineId in {identity.machineId, identity.uuid} || (identity.machineId == "" && configServer == source != ""))
  }

  /** A move: the source's identity, without a pending credential, is the target's now, and the
      source is no more; the rebind token is used up. */
  ghost predicate Moved(a: Books, b: Books, token: string, source: string, machineId: string, hash: string,
                        configServer: string, now: int) {
    (forall t :: InstallKept(a, b, now, t)) &&
    if Proven(a, token, source, machineId, hash, configServer, now) then
      var target := a.rebinds[token].server;
      (forall k :: k !in {source, target} ==> IdentityKept(a, b, now, k)) &&
      (source != target ==> source !in b.servers) &&
      target in b.servers && b.servers[target] == Identity(a.servers[source].uuid, hash, "", 0, machineId) &&
      token !in b.rebinds && forall t :: t != token ==> RebindKept(a, b, now, t)
    else Expired(a, b, now)
  }

  /** What the books in memory become by an operation, before it saves them. */
  ghost predicate Did(a: Books, b: Books, op: Op) {
    match op
    case CreateToken(server, uuid, hash, token, expires, now, _) =>
      TokenCreated(a, b, server, uuid, hash, token, expires, now)
    case Consume(token, now, _) => TokenConsumed(a, b, token, now)
    case HelperReport(server, hash, machineId, _, now, _) => ReportTaken(a, b, server, hash, machineId, now)
    case Move(token, source, machineId, hash, configServer, now, _) =>
      Moved(a, b, token, source, machineId, hash, configServer, now)
    case _ => b == a
  }

  lemma RedeemedIs(a: Books, token: string, now: int)
    requires Redeems(a, token, now)
    ensures var b := Redeemed(Pruned(a, now), token);
            Installed(a, b, a.installs[token], now) && Redeemable(a, token, now) &&
            forall k :: k != a.installs[token].server ==> IdentityKept(a, b, now, k)
  {
  }

  lemma ConsumedIs(a: Books, token: string, now: int)
    ensures TokenConsumed(a, Applied(a, Consume(token, now, Saved)), token, now)
  {
    PrunedIs(a, now);
    var pruned, b := Pruned(a, now), Applied(a, Consume(token, now, Saved));
    assert forall t :: t != token ==> InstallKept(a, pruned, now, t) && (t in b.installs <==> t in pruned.installs);
    assert forall t :: RebindKept(a, pruned, now, t);
    if Redeems(a, token, now) {
      RedeemedIs(a, token, now);
      assert forall t :: t != token ==> (t in b.rebinds <==> t in pruned.rebinds);
    } else {
      assert b == WithoutToken(pruned, token);
      assert forall k :: IdentityKept(a, pruned, now, k);
    }
  }

  lemma ReportedIs(a: Books, server: string, hash: string, machineId: string, now: int)
    ensures ReportTaken(a, Applied(a, HelperReport(server, hash, machineId, false, now, Saved)), server, hash,
                        machineId,
                        now)
  {
  }

  lemma MovedIs(a: Books, op: Op)
    requires op.Move?
    ensures Moved(a, Applied(a, op), op.token, op.source, op.machineId, op.hash, op.configServer, op.now)
  {
    PrunedIs(a, op.now);
    assert IdentityKept(a, Pruned(a, op.now), op.now, op.source);
    assert CanMove(a, op) <==> Proven(a, op.token, op.source, op.machineId, op.hash, op.configServer, op.now);
  }

  lemma AppliedIs(a: Books, op: Op)
    ensures Did(a, Applied(a, op), op)
  {
    match op
    case CreateToken(_, _, _, _, _, now, _) => PrunedIs(a, now);
    case Consume(token, now, _) => ConsumedIs(a, token, now);
    case HelperReport(server, hash, machineId, _, now, _) => ReportedIs(a, server, hash, machineId, now);
    case Move(_, _, _, _, _, _, _) => MovedIs(a, op);
    case _ =>
  }

  /** When an operation saves: a redemption if the token is there and has not expired, a report if
      it is taken and brings anything new, a move if it can be made. */
  ghost predicate Writes(a: Books, op: Op) {
    match op
    case CreateToken(_, _, _, _, _, _, _) => true
    case Consume(token, now, _) => token in a.installs && now <= a.installs[token].expires
    case HelperReport(server, hash, machineId, news, now, _) =>
      Valued(a, server, hash, now) &&
      (news || Pending(a, server, hash, now) ||
       (PersistentMachineId(machineId) && machineId != a.servers[server].machineId))
    case Move(token, source, machineId, hash, configServer, now, _) =>
      Proven(a, token, source, machineId, hash, configServer, now)
    case OtherSave(_) => true
    case _ => false
  }

  lemma SavesIs(a: Books, op: Op)
    ensures Saves(a, op) <==> Writes(a, op)
  {
    if op.Consume? {
      PrunedIs(a, op.now);
      assert InstallKept(a, Pruned(a, op.now), op.now, op.token);
    } else if op.Move? {
      PrunedIs(a, op.now);
      assert IdentityKept(a, Pruned(a, op.now), op.now, op.source);
    }
  }

  /** What a save leaves: the new books if the file was replaced, otherwise the old; after a crash
      the same, unless the directory was not synced. */
  ghost predicate FileAfter(before: Disk, after: Disk, books: Books, save: SaveResult) {
    after.file == (if save == Replaced || save == Saved then books else before.file) &&
    forall p :: p in after.possible <==>
                if save == Untouched then p in before.possible
                else p == after.file || (save == Replaced && p == before.file)
  }

  lemma FileAfterIs(disk: Disk, books: Books, save: SaveResult)
    ensures FileAfter(disk, SaveTo(disk, books, save), books, save)
  {
  }

  /** A step that saves these books.  All but a report keep in memory what they did even if the save
      fails; a report takes it back whenever its save is not reported as done. */
  ghost predicate SavedStep(x: Snapshot, y: Snapshot, op: Op, books: Books)
    requires !op.Restart? && !op.Crash?
  {
    Did(x.data, books, op) && FileAfter(x.disk, y.disk, books, op.save) &&
    y.data == (if op.HelperReport? && op.save != Saved then x.data else books) &&
    forall h :: h in y.written <==>
                h in x.written || ((op.save == Replaced || op.save == Saved) && Placed(books, h))
  }

  ghost predicate Minted(x: Snapshot, y: Snapshot, op: Op) {
    y.hashes == (if op.CreateToken? then x.hashes + {op.hash} else x.hashes) &&
    y.tokens == (if op.CreateToken? then x.tokens + {op.token} else x.tokens)
  }

  /** What an operation does to memory, disk and history. */
  ghost predicate StepTaken(x: Snapshot, y: Snapshot, op: Op) {
    match op
    case Restart => y == x.(data := x.disk.file)
    case Crash(found) => y == x.(data := found, disk := Disk(found, {found}))
    case _ =>
      Minted(x, y, op) &&
      if Writes(x.data, op) then exists books :: SavedStep(x, y, op, books)
      else Did(x.data, y.data, op) && y.disk == x.disk && y.written == x.written
  }

  lemma SavedStepIs(x: Snapshot, op: Op)
    requires !op.Restart? && !op.Crash? && Saves(x.data, op)
    ensures SavedStep(x, Step(x, op), op, Applied(x.data, op))
  {
    var books := Applied(x.data, op);
    AppliedIs(x.data, op);
    FileAfterIs(x.disk, books, op.save);
    forall h
      ensures h in HashesIn(books) <==> Placed(books, h)
    {
      if h != "" {
        HashesInAre(books, h);
      }
    }
  }

  lemma StepIs(x: Snapshot, op: Op)
    ensures StepTaken(x, Step(x, op), op)
  {
    if !op.Restart? && !op.Crash? {
      SavesIs(x.data, op);
      if Saves(x.data, op) {
        SavedStepIs(x, op);
      } else {
        AppliedIs(x.data, op);
      }
    }
  }

  /** Books and disk are well-formed and hold nothing that was not minted. */
  ghost predicate Sound(x: Snapshot) {
    x.disk.file in x.disk.possible && x.written <= x.hashes && Wf(x.data) && Known(x.data, x.hashes, x.tokens) &&
    forall p :: p in x.disk.possible ==> Wf(p) && Known(p, x.hashes, x.tokens)
  }

  lemma AppliedAdvances(x: Snapshot, op: Op)
    requires Wf(x.data) && Known(x.data, x.hashes, x.tokens) && Allowed(x, op)
    ensures var d := Applied(x.data, op);
            Wf(d) && Advances(x.data, d, x.hashes, x.tokens) && Known(d, Step(x, op).hashes, Step(x, op).tokens)
  {
    var b, hs, ts := x.data, x.hashes, x.tokens;
    match op
    case CreateToken(server, uuid, hash, token, expires, now, _) =>
      PruneAdvances(b, now, hs, ts);
      MintAdvances(Pruned(b, now), server, uuid, hash, token, expires, hs, ts);
      AdvancesTransitive(b, Pruned(b, now), Applied(b, op), hs, ts);
    case Consume(token, now, _) =>
      PruneAdvances(b, now, hs, ts);
      if Redeemable(b, token, now) {
        RedeemAdvances(Pruned(b, now), token, hs, ts);
      } else {
        DropTokenAdvances(Pruned(b, now), token, hs, ts);
      }
      AdvancesTransitive(b, Pruned(b, now), Applied(b, op), hs, ts);
    case HelperReport(server, hash, machineId, _, now, _) =>
      if Taken(b, server, hash, now) {
        ReportAdvances(b, server, hash, machineId, now, hs, ts);
      }
    case Move(token, source, machineId, hash, configServer, now, _) =>
      PruneAdvances(b, now, hs, ts);
      if CanMove(b, op) {
        RebindAdvances(Pruned(b, now), source, b.rebinds[token].server, machineId, token, hs, ts);
        AdvancesTransitive(b, Pruned(b, now), Applied(b, op), hs, ts);
      }
    case _ =>
  }

  lemma KnownMore(b: Books, hashes: set<string>, tokens: set<string>, more: set<string>, moreTokens: set<string>)
    requires Known(b, hashes, tokens) && hashes <= more && tokens <= moreTokens
    ensures Known(b, more, moreTokens)
  {
  }

  lemma StepIsSound(x: Snapshot, op: Op)
    requires Sound(x) && Allowed(x, op)
    ensures Sound(Step(x, op))
  {
    var y := Step(x, op);
    if !op.Restart? && !op.Crash? {
      AppliedAdvances(x, op);
      KnownMore(x.data, x.hashes, x.tokens, y.hashes, y.tokens);
      forall p | p in x.disk.possible
        ensures Known(p, y.hashes, y.tokens)
      {
        KnownMore(p, x.hashes, x.tokens, y.hashes, y.tokens);
      }
      forall h | h in HashesIn(Applied(x.data, op))
        ensures h in y.hashes
      {
        HashesInAre(Applied(x.data, op), h);
      }
    }
  }

  /** The states of a run of operations. */
  ghost predicate Run(x: Snapshot, ops: seq<Op>)
    decreases |ops|
  {
    ops == [] || (Run(x, ops[..|ops| - 1]) && Allowed(After(x, ops[..|ops| - 1]), ops[|ops| - 1]))
  }

  function After(x: Snapshot, ops: seq<Op>): Snapshot
    decreases |ops|
  {
    if ops == [] then x else Step(After(x, ops[..|ops| - 1]), ops[|ops| - 1])
  }

  lemma RunMore(x: Snapshot, ops: seq<Op>, op: Op)
    requires Run(x, ops) && Allowed(After(x, ops), op)
    ensures Run(x, ops + [op]) && After(x, ops + [op]) == Step(After(x, ops), op)
  {
    assert (ops + [op])[..|ops|] == ops;
  }

  lemma RunOne(x: Snapshot, op: Op)
    requires Allowed(x, op)
    ensures Run(x, [op]) && After(x, [op]) == Step(x, op)
  {
    assert [] + [op] == [op];
    RunMore(x, [], op);
  }

  lemma {:induction false} RunIsSound(x: Snapshot, ops: seq<Op>)
    requires Sound(x) && Run(x, ops)
    ensures Sound(After(x, ops))
    decreases |ops|
  {
    if ops != [] {
      RunIsSound(x, ops[..|ops| - 1]);
      StepIsSound(After(x, ops[..|ops| - 1]), ops[|ops| - 1]);
    }
  }

  // ---------- when a credential is gone for good ----------

  ghost predicate OnDisk(x: Snapshot, h: string) {
    exists p :: p in x.disk.possible && Placed(p, h)
  }

  /** Neither the memory nor anything a crash may leave has the credential. */
  ghost predicate Gone(x: Snapshot, h: string) {
    h in x.hashes && h != "" && !Placed(x.data, h) && !OnDisk(x, h)
  }

  lemma StepKeepsGone(x: Snapshot, op: Op, h: string)
    requires Sound(x) && Allowed(x, op) && Gone(x, h)
    ensures Gone(Step(x, op), h)
  {
    if op.Restart? || op.Crash? {
      assert !Placed(x.disk.file, h);
    } else {
      AppliedAdvances(x, op);
      OnlyForward(x.data, Applied(x.data, op), x.hashes, x.tokens, h);
    }
  }

  lemma {:induction false} RunKeepsGone(x: Snapshot, ops: seq<Op>, h: string)
    requires Sound(x) && Run(x, ops) && Gone(x, h)
    ensures Gone(After(x, ops), h)
    decreases |ops|
  {
    if ops != [] {
      RunKeepsGone(x, ops[..|ops| - 1], h);
      RunIsSound(x, ops[..|ops| - 1]);
      StepKeepsGone(After(x, ops[..|ops| - 1]), ops[|ops| - 1], h);
    }
  }

  /** Some server takes a report with the credential at some time. */
  ghost predicate Authorises(b: Books, h: string) {
    exists server: string, now: int :: Taken(b, server, h, now)
  }

  lemma AuthorisesOnlyPlaced(b: Books, h: string)
    requires h != "" && Authorises(b, h)
    ensures Placed(b, h)
  {
    var server: string, now: int :| Taken(b, server, h, now);
    assert HashAt(b, CurrentSlot(server)) == h || HashAt(b, PendingSlot(server)) == h;
  }

  lemma ReportedPlaces(b: Books, slot: Slot, h: string)
    requires h != "" && HashAt(b, slot) == h && !slot.InstallSlot?
    ensures Authorises(b, h)
  {
    if slot.CurrentSlot? {
      assert Taken(b, slot.server, h, 0);
    } else {
      assert Taken(b, slot.server, h, b.servers[slot.server].pendingExpires - 1);
    }
  }

  /** A credential in the books can get to authorise a report: at once, or by redeeming its token. */
  lemma PlacedCanAuthorise(x: Snapshot, h: string) returns (ops: seq<Op>)
    requires Sound(x) && Placed(x.data, h)
    ensures |ops| <= 1 && Run(x, ops) && Authorises(After(x, ops).data, h)
  {
    var slot :| HashAt(x.data, slot) == h;
    if slot.InstallSlot? {
      var record := x.data.installs[slot.token];
      var op := Consume(slot.token, record.expires, Saved);
      ops := [op];
      RunOne(x, op);
      PruneAdvances(x.data, record.expires, x.hashes, x.tokens);
      RedeemAdvances(Pruned(x.data, record.expires), slot.token, x.hashes, x.tokens);
      ReportedPlaces(Applied(x.data, op), Destination(record), h);
    } else {
      ops := [];
      ReportedPlaces(x.data, slot, h);
    }
  }

  ghost predicate CanReturn(x: Snapshot, h: string) {
    exists ops :: Run(x, ops) && Authorises(After(x, ops).data, h)
  }

  /** Whatever fails, and however often the process crashes or starts again: a credential that
      was minted can still come to authorise a report exactly if it has a place in memory or in
      something that a crash may leave on disk. */
  lemma AuthorisesAgainExactlyIfPlaced(x: Snapshot, h: string)
    requires Sound(x) && h in x.hashes && h != ""
    ensures CanReturn(x, h) <==> Placed(x.data, h) || OnDisk(x, h)
  {
    if CanReturn(x, h) && !Placed(x.data, h) && !OnDisk(x, h) {
      var ops :| Run(x, ops) && Authorises(After(x, ops).data, h);
      RunKeepsGone(x, ops, h);
      AuthorisesOnlyPlaced(After(x, ops).data, h);
    }
    if Placed(x.data, h) {
      var ops := PlacedCanAuthorise(x, h);
    } else if OnDisk(x, h) {
      var p :| p in x.disk.possible && Placed(p, h);
      var y := Step(x, Crash(p));
      StepIsSound(x, Crash(p));
      var rest := PlacedCanAuthorise(y, h);
      RunAfterOne(x, Crash(p), rest);
    }
  }

  lemma RunAfterOne(x: Snapshot, op: Op, rest: seq<Op>)
    requires Allowed(x, op) && |rest| <= 1 && Run(Step(x, op), rest)
    ensures Run(x, [op] + rest) && After(x, [op] + rest) == After(Step(x, op), rest)
  {
    RunOne(x, op);
    if rest == [] {
      assert [op] + rest == [op];
    } else {
      assert rest == [rest[0]] && rest[..0] == [];
      RunMore(x, [op], rest[0]);
    }
  }

  // ---------- the disk and the memory in step ----------

  /** On no credential is `b` behind `a`. */
  ghost predicate NotBehind(a: Books, b: Books) {
    forall s, s' :: HashAt(a, s) == HashAt(b, s') != "" ==> Rank(s) <= Rank(s')
  }

  /** Nothing on disk is ahead of the memory: no credential stands further on, and none that
      was once written has left the file while the memory still has it. */
  ghost predicate InStep(x: Snapshot) {
    (forall p :: p in x.disk.possible ==> NotBehind(p, x.data) && NotBehind(p, x.disk.file)) &&
    forall h :: h in x.written && Placed(x.data, h) ==> Placed(x.disk.file, h)
  }

  lemma AdvancingIsNotBehind(p: Books, a: Books, b: Books, hashes: set<string>, tokens: set<string>)
    requires Known(p, hashes, tokens) && NotBehind(p, a) && Advances(a, b, hashes, tokens)
    ensures NotBehind(p, b)
  {
    forall s, s' | HashAt(p, s) == HashAt(b, s') != ""
      ensures Rank(s) <= Rank(s')
    {
      assert Forward(a, b, hashes, s');
    }
  }

  lemma SameIsNotBehind(a: Books, b: Books)
    requires Wf(a) && forall s :: HashAt(b, s) == HashAt(a, s)
    ensures NotBehind(a, b) && NotBehind(b, a)
  {
  }

  /** A report that promotes a credential, and whose save fails after the file was replaced: the
      promotion stands in the file and is taken back in memory. */
  ghost predicate LosesPromotion(x: Snapshot, op: Op) {
    op.HelperReport? && op.save == Replaced && Promotes(x.data, op.server, op.hash, op.now)
  }

  lemma DiskIsNotAhead(x: Snapshot, op: Op)
    requires Sound(x) && InStep(x) && Allowed(x, op) && !op.Restart? && !op.Crash?
    ensures forall p :: p in x.disk.possible ==> NotBehind(p, Applied(x.data, op))
  {
    AppliedAdvances(x, op);
    forall p | p in x.disk.possible
      ensures NotBehind(p, Applied(x.data, op))
    {
      AdvancingIsNotBehind(p, x.data, Applied(x.data, op), x.hashes, x.tokens);
    }
  }

  lemma ReplacingKeepsInStep(x: Snapshot, op: Op)
    requires Sound(x) && InStep(x) && Allowed(x, op) && !op.Restart? && !op.Crash?
    requires Saves(x.data, op) && KeptInMemory(x.data, op) == Applied(x.data, op)
    ensures InStep(Step(x, op))
  {
    var y, d := Step(x, op), Applied(x.data, op);
    assert y.data == d && y.disk == SaveTo(x.disk, d, op.save);
    DiskIsNotAhead(x, op);
    if op.save == Replaced || op.save == Saved {
      AppliedAdvances(x, op);
      SameIsNotBehind(d, d);
      assert y.disk.file == d && forall p :: p in y.disk.possible ==> p == d || p in x.disk.possible;
    } else {
      assert y.disk.file == x.disk.file && y.written == x.written;
      assert forall p :: p in y.disk.possible ==> p in x.disk.possible;
      WrittenStaysOnFile(x, op);
    }
  }

  /** A written credential that memory still has after an operation was there, and in the file, before. */
  lemma WrittenStaysOnFile(x: Snapshot, op: Op)
    requires Sound(x) && InStep(x) && Allowed(x, op) && !op.Restart? && !op.Crash?
    ensures forall h :: h in x.written && Placed(Applied(x.data, op), h) ==> Placed(x.disk.file, h)
  {
    AppliedAdvances(x, op);
    forall h | h in x.written && Placed(Applied(x.data, op), h)
      ensures Placed(x.disk.file, h)
    {
      OnlyForward(x.data, Applied(x.data, op), x.hashes, x.tokens, h);
    }
  }

  lemma RollingBackKeepsInStep(x: Snapshot, op: Op)
    requires Sound(x) && InStep(x) && Allowed(x, op) && op.HelperReport? && Saves(x.data, op) && op.save != Saved
    ensures InStep(Step(x, op)) <==> !LosesPromotion(x, op)
  {
    var d, y := Applied(x.data, op), Step(x, op);
    ReportAdvances(x.data, op.server, op.hash, op.machineId, op.now, x.hashes, x.tokens);
    if LosesPromotion(x, op) {
      assert HashAt(d, CurrentSlot(op.server)) == HashAt(x.data, PendingSlot(op.server)) == op.hash;
      assert !NotBehind(d, y.data);
    } else if op.save == Replaced {
      SameIsNotBehind(x.data, d);
      AdvancingIsNotBehind(x.disk.file, x.data, d, x.hashes, x.tokens);
      SameIsNotBehind(d, d);
      forall h | h in y.written && Placed(y.data, h)
        ensures Placed(d, h)
      {
        var slot :| HashAt(x.data, slot) == h;
        assert HashAt(d, slot) == h;
      }
    }
  }

  /** Memory and disk stay in step exactly unless a report's promotion is lost. */
  lemma InStepExactlyUnlessPromotionIsLost(x: Snapshot, op: Op)
    requires Sound(x) && InStep(x) && Allowed(x, op)
    ensures InStep(Step(x, op)) <==> !LosesPromotion(x, op)
  {
    if op.Restart? || op.Crash? {
      SameIsNotBehind(Step(x, op).data, Step(x, op).data);
    } else if !Saves(x.data, op) {
      DiskIsNotAhead(x, op);
      WrittenStaysOnFile(x, op);
    } else if op.HelperReport? && op.save != Saved {
      RollingBackKeepsInStep(x, op);
    } else {
      ReplacingKeepsInStep(x, op);
    }
  }

  ghost predicate NoPromotionLost(x: Snapshot, ops: seq<Op>) {
    forall i :: 0 <= i < |ops| ==> !LosesPromotion(After(x, ops[..i]), ops[i])
  }

  lemma {:induction false} RunStaysInStep(x: Snapshot, ops: seq<Op>)
    requires Sound(x) && InStep(x) && Run(x, ops) && NoPromotionLost(x, ops)
    ensures InStep(After(x, ops))
    decreases |ops|
  {
    if ops != [] {
      var init, last := ops[..|ops| - 1], ops[|ops| - 1];
      forall i | 0 <= i < |init|
        ensures !LosesPromotion(After(x, init[..i]), init[i])
      {
        assert init[..i] == ops[..i];
      }
      RunStaysInStep(x, init);
      RunIsSound(x, init);
      InStepExactlyUnlessPromotionIsLost(After(x, init), last);
    }
  }

  /** A credential was written and is superseded in everything a crash may leave.  In step with
      the disk, the memory does not have it either, and no run brings it back. */
  lemma SupersededNeverAuthorises(x: Snapshot, h: string)
    requires Sound(x) && InStep(x) && h in x.written && h != "" && !OnDisk(x, h)
    ensures !CanReturn(x, h)
  {
    assert !Placed(x.disk.file, h);
    AuthorisesAgainExactlyIfPlaced(x, h);
  }

  /** Without that, it can come back exactly if the memory still has it. */
  lemma SupersededOnDiskReturnsExactlyFromMemory(x: Snapshot, h: string)
    requires Sound(x) && h in x.written && h != "" && !OnDisk(x, h)
    ensures CanReturn(x, h) <==> Placed(x.data, h)
  {
    AuthorisesAgainExactlyIfPlaced(x, h);
  }

  /** A server with a current credential and a pending one, saved. */
  const REINSTALLED := Books(map["1" := Identity("u", "h1", "h2", 100, "u")], map[], map[])
  const REINSTALLED_STATE := Snapshot(REINSTALLED, Disk(REINSTALLED, {REINSTALLED}), {"h1", "h2"}, {}, {"h1", "h2"})

  lemma OnlyTheseTwo()
    ensures Sound(REINSTALLED_STATE) && InStep(REINSTALLED_STATE)
    ensures var d := PromotedBooks(REINSTALLED, "1", "h2"); !Placed(d, "h1") && d.servers["1"].tokenHash == "h2"
  {
    var b, d := REINSTALLED, PromotedBooks(REINSTALLED, "1", "h2");
    assert forall s :: HashAt(b, s) != "" ==> s == CurrentSlot("1") || s == PendingSlot("1");
    assert HashAt(b, CurrentSlot("1")) == "h1" && HashAt(b, PendingSlot("1")) == "h2";
    assert forall s :: HashAt(d, s) != "" ==> s == CurrentSlot("1");
    assert HashAt(d, CurrentSlot("1")) == "h2";
  }

  /** The new credential reports; the save replaces the file but fails on the directory, and the
      promotion is taken back in memory.  Another save that fails, but syncs the directory, leaves
      the old credential superseded in everything on disk: it still authorises, and the next save
      that succeeds writes it back. */
  lemma LostPromotionUndoesTheDisk()
    ensures var x := REINSTALLED_STATE;
            var ops := [HelperReport("1", "h2", "", false, 0, Replaced), OtherSave(Synced)];
            var y := After(x, ops);
            Sound(x) && InStep(x) && Run(x, ops) && "h1" in y.written && !OnDisk(y, "h1") &&
            Taken(y.data, "1", "h1", 0) &&
            After(x, ops + [OtherSave(Saved)]).disk == x.disk
  {
    OnlyTheseTwo();
    var x, promoted := REINSTALLED_STATE, PromotedBooks(REINSTALLED, "1", "h2");
    var first, second, third := HelperReport("1", "h2", "", false, 0, Replaced), OtherSave(Synced), OtherSave(Saved);
    var y := Step(x, first);
    assert y.data == REINSTALLED && y.disk == Disk(promoted, {REINSTALLED, promoted});
    assert Step(y, second).disk == Disk(promoted, {promoted});
    RunOne(x, first);
    RunMore(x, [first], second);
    RunMore(x, [first, second], third);
    assert [first] + [second] == [first, second];
  }

  // ---------- install tokens ----------

  ghost predicate OpenOnDisk(x: Snapshot, token: string) {
    exists p :: p in x.disk.possible && Open(p, token)
  }

  /** The token can be redeemed neither from memory nor from anything on disk. */
  ghost predicate Closed(x: Snapshot, token: string) {
    token in x.tokens && !Open(x.data, token) && !OpenOnDisk(x, token)
  }

  lemma StepKeepsClosed(x: Snapshot, op: Op, token: string)
    requires Sound(x) && Allowed(x, op) && Closed(x, token)
    ensures Closed(Step(x, op), token)
  {
    if op.Restart? || op.Crash? {
      assert !Open(x.disk.file, token);
    } else {
      AppliedAdvances(x, op);
    }
  }

  lemma {:induction false} RunKeepsClosed(x: Snapshot, ops: seq<Op>, token: string)
    requires Sound(x) && Run(x, ops) && Closed(x, token)
    ensures Closed(After(x, ops), token)
    decreases |ops|
  {
    if ops != [] {
      var init, last := ops[..|ops| - 1], ops[|ops| - 1];
      RunKeepsClosed(x, init, token);
      RunIsSound(x, init);
      StepKeepsClosed(After(x, init), last, token);
    }
  }

  /** After a redemption that succeeded no run brings the token back: failed saves of every kind,
      lost promotions, crashes and restarts included. */
  lemma RedeemedAtMostOnce(x: Snapshot, token: string, now: int, ops: seq<Op>, now': int)
    requires Sound(x) && Redeemable(x.data, token, now) && Run(Step(x, Consume(token, now, Saved)), ops)
    ensures !Redeemable(After(Step(x, Consume(token, now, Saved)), ops).data, token, now')
  {
    StepIsSound(x, Consume(token, now, Saved));
    RunKeepsClosed(Step(x, Consume(token, now, Saved)), ops, token);
  }

  ghost predicate CanRedeem(x: Snapshot, token: string) {
    exists ops, now :: Run(x, ops) && Redeemable(After(x, ops).data, token, now)
  }

  /** A minted token can still be redeemed exactly if the memory, or something a crash may leave, has it. */
  lemma RedeemsAgainExactlyIfOpen(x: Snapshot, token: string)
    requires Sound(x) && token in x.tokens
    ensures CanRedeem(x, token) <==> Open(x.data, token) || OpenOnDisk(x, token)
  {
    if CanRedeem(x, token) && !Open(x.data, token) && !OpenOnDisk(x, token) {
      var ops, now :| Run(x, ops) && Redeemable(After(x, ops).data, token, now);
      RunKeepsClosed(x, ops, token);
    }
    if Open(x.data, token) {
      assert Run(x, []) && Redeemable(After(x, []).data, token, x.data.installs[token].expires);
    } else if OpenOnDisk(x, token) {
      var p :| p in x.disk.possible && Open(p, token);
      RunOne(x, Crash(p));
      assert Run(x, [Crash(p)]) && Redeemable(After(x, [Crash(p)]).data, token, p.installs[token].expires);
    }
  }

  // ---------- the operations ----------

  class Store {
    var data: Books
    var file: Books
    /** What a crash may leave of the file, and the history. */
    ghost var possible: set<Books>
    ghost var hashes: set<string>
    ghost var tokens: set<string>
    ghost var written: set<string>

    ghost function State(): Snapshot
      reads this
    {
      Snapshot(data, Disk(file, possible), hashes, tokens, written)
    }

    ghost predicate Valid()
      reads this
    {
      Sound(State())
    }

    constructor ()
      ensures Valid() && data == file == Books(map[], map[], map[]) && possible == {file}
      ensures hashes == {} && tokens == {} && written == {}
    {
      data := Books(map[], map[], map[]);
      file := Books(map[], map[], map[]);
      possible := {Books(map[], map[], map[])};
      hashes, tokens, written := {}, {}, {};
    }

    method Save(save: SaveResult) returns (ok: bool)
      modifies this`file, this`possible, this`written
      ensures Disk(file, possible) == SaveTo(old(Disk(file, possible)), data, save)
      ensures written == old(written) + if save.Replaced? || save.Saved? then HashesIn(data) else {}
      ensures ok <==> save == Saved
    {
      match save {
        case Untouched =>
        case Synced =>
          possible := {file};
        case Replaced =>
          possible := {file, data};
          file := data;
          written := written + HashesIn(data);
        case Saved =>
          file := data;
          possible := {data};
          written := written + HashesIn(data);
      }
      return save == Saved;
    }

    method PruneExpired(now: int)
      modifies this`data
      ensures data == Pruned(old(data), now) && Expired(old(data), data, now)
    {
      var servers := PruneServers(data.servers, now);
      PrunedIs(data, now);
      var installs := PruneInstalls(data.installs, now);
      var rebinds := PruneRebinds(data.rebinds, now);
      data := data.(servers := servers, installs := installs, rebinds := rebinds);
    }

    /** `hash` and `token` are the hashes of two fresh random secrets.  The record stays in memory
        even if the save fails; the caller then never learns the token. */
    method CreateInstallToken(server: string, uuid: string, hash: string, token: string, expires: int, now: int,
                              save: SaveResult)
      returns (ok: bool)
      requires Valid() && hash != "" && hash !in hashes && token !in tokens
      modifies this
      ensures Valid() && State() == Step(old(State()), CreateToken(server, uuid, hash, token, expires, now, save))
      ensures ok <==> save == Saved
      ensures TokenCreated(old(data), data, server, uuid, hash, token, expires, now)
    {
      StepIsSound(State(), CreateToken(server, uuid, hash, token, expires, now, save));
      AppliedIs(data, CreateToken(server, uuid, hash, token, expires, now, save));
      PruneExpired(now);
      data := Mint(data, server, uuid, hash, token, expires);
      hashes, tokens := hashes + {hash}, tokens + {token};
      ok := Save(save);
    }

    /** Redeems an install token.  It is gone from memory afterwards in any case. */
    method ConsumeInstallToken(token: string, now: int, save: SaveResult) returns (r: Option<Install>)
      requires Valid()
      modifies this
      ensures Valid() && State() == Step(old(State()), Consume(token, now, save))
      ensures r.Some? <==> Redeems(old(data), token, now) && save == Saved
      ensures TokenConsumed(old(data), data, token, now)
      ensures r.Some? ==> r.value == old(data).installs[token]
      ensures token !in data.installs
    {
      StepIsSound(State(), Consume(token, now, save));
      AppliedIs(data, Consume(token, now, save));
      PruneExpired(now);
      if token !in data.installs {
        assert WithoutToken(data, token) == data;
        return None;
      }
      var record := data.installs[token];
      if now > record.expires || (!record.preserve && !record.secret) {
        data := WithoutToken(data, token);
        var _ := Save(save);
        return None;
      }
      data := Redeemed(data, token);
      var ok := Save(save);
      return if ok then Some(record) else None;
    }

    /** A report with a credential; `news` tells whether its queue, result or status alone need a
        save.  When a save that is needed fails, the memory is put back, whatever became of the file. */
    method AcceptReport(server: string, hash: string, machineId: string, news: bool, now: int, save: SaveResult)
      returns (ok: bool)
      requires Valid() && hash != ""
      modifies this
      ensures Valid() && State() == Step(old(State()), HelperReport(server, hash, machineId, news, now, save))
      ensures ok <==> Valued(old(data), server, hash, now) &&
                      (save == Saved || !Writes(old(data), HelperReport(server, hash, machineId, news, now, save)))
      ensures ok ==> ReportTaken(old(data), data, server, hash, machineId, now)
      ensures ok && Pending(old(data), server, hash, now) ==> file == data && data.servers[server].tokenHash == hash
      ensures !ok ==> data == old(data)
    {
      StepIsSound(State(), HelperReport(server, hash, machineId, news, now, save));
      AppliedIs(data, HelperReport(server, hash, machineId, news, now, save));
      if server !in data.servers || !Authorised(data.servers[server], hash, now) {
        return false;
      }
      var previous := data;
      var promote := AcceptsPending(data.servers[server], hash, now);
      data := Reported(data, server, hash, machineId, now);
      if news || promote || data.servers[server].machineId != previous.servers[server].machineId {
        var saved := Save(save);
        if !saved {
          data := previous;
          return false;
        }
      }
      return true;
    }

    method FindSource(machineId: string, hash: string, configServer: string) returns (source: Option<string>)
      ensures source.Some? ==> RebindSource(data, source.value, machineId, hash, configServer)
      ensures source.None? ==> forall k :: !RebindSource(data, k, machineId, hash, configServer)
    {
      var todo := data.servers.Keys;
      while todo != {}
        invariant todo <= data.servers.Keys
        invariant forall k :: k !in todo ==> !RebindSource(data, k, machineId, hash, configServer)
      {
        var k :| k in todo;
        if RebindMatches(k, data.servers[k], machineId, hash, configServer) {
          return Some(k);
        }
        todo := todo - {k};
      }
      return None;
    }

    /** Moves the identity that proves itself with its current credential and machine to the
        server the rebind token is for. */
    method RebindMachine(token: string, machineId: string, hash: string, configServer: string, now: int,
                         save: SaveResult)
      returns (target: Option<string>, ghost source: string)
      requires Valid() && hash != ""
      modifies this
      ensures Valid() && Allowed(old(State()), Move(token, source, machineId, hash, configServer, now, save))
      ensures State() == Step(old(State()), Move(token, source, machineId, hash, configServer, now, save))
      ensures target.Some? <==>
                save == Saved && Proven(old(data), token, source, machineId, hash, configServer, now)
      ensures Moved(old(data), data, token, source, machineId, hash, configServer, now)
      ensures target.Some? ==> target.value == old(data).rebinds[token].server && target.value in data.servers &&
                               data.servers[target.value].tokenHash == hash && token !in data.rebinds
    {
      PruneExpired(now);
      var found := FindSource(machineId, hash, configServer);
      source := if found.Some? then found.value else "";
      StepIsSound(old(State()), Move(token, source, machineId, hash, configServer, now, save));
      MovedIs(old(data), Move(token, source, machineId, hash, configServer, now, save));
      if token !in data.rebinds || now > data.rebinds[token].expires || found.None? {
        return None, source;
      }
      var server := data.rebinds[token].server;
      data := Rebound(data, found.value, server, machineId, token);
      var ok := Save(save);
      return if ok then Some(server) else None, source;
    }

    /** The process starts again from the file. */
    method Load()
      requires Valid()
      modifies this`data
      ensures Valid() && State() == Step(old(State()), Restart)
    {
      StepIsSound(State(), Restart);
      data := file;
    }

    /** The server that a report is taken from. */
    method AuthorizeReporter(uuid: string, hash: string, now: int) returns (server: Option<string>)
      ensures server.Some? ==>
                server.value in data.servers && data.servers[server.value].uuid == uuid &&
                Valued(data, server.value, hash, now)
      ensures server.None? ==>
                forall k :: k in data.servers && data.servers[k].uuid == uuid ==> !Valued(data, k, hash, now)
    {
      var todo := data.servers.Keys;
      while todo != {}
        invariant todo <= data.servers.Keys
        invariant forall k :: k in data.servers && k !in todo && data.servers[k].uuid == uuid ==>
                                !Taken(data, k, hash, now)
      {
        var k :| k in todo;
        if data.servers[k].uuid == uuid && Authorised(data.servers[k], hash, now) {
          return Some(k);
        }
        todo := todo - {k};
      }
      return None;
    }
  }

  // ---------- a credential that comes back ----------

  /** A server with a current credential and a second install token minted before it had one. */
  const TWO_MINTED :=
    Books(map["1" := Identity("u", "h1", "", 0, "u")], map["t2" := Install("1", "u", "h2", true, 100, false)], map[])
  const TWO_MINTED_STATE :=
    Snapshot(TWO_MINTED, Disk(TWO_MINTED, {TWO_MINTED}), {"h1", "h2"}, {"t1", "t2"}, {"h1", "h2"})

  /** Redeeming the second token with a failed save: the first credential is superseded in memory,
      and authorises again when the process starts again. */
  lemma FailedSaveThenRestart()
    ensures var x := TWO_MINTED_STATE;
            var ops := [Consume("t2", 0, Untouched)];
            Sound(x) && Run(x, ops) && !Placed(After(x, ops).data, "h1") &&
            Run(x, ops + [Restart]) && Taken(After(x, ops + [Restart]).data, "1", "h1", 0)
  {
    var x, b := TWO_MINTED_STATE, TWO_MINTED;
    assert forall s :: HashAt(b, s) != "" ==> s == CurrentSlot("1") || s == InstallSlot("t2");
    assert HashAt(b, CurrentSlot("1")) == "h1" && HashAt(b, InstallSlot("t2")) == "h2";
    var op := Consume("t2", 0, Untouched);
    RunOne(x, op);
    RunMore(x, [op], Restart);
    assert Step(x, op).data == Redeemed(Pruned(b, 0), "t2");
    SupersededByRedeeming();
  }

  lemma SupersededByRedeeming()
    ensures !Placed(Redeemed(Pruned(TWO_MINTED, 0), "t2"), "h1")
  {
    var data := Redeemed(Pruned(TWO_MINTED, 0), "t2");
    assert forall s :: HashAt(data, s) != "" ==> s == CurrentSlot("1");
    assert HashAt(data, CurrentSlot("1")) == "h2";
  }
}
