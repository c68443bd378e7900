/** Saving the helper state so that a crash at any moment loses neither the old state nor,
    once a save has returned, the new one.

    A file name leads to a file; what a crash leaves under a name is one of the files the
    name led to since the directory was last synced, and the contents of a file survive a
    crash only if the file was synced itself. */
module DurableWrite {

  import opened Basics

  /** A saved state.  The number is history, not in the file: it tells apart what different saves
      wrote, even if the texts are the same. */
  datatype State = State(text: string, number: nat)

  /** File contents: a state that reads back, or anything else. */
  datatype Content = Good(state: State) | Bad(raw: string)

  datatype File = File(content: Content, synced: bool)

  /** What a name leads to now, and what it may lead to after a crash. */
  datatype Entry = Entry(current: Option<File>, possible: set<Option<File>>)

  /** The state file and its backup. */
  datatype View = View(primary: Entry, backup: Entry)

  function Renamed(e: Entry, file: File): Entry {
    Entry(Some(file), e.possible + {Some(file)})
  }

  function Settle(e: Entry): Entry {
    Entry(e.current, {e.current})
  }

  function DirectorySynced(v: View): View {
    View(Settle(v.primary), Settle(v.backup))
  }

  ghost predicate LeftByCrash(e: Entry, found: Option<Content>) {
    exists p :: p in e.possible && match p
      case None => found == None
      case Some(file) => found.Some? && (file.synced ==> found.value == file.content)
  }

  // ---------- writing ----------

  /** The directory contents a save passes through.  The previous primary, if there is one,
      is published and synced as the backup before the new state replaces it. */
  function Stages(start: View, data: Content): seq<View> {
    var (before, prepared) := match start.primary.current
      case None => ([start], start)
      case Some(previous) =>
        var renamed := start.(backup := Renamed(start.backup, File(previous.content, true)));
        ([start, renamed, DirectorySynced(renamed)], DirectorySynced(renamed));
    var replaced := prepared.(primary := Renamed(prepared.primary, File(data, true)));
    before + [replaced, DirectorySynced(replaced)]
  }

  /** The directory contents a load passes through when it puts the backup in place. */
  function RestoreStages(start: View): seq<View> {
    match start.backup.current
    case None => [start]
    case Some(backup) =>
      var renamed := start.(primary := Renamed(start.primary, File(backup.content, true)));
      [start, renamed, DirectorySynced(renamed)]
  }

  function LastOf(views: seq<View>): View
    requires views != []
  {
    views[|views| - 1]
  }

  class Store {
    var view: View
    /** The directory after every effect so far: a crash can happen at any of these points. */
    ghost var points: seq<View>

    constructor (view: View)
      ensures this.view == view && points == [view]
    {
      this.view := view;
      points := [view];
    }

    /** The effects since `mark` left the directory in one of the given stages. */
    ghost predicate PassedOnly(mark: nat, stages: seq<View>)
      reads this
    {
      mark <= |points| && forall i | mark <= i < |points| :: points[i] in stages
    }

    /** Creates, writes and syncs a temporary file; each of these can fail.  The names of
        the state file and its backup are not touched. */
    method StageFile(data: Content) returns (file: Option<File>)
      modifies this`points
      ensures file.Some? ==> file.value == File(data, true)
      ensures old(points) <= points && PassedOnly(|old(points)|, [view])
    {
      var created := *;
      points := points + [view];
      if !created {
        return None;
      }
      var f := File(Bad(""), false);
      var wrote, partial := *, *;
      f := if wrote then f.(content := data) else f.(content := Bad(partial));
      points := points + [view];
      if !wrote {
        return None;
      }
      var synced := *;
      points := points + [view];
      if !synced {
        return None;
      }
      f := f.(synced := true);
      return Some(f);
    }

    /** Syncs the directory, or fails and leaves open what a crash would find. */
    method SyncDirectory() returns (ok: bool)
      modifies this`view, this`points
      ensures view == if ok then DirectorySynced(old(view)) else old(view)
      ensures points == old(points) + [view]
    {
      ok := *;
      if ok {
        view := DirectorySynced(view);
      }
      points := points + [view];
    }

    /** Replaces the backup (`backup`) or the state file by new contents. */
    method ReplaceFile(backup: bool, data: Content) returns (ok: bool)
      modifies this`view, this`points
      ensures var renamed := if backup then old(view).(backup := Renamed(old(view).backup, File(data, true)))
                             else old(view).(primary := Renamed(old(view).primary, File(data, true)));
        && (ok ==> view == DirectorySynced(renamed))
        && (!ok ==> view in [old(view), renamed])
        && old(points) <= points
        && PassedOnly(|old(points)|, [old(view), renamed, DirectorySynced(renamed)])
    {
      var staged := StageFile(data);
      if staged == None {
        return false;
      }
      ok := PublishFile(backup, staged.value);
    }

    /** Renames a staged file into place and syncs the directory. */
    method PublishFile(backup: bool, file: File) returns (ok: bool)
      modifies this`view, this`points
      ensures var renamed := if backup then old(view).(backup := Renamed(old(view).backup, file))
                             else old(view).(primary := Renamed(old(view).primary, file));
        && (ok ==> view == DirectorySynced(renamed))
        && (!ok ==> view in [old(view), renamed])
        && old(points) <= points
        && PassedOnly(|old(points)|, [old(view), renamed, DirectorySynced(renamed)])
    {
      var moved := *;
      if !moved {
        return false;
      }
      view := if backup then view.(backup := Renamed(view.backup, file))
              else view.(primary := Renamed(view.primary, file));
      points := points + [view];
      ok := SyncDirectory();
    }

    /** A save.  Whatever fails and wherever a crash interrupts it, the directory is in one
        of the stages, and in the last one when the save reports success. */
    method WriteFile(data: Content) returns (ok: bool)
      modifies this`view, this`points
      ensures view in Stages(old(view), data)
      ensures ok ==> view == LastOf(Stages(old(view), data))
      ensures old(points) <= points && PassedOnly(|old(points)|, Stages(old(view), data))
    {
      ghost var stages := Stages(view, data);
      var staged := StageFile(data);
      if staged == None {
        return false;
      }
      var readable := view.primary.current == None;
      if !readable {
        readable := *;
      }
      if !readable {
        return false;
      }
      if view.primary.current.Some? {
        var saved := ReplaceFile(true, view.primary.current.value.content);
        if !saved {
          return false;
        }
      }
      ok := PublishFile(false, staged.value);
    }

    /** Opens the state: the state file if it reads back, otherwise its backup, which then
        replaces it.  Two missing files are a fresh start. */
    method Load() returns (result: LoadResult)
      modifies this`view, this`points
      ensures result == Unwritable || result == LoadOutcome(ContentOf(old(view).primary), ContentOf(old(view).backup))
      ensures old(view).primary.current == None && old(view).backup.current == None <==> result == FreshStart
      ensures result == Unrecoverable <==>
                (old(view).primary.current.Some? || old(view).backup.current.Some?) &&
                (old(view).primary.current.Some? ==> old(view).primary.current.value.content.Bad?) &&
                (old(view).backup.current.Some? ==> old(view).backup.current.value.content.Bad?)
      ensures result.Loaded? ==>
                var found := if result.restored then old(view).backup.current else old(view).primary.current;
                found.Some? && found.value.content == Good(result.state) &&
                (result.restored ==> old(view).primary.current.None? || old(view).primary.current.value.content.Bad?)
      ensures result.Loaded? ==>
                ContentOf(view.primary) == Some(Good(result.state)) && view.backup.current == old(view).backup.current
      ensures result.Loaded? && !result.restored ==> view == old(view)
      ensures result.Loaded? && result.restored ==> view.primary.possible == {Some(File(Good(result.state), true))}
      ensures old(points) <= points && PassedOnly(|old(points)|, RestoreStages(old(view)))
    {
      var primary := ContentOf(view.primary);
      if primary.Some? && primary.value.Good? {
        return Loaded(primary.value.state, false);
      }
      var backup := ContentOf(view.backup);
      if primary == None && backup == None {
        return FreshStart;
      }
      if backup == None || backup.value.Bad? {
        return Unrecoverable;
      }
      var restored := ReplaceFile(false, backup.value);
      if !restored {
        return Unwritable;
      }
      return Loaded(backup.value.state, true);
    }
  }

  // ---------- recovery ----------

  function ContentOf(e: Entry): Option<Content> {
    match e.current
    case None => None
    case Some(file) => Some(file.content)
  }

  datatype LoadResult = FreshStart | Loaded(state: State, restored: bool) | Unrecoverable | Unwritable

  function LoadOutcome(primary: Option<Content>, backup: Option<Content>): LoadResult {
    if primary.Some? && primary.value.Good? then Loaded(primary.value.state, false)
    else if primary == None && backup == None then FreshStart
    else if backup == None || backup.value.Bad? then Unrecoverable
    else Loaded(backup.value.state, true)
  }

  ghost predicate MayLoad(v: View, result: LoadResult) {
    exists p, b :: LeftByCrash(v.primary, p) && LeftByCrash(v.backup, b) && result == LoadOutcome(p, b)
  }

  /** Names only ever lead to files that were synced; which of several a crash leaves may be open. */
  ghost predicate OnlySynced(e: Entry) {
    e.current in e.possible && forall p :: p in e.possible && p.Some? ==> p.value.synced
  }

  ghost predicate Orderly(v: View) {
    OnlySynced(v.primary) && OnlySynced(v.backup)
  }

  /** Whatever a crash leaves under the name reads back. */
  ghost predicate AllGood(e: Entry) {
    OnlySynced(e) && forall p :: p in e.possible ==> p.Some? && p.value.content.Good?
  }

  /** One of the states that a crash may leave under the name. */
  ghost predicate Holds(e: Entry, state: State) {
    Some(File(Good(state), true)) in e.possible
  }

  lemma FoundInGood(e: Entry, found: Option<Content>)
    requires AllGood(e) && LeftByCrash(e, found)
    ensures found.Some? && found.value.Good? && Holds(e, found.value.state)
  {
    var p :| p in e.possible && match p
      case None => found == None
      case Some(file) => found.Some? && (file.synced ==> found.value == file.content);
    assert p == Some(File(Good(found.value.state), true));
  }

  /** What the state file may hold at each stage of a save: what it might hold before, or the new
      state; before the backup is published, only the former, and at the end only the latter. */
  lemma StageIsGood(start: View, new': State, i: nat)
    requires AllGood(start.primary) && i < |Stages(start, Good(new'))|
    ensures var v := Stages(start, Good(new'))[i];
            AllGood(v.primary) &&
            (forall s :: Holds(v.primary, s) ==> Holds(start.primary, s) || s == new') &&
            (i < |Stages(start, Good(new'))| - 2 ==> forall s :: Holds(v.primary, s) ==> Holds(start.primary, s)) &&
            (i == |Stages(start, Good(new'))| - 1 ==> forall s :: Holds(v.primary, s) <==> s == new')
  {
  }

  /** However earlier saves ended, as long as the state file is good: a crash at any point of a save
      recovers, from the state file itself, what it might have held before or the new state; after
      the save, always the new one. */
  lemma CrashRecoversOldOrNew(start: View, new': State, i: nat, result: LoadResult)
    requires AllGood(start.primary)
    requires i < |Stages(start, Good(new'))| && MayLoad(Stages(start, Good(new'))[i], result)
    ensures result.Loaded? && !result.restored && (Holds(start.primary, result.state) || result.state == new')
    ensures i == |Stages(start, Good(new'))| - 1 ==> result == Loaded(new', false)
  {
    var v := Stages(start, Good(new'))[i];
    var p, b :| LeftByCrash(v.primary, p) && LeftByCrash(v.backup, b) && result == LoadOutcome(p, b);
    StageIsGood(start, new', i);
    FoundInGood(v.primary, p);
  }

  /** No crash point of a save of a good state leaves files that do not load. */
  ghost predicate NeverLost(start: View, new': State) {
    forall i | 0 <= i < |Stages(start, Good(new'))| :: !MayLoad(Stages(start, Good(new'))[i], Unrecoverable)
  }

  function ContentIn(file: Option<File>): Option<Content> {
    match file
    case None => None
    case Some(f) => Some(f.content)
  }

  lemma FoundIsPossible(e: Entry, found: Option<Content>)
    requires OnlySynced(e)
    ensures LeftByCrash(e, found) <==> exists p :: p in e.possible && ContentIn(p) == found
  {
    if LeftByCrash(e, found) {
      var p :| p in e.possible && match p
        case None => found == None
        case Some(file) => found.Some? && (file.synced ==> found.value == file.content);
      assert ContentIn(p) == found;
    }
    if p :| p in e.possible && ContentIn(p) == found {
      assert p.Some? ==> p.value.synced;
    }
  }

  lemma StagesAreOrderly(start: View, data: Content, i: nat)
    requires Orderly(start) && i < |Stages(start, data)|
    ensures Orderly(Stages(start, data)[i])
  {
  }

  /** What a crash can find at each stage of a save. */
  lemma CrashFinds(start: View, data: Content, i: nat, p: Option<Content>, b: Option<Content>)
    requires Orderly(start) && i < |Stages(start, data)|
    requires LeftByCrash(Stages(start, data)[i].primary, p) && LeftByCrash(Stages(start, data)[i].backup, b)
    ensures p == Some(data) || LeftByCrash(start.primary, p)
    ensures LeftByCrash(start.backup, b) || (start.primary.current.Some? && b == ContentOf(start.primary))
  {
    var v := Stages(start, data)[i];
    StagesAreOrderly(start, data, i);
    FoundIsPossible(v.primary, p);
    FoundIsPossible(v.backup, b);
    FoundIsPossible(start.primary, p);
    FoundIsPossible(start.backup, b);
  }

  /** A save publishes the previous file as the backup without reading it back.  So it is safe
      exactly if nothing is lost to begin with and the state file, when there is one, is good. */
  lemma SaveIsSafeExactlyFromAGoodFile(start: View, new': State)
    requires Orderly(start)
    ensures NeverLost(start, new') <==>
      !MayLoad(start, Unrecoverable) && (ContentOf(start.primary).Some? ==> ContentOf(start.primary).value.Good?)
  {
    assert Stages(start, Good(new'))[0] == start;
    var current := ContentOf(start.primary);
    if !MayLoad(start, Unrecoverable) && (current.Some? ==> current.value.Good?) {
      forall i, p', b' | 0 <= i < |Stages(start, Good(new'))|
          && LeftByCrash(Stages(start, Good(new'))[i].primary, p') &&
             LeftByCrash(Stages(start, Good(new'))[i].backup, b')
        ensures LoadOutcome(p', b') != Unrecoverable
      {
        CrashFinds(start, Good(new'), i, p', b');
      }
    } else if current.Some? && current.value.Bad? {
      DamagedFileIsUnsafe(start, new');
    }
  }

  /** Right after a damaged file is published as the backup, both files can be damaged. */
  lemma DamagedFileIsUnsafe(start: View, new': State)
    requires Orderly(start) && ContentOf(start.primary).Some? && ContentOf(start.primary).value.Bad?
    ensures !NeverLost(start, new')
  {
    var v := Stages(start, Good(new'))[1];
    var damaged := ContentOf(start.primary);
    assert v.primary.current in v.primary.possible && v.backup.current in v.backup.possible;
    assert LeftByCrash(v.primary, damaged) && LeftByCrash(v.backup, damaged);
    assert MayLoad(v, Unrecoverable);
  }

  /** One such input: a damaged state file beside a good backup, interrupted right after
      the damaged file was published as the backup. */
  lemma DamagedFileCanReplaceTheGoodBackup(raw: string, kept: State, new': State)
    ensures var start := View(Entry(Some(File(Bad(raw), true)), {Some(File(Bad(raw), true))}),
                              Entry(Some(File(Good(kept), true)), {Some(File(Good(kept), true))}));
      LoadOutcome(ContentOf(start.primary), ContentOf(start.backup)) == Loaded(kept, true) && !NeverLost(start, new')
  {
    var start := View(Entry(Some(File(Bad(raw), true)), {Some(File(Bad(raw), true))}),
                      Entry(Some(File(Good(kept), true)), {Some(File(Good(kept), true))}));
    DamagedFileIsUnsafe(start, new');
  }

  /** Putting a good backup in place of a damaged state file is safe at every point. */
  lemma RestoringNeverLoses(start: View, i: nat, result: LoadResult)
    requires OnlySynced(start.primary) && AllGood(start.backup) && i < |RestoreStages(start)| &&
             MayLoad(RestoreStages(start)[i], result)
    ensures result.Loaded?
    ensures i == |RestoreStages(start)| - 1 ==> result == Loaded(start.backup.current.value.content.state, false)
  {
    var v := RestoreStages(start)[i];
    var p, b :| LeftByCrash(v.primary, p) && LeftByCrash(v.backup, b) && result == LoadOutcome(p, b);
    assert AllGood(v.backup);
    FoundInGood(v.backup, b);
    FoundIsPossible(v.primary, p);
  }

  // ---------- several saves ----------

  function AfterSaves(start: View, saves: seq<State>): View {
    if saves == [] then start
    else LastOf(Stages(AfterSaves(start, saves[..|saves| - 1]), Good(saves[|saves| - 1])))
  }

  /** After a save that completes, the backup is what the state file was when it began, whatever
      that had come from. */
  lemma BackupIsThePreviousFile(start: View, new': State)
    ensures var v := LastOf(Stages(start, Good(new')));
            v.primary.possible == {Some(File(Good(new'), true))} &&
            (start.primary.current.Some? ==>
               v.backup.possible == {Some(File(start.primary.current.value.content, true))})
  {
  }

  lemma {:induction false} SavesLeaveTheLastTwo(start: View, saves: seq<State>)
    ensures |saves| >= 1 ==>
              AfterSaves(start, saves).primary == Entry(Some(File(Good(saves[|saves| - 1]), true)),
                                                        {Some(File(Good(saves[|saves| - 1]), true))})
    ensures |saves| >= 2 ==>
              AfterSaves(start, saves).backup == Entry(Some(File(Good(saves[|saves| - 2]), true)),
                                                       {Some(File(Good(saves[|saves| - 2]), true))})
  {
    if saves != [] {
      SavesLeaveTheLastTwo(start, saves[..|saves| - 1]);
    }
  }

  /** After two completed saves in a row, whatever was before, at any point of a further one: if a
      crash leaves the state file alone damaged or missing, loading recovers one of the two. */
  lemma DamagedFileRecoversARecentSave(start: View, saves: seq<State>, next: State, i: nat, damaged: Option<Content>,
                                       b: Option<Content>)
    requires |saves| >= 2
    requires i < |Stages(AfterSaves(start, saves), Good(next))|
    requires LeftByCrash(Stages(AfterSaves(start, saves), Good(next))[i].backup, b)
    requires damaged.Some? ==> damaged.value.Bad?
    ensures LoadOutcome(damaged, b) in {Loaded(saves[|saves| - 1], true), Loaded(saves[|saves| - 2], true)}
  {
    SavesLeaveTheLastTwo(start, saves);
    var settled := AfterSaves(start, saves);
    var v := Stages(settled, Good(next))[i];
    var f :| f in v.primary.possible;
    StagesAreOrderly(settled, Good(next), i);
    assert LeftByCrash(v.primary, ContentIn(f)) by {
      FoundIsPossible(v.primary, ContentIn(f));
    }
    CrashFinds(settled, Good(next), i, ContentIn(f), b);
    FoundIsPossible(settled.backup, b);
  }

  // ---------- all runs ----------

  /** A save that got as far as a stage (the last one if it completed), a crash with what it
      leaves of the two files, or a load. */
  datatype Event = SaveTo(state: State, stage: nat) | Crash(primary: Option<File>, backup: Option<File>) | Reload

  ghost predicate Possible(v: View, e: Event) {
    match e
    case SaveTo(state, stage) => stage < |Stages(v, Good(state))|
    case Crash(primary, backup) => primary in v.primary.possible && backup in v.backup.possible
    case Reload => true
  }

  ghost function Next(v: View, e: Event): View
    requires Possible(v, e)
  {
    match e
    case SaveTo(state, stage) => Stages(v, Good(state))[stage]
    case Crash(primary, backup) => View(Entry(primary, {primary}), Entry(backup, {backup}))
    case Reload => v
  }

  predicate Completes(v: View, e: Event) {
    e.SaveTo? && e.stage == |Stages(v, Good(e.state))| - 1
  }

  predicate Replaces(v: View, e: Event) {
    e.SaveTo? && e.stage >= |Stages(v, Good(e.state))| - 2
  }

  /** The directory from event to event. */
  ghost predicate Run(views: seq<View>, events: seq<Event>) {
    |views| == |events| + 1 &&
    forall k :: 0 <= k < |events| ==> Possible(views[k], events[k]) && views[k + 1] == Next(views[k], events[k])
  }

  /** The states that may be found after some events: those of the beginning, until a save completes;
      then its state; and the states of later saves that replaced the file but did not complete. */
  ghost predicate Recent(views: seq<View>, events: seq<Event>, n: nat, state: State)
    requires Run(views, events) && n <= |events|
    decreases n
  {
    if n == 0 then Holds(views[0].primary, state)
    else if Completes(views[n - 1], events[n - 1]) then state == events[n - 1].state
    else (Replaces(views[n - 1], events[n - 1]) && state == events[n - 1].state) || Recent(views, events, n - 1, state)
  }

  /** Over any run of completed and failed saves, crashes and loads that starts from a good state
      file: the state file stays good, and what it may hold is a recent state. */
  lemma {:induction false} StateFileStaysGood(views: seq<View>, events: seq<Event>, n: nat)
    requires Run(views, events) && n <= |events| && AllGood(views[0].primary)
    ensures AllGood(views[n].primary)
    ensures forall s :: Holds(views[n].primary, s) ==> Recent(views, events, n, s)
    decreases n
  {
    if n > 0 {
      StateFileStaysGood(views, events, n - 1);
      var e := events[n - 1];
      assert Possible(views[n - 1], e) && views[n] == Next(views[n - 1], e);
      if e.SaveTo? {
        StageIsGood(views[n - 1], e.state, e.stage);
      }
    }
  }

  /** So whenever the state is loaded, at any point of any run, it is a recent one, from the state
      file itself; with no save that replaced the file after the last completed one, that one. */
  lemma EveryLoadIsRecent(views: seq<View>, events: seq<Event>, n: nat, result: LoadResult)
    requires Run(views, events) && n <= |events| && AllGood(views[0].primary) && MayLoad(views[n], result)
    ensures result.Loaded? && !result.restored && Recent(views, events, n, result.state)
  {
    StateFileStaysGood(views, events, n);
    var p, b :| LeftByCrash(views[n].primary, p) && LeftByCrash(views[n].backup, b) && result == LoadOutcome(p, b);
    FoundInGood(views[n].primary, p);
  }

  lemma {:induction false} LastCompletedSaveIsRecent(views: seq<View>, events: seq<Event>, k: nat, n: nat, state: State)
    requires Run(views, events) && k < n <= |events| && Completes(views[k], events[k])
    requires forall j :: k < j < n ==> !Replaces(views[j], events[j])
    requires Recent(views, events, n, state)
    ensures state == events[k].state
    decreases n
  {
    if k < n - 1 {
      LastCompletedSaveIsRecent(views, events, k, n - 1, state);
    }
  }

  // ---------- what a damaged state file recovers, over all runs ----------

  predicate CurrentIs(v: View, s: State) {
    v.primary.current == Some(File(Good(s), true))
  }

  /** A save that got as far as publishing the previous file as the backup. */
  predicate Publishes(v: View, e: Event) {
    e.SaveTo? && e.stage >= 1 && v.primary.current.Some?
  }

  /** The same, with the directory synced. */
  predicate PublishesForGood(v: View, e: Event) {
    e.SaveTo? && e.stage >= 2 && v.primary.current.Some?
  }

  /** A crash is survived by the backup with the state; nothing else is asked. */
  predicate LeavesBackup(e: Event, s: State) {
    e.Crash? ==> e.backup == Some(File(Good(s), true))
  }

  /** From one event to another no save publishes another backup for good, and crashes leave this one. */
  ghost predicate StillBackup(views: seq<View>, events: seq<Event>, first: nat, n: nat, s: State)
    requires Run(views, events) && n <= |events|
  {
    forall j :: first <= j < n ==> !PublishesForGood(views[j], events[j]) && LeavesBackup(events[j], s)
  }

  /** The backup is the state file as it was when save `p` began. */
  ghost predicate FromSave(views: seq<View>, events: seq<Event>, p: nat, n: nat, s: State)
    requires Run(views, events) && n <= |events|
  {
    p < n && Publishes(views[p], events[p]) && CurrentIs(views[p], s) && StillBackup(views, events, p + 1, n, s)
  }

  /** The state in the backup that was there at the beginning, or in the state file when a save began. */
  ghost predicate FromBackup(views: seq<View>, events: seq<Event>, n: nat, s: State)
    requires Run(views, events) && n <= |events|
  {
    (Holds(views[0].backup, s) && StillBackup(views, events, 0, n, s)) ||
    exists p: nat :: FromSave(views, events, p, n, s)
  }

  lemma BackupStep(v: View, e: Event, s: State)
    requires Possible(v, e) && AllGood(v.primary)
    ensures Holds(Next(v, e).backup, s) <==>
            (Publishes(v, e) && CurrentIs(v, s)) ||
            (Holds(v.backup, s) && !PublishesForGood(v, e) && LeavesBackup(e, s))
  {
  }

  lemma FromBackupMore(views: seq<View>, events: seq<Event>, n: nat, s: State)
    requires Run(views, events) && 0 < n <= |events|
    ensures FromBackup(views, events, n, s) <==>
            (Publishes(views[n - 1], events[n - 1]) && CurrentIs(views[n - 1], s)) ||
            (FromBackup(views, events, n - 1, s) && !PublishesForGood(views[n - 1], events[n - 1]) &&
             LeavesBackup(events[n - 1], s))
  {
    var m: nat := n - 1;
    if Publishes(views[m], events[m]) && CurrentIs(views[m], s) {
      assert FromSave(views, events, m, n, s);
    }
    if p: nat :| FromSave(views, events, p, n, s) {
      if p < m {
        assert FromSave(views, events, p, m, s);
      }
    }
    if p: nat :| FromSave(views, events, p, m, s) {
      if !PublishesForGood(views[m], events[m]) && LeavesBackup(events[m], s) {
        assert FromSave(views, events, p, n, s);
      }
    }
  }

  lemma {:induction false} BackupOverRun(views: seq<View>, events: seq<Event>, n: nat, s: State)
    requires Run(views, events) && n <= |events| && AllGood(views[0].primary)
    ensures Holds(views[n].backup, s) <==> FromBackup(views, events, n, s)
    decreases n
  {
    if n > 0 {
      BackupOverRun(views, events, n - 1, s);
      StateFileStaysGood(views, events, n - 1);
      assert Possible(views[n - 1], events[n - 1]) && views[n - 1 + 1] == Next(views[n - 1], events[n - 1]);
      BackupStep(views[n - 1], events[n - 1], s);
      FromBackupMore(views, events, n, s);
    }
  }

  lemma {:induction false} RunStaysOrderly(views: seq<View>, events: seq<Event>, n: nat)
    requires Run(views, events) && n <= |events| && Orderly(views[0])
    ensures Orderly(views[n])
    decreases n
  {
    if n > 0 {
      RunStaysOrderly(views, events, n - 1);
      var e := events[n - 1];
      assert Possible(views[n - 1], e) && views[n - 1 + 1] == Next(views[n - 1], e);
      if e.SaveTo? {
        StagesAreOrderly(views[n - 1], Good(e.state), e.stage);
      }
    }
  }

  /** At any point of any run of completed and failed saves, crashes and loads: if the state file
      alone is found damaged or missing, loading can recover a state exactly if the backup has it
      from the beginning or from the state file as it was when a save began, and no save since then
      has published another backup for good. */
  lemma DamagedFileRecovers(views: seq<View>, events: seq<Event>, n: nat, damaged: Option<Content>, s: State)
    requires Run(views, events) && n <= |events| && Orderly(views[0]) && AllGood(views[0].primary)
    requires damaged.Some? ==> damaged.value.Bad?
    ensures (exists b :: LeftByCrash(views[n].backup, b) && LoadOutcome(damaged, b) == Loaded(s, true)) <==>
            FromBackup(views, events, n, s)
  {
    BackupOverRun(views, events, n, s);
    RunStaysOrderly(views, events, n);
    var found := Some(Good(s));
    FoundIsPossible(views[n].backup, found);
    assert LoadOutcome(damaged, found) == Loaded(s, true);
    if p :| p in views[n].backup.possible && ContentIn(p) == found {
      assert p == Some(File(Good(s), true));
    }
    if Holds(views[n].backup, s) {
      assert ContentIn(Some(File(Good(s), true))) == found;
    }
  }

  /** Each save has its own number; what is there at the beginning has the number 0. */
  ghost predicate Numbered(views: seq<View>, events: seq<Event>)
    requires Run(views, events)
  {
    (forall s :: Holds(views[0].primary, s) ==> s.number == 0) &&
    forall k :: 0 <= k < |events| && events[k].SaveTo? ==> events[k].state.number == k + 1
  }

  /** The state was there at the beginning, or the save that wrote it completed. */
  predicate OfCompletedSave(views: seq<View>, events: seq<Event>, s: State)
    requires |views| == |events| + 1
  {
    s.number == 0 || (s.number <= |events| && Completes(views[s.number - 1], events[s.number - 1]))
  }

  /** What last changed the state file was a save that completed, or a crash that left the file of
      one; or nothing did. */
  ghost predicate LastChangeCompleted(views: seq<View>, events: seq<Event>, p: nat)
    requires Run(views, events) && p <= |events|
    decreases p
  {
    if p == 0 then true
    else
      var v, e := views[p - 1], events[p - 1];
      if Replaces(v, e) then Completes(v, e)
      else if e.Crash? then
        forall s | e.primary == Some(File(Good(s), true)) :: OfCompletedSave(views, events, s)
      else LastChangeCompleted(views, events, p - 1)
  }

  lemma {:induction false} CurrentIsCompletedExactlyIf(views: seq<View>, events: seq<Event>, p: nat, s: State)
    requires Run(views, events) && Numbered(views, events) && AllGood(views[0].primary)
    requires p <= |events| && CurrentIs(views[p], s)
    ensures OfCompletedSave(views, events, s) <==> LastChangeCompleted(views, events, p)
    decreases p
  {
    if p == 0 {
      assert Holds(views[0].primary, s);
    } else {
      var v, e := views[p - 1], events[p - 1];
      assert Possible(v, e) && views[p - 1 + 1] == Next(v, e);
      if e.SaveTo? && Replaces(v, e) {
        assert s == e.state;
      } else if !e.Crash? {
        CurrentIsCompletedExactlyIf(views, events, p - 1, s);
      }
    }
  }

  /** The state recovered from the backup that save `p` published is that of a completed save
      exactly if what last changed the state file before that save had completed. */
  lemma RecoversACompletedSaveExactlyIf(views: seq<View>, events: seq<Event>, p: nat, n: nat, s: State)
    requires Run(views, events) && Numbered(views, events) && AllGood(views[0].primary)
    requires n <= |events| && FromSave(views, events, p, n, s)
    ensures OfCompletedSave(views, events, s) <==> LastChangeCompleted(views, events, p)
  {
    CurrentIsCompletedExactlyIf(views, events, p, s);
  }

  /** With failed saves in between, a damaged state file may recover a state no save of which
      completed: one that replaced the file without completing becomes the next save's backup. */
  lemma FailedSaveCanBecomeTheBackup(a: State, b: State, c: State)
    ensures var start := View(Entry(Some(File(Good(a), true)), {Some(File(Good(a), true))}), Entry(None, {None}));
            var views := [start, Stages(start, Good(b))[3], LastOf(Stages(Stages(start, Good(b))[3], Good(c)))];
            var events := [SaveTo(b, 3), SaveTo(c, 4)];
            Run(views, events) && AllGood(start.primary) && !Completes(views[0], events[0]) &&
            Completes(views[1], events[1]) &&
            LoadOutcome(None, ContentOf(views[2].backup)) == Loaded(b, true)
  {
    var start := View(Entry(Some(File(Good(a), true)), {Some(File(Good(a), true))}), Entry(None, {None}));
    var failed := Stages(start, Good(b))[3];
    var views := [start, failed, LastOf(Stages(failed, Good(c)))];
    var events := [SaveTo(b, 3), SaveTo(c, 4)];
    assert |Stages(start, Good(b))| == 5 && |Stages(failed, Good(c))| == 5;
    forall k | 0 <= k < |events|
      ensures Possible(views[k], events[k]) && views[k + 1] == Next(views[k], events[k])
    {
    }
  }

  /** How a save leaves the state file: as it was, with a crash leaving what is there, replaced with
      a crash leaving either, or replaced for good. */
  lemma FourOutcomes(start: View, data: Content, i: nat)
    requires i < |Stages(start, data)|
    ensures var e, new' := Stages(start, data)[i].primary, Some(File(data, true));
            e == start.primary || e == Settle(start.primary) ||
            e == Entry(new',
                       (if start.primary.current.Some? then {start.primary.current} else start.primary.possible) +
                       {new'}) ||
            e == Entry(new', {new'})
  {
  }
}
