/** What holds in every run of the wizard, however its events interleave. */
module WizardSafety {
  import opened Text
  import opened Wizard
  import opened WizardRuns

  // ---- the image side ----

  /** The counter is the number of jobs in flight. */
  predicate JobsAreCounted(m: Image) {
    m.jobs == |m.threads| + m.installing
  }

  /** A pending mark names the current ISO, and a scan of it is in flight. */
  predicate MarkIsCurrent(m: Image) {
    m.analyzing.Some? ==> m.analyzing == m.iso && Analyze(m.analyzing.value) in m.threads
  }

  /** The editions shown are none or those of the current ISO. */
  predicate EditionsAreCurrent(truth: string -> seq<Edition>, m: Image) {
    && (m.editions == [] || (m.iso.Some? && m.editions == truth(m.iso.value)))
    && (m.editionsRead.Some? ==> m.editionsRead == m.iso)
  }

  predicate ImageOk(truth: string -> seq<Edition>, m: Image) {
    JobsAreCounted(m) && MarkIsCurrent(m) && EditionsAreCurrent(truth, m)
  }

  lemma NewIsoOk(truth: string -> seq<Edition>, m: Image, path: string)
    requires ImageOk(truth, m)
    ensures ImageOk(truth, NewIso(m, path))
  {
    assert NewIso(m, path).threads[|m.threads|] == Analyze(path);
  }

  lemma SetSystemOk(truth: string -> seq<Edition>, m: Image, kind: nat)
    requires ImageOk(truth, m)
    ensures ImageOk(truth, SetSystem(m, kind))
    ensures SetSystem(m, kind).installing == m.installing && SetSystem(m, kind).iso == m.iso
    ensures SetSystem(m, kind).analyzing == m.analyzing
  {
  }

  lemma OthersStay(m: Image, i: nat, job: Job)
    requires i < |m.threads| && job in m.threads && m.threads[i] != job
    ensures job in Report(m, i).threads
  {
    var k :| 0 <= k < |m.threads| && m.threads[k] == job;
    var rest := Report(m, i).threads;
    if k < i {
      assert rest[k] == job;
    } else {
      assert rest[k - 1] == job;
    }
  }

  lemma KindFoundOk(truth: string -> seq<Edition>, m: Image, i: nat, kind: nat)
    requires ImageOk(truth, m) && i < |m.threads| && m.threads[i].Analyze?
    ensures ImageOk(truth, KindFound(m, i, kind))
    ensures KindFound(m, i, kind).installing == m.installing && KindFound(m, i, kind).iso == m.iso
    ensures m.analyzing.None? ==> KindFound(m, i, kind).analyzing.None?
  {
    hide SetSystem;
    if m.iso == Some(m.threads[i].path) {
      SetSystemOk(truth, Report(m, i).(analyzing := None), kind);
    } else if m.analyzing.Some? {
      OthersStay(m, i, Analyze(m.analyzing.value));
    }
  }

  lemma EditionsFoundOk(truth: string -> seq<Edition>, m: Image, i: nat, editions: seq<Edition>)
    requires ImageOk(truth, m) && i < |m.threads| && m.threads[i].ReadEditions?
    requires editions in {[], truth(m.threads[i].path)}
    ensures ImageOk(truth, EditionsFound(m, i, editions))
    ensures EditionsFound(m, i, editions).installing == m.installing && EditionsFound(m, i, editions).iso == m.iso
    ensures EditionsFound(m, i, editions).analyzing == m.analyzing
  {
    if m.analyzing.Some? {
      OthersStay(m, i, Analyze(m.analyzing.value));
    }
  }

  // ---- what the callbacks leave alone ----

  lemma UpdateUiEffect(s: State)
    ensures var t := UpdateUi(s);
            && t == s.(nextOn := t.nextOn, drives := t.drives)
            && t.drives == s.drives.(dev := t.drives.dev)
            && (s.step < 2 ==> t.nextOn == MayGoOn(s) && t.drives == s.drives)
            && (s.step == 2 ==> t.nextOn && t.drives.dev == SelectedWord(s.drives))
            && (s.step > 2 ==> t == s)
  {
  }

  lemma GoNextEffect(s: State, identity: Option<Identity>, found: Obstacle)
    ensures var t := GoNext(s, identity, found);
            && t.image == s.image && t.flashing == s.flashing && t.writers == s.writers
            && t.drives == s.drives.(dev := t.drives.dev, ident := t.drives.ident)
            && t.drives.ident == (if s.step == 0 then identity else s.drives.ident)
            && (s.step < 2 ==> t.step == s.step + 1 && t.dialogs == s.dialogs)
            && (s.step >= 2 ==> t.step == s.step && t.nextOn == s.nextOn && t.drives == s.drives)
            && (s.step == 0 ==> t.nextOn == (s.image.iso.Some? && s.image.analyzing.None?)
                                && t.drives.dev == s.drives.dev)
            && (s.step == 1 ==> t.nextOn && t.drives.dev == SelectedWord(s.drives))
            && (s.step > 2 ==> t == s)
            && (s.step == 2 ==> t.dialogs == s.dialogs || exists d :: t.dialogs == s.dialogs + [d])
  {
    hide UpdateUi, SelectedWord, SelectedDrive;
    if s.step < 2 {
      var u := (if s.step == 0 then RememberDrive(s, identity) else s).(step := s.step + 1);
      UpdateUiEffect(u);
      assert SelectedWord(u.drives) == SelectedWord(s.drives) by {
        SameSelection(u.drives, s.drives);
      }
    }
  }

  lemma SameSelection(d: Drives, c: Drives)
    requires d.rows == c.rows && d.selected == c.selected
    ensures SelectedWord(d) == SelectedWord(c) && SelectedDrive(d) == SelectedDrive(c)
  {
  }

  lemma GoBackEffect(s: State)
    requires 0 < s.step < 3
    ensures var t := GoBack(s);
            && t.image == s.image && t.flashing == s.flashing && t.writers == s.writers && t.dialogs == s.dialogs
            && t.step == s.step - 1 && t.drives == s.drives && t.nextOn == MayGoOn(s.(step := s.step - 1))
  {
    UpdateUiEffect(s.(step := s.step - 1));
  }

  lemma SetIsoEffect(s: State, path: string)
    requires s.step < 2
    ensures var t := SetIso(s, path);
            && t == s.(image := NewIso(s.image, path), nextOn := t.nextOn)
            && t.nextOn == MayGoOn(s.(image := NewIso(s.image, path)))
  {
    hide NewIso, MayGoOn;
    UpdateUiEffect(s.(image := NewIso(s.image, path)));
  }

  lemma DropIsoEffect(s: State, path: string, identity: Option<Identity>)
    ensures var t := DropIso(s, path, identity);
            && t.flashing == s.flashing && t.writers == s.writers && t.dialogs == s.dialogs
            && t.image == (if s.step > 1 then s.image else NewIso(s.image, path))
            && (s.step == 0 && SelectedDrive(s.drives).Some? ==>
                  t.step == 1 && !t.nextOn && t.drives == s.drives.(ident := identity))
            && (s.step == 0 && SelectedDrive(s.drives).None? ==> t.step == 0 && !t.nextOn && t.drives == s.drives)
            && (s.step == 1 ==> t.step == 1 && !t.nextOn && t.drives == s.drives)
            && (s.step > 1 ==> t == s)
  {
    hide UpdateUi, SelectedDrive, SetIso, NewIso;
    if s.step < 2 {
      SetIsoEffect(s, path);
      NewIsoIsPending(s.image, path);
      UpdateUiEffect(RememberDrive(SetIso(s, path), identity).(step := 1));
    }
  }

  lemma NewIsoIsPending(m: Image, path: string)
    ensures NewIso(m, path).iso == Some(path) && NewIso(m, path).analyzing == Some(path)
    ensures NewIso(m, path).installing == m.installing
  {
  }

  lemma ApplyKindEffect(s: State, i: nat, kind: nat)
    requires i < |s.image.threads|
    ensures var t := ApplyKind(s, i, kind);
            && t == s.(image := KindFound(s.image, i, kind), nextOn := t.nextOn, drives := t.drives)
            && t.drives == s.drives.(dev := t.drives.dev)
            && (t.drives.dev == s.drives.dev || (s.step == 2 && t.drives.dev == SelectedWord(s.drives)))
            && (t.nextOn == s.nextOn || s.step == 2 || t.nextOn == MayGoOn(t))
  {
    hide KindFound;
    UpdateUiEffect(s.(image := KindFound(s.image, i, kind)));
  }

  lemma AnswerEffect(s: State, yes: bool, found: Obstacle)
    requires s.dialogs != []
    ensures var t := Answer(s, yes, found);
            && t.drives == s.drives
            && t.image == s.image.(jobs := t.image.jobs, installing := t.image.installing)
            && t.image.jobs - t.image.installing == s.image.jobs - s.image.installing
            && (t == Close(s) || (exists d :: t == Ask(Close(s), d))
                || t == Close(s).(nextOn := false, image := t.image)
                || t == Close(s).(step := 3, flashing := true, writers := s.writers + [s.drives.dev]))
  {
    match TopDialog(s).value
    case Capacity =>
      assert Proceed(Close(s), found) in {Close(s), Ask(Close(s), InstallDeps), Ask(Close(s), Warn1)};
    case InstallDeps =>
    case Warn1 =>
    case Warn2 =>
  }

  lemma RefreshEffect(s: State, list: seq<Row>)
    ensures var t := RefreshDrives(s, list);
            && t.image == s.image && t.flashing == s.flashing && t.writers == s.writers && t.dialogs == s.dialogs
            && t.step == s.step && t.drives.ident == s.drives.ident && t.drives.dev == s.drives.dev
            && (s.step != 0 || list == s.drives.last ==> t == s)
            && (s.step == 0 && list != s.drives.last ==> t.drives == Relist(s.drives, list) && t.nextOn == MayGoOn(t))
  {
    hide Reselect;
    UpdateUiEffect(s.(drives := Relist(s.drives, list)));
  }

  lemma SelectRowEffect(s: State, row: nat)
    requires s.step == 0
    ensures var t := SelectRow(s, row);
            && t == s.(drives := s.drives.(selected := row), nextOn := t.nextOn) && t.nextOn == MayGoOn(t)
  {
    UpdateUiEffect(s.(drives := s.drives.(selected := row)));
  }

  lemma DepsDoneEffect(s: State, ok: bool)
    requires s.image.installing > 0
    ensures var t := DepsDone(s, ok);
            && t == s.(nextOn := true, dialogs := t.dialogs, image := t.image)
            && t.dialogs == (if ok then s.dialogs + [Warn1] else s.dialogs)
            && t.image == s.image.(jobs := s.image.jobs - 1, installing := s.image.installing - 1)
  {
  }

  lemma RestartEffect(s: State)
    ensures Restart(s) == s.(step := 0, nextOn := SelectedDrive(s.drives).Some?)
  {
    UpdateUiEffect(s.(step := 0));
  }

  // ---- every event keeps the image side right ----

  lemma ImageKept(truth: string -> seq<Edition>, s: System, e: Event)
    requires CanHappen(truth, s, e) && ImageOk(truth, s.w.image)
    ensures ImageOk(truth, Step(truth, s, e).w.image)
  {
    hide GoNext, GoBack, SetIso, DropIso, ApplyKind, Answer, DepsDone, Restart, RefreshDrives, SelectRow, KindFound,
      EditionsFound, NewIso, SetSystem;
    match e
    case Refresh(list) => RefreshEffect(s.w, list);
    case Pick(row) => SelectRowEffect(s.w, row);
    case Next(found) => GoNextEffect(s.w, Pin(s).identity, found);
    case Back => GoBackEffect(s.w);
    case Choose(path) => SetIsoEffect(s.w, path); NewIsoOk(truth, s.w.image, path);
    case Drop(path) => DropIsoEffect(s.w, path, Pin(s).identity); NewIsoOk(truth, s.w.image, path);
    case ChooseSystem(kind) => SetSystemOk(truth, s.w.image, kind);
    case Scanned(i, kind) => ApplyKindEffect(s.w, i, kind); KindFoundOk(truth, s.w.image, i, kind);
    case EditionsRead(i, editions) => EditionsFoundOk(truth, s.w.image, i, editions);
    case Respond(yes, found) => AnswerEffect(s.w, yes, found);
    case DepsEnd(ok) => DepsDoneEffect(s.w, ok);
    case RestartAfterError => RestartEffect(s.w);
    case _ =>
  }

  // ---- every event keeps the rows right ----

  /** The rows are the last list, with or without the placeholder in front, and one of them is selected. */
  predicate RowsAreTheList(d: Drives) {
    && IsDriveList(d.last)
    && (d.rows == d.last || (d.rows == [PickDrive] + d.last && d.last != [NoDrives]))
    && d.selected < |d.rows|
  }

  lemma RelistOk(d: Drives, list: seq<Row>)
    requires IsDriveList(list)
    ensures RowsAreTheList(Relist(d, list))
  {
    hide IsDriveList;
    ReselectNeverJumps(list, SelectedDrive(d), d.last == [] || d.last == [NoDrives]);
    NotEmpty(list);
  }

  lemma NotEmpty(list: seq<Row>)
    requires IsDriveList(list)
    ensures list != []
  {
  }

  lemma RowsKept(truth: string -> seq<Edition>, s: System, e: Event)
    requires CanHappen(truth, s, e) && RowsAreTheList(s.w.drives)
    ensures RowsAreTheList(Step(truth, s, e).w.drives)
  {
    hide GoNext, GoBack, SetIso, DropIso, ApplyKind, Answer, DepsDone, Restart, RefreshDrives, SelectRow, KindFound,
      EditionsFound, NewIso, SetSystem, Relist;
    match e
    case Refresh(list) => RefreshEffect(s.w, list); RelistOk(s.w.drives, list);
    case Pick(row) => SelectRowEffect(s.w, row);
    case Next(found) => GoNextEffect(s.w, Pin(s).identity, found);
    case Back => GoBackEffect(s.w);
    case Choose(path) => SetIsoEffect(s.w, path);
    case Drop(path) => DropIsoEffect(s.w, path, Pin(s).identity);
    case Scanned(i, kind) => ApplyKindEffect(s.w, i, kind);
    case Respond(yes, found) => AnswerEffect(s.w, yes, found);
    case DepsEnd(ok) => DepsDoneEffect(s.w, ok);
    case RestartAfterError => RestartEffect(s.w);
    case _ =>
  }

  // ---- every event keeps the identity right ----

  /** Whatever may lead to writing has been preceded by a pin, and the identity kept is the one pinned last. */
  predicate IdentIsPinned(s: System) {
    && s.w.drives.ident == (if LastPin(s.log).Some? then LastPin(s.log).value.identity else None)
    && (s.w.step >= 1 || s.w.image.installing > 0 || s.w.dialogs != [] || s.w.writers != [] ==> LastPin(s.log).Some?)
  }

  /** Every writer let through found the identity pinned last. */
  predicate StartsMatch(log: seq<Entry>) {
    forall j :: 0 <= j < |log| && log[j].Started? ==> StartMatches(log, j)
  }

  predicate StartMatches(log: seq<Entry>, j: nat)
    requires j < |log| && log[j].Started?
  {
    LastPin(log[..j]).Some? && LastPin(log[..j]).value.identity == log[j].identity
  }

  lemma LastPinOfMore(log: seq<Entry>, entry: Entry)
    ensures LastPin(log + [entry]) == if entry.Pinned? then Some(entry) else LastPin(log)
  {
    assert (log + [entry])[..|log|] == log;
  }

  lemma StartsMatchMore(log: seq<Entry>, entry: Entry)
    requires StartsMatch(log)
    requires entry.Started? ==> LastPin(log).Some? && LastPin(log).value.identity == entry.identity
    ensures StartsMatch(log + [entry])
  {
    hide LastPin;
    var more := log + [entry];
    assert more[..|log|] == log;
    forall j: nat | j < |more| && more[j].Started?
      ensures StartMatches(more, j)
    {
      if j < |log| {
        assert more[..j] == log[..j] && StartMatches(log, j);
      }
    }
  }

  lemma IdentKept(truth: string -> seq<Edition>, s: System, e: Event)
    requires CanHappen(truth, s, e) && IdentIsPinned(s) && StartsMatch(s.log) && ImageOk(truth, s.w.image)
    ensures IdentIsPinned(Step(truth, s, e)) && StartsMatch(Step(truth, s, e).log)
  {
    hide GoNext, GoBack, SetIso, DropIso, ApplyKind, Answer, DepsDone, Restart, RefreshDrives, SelectRow, KindFound,
      EditionsFound, NewIso, SetSystem, Relist, LastPin, StartsMatch, SelectedDrive;
    match e
    case Refresh(list) => RefreshEffect(s.w, list);
    case Pick(row) => SelectRowEffect(s.w, row);
    case Next(found) =>
      GoNextEffect(s.w, Pin(s).identity, found);
      LastPinOfMore(s.log, Pin(s));
      StartsMatchMore(s.log, Pin(s));
    case Back => GoBackEffect(s.w);
    case Choose(path) => SetIsoEffect(s.w, path); NewIsoIsPending(s.w.image, path);
    case Drop(path) =>
      DropIsoEffect(s.w, path, Pin(s).identity);
      NewIsoIsPending(s.w.image, path);
      LastPinOfMore(s.log, Pin(s));
      StartsMatchMore(s.log, Pin(s));
    case ChooseSystem(kind) => SetSystemOk(truth, s.w.image, kind);
    case Scanned(i, kind) => ApplyKindEffect(s.w, i, kind); KindFoundOk(truth, s.w.image, i, kind);
    case EditionsRead(i, editions) => EditionsFoundOk(truth, s.w.image, i, editions);
    case Respond(yes, found) => AnswerEffect(s.w, yes, found);
    case DepsEnd(ok) => DepsDoneEffect(s.w, ok);
    case WriterChecks(i) =>
      var entry := Started(s.w.writers[i], Known(s.world, s.w.writers[i]));
      LastPinOfMore(s.log, entry);
      if Known(s.world, s.w.writers[i]) == s.w.drives.ident {
        StartsMatchMore(s.log, entry);
      }
    case RestartAfterError => RestartEffect(s.w);
    case _ =>
  }

  // ---- whole runs ----

  predicate Sound(truth: string -> seq<Edition>, s: System) {
    ImageOk(truth, s.w.image) && RowsAreTheList(s.w.drives) && IdentIsPinned(s) && StartsMatch(s.log)
  }

  lemma StartIsSound(truth: string -> seq<Edition>, s: System)
    requires IsStart(s)
    ensures Sound(truth, s)
  {
    hide Reselect, NewIso, IsDriveList, SelectRow, RefreshDrives, SetIso, Relist;
    var list, drive, iso :| Begins(s, list, drive, iso);
    var shown := RefreshDrives(Fresh(), list);
    RefreshEffect(Fresh(), list);
    NotEmpty(list);
    RelistOk(Fresh().drives, list);
    FreshListHasNoPlaceholder(list);
    var picked := Preselect(shown, list, drive);
    if drive.Some? && drive.value in Words(list) {
      SelectRowEffect(shown, FirstIndex(Words(list), drive.value));
    }
    if iso.Some? {
      SetIsoEffect(picked, iso.value);
      NewIsoIsPending(picked.image, iso.value);
      NewIsoOk(truth, picked.image, iso.value);
    }
  }

  lemma FreshListHasNoPlaceholder(list: seq<Row>)
    requires IsDriveList(list)
    ensures Relist(Fresh().drives, list).rows == list
  {
  }

  /**
   * No stale background result, rows that are the last list, and no writer let
   * through on an identity other than the one last pinned: at every point of every run.
   */
  lemma {:induction false} EveryRunIsSound(truth: string -> seq<Edition>, trace: seq<System>, events: seq<Event>,
                                           i: nat)
    requires IsRun(truth, trace, events) && i < |trace|
    ensures Sound(truth, trace[i])
  {
    hide ImageOk, RowsAreTheList, IdentIsPinned, StartsMatch, Step, CanHappen, IsStart;
    if i == 0 {
      StartIsSound(truth, trace[0]);
    } else {
      EveryRunIsSound(truth, trace, events, i - 1);
      assert Follows(truth, trace, events, i - 1);
      var s, e := trace[i - 1], events[i - 1];
      ImageKept(truth, s, e);
      RowsKept(truth, s, e);
      IdentKept(truth, s, e);
    }
  }

  // ---- the drive choice over whole runs ----

  /** The choice stays on its name while that name is listed, and is given up when it is not. */
  lemma RelistFollowsTheName(d: Drives, list: seq<Row>, name: string)
    requires RowsAreTheList(d) && IsDriveList(list) && SelectedDrive(d) == Some(name)
    ensures SelectedDrive(Relist(d, list)) == if name in Words(list) then Some(name) else None
  {
    ReselectNeverJumps(list, Some(name), d.last == [] || d.last == [NoDrives]);
    SelectedIsADevice(d);
    assert IsDeviceName(name) ==> name[0] == 's';
    if name in Words(list) {
      assert Words(list)[FirstIndex(Words(list), name)] == name;
    }
  }

  lemma SelectedIsADevice(d: Drives)
    requires RowsAreTheList(d) && SelectedDrive(d).Some?
    ensures IsDeviceName(SelectedDrive(d).value) && SelectedWord(d) == SelectedDrive(d).value
  {
    var row := d.rows[d.selected];
    if d.rows == d.last {
      assert row in d.last;
    } else {
      assert row == d.last[d.selected - 1];
      assert row in d.last;
    }
  }

  /** No drive chosen, but not for want of drives. */
  predicate NoneChosen(d: Drives) {
    SelectedDrive(d).None? && d.last != [] && d.last != [NoDrives]
  }

  lemma RelistLeavesNoneChosen(d: Drives, list: seq<Row>)
    requires NoneChosen(d) && IsDriveList(list) && list != [NoDrives]
    ensures NoneChosen(Relist(d, list))
  {
    NotEmpty(list);
  }

  /** A tick of the timer that finds no drives, on the page that shows them. */
  predicate FindsNoDrives(s: System, e: Event) {
    e == Refresh([NoDrives]) && s.w.step == 0
  }

  predicate StillOn(d: Drives, name: string) {
    SelectedDrive(d) == Some(name) || NoneChosen(d)
  }

  lemma ChoiceKept(truth: string -> seq<Edition>, s: System, e: Event, name: string)
    requires CanHappen(truth, s, e) && RowsAreTheList(s.w.drives) && StillOn(s.w.drives, name)
    requires !e.Pick? && !FindsNoDrives(s, e)
    ensures StillOn(Step(truth, s, e).w.drives, name)
  {
    hide GoNext, GoBack, SetIso, DropIso, ApplyKind, Answer, DepsDone, Restart, RefreshDrives, SelectRow, KindFound,
      EditionsFound, NewIso, SetSystem, Relist, RowsAreTheList, SelectedDrive;
    var t := Step(truth, s, e);
    match e
    case Refresh(list) =>
      RefreshEffect(s.w, list);
      if t.w.drives != s.w.drives {
        RelistLast(s.w.drives, list);
        if NoneChosen(s.w.drives) {
          RelistLeavesNoneChosen(s.w.drives, list);
        } else {
          RelistFollowsTheName(s.w.drives, list, name);
        }
      }
    case Next(found) => GoNextEffect(s.w, Pin(s).identity, found); SameSelection(t.w.drives, s.w.drives);
    case Back => GoBackEffect(s.w);
    case Choose(path) => SetIsoEffect(s.w, path);
    case Drop(path) => DropIsoEffect(s.w, path, Pin(s).identity); SameSelection(t.w.drives, s.w.drives);
    case Scanned(i, kind) => ApplyKindEffect(s.w, i, kind); SameSelection(t.w.drives, s.w.drives);
    case Respond(yes, found) => AnswerEffect(s.w, yes, found);
    case DepsEnd(ok) => DepsDoneEffect(s.w, ok);
    case RestartAfterError => RestartEffect(s.w);
    case _ =>
  }

  lemma RelistLast(d: Drives, list: seq<Row>)
    requires IsDriveList(list)
    ensures Relist(d, list).last == list && list != []
  {
  }

  /**
   * Over whole runs, the selection never goes from one device name to another
   * unless the user picks a row or a refresh finds no drives in between.
   */
  lemma {:induction false} ChoiceNeverJumps(truth: string -> seq<Edition>, trace: seq<System>, events: seq<Event>,
                                            i: nat, j: nat, name: string)
    requires IsRun(truth, trace, events) && i <= j < |trace|
    requires SelectedDrive(trace[i].w.drives) == Some(name)
    requires forall k :: i <= k < j ==> !events[k].Pick? && !FindsNoDrives(trace[k], events[k])
    ensures SelectedDrive(trace[j].w.drives) in {None, Some(name)}
    ensures StillOn(trace[j].w.drives, name)
    decreases j - i
  {
    hide RowsAreTheList, Step, CanHappen, IsStart, FindsNoDrives, SelectedDrive, ImageOk, IdentIsPinned, StartsMatch;
    if i >= j {
    } else {
      ChoiceNeverJumps(truth, trace, events, i, j - 1, name);
      EveryRunIsSound(truth, trace, events, j - 1);
      assert Follows(truth, trace, events, j - 1);
      ChoiceKept(truth, trace[j - 1], events[j - 1], name);
    }
  }

  /** After each refresh on the drive page the same drive is chosen, if it is still there, and else none. */
  lemma RefreshFollowsTheName(truth: string -> seq<Edition>, trace: seq<System>, events: seq<Event>, i: nat,
                              name: string)
    requires IsRun(truth, trace, events) && i < |events| && events[i].Refresh?
    requires SelectedDrive(trace[i].w.drives) == Some(name)
    ensures SelectedDrive(trace[i + 1].w.drives) ==
              if trace[i].w.step != 0 || name in Words(events[i].list) then Some(name) else None
  {
    hide RowsAreTheList, IsStart, ImageOk, IdentIsPinned, StartsMatch, RefreshDrives, Relist, SelectedDrive;
    var s, list := trace[i], events[i].list;
    EveryRunIsSound(truth, trace, events, i);
    assert Follows(truth, trace, events, i);
    RefreshEffect(s.w, list);
    RelistFollowsTheName(s.w.drives, list, name);
    if list == s.w.drives.last {
      SelectedIsListed(s.w.drives, name);
    }
  }

  lemma SelectedIsListed(d: Drives, name: string)
    requires RowsAreTheList(d) && SelectedDrive(d) == Some(name)
    ensures name in Words(d.last)
  {
    var k := if d.rows == d.last then d.selected else d.selected - 1;
    assert Words(d.last)[k] == name;
  }
}
