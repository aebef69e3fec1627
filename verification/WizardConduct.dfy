/** A rule of conduct that keeps every guard of the wizard: nothing enables Next while tools are being installed. */
module WizardConduct {
  import opened Text
  import opened Wizard
  import opened WizardRuns
  import opened WizardGuards
  import opened WizardSafety

  /** Back, or a scan of the current ISO that reports, while an install is running: both enable Next again. */
  predicate Disturbs(s: System, e: Event) {
    && s.w.image.installing > 0
    && (e.Back? || (e.Scanned? && e.thread < |s.w.image.threads|
                    && s.w.image.iso == Some(s.w.image.threads[e.thread].path)))
  }

  /** The drive chosen is the one pinned last. */
  predicate PinIsSelected(s: System) {
    && LastPin(s.log).Some?
    && SelectedDrive(s.w.drives) == Some(LastPin(s.log).value.name)
  }

  /** Dialogs and installs belong to the summary, writers to the last page, one at a time. */
  predicate OneThingAtATime(s: System) {
    && s.w.step <= 3
    && |s.w.dialogs| <= 1 && s.w.image.installing <= 1
    && (s.w.dialogs != [] ==> s.w.step == 2 && s.w.image.installing == 0)
    && (s.w.image.installing > 0 ==> s.w.step == 2 && !s.w.nextOn)
    && |s.w.writers| + s.running + s.errors <= 1
    && (s.w.step < 3 ==> |s.w.writers| + s.running + s.errors == 0)
  }

  /** From the summary on: an ISO whose scan is over, and the pinned drive named. */
  predicate SummaryIsReady(s: System) {
    && (s.w.step >= 1 ==> PinIsSelected(s))
    && (s.w.step >= 2 ==> s.w.image.iso.Some? && s.w.image.analyzing.None?
                          && s.w.drives.dev == LastPin(s.log).value.name)
    && (forall dev <- s.w.writers :: s.w.step == 3 && dev == s.w.drives.dev)
  }

  /** Every writer let through goes to the name pinned last. */
  predicate StartsOnPinnedName(log: seq<Entry>) {
    forall j :: 0 <= j < |log| && log[j].Started? ==> NameMatches(log, j)
  }

  predicate NameMatches(log: seq<Entry>, j: nat)
    requires j < |log| && log[j].Started?
  {
    LastPin(log[..j]).Some? && LastPin(log[..j]).value.name == log[j].name
  }

  predicate Guarded(s: System) {
    OneThingAtATime(s) && NextIsHonest(s.w) && SummaryIsReady(s) && StartsOnPinnedName(s.log)
  }

  lemma StartsOnPinnedNameMore(log: seq<Entry>, entry: Entry)
    requires StartsOnPinnedName(log)
    requires entry.Started? ==> LastPin(log).Some? && LastPin(log).value.name == entry.name
    ensures StartsOnPinnedName(log + [entry])
  {
    hide LastPin;
    var more := log + [entry];
    assert more[..|log|] == log;
    forall j: nat | j < |more| && more[j].Started?
      ensures NameMatches(more, j)
    {
      if j < |log| {
        assert more[..j] == log[..j] && NameMatches(log, j);
      }
    }
  }

  lemma PinNamesTheSelected(s: System)
    requires SelectedDrive(s.w.drives).Some?
    ensures SelectedWord(s.w.drives) == SelectedDrive(s.w.drives).value
    ensures LastPin(s.log + [Pin(s)]) == Some(Pin(s)) && Pin(s).name == SelectedDrive(s.w.drives).value
  {
    LastPinOfMore(s.log, Pin(s));
  }

  lemma GuardedKept(truth: string -> seq<Edition>, s: System, e: Event)
    requires CanHappen(truth, s, e) && Guarded(s) && ImageOk(truth, s.w.image) && !Disturbs(s, e)
    ensures Guarded(Step(truth, s, e))
  {
    hide GoNext, GoBack, SetIso, DropIso, ApplyKind, Answer, DepsDone, Restart, RefreshDrives, SelectRow, KindFound,
      EditionsFound, NewIso, SetSystem, Relist, LastPin, StartsOnPinnedName, SelectedDrive, SelectedWord, ImageOk;
    var t := Step(truth, s, e);
    match e
    case Refresh(list) => RefreshEffect(s.w, list);
    case Pick(row) => SelectRowEffect(s.w, row);
    case Next(found) => NextGuarded(truth, s, found);
    case Back => GoBackEffect(s.w);
    case Choose(path) => SetIsoEffect(s.w, path); NewIsoIsPending(s.w.image, path);
    case Drop(path) => DropGuarded(truth, s, path);
    case ChooseSystem(kind) => SetSystemOk(truth, s.w.image, kind);
    case Scanned(i, kind) => ScannedGuarded(truth, s, i, kind);
    case EditionsRead(i, editions) => EditionsFoundOk(truth, s.w.image, i, editions);
    case Respond(yes, found) => RespondGuarded(truth, s, yes, found);
    case DepsEnd(ok) => DepsDoneEffect(s.w, ok);
    case WriterChecks(i) => CheckGuarded(truth, s, i);
    case RestartAfterError => RestartEffect(s.w);
    case _ =>
  }

  lemma NextGuarded(truth: string -> seq<Edition>, s: System, found: Obstacle)
    requires CanHappen(truth, s, Next(found)) && Guarded(s)
    ensures Guarded(Step(truth, s, Next(found)))
  {
    hide GoNext, LastPin, StartsOnPinnedName, SelectedDrive, SelectedWord;
    var t := Step(truth, s, Next(found));
    GoNextEffect(s.w, Pin(s).identity, found);
    SameSelection(t.w.drives, s.w.drives);
    if s.w.step == 0 {
      PinNamesTheSelected(s);
      StartsOnPinnedNameMore(s.log, Pin(s));
    } else if s.w.step == 1 {
      SelectedHasItsName(s.w.drives);
    }
  }

  lemma DropGuarded(truth: string -> seq<Edition>, s: System, path: string)
    requires CanHappen(truth, s, Drop(path)) && Guarded(s)
    ensures Guarded(Step(truth, s, Drop(path)))
  {
    hide DropIso, NewIso, LastPin, StartsOnPinnedName, SelectedDrive, SelectedWord;
    var t := Step(truth, s, Drop(path));
    DropIsoEffect(s.w, path, Pin(s).identity);
    NewIsoIsPending(s.w.image, path);
    SameSelection(t.w.drives, s.w.drives);
    if DropLeavesStep1(s) {
      PinNamesTheSelected(s);
      StartsOnPinnedNameMore(s.log, Pin(s));
    }
  }

  lemma ScannedGuarded(truth: string -> seq<Edition>, s: System, i: nat, kind: nat)
    requires CanHappen(truth, s, Scanned(i, kind)) && Guarded(s) && ImageOk(truth, s.w.image)
    requires !Disturbs(s, Scanned(i, kind))
    ensures Guarded(Step(truth, s, Scanned(i, kind)))
  {
    hide ApplyKind, LastPin, StartsOnPinnedName, SelectedDrive, SelectedWord, ImageOk, SetSystem;
    var t := Step(truth, s, Scanned(i, kind));
    ApplyKindEffect(s.w, i, kind);
    KindFoundOk(truth, s.w.image, i, kind);
    SameSelection(t.w.drives, s.w.drives);
    SelectedHasItsName(s.w.drives);
    if s.w.image.iso != Some(s.w.image.threads[i].path) {
      OtherScanTellsNothing(s.w, i, kind);
    }
  }

  lemma RespondGuarded(truth: string -> seq<Edition>, s: System, yes: bool, found: Obstacle)
    requires CanHappen(truth, s, Respond(yes, found)) && Guarded(s)
    ensures Guarded(Step(truth, s, Respond(yes, found)))
  {
    hide Answer, LastPin, StartsOnPinnedName, SelectedDrive, SelectedWord;
    AnswerEffect(s.w, yes, found);
    InstallOnlyOnYes(s.w, yes, found);
  }

  lemma InstallOnlyOnYes(s: State, yes: bool, found: Obstacle)
    requires s.dialogs != []
    ensures var t := Answer(s, yes, found);
            && (t.image.installing == s.image.installing
                || (t.image.installing == s.image.installing + 1 && !t.nextOn
                    && t.dialogs == s.dialogs[..|s.dialogs| - 1]
                    && t.step == s.step && t.writers == s.writers))
  {
  }

  lemma CheckGuarded(truth: string -> seq<Edition>, s: System, i: nat)
    requires CanHappen(truth, s, WriterChecks(i)) && Guarded(s)
    ensures Guarded(Step(truth, s, WriterChecks(i)))
  {
    hide LastPin, StartsOnPinnedName, SelectedDrive, SelectedWord;
    var entry := Started(s.w.writers[i], Known(s.world, s.w.writers[i]));
    assert s.w.writers[i] in s.w.writers;
    LastPinOfMore(s.log, entry);
    StartsOnPinnedNameMore(s.log, entry);
  }

  // ---- whole runs ----

  lemma StartIsGuarded(s: System)
    requires IsStart(s)
    ensures Guarded(s)
  {
    hide Reselect, NewIso, IsDriveList, SelectRow, RefreshDrives, SetIso, Relist, SelectedDrive;
    var list, drive, iso :| Begins(s, list, drive, iso);
    var shown := RefreshDrives(Fresh(), list);
    RefreshEffect(Fresh(), list);
    NotEmpty(list);
    var picked := Preselect(shown, list, drive);
    if drive.Some? && drive.value in Words(list) {
      SelectRowEffect(shown, FirstIndex(Words(list), drive.value));
    }
    if iso.Some? {
      SetIsoEffect(picked, iso.value);
      NewIsoIsPending(picked.image, iso.value);
    }
  }

  /** No event before the i-th disturbs an install. */
  predicate Undisturbed(trace: seq<System>, events: seq<Event>, i: nat)
    requires i <= |events| <= |trace|
  {
    forall k :: 0 <= k < i ==> !Disturbs(trace[k], events[k])
  }

  lemma {:induction false} UndisturbedRunIsGuarded(truth: string -> seq<Edition>, trace: seq<System>,
                                                   events: seq<Event>,
                                                   i: nat)
    requires IsRun(truth, trace, events) && i <= |events| && Undisturbed(trace, events, i)
    ensures Guarded(trace[i])
  {
    hide Guarded, Step, CanHappen, IsStart, Disturbs, ImageOk, RowsAreTheList, IdentIsPinned, StartsMatch;
    if i == 0 {
      StartIsGuarded(trace[0]);
    } else {
      UndisturbedRunIsGuarded(truth, trace, events, i - 1);
      EveryRunIsSound(truth, trace, events, i - 1);
      assert Follows(truth, trace, events, i - 1);
      GuardedKept(truth, trace[i - 1], events[i - 1]);
    }
  }

  /**
   * Undisturbed, all guards hold at once: the button is honest, the summary is
   * ready and names the pinned drive, every writer goes to the name pinned last,
   * and there is at most one, with no dialog open and on the last page.
   */
  lemma UndisturbedRunKeepsTheGuards(truth: string -> seq<Edition>, trace: seq<System>, events: seq<Event>, i: nat)
    requires IsRun(truth, trace, events) && i <= |events| && Undisturbed(trace, events, i)
    ensures NextIsHonest(trace[i].w) && SummaryHolds(trace[i].w) && StartsOnPinnedName(trace[i].log)
    ensures forall dev <- trace[i].w.writers ::
              LastPin(trace[i].log).Some? && dev == LastPin(trace[i].log).value.name
    ensures Alive(trace[i]) <= 1
    ensures Alive(trace[i]) > 0 ==> trace[i].w.step == 3 && trace[i].w.dialogs == []
  {
    hide LastPin, SelectedDrive, IsStart, Follows, Undisturbed, StartsOnPinnedName;
    UndisturbedRunIsGuarded(truth, trace, events, i);
  }
}
