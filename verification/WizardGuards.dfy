/** Exactly when the wizard's guards hold: the Next button, the summary, the writer's device, one writer at a time. */
module WizardGuards {
  import opened Text
  import opened Wizard
  import opened WizardRuns
  import opened WizardSafety

  // ---- the button ----

  /** The button never offers a step whose guard does not hold. */
  predicate NextIsHonest(w: State) {
    w.step < 3 && w.nextOn ==> MayGoOn(w)
  }

  /** An honest button: a drive's row is chosen on the first page, an ISO whose scan is over on the second. */
  lemma HonestMeans(w: State)
    ensures NextIsHonest(w) <==>
              && (w.step == 0 && w.nextOn ==>
                    w.drives.selected < |w.drives.rows| && w.drives.rows[w.drives.selected].Drive?)
              && (w.step == 1 && w.nextOn ==> w.image.iso.Some? && w.image.analyzing.None?)
  {
  }

  /** An install that ends on one of the first two pages while that page's guard does not hold. */
  predicate LyingInstall(s: System, e: Event) {
    e.DepsEnd? && s.w.step < 2 && !MayGoOn(s.w)
  }

  lemma OtherScanTellsNothing(s: State, i: nat, kind: nat)
    requires i < |s.image.threads| && s.image.iso != Some(s.image.threads[i].path)
    ensures ApplyKind(s, i, kind) == s.(image := Report(s.image, i))
    ensures KindFound(s.image, i, kind) == Report(s.image, i)
  {
  }

  lemma SelectedHasItsName(d: Drives)
    ensures SelectedDrive(d).Some? ==> SelectedWord(d) == SelectedDrive(d).value
  {
  }

  /** The button starts to offer a step whose guard does not hold exactly when an install ends on such a page. */
  lemma ButtonLiesExactly(truth: string -> seq<Edition>, s: System, e: Event)
    requires CanHappen(truth, s, e) && NextIsHonest(s.w) && ImageOk(truth, s.w.image)
    ensures !NextIsHonest(Step(truth, s, e).w) <==> LyingInstall(s, e)
  {
    hide GoNext, GoBack, SetIso, DropIso, ApplyKind, Answer, DepsDone, Restart, RefreshDrives, SelectRow, KindFound,
      EditionsFound, NewIso, SetSystem, Relist, SelectedDrive, SelectedWord, ImageOk, Pin;
    var t := Step(truth, s, e);
    match e
    case Refresh(list) => RefreshEffect(s.w, list);
    case Pick(row) => SelectRowEffect(s.w, row);
    case Next(found) => GoNextEffect(s.w, Pin(s).identity, found);
    case Back => GoBackEffect(s.w);
    case Choose(path) => SetIsoEffect(s.w, path);
    case Drop(path) => DropIsoEffect(s.w, path, Pin(s).identity);
    case ChooseSystem(kind) => SetSystemOk(truth, s.w.image, kind);
    case Scanned(i, kind) =>
      ApplyKindEffect(s.w, i, kind);
      KindFoundOk(truth, s.w.image, i, kind);
      SameSelection(t.w.drives, s.w.drives);
      if s.w.image.iso != Some(s.w.image.threads[i].path) {
        OtherScanTellsNothing(s.w, i, kind);
      }
    case EditionsRead(i, editions) => EditionsFoundOk(truth, s.w.image, i, editions);
    case Respond(yes, found) => AnswerEffect(s.w, yes, found);
    case DepsEnd(ok) => DepsDoneEffect(s.w, ok); SameSelection(t.w.drives, s.w.drives);
    case RestartAfterError => RestartEffect(s.w);
    case _ =>
  }

  // ---- the summary ----

  /** The summary shows only an ISO whose scan is over. */
  predicate SummaryHolds(w: State) {
    w.step == 2 ==> w.image.iso.Some? && w.image.analyzing.None?
  }

  /** Going on to the summary while the guard of the page before it does not hold. */
  predicate SkipsTheScan(s: System, e: Event) {
    e.Next? && s.w.step == 1 && !MayGoOn(s.w)
  }

  /** The summary comes early exactly by going on while the guard does not hold. */
  lemma SummaryComesEarlyExactly(truth: string -> seq<Edition>, s: System, e: Event)
    requires CanHappen(truth, s, e) && SummaryHolds(s.w) && ImageOk(truth, s.w.image)
    ensures !SummaryHolds(Step(truth, s, e).w) <==> SkipsTheScan(s, e)
  {
    hide GoNext, GoBack, SetIso, DropIso, ApplyKind, Answer, DepsDone, Restart, RefreshDrives, SelectRow, KindFound,
      EditionsFound, NewIso, SetSystem, Relist, SelectedDrive, SelectedWord, ImageOk, Pin;
    match e
    case Refresh(list) => RefreshEffect(s.w, list);
    case Pick(row) => SelectRowEffect(s.w, row);
    case Next(found) => GoNextEffect(s.w, Pin(s).identity, found);
    case Back => GoBackEffect(s.w);
    case Choose(path) => SetIsoEffect(s.w, path);
    case Drop(path) => DropIsoEffect(s.w, path, Pin(s).identity);
    case ChooseSystem(kind) => SetSystemOk(truth, s.w.image, kind);
    case Scanned(i, kind) => ApplyKindEffect(s.w, i, kind); KindFoundOk(truth, s.w.image, i, kind);
    case EditionsRead(i, editions) => EditionsFoundOk(truth, s.w.image, i, editions);
    case Respond(yes, found) => AnswerEffect(s.w, yes, found);
    case DepsEnd(ok) => DepsDoneEffect(s.w, ok);
    case RestartAfterError => RestartEffect(s.w);
    case _ =>
  }

  // ---- the pinned name ----

  /** Past step 1 the selected row is the one pinned last; the summary names it. */
  predicate NamesThePin(s: System) {
    && (1 <= s.w.step <= 2 ==>
          LastPin(s.log).Some? && LastPin(s.log).value.name == SelectedWord(s.w.drives))
    && (s.w.step == 2 ==> s.w.drives.dev == SelectedWord(s.w.drives))
  }

  /** The device named changes only by showing the summary. */
  predicate DeviceStays(s: System, t: System) {
    t.w.drives.dev == s.w.drives.dev || t.w.step == 2
  }

  lemma PinKept(truth: string -> seq<Edition>, s: System, e: Event)
    requires CanHappen(truth, s, e) && NamesThePin(s)
    ensures NamesThePin(Step(truth, s, e)) && DeviceStays(s, Step(truth, s, e))
  {
    hide GoNext, GoBack, SetIso, DropIso, ApplyKind, Answer, DepsDone, Restart, RefreshDrives, SelectRow, KindFound,
      EditionsFound, NewIso, SetSystem, Relist, LastPin, SelectedDrive, SelectedWord;
    var t := Step(truth, s, e);
    match e
    case Refresh(list) => RefreshEffect(s.w, list);
    case Pick(row) => SelectRowEffect(s.w, row);
    case Next(found) =>
      GoNextEffect(s.w, Pin(s).identity, found);
      SameSelection(t.w.drives, s.w.drives);
      LastPinOfMore(s.log, Pin(s));
    case Back => GoBackEffect(s.w);
    case Choose(path) => SetIsoEffect(s.w, path);
    case Drop(path) =>
      DropIsoEffect(s.w, path, Pin(s).identity);
      SameSelection(t.w.drives, s.w.drives);
      LastPinOfMore(s.log, Pin(s));
    case Scanned(i, kind) =>
      ApplyKindEffect(s.w, i, kind);
      SameSelection(t.w.drives, s.w.drives);
    case Respond(yes, found) => AnswerEffect(s.w, yes, found);
    case DepsEnd(ok) => DepsDoneEffect(s.w, ok);
    case WriterChecks(i) => LastPinOfMore(s.log, Started(s.w.writers[i], Known(s.world, s.w.writers[i])));
    case RestartAfterError => RestartEffect(s.w);
    case _ =>
  }

  // ---- writers ----

  /** Writers waiting for their check, and those past it. */
  function Alive(s: System): nat {
    |s.w.writers| + s.running
  }

  /** The second confirmation, which starts a writer on the device named. */
  predicate Confirms(s: System, e: Event) {
    e.Respond? && e.yes && TopDialog(s.w) == Some(Warn2)
  }

  lemma WritersComeFromConfirming(truth: string -> seq<Edition>, s: System, e: Event)
    requires CanHappen(truth, s, e)
    ensures var t := Step(truth, s, e);
            && (Confirms(s, e) ==> t.w.writers == s.w.writers + [s.w.drives.dev] && t.running == s.running)
            && (!Confirms(s, e) ==> Alive(t) <= Alive(s) && forall w <- t.w.writers :: w in s.w.writers)
  {
    hide GoNext, GoBack, SetIso, DropIso, ApplyKind, DepsDone, Restart, RefreshDrives, SelectRow, KindFound,
      EditionsFound, NewIso, SetSystem, Relist, LastPin, SelectedDrive, SelectedWord, Answer, Pin;
    match e
    case Refresh(list) => RefreshEffect(s.w, list);
    case Pick(row) => SelectRowEffect(s.w, row);
    case Next(found) => GoNextEffect(s.w, Pin(s).identity, found);
    case Back => GoBackEffect(s.w);
    case Choose(path) => SetIsoEffect(s.w, path);
    case Drop(path) => DropIsoEffect(s.w, path, Pin(s).identity);
    case Scanned(i, kind) => ApplyKindEffect(s.w, i, kind);
    case Respond(yes, found) => AnswerQueues(s.w, yes, found);
    case DepsEnd(ok) => DepsDoneEffect(s.w, ok);
    case RestartAfterError => RestartEffect(s.w);
    case _ =>
  }

  lemma AnswerQueues(s: State, yes: bool, found: Obstacle)
    requires s.dialogs != []
    ensures Answer(s, yes, found).writers ==
              if yes && TopDialog(s) == Some(Warn2) then s.writers + [s.drives.dev] else s.writers
  {
  }

  /** A confirmation while a writer is waiting or writing. */
  predicate StartsAnother(s: System, e: Event) {
    Confirms(s, e) && Alive(s) >= 1
  }

  // ---- one thing at a time ----

  /** An install that succeeds off the summary, or with a dialog open: its callback asks to confirm all the same. */
  predicate LateInstall(s: System, e: Event) {
    e == DepsEnd(true) && (s.w.step != 2 || s.w.dialogs != [])
  }

  /** Such an install has ended before point i. */
  predicate CameLate(trace: seq<System>, events: seq<Event>, i: nat)
    requires i <= |events| && i <= |trace|
  {
    exists k :: 0 <= k < i && LateInstall(trace[k], events[k])
  }

  /** At most one dialog is open, and only on the summary. */
  predicate DialogsInOrder(s: System) {
    |s.w.dialogs| <= 1 && (s.w.dialogs != [] ==> s.w.step == 2)
  }

  /** At most one writer or failure dialog, only on the last page; what waits is for the drive pinned last. */
  predicate WritersInOrder(s: System) {
    && Alive(s) + s.errors <= 1
    && (Alive(s) + s.errors > 0 ==> s.w.step == 3)
    && forall dev <- s.w.writers :: LastPin(s.log).Some? && dev == LastPin(s.log).value.name
  }

  /** An event puts the dialogs out of order exactly when it is such an end of an install. */
  lemma DialogsLeaveOrderExactly(truth: string -> seq<Edition>, s: System, e: Event)
    requires CanHappen(truth, s, e) && DialogsInOrder(s) && WritersInOrder(s)
    ensures !DialogsInOrder(Step(truth, s, e)) <==> LateInstall(s, e)
  {
    hide GoNext, GoBack, SetIso, DropIso, ApplyKind, Answer, DepsDone, Restart, RefreshDrives, SelectRow, KindFound,
      EditionsFound, NewIso, SetSystem, Relist, SelectedDrive, SelectedWord, LastPin, Pin;
    match e
    case Refresh(list) => RefreshEffect(s.w, list);
    case Pick(row) => SelectRowEffect(s.w, row);
    case Next(found) => GoNextEffect(s.w, Pin(s).identity, found);
    case Back => GoBackEffect(s.w);
    case Choose(path) => SetIsoEffect(s.w, path);
    case Drop(path) => DropIsoEffect(s.w, path, Pin(s).identity);
    case Scanned(i, kind) => ApplyKindEffect(s.w, i, kind);
    case Respond(yes, found) => AnswerEffect(s.w, yes, found);
    case DepsEnd(ok) => DepsDoneEffect(s.w, ok);
    case RestartAfterError => RestartEffect(s.w);
    case _ =>
  }

  lemma LateInstallAsks(truth: string -> seq<Edition>, s: System, e: Event)
    requires CanHappen(truth, s, e) && LateInstall(s, e)
    ensures !DialogsInOrder(Step(truth, s, e))
  {
    hide DepsDone;
    DepsDoneEffect(s.w, true);
  }

  /** While the dialogs are in order, every event keeps the writers in order. */
  lemma WritersStayInOrder(truth: string -> seq<Edition>, s: System, e: Event)
    requires CanHappen(truth, s, e) && DialogsInOrder(s) && WritersInOrder(s) && NamesThePin(s)
    ensures WritersInOrder(Step(truth, s, e))
  {
    hide GoNext, GoBack, SetIso, DropIso, ApplyKind, Answer, DepsDone, Restart, RefreshDrives, SelectRow, KindFound,
      EditionsFound, NewIso, SetSystem, Relist, SelectedDrive, SelectedWord, LastPin;
    match e
    case Refresh(list) => RefreshEffect(s.w, list);
    case Pick(row) => SelectRowEffect(s.w, row);
    case Next(found) => GoNextEffect(s.w, Pin(s).identity, found); LastPinOfMore(s.log, Pin(s));
    case Back => GoBackEffect(s.w);
    case Choose(path) => SetIsoEffect(s.w, path);
    case Drop(path) => DropIsoEffect(s.w, path, Pin(s).identity); LastPinOfMore(s.log, Pin(s));
    case Scanned(i, kind) => ApplyKindEffect(s.w, i, kind);
    case Respond(yes, found) => AnswerEffect(s.w, yes, found);
    case DepsEnd(ok) => DepsDoneEffect(s.w, ok);
    case WriterChecks(i) => LastPinOfMore(s.log, Started(s.w.writers[i], Known(s.world, s.w.writers[i])));
    case RestartAfterError => RestartEffect(s.w);
    case _ =>
  }

  /** Three events after any install that ends well, one more writer is alive, whatever is running by then. */
  lemma InstallLeadsToAWriter(truth: string -> seq<Edition>, s: System, found: Obstacle)
    requires s.w.image.installing > 0
    ensures var asked := Step(truth, s, DepsEnd(true));
            && CanHappen(truth, asked, Respond(true, found))
            && var warned := Step(truth, asked, Respond(true, found));
            && CanHappen(truth, warned, Respond(true, found))
            && var t := Step(truth, warned, Respond(true, found));
            && Alive(t) == Alive(s) + 1 && t.w.writers == s.w.writers + [s.w.drives.dev] && t.w.dialogs == s.w.dialogs
  {
    var asked := Step(truth, s, DepsEnd(true));
    assert Close(asked.w).dialogs == s.w.dialogs;
    var warned := Step(truth, asked, Respond(true, found));
    assert warned.w.dialogs == s.w.dialogs + [Warn2];
    assert Close(warned.w).dialogs == s.w.dialogs;
  }

  // ---- whole runs ----

  /** The dialogs of a run stay in order exactly when no install in it ends well off the summary or beside a dialog. */
  lemma DialogsStayInOrderExactly(truth: string -> seq<Edition>, trace: seq<System>, events: seq<Event>)
    requires IsRun(truth, trace, events)
    ensures (forall i :: 0 <= i < |trace| ==> DialogsInOrder(trace[i]))
            <==> (forall i :: 0 <= i < |events| ==> !LateInstall(trace[i], events[i]))
  {
    hide DialogsInOrder, WritersInOrder, LateInstall, Step, CanHappen, IsStart;
    if forall i :: 0 <= i < |events| ==> !LateInstall(trace[i], events[i]) {
      forall i | 0 <= i < |trace|
        ensures DialogsInOrder(trace[i])
      {
        InOrderSoFar(truth, trace, events, i);
      }
    } else {
      var i :| 0 <= i < |events| && LateInstall(trace[i], events[i]);
      assert Follows(truth, trace, events, i);
      LateInstallAsks(truth, trace[i], events[i]);
    }
  }

  /**
   * Until an install ends well off the summary or beside a dialog, at most one
   * dialog is open, at most one writer or failure dialog is there, and every
   * waiting writer is for the drive pinned last.
   */
  lemma {:induction false} InOrderSoFar(truth: string -> seq<Edition>, trace: seq<System>, events: seq<Event>, i: nat)
    requires IsRun(truth, trace, events) && i < |trace|
    requires !CameLate(trace, events, i)
    ensures DialogsInOrder(trace[i]) && WritersInOrder(trace[i])
  {
    hide LateInstall, Step, IsStart, CanHappen, NamesThePin;
    if i == 0 {
      StartsOnStep1(trace[0]);
    } else {
      InOrderSoFar(truth, trace, events, i - 1);
      SummaryNamesThePin(truth, trace, events, i - 1);
      assert Follows(truth, trace, events, i - 1);
      DialogsLeaveOrderExactly(truth, trace[i - 1], events[i - 1]);
      WritersStayInOrder(truth, trace[i - 1], events[i - 1]);
    }
  }

  /** The button is honest throughout a run exactly when no install in it ends on a page whose guard does not hold. */
  lemma ButtonIsHonestExactly(truth: string -> seq<Edition>, trace: seq<System>, events: seq<Event>)
    requires IsRun(truth, trace, events)
    ensures (forall i :: 0 <= i < |trace| ==> NextIsHonest(trace[i].w))
            <==> (forall i :: 0 <= i < |events| ==> !LyingInstall(trace[i], events[i]))
  {
    hide NextIsHonest, LyingInstall, Step, CanHappen, IsStart, Sound;
    if forall i :: 0 <= i < |events| ==> !LyingInstall(trace[i], events[i]) {
      forall i | 0 <= i < |trace|
        ensures NextIsHonest(trace[i].w)
      {
        HonestSoFar(truth, trace, events, i);
      }
    } else {
      var i :| 0 <= i < |events| && LyingInstall(trace[i], events[i]);
      if NextIsHonest(trace[i].w) {
        SoundImage(truth, trace, events, i);
        assert Follows(truth, trace, events, i);
        ButtonLiesExactly(truth, trace[i], events[i]);
      }
    }
  }

  /** Until an install ends on a page whose guard does not hold, the button is honest and the summary ready. */
  lemma {:induction false} HonestSoFar(truth: string -> seq<Edition>, trace: seq<System>, events: seq<Event>, i: nat)
    requires IsRun(truth, trace, events) && i < |trace|
    requires forall k :: 0 <= k < i ==> !LyingInstall(trace[k], events[k])
    ensures NextIsHonest(trace[i].w) && SummaryHolds(trace[i].w)
  {
    hide LyingInstall, Step, IsStart, Sound, SelectedDrive, MayGoOn;
    if i == 0 {
      StartsOnStep1(trace[0]);
    } else {
      HonestSoFar(truth, trace, events, i - 1);
      SoundImage(truth, trace, events, i - 1);
      assert Follows(truth, trace, events, i - 1);
      ButtonLiesExactly(truth, trace[i - 1], events[i - 1]);
      SummaryComesEarlyExactly(truth, trace[i - 1], events[i - 1]);
    }
  }

  lemma SoundImage(truth: string -> seq<Edition>, trace: seq<System>, events: seq<Event>, i: nat)
    requires IsRun(truth, trace, events) && i < |trace|
    ensures ImageOk(truth, trace[i].w.image)
  {
    hide IsRun;
    EveryRunIsSound(truth, trace, events, i);
  }

  /** A run never shows the summary early exactly when it never goes on to it while the guard does not hold. */
  lemma SummaryIsReadyExactly(truth: string -> seq<Edition>, trace: seq<System>, events: seq<Event>)
    requires IsRun(truth, trace, events)
    ensures (forall i :: 0 <= i < |trace| ==> SummaryHolds(trace[i].w))
            <==> (forall i :: 0 <= i < |events| ==> !SkipsTheScan(trace[i], events[i]))
  {
    hide SummaryHolds, SkipsTheScan, Step, CanHappen, IsStart, Sound;
    if forall i :: 0 <= i < |events| ==> !SkipsTheScan(trace[i], events[i]) {
      forall i | 0 <= i < |trace|
        ensures SummaryHolds(trace[i].w)
      {
        ReadySoFar(truth, trace, events, i);
      }
    } else {
      var i :| 0 <= i < |events| && SkipsTheScan(trace[i], events[i]);
      if SummaryHolds(trace[i].w) {
        SoundImage(truth, trace, events, i);
        assert Follows(truth, trace, events, i);
        SummaryComesEarlyExactly(truth, trace[i], events[i]);
      }
    }
  }

  lemma {:induction false} ReadySoFar(truth: string -> seq<Edition>, trace: seq<System>, events: seq<Event>, i: nat)
    requires IsRun(truth, trace, events) && i < |trace|
    requires forall k :: 0 <= k < i ==> !SkipsTheScan(trace[k], events[k])
    ensures SummaryHolds(trace[i].w)
  {
    hide SkipsTheScan, Step, CanHappen, IsStart, Sound;
    if i == 0 {
      StartsOnStep1(trace[0]);
    } else {
      ReadySoFar(truth, trace, events, i - 1);
      SoundImage(truth, trace, events, i - 1);
      assert Follows(truth, trace, events, i - 1);
      SummaryComesEarlyExactly(truth, trace[i - 1], events[i - 1]);
    }
  }

  lemma StartsOnStep1(s: System)
    requires IsStart(s)
    ensures s.w.step == 0 && s.w.dialogs == [] && s.w.writers == [] && s.running == 0 && s.errors == 0
    ensures s.log == [] && s.w.image.installing == 0 && NextIsHonest(s.w)
  {
    hide Reselect, NewIso, IsDriveList, SelectRow, RefreshDrives, SetIso, Relist, SelectedDrive;
    var list, drive, iso :| Begins(s, list, drive, iso);
    var shown := RefreshDrives(Fresh(), list);
    RefreshEffect(Fresh(), list);
    NotEmpty(list);
    var picked := Preselect(shown, list, drive);
    if drive.Some? && drive.value in Words(list) {
      SelectRowEffect(shown, FirstIndex(Words(list), drive.value));
    }
    if iso.Some? {
      SetIsoEffect(picked, iso.value);
      NewIsoIsPending(picked.image, iso.value);
    }
  }

  /** In every run the pages past step 1 belong to the drive pinned last, and the summary names it. */
  lemma {:induction false} SummaryNamesThePin(truth: string -> seq<Edition>, trace: seq<System>, events: seq<Event>,
                                              i: nat)
    requires IsRun(truth, trace, events) && i < |trace|
    ensures NamesThePin(trace[i])
  {
    hide NamesThePin, Step, CanHappen, IsStart;
    if i == 0 {
      StartsOnStep1(trace[0]);
      NothingNamedYet(trace[0]);
    } else {
      SummaryNamesThePin(truth, trace, events, i - 1);
      assert Follows(truth, trace, events, i - 1);
      PinKept(truth, trace[i - 1], events[i - 1]);
    }
  }

  lemma NothingNamedYet(s: System)
    requires s.w.step == 0
    ensures NamesThePin(s)
  {
  }

  /**
   * There is never more than one writer in a run exactly when no one confirms
   * while a writer is alive. What lets such a confirmation in is a late install.
   */
  lemma OneWriterExactly(truth: string -> seq<Edition>, trace: seq<System>, events: seq<Event>)
    requires IsRun(truth, trace, events)
    ensures (forall i :: 0 <= i < |trace| ==> Alive(trace[i]) <= 1)
            <==> (forall i :: 0 <= i < |events| ==> !StartsAnother(trace[i], events[i]))
    ensures forall i :: 0 <= i < |events| && StartsAnother(trace[i], events[i]) ==>
                          CameLate(trace, events, i)
  {
    hide Confirms, Step, CanHappen, IsStart, LateInstall, LastPin;
    forall i | 0 <= i < |events| && StartsAnother(trace[i], events[i])
      ensures CameLate(trace, events, i)
    {
      AnotherComesLate(truth, trace, events, i);
    }
    if forall i :: 0 <= i < |events| ==> !StartsAnother(trace[i], events[i]) {
      forall i | 0 <= i < |trace|
        ensures Alive(trace[i]) <= 1
      {
        OneWriterSoFar(truth, trace, events, i);
      }
    } else {
      var i :| 0 <= i < |events| && StartsAnother(trace[i], events[i]);
      assert Follows(truth, trace, events, i);
      WritersComeFromConfirming(truth, trace[i], events[i]);
    }
  }

  lemma AnotherComesLate(truth: string -> seq<Edition>, trace: seq<System>, events: seq<Event>, i: nat)
    requires IsRun(truth, trace, events) && i < |events| && StartsAnother(trace[i], events[i])
    ensures CameLate(trace, events, i)
  {
    hide Step, CanHappen, IsStart, LateInstall, LastPin;
    if !CameLate(trace, events, i) {
      InOrderSoFar(truth, trace, events, i);
      assert false;
    }
  }

  lemma {:induction false} OneWriterSoFar(truth: string -> seq<Edition>, trace: seq<System>, events: seq<Event>, i: nat)
    requires IsRun(truth, trace, events) && i < |trace|
    requires forall k :: 0 <= k < i ==> !StartsAnother(trace[k], events[k])
    ensures Alive(trace[i]) <= 1
  {
    hide Confirms, Step, CanHappen, IsStart;
    if i == 0 {
      StartsOnStep1(trace[0]);
    } else {
      OneWriterSoFar(truth, trace, events, i - 1);
      assert Follows(truth, trace, events, i - 1);
      WritersComeFromConfirming(truth, trace[i - 1], events[i - 1]);
    }
  }

  // ---- the device a writer is started on ----

  /** The last point up to i at which the summary showed, or -1. */
  function LastSummary(trace: seq<System>, i: nat): (k: int)
    requires i < |trace|
    ensures -1 <= k <= i && (k >= 0 ==> trace[k].w.step == 2)
    ensures forall j :: k < j <= i ==> trace[j].w.step != 2
  {
    if trace[i].w.step == 2 then i else if i == 0 then -1 else LastSummary(trace, i - 1)
  }

  /** What can lead to writing has been preceded by a summary, and the device named is the one pinned then. */
  predicate NamedThen(trace: seq<System>, i: nat)
    requires i < |trace|
  {
    var k := LastSummary(trace, i);
    && (k >= 0 ==> LastPin(trace[k].log).Some? && LastPin(trace[k].log).value.name == trace[i].w.drives.dev)
    && (trace[i].w.step == 2 || trace[i].w.dialogs != [] || trace[i].w.image.installing > 0 ==> k >= 0)
  }

  lemma {:induction false} DeviceIsOfTheLastSummary(truth: string -> seq<Edition>, trace: seq<System>,
                                                    events: seq<Event>,
                                                    i: nat)
    requires IsRun(truth, trace, events) && i < |trace|
    ensures NamedThen(trace, i)
  {
    hide Step, CanHappen, IsStart, LastPin, SelectedWord;
    SummaryNamesThePin(truth, trace, events, i);
    if i == 0 {
      StartsOnStep1(trace[0]);
    } else {
      DeviceIsOfTheLastSummary(truth, trace, events, i - 1);
      SummaryNamesThePin(truth, trace, events, i - 1);
      assert Follows(truth, trace, events, i - 1);
      PinKept(truth, trace[i - 1], events[i - 1]);
      if LastSummary(trace, i - 1) < 0 {
        DialogsComeFromTheSummary(truth, trace[i - 1], events[i - 1]);
      }
    }
  }

  lemma DialogsComeFromTheSummary(truth: string -> seq<Edition>, s: System, e: Event)
    requires CanHappen(truth, s, e) && s.w.step != 2 && s.w.dialogs == [] && s.w.image.installing == 0
    ensures Step(truth, s, e).w.dialogs == [] && Step(truth, s, e).w.image.installing == 0
  {
  }

  /** The drive pinned last before i has another name than the one pinned last before k. */
  predicate Repinned(trace: seq<System>, k: nat, i: nat)
    requires k < |trace| && i < |trace| && LastPin(trace[k].log).Some?
  {
    LastPin(trace[i].log).Some? && LastPin(trace[i].log).value.name != LastPin(trace[k].log).value.name
  }

  /**
   * Confirming queues a writer for the device the summary named when it last
   * showed: another than the one pinned last exactly when that one has another
   * name than the one pinned then. On the summary itself that never happens, and
   * only a late install lets anyone confirm off it.
   */
  lemma QueuesThePinExactly(truth: string -> seq<Edition>, trace: seq<System>, events: seq<Event>, i: nat)
    requires IsRun(truth, trace, events) && i < |events| && Confirms(trace[i], events[i])
    ensures var dev, k := trace[i].w.drives.dev, LastSummary(trace, i);
            && trace[i + 1].w.writers == trace[i].w.writers + [dev]
            && k >= 0 && LastPin(trace[k].log).Some? && LastPin(trace[k].log).value.name == dev
            && LastPin(trace[i].log).Some?
            && (dev != LastPin(trace[i].log).value.name <==> Repinned(trace, k, i))
            && (trace[i].w.step == 2 ==> dev == LastPin(trace[i].log).value.name)
            && (trace[i].w.step != 2 ==> CameLate(trace, events, i))
  {
    hide LastPin, IsStart, ImageOk, RowsAreTheList, StartsMatch, CameLate;
    if !CameLate(trace, events, i) {
      InOrderSoFar(truth, trace, events, i);
    }
    DeviceIsOfTheLastSummary(truth, trace, events, i);
    EveryRunIsSound(truth, trace, events, i);
    assert Follows(truth, trace, events, i);
    WritersComeFromConfirming(truth, trace[i], events[i]);
  }

  /** A writer for dev was confirmed at q, when the summary had last named dev, the drive pinned then. */
  predicate ConfirmedAt(trace: seq<System>, events: seq<Event>, q: nat, dev: string)
    requires q < |events| < |trace|
  {
    && Confirms(trace[q], events[q])
    && var k := LastSummary(trace, q);
    k >= 0 && LastPin(trace[k].log).Some? && LastPin(trace[k].log).value.name == dev
  }

  lemma {:induction false} WritersWereConfirmed(truth: string -> seq<Edition>, trace: seq<System>, events: seq<Event>,
                                                i: nat, dev: string)
    requires IsRun(truth, trace, events) && i < |trace| && dev in trace[i].w.writers
    ensures exists q: nat :: q < i && ConfirmedAt(trace, events, q, dev)
  {
    hide LastPin, Step, CanHappen, IsStart;
    if i == 0 {
      StartsOnStep1(trace[0]);
    } else {
      assert Follows(truth, trace, events, i - 1);
      WritersComeFromConfirming(truth, trace[i - 1], events[i - 1]);
      if dev in trace[i - 1].w.writers {
        WritersWereConfirmed(truth, trace, events, i - 1, dev);
      } else {
        QueuesThePinExactly(truth, trace, events, i - 1);
        assert ConfirmedAt(trace, events, i - 1, dev);
      }
    }
  }

  /**
   * In every run a writer is let through to a device exactly when what udisks
   * knows of it now is the identity last pinned. The device is the one named by
   * the summary before some confirmation of it; its name is not the one pinned
   * now exactly when the drive pinned last has another name than it had then,
   * which takes a late install.
   */
  lemma WriterNeedsThePin(truth: string -> seq<Edition>, trace: seq<System>, events: seq<Event>, i: nat)
    requires IsRun(truth, trace, events) && i < |events| && events[i].WriterChecks?
    ensures events[i].writer < |trace[i].w.writers| && LastPin(trace[i].log).Some?
    ensures var dev, pin := trace[i].w.writers[events[i].writer], LastPin(trace[i].log).value;
            && (Known(trace[i].world, dev) == pin.identity <==>
                  trace[i + 1].log == trace[i].log + [Started(dev, pin.identity)])
            && (Known(trace[i].world, dev) != pin.identity <==>
                  trace[i + 1].log == trace[i].log && trace[i + 1].errors == trace[i].errors + 1)
            && (exists q: nat :: q < i && ConfirmedAt(trace, events, q, dev))
            && (forall q: nat :: q < i && ConfirmedAt(trace, events, q, dev) ==>
                  (pin.name != dev <==> Repinned(trace, LastSummary(trace, q), i)))
            && (pin.name != dev ==> CameLate(trace, events, i))
  {
    hide LastPin, SelectedDrive, IsStart, ImageOk, RowsAreTheList, StartsMatch, Confirms, LateInstall;
    EveryRunIsSound(truth, trace, events, i);
    assert Follows(truth, trace, events, i);
    assert trace[i].w.writers[events[i].writer] in trace[i].w.writers;
    WritersWereConfirmed(truth, trace, events, i, trace[i].w.writers[events[i].writer]);
    OtherNameComesLate(truth, trace, events, i, trace[i].w.writers[events[i].writer]);
  }

  lemma OtherNameComesLate(truth: string -> seq<Edition>, trace: seq<System>, events: seq<Event>, i: nat, dev: string)
    requires IsRun(truth, trace, events) && i < |trace| && dev in trace[i].w.writers
    ensures CameLate(trace, events, i) || (LastPin(trace[i].log).Some? && LastPin(trace[i].log).value.name == dev)
  {
    hide Step, CanHappen, IsStart, LateInstall, LastPin;
    if !CameLate(trace, events, i) {
      InOrderSoFar(truth, trace, events, i);
    }
  }
}
