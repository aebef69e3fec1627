/** The window itself played through any list of events: what the theorems about runs say of it. */
module WizardPlay {
  import opened Text
  import opened Wizard
  import opened WizardGuards
  import opened WizardRuns
  import opened WizardSafety
  import opened WizardWindow

  /** A window as it comes up, with the drive and the ISO of one it replaces. */
  method Open(list: seq<Row>, drive: Option<string>, iso: Option<string>) returns (w: Window)
    requires IsDriveList(list)
    ensures fresh(w)
    ensures forall world :: Begins(System(w.View(), world, 0, 0, []), list, drive, iso)
  {
    hide IsDriveList, RefreshDrives, SelectRow, SetIso;
    w := new Window();
    w.AutoRefreshDrives(list);
    if drive.Some? && drive.value in Words(list) {
      w.OnSelected(FirstIndex(Words(list), drive.value));
    }
    if iso.Some? {
      w.SetIso(iso.value);
    }
  }

  /** What the event does to the window, through the callback it triggers. */
  method Dispatch(truth: string -> seq<Edition>, w: Window, s: System, e: Event)
    requires CanHappen(truth, s, e) && w.View() == s.w
    modifies w
    ensures w.View() == Step(truth, s, e).w
  {
    hide GoNext, GoBack, SetIso, DropIso, ApplyKind, Answer, DepsDone, Restart, RefreshDrives, SelectRow, SetSystem,
      EditionsFound, WriterChecked, WriterEnded, IsDriveList, SelectedWord, SelectedDrive;
    match e
    case Refresh(list) => w.AutoRefreshDrives(list);
    case Replug(_) =>
    case Pick(row) => w.OnSelected(row);
    case Next(found) => w.GoNext(Pin(s).identity, found);
    case Back => w.GoBack();
    case Choose(path) => w.SetIso(path);
    case Drop(path) => w.OnDrop(path, Pin(s).identity);
    case ChooseSystem(kind) => w.OnOsChanged(kind);
    case Scanned(i, kind) => w.ApplyKind(i, kind);
    case EditionsRead(i, editions) => w.ApplyEditions(i, editions);
    case Respond(yes, found) => Reply(w, yes, found);
    case DepsEnd(ok) => w.OnDepsDone(ok);
    case WriterChecks(i) => var _ := w.OnWriterChecked(i, Known(s.world, s.w.writers[i]));
    case WriterEnds(_) => w.OnWriterEnded();
    case RestartAfterError => w.OnRestart();
  }

  /** The answer goes to the dialog on top. */
  method Reply(w: Window, yes: bool, found: Obstacle)
    requires w.dialogs != []
    modifies w
    ensures w.View() == Answer(old(w.View()), yes, found)
  {
    hide Answer;
    match w.dialogs[|w.dialogs| - 1]
    case Capacity => w.OnCapacityResponse(yes, found);
    case InstallDeps => SameAnswer(w.View(), yes, found); w.OnInstallDepsResponse(yes);
    case Warn1 => SameAnswer(w.View(), yes, found); w.OnWarn1Response(yes);
    case Warn2 => SameAnswer(w.View(), yes, found); w.OnWarn2Response(yes);
  }

  lemma SameAnswer(s: State, yes: bool, found: Obstacle)
    requires s.dialogs != [] && TopDialog(s) != Some(Capacity)
    ensures Answer(s, yes, found) == Answer(s, yes, Nothing)
  {
  }

  /**
   * Any list of attempts, those that cannot happen being ignored as a disabled
   * button or an absent thread ignores them. What did happen is a run, the
   * window ends as its last state, and so what holds in every run holds of it.
   */
  method Play(truth: string -> seq<Edition>, world: map<string, Identity>, list: seq<Row>, drive: Option<string>,
              iso: Option<string>, attempts: seq<Event>)
    returns (w: Window, ghost trace: seq<System>, ghost happened: seq<Event>)
    requires IsDriveList(list)
    ensures IsRun(truth, trace, happened) && w.View() == trace[|happened|].w
    ensures w.jobs == |w.threads| + w.installing
    ensures w.analyzing.Some? ==> w.analyzing == w.isoPath && Analyze(w.analyzing.value) in w.threads
    ensures w.editions == [] || (w.isoPath.Some? && w.editions == truth(w.isoPath.value))
    ensures w.rows in {w.lastDrives, [PickDrive] + w.lastDrives} && w.selected < |w.rows|
    ensures w.currentStep == 2 ==> w.selectedDev == Word(w.rows[w.selected])
  {
    hide CanHappen, Step, IsDriveList, Begins;
    w := Open(list, drive, iso);
    var s := System(w.View(), world, 0, 0, []);
    trace, happened := [s], [];
    assert Begins(s, list, drive, iso);
    var i: nat := 0;
    while i < |attempts|
      invariant i <= |attempts| && fresh(w)
      invariant IsRun(truth, trace, happened) && trace[|happened|] == s && w.View() == s.w
    {
      if CanHappen(truth, s, attempts[i]) {
        Dispatch(truth, w, s, attempts[i]);
        ghost var t := Step(truth, s, attempts[i]);
        RunGrows(truth, trace, happened, attempts[i]);
        s := Step(truth, s, attempts[i]);
        trace, happened := trace + [t], happened + [attempts[i]];
      }
      i := i + 1;
    }
    EveryRunIsSound(truth, trace, happened, |happened|);
    SummaryNamesThePin(truth, trace, happened, |happened|);
  }

  lemma RunGrows(truth: string -> seq<Edition>, trace: seq<System>, events: seq<Event>, e: Event)
    requires IsRun(truth, trace, events) && CanHappen(truth, trace[|events|], e)
    ensures IsRun(truth, trace + [Step(truth, trace[|events|], e)], events + [e])
  {
    hide CanHappen, Step, IsStart;
    var t, more := trace + [Step(truth, trace[|events|], e)], events + [e];
    forall i | 0 <= i < |more|
      ensures Follows(truth, t, more, i)
    {
      if i < |events| {
        assert Follows(truth, trace, events, i);
      }
    }
  }
}
