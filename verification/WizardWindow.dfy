/** main.py's window: each callback updates the fields exactly as its step in module Wizard says. */
module WizardWindow {
  import opened Text
  import opened Wizard

  /** The fields those callbacks keep, as the window updates them. */
  class Window {
    var currentStep: nat
    var rows: seq<Row>
    var selected: nat
    var lastDrives: seq<Row>
    var driveIdent: Option<Identity>
    var selectedDev: string
    var isoPath: Option<string>
    var analyzing: Option<string>
    var editionsRead: Option<string>
    var editions: seq<Edition>
    var osKind: nat
    var nextSensitive: bool
    var dialogs: seq<Dialog>
    var isFlashing: bool
    var jobs: int
    var threads: seq<Job>
    var installing: nat
    var writers: seq<string>

    function View(): State
      reads this
    {
      State(currentStep, nextSensitive, dialogs, isFlashing, writers,
            Drives(rows, selected, lastDrives, driveIdent, selectedDev),
            Image(isoPath, analyzing, editionsRead, editions, osKind, jobs, threads, installing))
    }

    constructor ()
      ensures View() == Fresh()
    {
      currentStep, rows, selected, lastDrives := 0, [], 0, [];
      driveIdent, selectedDev := None, "";
      isoPath, analyzing, editionsRead, editions, osKind := None, None, None, [], 2;
      nextSensitive, dialogs, isFlashing := false, [], false;
      jobs, threads, installing, writers := 0, [], 0, [];
    }

    method UpdateUiState()
      modifies this
      ensures View() == UpdateUi(old(View()))
    {
      if currentStep == 0 {
        nextSensitive := selected < |rows| && rows[selected].Drive?;
      } else if currentStep == 1 {
        nextSensitive := isoPath.Some? && analyzing.None?;
      } else if currentStep == 2 {
        nextSensitive := true;
        selectedDev := SelectedWord(View().drives);
      }
    }

    method AutoRefreshDrives(newDrives: seq<Row>)
      modifies this
      ensures View() == RefreshDrives(old(View()), newDrives)
    {
      hide UpdateUi, Relist;
      if currentStep == 0 {
        if newDrives != lastDrives {
          ShowDrives(newDrives);
          UpdateUiState();
        }
      }
    }

    method ShowDrives(newDrives: seq<Row>)
      modifies this
      ensures View() == old(View()).(drives := Relist(old(View().drives), newDrives))
    {
      hide Reselect;
      var first := lastDrives == [] || lastDrives == [NoDrives];
      var chosen := SelectedDrive(View().drives);
      var row := Reselect(newDrives, chosen, first);
      lastDrives := newDrives;
      if row.None? && newDrives != [NoDrives] {
        rows, selected := [PickDrive] + newDrives, 0;
      } else {
        rows, selected := newDrives, row.GetOr(0);
      }
    }

    method OnSelected(row: nat)
      modifies this
      ensures View() == SelectRow(old(View()), row)
    {
      hide UpdateUi;
      selected := row;
      UpdateUiState();
    }

    method GoNext(identity: Option<Identity>, found: Obstacle)
      modifies this
      ensures View() == Wizard.GoNext(old(View()), identity, found)
    {
      hide UpdateUi, Wizard.RequestStart;
      if currentStep == 2 {
        RequestStart(found);
        return;
      }
      if currentStep == 0 {
        driveIdent := identity;
      }
      if currentStep < 2 {
        currentStep := currentStep + 1;
        UpdateUiState();
      }
    }

    method RequestStart(found: Obstacle)
      modifies this
      ensures View() == Wizard.RequestStart(old(View()), found)
    {
      hide Proceed;
      if found == Blocked {
        return;
      }
      if found == Tight {
        dialogs := dialogs + [Capacity];
        return;
      }
      ProceedToWarnings(found);
    }

    method ProceedToWarnings(found: Obstacle)
      modifies this
      ensures View() == Proceed(old(View()), found)
    {
      if found == Missing {
        dialogs := dialogs + [InstallDeps];
      } else if found == Nothing {
        dialogs := dialogs + [Warn1];
      }
    }

    method GoBack()
      modifies this
      ensures View() == Wizard.GoBack(old(View()))
    {
      hide UpdateUi;
      if currentStep > 0 {
        currentStep := currentStep - 1;
        UpdateUiState();
      }
    }

    method StartThread(job: Job)
      modifies this
      ensures View() == old(View()).(image := Spawn(old(View().image), job))
    {
      jobs := jobs + 1;
      threads := threads + [job];
    }

    method ForgetEditions()
      modifies this
      ensures View() == old(View()).(image := old(View().image).(editions := [], editionsRead := None))
    {
      editions := [];
      editionsRead := None;
    }

    method SetIso(path: string)
      modifies this
      ensures View() == Wizard.SetIso(old(View()), path)
    {
      hide UpdateUi, Spawn;
      isoPath := Some(path);
      ForgetEditions();
      analyzing := Some(path);
      StartThread(Analyze(path));
      UpdateUiState();
    }

    method OnDrop(path: string, identity: Option<Identity>)
      modifies this
      ensures View() == DropIso(old(View()), path, identity)
    {
      hide NewIso;
      if currentStep > 1 {
        return;
      }
      SetIso(path);
      if currentStep == 0 && selected < |rows| && rows[selected].Drive? {
        driveIdent := identity;
        currentStep := 1;
        UpdateUiState();
      }
    }

    method StartReadingEditions()
      modifies this
      ensures View() == old(View()).(image := Wizard.StartReadingEditions(old(View().image)))
    {
      if isoPath.None? || isoPath == editionsRead {
        return;
      }
      editionsRead := isoPath;
      StartThread(ReadEditions(isoPath.value));
    }

    method OnOsChanged(kind: nat)
      modifies this
      ensures View() == old(View()).(image := SetSystem(old(View().image), kind))
    {
      hide Wizard.StartReadingEditions;
      osKind := kind;
      if kind == 0 {
        StartReadingEditions();
      }
    }

    method ThreadReports(i: nat)
      requires i < |threads|
      modifies this
      ensures View() == old(View()).(image := Report(old(View().image), i))
    {
      threads := threads[..i] + threads[i + 1..];
      jobs := jobs - 1;
    }

    method ApplyKind(i: nat, kind: nat)
      requires i < |threads|
      modifies this
      ensures View() == Wizard.ApplyKind(old(View()), i, kind)
    {
      hide UpdateUi, SetSystem;
      var path := threads[i].path;
      ThreadReports(i);
      if isoPath != Some(path) {
        return;
      }
      analyzing := None;
      OnOsChanged(kind);
      UpdateUiState();
    }

    method ApplyEditions(i: nat, found: seq<Edition>)
      requires i < |threads|
      modifies this
      ensures View() == old(View()).(image := EditionsFound(old(View().image), i, found))
    {
      var path := threads[i].path;
      ThreadReports(i);
      if isoPath != Some(path) {
        return;
      }
      editions := found;
    }

    method CloseDialog()
      requires dialogs != []
      modifies this
      ensures View() == Close(old(View()))
    {
      dialogs := dialogs[..|dialogs| - 1];
    }

    method OnCapacityResponse(yes: bool, found: Obstacle)
      requires TopDialog(View()) == Some(Capacity)
      modifies this
      ensures View() == Answer(old(View()), yes, found)
    {
      hide Close, Proceed;
      CloseDialog();
      if yes {
        ProceedToWarnings(found);
      }
    }

    method OnInstallDepsResponse(yes: bool)
      requires TopDialog(View()) == Some(InstallDeps)
      modifies this
      ensures View() == Answer(old(View()), yes, Nothing)
    {
      hide Close, Proceed;
      CloseDialog();
      if yes {
        nextSensitive := false;
        jobs := jobs + 1;
        installing := installing + 1;
      }
    }

    method OnWarn1Response(yes: bool)
      requires TopDialog(View()) == Some(Warn1)
      modifies this
      ensures View() == Answer(old(View()), yes, Nothing)
    {
      hide Close, Proceed;
      CloseDialog();
      if yes {
        dialogs := dialogs + [Warn2];
      }
    }

    method OnWarn2Response(yes: bool)
      requires TopDialog(View()) == Some(Warn2)
      modifies this
      ensures View() == Answer(old(View()), yes, Nothing)
    {
      hide Close, Proceed;
      CloseDialog();
      if yes {
        currentStep := 3;
        isFlashing := true;
        writers := writers + [selectedDev];
      }
    }

    method OnDepsDone(ok: bool)
      requires installing > 0
      modifies this
      ensures View() == DepsDone(old(View()), ok)
    {
      jobs, installing, nextSensitive := jobs - 1, installing - 1, true;
      if ok {
        ProceedToWarnings(Nothing);
      }
    }

    /** udisks_worker's check of its device, in the writer's own thread. */
    method OnWriterChecked(writer: nat, identity: Option<Identity>) returns (write: bool)
      requires writer < |writers|
      modifies this
      ensures View() == Wizard.WriterChecked(old(View()), writer, identity)
      ensures write <==> identity == old(driveIdent)
    {
      writers := writers[..writer] + writers[writer + 1..];
      write := identity == driveIdent;
      if !write {
        isFlashing := false;
      }
    }

    method OnWriterEnded()
      modifies this
      ensures View() == Wizard.WriterEnded(old(View()))
    {
      isFlashing := false;
    }

    method OnRestart()
      modifies this
      ensures View() == Restart(old(View()))
    {
      hide UpdateUi;
      currentStep := 0;
      UpdateUiState();
    }
  }
}
