/** Runs in which a guard of the wizard fails, most of them after an install was disturbed. */
module WizardDisturbed {
  import opened Text
  import opened Wizard
  import opened WizardGuards
  import opened WizardRuns

  const A := Identity("drive A", "", "", 1)
  const B := Identity("drive B", "", "", 1)
  const TWO_DRIVES := [Drive("sda", ""), Drive("sdb", "")]
  const WORLD := map["sda" := A, "sdb" := B]
  const SWAPPED := map["sda" := B]

  function NoEditions(path: string): seq<Edition> {
    []
  }

  /** The steps of a run one by one. */
  predicate Moves(s: System, e: Event, t: System) {
    CanHappen(NoEditions, s, e) && Step(NoEditions, s, e) == t
  }

  /** A run that ends in t. */
  ghost predicate RunsTo(trace: seq<System>, events: seq<Event>, t: System) {
    IsRun(NoEditions, trace, events) && trace[|events|] == t
  }

  lemma PathIsARun(trace: seq<System>, events: seq<Event>)
    requires |trace| == |events| + 1 && trace[0] == Opening()
    requires forall i :: 0 <= i < |events| ==> Moves(trace[i], events[i], trace[i + 1])
    ensures RunsTo(trace, events, trace[|events|])
  {
    hide CanHappen, Step, IsStart, Opening;
    OpeningIsAStart();
    forall i | 0 <= i < |events|
      ensures Follows(NoEditions, trace, events, i)
    {
      assert Moves(trace[i], events[i], trace[i + 1]);
    }
  }

  /** The window at one step with ISO "a" chosen, its scan over. */
  function At(step: nat, nextOn: bool, dialogs: seq<Dialog>, drives: Drives, image: Image, log: seq<Entry>): System {
    System(State(step, nextOn, dialogs, false, [], drives, image), WORLD, 0, 0, log)
  }

  function Listed(selected: nat, ident: Option<Identity>, dev: string): Drives {
    Drives(TWO_DRIVES, selected, TWO_DRIVES, ident, dev)
  }

  /** An ISO with its scan pending or over, and an install running or not. */
  function Chosen(iso: string, pending: bool, installing: nat): Image {
    Image(Some(iso), if pending then Some(iso) else None, None, [], 2, installing + if pending then 1 else 0,
          if pending then [Analyze(iso)] else [], installing)
  }

  const PIN_A := Pinned("sda", Some(A))
  const PIN_B := Pinned("sdb", Some(B))

  // the way to the summary, where a missing tool is to be installed

  function Opening(): System {
    At(0, true, [], Listed(0, None, ""), Chosen("a", true, 0), [])
  }

  function Scanned1(): System {
    At(0, true, [], Listed(0, None, ""), Chosen("a", false, 0), [])
  }

  function OnIsoPage(): System {
    At(1, true, [], Listed(0, Some(A), ""), Chosen("a", false, 0), [PIN_A])
  }

  function OnSummary(): System {
    At(2, true, [], Listed(0, Some(A), "sda"), Chosen("a", false, 0), [PIN_A])
  }

  function AskedToInstall(): System {
    At(2, true, [InstallDeps], Listed(0, Some(A), "sda"), Chosen("a", false, 0), [PIN_A])
  }

  function Installing(): System {
    At(2, false, [], Listed(0, Some(A), "sda"), Chosen("a", false, 1), [PIN_A])
  }

  // from there, going back and choosing another ISO while the install runs, which fails

  function BackDuringInstall(): System {
    At(1, true, [], Listed(0, Some(A), "sda"), Chosen("a", false, 1), [PIN_A])
  }

  function ScanningOther(): System {
    At(1, false, [], Listed(0, Some(A), "sda"), Chosen("b", true, 1), [PIN_A])
  }

  function InstallFailed(): System {
    At(1, true, [], Listed(0, Some(A), "sda"), Chosen("b", true, 0), [PIN_A])
  }

  function SummaryWhileScanning(): System {
    At(2, true, [], Listed(0, Some(A), "sda"), Chosen("b", true, 0), [PIN_A])
  }

  // or going back to the other drive, whose stick then takes the first one's name, and the install succeeds

  function BackOnDrives(): System {
    At(0, true, [], Listed(0, Some(A), "sda"), Chosen("a", false, 1), [PIN_A])
  }

  function OtherPicked(): System {
    At(0, true, [], Listed(1, Some(A), "sda"), Chosen("a", false, 1), [PIN_A])
  }

  function OtherPinned(): System {
    At(1, true, [], Listed(1, Some(B), "sda"), Chosen("a", false, 1), [PIN_A, PIN_B])
  }

  function Replugged(dialogs: seq<Dialog>, installing: nat): System {
    At(1, true, dialogs, Listed(1, Some(B), "sda"), Chosen("a", false, installing), [PIN_A, PIN_B]).(world := SWAPPED)
  }

  function Writing(): System {
    var s := Replugged([], 0);
    s.(w := s.w.(step := 3, flashing := true, writers := ["sda"]))
  }

  function WrongName(): System {
    var s := Replugged([], 0);
    s.(w := s.w.(step := 3, flashing := true), running := 1, log := [PIN_A, PIN_B, Started("sda", Some(B))])
  }

  // or going on to the summary again and confirming while the install ends, so that two dialogs are open

  function OnSummaryAgain(dialogs: seq<Dialog>, installing: nat): System {
    At(2, true, dialogs, Listed(0, Some(A), "sda"), Chosen("a", false, installing), [PIN_A])
  }

  const STARTED_A := Started("sda", Some(A))

  /** The last page with so many writers waiting, and so many let through. */
  function Confirmed(dialogs: seq<Dialog>, waiting: nat, running: nat): System {
    var s := OnSummaryAgain(dialogs, 0);
    s.(w := s.w.(step := 3, flashing := true, writers := ["sda", "sda"][..if waiting < 2 then waiting else 2]),
       running := running,
       log := [PIN_A, STARTED_A, STARTED_A][..if running < 2 then running + 1 else 3])
  }

  function TwoWriters(): System {
    Confirmed([], 0, 2)
  }

  // or, with no install at all, a drive that udisks does not know when it is pinned nor when it is checked

  /** The way to the summary with the device unknown when it was pinned, and `world` known now. */
  function Unknown(step: nat, dialogs: seq<Dialog>, world: map<string, Identity>): System {
    At(step, true, dialogs, Listed(0, None, if step == 2 then "sda" else ""), Chosen("a", false, 0),
       if step == 0 then [] else [PIN_UNKNOWN]).(world := world)
  }

  const NOBODY: map<string, Identity> := map[]
  const PIN_UNKNOWN := Pinned("sda", None)

  function UnknownConfirmed(world: map<string, Identity>): System {
    var s := Unknown(2, [], world);
    s.(w := s.w.(step := 3, flashing := true, writers := ["sda"]))
  }

  function UnknownStarted(): System {
    var s := Unknown(2, [], NOBODY);
    s.(w := s.w.(step := 3, flashing := true), running := 1, log := [PIN_UNKNOWN, Started("sda", None)])
  }

  lemma OpeningIsAStart()
    ensures IsStart(Opening())
  {
    assert RefreshDrives(Fresh(), TWO_DRIVES).drives == Listed(0, None, "");
    assert Begins(Opening(), TWO_DRIVES, None, Some("a"));
  }

  lemma FirstSteps()
    ensures Moves(Opening(), Scanned(0, 2), Scanned1())
    ensures Moves(Scanned1(), Next(Nothing), OnIsoPage())
  {
  }

  lemma ToTheSummary()
    ensures Moves(OnIsoPage(), Next(Nothing), OnSummary())
    ensures Moves(OnSummary(), Next(Missing), AskedToInstall())
  {
  }

  lemma IntoTheInstall()
    ensures Moves(AskedToInstall(), Respond(true, Nothing), Installing())
    ensures Moves(Installing(), Back, BackDuringInstall())
  {
  }

  lemma AnotherIso()
    ensures Moves(BackDuringInstall(), Choose("b"), ScanningOther())
  {
  }

  lemma PastTheScan()
    ensures Moves(ScanningOther(), DepsEnd(false), InstallFailed())
    ensures Moves(InstallFailed(), Next(Nothing), SummaryWhileScanning())
  {
  }

  lemma AnotherDrive()
    ensures Moves(BackDuringInstall(), Back, BackOnDrives())
    ensures Moves(BackOnDrives(), Pick(1), OtherPicked())
  {
  }

  lemma OtherDrivePinned()
    ensures Moves(OtherPicked(), Next(Nothing), OtherPinned())
    ensures Moves(OtherPinned(), Replug(SWAPPED), Replugged([], 1))
  {
  }

  lemma WarnedLate()
    ensures Moves(Replugged([], 1), DepsEnd(true), Replugged([Warn1], 0))
    ensures Moves(Replugged([Warn1], 0), Respond(true, Nothing), Replugged([Warn2], 0))
  {
  }

  lemma IntoTheWriter()
    ensures Moves(Replugged([Warn2], 0), Respond(true, Nothing), Writing())
    ensures Moves(Writing(), WriterChecks(0), WrongName())
  {
  }

  lemma AgainToTheSummary()
    ensures Moves(BackDuringInstall(), Next(Nothing), OnSummaryAgain([], 1))
    ensures Moves(OnSummaryAgain([], 1), Next(Nothing), OnSummaryAgain([Warn1], 1))
  {
  }

  lemma TwoDialogs()
    ensures Moves(OnSummaryAgain([Warn1], 1), DepsEnd(true), OnSummaryAgain([Warn1, Warn1], 0))
    ensures Moves(OnSummaryAgain([Warn1, Warn1], 0), Respond(true, Nothing), OnSummaryAgain([Warn1, Warn2], 0))
  {
  }

  lemma FirstConfirmed()
    ensures Moves(OnSummaryAgain([Warn1, Warn2], 0), Respond(true, Nothing), Confirmed([Warn1], 1, 0))
    ensures Moves(Confirmed([Warn1], 1, 0), Respond(true, Nothing), Confirmed([Warn2], 1, 0))
  {
  }

  lemma SecondConfirmed()
    ensures Moves(Confirmed([Warn2], 1, 0), Respond(true, Nothing), Confirmed([], 2, 0))
  {
  }

  lemma BothChecked()
    ensures Moves(Confirmed([], 2, 0), WriterChecks(0), Confirmed([], 1, 1))
    ensures Moves(Confirmed([], 1, 1), WriterChecks(0), TwoWriters())
  {
  }

  lemma PinnedUnknown()
    ensures Moves(Scanned1(), Replug(NOBODY), Unknown(0, [], NOBODY))
    ensures Moves(Unknown(0, [], NOBODY), Next(Nothing), Unknown(1, [], NOBODY))
  {
  }

  lemma SummaryOfUnknown()
    ensures Moves(Unknown(1, [], NOBODY), Next(Nothing), Unknown(2, [], NOBODY))
    ensures Moves(Unknown(2, [], NOBODY), Replug(SWAPPED), Unknown(2, [], SWAPPED))
  {
  }

  lemma UnknownWarned()
    ensures Moves(Unknown(2, [], SWAPPED), Next(Nothing), Unknown(2, [Warn1], SWAPPED))
    ensures Moves(Unknown(2, [Warn1], SWAPPED), Respond(true, Nothing), Unknown(2, [Warn2], SWAPPED))
  {
  }

  lemma UnknownQueued()
    ensures Moves(Unknown(2, [Warn2], SWAPPED), Respond(true, Nothing), UnknownConfirmed(SWAPPED))
    ensures Moves(UnknownConfirmed(SWAPPED), Replug(NOBODY), UnknownConfirmed(NOBODY))
  {
  }

  lemma UnknownLetThrough()
    ensures Moves(UnknownConfirmed(NOBODY), WriterChecks(0), UnknownStarted())
  {
  }

  /** The summary can show while the chosen ISO is still being scanned. */
  lemma DisturbedSummaryComesEarly()
    ensures exists trace, events :: RunsTo(trace, events, SummaryWhileScanning())
    ensures SummaryWhileScanning().w.step == 2 && SummaryWhileScanning().w.image.analyzing == Some("b")
  {
    DisturbedSummaryComesEarlyPath();
  }

  lemma DisturbedSummaryComesEarlyPath()
    ensures exists trace, events :: RunsTo(trace, events, SummaryWhileScanning())
  {
    hide Moves, RunsTo, Opening, Scanned1, OnIsoPage, OnSummary, AskedToInstall, Installing, BackDuringInstall,
      ScanningOther, InstallFailed, SummaryWhileScanning, BackOnDrives, OtherPicked, OtherPinned, Replugged, Writing,
      WrongName, OnSummaryAgain, Confirmed, TwoWriters, Unknown, UnknownConfirmed, UnknownStarted;
    FirstSteps();
    ToTheSummary();
    IntoTheInstall();
    AnotherIso();
    PastTheScan();
    var events := [Scanned(0, 2), Next(Nothing), Next(Nothing), Next(Missing), Respond(true, Nothing), Back,
      Choose("b"), DepsEnd(false), Next(Nothing)];
    var trace := [Opening(), Scanned1(), OnIsoPage(), OnSummary(), AskedToInstall(), Installing(),
      BackDuringInstall(), ScanningOther(), InstallFailed(), SummaryWhileScanning()];
    PathIsARun(trace, events);
  }

  /**
   * A writer can be let through to a device name other than the one pinned,
   * when the pinned drive has come to answer to that name. The button has no
   * part in it: the one install ends on a page whose guard holds.
   */
  lemma DisturbedWriterTakesAnotherName()
    ensures exists trace, events :: RunsTo(trace, events, WrongName())
    ensures !LyingInstall(Replugged([], 1), DepsEnd(true))
    ensures WrongName().log == [Pinned("sda", Some(A)), Pinned("sdb", Some(B)), Started("sda", Some(B))]
  {
    DisturbedWriterTakesAnotherNamePath();
  }

  lemma DisturbedWriterTakesAnotherNamePath()
    ensures exists trace, events :: RunsTo(trace, events, WrongName())
  {
    hide Moves, RunsTo, Opening, Scanned1, OnIsoPage, OnSummary, AskedToInstall, Installing, BackDuringInstall,
      ScanningOther, InstallFailed, SummaryWhileScanning, BackOnDrives, OtherPicked, OtherPinned, Replugged, Writing,
      WrongName, OnSummaryAgain, Confirmed, TwoWriters, Unknown, UnknownConfirmed, UnknownStarted;
    FirstSteps();
    ToTheSummary();
    IntoTheInstall();
    AnotherDrive();
    OtherDrivePinned();
    WarnedLate();
    IntoTheWriter();
    var events := [Scanned(0, 2), Next(Nothing), Next(Nothing), Next(Missing), Respond(true, Nothing), Back,
      Back, Pick(1), Next(Nothing), Replug(SWAPPED), DepsEnd(true), Respond(true, Nothing),
      Respond(true, Nothing), WriterChecks(0)];
    var trace := [Opening(), Scanned1(), OnIsoPage(), OnSummary(), AskedToInstall(), Installing(),
      BackDuringInstall(), BackOnDrives(), OtherPicked(), OtherPinned(), Replugged([], 1),
      Replugged([Warn1], 0), Replugged([Warn2], 0), Writing(), WrongName()];
    PathIsARun(trace, events);
  }

  /** Two writers can be at work on one device. */
  lemma DisturbedWritersMeet()
    ensures exists trace, events :: RunsTo(trace, events, TwoWriters())
    ensures TwoWriters().running == 2 && TwoWriters().log == [PIN_A, Started("sda", Some(A)), Started("sda", Some(A))]
  {
    DisturbedWritersMeetPath();
  }

  lemma DisturbedWritersMeetPath()
    ensures exists trace, events :: RunsTo(trace, events, TwoWriters())
  {
    hide Moves, RunsTo, Opening, Scanned1, OnIsoPage, OnSummary, AskedToInstall, Installing, BackDuringInstall,
      ScanningOther, InstallFailed, SummaryWhileScanning, BackOnDrives, OtherPicked, OtherPinned, Replugged, Writing,
      WrongName, OnSummaryAgain, Confirmed, TwoWriters, Unknown, UnknownConfirmed, UnknownStarted;
    FirstSteps();
    ToTheSummary();
    IntoTheInstall();
    AgainToTheSummary();
    TwoDialogs();
    FirstConfirmed();
    SecondConfirmed();
    BothChecked();
    var events := [Scanned(0, 2), Next(Nothing), Next(Nothing), Next(Missing), Respond(true, Nothing), Back,
      Next(Nothing), Next(Nothing), DepsEnd(true), Respond(true, Nothing), Respond(true, Nothing),
      Respond(true, Nothing), Respond(true, Nothing), WriterChecks(0), WriterChecks(0)];
    var trace := [Opening(), Scanned1(), OnIsoPage(), OnSummary(), AskedToInstall(), Installing(),
      BackDuringInstall(), OnSummaryAgain([], 1), OnSummaryAgain([Warn1], 1),
      OnSummaryAgain([Warn1, Warn1], 0), OnSummaryAgain([Warn1, Warn2], 0), Confirmed([Warn1], 1, 0),
      Confirmed([Warn2], 1, 0), Confirmed([], 2, 0), Confirmed([], 1, 1), TwoWriters()];
    PathIsARun(trace, events);
  }

  /**
   * Two unknown identities let a changed drive through: the first disk answers
   * to the name before it is pinned, another one after, and udisks knows
   * neither at the moment of pinning and of checking.
   */
  lemma UnknownDrivePassesTheCheck()
    ensures exists trace, events :: RunsTo(trace, events, UnknownStarted())
    ensures Opening().world["sda"] == A && UnknownConfirmed(SWAPPED).world["sda"] == B && A != B
    ensures UnknownStarted().log == [Pinned("sda", None), Started("sda", None)] && UnknownStarted().running == 1
  {
    UnknownDrivePassesTheCheckPath();
  }

  lemma UnknownDrivePassesTheCheckPath()
    ensures exists trace, events :: RunsTo(trace, events, UnknownStarted())
  {
    hide Moves, RunsTo, Opening, Scanned1, OnIsoPage, OnSummary, AskedToInstall, Installing, BackDuringInstall,
      ScanningOther, InstallFailed, SummaryWhileScanning, BackOnDrives, OtherPicked, OtherPinned, Replugged, Writing,
      WrongName, OnSummaryAgain, Confirmed, TwoWriters, Unknown, UnknownConfirmed, UnknownStarted;
    FirstSteps();
    PinnedUnknown();
    SummaryOfUnknown();
    UnknownWarned();
    UnknownQueued();
    UnknownLetThrough();
    var events := [Scanned(0, 2), Replug(NOBODY), Next(Nothing), Next(Nothing), Replug(SWAPPED), Next(Nothing),
      Respond(true, Nothing), Respond(true, Nothing), Replug(NOBODY), WriterChecks(0)];
    var trace := [Opening(), Scanned1(), Unknown(0, [], NOBODY), Unknown(1, [], NOBODY),
      Unknown(2, [], NOBODY), Unknown(2, [], SWAPPED), Unknown(2, [Warn1], SWAPPED),
      Unknown(2, [Warn2], SWAPPED), UnknownConfirmed(SWAPPED), UnknownConfirmed(NOBODY), UnknownStarted()];
    PathIsARun(trace, events);
  }
}
