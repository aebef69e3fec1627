/** Runs of the wizard: clicks, timer ticks, replugs and late background results in any order. */
module WizardRuns {
  import opened Text
  import opened Wizard

  /** What a run leaves for the record: a drive pinned when leaving step 1, a writer let through to a device. */
  datatype Entry = Pinned(name: string, identity: Option<Identity>) | Started(name: string, identity: Option<Identity>)

  /**
   * The window, what udisks knows about each device name right now, the
   * writers past their check, the failure dialogs open, and the record.
   */
  datatype System = System(w: State, world: map<string, Identity>, running: nat, errors: nat, log: seq<Entry>)

  datatype Event =
    | Refresh(list: seq<Row>)
    | Replug(world: map<string, Identity>)
    | Pick(row: nat)
    | Next(found: Obstacle)
    | Back
    | Choose(path: string)
    | Drop(path: string)
    | ChooseSystem(kind: nat)
    | Scanned(thread: nat, kind: nat)
    | EditionsRead(thread: nat, editions: seq<Edition>)
    | Respond(yes: bool, found: Obstacle)
    | DepsEnd(ok: bool)
    | WriterChecks(writer: nat)
    | WriterEnds(ok: bool)
    | RestartAfterError

  /** drive_identity("/dev/" + name) */
  function Known(world: map<string, Identity>, name: string): Option<Identity> {
    if name in world then Some(world[name]) else None
  }

  /**
   * Dialogs are modal: with one open, the pages behind it take no click. A drop
   * lands on the window whatever is open, and a file dialog can answer late.
   */
  predicate PageIsLive(s: System) {
    s.w.dialogs == [] && s.errors == 0
  }

  /** `truth` is what each ISO holds; reading it can also fail, which gives no editions. */
  predicate CanHappen(truth: string -> seq<Edition>, s: System, e: Event) {
    match e
    case Refresh(list) => IsDriveList(list)
    case Replug(_) => true
    case Pick(row) => s.w.step == 0 && PageIsLive(s) && row < |s.w.drives.rows|
    case Next(_) => s.w.step < 3 && s.w.nextOn && PageIsLive(s)
    case Back => 0 < s.w.step < 3 && PageIsLive(s)
    case Choose(_) => s.w.step == 1
    case Drop(_) => s.w.step < 3
    case ChooseSystem(kind) => s.w.step == 1 && PageIsLive(s) && kind < 3
    case Scanned(i, kind) => i < |s.w.image.threads| && s.w.image.threads[i].Analyze? && kind < 3
    case EditionsRead(i, editions) =>
      && i < |s.w.image.threads| && s.w.image.threads[i].ReadEditions?
      && editions in {[], truth(s.w.image.threads[i].path)}
    case Respond(_, _) => s.w.dialogs != []
    case DepsEnd(_) => s.w.image.installing > 0
    case WriterChecks(i) => i < |s.w.writers|
    case WriterEnds(_) => s.running > 0
    case RestartAfterError => s.errors > 0
  }

  /** What leaving step 1 pins: the selected row's name and what udisks answers for it. */
  function Pin(s: System): Entry {
    Pinned(SelectedWord(s.w.drives), Known(s.world, SelectedWord(s.w.drives)))
  }

  predicate DropLeavesStep1(s: System) {
    s.w.step == 0 && SelectedDrive(s.w.drives).Some?
  }

  function Step(truth: string -> seq<Edition>, s: System, e: Event): System
    requires CanHappen(truth, s, e)
  {
    match e
    case Refresh(list) => s.(w := RefreshDrives(s.w, list))
    case Replug(world) => s.(world := world)
    case Pick(row) => s.(w := SelectRow(s.w, row))
    case Next(found) =>
      s.(w := GoNext(s.w, Pin(s).identity, found), log := if s.w.step == 0 then s.log + [Pin(s)] else s.log)
    case Back => s.(w := GoBack(s.w))
    case Choose(path) => s.(w := SetIso(s.w, path))
    case Drop(path) =>
      s.(w := DropIso(s.w, path, Pin(s).identity), log := if DropLeavesStep1(s) then s.log + [Pin(s)] else s.log)
    case ChooseSystem(kind) => s.(w := s.w.(image := SetSystem(s.w.image, kind)))
    case Scanned(i, kind) => s.(w := ApplyKind(s.w, i, kind))
    case EditionsRead(i, editions) => s.(w := s.w.(image := EditionsFound(s.w.image, i, editions)))
    case Respond(yes, found) => s.(w := Answer(s.w, yes, found))
    case DepsEnd(ok) => s.(w := DepsDone(s.w, ok))
    case WriterChecks(i) => CheckWriter(s, i)
    case WriterEnds(ok) =>
      s.(w := WriterEnded(s.w), running := s.running - 1, errors := s.errors + if ok then 0 else 1)
    case RestartAfterError => s.(w := Restart(s.w), errors := s.errors - 1)
  }

  /** The start of udisks_worker: the device must be known by exactly what was pinned. */
  function CheckWriter(s: System, i: nat): System
    requires i < |s.w.writers|
  {
    var dev := s.w.writers[i];
    var w := WriterChecked(s.w, i, Known(s.world, dev));
    if Known(s.world, dev) != s.w.drives.ident then s.(w := w, errors := s.errors + 1)
    else s.(w := w, running := s.running + 1, log := s.log + [Started(dev, Known(s.world, dev))])
  }

  /** The drive a window that this one replaces had chosen, if it is still listed. */
  function Preselect(shown: State, list: seq<Row>, drive: Option<string>): State {
    if drive.Some? && drive.value in Words(list) then SelectRow(shown, FirstIndex(Words(list), drive.value)) else shown
  }

  /** The window as it comes up: the list read once, a drive and an ISO carried over from a window it replaces. */
  predicate Begins(s: System, list: seq<Row>, drive: Option<string>, iso: Option<string>) {
    && IsDriveList(list)
    && s.running == 0 && s.errors == 0 && s.log == []
    && var shown := RefreshDrives(Fresh(), list);
       var picked := Preselect(shown, list, drive);
       s.w == if iso.Some? then SetIso(picked, iso.value) else picked
  }

  ghost predicate IsStart(s: System) {
    exists list, drive, iso :: Begins(s, list, drive, iso)
  }

  /** A run: trace[i] is the system before events[i]. */
  ghost predicate IsRun(truth: string -> seq<Edition>, trace: seq<System>, events: seq<Event>) {
    && |trace| == |events| + 1
    && IsStart(trace[0])
    && forall i :: 0 <= i < |events| ==> Follows(truth, trace, events, i)
  }

  predicate Follows(truth: string -> seq<Edition>, trace: seq<System>, events: seq<Event>, i: nat)
    requires i < |events| && i + 1 < |trace|
  {
    CanHappen(truth, trace[i], events[i]) && trace[i + 1] == Step(truth, trace[i], events[i])
  }

  /** The last drive pinned. */
  function LastPin(log: seq<Entry>): Option<Entry> {
    if log == [] then None
    else if log[|log| - 1].Pinned? then Some(log[|log| - 1])
    else LastPin(log[..|log| - 1])
  }
}
