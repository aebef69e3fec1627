/** What the callbacks of main.py's window do to its state; the widgets are down to rows, a selection and a button. */
module Wizard {
  import opened Text

  /** A row of the drive list: a drive, or one of the two that stand for none. */
  datatype Row = Drive(name: string, rest: string) | NoDrives | PickDrive

  /** drive_identity: what tells one disk from another that takes its name. */
  datatype Identity = Identity(drive: string, serial: string, wwn: string, size: nat)

  datatype Edition = Edition(index: nat, name: string, size: int)

  datatype Dialog = Capacity | InstallDeps | Warn1 | Warn2

  /** A background job that reports back to the window. */
  datatype Job = Analyze(path: string) | ReadEditions(path: string)

  /** What request_start finds before it asks for confirmation. */
  datatype Obstacle = Blocked | Tight | Missing | Nothing

  /** Step 1: the drop-down list, the identity pinned when leaving it, and the device the summary names. */
  datatype Drives = Drives(rows: seq<Row>, selected: nat, last: seq<Row>, ident: Option<Identity>, dev: string)

  /** Step 2: the chosen ISO, what is known of it, and the background jobs. */
  datatype Image = Image(
    iso: Option<string>, analyzing: Option<string>, editionsRead: Option<string>, editions: seq<Edition>, kind: nat,
    jobs: int, threads: seq<Job>, installing: nat)

  datatype State = State(step: nat, nextOn: bool, dialogs: seq<Dialog>, flashing: bool, writers: seq<string>,
                         drives: Drives, image: Image)

  /** A row's first word. */
  function Word(row: Row): string {
    match row
    case Drive(name, _) => name
    case NoDrives => "No"
    case PickDrive => "Select"
  }

  function Words(rows: seq<Row>): (r: seq<string>)
    ensures |r| == |rows| && forall i :: 0 <= i < |rows| ==> r[i] == Word(rows[i])
  {
    seq(|rows|, i requires 0 <= i < |rows| => Word(rows[i]))
  }

  /** sd and one or more lower-case letters. */
  predicate IsDeviceName(name: string) {
    "sd" <= name && |name| > 2 && forall i :: 2 <= i < |name| ==> 'a' <= name[i] <= 'z'
  }

  /** What get_usb_drives returns: the drives, or the one row that says there are none. */
  predicate IsDriveList(list: seq<Row>) {
    list == [NoDrives] || (list != [] && forall row <- list :: row.Drive? && IsDeviceName(row.name))
  }

  /** Where a name stands first in a list. */
  function FirstIndex(names: seq<string>, chosen: string): (i: nat)
    requires chosen in names
    ensures i < |names| && names[i] == chosen && chosen !in names[..i]
  {
    if names[0] == chosen then 0 else 1 + FirstIndex(names[1..], chosen)
  }

  function Reselect(drives: seq<Row>, chosen: Option<string>, first: bool): Option<nat> {
    if chosen.Some? && chosen.value in Words(drives) then Some(FirstIndex(Words(drives), chosen.value))
    else if chosen.None? && first && drives != [] then Some(0)
    else None
  }

  // ---- the drive list ----

  /** The selected row's first word; the list is never empty once the window is up. */
  function SelectedWord(d: Drives): string {
    if d.selected < |d.rows| then Word(d.rows[d.selected]) else ""
  }

  /** The name of the selected drive, None on a row that stands for no drive. */
  function SelectedDrive(d: Drives): Option<string> {
    if d.selected < |d.rows| && d.rows[d.selected].Drive? then Some(d.rows[d.selected].name) else None
  }

  /** The rows once a list that differs from the last has been read. */
  function Relist(d: Drives, list: seq<Row>): Drives {
    var first := d.last == [] || d.last == [NoDrives];
    var row := Reselect(list, SelectedDrive(d), first);
    if row.None? && list != [NoDrives] then d.(last := list, rows := [PickDrive] + list, selected := 0)
    else d.(last := list, rows := list, selected := row.GetOr(0))
  }

  // ---- the image and the jobs about it ----

  /** A thread for the job, counted until it reports back. */
  function Spawn(m: Image, job: Job): Image {
    m.(jobs := m.jobs + 1, threads := m.threads + [job])
  }

  /** Thread i has reported back. */
  function Report(m: Image, i: nat): Image
    requires i < |m.threads|
  {
    m.(jobs := m.jobs - 1, threads := m.threads[..i] + m.threads[i + 1..])
  }

  function NewIso(m: Image, path: string): Image {
    Spawn(m.(iso := Some(path), editions := [], editionsRead := None, analyzing := Some(path)), Analyze(path))
  }

  function StartReadingEditions(m: Image): Image {
    if m.iso.None? || m.iso == m.editionsRead then m
    else Spawn(m.(editionsRead := m.iso), ReadEditions(m.iso.value))
  }

  function SetSystem(m: Image, kind: nat): Image {
    var t := m.(kind := kind);
    if kind == 0 then StartReadingEditions(t) else t
  }

  /** The scan that thread i did is over; a second ISO can have been chosen meanwhile. */
  function KindFound(m: Image, i: nat, kind: nat): Image
    requires i < |m.threads|
  {
    var t := Report(m, i);
    if m.iso != Some(m.threads[i].path) then t else SetSystem(t.(analyzing := None), kind)
  }

  /** Thread i has read these editions. */
  function EditionsFound(m: Image, i: nat, editions: seq<Edition>): Image
    requires i < |m.threads|
  {
    var t := Report(m, i);
    if m.iso != Some(m.threads[i].path) then t else t.(editions := editions)
  }

  // ---- the callbacks ----

  /** When update_ui_state lets the user go on. */
  predicate MayGoOn(s: State) {
    match s.step
    case 0 => SelectedDrive(s.drives).Some?
    case 1 => s.image.iso.Some? && s.image.analyzing.None?
    case _ => true
  }

  function UpdateUi(s: State): State {
    if s.step == 2 then s.(nextOn := true, drives := s.drives.(dev := SelectedWord(s.drives)))
    else if s.step < 2 then s.(nextOn := MayGoOn(s)) else s
  }

  function RefreshDrives(s: State, list: seq<Row>): State {
    if s.step != 0 || list == s.drives.last then s else UpdateUi(s.(drives := Relist(s.drives, list)))
  }

  function SelectRow(s: State, row: nat): State {
    UpdateUi(s.(drives := s.drives.(selected := row)))
  }

  /** remember_drive; `identity` is what udisks answers for the selected name. */
  function RememberDrive(s: State, identity: Option<Identity>): State {
    s.(drives := s.drives.(ident := identity))
  }

  function GoNext(s: State, identity: Option<Identity>, found: Obstacle): State {
    if s.step == 2 then RequestStart(s, found)
    else
      var pinned := if s.step == 0 then RememberDrive(s, identity) else s;
      if s.step < 2 then UpdateUi(pinned.(step := s.step + 1)) else pinned
  }

  function GoBack(s: State): State {
    if s.step > 0 then UpdateUi(s.(step := s.step - 1)) else s
  }

  function Ask(s: State, dialog: Dialog): State {
    s.(dialogs := s.dialogs + [dialog])
  }

  function RequestStart(s: State, found: Obstacle): State {
    if found == Blocked then s else if found == Tight then Ask(s, Capacity) else Proceed(s, found)
  }

  /** proceed_to_warnings; without a package manager to ask there is nothing to install. */
  function Proceed(s: State, found: Obstacle): State {
    match found
    case Missing => Ask(s, InstallDeps)
    case Nothing => Ask(s, Warn1)
    case _ => s
  }

  function SetIso(s: State, path: string): State {
    UpdateUi(s.(image := NewIso(s.image, path)))
  }

  function DropIso(s: State, path: string, identity: Option<Identity>): State {
    if s.step > 1 then s
    else
      var t := SetIso(s, path);
      if s.step == 0 && SelectedDrive(s.drives).Some? then UpdateUi(RememberDrive(t, identity).(step := 1)) else t
  }

  function ApplyKind(s: State, i: nat, kind: nat): State
    requires i < |s.image.threads|
  {
    var t := s.(image := KindFound(s.image, i, kind));
    if s.image.iso != Some(s.image.threads[i].path) then t else UpdateUi(t)
  }

  function TopDialog(s: State): Option<Dialog> {
    if s.dialogs == [] then None else Some(s.dialogs[|s.dialogs| - 1])
  }

  function Close(s: State): State
    requires s.dialogs != []
  {
    s.(dialogs := s.dialogs[..|s.dialogs| - 1])
  }

  /** The user's answer to the dialog on top; `found` is what a second look finds after a capacity warning. */
  function Answer(s: State, yes: bool, found: Obstacle): State
    requires s.dialogs != []
  {
    var t := Close(s);
    if !yes then t
    else
      match TopDialog(s).value
      case Capacity => Proceed(t, found)
      case InstallDeps =>
        t.(nextOn := false, image := t.image.(jobs := t.image.jobs + 1, installing := t.image.installing + 1))
      case Warn1 => Ask(t, Warn2)
      case Warn2 => t.(step := 3, flashing := true, writers := t.writers + [t.drives.dev])
  }

  function DepsDone(s: State, ok: bool): State
    requires s.image.installing > 0
  {
    var t := s.(nextOn := true, image := s.image.(jobs := s.image.jobs - 1, installing := s.image.installing - 1));
    if ok then Proceed(t, Nothing) else t
  }

  /** The writer goes on if its device is known by what was pinned; otherwise the flash has failed. */
  function WriterChecked(s: State, writer: nat, identity: Option<Identity>): State
    requires writer < |s.writers|
  {
    var t := s.(writers := s.writers[..writer] + s.writers[writer + 1..]);
    if identity == s.drives.ident then t else t.(flashing := false)
  }

  function WriterEnded(s: State): State {
    s.(flashing := false)
  }

  function Restart(s: State): State {
    UpdateUi(s.(step := 0))
  }

  /** A window whose drive list has not been read yet. */
  function Fresh(): State {
    State(0, false, [], false, [], Drives([], 0, [], None, ""), Image(None, None, None, [], 2, 0, [], 0))
  }

  /** The choice follows its name; a name that is gone leaves no choice, and only an empty list fills one in. */
  lemma ReselectNeverJumps(drives: seq<Row>, chosen: Option<string>, first: bool)
    ensures var row := Reselect(drives, chosen, first);
            && (row.Some? ==> row.value < |drives|)
            && (chosen.Some? && row.Some? ==> Word(drives[row.value]) == chosen.value)
            && (chosen.Some? && row.None? ==> forall d <- drives :: Word(d) != chosen.value)
            && (chosen.None? ==> (row.Some? <==> first && drives != []))
  {
    if chosen.Some? && chosen.value !in Words(drives) {
      forall d <- drives
        ensures Word(d) != chosen.value
      {
        var i :| 0 <= i < |drives| && drives[i] == d;
        assert Words(drives)[i] == Word(d);
      }
    }
  }

  // ---- what the callbacks mean ----

  /** A device name is sd and letters; the words of the rows that stand for no drive are none. */
  lemma DeviceNamesAre(name: string)
    ensures IsDeviceName(name) <==>
              |name| >= 3 && name[0] == 's' && name[1] == 'd' && forall i :: 2 <= i < |name| ==> 'a' <= name[i] <= 'z'
    ensures Word(NoDrives) == "No" && Word(PickDrive) == "Select" && !IsDeviceName("No") && !IsDeviceName("Select")
  {
    if |name| >= 3 && name[0] == 's' && name[1] == 'd' {
      assert name[..2] == "sd";
    }
    if "sd" <= name {
      assert name[..2] == "sd";
    }
    assert "Select"[1] == 'e';
  }

  /** Asking to start: a blocked start asks nothing, and each other finding asks its one question. */
  lemma StartAsks(s: State)
    ensures RequestStart(s, Blocked) == s
    ensures RequestStart(s, Tight) == s.(dialogs := s.dialogs + [Capacity])
    ensures RequestStart(s, Missing) == s.(dialogs := s.dialogs + [InstallDeps])
    ensures RequestStart(s, Nothing) == s.(dialogs := s.dialogs + [Warn1])
  {
  }

  /** An answer closes the dialog on top; only a yes does more, and what depends on the dialog. */
  lemma AnswerMeans(s: State, below: seq<Dialog>, found: Obstacle)
    requires s.dialogs != [] && below == s.dialogs[..|s.dialogs| - 1]
    ensures Answer(s, false, found) == s.(dialogs := below)
    ensures var t, top := Answer(s, true, found), s.dialogs[|s.dialogs| - 1];
            && (top == Capacity && found == Missing ==> t == s.(dialogs := below + [InstallDeps]))
            && (top == Capacity && found == Nothing ==> t == s.(dialogs := below + [Warn1]))
            && (top == Warn1 ==> t == s.(dialogs := below + [Warn2]))
            && (top == Warn2 ==>
                  t == s.(dialogs := below, step := 3, flashing := true, writers := s.writers + [s.drives.dev]))
            && (top == InstallDeps ==>
                  t == s.(dialogs := below, nextOn := false,
                          image := s.image.(jobs := s.image.jobs + 1, installing := s.image.installing + 1)))
  {
  }

  /** A list after none, or after one without drives, comes with its first row chosen; later it waits for a choice. */
  lemma ListsMean(d: Drives, list: seq<Row>)
    requires SelectedDrive(d).None? && list != []
    ensures d.last == [] || d.last == [NoDrives] ==> Relist(d, list) == d.(last := list, rows := list, selected := 0)
    ensures d.last != [] && d.last != [NoDrives] && list != [NoDrives] ==>
              Relist(d, list) == d.(last := list, rows := [PickDrive] + list, selected := 0)
  {
  }

  /** A scan of the current ISO ends the wait for it and sets the kind it found; Windows has its editions read, once. */
  lemma ScansMean(m: Image, i: nat, kind: nat)
    requires i < |m.threads| && m.iso == Some(m.threads[i].path)
    ensures var t, rest := KindFound(m, i, kind), m.threads[..i] + m.threads[i + 1..];
            && t.kind == kind && t.analyzing == None && t.iso == m.iso && t.editions == m.editions
            && (kind == 0 && m.editionsRead != m.iso ==>
                  t.threads == rest + [ReadEditions(m.iso.value)] && t.editionsRead == m.iso && t.jobs == m.jobs)
            && (kind != 0 || m.editionsRead == m.iso ==>
                  t.threads == rest && t.editionsRead == m.editionsRead && t.jobs == m.jobs - 1)
  {
  }
}
