/** _copy_file and _copy_tree: installation files onto a mounted drive, synced as they go. */
module TreeCopy {
  import opened Bytes
  import opened Text

  const CHUNK: nat := 0x40_0000
  const SYNC_EVERY: nat := 0x400_0000

  datatype SourceFile = SourceFile(path: string, content: seq<byte>)

  /** One step of os.walk: the directory relative to the source, and its files. */
  datatype Dir = Dir(rel: string, names: seq<SourceFile>)

  datatype Copied = Done | Stopped

  /** The mounted drive: what each file holds, and how much of it is known to be on the medium. */
  class Drive {
    var dirs: set<string>
    var files: map<string, seq<byte>>
    var durable: map<string, nat>
    ghost var backlog: nat

    ghost predicate Valid()
      reads this`files, this`durable
    {
      files.Keys == durable.Keys && forall p <- files :: durable[p] <= |files[p]|
    }

    constructor ()
      ensures Valid() && files == map[] && dirs == {} && backlog == 0
    {
      dirs, files, durable, backlog := {}, map[], map[], 0;
    }

    /** open(path, "wb") */
    method Create(path: string)
      requires Valid()
      modifies this`files, this`durable
      ensures Valid() && files == old(files)[path := []] && durable == old(durable)[path := 0]
    {
      files, durable := files[path := []], durable[path := 0];
    }

    /** The bytes land in the page cache; backlog remembers the most that was ever waiting there. */
    method Append(path: string, bytes: seq<byte>)
      requires Valid() && path in files
      modifies this`files, this`backlog
      ensures Valid() && files == old(files)[path := old(files)[path] + bytes]
      ensures backlog == Larger(old(backlog), |files[path]| - durable[path])
    {
      files := files[path := files[path] + bytes];
      backlog := Larger(backlog, |files[path]| - durable[path]);
    }

    /** flush and fdatasync or fsync */
    method Sync(path: string)
      requires Valid() && path in files
      modifies this`durable
      ensures Valid() && durable == old(durable)[path := |files[path]|]
    {
      durable := durable[path := |files[path]|];
    }

    method MakeDir(path: string)
      modifies this`dirs
      ensures dirs == old(dirs) + {path}
    {
      dirs := dirs + {path};
    }
  }

  function Larger(a: nat, b: int): (r: nat)
    ensures a <= r && b <= r && (r == a || r == b)
  {
    if b > a then b else a
  }

  /** The progress callback: what it was told, and the questions put to stopped(). */
  class Progress {
    var total: nat
    var done: nat
    var asked: nat
    var reports: seq<nat>

    constructor (total: nat)
      ensures this.total == total && done == 0 && asked == 0 && reports == []
    {
      this.total, done, asked, reports := total, 0, 0, [];
    }

    /** What has been reported so far rises and stays within the bytes copied. */
    ghost predicate Rising()
      reads this`done, this`reports
    {
      && (forall i :: 0 <= i < |reports| ==> reports[i] <= done)
      && (forall i, j :: 0 <= i < j < |reports| ==> reports[i] < reports[j])
      && (done > 0 ==> reports != [] && reports[|reports| - 1] == done)
    }

    method Advance(n: nat)
      requires Rising() && n > 0
      modifies this`done, this`reports
      ensures Rising() && done == old(done) + n && reports == old(reports) + [done]
    {
      done := done + n;
      reports := reports + [done];
    }
  }

  /** How many chunks reading a file gives. */
  function Chunks(size: nat): (n: nat)
    ensures n * CHUNK >= size && (n > 0 ==> (n - 1) * CHUNK < size)
  {
    (size + CHUNK - 1) / CHUNK
  }

  predicate Quiet(stopped: nat -> bool, from: nat, to: nat) {
    forall i :: from <= i < to ==> !stopped(i)
  }

  lemma QuietAtFirst(stopped: nat -> bool, from: nat)
    ensures Quiet(stopped, from, from)
  {
  }

  lemma QuietOneMore(stopped: nat -> bool, from: nat, to: nat)
    requires Quiet(stopped, from, to) && !stopped(to)
    ensures Quiet(stopped, from, to + 1)
  {
  }

  /** `at` bytes of a file have been read in k chunks. */
  predicate AfterChunks(size: nat, k: nat, at: nat) {
    && at <= size && at == (if k * CHUNK < size then k * CHUNK else size)
    && k <= Chunks(size) && (at == size ==> k == Chunks(size)) && (at < size ==> k < Chunks(size))
  }

  lemma OneMoreChunk(size: nat, k: nat, at: nat)
    requires AfterChunks(size, k, at) && at < size
    ensures at == k * CHUNK && k < Chunks(size)
    ensures AfterChunks(size, k + 1, if at + CHUNK < size then at + CHUNK else size)
  {
  }

  lemma NoChunks(size: nat)
    ensures AfterChunks(size, 0, 0)
  {
  }

  lemma ChunksDone(size: nat, k: nat, at: nat)
    requires AfterChunks(size, k, at)
    ensures at <= size && (at == size ==> k == Chunks(size))
  {
  }

  /** _copy_file, asking `stopped` before every chunk. */
  method CopyFile(file: SourceFile, drive: Drive, progress: Progress, stopped: nat -> bool) returns (result: Copied)
    requires drive.Valid() && progress.Rising()
    requires drive.backlog < 0x440_0000
    modifies drive`files, drive`durable, drive`backlog, progress`done, progress`reports, progress`asked
    ensures drive.Valid() && progress.Rising()
    ensures drive.backlog < 0x440_0000
    ensures file.path in drive.files && file.path in drive.durable
    ensures drive.durable == old(drive.durable)[file.path := drive.durable[file.path]]
    ensures drive.files == old(drive.files)[file.path := drive.files[file.path]]
    ensures progress.done == old(progress.done) + |drive.files[file.path]|
    ensures old(progress.reports) <= progress.reports
    ensures result == Done ==>
              && drive.files[file.path] == file.content
              && drive.durable[file.path] == |file.content|
              && progress.asked == old(progress.asked) + Chunks(|file.content|)
              && Quiet(stopped, old(progress.asked), progress.asked)
    ensures result == Stopped ==>
              && drive.files[file.path] < file.content
              && |drive.files[file.path]| == (progress.asked - old(progress.asked)) * 0x40_0000
              && old(progress.asked) <= progress.asked < old(progress.asked) + Chunks(|file.content|)
              && Quiet(stopped, old(progress.asked), progress.asked) && stopped(progress.asked)
  {
    hide Progress.Rising, Drive.Valid, Copying, Chunks, Quiet, AfterChunks;
    QuietAtFirst(stopped, progress.asked);
    drive.Create(file.path);
    var unsynced: nat := 0;
    var at: nat := 0;
    ghost var k: nat := 0;
    ghost var files, durable, done, asked, reports :=
      old(drive.files), old(drive.durable), old(progress.done), old(progress.asked), old(progress.reports);
    CopyingStarts(drive, file, files, durable);
    NoChunks(|file.content|);
    while at < |file.content|
      invariant at <= |file.content| && AfterChunks(|file.content|, k, at)
      invariant progress.Rising() && drive.Valid()
      invariant Copying(drive, file, files, durable, at, unsynced) && unsynced < SYNC_EVERY
      invariant drive.backlog < 0x440_0000
      invariant progress.done == done + at && reports <= progress.reports
      invariant progress.asked == asked + k && Quiet(stopped, asked, progress.asked)
    {
      var chunk := file.content[at..if at + CHUNK < |file.content| then at + CHUNK else |file.content|];
      OneMoreChunk(|file.content|, k, at);
      if stopped(progress.asked) {
        CopyingPartly(drive, file, files, durable, at, unsynced);
        return Stopped;
      }
      QuietOneMore(stopped, asked, progress.asked);
      progress.asked := progress.asked + 1;
      unsynced := PutChunk(file, drive, chunk, unsynced, files, durable, at);
      progress.Advance(|chunk|);
      at := at + |chunk|;
      k := k + 1;
    }
    CopyingPartly(drive, file, files, durable, at, unsynced);
    ChunksDone(|file.content|, k, at);
    drive.Sync(file.path);
    assert file.content[..at] == file.content;
    return Done;
  }

  /** Part way through a file: `at` of its bytes written, all but the last `unsynced` on the medium. */
  ghost predicate Copying(drive: Drive, file: SourceFile, files: map<string, seq<byte>>, durable: map<string, nat>,
                          at: nat, unsynced: nat)
    reads drive`files, drive`durable
  {
    && unsynced <= at <= |file.content|
    && drive.files == files[file.path := file.content[..at]]
    && drive.durable == durable[file.path := at - unsynced]
  }

  lemma CopyingStarts(drive: Drive, file: SourceFile, files: map<string, seq<byte>>, durable: map<string, nat>)
    requires drive.files == files[file.path := []] && drive.durable == durable[file.path := 0]
    ensures Copying(drive, file, files, durable, 0, 0)
  {
  }

  lemma CopyingPartly(drive: Drive, file: SourceFile, files: map<string, seq<byte>>, durable: map<string, nat>,
                      at: nat, unsynced: nat)
    requires Copying(drive, file, files, durable, at, unsynced)
    ensures at <= |file.content| && file.path in drive.files && drive.files[file.path] == file.content[..at]
    ensures drive.files == files[file.path := drive.files[file.path]]
    ensures file.path in drive.durable && drive.durable == durable[file.path := drive.durable[file.path]]
  {
  }

  /** fo.write, and a sync once enough has piled up. */
  method PutChunk(file: SourceFile, drive: Drive, chunk: seq<byte>, waiting: nat,
                  ghost files: map<string, seq<byte>>, ghost durable: map<string, nat>, ghost at: nat)
    returns (unsynced: nat)
    requires drive.Valid() && Copying(drive, file, files, durable, at, waiting)
    requires drive.backlog < 0x440_0000 && waiting < SYNC_EVERY
    requires |chunk| <= CHUNK && at + |chunk| <= |file.content| && chunk == file.content[at..at + |chunk|]
    modifies drive`files, drive`durable, drive`backlog
    ensures drive.Valid() && Copying(drive, file, files, durable, at + |chunk|, unsynced)
    ensures drive.backlog < 0x440_0000 && unsynced < SYNC_EVERY
    ensures unsynced == if waiting + |chunk| < 0x400_0000 then waiting + |chunk| else 0
  {
    hide Drive.Valid;
    drive.Append(file.path, chunk);
    assert file.content[..at] + chunk == file.content[..at + |chunk|];
    unsynced := waiting + |chunk|;
    if unsynced >= SYNC_EVERY {
      drive.Sync(file.path);
      unsynced := 0;
    }
  }

  // ---- the tree ----

  /** The path of a file relative to the source, for a directory as the walk names it. */
  function PathOf(rel: string, name: string): string {
    if rel == "." then name else rel + "/" + name
  }

  /** The files of one directory that are to be copied. */
  function Chosen(rel: string, names: seq<SourceFile>, skip: set<string>): seq<SourceFile> {
    if names == [] then []
    else
      var path := PathOf(rel, names[0].path);
      (if Lower(path) !in skip then [SourceFile(path, names[0].content)] else []) + Chosen(rel, names[1..], skip)
  }

  function ToCopy(walk: seq<Dir>, skip: set<string>): seq<SourceFile> {
    if walk == [] then [] else Chosen(walk[0].rel, walk[0].names, skip) + ToCopy(walk[1..], skip)
  }

  function Size(files: seq<SourceFile>): nat {
    if files == [] then 0 else Size(files[..|files| - 1]) + |files[|files| - 1].content|
  }

  /** What the drive holds once `files` are copied over what it held. */
  function Arrived(was: map<string, seq<byte>>, files: seq<SourceFile>): map<string, seq<byte>> {
    if files == [] then was
    else
      var last := files[|files| - 1];
      Arrived(was, files[..|files| - 1])[last.path := last.content]
  }

  predicate Distinct(files: seq<SourceFile>) {
    forall i, j :: 0 <= i < j < |files| ==> files[i].path != files[j].path
  }

  predicate Among(path: string, files: seq<SourceFile>) {
    exists i :: 0 <= i < |files| && files[i].path == path
  }

  /** Every file is there, byte for byte, and nothing else on the drive has changed. */
  lemma {:induction false} ArrivedIsEveryFile(was: map<string, seq<byte>>, files: seq<SourceFile>, i: nat,
                                              other: string)
    requires Distinct(files)
    ensures i < |files| ==>
              files[i].path in Arrived(was, files) && Arrived(was, files)[files[i].path] == files[i].content
    ensures !Among(other, files) ==>
              (other in Arrived(was, files) <==> other in was)
              && (other in was ==> Arrived(was, files)[other] == was[other])
  {
    if files == [] {
    } else {
      var n := |files| - 1;
      ArrivedIsEveryFile(was, files[..n], i, other);
      if !Among(other, files) {
        assert files[n].path != other;
        forall k | 0 <= k < n
          ensures files[..n][k].path != other
        {
          assert files[..n][k] == files[k];
        }
      }
    }
  }

  /** A file is copied exactly when its path does not lower to one to skip. */
  lemma {:induction false} ChosenExactly(rel: string, names: seq<SourceFile>, skip: set<string>, f: SourceFile)
    ensures f in Chosen(rel, names, skip)
            <==> Lower(f.path) !in skip
                 && exists i :: 0 <= i < |names| && f == SourceFile(PathOf(rel, names[i].path), names[i].content)
  {
    hide PathOf, Lower;
    if names == [] {
    } else {
      ChosenExactly(rel, names[1..], skip, f);
      var rest := names[1..];
      if i :| 0 <= i < |rest| && f == SourceFile(PathOf(rel, rest[i].path), rest[i].content) {
        assert rest[i] == names[i + 1];
      }
      if i :| 0 < i < |names| && f == SourceFile(PathOf(rel, names[i].path), names[i].content) {
        assert rest[i - 1] == names[i];
      }
    }
  }

  /** The same over the whole walk. */
  lemma {:induction false} CopiesExactly(walk: seq<Dir>, skip: set<string>, f: SourceFile)
    ensures f in ToCopy(walk, skip)
            <==> exists d: nat :: d < |walk| && f in Chosen(walk[d].rel, walk[d].names, skip)
  {
    hide Chosen;
    if walk == [] {
    } else {
      CopiesExactly(walk[1..], skip, f);
      var rest := walk[1..];
      if d: nat :| d < |rest| && f in Chosen(rest[d].rel, rest[d].names, skip) {
        assert rest[d] == walk[d + 1];
      }
      if d: nat :| 0 < d < |walk| && f in Chosen(walk[d].rel, walk[d].names, skip) {
        assert rest[d - 1] == walk[d];
      }
    }
  }

  // ---- no two files of a walk share a path ----

  /** What os.walk gives: no directory twice, in each no name twice, and no slash in a name. */
  predicate IsWalk(walk: seq<Dir>) {
    && (forall i, j :: 0 <= i < j < |walk| ==> walk[i].rel != walk[j].rel)
    && (forall i :: 0 <= i < |walk| ==> AreNames(walk[i].names))
  }

  predicate AreNames(names: seq<SourceFile>) {
    Distinct(names) && forall i :: 0 <= i < |names| ==> '/' !in names[i].path
  }

  /** A path tells its directory and its name. */
  lemma PathTellsBoth(rel: string, name: string, rel1: string, name1: string)
    requires '/' !in name && '/' !in name1 && PathOf(rel, name) == PathOf(rel1, name1)
    ensures rel == rel1 && name == name1
  {
    hide PathOf;
    LastSlash(rel, name);
    LastSlash(rel1, name1);
  }

  lemma LastSlash(rel: string, name: string)
    requires '/' !in name
    ensures var path := PathOf(rel, name);
            if '/' in path then
              exists k :: 0 <= k < |path| && path[k] == '/' && (forall l :: k < l < |path| ==> path[l] != '/')
                          && rel == path[..k] && name == path[k + 1..]
            else rel == "." && name == path
  {
    if rel != "." {
      var path, k := PathOf(rel, name), |rel|;
      assert path[k] == '/' && rel == path[..k] && name == path[k + 1..];
      forall l | k < l < |path|
        ensures path[l] != '/'
      {
        assert path[l] == name[l - k - 1];
      }
    }
  }

  lemma DistinctTogether(a: seq<SourceFile>, b: seq<SourceFile>)
    requires Distinct(a) && Distinct(b)
    requires forall i, j :: 0 <= i < |a| && 0 <= j < |b| ==> a[i].path != b[j].path
    ensures Distinct(a + b)
  {
  }

  lemma {:induction false} ChosenIsDistinct(rel: string, names: seq<SourceFile>, skip: set<string>)
    requires AreNames(names)
    ensures Distinct(Chosen(rel, names, skip))
  {
    hide PathOf, Lower;
    if names != [] {
      var rest := names[1..];
      ChosenIsDistinct(rel, rest, skip);
      var first := if Lower(PathOf(rel, names[0].path)) !in skip
                   then [SourceFile(PathOf(rel, names[0].path), names[0].content)] else [];
      forall f | f in Chosen(rel, rest, skip)
        ensures f.path != PathOf(rel, names[0].path)
      {
        ChosenExactly(rel, rest, skip, f);
        var i :| 0 <= i < |rest| && f == SourceFile(PathOf(rel, rest[i].path), rest[i].content);
        if f.path == PathOf(rel, names[0].path) {
          PathTellsBoth(rel, names[0].path, rel, names[i + 1].path);
        }
      }
      DistinctTogether(first, Chosen(rel, rest, skip));
    }
  }

  lemma OtherDirectory(a: Dir, b: Dir, skip: set<string>, f: SourceFile, g: SourceFile)
    requires a.rel != b.rel && AreNames(a.names) && AreNames(b.names)
    requires f in Chosen(a.rel, a.names, skip) && g in Chosen(b.rel, b.names, skip)
    ensures f.path != g.path
  {
    hide PathOf, Lower, Chosen;
    ChosenExactly(a.rel, a.names, skip, f);
    ChosenExactly(b.rel, b.names, skip, g);
    var i :| 0 <= i < |a.names| && f == SourceFile(PathOf(a.rel, a.names[i].path), a.names[i].content);
    var j :| 0 <= j < |b.names| && g == SourceFile(PathOf(b.rel, b.names[j].path), b.names[j].content);
    if f.path == g.path {
      PathTellsBoth(a.rel, a.names[i].path, b.rel, b.names[j].path);
    }
  }

  /** So no two of the files to copy share a path. */
  lemma {:induction false} WalkIsDistinct(walk: seq<Dir>, skip: set<string>)
    requires IsWalk(walk)
    ensures Distinct(ToCopy(walk, skip))
  {
    hide Chosen, AreNames;
    if walk != [] {
      var here, rest := Chosen(walk[0].rel, walk[0].names, skip), ToCopy(walk[1..], skip);
      ChosenIsDistinct(walk[0].rel, walk[0].names, skip);
      WalkIsDistinct(walk[1..], skip);
      forall i, j | 0 <= i < |here| && 0 <= j < |rest|
        ensures here[i].path != rest[j].path
      {
        CopiesExactly(walk[1..], skip, rest[j]);
        var d: nat :| d < |walk[1..]| && rest[j] in Chosen(walk[1..][d].rel, walk[1..][d].names, skip);
        OtherDirectory(walk[0], walk[d + 1], skip, here[i], rest[j]);
      }
      DistinctTogether(here, rest);
    }
  }

  /** A file somewhere in the walk, its path spelled out. */
  ghost predicate InWalk(walk: seq<Dir>, f: SourceFile) {
    exists d, i :: 0 <= d < |walk| && 0 <= i < |walk[d].names| && IsFile(walk[d].rel, walk[d].names[i], f)
  }

  predicate IsFile(rel: string, file: SourceFile, f: SourceFile) {
    f.content == file.content && f.path == if rel == "." then file.path else rel + "/" + file.path
  }

  /** With small names to skip, a file is copied exactly when its path differs from each by more than capitals. */
  lemma CopiedExactly(walk: seq<Dir>, skip: set<string>, f: SourceFile)
    requires forall e <- skip :: IsSmall(e)
    ensures f in ToCopy(walk, skip) <==> InWalk(walk, f) && forall e <- skip :: !SameButCapitals(f.path, e)
  {
    hide Chosen, ToCopy, Lower, SameButCapitals, IsSmall;
    forall e <- skip
      ensures Lower(f.path) == e <==> SameButCapitals(f.path, e)
    {
      LowersTo(f.path, e);
    }
    CopiesExactly(walk, skip, f);
    if f in ToCopy(walk, skip) {
      var d: nat :| d < |walk| && f in Chosen(walk[d].rel, walk[d].names, skip);
      ChosenExactly(walk[d].rel, walk[d].names, skip, f);
      var i :| 0 <= i < |walk[d].names|
               && f == SourceFile(PathOf(walk[d].rel, walk[d].names[i].path), walk[d].names[i].content);
      assert IsFile(walk[d].rel, walk[d].names[i], f);
    }
    if InWalk(walk, f) && Lower(f.path) !in skip {
      var d, i :| 0 <= d < |walk| && 0 <= i < |walk[d].names| && IsFile(walk[d].rel, walk[d].names[i], f);
      assert f == SourceFile(PathOf(walk[d].rel, walk[d].names[i].path), walk[d].names[i].content);
      ChosenExactly(walk[d].rel, walk[d].names, skip, f);
    }
  }

  lemma {:induction false} FrontIsNoLarger(files: seq<SourceFile>, k: nat)
    requires k <= |files|
    ensures Size(files[..k]) <= Size(files)
  {
    if k == |files| {
      assert files[..k] == files;
    } else {
      FrontIsNoLarger(files[..|files| - 1], k);
      assert files[..|files| - 1][..k] == files[..k];
    }
  }

  lemma OneMoreFile(was: map<string, seq<byte>>, files: seq<SourceFile>, k: nat)
    requires k < |files|
    ensures Size(files[..k + 1]) == Size(files[..k]) + |files[k].content|
    ensures Arrived(was, files[..k + 1]) == Arrived(was, files[..k])[files[k].path := files[k].content]
    ensures Size(files[..k + 1]) <= Size(files)
  {
    assert files[..k + 1][..k] == files[..k];
    FrontIsNoLarger(files, k + 1);
  }

  function Rels(walk: seq<Dir>): set<string> {
    if walk == [] then {} else {walk[0].rel} + Rels(walk[1..])
  }

  lemma OneMoreDir(walk: seq<Dir>, skip: set<string>, i: nat)
    requires i < |walk|
    ensures ToCopy(walk[i..], skip) == Chosen(walk[i].rel, walk[i].names, skip) + ToCopy(walk[i + 1..], skip)
    ensures Rels(walk[i..]) == {walk[i].rel} + Rels(walk[i + 1..])
  {
    hide Chosen;
    assert walk[i..][1..] == walk[i + 1..];
  }

  /** The directories made, and the files to copy in the order os.walk meets them. */
  method Collect(walk: seq<Dir>, drive: Drive, skip: set<string>) returns (files: seq<SourceFile>)
    modifies drive`dirs
    ensures files == ToCopy(walk, skip)
    ensures drive.dirs == old(drive.dirs) + Rels(walk)
  {
    hide Chosen;
    files := [];
    var i: nat := 0;
    assert walk[0..] == walk;
    while i < |walk|
      invariant i <= |walk| && files + ToCopy(walk[i..], skip) == ToCopy(walk, skip)
      invariant drive.dirs + Rels(walk[i..]) == old(drive.dirs) + Rels(walk)
    {
      drive.MakeDir(walk[i].rel);
      var more := CollectDir(walk[i], skip);
      OneMoreDir(walk, skip, i);
      files := files + more;
      i := i + 1;
    }
  }

  lemma OneMoreName(rel: string, names: seq<SourceFile>, skip: set<string>, i: nat)
    requires i < |names|
    ensures var path := PathOf(rel, names[i].path);
            Chosen(rel, names[i..], skip) ==
              (if Lower(path) !in skip then [SourceFile(path, names[i].content)] else [])
              + Chosen(rel, names[i + 1..], skip)
  {
    hide PathOf, Lower;
    assert names[i..][1..] == names[i + 1..];
  }

  lemma NoMoreNames(rel: string, names: seq<SourceFile>, skip: set<string>)
    ensures Chosen(rel, names[|names|..], skip) == []
  {
    hide PathOf, Lower;
  }

  method CollectDir(dir: Dir, skip: set<string>) returns (files: seq<SourceFile>)
    ensures files == Chosen(dir.rel, dir.names, skip)
  {
    hide Chosen, Lower, PathOf;
    files := [];
    var i: nat := 0;
    assert dir.names[0..] == dir.names;
    while i < |dir.names|
      invariant i <= |dir.names|
      invariant files + Chosen(dir.rel, dir.names[i..], skip) == Chosen(dir.rel, dir.names, skip)
    {
      var path := PathOf(dir.rel, dir.names[i].path);
      OneMoreName(dir.rel, dir.names, skip, i);
      if Lower(path) !in skip {
        files := files + [SourceFile(path, dir.names[i].content)];
      }
      i := i + 1;
    }
    NoMoreNames(dir.rel, dir.names, skip);
  }

  /** Every file of the list lies complete on the medium. */
  predicate AllDurable(held: map<string, seq<byte>>, durable: map<string, nat>, files: seq<SourceFile>) {
    forall i :: 0 <= i < |files| ==> OnMedium(held, durable, files[i].path)
  }

  predicate OnMedium(held: map<string, seq<byte>>, durable: map<string, nat>, path: string) {
    path in held && path in durable && durable[path] == |held[path]|
  }

  lemma OthersStayDurable(held: map<string, seq<byte>>, durable: map<string, nat>, files: seq<SourceFile>, k: nat,
                          content: seq<byte>, synced: nat)
    requires k < |files| && Distinct(files) && AllDurable(held, durable, files[..k])
    ensures var now, on := held[files[k].path := content], durable[files[k].path := synced];
            && AllDurable(now, on, files[..k])
            && (synced == |content| ==> AllDurable(now, on, files[..k + 1]))
  {
    forall i | 0 <= i < k
      ensures OnMedium(held[files[k].path := content], durable[files[k].path := synced], files[i].path)
    {
      assert files[..k][i] == files[i] && OnMedium(held, durable, files[..k][i].path);
    }
  }

  /**
   * _copy_tree. `whole` is how many files were finished; a stop leaves those,
   * and a front of whole chunks of the next one.
   */
  method CopyTree(walk: seq<Dir>, drive: Drive, skip: set<string>, stopped: nat -> bool)
    returns (result: Copied, progress: Progress, ghost whole: nat)
    requires drive.Valid() && drive.backlog < 0x440_0000
    modifies drive
    ensures drive.Valid() && drive.backlog < 0x440_0000
    ensures drive.dirs == old(drive.dirs) + Rels(walk)
    ensures fresh(progress) && progress.Rising() && progress.done <= progress.total
    ensures var files := ToCopy(walk, skip);
            && progress.total == (if Size(files) == 0 then 1 else Size(files))
            && whole <= |files| && (Distinct(files) ==> AllDurable(drive.files, drive.durable, files[..whole]))
            && (result == Done ==>
                  whole == |files| && drive.files == Arrived(old(drive.files), files) && progress.done == Size(files))
            && (result == Stopped ==>
                  && whole < |files|
                  && files[whole].path in drive.files
                  && drive.files == Arrived(old(drive.files), files[..whole])[
                                      files[whole].path := drive.files[files[whole].path]]
                  && drive.files[files[whole].path] < files[whole].content
                  && |drive.files[files[whole].path]| % 0x40_0000 == 0
                  && progress.done == Size(files[..whole]) + |drive.files[files[whole].path]|)
    ensures Quiet(stopped, 0, progress.asked) && (result == Stopped ==> stopped(progress.asked))
  {
    hide Drive.Valid, Progress.Rising, Size, Arrived, OnMedium, AllDurable, Quiet, Lower, Distinct, Chunks, ToCopy,
      Rels;
    var files := Collect(walk, drive, skip);
    progress := new Progress(if Size(files) == 0 then 1 else Size(files));
    ghost var was := drive.files;
    var k: nat := 0;
    CopyStarts(was, drive.durable, files, progress, stopped);
    while k < |files|
      invariant k <= |files|
      invariant drive.dirs == old(drive.dirs) + Rels(walk)
      invariant fresh(progress) && progress.total == (if Size(files) == 0 then 1 else Size(files))
      invariant drive.Valid() && drive.backlog < 0x440_0000 && progress.Rising()
      invariant drive.files == Arrived(was, files[..k]) && progress.done == Size(files[..k])
      invariant Distinct(files) ==> AllDurable(drive.files, drive.durable, files[..k])
      invariant Quiet(stopped, 0, progress.asked)
    {
      ghost var held, durable, asked := drive.files, drive.durable, progress.asked;
      var one := CopyFile(files[k], drive, progress, stopped);
      OneMoreFile(was, files, k);
      if Distinct(files) {
        OthersStayDurable(held, durable, files, k, drive.files[files[k].path], drive.durable[files[k].path]);
      }
      QuietJoins(stopped, asked, progress.asked);
      if one == Stopped {
        return Stopped, progress, k;
      }
      k := k + 1;
    }
    assert files[..k] == files;
    return Done, progress, k;
  }

  lemma CopyStarts(was: map<string, seq<byte>>, durable: map<string, nat>, files: seq<SourceFile>, progress: Progress,
                   stopped: nat -> bool)
    requires progress.done == 0 && progress.reports == []
    ensures progress.Rising() && Arrived(was, files[..0]) == was && Size(files[..0]) == 0
    ensures AllDurable(was, durable, files[..0]) && Quiet(stopped, 0, 0)
  {
  }

  lemma QuietJoins(stopped: nat -> bool, middle: nat, end: nat)
    requires Quiet(stopped, 0, middle) && Quiet(stopped, middle, end)
    ensures Quiet(stopped, 0, end)
  {
  }
}
