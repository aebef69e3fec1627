/** copy_image, verify_image and write_image on a drive that writes and reads as little at a time as it likes. */
module ImageCopy {
  import opened Bytes
  import opened Text

  const CHUNK: nat := 0x40_0000
  const TAIL: nat := 0x10_0000

  /** Failed is an OSError from the drive. */
  datatype Outcome = Finished | Stopped | Mismatch | Failed

  /** A call on the device: what was asked of it, and how many bytes it took or gave, None for an error. */
  datatype Call =
    | Pwrite(at: nat, bytes: seq<byte>, count: Option<nat>)
    | Wrote(at: nat, bytes: seq<byte>, count: Option<nat>)
    | Pread(at: nat, count: Option<nat>)
    | Fsync(ok: bool)

  predicate WentWrong(c: Call) {
    if c.Fsync? then !c.ok else c.count.None?
  }

  predicate AllWent(calls: seq<Call>) {
    forall i :: 0 <= i < |calls| ==> !WentWrong(calls[i])
  }

  /** The last call failed, and none before it. */
  predicate EndsBadly(calls: seq<Call>) {
    calls != [] && WentWrong(calls[|calls| - 1]) && AllWent(calls[..|calls| - 1])
  }

  predicate OnlyWrites(calls: seq<Call>) {
    forall i :: 0 <= i < |calls| ==> calls[i].Wrote?
  }

  predicate OnlyReads(calls: seq<Call>) {
    forall i :: 0 <= i < |calls| ==> calls[i].Pread?
  }

  lemma CallsAfter(a: seq<Call>, b: seq<Call>)
    requires AllWent(a)
    ensures AllWent(b) ==> AllWent(a + b)
    ensures EndsBadly(b) ==> EndsBadly(a + b)
  {
    if EndsBadly(b) {
      assert (a + b)[..|a + b| - 1] == a + b[..|b| - 1];
    }
  }

  lemma OneCall(c: Call)
    ensures WentWrong(c) ==> EndsBadly([c])
    ensures !WentWrong(c) ==> AllWent([c])
  {
  }

  lemma BadIsNotWell(calls: seq<Call>)
    ensures !(EndsBadly(calls) && AllWent(calls))
  {
  }

  /** An open block device: a fixed number of bytes, a file position, and its own mind about lengths. */
  class Device {
    const data: array<byte>
    var pos: nat
    ghost var calls: seq<Call>

    constructor (contents: seq<byte>)
      ensures fresh(data) && data[..] == contents && pos == 0 && calls == []
    {
      data := new byte[|contents|](i requires 0 <= i < |contents| => contents[i]);
      pos, calls := 0, [];
    }

    /** os.write: some of the bytes, at least one, or an error; always an error at the end of the device. */
    method Write(view: seq<byte>) returns (n: Option<nat>)
      requires view != []
      modifies this`pos, this`calls, data
      ensures pos == old(pos) + n.GetOr(0) && calls == old(calls) + [Wrote(old(pos), view, n)]
      ensures pos <= data.Length || n.None?
      ensures n.Some? ==> 1 <= n.value <= |view|
      ensures n.Some? ==> data[..] == Overwrite(old(data[..]), old(pos), view[..n.value])
      ensures n.None? ==> data[..] == old(data[..])
    {
      calls := calls + [Wrote(pos, view, None)];
      if pos >= data.Length {
        return None;
      }
      if * {
        return None;
      }
      var k: nat :| 1 <= k <= |view| && pos + k <= data.Length;
      Store(pos, view[..k]);
      calls := calls[..|calls| - 1] + [Wrote(pos, view, Some(k))];
      pos := pos + k;
      return Some(k);
    }

    /** os.pwrite: some of the bytes at an offset, or an error; the position stays. */
    method WriteAt(bytes: seq<byte>, at: nat) returns (n: Option<nat>)
      requires at + |bytes| <= data.Length
      modifies data, this`calls
      ensures calls == old(calls) + [Pwrite(at, bytes, n)]
      ensures n.Some? ==> n.value <= |bytes| && data[..] == Overwrite(old(data[..]), at, bytes[..n.value])
      ensures n.None? ==> data[..] == old(data[..])
    {
      if * {
        calls := calls + [Pwrite(at, bytes, None)];
        return None;
      }
      var k: nat :| k <= |bytes|;
      Store(at, bytes[..k]);
      calls := calls + [Pwrite(at, bytes, Some(k))];
      return Some(k);
    }

    method Store(at: nat, bytes: seq<byte>)
      requires at + |bytes| <= data.Length
      modifies data
      ensures data[..] == Overwrite(old(data[..]), at, bytes)
    {
      forall i | 0 <= i < |bytes| {
        data[at + i] := bytes[i];
      }
      assert data[..] == Overwrite(old(data[..]), at, bytes);
    }

    /** os.preadv into buf[got..]: at least one byte before the end of the device, none after it, or an error. */
    method ReadAt(buf: array<byte>, got: nat, at: nat) returns (n: Option<nat>)
      requires got < buf.Length && buf != data
      modifies buf, this`calls
      ensures calls == old(calls) + [Pread(at, n)]
      ensures n.Some? ==> (n.value == 0 <==> at >= data.Length)
      ensures n.Some? && n.value > 0 ==> got + n.value <= buf.Length && at + n.value <= data.Length
      ensures n.Some? && n.value > 0 ==> buf[..] == Overwrite(old(buf[..]), got, data[at..at + n.value])
      ensures n == Some(0) ==> buf[..] == old(buf[..])
    {
      if * {
        calls := calls + [Pread(at, None)];
        return None;
      }
      if at >= data.Length {
        calls := calls + [Pread(at, Some(0))];
        return Some(0);
      }
      var k: nat :| 1 <= k && got + k <= buf.Length && at + k <= data.Length;
      forall i | 0 <= i < k {
        buf[got + i] := data[at + i];
      }
      assert buf[..] == Overwrite(old(buf[..]), got, data[at..at + k]);
      calls := calls + [Pread(at, Some(k))];
      return Some(k);
    }

    /** os.fsync: the writes settle, and the medium holds what it keeps of them; or an error. */
    method Sync(medium: seq<byte>) returns (ok: bool)
      requires |medium| == data.Length
      modifies data, this`calls
      ensures calls == old(calls) + [Fsync(ok)]
      ensures data[..] == if ok then medium else old(data[..])
    {
      ok := *;
      calls := calls + [Fsync(ok)];
      if ok {
        forall i | 0 <= i < data.Length {
          data[i] := medium[i];
        }
        assert data[..] == medium;
      }
    }
  }

  // ---- what is on the device ----

  /** The first n bytes of the image at offset 0, the rest as it was. */
  function Imaged(was: seq<byte>, iso: seq<byte>, n: nat): (r: seq<byte>)
    requires n <= |iso| && n <= |was|
    ensures |r| == |was|
  {
    iso[..n] + was[n..]
  }

  /** Zeros over the first `wiped` bytes of the last TAIL. */
  function Wiped(was: seq<byte>, wiped: nat): (r: seq<byte>)
    requires wiped <= TAIL && (wiped > 0 ==> TAIL <= |was|)
    ensures |r| == |was|
  {
    if wiped == 0 then was else Overwrite(was, |was| - TAIL, Zeros(wiped))
  }

  predicate WipesTail(size: nat, total: nat) {
    size > total + TAIL
  }

  /** Writing the next bytes of the image after the first n. */
  lemma ImagedGrows(was: seq<byte>, iso: seq<byte>, n: nat, more: nat)
    requires n + more <= |iso| && n + more <= |was|
    ensures Overwrite(Imaged(was, iso, n), n, iso[n..n + more]) == Imaged(was, iso, n + more)
  {
    assert iso[..n] + iso[n..n + more] == iso[..n + more];
    assert Imaged(was, iso, n)[n + more..] == was[n + more..];
  }

  /** Byte by byte, what a finished copy leaves. */
  lemma FinishedDevice(was: seq<byte>, iso: seq<byte>, wiped: nat, i: nat)
    requires |iso| <= |was| && i < |was|
    requires wiped <= TAIL && (wiped > 0 ==> WipesTail(|was|, |iso|))
    ensures var now := Imaged(Wiped(was, wiped), iso, |iso|);
            && iso <= now
            && now[i] == if i < |iso| then iso[i]
                         else if wiped > 0 && |was| - TAIL <= i < |was| - TAIL + wiped then 0
                         else was[i]
  {
  }

  /** The tail is blank afterwards exactly when the wipe reached every byte of it that was not blank. */
  lemma TailIsBlankIff(was: seq<byte>, iso: seq<byte>, wiped: nat)
    requires WipesTail(|was|, |iso|) && wiped <= TAIL
    ensures Imaged(Wiped(was, wiped), iso, |iso|)[|was| - TAIL..] == Zeros(TAIL)
            <==> was[|was| - TAIL + wiped..] == Zeros(TAIL - wiped)
  {
    var now := Imaged(Wiped(was, wiped), iso, |iso|);
    var from := |was| - TAIL;
    forall j: nat | j < TAIL
      ensures now[from..][j] == if j < wiped then 0 else was[from + wiped..][j - wiped]
    {
      FinishedDevice(was, iso, wiped, from + j);
    }
    if now[from..] == Zeros(TAIL) {
      var rest := was[from + wiped..];
      forall j: nat | j < |rest|
        ensures rest[j] == 0
      {
        assert now[from..][j + wiped] == was[from + wiped..][j];
      }
    }
  }

  // ---- chunks and progress ----

  /** Where chunk k of the image begins. */
  function Start(k: nat): nat {
    k * CHUNK
  }

  function End(total: nat, k: nat): nat {
    if Start(k + 1) < total then Start(k + 1) else total
  }

  /** How many chunks an image has. */
  function Chunks(total: nat): (n: nat)
    ensures Start(n) >= total && (n > 0 ==> Start(n - 1) < total)
  {
    (total + CHUNK - 1) / CHUNK
  }

  /** The `done` values of the first k progress calls. */
  function Milestones(total: nat, k: nat): (r: seq<nat>)
    ensures |r| == k
  {
    seq(k, i requires 0 <= i < k => End(total, i))
  }

  /** Progress rises with every call, stays within the total and reaches it with the last chunk. */
  lemma ProgressRises(total: nat, k: nat, i: nat, j: nat)
    requires k <= Chunks(total) && i < j < k
    ensures Milestones(total, k)[i] < Milestones(total, k)[j] <= total
    ensures Milestones(total, k)[i] == (i + 1) * 0x40_0000
    ensures k == Chunks(total) ==> Milestones(total, k)[k - 1] == total
  {
    assert Start(i + 1) <= Start(j) <= Start(k - 1) <= Start(Chunks(total) - 1);
  }

  lemma OneMoreMilestone(total: nat, k: nat)
    ensures Milestones(total, k) + [End(total, k)] == Milestones(total, k + 1)
    ensures Milestones(total, 0) == []
  {
  }

  /** Whether a stop is asked for before chunk k, counting the questions from `asked`. */
  predicate Runs(stopped: nat -> bool, asked: nat, k: nat) {
    forall i :: asked <= i < asked + k ==> !stopped(i)
  }

  lemma RunsOn(stopped: nat -> bool, asked: nat, k: nat)
    ensures Runs(stopped, asked, 0)
    ensures Runs(stopped, asked, k) && !stopped(asked + k) ==> Runs(stopped, asked, k + 1)
  {
  }

  // ---- copying ----

  /**
   * copy_image. stopped(n) is the answer to the n-th question; `wiped` is what
   * pwrite cleared, `written` how much of the image reached the device.
   */
  method CopyImage(iso: seq<byte>, device: Device, stopped: nat -> bool, asked: nat)
    returns (outcome: Outcome, reports: seq<nat>, ghost wiped: nat, ghost written: nat)
    modifies device, device.data
    ensures wiped <= TAIL && (wiped > 0 ==> WipesTail(device.data.Length, |iso|))
    ensures written <= |iso| && written <= device.data.Length
    ensures device.data[..] == Imaged(Wiped(old(device.data[..]), wiped), iso, written)
    ensures |reports| <= Chunks(|iso|) && reports == Milestones(|iso|, |reports|)
    ensures outcome != Mismatch && Runs(stopped, asked, |reports|)
    ensures outcome == Finished ==> written == |iso| && |reports| == Chunks(|iso|)
    ensures outcome == Stopped ==>
              written == |reports| * 0x40_0000 && |reports| < Chunks(|iso|) && stopped(asked + |reports|)
    ensures outcome == Failed ==> Start(|reports|) <= |iso|
    ensures old(device.calls) <= device.calls
    ensures var calls := device.calls[|old(device.calls)|..];
            && (if outcome == Failed then EndsBadly(calls) else AllWent(calls))
            && AsksForTail(calls, device.data.Length, |iso|, wiped)
            && (outcome == Finished && device.data.Length > |iso| + 0x10_0000 && calls[0].count == Some(0x10_0000) ==>
                  device.data[device.data.Length - 0x10_0000..] == Zeros(0x10_0000))
  {
    hide Imaged, Wiped, Overwrite, Milestones, WipesTail, AsksForTail, EndsBadly, AllWent, OnlyWrites, Runs;
    RunsOn(stopped, asked, 0);
    reports := [];
    OneMoreMilestone(|iso|, 0);
    written := 0;
    ghost var was := device.data[..];
    var total := |iso|;
    var ok;
    ghost var calls;
    ok, wiped, calls := WipeTail(device, total);
    NothingWritten(Wiped(was, wiped), iso);
    CallsSince(old(device.calls), calls);
    if !ok {
      return Failed, reports, wiped, 0;
    }
    device.pos := 0;
    var done: nat := 0;
    var k: nat := 0;
    while done < total
      invariant k == |reports| <= Chunks(total) && done == (if Start(k) < total then Start(k) else total)
      invariant done == device.pos == written && done <= device.data.Length
      invariant done == total ==> k == Chunks(total)
      invariant device.data[..] == Imaged(Wiped(was, wiped), iso, done)
      invariant reports == Milestones(total, k)
      invariant Runs(stopped, asked, k)
      invariant device.calls == old(device.calls) + calls && AllWent(calls)
      invariant AsksForTail(calls, device.data.Length, |iso|, wiped)
    {
      var chunk := iso[done..End(total, k)];
      if stopped(asked + k) {
        CallsSince(old(device.calls), calls);
        return Stopped, reports, wiped, done;
      }
      RunsOn(stopped, asked, k);
      ghost var more;
      ok, more := CopyChunk(chunk, device, iso, was, wiped, done);
      CallsAfter(calls, more);
      MoreWrites(calls, more, device.data.Length, |iso|, wiped);
      CallsTogether(old(device.calls), calls, more);
      calls := calls + more;
      CallsSince(old(device.calls), calls);
      written := device.pos;
      if !ok {
        return Failed, reports, wiped, written;
      }
      done := done + |chunk|;
      OneMoreMilestone(total, k);
      reports := reports + [done];
      k := k + 1;
    }
    FinishedBlank(was, iso, wiped, calls);
    CallsSince(old(device.calls), calls);
    return Finished, reports, wiped, written;
  }

  /**
   * On a device more than 1 MiB larger than the image, the first call asks for
   * zeros over its last 1 MiB, and `wiped` is what that call cleared; all other
   * calls write the image.
   */
  predicate AsksForTail(calls: seq<Call>, size: nat, total: nat, wiped: nat) {
    if size > total + 0x10_0000 then
      && calls != [] && calls[0].Pwrite? && calls[0].at == size - 0x10_0000 && calls[0].bytes == Zeros(0x10_0000)
      && wiped == calls[0].count.GetOr(0) && OnlyWrites(calls[1..])
    else wiped == 0 && OnlyWrites(calls)
  }

  lemma CallsSince(before: seq<Call>, calls: seq<Call>)
    ensures before <= before + calls && (before + calls)[|before|..] == calls
  {
  }

  lemma CallsTogether(a: seq<Call>, b: seq<Call>, c: seq<Call>)
    ensures a + b + c == a + (b + c)
  {
  }

  lemma MoreWrites(calls: seq<Call>, more: seq<Call>, size: nat, total: nat, wiped: nat)
    requires AsksForTail(calls, size, total, wiped) && OnlyWrites(more)
    ensures AsksForTail(calls + more, size, total, wiped)
  {
    hide Zeros;
    if size > total + 0x10_0000 {
      assert (calls + more)[1..] == calls[1..] + more;
    }
  }

  lemma FinishedBlank(was: seq<byte>, iso: seq<byte>, wiped: nat, calls: seq<Call>)
    requires AsksForTail(calls, |was|, |iso|, wiped) && |iso| <= |was| && wiped <= TAIL
    requires wiped > 0 ==> WipesTail(|was|, |iso|)
    ensures |was| > |iso| + 0x10_0000 && calls[0].count == Some(0x10_0000) ==>
              Imaged(Wiped(was, wiped), iso, |iso|)[|was| - 0x10_0000..] == Zeros(0x10_0000)
  {
    hide Imaged, Wiped, Zeros;
    if |was| > |iso| + 0x10_0000 && calls[0].count == Some(0x10_0000) {
      TailIsBlankIff(was, iso, wiped);
      assert was[|was|..] == Zeros(0);
    }
  }

  /** The backup partition table of the drive's old layout goes first; pwrite's count is not looked at. */
  method WipeTail(device: Device, total: nat) returns (ok: bool, ghost wiped: nat, ghost asks: seq<Call>)
    modifies device.data, device`calls
    ensures wiped <= TAIL && (wiped > 0 ==> ok && WipesTail(device.data.Length, total))
    ensures device.data[..] == Wiped(old(device.data[..]), wiped)
    ensures device.calls == old(device.calls) + asks && AsksForTail(asks, device.data.Length, total, wiped)
    ensures if ok then AllWent(asks) else EndsBadly(asks)
  {
    wiped, asks := 0, [];
    var size := device.data.Length;
    if WipesTail(size, total) {
      var n := device.WriteAt(Zeros(TAIL), size - TAIL);
      asks := [Pwrite(size - TAIL, Zeros(TAIL), n)];
      if n.None? {
        return false, 0, asks;
      }
      wiped := n.value;
      assert Zeros(TAIL)[..wiped] == Zeros(wiped);
    }
    return true, wiped, asks;
  }

  lemma NothingWritten(was: seq<byte>, iso: seq<byte>)
    ensures Imaged(was, iso, 0) == was
  {
  }

  /** One chunk, written in as many calls as the device needs. */
  method CopyChunk(chunk: seq<byte>, device: Device, ghost iso: seq<byte>, ghost was: seq<byte>, ghost wiped: nat,
                   ghost from: nat) returns (ok: bool, ghost writes: seq<Call>)
    requires wiped <= TAIL && (wiped > 0 ==> TAIL <= |was|) && |was| == device.data.Length
    requires device.pos == from <= |was| && from + |chunk| <= |iso| && iso[from..from + |chunk|] == chunk
    requires device.data[..] == Imaged(Wiped(was, wiped), iso, from)
    modifies device, device.data
    ensures from <= device.pos <= from + |chunk| && device.pos <= |was|
    ensures ok ==> device.pos == from + |chunk|
    ensures device.data[..] == Imaged(Wiped(was, wiped), iso, device.pos)
    ensures device.calls == old(device.calls) + writes && OnlyWrites(writes)
    ensures if ok then AllWent(writes) else EndsBadly(writes)
  {
    hide Imaged, Wiped, Overwrite, EndsBadly, AllWent;
    writes := [];
    NoneWrong();
    var view := chunk;
    while view != []
      invariant from <= device.pos <= from + |chunk| && device.pos <= |was|
      invariant view == iso[device.pos..from + |chunk|]
      invariant device.data[..] == Imaged(Wiped(was, wiped), iso, device.pos)
      invariant device.calls == old(device.calls) + writes && OnlyWrites(writes) && AllWent(writes)
      decreases |view|
    {
      ghost var at := device.pos;
      var n := device.Write(view);
      OneCall(Wrote(at, view, n));
      CallsAfter(writes, [Wrote(at, view, n)]);
      writes := writes + [Wrote(at, view, n)];
      if n.None? {
        return false, writes;
      }
      assert view[..n.value] == iso[at..at + n.value];
      ImagedGrows(Wiped(was, wiped), iso, at, n.value);
      view := view[n.value..];
    }
    return true, writes;
  }

  lemma NoneWrong()
    ensures AllWent([])
  {
  }

  // ---- reading back ----

  /** The device and the image agree on the first k chunks. */
  predicate Agrees(data: seq<byte>, iso: seq<byte>, k: nat) {
    var n := if Start(k) < |iso| then Start(k) else |iso|;
    n <= |data| && data[..n] == iso[..n]
  }

  lemma AgreesAtFirst(data: seq<byte>, iso: seq<byte>)
    ensures Agrees(data, iso, 0)
  {
  }

  lemma WholeImageAgrees(data: seq<byte>, iso: seq<byte>, k: nat)
    requires Agrees(data, iso, k) && Start(k) >= |iso|
    ensures iso <= data
  {
    assert data[..|iso|] == iso[..|iso|];
  }

  /** verify_image, through one buffer that every chunk reuses. */
  method VerifyImage(iso: seq<byte>, device: Device, stopped: nat -> bool, asked: nat)
    returns (outcome: Outcome, reports: seq<nat>, ghost preads: seq<Call>)
    modifies device`calls
    ensures device.calls == old(device.calls) + preads && OnlyReads(preads)
    ensures if outcome == Failed then EndsBadly(preads) else AllWent(preads)
    ensures |reports| <= Chunks(|iso|) && reports == Milestones(|iso|, |reports|)
    ensures Agrees(device.data[..], iso, |reports|) && Runs(stopped, asked, |reports|)
    ensures outcome == Finished ==> iso <= device.data[..] && |reports| == Chunks(|iso|)
    ensures outcome == Mismatch ==> !(iso <= device.data[..]) && !Agrees(device.data[..], iso, |reports| + 1)
    ensures outcome == Stopped ==> stopped(asked + |reports|) && |reports| < Chunks(|iso|)
  {
    hide Agrees, Milestones, EndsBadly, AllWent;
    reports, preads := [], [];
    NoneWrong();
    AgreesAtFirst(device.data[..], iso);
    OneMoreMilestone(|iso|, 0);
    var total := |iso|;
    var buf := new byte[CHUNK];
    var done: nat := 0;
    var k: nat := 0;
    while done < total
      invariant k == |reports| <= Chunks(total) && done == (if Start(k) < total then Start(k) else total)
      invariant done == total ==> k == Chunks(total)
      invariant fresh(buf)
      invariant reports == Milestones(total, k)
      invariant Runs(stopped, asked, k)
      invariant Agrees(device.data[..], iso, k)
      invariant device.calls == old(device.calls) + preads && OnlyReads(preads) && AllWent(preads)
    {
      var chunk := iso[done..End(total, k)];
      if stopped(asked + k) {
        return Stopped, reports, preads;
      }
      var got;
      ghost var more;
      got, more := Fill(buf, device, done, |chunk|);
      CallsAfter(preads, more);
      preads := preads + more;
      if got.None? {
        return Failed, reports, preads;
      }
      ChunkDecides(device.data[..], iso, k, buf[..], got.value);
      if got.value < |chunk| || buf[..|chunk|] != chunk {
        return Mismatch, reports, preads;
      }
      done := done + |chunk|;
      OneMoreMilestone(total, k);
      reports := reports + [done];
      k := k + 1;
    }
    WholeImageAgrees(device.data[..], iso, k);
    return Finished, reports, preads;
  }

  lemma OneMoreRead(before: seq<byte>, buf: seq<byte>, data: seq<byte>, at: nat, n: nat, more: nat)
    requires n + more <= |before| && at + n + more <= |data|
    requires n > 0 ==> before[..n] == data[at..at + n]
    requires buf == Overwrite(before, n, data[at + n..at + n + more])
    ensures buf[..n + more] == data[at..at + n + more]
  {
    assert data[at..at + n + more] == data[at..at + n] + data[at + n..at + n + more];
  }

  /** Reads until `want` bytes are there, or nothing more comes; it may read on past them. */
  method Fill(buf: array<byte>, device: Device, at: nat, want: nat) returns (got: Option<nat>, ghost preads: seq<Call>)
    requires 0 < want <= buf.Length && buf != device.data
    modifies buf, device`calls
    ensures device.calls == old(device.calls) + preads && OnlyReads(preads)
    ensures if got.None? then EndsBadly(preads) else AllWent(preads)
    ensures got.Some? ==> got.value <= buf.Length && (got.value > 0 ==> at + got.value <= device.data.Length)
    ensures got.Some? && got.value > 0 ==> buf[..got.value] == device.data[at..at + got.value]
    ensures got.Some? && got.value < want ==> at + got.value >= device.data.Length
  {
    hide Overwrite, EndsBadly, AllWent;
    preads := [];
    NoneWrong();
    var n: nat := 0;
    while n < want
      invariant device.calls == old(device.calls) + preads && OnlyReads(preads) && AllWent(preads)
      invariant n <= buf.Length && (n > 0 ==> at + n <= device.data.Length)
      invariant n > 0 ==> buf[..n] == device.data[at..at + n]
      decreases buf.Length - n
    {
      ghost var before := buf[..];
      var more := device.ReadAt(buf, n, at + n);
      OneCall(Pread(at + n, more));
      CallsAfter(preads, [Pread(at + n, more)]);
      preads := preads + [Pread(at + n, more)];
      if more.None? {
        return None, preads;
      }
      if more.value == 0 {
        break;
      }
      OneMoreRead(before, buf[..], device.data[..], at, n, more.value);
      n := n + more.value;
    }
    return Some(n), preads;
  }

  /** The comparison of one chunk decides whether the agreement goes one chunk further. */
  lemma ChunkDecides(data: seq<byte>, iso: seq<byte>, k: nat, buf: seq<byte>, got: nat)
    requires Start(k) < |iso| && Agrees(data, iso, k) && |buf| == CHUNK && got <= CHUNK
    requires got > 0 ==> Start(k) + got <= |data| && buf[..got] == data[Start(k)..Start(k) + got]
    requires got < End(|iso|, k) - Start(k) ==> Start(k) + got >= |data|
    ensures Agrees(data, iso, k + 1)
            <==> !(got < End(|iso|, k) - Start(k) || buf[..End(|iso|, k) - Start(k)] != iso[Start(k)..End(|iso|, k)])
    ensures iso <= data ==> Agrees(data, iso, k + 1)
  {
    var from, to := Start(k), End(|iso|, k);
    var n := to - from;
    assert Start(k + 1) == from + CHUNK;
    assert iso[..to] == iso[..from] + iso[from..to];
    if got >= n {
      assert buf[..n] == buf[..got][..n] == data[from..from + got][..n] == data[from..to];
      assert data[..to] == data[..from] + data[from..to];
      if data[..to] == iso[..to] {
        assert data[from..to] == data[..to][from..] == iso[..to][from..] == iso[from..to];
      }
    }
    if iso <= data {
      assert data[..to] == data[..|iso|][..to] == iso[..to];
    }
  }

  // ---- write_image ----

  /** Writes, then one sync that succeeded, then reads. */
  predicate SyncedOnce(calls: seq<Call>, verify: bool) {
    exists k :: 0 <= k < |calls| && SyncedAt(calls, k) && (!verify ==> k == |calls| - 1)
  }

  predicate SyncedAt(calls: seq<Call>, k: nat)
    requires k < |calls|
  {
    && calls[k] == Fsync(true) && OnlyReads(calls[k + 1..])
    && forall i :: 0 <= i < k ==> calls[i].Wrote? || calls[i].Pwrite?
  }

  lemma TheySync(writes: seq<Call>, preads: seq<Call>, size: nat, total: nat, wiped: nat)
    requires AsksForTail(writes, size, total, wiped) && OnlyReads(preads)
    ensures SyncedOnce(writes + [Fsync(true)] + preads, true)
    ensures preads == [] ==> SyncedOnce(writes + [Fsync(true)] + preads, false)
  {
    hide Zeros;
    var calls, k := writes + [Fsync(true)] + preads, |writes|;
    assert calls[k + 1..] == preads;
    forall i | 0 <= i < k
      ensures calls[i].Wrote? || calls[i].Pwrite?
    {
      if size > total + 0x10_0000 && i > 0 {
        assert writes[1..][i - 1] == calls[i];
      }
    }
    assert SyncedAt(calls, k);
  }

  /**
   * write_image: copy, sync, read back. kept(d) is what the medium holds after
   * d was written to it, so a faithful drive has kept(d) == d.
   */
  method WriteImage(iso: seq<byte>, device: Device, stopped: nat -> bool, verify: bool, kept: seq<byte> -> seq<byte>)
    returns (outcome: Outcome, ghost wiped: nat, ghost written: nat)
    requires forall d :: |kept(d)| == |d|
    modifies device, device.data
    ensures wiped <= TAIL && (wiped > 0 ==> WipesTail(device.data.Length, |iso|))
    ensures written <= |iso| && written <= device.data.Length
    ensures var sent := Imaged(Wiped(old(device.data[..]), wiped), iso, written);
            && device.data[..] in {sent, kept(sent)}
            && (outcome in {Finished, Mismatch} ==> written == |iso| && device.data[..] == kept(sent))
            && (kept(sent) == sent ==> outcome != Mismatch)
    ensures outcome == Finished && verify ==> iso <= device.data[..]
    ensures outcome == Mismatch ==> verify && !(iso <= device.data[..])
    ensures outcome == Finished ==> Runs(stopped, 0, if verify then 2 * Chunks(|iso|) else Chunks(|iso|))
    ensures old(device.calls) <= device.calls
    ensures var calls := device.calls[|old(device.calls)|..];
            && (if outcome == Failed then EndsBadly(calls) else AllWent(calls))
            && (outcome in {Finished, Mismatch} ==> SyncedOnce(calls, verify))
  {
    hide AsksForTail, EndsBadly, AllWent, OnlyReads, SyncedOnce, Imaged, Wiped, Milestones, Agrees, Runs;
    ghost var was := device.data[..];
    var reports;
    outcome, reports, wiped, written := CopyImage(iso, device, stopped, 0);
    ghost var writes, before := device.calls[|old(device.calls)|..], old(device.calls);
    assert device.calls == before + writes;
    RunsTogether(stopped, |reports|);
    if outcome != Finished {
      return outcome, wiped, written;
    }
    var ok := device.Sync(kept(device.data[..]));
    OneCall(Fsync(ok));
    CallsAfter(writes, [Fsync(ok)]);
    assert device.calls == before + (writes + [Fsync(ok)]);
    if !ok {
      return Failed, wiped, written;
    }
    ghost var preads: seq<Call> := [];
    ImagedStarts(Wiped(was, wiped), iso);
    NoReads();
    if verify {
      outcome, reports, preads := VerifyImage(iso, device, stopped, Chunks(|iso|));
    }
    CallsAfter(writes + [Fsync(ok)], preads);
    assert device.calls == before + (writes + [Fsync(true)] + preads);
    NoneWrong();
    TheySync(writes, preads, device.data.Length, |iso|, wiped);
    EmptyReads(writes + [Fsync(true)], preads);
  }

  lemma RunsTogether(stopped: nat -> bool, k: nat)
    ensures Runs(stopped, 0, k) && Runs(stopped, k, k) ==> Runs(stopped, 0, 2 * k)
  {
  }

  lemma ImagedStarts(was: seq<byte>, iso: seq<byte>)
    ensures |iso| <= |was| ==> iso <= Imaged(was, iso, |iso|)
  {
  }

  lemma NoReads()
    ensures OnlyReads([])
  {
  }

  lemma EmptyReads(calls: seq<Call>, preads: seq<Call>)
    ensures preads == [] ==> calls + preads == calls
  {
  }
}
