/** The size-rotated log file and its chain of backups. */
module LogFile {
  import opened Bytes
  import opened Sequences

  const MAX_FILE_BYTES: nat := 10 * 1024 * 1024
  const MAX_BACKUPS: nat := 3

  /** The directory: slot 0 is the log file, slot n its n-th backup. */
  type Disk = map<nat, seq<Byte>>

  datatype Log = Log(disk: Disk, bytesWritten: nat)

  /** Slot `n` has a file after a rotation. */
  predicate Filled(disk: Disk, n: nat) {
    1 <= n <= MAX_BACKUPS && n - 1 in disk
  }

  /** Every file one slot older; what was in the oldest slot is gone. */
  function Rotated(disk: Disk): Disk {
    map n: nat | n <= MAX_BACKUPS && Filled(disk, n) :: disk[n - 1]
  }

  function Opened(disk: Disk): Log {
    Log(Rotated(disk)[0 := []], 0)
  }

  function Written(log: Log, buf: seq<Byte>, taken: nat): Log
    requires 0 in log.disk && taken <= |buf|
  {
    var ready := if log.bytesWritten + |buf| <= MAX_FILE_BYTES then log else Opened(log.disk);
    Log(ready.disk[0 := ready.disk[0] + buf[..taken]], ready.bytesWritten + taken)
  }

  /** Half-way through a rotation: the files above slot `i` have moved up, slot `i` is free. */
  ghost predicate Shifted(was: Disk, disk: Disk, i: nat) {
    && (forall n: nat :: n in disk <==> (n < i && n in was) || (i < n && Filled(was, n)))
    && (forall n: nat :: n < i && n in disk ==> disk[n] == was[n])
    && (forall n: nat :: i < n && n in disk ==> Filled(was, n) && disk[n] == was[n - 1])
  }

  lemma ShiftStep(was: Disk, disk: Disk, i: nat)
    requires i < MAX_BACKUPS && Shifted(was, disk, i + 1)
    ensures Shifted(was, if i in disk then (disk - {i})[i + 1 := disk[i]] else disk, i)
  {
    assert Filled(was, i + 1) <==> i in was;
  }

  lemma ShiftBegins(was: Disk)
    requires forall n :: n in was ==> n <= MAX_BACKUPS
    ensures Shifted(was, was - {MAX_BACKUPS}, MAX_BACKUPS)
  {
  }

  lemma ShiftEnds(was: Disk, disk: Disk)
    requires Shifted(was, disk, 0)
    ensures disk == Rotated(was)
  {
  }

  class RotatingFile {
    var disk: Disk
    var bytesWritten: nat

    function State(): Log
      reads this
    {
      Log(disk, bytesWritten)
    }

    constructor Open(found: Disk)
      requires forall n :: n in found ==> n <= MAX_BACKUPS
      ensures State() == Opened(found)
    {
      disk, bytesWritten := found, 0;
      new;
      RotateBackups();
      disk := disk[0 := []];
    }

    method Rename(src: nat, dst: nat)
      requires src in disk && src != dst
      modifies this
      ensures disk == (old(disk) - {src})[dst := old(disk)[src]] && bytesWritten == old(bytesWritten)
    {
      disk := (disk - {src})[dst := disk[src]];
    }

    method RotateBackups()
      requires forall n :: n in disk ==> n <= MAX_BACKUPS
      modifies this
      ensures disk == Rotated(old(disk)) && bytesWritten == old(bytesWritten)
    {
      ShiftBegins(disk);
      disk := disk - {MAX_BACKUPS};
      for i := MAX_BACKUPS downto 1
        invariant bytesWritten == old(bytesWritten)
        invariant Shifted(old(disk), disk, i)
      {
        ShiftStep(old(disk), disk, i);
        if i in disk {
          Rename(i, i + 1);
        }
      }
      ShiftStep(old(disk), disk, 0);
      if 0 in disk {
        Rename(0, 1);
      }
      ShiftEnds(old(disk), disk);
    }

    method MaybeRotate(incoming: nat)
      requires forall n :: n in disk ==> n <= MAX_BACKUPS
      modifies this
      ensures State() == if old(bytesWritten) + incoming <= MAX_FILE_BYTES then old(State()) else Opened(old(disk))
    {
      if bytesWritten + incoming <= MAX_FILE_BYTES {
        return;
      }
      RotateBackups();
      disk := disk[0 := []];
      bytesWritten := 0;
    }

    /** `taken` is what the operating system accepts of `buf`. */
    method Write(buf: seq<Byte>, taken: nat) returns (n: nat)
      requires 0 in disk && forall n :: n in disk ==> n <= MAX_BACKUPS
      requires taken <= |buf|
      modifies this
      ensures n == taken && State() == Written(old(State()), buf, taken)
    {
      MaybeRotate(|buf|);
      disk := disk[0 := disk[0] + buf[..taken]];
      n := taken;
      bytesWritten := bytesWritten + n;
    }
  }

  // ---- Runs ----

  datatype Call = Call(buf: seq<Byte>, taken: nat)

  predicate Legal(calls: seq<Call>) {
    forall i :: 0 <= i < |calls| ==> calls[i].taken <= |calls[i].buf|
  }

  /** The log after opening it over the files found and a run of calls to `write`. */
  function After(found: Disk, calls: seq<Call>): (log: Log)
    requires Legal(calls)
    ensures 0 in log.disk && forall n :: n in log.disk ==> n <= MAX_BACKUPS
  {
    if calls == [] then Opened(found)
    else
      var last := calls[|calls| - 1];
      Written(After(found, calls[..|calls| - 1]), last.buf, last.taken)
  }

  function Slot(disk: Disk, n: nat): seq<seq<Byte>> {
    if n in disk then [disk[n]] else []
  }

  /** The files from slot `n` down to the log file, oldest first. */
  function Chain(disk: Disk, n: nat): seq<seq<Byte>> {
    Slot(disk, n) + if n == 0 then [] else Chain(disk, n - 1)
  }

  function Files(disk: Disk): seq<seq<Byte>> { Chain(disk, MAX_BACKUPS) }

  function Flatten(files: seq<seq<Byte>>): seq<Byte> {
    if files == [] then [] else Flatten(files[..|files| - 1]) + files[|files| - 1]
  }

  /** Everything the operating system took, in order. */
  function Output(calls: seq<Call>): seq<Byte>
    requires Legal(calls)
  {
    if calls == [] then []
    else
      var last := calls[|calls| - 1];
      Output(calls[..|calls| - 1]) + last.buf[..last.taken]
  }

  // ---- No byte is lost but in whole oldest files ----

  /** Every file the log ever had, oldest first: those found, then one for each rotation of the run. */
  function Segments(found: Disk, calls: seq<Call>): (segments: seq<seq<Byte>>)
    requires Legal(calls)
    ensures |segments| > |Files(found)|
  {
    if calls == [] then Files(found) + [[]]
    else
      var before, last := calls[..|calls| - 1], calls[|calls| - 1];
      var so, taken := Segments(found, before), last.buf[..last.taken];
      if After(found, before).bytesWritten + |last.buf| <= MAX_FILE_BYTES
      then so[..|so| - 1] + [so[|so| - 1] + taken]
      else so + [taken]
  }

  lemma FlattenSnoc(files: seq<seq<Byte>>, file: seq<Byte>)
    ensures Flatten(files + [file]) == Flatten(files) + file
  {
    assert (files + [file])[..|files|] == files;
  }

  lemma FlattenGrow(init: seq<seq<Byte>>, last: seq<Byte>, more: seq<Byte>)
    ensures Flatten(init + [last + more]) == Flatten(init + [last]) + more
  {
    FlattenSnoc(init, last + more);
    FlattenSnoc(init, last);
    ConcatAssociates(Flatten(init), last, more);
  }

  lemma SegmentsGrow(found: Disk, before: seq<Call>, call: Call)
    requires Legal(before) && call.taken <= |call.buf|
    ensures Flatten(Segments(found, before + [call])) == Flatten(Segments(found, before)) + call.buf[..call.taken]
  {
    var so, taken := Segments(found, before), call.buf[..call.taken];
    assert (before + [call])[..|before|] == before;
    if After(found, before).bytesWritten + |call.buf| <= MAX_FILE_BYTES {
      var init, last := so[..|so| - 1], so[|so| - 1];
      assert init + [last] == so;
      FlattenGrow(init, last, taken);
    } else {
      FlattenSnoc(so, taken);
    }
  }

  lemma OutputSnoc(before: seq<Call>, call: Call)
    requires Legal(before) && Legal(before + [call]) && call.taken <= |call.buf|
    ensures Output(before + [call]) == Output(before) + call.buf[..call.taken]
  {
    assert (before + [call])[..|before|] == before;
  }

  /** All files there ever were hold what was found and everything the operating system took. */
  ghost predicate EverythingHeld(found: Disk, calls: seq<Call>)
    requires Legal(calls)
  {
    Flatten(Segments(found, calls)) == Flatten(Files(found)) + Output(calls)
  }

  lemma EverythingGrows(found: Disk, before: seq<Call>, call: Call)
    requires Legal(before) && Legal(before + [call]) && call.taken <= |call.buf|
    ensures EverythingHeld(found, before) ==> EverythingHeld(found, before + [call])
  {
    SegmentsGrow(found, before, call);
    OutputSnoc(before, call);
    ConcatAssociates(Flatten(Files(found)), Output(before), call.buf[..call.taken]);
  }

  lemma NothingHeldYet(found: Disk)
    ensures EverythingHeld(found, [])
  {
    FlattenSnoc(Files(found), []);
  }

  lemma {:induction false} SegmentsHoldEverything(found: Disk, calls: seq<Call>)
    requires Legal(calls)
    ensures EverythingHeld(found, calls)
  {
    if calls == [] {
      NothingHeldYet(found);
    } else {
      var before, last := calls[..|calls| - 1], calls[|calls| - 1];
      SegmentsHoldEverything(found, before);
      assert before + [last] == calls;
      EverythingGrows(found, before, last);
    }
  }

  lemma {:induction false} ChainMovesUp(disk: Disk, moved: Disk, n: nat)
    requires n < MAX_BACKUPS && 0 in moved
    requires forall m: nat :: 0 < m <= MAX_BACKUPS ==> (m in moved <==> m - 1 in disk)
    requires forall m: nat :: 0 < m <= MAX_BACKUPS && m in moved ==> moved[m] == disk[m - 1]
    ensures Chain(moved, n + 1) == Chain(disk, n) + [moved[0]]
  {
    assert n + 1 in moved <==> n in disk;
    if n > 0 {
      ChainMovesUp(disk, moved, n - 1);
    } else {
      assert Chain(moved, 0) == [moved[0]];
    }
  }

  lemma OpenedSlots(disk: Disk)
    ensures var moved := Opened(disk).disk;
      && 0 in moved && moved[0] == []
      && (forall m: nat :: 0 < m <= MAX_BACKUPS ==> (m in moved <==> m - 1 in disk))
      && (forall m: nat :: 0 < m <= MAX_BACKUPS && m in moved ==> moved[m] == disk[m - 1])
  {
    forall m: nat | 0 < m <= MAX_BACKUPS
      ensures m in Opened(disk).disk <==> m - 1 in disk
    {
      assert Filled(disk, m) <==> m - 1 in disk;
    }
  }

  /** A rotation drops the oldest file if its slot was taken, and adds an empty one. */
  lemma RotationDropsOldest(disk: Disk)
    ensures Files(Opened(disk).disk) == Files(disk)[if MAX_BACKUPS in disk then 1 else 0..] + [[]]
  {
    OpenedSlots(disk);
    ChainMovesUp(disk, Opened(disk).disk, MAX_BACKUPS - 1);
  }

  lemma ChainStep(disk: Disk, n: nat)
    requires n > 0
    ensures Chain(disk, n) == Slot(disk, n) + Chain(disk, n - 1)
  {
  }

  lemma {:induction false} ChainEnds(disk: Disk, n: nat)
    requires 0 in disk
    ensures Chain(disk, n) != [] && Chain(disk, n)[|Chain(disk, n)| - 1] == disk[0]
  {
    if n > 0 {
      ChainEnds(disk, n - 1);
      ChainStep(disk, n);
    } else {
      assert Chain(disk, 0) == [disk[0]];
    }
  }

  /** `u` is `c` with its last entry replaced. */
  ghost predicate LastReplaced(c: seq<seq<Byte>>, u: seq<seq<Byte>>, file: seq<Byte>) {
    c != [] && u == c[..|c| - 1] + [file]
  }

  lemma LastReplacedBehind(first: seq<seq<Byte>>, c: seq<seq<Byte>>, u: seq<seq<Byte>>, file: seq<Byte>)
    requires LastReplaced(c, u, file)
    ensures LastReplaced(first + c, first + u, file)
  {
    assert (first + c)[..|first + c| - 1] == first + c[..|c| - 1];
  }

  lemma {:induction false} ChainUpdate(disk: Disk, n: nat, file: seq<Byte>)
    requires 0 in disk
    ensures LastReplaced(Chain(disk, n), Chain(disk[0 := file], n), file)
  {
    if n > 0 {
      ChainUpdate(disk, n - 1, file);
      ChainStep(disk, n);
      ChainStep(disk[0 := file], n);
      assert Slot(disk[0 := file], n) == Slot(disk, n);
      LastReplacedBehind(Slot(disk, n), Chain(disk, n - 1), Chain(disk[0 := file], n - 1), file);
    } else {
      assert Chain(disk, 0) == [disk[0]];
      assert Chain(disk[0 := file], 0) == [file];
    }
  }

  ghost predicate IsTail(files: seq<seq<Byte>>, segments: seq<seq<Byte>>) {
    0 < |files| <= |segments| && files == segments[|segments| - |files|..]
  }

  lemma AppendKeepsTail(disk: Disk, file: seq<Byte>, segments: seq<seq<Byte>>)
    requires 0 in disk && IsTail(Files(disk), segments)
    ensures IsTail(Files(disk[0 := file]), segments[..|segments| - 1] + [file])
  {
    ChainUpdate(disk, MAX_BACKUPS, file);
  }

  lemma RotateKeepsTail(disk: Disk, segments: seq<seq<Byte>>)
    requires IsTail(Files(disk), segments)
    ensures IsTail(Files(Opened(disk).disk), segments + [[]])
  {
    RotationDropsOldest(disk);
    TailShifts(Files(disk), segments, if MAX_BACKUPS in disk then 1 else 0);
  }

  lemma TailShifts(files: seq<seq<Byte>>, segments: seq<seq<Byte>>, k: nat)
    requires IsTail(files, segments) && k <= 1
    ensures IsTail(files[k..] + [[]], segments + [[]])
  {
  }

  lemma RotateAppendKeepsTail(disk: Disk, file: seq<Byte>, segments: seq<seq<Byte>>)
    requires IsTail(Files(disk), segments)
    ensures IsTail(Files(Opened(disk).disk[0 := file]), segments + [file])
  {
    RotateKeepsTail(disk, segments);
    AppendKeepsTail(Opened(disk).disk, file, segments + [[]]);
    assert (segments + [[]])[..|segments|] == segments;
  }

  lemma GrowKeepsTail(disk: Disk, more: seq<Byte>, segments: seq<seq<Byte>>)
    requires 0 in disk && IsTail(Files(disk), segments)
    ensures IsTail(Files(disk[0 := disk[0] + more]), segments[..|segments| - 1] + [segments[|segments| - 1] + more])
  {
    ChainEnds(disk, MAX_BACKUPS);
    AppendKeepsTail(disk, disk[0] + more, segments);
  }

  lemma WriteKeepsTail(log: Log, buf: seq<Byte>, taken: nat, segments: seq<seq<Byte>>)
    requires 0 in log.disk && taken <= |buf| && IsTail(Files(log.disk), segments)
    ensures IsTail(Files(Written(log, buf, taken).disk),
      if log.bytesWritten + |buf| <= MAX_FILE_BYTES
      then segments[..|segments| - 1] + [segments[|segments| - 1] + buf[..taken]]
      else segments + [buf[..taken]])
  {
    if log.bytesWritten + |buf| <= MAX_FILE_BYTES {
      GrowKeepsTail(log.disk, buf[..taken], segments);
    } else {
      RotateAppendKeepsTail(log.disk, buf[..taken], segments);
      assert [] + buf[..taken] == buf[..taken];
    }
  }

  lemma FilesAtOpen(found: Disk)
    ensures IsTail(Files(Opened(found).disk), Files(found) + [[]])
  {
    RotationDropsOldest(found);
  }

  /** Backups and log file, oldest to newest, are the last of all files there ever were: together with
      `SegmentsHoldEverything`, what is lost is whole files, the oldest ones. */
  lemma {:induction false} FilesAreTail(found: Disk, calls: seq<Call>)
    requires Legal(calls)
    ensures IsTail(Files(After(found, calls).disk), Segments(found, calls))
  {
    if calls == [] {
      FilesAtOpen(found);
    } else {
      var before, last := calls[..|calls| - 1], calls[|calls| - 1];
      FilesAreTail(found, before);
      WriteKeepsTail(After(found, before), last.buf, last.taken, Segments(found, before));
    }
  }

  lemma {:induction false} FlattenConcat(a: seq<seq<Byte>>, b: seq<seq<Byte>>)
    ensures Flatten(a + b) == Flatten(a) + Flatten(b)
  {
    if b == [] {
      assert a + b == a;
    } else {
      var init, last := b[..|b| - 1], b[|b| - 1];
      FlattenConcat(a, init);
      FlattenSnoc(a + init, last);
      assert a + b == (a + init) + [last];
      ConcatAssociates(Flatten(a), Flatten(init), last);
    }
  }

  lemma BeforeTail(files: seq<seq<Byte>>, segments: seq<seq<Byte>>) returns (lost: seq<seq<Byte>>)
    requires IsTail(files, segments)
    ensures lost + files == segments && lost <= segments
  {
    lost := segments[..|segments| - |files|];
  }

  /** The bytes on disk are a suffix of what was found and everything written since. */
  lemma DiskIsSuffix(found: Disk, calls: seq<Call>) returns (lost: seq<seq<Byte>>)
    requires Legal(calls)
    ensures lost <= Segments(found, calls)
    ensures Flatten(lost) + Flatten(Files(After(found, calls).disk)) == Flatten(Files(found)) + Output(calls)
  {
    var segments, files := Segments(found, calls), Files(After(found, calls).disk);
    SegmentsHoldEverything(found, calls);
    FilesAreTail(found, calls);
    lost := BeforeTail(files, segments);
    FlattenConcat(lost, files);
  }

  // ---- The counter and the size limit ----

  /** How many of the run's writes went to the file that is now the log file. */
  function WritesInFile(found: Disk, calls: seq<Call>): nat
    requires Legal(calls)
  {
    if calls == [] then 0
    else
      var before := calls[..|calls| - 1];
      if After(found, before).bytesWritten + |calls[|calls| - 1].buf| <= MAX_FILE_BYTES
      then WritesInFile(found, before) + 1
      else 1
  }

  /** The counter is the log file's length, and only a single write makes the file larger than the limit. */
  lemma {:induction false} CounterIsLength(found: Disk, calls: seq<Call>)
    requires Legal(calls)
    ensures var log := After(found, calls);
      && log.bytesWritten == |log.disk[0]|
      && (|log.disk[0]| > MAX_FILE_BYTES ==> WritesInFile(found, calls) == 1)
  {
    if calls != [] {
      CounterIsLength(found, calls[..|calls| - 1]);
    }
  }

  // ---- How much is kept ----

  ghost predicate AllTaken(calls: seq<Call>) {
    forall i :: 0 <= i < |calls| ==> calls[i].taken == |calls[i].buf|
  }

  /** Files of this run that follow each other hold more than the limit together. */
  ghost predicate PairsFull(segments: seq<seq<Byte>>, from: nat) {
    forall i :: from <= i < |segments| - 1 ==> |segments[i]| + |segments[i + 1]| > MAX_FILE_BYTES
  }

  lemma LastSegment(found: Disk, calls: seq<Call>)
    requires Legal(calls)
    ensures var segments := Segments(found, calls);
      |segments[|segments| - 1]| == After(found, calls).bytesWritten
  {
    FilesAreTail(found, calls);
    ChainEnds(After(found, calls).disk, MAX_BACKUPS);
    CounterIsLength(found, calls);
  }

  lemma PairsGrow(so: seq<seq<Byte>>, from: nat, more: seq<Byte>)
    requires so != [] && PairsFull(so, from)
    ensures PairsFull(so[..|so| - 1] + [so[|so| - 1] + more], from)
  {
  }

  lemma PairsSnoc(so: seq<seq<Byte>>, from: nat, file: seq<Byte>)
    requires so != [] && PairsFull(so, from) && |so[|so| - 1]| + |file| > MAX_FILE_BYTES
    ensures PairsFull(so + [file], from)
  {
  }

  lemma {:induction false} RunFillsPairs(found: Disk, calls: seq<Call>)
    requires Legal(calls) && AllTaken(calls)
    ensures PairsFull(Segments(found, calls), |Files(found)|)
  {
    if calls != [] {
      var before, last := calls[..|calls| - 1], calls[|calls| - 1];
      RunFillsPairs(found, before);
      LastSegment(found, before);
      var so := Segments(found, before);
      assert last.buf[..last.taken] == last.buf;
      if After(found, before).bytesWritten + |last.buf| <= MAX_FILE_BYTES {
        PairsGrow(so, |Files(found)|, last.buf);
      } else {
        PairsSnoc(so, |Files(found)|, last.buf);
      }
    }
  }

  lemma {:induction false} SlotsFill(found: Disk, calls: seq<Call>)
    requires Legal(calls)
    ensures var rotations := |Segments(found, calls)| - 1 - |Files(found)|;
      forall n: nat :: n <= rotations && n <= MAX_BACKUPS ==> n in After(found, calls).disk
  {
    if calls != [] {
      var before, last := calls[..|calls| - 1], calls[|calls| - 1];
      SlotsFill(found, before);
      OpenedSlots(After(found, before).disk);
    }
  }

  lemma FullChain(disk: Disk)
    requires forall n: nat :: n <= MAX_BACKUPS ==> n in disk
    ensures Files(disk) == [disk[3], disk[2], disk[1], disk[0]]
  {
    assert Chain(disk, 0) == [disk[0]];
    assert Chain(disk, 1) == [disk[1], disk[0]];
    assert Chain(disk, 2) == [disk[2], disk[1], disk[0]];
  }

  /** If writes are taken whole, a file of this run is given up only while the files kept hold more than
      twice the limit. */
  lemma KeepsTwiceTheLimit(found: Disk, calls: seq<Call>)
    requires Legal(calls) && AllTaken(calls)
    requires |Segments(found, calls)| - |Files(After(found, calls).disk)| > |Files(found)|
    ensures |Flatten(Files(After(found, calls).disk))| > 2 * MAX_FILE_BYTES
  {
    var segments, disk := Segments(found, calls), After(found, calls).disk;
    FilesAreTail(found, calls);
    RunFillsPairs(found, calls);
    SlotsFill(found, calls);
    ManySlots(disk, |segments| - 1 - |Files(found)|);
    FullChain(disk);
    var files := Files(disk);
    var n := |segments|;
    assert files[0] == segments[n - 4] && files[1] == segments[n - 3] && files[2] == segments[n - 2] && files[3] == segments[n - 1];
    FlattenFour(files[0], files[1], files[2], files[3]);
  }

  lemma {:induction false} ChainLength(disk: Disk, n: nat, filled: nat)
    requires filled <= n && forall m: nat :: m <= filled ==> m in disk
    ensures |Chain(disk, n)| > filled
  {
    if n > filled {
      ChainLength(disk, n - 1, filled);
    } else if n > 0 {
      ChainLength(disk, n - 1, filled - 1);
    }
  }

  lemma ManySlots(disk: Disk, rotations: nat)
    requires forall n: nat :: n <= rotations && n <= MAX_BACKUPS ==> n in disk
    requires rotations >= |Files(disk)|
    ensures rotations >= MAX_BACKUPS
  {
    ChainLength(disk, MAX_BACKUPS, if rotations <= MAX_BACKUPS then rotations else MAX_BACKUPS);
  }

  lemma FlattenFour(a: seq<Byte>, b: seq<Byte>, c: seq<Byte>, d: seq<Byte>)
    ensures Flatten([a, b, c, d]) == a + b + c + d
  {
    FlattenSnoc([], a);
    FlattenSnoc([a], b);
    FlattenSnoc([a, b], c);
    FlattenSnoc([a, b, c], d);
    assert [] + [a] == [a] && [a] + [b] == [a, b] && [a, b] + [c] == [a, b, c] && [a, b, c] + [d] == [a, b, c, d];
  }
}
