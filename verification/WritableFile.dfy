/** PosixWritableFile of base/env_posix.cc over an abstract file: system calls may fail, be interrupted or write less
than they were given.
*/
module WritableFiles {

  const IOV_MAX := 1024

  type uint8 = x: int | 0 <= x < 256

  datatype Errno = EINTR | ENOENT | EEXIST | EOPNOTSUPP | ENOSYS | EIO | ENOSPC | EBADF

  datatype Status = OK | NotFound | AlreadyPresent | NotSupported | IOError

  function IOErrorOf(errno: Errno): (s: Status)
    ensures s != OK && (s == NotFound <==> errno == ENOENT)
    ensures (s == AlreadyPresent <==> errno == EEXIST) && (s == NotSupported <==> errno == EOPNOTSUPP)
  {
    match errno
    case ENOENT => NotFound
    case EEXIST => AlreadyPresent
    case EOPNOTSUPP => NotSupported
    case _ => IOError
  }

  datatype SystemCall = Write | Allocate | Truncate | Synchronize | Release

  /** A system call that did not do all it was asked to. */
  datatype Failure = Failed(call: SystemCall, errno: Errno) | WroteShort

  /** Failures that the program may pass over: it repeats an interrupted write or truncation, and goes on without
      fallocate where there is none. */
  predicate Ignored(f: Failure) {
    match f
    case Failed(Write, errno) => errno == EINTR
    case Failed(Truncate, errno) => errno == EINTR
    case Failed(Allocate, errno) => errno == EOPNOTSUPP || errno == ENOSYS
    case _ => false
  }

  function StatusOf(f: Failure): (s: Status)
    ensures s != OK
  {
    if f.Failed? then IOErrorOf(f.errno) else IOError
  }

  /** The status of the first failure that matters, or OK. */
  function Verdict(failures: seq<Failure>): Status {
    if failures == [] then OK
    else if Ignored(failures[0]) then Verdict(failures[1..])
    else StatusOf(failures[0])
  }

  lemma {:induction false} VerdictAppends(a: seq<Failure>, b: seq<Failure>)
    ensures Verdict(a + b) == if Verdict(a) == OK then Verdict(b) else Verdict(a)
  {
    if a == [] {
      assert a + b == b;
    } else {
      assert (a + b)[1..] == a[1..] + b;
      VerdictAppends(a[1..], b);
    }
  }

  /** s is the verdict on what failed between two histories: OK exactly if nothing that matters did. */
  ghost predicate Judged(before: seq<Failure>, after: seq<Failure>, s: Status) {
    before <= after && s == Verdict(after[|before|..])
  }

  lemma JudgedThen(before: seq<Failure>, mid: seq<Failure>, after: seq<Failure>, s: Status, s': Status)
    requires Judged(before, mid, s) && Judged(mid, after, s')
    ensures Judged(before, after, if s == OK then s' else s)
  {
    assert after[|before|..] == mid[|before|..] + after[|mid|..];
    VerdictAppends(mid[|before|..], after[|mid|..]);
  }

  lemma JudgedNothing(before: seq<Failure>)
    ensures Judged(before, before, OK)
  {
  }

  lemma JudgedRelease(before: seq<Failure>, after: seq<Failure>, ret: int, errno: Errno)
    requires after == before + if ret == -1 then [Failed(Release, errno)] else []
    requires ret == 0 || ret == -1
    ensures Judged(before, after, if ret < 0 then IOErrorOf(errno) else OK)
  {
    JudgedOne(before, Failed(Release, errno));
  }

  lemma JudgedOne(before: seq<Failure>, f: Failure)
    ensures Judged(before, before, OK) && Judged(before, before + [f], if Ignored(f) then OK else StatusOf(f))
  {
    assert (before + [f])[|before|..] == [f];
    assert [f][1..] == [];
  }

  function Concat(slices: seq<seq<uint8>>): seq<uint8> {
    if slices == [] then [] else Concat(slices[..|slices| - 1]) + slices[|slices| - 1]
  }

  lemma {:induction false} ConcatAppends(a: seq<seq<uint8>>, b: seq<seq<uint8>>)
    ensures Concat(a + b) == Concat(a) + Concat(b)
  {
    if b == [] {
      assert a + b == a;
    } else {
      var rest := b[..|b| - 1];
      ConcatAppends(a, rest);
      assert (a + b)[..|a + b| - 1] == a + rest;
    }
  }

  /** b with the bytes from offset on replaced by d; what lies beyond stays. */
  function Overwritten(b: seq<uint8>, offset: nat, d: seq<uint8>): seq<uint8>
    requires offset <= |b|
  {
    b[..offset] + d + (if offset + |d| <= |b| then b[offset + |d|..] else [])
  }

  function Zeros(n: nat): seq<uint8> { seq(n, _ => 0) }

  /** What the kernel knows about the file. `stable` is the content at the latest successful sync: what survives a
      crash. Calls are interrupted only finitely often. */
  class KernelFile {
    var bytes: seq<uint8>
    ghost var stable: seq<uint8>
    var interrupts: nat
    ghost var failures: seq<Failure>       // all calls so far that failed or wrote short
    ghost var closes: seq<int>             // the descriptors that close(2) was called for

    constructor (bytes: seq<uint8>, interrupts: nat)
      ensures this.bytes == bytes && stable == [] && failures == [] && closes == []
    {
      this.bytes, stable, this.interrupts, failures, closes := bytes, [], interrupts, [], [];
    }

    /** Some errno; EINTR uses up one of the interrupts. */
    method Fail(mayInterrupt: bool) returns (errno: Errno)
      modifies `interrupts
      ensures interrupts <= old(interrupts)
      ensures errno == EINTR ==> mayInterrupt && interrupts < old(interrupts)
    {
      errno := *;
      if errno == EINTR {
        var again: bool := *;
        if mayInterrupt && again {
          if interrupts == 0 {
            errno := EIO;
          } else {
            interrupts := interrupts - 1;
          }
        } else {
          errno := EIO;
        }
      }
    }

    /** pwritev(2): a prefix of the bytes is written, or nothing. */
    method Pwritev(fd: int, iov: seq<seq<uint8>>, offset: nat) returns (written: int, errno: Errno)
      requires offset <= |bytes|
      modifies `bytes, `interrupts, `failures
      ensures failures == old(failures) + if written == -1 then [Failed(Write, errno)]
                                          else if written < |Concat(iov)| then [WroteShort] else []
      ensures -1 <= written <= |Concat(iov)| && (fd < 0 ==> written == -1)
      ensures bytes == if written < 0 then old(bytes) else Overwritten(old(bytes), offset, Concat(iov)[..written])
      ensures interrupts <= old(interrupts)
      ensures written == -1 && errno == EINTR ==> interrupts < old(interrupts)
    {
      var w: int := *;
      if fd < 0 || w < 0 || w > |Concat(iov)| {
        errno := Fail(true);
        failures := failures + [Failed(Write, errno)];
        return -1, errno;
      }
      bytes := Overwritten(bytes, offset, Concat(iov)[..w]);
      failures := failures + if w < |Concat(iov)| then [WroteShort] else [];
      return w, EIO;
    }

    /** fallocate(2) with mode 0: the file reaches at least to offset + size, filled up with zeros. */
    method Fallocate(fd: int, offset: nat, size: nat) returns (ret: int, errno: Errno)
      modifies `bytes, `interrupts, `failures
      ensures failures == old(failures) + if ret == -1 then [Failed(Allocate, errno)] else []
      ensures ret == 0 || ret == -1
      ensures (fd < 0 ==> ret == -1 && errno == EBADF) && (size == 0 ==> ret == -1)
      ensures bytes == if ret == 0 && offset + size > |old(bytes)| then old(bytes) + Zeros(offset + size - |old(bytes)|)
                       else old(bytes)
    {
      if fd < 0 {
        failures := failures + [Failed(Allocate, EBADF)];
        return -1, EBADF;
      }
      var works: bool := *;
      if !works || size == 0 {
        errno := Fail(true);
        failures := failures + [Failed(Allocate, errno)];
        return -1, errno;
      }
      if offset + size > |bytes| {
        bytes := bytes + Zeros(offset + size - |bytes|);
      }
      return 0, EIO;
    }

    /** ftruncate(2) to a length that is not beyond the end. */
    method Ftruncate(fd: int, length: nat) returns (ret: int, errno: Errno)
      requires length <= |bytes|
      modifies `bytes, `interrupts, `failures
      ensures failures == old(failures) + if ret == -1 then [Failed(Truncate, errno)] else []
      ensures ret == 0 || ret == -1
      ensures fd < 0 ==> ret == -1
      ensures bytes == if ret == 0 then old(bytes)[..length] else old(bytes)
      ensures interrupts <= old(interrupts)
      ensures ret == -1 && errno == EINTR ==> interrupts < old(interrupts)
    {
      var works: bool := *;
      if fd < 0 || !works {
        errno := Fail(true);
        failures := failures + [Failed(Truncate, errno)];
        return -1, errno;
      }
      bytes := bytes[..length];
      return 0, EIO;
    }

    /** fsync(2) or fdatasync(2). */
    method Fsync(fd: int) returns (ret: int, errno: Errno)
      modifies `stable, `failures
      ensures failures == old(failures) + if ret == -1 then [Failed(Synchronize, errno)] else []
      ensures ret == 0 || ret == -1
      ensures fd < 0 ==> ret == -1
      ensures stable == if ret == 0 then bytes else old(stable)
    {
      var works: bool := *;
      if fd < 0 || !works {
        errno := *;
        failures := failures + [Failed(Synchronize, errno)];
        return -1, errno;
      }
      stable := bytes;
      return 0, EIO;
    }

    /** close(2). */
    method CloseFd(fd: int) returns (ret: int, errno: Errno)
      modifies `failures, `closes
      ensures failures == old(failures) + if ret == -1 then [Failed(Release, errno)] else []
      ensures closes == old(closes) + [fd]
      ensures ret == 0 || ret == -1
      ensures fd < 0 ==> ret == -1
    {
      var works: bool := *;
      errno := *;
      ret := if fd >= 0 && works then 0 else -1;
      failures := failures + if ret == -1 then [Failed(Release, errno)] else [];
      closes := closes + [fd];
    }
  }

  class PosixWritableFile {
    const file: KernelFile
    const start: nat           // the size at the time of opening
    const syncOnClose: bool
    const neverFsync: bool     // the flag never_fsync
    const useFsync: bool       // the flag env_use_fsync
    var fd: int
    var filesize: nat
    var preAllocatedSize: nat
    var pendingSync: bool
    ghost var syncFailed: bool // the latest sync system call failed

    /** The file ends with the bytes written, but for zeros that were preallocated; if nothing is pending, what was
        written is on disk or the last sync failed. */
    ghost predicate Valid()
      reads this, file`bytes, file`stable
    {
      && start <= filesize <= |file.bytes|
      && Overhang()
      && (!pendingSync && !neverFsync && !syncFailed ==> Durable())
    }

    ghost function Written(): seq<uint8>
      requires filesize <= |file.bytes|
      reads this, file`bytes, file`stable
    {
      file.bytes[..filesize]
    }

    /** Everything written through this object survives a crash. */
    ghost predicate Durable()
      reads this, file`bytes, file`stable
    {
      || start == filesize
      || (start <= filesize <= |file.bytes| && filesize <= |file.stable|
          && file.stable[start..filesize] == file.bytes[start..filesize])
    }

    constructor (file: KernelFile, fd: int, filesize: nat, syncOnClose: bool, neverFsync: bool, useFsync: bool)
      requires filesize == |file.bytes|
      ensures Valid() && this.file == file && start == filesize && Written() == file.bytes
      ensures this.filesize == filesize && !pendingSync && !syncFailed && preAllocatedSize == 0 && this.fd == fd
      ensures this.syncOnClose == syncOnClose && this.neverFsync == neverFsync && this.useFsync == useFsync
    {
      this.file, start, this.syncOnClose, this.neverFsync, this.useFsync := file, filesize, syncOnClose, neverFsync, useFsync;
      this.fd, this.filesize, preAllocatedSize, pendingSync, syncFailed := fd, filesize, 0, false, false;
    }

    /** The part of Valid about the end of the file. */
    ghost predicate Overhang()
      reads this, file`bytes, file`stable
    {
      && |file.bytes| <= (if filesize < preAllocatedSize then preAllocatedSize else filesize)
      && (forall i :: filesize <= i < |file.bytes| ==> file.bytes[i] == 0)
    }

    /** pwritev at the end of what is written, again as long as it is interrupted. */
    method PwritevRetried(iov: seq<seq<uint8>>) returns (written: int, errno: Errno)
      requires filesize <= |file.bytes|
      modifies file`bytes, file`interrupts, file`failures
      ensures -1 <= written <= |Concat(iov)| && (fd < 0 ==> written == -1)
      ensures file.bytes == if written < 0 then old(file.bytes) else Overwritten(old(file.bytes), filesize, Concat(iov)[..written])
      ensures written == -1 ==> errno != EINTR
      ensures Judged(old(file.failures), file.failures, WriteStatus(written, |Concat(iov)|, errno))
    {
      ghost var before := file.failures;
      written, errno := file.Pwritev(fd, iov, filesize);
      JudgedWrite(before, file.failures, written, |Concat(iov)|, errno);
      while written == -1 && errno == EINTR
        invariant -1 <= written <= |Concat(iov)| && (fd < 0 ==> written == -1)
        invariant written < 0 ==> file.bytes == old(file.bytes)
        invariant written >= 0 ==> file.bytes == Overwritten(old(file.bytes), filesize, Concat(iov)[..written])
        invariant Judged(before, file.failures, WriteStatus(written, |Concat(iov)|, errno))
        decreases file.interrupts + (if written == -1 && errno == EINTR then 1 else 0)
      {
        ghost var mid := file.failures;
        written, errno := file.Pwritev(fd, iov, filesize);
        JudgedWrite(mid, file.failures, written, |Concat(iov)|, errno);
        JudgedThen(before, mid, file.failures, OK, WriteStatus(written, |Concat(iov)|, errno));
      }
    }

    /** One chunk of at most IOV_MAX slices. */
    method DoWritev(dataVector: seq<seq<uint8>>, offset: nat, n: nat) returns (s: Status)
      requires offset + n <= |dataVector| && n <= IOV_MAX && start <= filesize <= |file.bytes| && Overhang()
      modifies this`filesize, file`bytes, file`interrupts, file`failures
      ensures start <= filesize <= |file.bytes| && Overhang()
      ensures Judged(old(file.failures), file.failures, s)
      ensures Appended(old(Written()), Written(), Concat(dataVector[offset..offset + n]), s == OK)
    {
      var iov, nbytes := [], 0;
      for i := offset to offset + n
        invariant iov == dataVector[offset..i] && nbytes == |Concat(iov)|
      {
        assert dataVector[offset..i + 1][..i - offset] == dataVector[offset..i];
        iov := iov + [dataVector[i]];
        nbytes := nbytes + |dataVector[i]|;
      }
      s := WriteOut(iov, nbytes);
    }

    /** The rest of DoWritev, once the slices are gathered. */
    method WriteOut(iov: seq<seq<uint8>>, nbytes: nat) returns (s: Status)
      requires nbytes == |Concat(iov)| && start <= filesize <= |file.bytes| && Overhang()
      modifies this`filesize, file`bytes, file`interrupts, file`failures
      ensures start <= filesize <= |file.bytes| && Overhang()
      ensures Judged(old(file.failures), file.failures, s)
      ensures Appended(old(Written()), Written(), Concat(iov), s == OK)
    {
      hide Judged, Overwritten, Concat;
      var written, errno := PwritevRetried(iov);
      if written == -1 {
        return IOErrorOf(errno);
      }
      WrittenAtEnd(old(file.bytes), filesize, Concat(iov)[..written]);
      filesize := filesize + written;
      if written != nbytes {
        return IOError;
      }
      return OK;
    }

    /** Any number of slices, in chunks of IOV_MAX: what is appended is a prefix of their concatenation, and OK means
        all of it. */
    method AppendVector(dataVector: seq<seq<uint8>>) returns (s: Status)
      requires Valid()
      modifies this`filesize, this`pendingSync, file`bytes, file`interrupts, file`failures
      ensures Valid() && pendingSync
      ensures Judged(old(file.failures), file.failures, s)
      ensures Appended(old(Written()), Written(), Concat(dataVector), s == OK)
    {
      s := OK;
      var i := 0;
      ghost var failures := file.failures;
      while i < |dataVector| && s == OK
        invariant Judged(failures, file.failures, s)
        invariant start <= filesize <= |file.bytes| && Overhang()
        invariant Progress(old(Written()), Written(), dataVector, i, s)
      {
        var n := if |dataVector| - i < IOV_MAX then |dataVector| - i else IOV_MAX;
        ghost var before, mid := Written(), file.failures;
        s := DoWritev(dataVector, i, n);
        JudgedThen(failures, mid, file.failures, OK, s);
        ChunkIsProgress(old(Written()), before, Written(), dataVector, i, n, s);
        i := i + IOV_MAX;
      }
      ProgressIsAppended(old(Written()), Written(), dataVector, i, s);
      pendingSync := true;
    }

    method Append(data: seq<uint8>) returns (s: Status)
      requires Valid()
      modifies this`filesize, this`pendingSync, file`bytes, file`interrupts, file`failures
      ensures Valid() && pendingSync
      ensures Judged(old(file.failures), file.failures, s)
      ensures Appended(old(Written()), Written(), data, s == OK)
    {
      s := AppendVector([data]);
      assert Concat([data]) == Concat([]) + data;
    }

    /** The space may be missing although the answer is OK: a file system without fallocate is only logged. */
    method PreAllocate(size: nat) returns (s: Status)
      requires Valid()
      modifies this`preAllocatedSize, file`bytes, file`interrupts, file`failures
      ensures Judged(old(file.failures), file.failures, s)
      ensures Valid() && Written() == old(Written()) && old(file.bytes) <= file.bytes
      ensures s == OK ==> preAllocatedSize == (if filesize < old(preAllocatedSize) then old(preAllocatedSize) else filesize) + size
      ensures s != OK ==> preAllocatedSize == old(preAllocatedSize) && file.bytes == old(file.bytes)
      ensures file.failures == old(file.failures) ==> |file.bytes| >= preAllocatedSize
      ensures s != NotSupported
    {
      var offset := if filesize < preAllocatedSize then preAllocatedSize else filesize;
      var ret, errno := file.Fallocate(fd, offset, size);
      JudgedOne(old(file.failures), Failed(Allocate, errno));
      if ret < 0 {
        if errno != EOPNOTSUPP && errno != ENOSYS {
          return IOErrorOf(errno);
        }
      }
      preAllocatedSize := offset + size;
      return OK;
    }

    method DoSync() returns (s: Status)
      requires filesize <= |file.bytes|
      modifies file`stable, this`syncFailed, file`failures
      ensures Judged(old(file.failures), file.failures, s)
      ensures if neverFsync then s == OK && file.stable == old(file.stable) && syncFailed == old(syncFailed)
              else syncFailed == (s != OK) && file.stable == if s == OK then file.bytes else old(file.stable)
      ensures fd < 0 && !neverFsync ==> s != OK
    {
      if neverFsync {
        return OK;
      }
      var ret, errno := file.Fsync(fd);
      JudgedOne(old(file.failures), Failed(Synchronize, errno));
      syncFailed := ret < 0;
      if ret < 0 {
        return IOErrorOf(errno);
      }
      return OK;
    }

    /** OK means that everything written is on disk, unless syncing is switched off, or nothing was pending after a
        failed sync. */
    method Sync() returns (s: Status)
      requires Valid()
      modifies this`pendingSync, this`syncFailed, file`stable, file`failures
      ensures Judged(old(file.failures), file.failures, s)
      ensures Valid() && !pendingSync
      ensures s == OK && !neverFsync && (old(pendingSync) || !old(syncFailed)) ==> Durable()
      ensures !old(pendingSync) ==> s == OK && file.stable == old(file.stable) && syncFailed == old(syncFailed)
      ensures old(pendingSync) && !neverFsync ==>
        syncFailed == (s != OK) && file.stable == if s == OK then file.bytes else old(file.stable)
      ensures neverFsync ==> s == OK && file.stable == old(file.stable) && syncFailed == old(syncFailed)
    {
      if pendingSync {
        pendingSync := false;
        s := DoSync();
        if s != OK {
          return s;
        }
      }
      return OK;
    }

    /** ftruncate to the size written, again as long as it is interrupted. */
    method FtruncateRetried() returns (ret: int, errno: Errno)
      requires filesize <= |file.bytes|
      modifies file`bytes, file`interrupts, file`failures
      ensures ret == 0 || ret == -1
      ensures fd < 0 ==> ret == -1
      ensures file.bytes == if ret == 0 then old(file.bytes)[..filesize] else old(file.bytes)
      ensures Judged(old(file.failures), file.failures, if ret == 0 then OK else IOErrorOf(errno))
    {
      ghost var before := file.failures;
      ret, errno := file.Ftruncate(fd, filesize);
      JudgedOne(before, Failed(Truncate, errno));
      while ret == -1 && errno == EINTR
        invariant ret == 0 || ret == -1
        invariant fd < 0 ==> ret == -1
        invariant file.bytes == if ret == 0 then old(file.bytes)[..filesize] else old(file.bytes)
        invariant Judged(before, file.failures, if ret == 0 || errno == EINTR then OK else IOErrorOf(errno))
        decreases file.interrupts + (if ret == -1 && errno == EINTR then 1 else 0)
      {
        ghost var mid := file.failures;
        ret, errno := file.Ftruncate(fd, filesize);
        JudgedOne(mid, Failed(Truncate, errno));
        JudgedThen(before, mid, file.failures, OK, if ret == 0 || errno == EINTR then OK else IOErrorOf(errno));
      }
    }

    /** The start of Close: the file is cut off where the bytes written end. */
    method CutOff() returns (s: Status)
      requires Valid()
      modifies this`pendingSync, file`bytes, file`interrupts, file`failures
      ensures Valid() && Written() == old(Written())
      ensures Judged(old(file.failures), file.failures, s)
      ensures if s == OK then file.bytes == Written() && pendingSync == old(pendingSync)
              else file.bytes == old(file.bytes) && pendingSync
      ensures fd < 0 && filesize < preAllocatedSize ==> s != OK
      ensures filesize >= preAllocatedSize ==> s == OK && file.failures == old(file.failures)
    {
      hide Judged, IOErrorOf;
      s := OK;
      JudgedNothing(file.failures);
      if filesize < preAllocatedSize {
        var ret, errno := FtruncateRetried();
        if ret != 0 {
          s := IOErrorOf(errno);
          pendingSync := true;
        }
      }
    }

    /** OK means that the file is as long as what was written, whatever was preallocated, and that it is on disk as
        far as Sync says so. A successful truncation leaves nothing pending, though. */
    method Close() returns (s: Status)
      requires Valid()
      modifies this`pendingSync, this`syncFailed, this`fd, file`bytes, file`interrupts, file`stable, file`failures, file`closes
      ensures Judged(old(file.failures), file.failures, s)
      ensures file.closes == old(file.closes) + [old(fd)]
      ensures Valid() && fd == -1 && Written() == old(Written())
      ensures s == OK ==> file.bytes == Written() && old(fd) >= 0
      ensures s == OK && syncOnClose && !neverFsync && (old(pendingSync) || !old(syncFailed)) ==> Durable()
      ensures s == OK && syncOnClose && !neverFsync && old(pendingSync) ==> file.stable == file.bytes
      ensures s == OK && (!syncOnClose || neverFsync || !old(pendingSync)) ==> file.stable == old(file.stable)
      ensures s == OK && syncOnClose && !neverFsync && old(file.stable == file.bytes) ==>
        (file.stable == file.bytes <==> old(pendingSync) || old(|file.bytes|) == filesize)
    {
      hide Judged, IOErrorOf;
      ghost var before := file.failures;
      s := CutOff();
      if syncOnClose {
        ghost var mid := file.failures;
        var syncStatus := Sync();
        JudgedThen(before, mid, file.failures, s, syncStatus);
        if syncStatus != OK && s == OK {
          s := syncStatus;
        }
      }
      ghost var mid := file.failures;
      var ret, errno := file.CloseFd(fd);
      JudgedRelease(mid, file.failures, ret, errno);
      JudgedThen(before, mid, file.failures, s, if ret < 0 then IOErrorOf(errno) else OK);
      if ret < 0 && s == OK {
        s := IOErrorOf(errno);
      }
      fd := -1;
    }
  }

  /** After a sync that failed, the next one says OK without doing anything. */
  method SyncAgain(f: PosixWritableFile) returns (first: Status, second: Status)
    requires f.Valid() && f.pendingSync && !f.neverFsync && !f.Durable()
    modifies f`pendingSync, f`syncFailed, f.file`stable, f.file`failures
    ensures f.Valid()
    ensures first == OK ==> f.Durable() && second == OK
    ensures first != OK ==> second == OK && !f.Durable()
  {
    first := f.Sync();
    second := f.Sync();
  }

  /** What the outcome of a write amounts to. */
  function WriteStatus(written: int, nbytes: nat, errno: Errno): Status {
    if written == -1 then if errno == EINTR then OK else IOErrorOf(errno)
    else if written < nbytes then IOError
    else OK
  }

  lemma JudgedWrite(before: seq<Failure>, after: seq<Failure>, written: int, nbytes: nat, errno: Errno)
    requires after == before + if written == -1 then [Failed(Write, errno)] else if written < nbytes then [WroteShort] else []
    ensures Judged(before, after, WriteStatus(written, nbytes, errno))
  {
    JudgedOne(before, if written == -1 then Failed(Write, errno) else WroteShort);
  }

  lemma WrittenAtEnd(b: seq<uint8>, offset: nat, d: seq<uint8>)
    requires offset <= |b|
    ensures offset + |d| <= |Overwritten(b, offset, d)| && Overwritten(b, offset, d)[..offset + |d|] == b[..offset] + d
    ensures |Overwritten(b, offset, d)| == if offset + |d| <= |b| then |b| else offset + |d|
    ensures forall i :: offset + |d| <= i < |b| ==> Overwritten(b, offset, d)[i] == b[i]
  {
  }

  /** What an append of data leaves: a prefix of it is added, all of it if the append was OK. */
  ghost predicate Appended(before: seq<uint8>, after: seq<uint8>, data: seq<uint8>, ok: bool) {
    && |before| <= |after| <= |before| + |data|
    && after == before + data[..|after| - |before|]
    && (ok ==> |after| == |before| + |data|)
  }

  /** The state of an append before the chunk at position i. */
  ghost predicate Progress(before: seq<uint8>, now: seq<uint8>, v: seq<seq<uint8>>, i: nat, s: Status) {
    if s == OK then now == before + Concat(if i < |v| then v[..i] else v)
    else Appended(before, now, Concat(v), false)
  }

  lemma ChunkIsProgress(before: seq<uint8>, now: seq<uint8>, next: seq<uint8>, v: seq<seq<uint8>>, i: nat, n: nat, s: Status)
    requires i < |v| && n == (if |v| - i < IOV_MAX then |v| - i else IOV_MAX)
    requires Progress(before, now, v, i, OK) && Appended(now, next, Concat(v[i..i + n]), s == OK)
    ensures Progress(before, next, v, i + IOV_MAX, s)
  {
    assert v[..i + n] == v[..i] + v[i..i + n];
    ConcatAppends(v[..i], v[i..i + n]);
    var rest := v[i + n..];
    assert v == v[..i + n] + rest;
    ConcatAppends(v[..i + n], rest);
    assert i + n == |v| ==> v[..i + n] == v;
  }

  lemma ProgressIsAppended(before: seq<uint8>, now: seq<uint8>, v: seq<seq<uint8>>, i: nat, s: Status)
    requires Progress(before, now, v, i, s) && (s == OK ==> i >= |v|)
    ensures Appended(before, now, Concat(v), s == OK)
  {
  }
}
