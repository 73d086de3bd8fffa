/** The part of the operating system the event objects rely on: anonymous
    pipes (pipe(2)), eventfd counters (eventfd(2) created with flags 0, so
    blocking and without EFD_SEMAPHORE), the descriptor table, and the
    read(2), write(2), close(2) and select(2) calls made on them. Every
    descriptor is blocking, as os.pipe() and eventfd(0, 0) create them; a
    call that would wait for another thread is reported as Blocks. */
module Kernel {
  import opened Bytes

  type Fd = nat

  /** Default capacity of a Linux pipe buffer (pipe(7)). */
  const PIPE_CAPACITY: nat := 65536
  /** Largest value an eventfd counter can hold (eventfd(2)). */
  const EVENTFD_MAX: nat := 0xffff_ffff_ffff_fffe
  /** Number of descriptors an fd_set holds; select.select refuses any
      descriptor at or above it with ValueError before calling select(2). */
  const FD_SETSIZE: nat := 1024

  /** An open kernel object: the bytes buffered in a pipe, or the value of
      an eventfd counter. */
  datatype File = Pipe(buffer: seq<byte>) | Counter(count: nat)

  datatype Access = ReadOnly | WriteOnly | ReadWrite

  /** A descriptor table entry: which file it refers to and how. */
  datatype Descriptor = Descriptor(file: nat, access: Access)

  datatype Errno = EBADF | EINVAL

  /** What a system call does: returns a value, waits (for good, as far as
      the calling thread alone can tell), or fails with an errno. */
  datatype Syscall<T> = Done(value: T) | Blocks | Fails(errno: Errno)

  /** select(2) readiness for reading. */
  predicate Readable(f: File)
  {
    match f
    case Pipe(buffer) => buffer != []
    case Counter(count) => count > 0
  }

  /** read(2) of n bytes from f on a host of byte order e: the bytes read
      and the file afterwards. A pipe gives the oldest bytes first; an
      eventfd gives its whole counter and resets it to 0. */
  function ReadFile(f: File, n: nat, e: Endian): (r: Syscall<(seq<byte>, File)>)
    ensures r.Blocks? <==> !Readable(f) && n > 0 && !(f.Counter? && n < U64_BYTES)
    ensures r.Fails? <==> f.Counter? && n < U64_BYTES
    ensures r.Done? && f.Pipe? ==>
      r.value.1.Pipe? && r.value.0 + r.value.1.buffer == f.buffer && |r.value.0| <= n &&
      (r.value.0 == [] ==> n == 0)
    ensures r.Done? && f.Counter? ==>
      r.value.1 == Counter(0) && |r.value.0| == U64_BYTES &&
      (f.count <= U64_MAX ==> Value(e, r.value.0) == f.count)
  {
    match f
    case Pipe(buffer) =>
      if n == 0 then Done(([], f))
      else if buffer == [] then Blocks
      else
        var k := if n < |buffer| then n else |buffer|;
        assert buffer[..k] + buffer[k..] == buffer;
        Done((buffer[..k], Pipe(buffer[k..])))
    case Counter(count) =>
      if n < U64_BYTES then Fails(EINVAL)
      else if count == 0 then Blocks
      else
        assert count <= U64_MAX ==> Value(e, Encode(e, count, U64_BYTES)) == count by {
          U64Range();
          if count <= U64_MAX { ValueOfEncode(e, count, U64_BYTES); }
        }
        Done((Encode(e, count, U64_BYTES), Counter(0)))
  }

  /** write(2) of data to f on a host of byte order e: the count written and
      the file afterwards. A pipe appends the bytes if they all fit (writes
      are atomic); an eventfd adds the 8-byte value to its counter unless
      that would exceed EVENTFD_MAX, in which case the writer waits. */
  function WriteFile(f: File, data: seq<byte>, e: Endian): (r: Syscall<(nat, File)>)
    ensures r.Fails? <==> f.Counter? && (|data| < U64_BYTES || Value(e, data[..U64_BYTES]) == U64_MAX)
    ensures r.Done? && f.Pipe? ==>
      r.value == (|data|, Pipe(f.buffer + data)) && (data != [] ==> |f.buffer + data| <= PIPE_CAPACITY)
    ensures r.Done? && f.Counter? ==>
      r.value == (U64_BYTES, Counter(f.count + Value(e, data[..U64_BYTES]))) &&
      r.value.1.count <= EVENTFD_MAX
    ensures r.Blocks? && f.Pipe? ==> |f.buffer| + |data| > PIPE_CAPACITY
    ensures r.Blocks? && f.Counter? ==> f.count + Value(e, data[..U64_BYTES]) > EVENTFD_MAX
  {
    match f
    case Pipe(buffer) =>
      if data == [] then assert buffer + data == buffer; Done((0, f))
      else if |buffer| + |data| > PIPE_CAPACITY then Blocks
      else Done((|data|, Pipe(buffer + data)))
    case Counter(count) =>
      if |data| < U64_BYTES then Fails(EINVAL)
      else
        var v := Value(e, data[..U64_BYTES]);
        if v == U64_MAX then Fails(EINVAL)
        else if count + v > EVENTFD_MAX then Blocks
        else Done((U64_BYTES, Counter(count + v)))
  }

  /** Writing eight bytes whose value is a legal increment that keeps the
      counter within its limit adds that value to the counter. */
  lemma CounterWrite(count: nat, data: seq<byte>, e: Endian)
    requires |data| == U64_BYTES && Value(e, data) != U64_MAX
    requires count + Value(e, data) <= EVENTFD_MAX
    ensures WriteFile(Counter(count), data, e) == Done((U64_BYTES, Counter(count + Value(e, data))))
  {
    assert data[..U64_BYTES] == data;
  }

  /** If every number below n is in keys, keys has at least n members. */
  lemma {:induction false} CountBelow(keys: set<Fd>, n: nat)
    requires forall k: Fd :: k < n ==> k in keys
    ensures n <= |keys|
  {
    if n > 0 {
      CountBelow(keys - {n - 1}, n - 1);
    }
  }

  /** The descriptor table and the open files of one process. */
  class Kernel {
    const endian: Endian
    var files: map<nat, File>
    var fds: map<Fd, Descriptor>
    var nextFile: nat

    ghost predicate Valid()
      reads this
    {
      (forall fd | fd in fds :: fds[fd].file in files) &&
      (forall id | id in files :: id < nextFile)
    }

    constructor (endian: Endian)
      ensures Valid() && this.endian == endian
      ensures files == map[] && fds == map[]
    {
      this.endian := endian;
      files, fds, nextFile := map[], map[], 0;
    }

    /** The lowest-numbered descriptor not currently open, which is the one
        pipe(2) and eventfd(2) hand out. */
    method LowestFreeFd() returns (fd: Fd)
      ensures fd !in fds
      ensures forall k: Fd :: k < fd ==> k in fds
      ensures fd <= |fds|
    {
      fd := 0;
      while fd in fds
        invariant forall k: Fd :: k < fd ==> k in fds
        decreases |fds.Keys| - fd
      {
        CountBelow(fds.Keys, fd + 1);
        fd := fd + 1;
      }
      CountBelow(fds.Keys, fd);
    }

    /** pipe(2): a new empty pipe with a read end and a write end. */
    method OpenPipe() returns (r: Fd, w: Fd)
      requires Valid()
      modifies this
      ensures Valid()
      ensures r !in old(fds) && w !in old(fds) && r != w
      ensures r <= |old(fds)| && w <= |old(fds)| + 1
      ensures files == old(files)[old(nextFile) := Pipe([])]
      ensures fds == old(fds)[r := Descriptor(old(nextFile), ReadOnly)][w := Descriptor(old(nextFile), WriteOnly)]
      ensures nextFile == old(nextFile) + 1
    {
      var id := nextFile;
      files := files[id := Pipe([])];
      nextFile := nextFile + 1;
      r := LowestFreeFd();
      fds := fds[r := Descriptor(id, ReadOnly)];
      w := LowestFreeFd();
      fds := fds[w := Descriptor(id, WriteOnly)];
    }

    /** eventfd(0, 0): a new counter at 0 behind one read-write descriptor. */
    method OpenEventFd() returns (fd: Fd)
      requires Valid()
      modifies this
      ensures Valid()
      ensures fd !in old(fds) && fd <= |old(fds)|
      ensures files == old(files)[old(nextFile) := Counter(0)]
      ensures fds == old(fds)[fd := Descriptor(old(nextFile), ReadWrite)]
      ensures nextFile == old(nextFile) + 1
    {
      var id := nextFile;
      files := files[id := Counter(0)];
      nextFile := nextFile + 1;
      fd := LowestFreeFd();
      fds := fds[fd := Descriptor(id, ReadWrite)];
    }

    /** read(2) of up to n bytes from fd. */
    method Read(fd: Fd, n: nat) returns (r: Syscall<seq<byte>>)
      requires Valid()
      modifies this
      ensures Valid() && fds == old(fds) && nextFile == old(nextFile)
      ensures fd !in fds || fds[fd].access == WriteOnly ==> r == Fails(EBADF) && files == old(files)
      ensures fd in fds && fds[fd].access != WriteOnly ==>
        var id := fds[fd].file;
        match ReadFile(old(files)[id], n, endian)
        case Done((bytes, f)) => r == Done(bytes) && files == old(files)[id := f]
        case Blocks => r == Blocks && files == old(files)
        case Fails(err) => r == Fails(err) && files == old(files)
    {
      if fd !in fds || fds[fd].access == WriteOnly {
        return Fails(EBADF);
      }
      var id := fds[fd].file;
      match ReadFile(files[id], n, endian)
      case Done((bytes, f)) =>
        files := files[id := f];
        r := Done(bytes);
      case Blocks =>
        r := Blocks;
      case Fails(err) =>
        r := Fails(err);
    }

    /** write(2) of data to fd. */
    method Write(fd: Fd, data: seq<byte>) returns (r: Syscall<nat>)
      requires Valid()
      modifies this
      ensures Valid() && fds == old(fds) && nextFile == old(nextFile)
      ensures fd !in fds || fds[fd].access == ReadOnly ==> r == Fails(EBADF) && files == old(files)
      ensures fd in fds && fds[fd].access != ReadOnly ==>
        var id := fds[fd].file;
        match WriteFile(old(files)[id], data, endian)
        case Done((count, f)) => r == Done(count) && files == old(files)[id := f]
        case Blocks => r == Blocks && files == old(files)
        case Fails(err) => r == Fails(err) && files == old(files)
    {
      if fd !in fds || fds[fd].access == ReadOnly {
        return Fails(EBADF);
      }
      var id := fds[fd].file;
      match WriteFile(files[id], data, endian)
      case Done((count, f)) =>
        files := files[id := f];
        r := Done(count);
      case Blocks =>
        r := Blocks;
      case Fails(err) =>
        r := Fails(err);
    }

    /** close(2): releases fd; closing a descriptor that is not open fails
        with EBADF and changes nothing. */
    method Close(fd: Fd) returns (r: Syscall<()>)
      requires Valid()
      modifies this
      ensures Valid() && files == old(files) && nextFile == old(nextFile)
      ensures r == (if fd in old(fds) then Done(()) else Fails(EBADF))
      ensures fds == old(fds) - {fd}
    {
      if fd !in fds {
        return Fails(EBADF);
      }
      fds := fds - {fd};
      r := Done(());
    }

    /** select(2) with a zero timeout on one descriptor: whether it is ready
        for reading, or EBADF when it is not open. It changes nothing. */
    method Poll(fd: Fd) returns (r: Syscall<bool>)
      requires Valid()
      ensures fd !in fds ==> r == Fails(EBADF)
      ensures fd in fds ==> r == Done(fds[fd].access != WriteOnly && Readable(files[fds[fd].file]))
    {
      if fd !in fds {
        return Fails(EBADF);
      }
      r := Done(fds[fd].access != WriteOnly && Readable(files[fds[fd].file]));
    }
  }
}
