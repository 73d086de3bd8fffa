/** The eventfd package: BaseEventFD with its two backends, PipeEventFD (a
    pipe, marker b"A") and CEventFD (a Linux eventfd, marker 00 .. 00 01),
    and the EventFD name, which denotes CEventFD when the C extension that
    creates eventfds can be imported and PipeEventFD otherwise.

    The class below is BaseEventFD: its set, clear, is_set, wait and fileno
    are written once and shared, as in the source; its two constructors are
    those of the two subclasses, and Del is each subclass's __del__. */
module PackageEventFD {
  import opened Bytes
  import opened Kernel
  import opened EventFlag

  class BaseEventFD {
    const backend: Backend
    const kernel: Kernel
    /** The cached flag, _flag. */
    var flag: bool
    /** _read_fd and _write_fd; the same descriptor for an eventfd. */
    const readFd: Fd
    const writeFd: Fd

    /** The descriptors are open on one kernel object in the way the backend
        opens them, and the flag and that object keep the invariant. */
    ghost predicate Valid()
      reads this, kernel
    {
      kernel.Valid() &&
      readFd in kernel.fds && writeFd in kernel.fds &&
      kernel.fds[readFd].file == kernel.fds[writeFd].file &&
      (match backend
       case PipeBackend =>
         readFd != writeFd &&
         kernel.fds[readFd].access == ReadOnly && kernel.fds[writeFd].access == WriteOnly
       case EventfdBackend =>
         readFd == writeFd && kernel.fds[readFd].access == ReadWrite) &&
      Inv(backend, kernel.endian, Current())
    }

    /** The kernel object behind the descriptors. */
    ghost function FileId(): (id: nat)
      reads this, kernel
      requires readFd in kernel.fds
    {
      kernel.fds[readFd].file
    }

    /** The flag together with the kernel object it mirrors. */
    ghost function Current(): (ev: Event)
      reads this, kernel
      requires kernel.Valid() && readFd in kernel.fds
    {
      Event(flag, kernel.files[FileId()])
    }

    /** PipeEventFD(): flag false, then a new pipe. */
    constructor PipeEventFD(kernel: Kernel)
      requires kernel.Valid()
      modifies kernel
      ensures Valid() && backend == PipeBackend && this.kernel == kernel
      ensures Current() == Fresh(PipeBackend)
      ensures readFd !in old(kernel.fds) && writeFd !in old(kernel.fds)
      ensures readFd <= |old(kernel.fds)| && writeFd <= |old(kernel.fds)| + 1
      ensures FileId() == old(kernel.nextFile) && kernel.nextFile == old(kernel.nextFile) + 1
      ensures kernel.files == old(kernel.files)[FileId() := Pipe([])]
      ensures kernel.fds == old(kernel.fds)[readFd := Descriptor(FileId(), ReadOnly)]
                                           [writeFd := Descriptor(FileId(), WriteOnly)]
    {
      flag := false;
      this.backend := PipeBackend;
      this.kernel := kernel;
      var r, w := kernel.OpenPipe();
      readFd, writeFd := r, w;
    }

    /** CEventFD(): flag false, then one new eventfd serving as both sides. */
    constructor CEventFD(kernel: Kernel)
      requires kernel.Valid()
      modifies kernel
      ensures Valid() && backend == EventfdBackend && this.kernel == kernel
      ensures Current() == Fresh(EventfdBackend)
      ensures readFd == writeFd && readFd !in old(kernel.fds) && readFd <= |old(kernel.fds)|
      ensures FileId() == old(kernel.nextFile) && kernel.nextFile == old(kernel.nextFile) + 1
      ensures kernel.files == old(kernel.files)[FileId() := Counter(0)]
      ensures kernel.fds == old(kernel.fds)[readFd := Descriptor(FileId(), ReadWrite)]
    {
      flag := false;
      this.backend := EventfdBackend;
      this.kernel := kernel;
      var fd := kernel.OpenEventFd();
      readFd, writeFd := fd, fd;
    }

    /** is_set(): the cached flag, which is also whether select(2) finds the
        read side readable. */
    method IsSet() returns (r: bool)
      requires Valid()
      ensures r == flag
      ensures r <==> Readable(kernel.files[FileId()])
    {
      ReadableIffSet(backend, kernel.endian, Current());
      r := flag;
    }

    /** set(): when the flag is false, set it and write one marker; when it
        is already true, write nothing. */
    method Set()
      requires Valid()
      modifies this, kernel
      ensures Valid() && flag
      ensures EventFlag.Set(backend, kernel.endian, old(Current())) == Returned(Current())
      ensures kernel.fds == old(kernel.fds) && kernel.nextFile == old(kernel.nextFile)
      ensures kernel.files == old(kernel.files)[FileId() := SignalledFile(backend, kernel.endian)]
      ensures old(flag) ==> kernel.files == old(kernel.files)
    {
      if !flag {
        SetKeepsInv(backend, kernel.endian, Current());
        flag := true;
        var written := kernel.Write(writeFd, Marker(backend));
      }
    }

    /** clear(): when the flag is true, clear it and read the marker's
        length of bytes, which the source asserts are the marker; when it is
        already false, read nothing. */
    method Clear()
      requires Valid()
      modifies this, kernel
      ensures Valid() && !flag
      ensures EventFlag.Clear(backend, kernel.endian, old(Current())) == Returned(Current())
      ensures kernel.fds == old(kernel.fds) && kernel.nextFile == old(kernel.nextFile)
      ensures kernel.files == old(kernel.files)[FileId() := ClearedFile(backend)]
      ensures !old(flag) ==> kernel.files == old(kernel.files)
    {
      if flag {
        ClearKeepsInv(backend, kernel.endian, Current());
        flag := false;
        var got := kernel.Read(readFd, |Marker(backend)|);
        assert got == Done(Marker(backend));
      }
    }

    /** wait(timeout): returns the flag, selecting on the read side first
        when the flag is false. It changes nothing. */
    method Wait(timeout: Timeout) returns (r: Waited)
      requires Valid()
      ensures r == EventFlag.Wait(Current(), readFd, timeout)
      ensures flag ==> r == Woke(true)
      ensures !flag && Negative(timeout) ==> r == WaitRaised(NegativeTimeout)
      ensures !flag && !Negative(timeout) && readFd >= FD_SETSIZE ==> r == WaitRaised(FdOutOfRange)
      ensures !flag && !Negative(timeout) && readFd < FD_SETSIZE ==>
        r == (if timeout == NoTimeout then NeverWakes else Woke(false))
    {
      WaitReturnsFlag(backend, kernel.endian, Current(), readFd, timeout);
      if !flag {
        if Negative(timeout) {
          return WaitRaised(NegativeTimeout);
        }
        if readFd >= FD_SETSIZE {
          return WaitRaised(FdOutOfRange);
        }
        var ready := kernel.Poll(readFd);
        if ready == Done(false) && timeout == NoTimeout {
          return NeverWakes;
        }
      }
      r := Woke(flag);
    }

    /** fileno(): the read side, the descriptor to register with select(2). */
    method Fileno() returns (fd: Fd)
      requires Valid()
      ensures fd == readFd && fd in kernel.fds && kernel.fds[fd].access != WriteOnly
      ensures kernel.fds[fd].file == FileId()
      ensures backend == EventfdBackend ==> fd == writeFd
    {
      fd := readFd;
    }

    /** __del__: PipeEventFD closes both ends of its pipe; CEventFD closes
        its one descriptor once. Each close finds its descriptor open, which
        the body asserts. */
    method Del()
      requires Valid()
      modifies kernel
      ensures kernel.fds == old(kernel.fds) - {readFd, writeFd}
      ensures kernel.files == old(kernel.files) && kernel.nextFile == old(kernel.nextFile)
    {
      match backend
      case PipeBackend =>
        var closedRead := kernel.Close(readFd);
        var closedWrite := kernel.Close(writeFd);
        assert closedRead == Done(()) && closedWrite == Done(());
      case EventfdBackend =>
        var closed := kernel.Close(writeFd);
        assert closed == Done(());
    }
  }

  /** EventFD(): a new event of the class the EventFD name denotes,
      CEventFD when the eventfd C extension can be imported and PipeEventFD
      otherwise; it starts unset. */
  method NewEventFD(kernel: Kernel, haveCEventfd: bool) returns (ev: BaseEventFD)
    requires kernel.Valid()
    modifies kernel
    ensures fresh(ev) && ev.Valid() && ev.kernel == kernel
    ensures ev.backend == (if haveCEventfd then EventfdBackend else PipeBackend)
    ensures ev.Current() == Fresh(ev.backend)
    ensures ev.FileId() == old(kernel.nextFile) && kernel.nextFile == old(kernel.nextFile) + 1
    ensures ev.readFd !in old(kernel.fds) && ev.writeFd !in old(kernel.fds)
    ensures ev.readFd <= |old(kernel.fds)| && ev.writeFd <= |old(kernel.fds)| + 1
    ensures |kernel.fds| <= |old(kernel.fds)| + 2
    ensures forall fd | fd in old(kernel.fds) :: fd in kernel.fds && kernel.fds[fd] == old(kernel.fds[fd])
    ensures forall id | id in old(kernel.files) :: id in kernel.files && kernel.files[id] == old(kernel.files[id])
  {
    if haveCEventfd {
      ev := new BaseEventFD.CEventFD(kernel);
    } else {
      ev := new BaseEventFD.PipeEventFD(kernel);
    }
  }

  /** Two events in a new process: after set() on the first, selecting on
      both finds only the first readable, and wait() with a timeout on the
      second returns false. */
  method TwoEvents(endian: Endian, haveCEventfd: bool)
  {
    var kernel := new Kernel(endian);
    var ev1 := NewEventFD(kernel, haveCEventfd);
    var ev2 := NewEventFD(kernel, haveCEventfd);
    assert ev1.Valid();
    ev1.Set();
    assert ev2.Valid();
    var fd1 := ev1.Fileno();
    var fd2 := ev2.Fileno();
    var ready1 := kernel.Poll(fd1);
    var ready2 := kernel.Poll(fd2);
    ReadableIffSet(ev1.backend, kernel.endian, ev1.Current());
    ReadableIffSet(ev2.backend, kernel.endian, ev2.Current());
    assert ready1 == Done(true) && ready2 == Done(false);
    var waited := ev2.Wait(Seconds(1.0));
    assert waited == Woke(false);
  }
}
