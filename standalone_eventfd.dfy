/** The single-file eventfd module: one EventFD class over an os.pipe()
    whose two descriptors are kept as a pair, read end first. Its flag
    machine is the pipe case of EventFlag. */
module StandaloneEventFD {
  import opened Bytes
  import opened Kernel
  import opened EventFlag

  class EventFD {
    /** DATA: the one byte b"A". */
    static const DATA: seq<byte> := [0x41]

    const kernel: Kernel
    /** _flag */
    var flag: bool
    /** _fd: (read end, write end) as os.pipe() returns them. */
    const fd: (Fd, Fd)

    ghost predicate Valid()
      reads this, kernel
    {
      kernel.Valid() &&
      fd.0 in kernel.fds && fd.1 in kernel.fds && fd.0 != fd.1 &&
      kernel.fds[fd.0] == Descriptor(kernel.fds[fd.1].file, ReadOnly) &&
      kernel.fds[fd.1].access == WriteOnly &&
      Inv(PipeBackend, kernel.endian, Current())
    }

    /** The pipe behind the pair. */
    ghost function FileId(): (id: nat)
      reads this, kernel
      requires fd.0 in kernel.fds
    {
      kernel.fds[fd.0].file
    }

    ghost function Current(): (ev: Event)
      reads this, kernel
      requires kernel.Valid() && fd.0 in kernel.fds
    {
      Event(flag, kernel.files[FileId()])
    }

    /** __init__: a new pipe, flag false. */
    constructor (kernel: Kernel)
      requires kernel.Valid()
      modifies kernel
      ensures Valid() && this.kernel == kernel
      ensures Current() == Fresh(PipeBackend) && !flag
      ensures fd.0 !in old(kernel.fds) && fd.1 !in old(kernel.fds)
      ensures fd.0 <= |old(kernel.fds)| && fd.1 <= |old(kernel.fds)| + 1
      ensures FileId() == old(kernel.nextFile) && kernel.nextFile == old(kernel.nextFile) + 1
      ensures kernel.files == old(kernel.files)[FileId() := Pipe([])]
      ensures kernel.fds == old(kernel.fds)[fd.0 := Descriptor(FileId(), ReadOnly)]
                                           [fd.1 := Descriptor(FileId(), WriteOnly)]
    {
      this.kernel := kernel;
      var r, w := kernel.OpenPipe();
      fd := (r, w);
      flag := false;
    }

    /** is_set(): the cached flag, which is also whether the pipe holds a
        byte to read. */
    method IsSet() returns (r: bool)
      requires Valid()
      ensures r == flag
      ensures r <==> kernel.files[FileId()] == Pipe(DATA)
      ensures !r <==> kernel.files[FileId()] == Pipe([])
    {
      r := flag;
    }

    /** clear(): when the flag is true, clear it and read one byte from the
        read end, which the source asserts is DATA. */
    method Clear()
      requires Valid()
      modifies this, kernel
      ensures Valid() && !flag
      ensures EventFlag.Clear(PipeBackend, kernel.endian, old(Current())) == Returned(Current())
      ensures kernel.fds == old(kernel.fds) && kernel.nextFile == old(kernel.nextFile)
      ensures kernel.files == old(kernel.files)[FileId() := Pipe([])]
      ensures !old(flag) ==> kernel.files == old(kernel.files)
    {
      if flag {
        ClearKeepsInv(PipeBackend, kernel.endian, Current());
        flag := false;
        var got := kernel.Read(fd.0, 1);
        assert got == Done(DATA);
      }
    }

    /** set(): when the flag is false, set it and write DATA to the write
        end; when it is already true, write nothing. */
    method Set()
      requires Valid()
      modifies this, kernel
      ensures Valid() && flag
      ensures EventFlag.Set(PipeBackend, kernel.endian, old(Current())) == Returned(Current())
      ensures kernel.fds == old(kernel.fds) && kernel.nextFile == old(kernel.nextFile)
      ensures kernel.files == old(kernel.files)[FileId() := Pipe(DATA)]
      ensures old(flag) ==> kernel.files == old(kernel.files)
    {
      if !flag {
        SetKeepsInv(PipeBackend, kernel.endian, Current());
        flag := true;
        var written := kernel.Write(fd.1, DATA);
      }
    }

    /** wait(timeout): returns the flag, selecting on the read end first when
        the flag is false. It changes nothing. */
    method Wait(timeout: Timeout) returns (r: Waited)
      requires Valid()
      ensures r == EventFlag.Wait(Current(), fd.0, timeout)
      ensures flag ==> r == Woke(true)
      ensures !flag && Negative(timeout) ==> r == WaitRaised(NegativeTimeout)
      ensures !flag && !Negative(timeout) && fd.0 >= FD_SETSIZE ==> r == WaitRaised(FdOutOfRange)
      ensures !flag && !Negative(timeout) && fd.0 < FD_SETSIZE ==>
        r == (if timeout == NoTimeout then NeverWakes else Woke(false))
    {
      WaitReturnsFlag(PipeBackend, kernel.endian, Current(), fd.0, timeout);
      if !flag {
        if Negative(timeout) {
          return WaitRaised(NegativeTimeout);
        }
        if fd.0 >= FD_SETSIZE {
          return WaitRaised(FdOutOfRange);
        }
        var ready := kernel.Poll(fd.0);
        if ready == Done(false) && timeout == NoTimeout {
          return NeverWakes;
        }
      }
      r := Woke(flag);
    }

    /** fileno(): the read end. */
    method Fileno() returns (r: Fd)
      requires Valid()
      ensures r == fd.0 && r != fd.1
      ensures r in kernel.fds && kernel.fds[r] == Descriptor(FileId(), ReadOnly)
    {
      r := fd.0;
    }

    /** __del__: closes the read end, then the write end. Each close finds
        its descriptor open, which the body asserts. */
    method Del()
      requires Valid()
      modifies kernel
      ensures kernel.fds == old(kernel.fds) - {fd.0, fd.1}
      ensures kernel.files == old(kernel.files) && kernel.nextFile == old(kernel.nextFile)
    {
      var closedRead := kernel.Close(fd.0);
      var closedWrite := kernel.Close(fd.1);
      assert closedRead == Done(()) && closedWrite == Done(());
    }
  }

  /** The sequence test_set_twice_and_clear_will_block runs in a new
      process: set twice, clear once; the event is then not set and its pipe
      is empty, so a select(2) on it waits. */
  method SetTwiceThenClear(endian: Endian)
  {
    var kernel := new Kernel(endian);
    var ev := new EventFD(kernel);
    var before := ev.IsSet();
    assert !before;
    ev.Set();
    ev.Set();
    var twice := ev.IsSet();
    assert twice;
    ev.Clear();
    var ready := kernel.Poll(ev.fd.0);
    assert ready == Done(false);
    var waited := ev.Wait(Seconds(1.0));
    assert waited == Woke(false);
    ev.Set();
    waited := ev.Wait(Seconds(1.0));
    assert waited == Woke(true);
    ev.Del();
  }
}
