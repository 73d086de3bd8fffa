/** The flag state machine that BaseEventFD.set and BaseEventFD.clear run:
    a cached boolean kept in step with a marker buffered in a kernel object.
    Each step is given here as a function of the flag and the kernel object
    behind the event's descriptors; the classes in the other modules are
    proved to follow these functions. */
module EventFlag {
  import opened Bytes
  import opened Kernel

  /** Which kernel object carries the marker: a pipe (PipeEventFD and the
      standalone EventFD) or an eventfd counter (CEventFD). */
  datatype Backend = PipeBackend | EventfdBackend

  /** The bytes set() writes and clear() reads back: b"A" for a pipe, and
      for an eventfd the eight bytes 00 .. 00 01. */
  function Marker(b: Backend): (m: seq<byte>)
    ensures |m| == (if b == PipeBackend then 1 else U64_BYTES)
  {
    match b
    case PipeBackend => [0x41]
    case EventfdBackend => [0, 0, 0, 0, 0, 0, 0, 1]
  }

  /** The cached flag and the kernel object it mirrors. */
  datatype Event = Event(flag: bool, file: File)

  /** What a Python exception raised from set() or clear() would be. */
  datatype Error = OSError(errno: Errno) | AssertionError

  /** How a call ends: it returns, it raises (the flag has been updated by
      then, as the source assigns it before the system call), or it waits
      for ever in read(2) or write(2). */
  datatype Outcome = Returned(after: Event) | Raised(after: Event, error: Error) | Hangs

  /** The kernel object of an event that is not set. */
  function ClearedFile(b: Backend): (f: File)
  {
    match b
    case PipeBackend => Pipe([])
    case EventfdBackend => Counter(0)
  }

  /** The eventfd counter of a set CEventFD: the value of the eight marker
      bytes in the host's byte order, 1 on a big-endian host and 2^56 on a
      little-endian one. */
  function MarkerCount(e: Endian): (n: nat)
  {
    match e
    case Big => 1
    case Little => 0x0100_0000_0000_0000
  }

  /** The kernel object of an event that is set: one marker in the pipe, or
      the counter holding the marker's value. */
  function SignalledFile(b: Backend, e: Endian): (f: File)
  {
    match b
    case PipeBackend => Pipe(Marker(PipeBackend))
    case EventfdBackend => Counter(MarkerCount(e))
  }

  /** A newly constructed event: flag false, nothing buffered. */
  function Fresh(b: Backend): (ev: Event)
  {
    Event(false, ClearedFile(b))
  }

  /** The invariant: the flag is true exactly when one marker is buffered,
      and false exactly when nothing is. */
  predicate Inv(b: Backend, e: Endian, ev: Event)
  {
    ev.file == if ev.flag then SignalledFile(b, e) else ClearedFile(b)
  }

  /** set(): when the flag is false, make it true and write the marker. */
  function Set(b: Backend, e: Endian, ev: Event): (r: Outcome)
  {
    if ev.flag then Returned(ev)
    else
      match WriteFile(ev.file, Marker(b), e)
      case Done((_, f)) => Returned(Event(true, f))
      case Blocks => Hangs
      case Fails(err) => Raised(Event(true, ev.file), OSError(err))
  }

  /** clear(): when the flag is true, make it false, read as many bytes as
      the marker has, and fail the assertion unless they are the marker. */
  function Clear(b: Backend, e: Endian, ev: Event): (r: Outcome)
  {
    if !ev.flag then Returned(ev)
    else
      match ReadFile(ev.file, |Marker(b)|, e)
      case Done((bytes, f)) =>
        if bytes == Marker(b) then Returned(Event(false, f))
        else Raised(Event(false, f), AssertionError)
      case Blocks => Hangs
      case Fails(err) => Raised(Event(false, ev.file), OSError(err))
  }

  lemma LittleEndianMarkerValue()
    ensures Value(Little, Marker(EventfdBackend)) == MarkerCount(Little)
  {
    assert Marker(EventfdBackend) == Zeros(7) + [1];
    LeValueOfZerosThenOne(7);
  }

  lemma BigEndianMarkerValue()
    ensures Value(Big, Marker(EventfdBackend)) == MarkerCount(Big)
  {
    assert Marker(EventfdBackend) == Zeros(7) + [1];
    ReverseZerosThenOne(7);
    LeValueOfZeros(7);
    assert ([1] + Zeros(7))[1..] == Zeros(7);
  }

  /** MarkerCount is the value of the eventfd marker. It is positive and
      far below the counter's limit, so one write never blocks or fails. */
  lemma EventfdMarkerValue(e: Endian)
    ensures Value(e, Marker(EventfdBackend)) == MarkerCount(e)
    ensures 0 < MarkerCount(e) <= EVENTFD_MAX
  {
    match e
    case Little => LittleEndianMarkerValue();
    case Big => BigEndianMarkerValue();
  }

  /** Writing the eventfd marker adds MarkerCount to the counter whenever
      the sum stays within the counter's limit. */
  lemma EventfdMarkerWrite(e: Endian, count: nat)
    requires count + MarkerCount(e) <= EVENTFD_MAX
    ensures WriteFile(Counter(count), Marker(EventfdBackend), e)
         == Done((U64_BYTES, Counter(count + MarkerCount(e))))
  {
    match e
    case Little =>
      LittleEndianMarkerValue();
      CounterWrite(count, Marker(EventfdBackend), Little);
    case Big =>
      BigEndianMarkerValue();
      CounterWrite(count, Marker(EventfdBackend), Big);
  }

  /** Writing the marker to the kernel object of an unset event returns,
      writes the whole marker, and leaves the object of a set event. */
  lemma MarkerWriteSignals(b: Backend, e: Endian)
    ensures WriteFile(ClearedFile(b), Marker(b), e) == Done((|Marker(b)|, SignalledFile(b, e)))
  {
    match b
    case PipeBackend =>
      assert [] + Marker(b) == Marker(b);
    case EventfdBackend =>
      EventfdMarkerWrite(e, 0);
  }

  /** Reading the marker's length from the kernel object of a set event
      returns exactly the marker, the very bytes set() wrote, and leaves the
      object of an unset event. */
  lemma MarkerReadClears(b: Backend, e: Endian)
    ensures ReadFile(SignalledFile(b, e), |Marker(b)|, e) == Done((Marker(b), ClearedFile(b)))
  {
    var m := Marker(b);
    match b
    case PipeBackend =>
      assert m[..1] == m && m[1..] == [];
    case EventfdBackend =>
      EventfdMarkerValue(e);
      EncodeOfValue(e, m);
      assert Encode(e, MarkerCount(e), U64_BYTES) == m;
  }

  /** On an event that keeps the invariant, select(2) reports the read
      side readable exactly when the flag is true. */
  lemma ReadableIffSet(b: Backend, e: Endian, ev: Event)
    requires Inv(b, e, ev)
    ensures Readable(ev.file) <==> ev.flag
  {
  }

  /** set() from any state that keeps the invariant returns normally, leaves
      the flag true and exactly one marker buffered. When the flag was
      already true it changes nothing at all. */
  lemma SetKeepsInv(b: Backend, e: Endian, ev: Event)
    requires Inv(b, e, ev)
    ensures Set(b, e, ev) == Returned(Event(true, SignalledFile(b, e)))
    ensures ev.flag ==> Set(b, e, ev) == Returned(ev)
  {
    if !ev.flag {
      MarkerWriteSignals(b, e);
    }
  }

  /** clear() from any state that keeps the invariant returns normally
      (its assertion holds), leaves the flag false and nothing buffered.
      When the flag was already false it changes nothing at all. */
  lemma ClearKeepsInv(b: Backend, e: Endian, ev: Event)
    requires Inv(b, e, ev)
    ensures Clear(b, e, ev) == Returned(Fresh(b))
    ensures !ev.flag ==> Clear(b, e, ev) == Returned(ev)
  {
    if ev.flag {
      MarkerReadClears(b, e);
    }
  }

  /** A fresh event keeps the invariant with the flag false. */
  lemma FreshKeepsInv(b: Backend, e: Endian)
    ensures Inv(b, e, Fresh(b)) && !Fresh(b).flag && !Readable(Fresh(b).file)
  {
  }

  /** The timeout argument of wait(): none (wait for ever) or a number of
      seconds. Only its sign enters the model. */
  datatype Timeout = NoTimeout | Seconds(seconds: real)

  predicate Negative(timeout: Timeout)
  {
    timeout.Seconds? && timeout.seconds < 0.0
  }

  /** Why select.select raises ValueError before it waits: a negative
      timeout, or a descriptor too large for an fd_set. */
  datatype WaitError = NegativeTimeout | FdOutOfRange

  /** How wait() ends for a caller with no other thread to wake it: it
      returns a flag, select(2) never returns, or select.select raises. */
  datatype Waited = Woke(flag: bool) | NeverWakes | WaitRaised(error: WaitError)

  /** wait() on the read descriptor fd: when the flag is false, select on
      fd; select.select first rejects a negative timeout and then a
      descriptor beyond FD_SETSIZE, and otherwise wakes at once if fd is
      readable, at the timeout if not, or never when there is no timeout.
      Then the cached flag is returned. */
  function Wait(ev: Event, fd: Fd, timeout: Timeout): (r: Waited)
    ensures ev.flag ==> r == Woke(true)
    ensures r.Woke? ==> r.flag == ev.flag
  {
    if ev.flag then Woke(true)
    else if Negative(timeout) then WaitRaised(NegativeTimeout)
    else if fd >= FD_SETSIZE then WaitRaised(FdOutOfRange)
    else if !Readable(ev.file) && timeout == NoTimeout then NeverWakes
    else Woke(ev.flag)
  }

  /** On an event that keeps the invariant, wait() changes nothing and
      returns the flag: true at once when set, whatever the arguments; when
      not set, it raises for a negative timeout or a descriptor beyond
      FD_SETSIZE, and otherwise returns false at the timeout, and with no
      timeout it waits for a set() from elsewhere. */
  lemma WaitReturnsFlag(b: Backend, e: Endian, ev: Event, fd: Fd, timeout: Timeout)
    requires Inv(b, e, ev)
    ensures ev.flag ==> Wait(ev, fd, timeout) == Woke(true)
    ensures !ev.flag && Negative(timeout) ==> Wait(ev, fd, timeout) == WaitRaised(NegativeTimeout)
    ensures !ev.flag && !Negative(timeout) && fd >= FD_SETSIZE ==> Wait(ev, fd, timeout) == WaitRaised(FdOutOfRange)
    ensures !ev.flag && !Negative(timeout) && fd < FD_SETSIZE ==>
      Wait(ev, fd, timeout) == (if timeout == NoTimeout then NeverWakes else Woke(false))
  {
    ReadableIffSet(b, e, ev);
  }

  datatype Op = SetOp | ClearOp

  /** One call of set() or clear(). */
  function Call(b: Backend, e: Endian, ev: Event, op: Op): (r: Outcome)
  {
    match op
    case SetOp => Set(b, e, ev)
    case ClearOp => Clear(b, e, ev)
  }

  /** The state a call leaves behind on an event that keeps the invariant. */
  function After(b: Backend, e: Endian, op: Op): (ev: Event)
  {
    match op
    case SetOp => Event(true, SignalledFile(b, e))
    case ClearOp => Fresh(b)
  }

  /** Runs the calls in ops one after the other, stopping at the first one
      that does not return. */
  function Run(b: Backend, e: Endian, ev: Event, ops: seq<Op>): (r: Outcome)
    decreases |ops|
  {
    if ops == [] then Returned(ev)
    else
      match Call(b, e, ev, ops[0])
      case Returned(next) => Run(b, e, next, ops[1..])
      case other => other
  }

  /** The flag a plain threading.Event would hold after ops: the effect of
      the last call, or the starting flag if there was none. */
  function LastFlag(start: bool, ops: seq<Op>): (flag: bool)
  {
    if ops == [] then start else ops[|ops| - 1] == SetOp
  }

  lemma CallKeepsInv(b: Backend, e: Endian, ev: Event, op: Op)
    requires Inv(b, e, ev)
    ensures Call(b, e, ev, op) == Returned(After(b, e, op)) && Inv(b, e, After(b, e, op))
  {
    match op
    case SetOp => SetKeepsInv(b, e, ev);
    case ClearOp => ClearKeepsInv(b, e, ev);
  }

  lemma LastFlagOfTail(start: bool, ops: seq<Op>)
    requires ops != []
    ensures LastFlag(start, ops) == LastFlag(ops[0] == SetOp, ops[1..])
  {
    assert ops[1..] != [] ==> ops[1..][|ops[1..]| - 1] == ops[|ops| - 1];
  }

  /** Any sequence of set() and clear() calls from a state that keeps the
      invariant returns normally, ends with the flag a plain Event would
      hold, and keeps the invariant: never more than one marker buffered. */
  lemma {:induction false} RunKeepsInv(b: Backend, e: Endian, ev: Event, ops: seq<Op>)
    requires Inv(b, e, ev)
    ensures Run(b, e, ev, ops).Returned?
    ensures Run(b, e, ev, ops).after.flag == LastFlag(ev.flag, ops)
    ensures Inv(b, e, Run(b, e, ev, ops).after)
    decreases |ops|
  {
    if ops != [] {
      CallKeepsInv(b, e, ev, ops[0]);
      RunKeepsInv(b, e, After(b, e, ops[0]), ops[1..]);
      LastFlagOfTail(ev.flag, ops);
    }
  }

  /** Whatever set() and clear() calls a new event receives, its pipe
      never holds more than the one byte b"A" and its eventfd counter never
      exceeds the marker's value: nothing accumulates. */
  lemma AtMostOneMarkerBuffered(b: Backend, e: Endian, ops: seq<Op>)
    ensures Run(b, e, Fresh(b), ops).Returned?
    ensures var f := Run(b, e, Fresh(b), ops).after.file;
      match b
      case PipeBackend => f.Pipe? && |f.buffer| <= 1 && (f.buffer == [] || f.buffer == [0x41])
      case EventfdBackend => f.Counter? && (f.count == 0 || f.count == Value(e, Marker(b))) &&
                             f.count <= 0x0100_0000_0000_0000
  {
    RunKeepsInv(b, e, Fresh(b), ops);
    EventfdMarkerValue(e);
  }

  /** set(); set(); clear() on a new event leaves it as new: the second
      set() wrote nothing, so one read drains everything. */
  lemma SetSetClearIsFresh(b: Backend, e: Endian)
    ensures Run(b, e, Fresh(b), [SetOp, SetOp, ClearOp]) == Returned(Fresh(b))
  {
    RunKeepsInv(b, e, Fresh(b), [SetOp, SetOp, ClearOp]);
  }

  /** Without the flag guard the eventfd counter would accumulate: a
      second write to a set eventfd leaves twice the marker's value. */
  lemma EventfdGuardPreventsAccumulation(e: Endian)
    ensures WriteFile(SignalledFile(EventfdBackend, e), Marker(EventfdBackend), e)
         == Done((U64_BYTES, Counter(2 * MarkerCount(e))))
  {
    EventfdMarkerWrite(e, MarkerCount(e));
  }

  /** clear() as it runs when Python strips assert statements (python -O):
      the read of the marker is part of the assert statement, so only the
      flag is reset and the kernel object keeps whatever it held. */
  function ClearWithoutAsserts(b: Backend, e: Endian, ev: Event): (r: Outcome)
    ensures r.Returned? && !r.after.flag && r.after.file == ev.file
    ensures Inv(b, e, ev) && ev.flag ==> Readable(r.after.file) && !Inv(b, e, r.after)
  {
    if !ev.flag then Returned(ev)
    else Returned(Event(false, ev.file))
  }

  /** n rounds of set() followed by the assert-free clear(), starting from
      a new event; stops at the first call that does not return. */
  function SetClearRounds(b: Backend, e: Endian, n: nat): (r: Outcome)
  {
    if n == 0 then Returned(Fresh(b))
    else
      match SetClearRounds(b, e, n - 1)
      case Returned(ev) =>
        (match Set(b, e, ev)
         case Returned(signalled) => ClearWithoutAsserts(b, e, signalled)
         case other => other)
      case other => other
  }

  /** The kernel object after n such rounds: n markers left in the pipe, or
      n times the marker's value in the counter. */
  function Leftover(b: Backend, e: Endian, n: nat): (f: File)
  {
    match b
    case PipeBackend => Pipe(seq(n, _ => 0x41))
    case EventfdBackend => Counter(n * MarkerCount(e))
  }

  /** How many rounds fit before a write must wait: the pipe's capacity in
      one-byte markers, or the markers the counter can hold (255 of 2^56 on
      a little-endian host, EVENTFD_MAX of 1 on a big-endian one). */
  function RoundsBeforeFull(b: Backend, e: Endian): (n: nat)
  {
    match b
    case PipeBackend => PIPE_CAPACITY
    case EventfdBackend =>
      match e
      case Little => 255
      case Big => EVENTFD_MAX
  }

  /** Without assertions every set() adds a marker that no clear() takes
      away: after n rounds that fit, the flag is false while n markers
      remain buffered. */
  lemma {:induction false} RoundsAccumulate(b: Backend, e: Endian, n: nat)
    requires n <= RoundsBeforeFull(b, e)
    ensures SetClearRounds(b, e, n) == Returned(Event(false, Leftover(b, e, n)))
  {
    if n > 0 {
      RoundsAccumulate(b, e, n - 1);
      var ev := Event(false, Leftover(b, e, n - 1));
      match b
      case PipeBackend =>
        var buffer := seq(n - 1, _ => 0x41);
        assert buffer + Marker(b) == seq(n, _ => 0x41);
        assert WriteFile(ev.file, Marker(b), e) == Done((1, Pipe(seq(n, _ => 0x41))));
      case EventfdBackend =>
        match e
        case Little =>
          EventfdMarkerWrite(e, (n - 1) * MarkerCount(e));
        case Big =>
          EventfdMarkerWrite(e, (n - 1) * MarkerCount(e));
    }
  }

  /** After one such round the event reads as unset, yet its read side is
      readable: the invariant, and with it the agreement between is_set()
      and select, is broken. */
  lemma RoundLeavesMarker(b: Backend, e: Endian)
    ensures SetClearRounds(b, e, 1) == Returned(Event(false, SignalledFile(b, e)))
    ensures Readable(SignalledFile(b, e)) && !Inv(b, e, Event(false, SignalledFile(b, e)))
  {
    RoundsAccumulate(b, e, 1);
    assert seq(1, _ => 0x41) == Marker(PipeBackend);
  }

  /** A set() on an unset event whose kernel object already holds as many
      markers as fit must wait: the pipe would pass its capacity, or the
      counter would pass EVENTFD_MAX. */
  lemma FullSetHangs(b: Backend, e: Endian, n: nat)
    requires n == RoundsBeforeFull(b, e)
    ensures Set(b, e, Event(false, Leftover(b, e, n))) == Hangs
  {
    match b
    case PipeBackend =>
    case EventfdBackend =>
      assert Marker(b)[..U64_BYTES] == Marker(b);
      match e
      case Little =>
        LittleEndianMarkerValue();
        assert Leftover(b, e, n) == Counter(255 * 0x0100_0000_0000_0000);
      case Big =>
        BigEndianMarkerValue();
        assert Leftover(b, e, n) == Counter(EVENTFD_MAX);
  }

  /** Once the kernel object is full, the next set() waits for ever in
      write(2): after 65536 rounds on a pipe, or 255 rounds on a
      little-endian eventfd, whose counter would reach 2^64. */
  lemma RoundsThenSetHangs(b: Backend, e: Endian, n: nat)
    requires n == RoundsBeforeFull(b, e)
    ensures SetClearRounds(b, e, n) == Returned(Event(false, Leftover(b, e, n)))
    ensures Set(b, e, Event(false, Leftover(b, e, n))) == Hangs
  {
    RoundsAccumulate(b, e, n);
    FullSetHangs(b, e, n);
  }
}
