# eventfd: a verified model of the selectable event flag

The eventfd package provides `EventFD`, an object with the interface of
`threading.Event` (`set`, `clear`, `is_set`, `wait`) that also has a file
descriptor, so it can be passed to `select`/`poll` next to sockets. It keeps a
cached boolean `_flag` and mirrors it in a kernel object: `set` writes a fixed
marker when the flag is false, `clear` reads the marker back when it is true.
The package has two backends behind a shared `BaseEventFD`:

- `PipeEventFD`: an `os.pipe()` with marker `b"A"`.
- `CEventFD`: a Linux `eventfd(0, 0)` counter. One descriptor serves both
  sides. The marker is the eight bytes `00 00 00 00 00 00 00 01`.

`EventFD` names `CEventFD` when the C extension imports and `PipeEventFD`
otherwise. A second, single-file version (`eventfd.py`) has the same pipe
machine. It keeps its two descriptors as a pair.

The project has five modules:

- `Bytes` (bytes.dfy): bytes, and unsigned integers as byte strings in either
  byte order. Encoding and decoding are proved inverse both ways.
- `Kernel` (kernel.dfy): the operating system the objects rely on.
  - Pure functions give what `read(2)` and `write(2)` do to a pipe and to an
    eventfd counter, and when `select(2)` finds a descriptor readable.
  - A `Kernel` class holds the descriptor table and the open files. Its
    methods are `pipe(2)`, `eventfd(2)`, `read`, `write`, `close` and a
    zero-timeout `select`. New descriptors are the lowest free numbers.
  - Descriptors are blocking, as the source creates them. A call that would
    wait is reported as `Blocks`.
- `EventFlag` (event_flag.dfy): the flag machine of `BaseEventFD.set`, `clear`
  and `wait`, written as functions of the flag and the kernel object.
  - The invariant: the flag is true exactly when one marker is buffered, and
    false exactly when nothing is.
  - The lemmas prove that every operation keeps the invariant. They also prove
    that any sequence of calls returns normally and ends with the flag a plain
    `Event` would hold.
- `PackageEventFD` (package_eventfd.dfy): `BaseEventFD` as one class with a
  backend field.
  - Its methods are written once, as in the source.
  - Its named constructors `PipeEventFD` and `CEventFD` are the subclasses'
    `__init__`. `Del` is each subclass's `__del__`.
  - `NewEventFD` is the `EventFD` name.
  - `Set` and `Clear` are proved to follow `EventFlag.Set` and
    `EventFlag.Clear`, and the constructors to give `Fresh`. Every
    state-changing method states exactly which kernel entries change.
  - `TwoEvents` replays the two-event test of the test suite. It sets one of two
    events and shows that only that one is readable.
- `StandaloneEventFD` (standalone_eventfd.dfy): the single-file `EventFD`.
  - `SetTwiceThenClear` replays the set-twice-then-clear test of the test suite.

How the code behaves, as the model follows it:

- The flag is cached. `is_set` returns `_flag` without looking at the kernel
  object. The model proves that the flag equals `select` readability.
- `clear` performs one read of exactly the marker's length, and only when
  the flag is true. The read is part of an `assert` statement, so it happens
  only while Python runs with assertions enabled. The model follows that
  normal mode; "## Findings" covers `python -O`.
- The descriptors are blocking. The code does not set `O_NONBLOCK`.
- `wait` calls `select.select` only when the flag is false. That call raises
  `ValueError` for a negative timeout, and for a read descriptor at or above
  `FD_SETSIZE` (1024), before it waits.
- The eventfd marker `00 .. 00 01` is the integer 1 only in big-endian
  order. On a little-endian host the counter holds 2^56, not 1.
  - The model takes the byte order as a parameter of the kernel. It proves
    that the round trip is exact in both orders: `clear` reads back the very
    bytes `set` wrote.
  - In both orders the value is positive and far below the counter's limit.

## Model

| member | source | states |
|---|---|---|
| `Bytes.ValueOfEncode` | eventfd/_eventfd.py:43 | encoding a value that fits in k bytes, in either byte order, and decoding it gives the value back |
| `Bytes.EncodeOfValue` | eventfd/_eventfd.py:106 | decoding any byte string and re-encoding its value at the same width reproduces the string exactly |
| `Kernel.ReadFile` | eventfd/_eventfd.py:43 | read(2) on a pipe returns a non-empty prefix of at most n bytes and keeps the rest in order, and blocks exactly when the pipe is empty; on an eventfd it fails with EINVAL for fewer than 8 bytes, blocks at 0, otherwise returns the counter's 8-byte encoding and resets it to 0 |
| `Kernel.WriteFile` | eventfd/_eventfd.py:54 | write(2) appends to a pipe when the bytes fit its capacity and blocks otherwise; on an eventfd it fails for short data or the value 2^64-1, blocks if the sum would pass 2^64-2, otherwise adds the value |
| `Kernel.Kernel.LowestFreeFd` | eventfd/_eventfd.py:94 | the descriptor chosen is not open and every lower one is |
| `Kernel.Kernel.OpenPipe` | eventfd/_eventfd.py:94 | os.pipe() adds one empty pipe and two new distinct descriptors, read-only and write-only, and changes nothing else |
| `Kernel.Kernel.OpenEventFd` | eventfd/_eventfd.c:5-17 | eventfd(0, 0) adds one counter at 0 and one new read-write descriptor, and changes nothing else |
| `Kernel.Kernel.Read` | eventfd/_eventfd.py:43 | os.read on a readable descriptor behaves as ReadFile on its file and changes only that file; other descriptors give EBADF |
| `Kernel.Kernel.Write` | eventfd/_eventfd.py:54 | os.write on a writable descriptor behaves as WriteFile on its file and changes only that file; other descriptors give EBADF |
| `Kernel.Kernel.Close` | eventfd/_eventfd.py:96-98 | os.close removes exactly that descriptor and succeeds iff it was open; files are untouched |
| `EventFlag.Marker` | eventfd/_eventfd.py:90-106 | the marker is one byte for the pipe backend and eight bytes for the eventfd backend |
| `EventFlag.EventfdMarkerValue` | eventfd/_eventfd.py:106 | the eventfd marker's value is 1 big-endian and 2^56 little-endian, positive and at most the counter's limit |
| `EventFlag.EventfdMarkerWrite` | eventfd/_eventfd.py:54 | writing the eventfd marker adds its value to the counter whenever the sum stays within the counter's limit |
| `EventFlag.MarkerWriteSignals` | eventfd/_eventfd.py:54 | writing the marker to an unset event's pipe or counter returns, writes all of it, and leaves exactly one marker buffered |
| `EventFlag.MarkerReadClears` | eventfd/_eventfd.py:43 | reading the marker's length from a set event's pipe or counter returns exactly the marker, so the assertion holds, and empties it (counter reset to 0) |
| `EventFlag.ReadableIffSet` | eventfd/_eventfd.py:30-32 | under the invariant, the read side is readable iff the cached flag is true |
| `EventFlag.FreshKeepsInv` | eventfd/_eventfd.py:25-28 | a new event keeps the invariant with flag false and nothing readable |
| `EventFlag.SetKeepsInv` | eventfd/_eventfd.py:52-54 | under the invariant set() returns normally with the flag true and exactly one marker buffered; on a set event it changes nothing |
| `EventFlag.ClearKeepsInv` | eventfd/_eventfd.py:41-43 | under the invariant clear() returns normally, its assertion holds, and the event is as new; on a cleared event it changes nothing |
| `EventFlag.WaitReturnsFlag` | eventfd/_eventfd.py:71-74 | under the invariant wait() returns true at once when set, whatever its arguments; when not set it raises ValueError for a negative timeout or a descriptor at or above FD_SETSIZE, returns false at a timeout, and never returns without one |
| `EventFlag.CallKeepsInv` | eventfd/_eventfd.py:41-54 | under the invariant, one set() or clear() returns normally, leaves the state that call determines, and keeps the invariant |
| `EventFlag.RunKeepsInv` | eventfd/_eventfd.py:41-54 | every sequence of set()/clear() calls returns normally, keeps the invariant, and ends with the flag of the last call (or the starting flag) |
| `EventFlag.AtMostOneMarkerBuffered` | eventfd/_eventfd.py:41-54 | after any calls on a new event the pipe holds nothing or the one byte b"A", and the eventfd counter is 0 or the marker's value |
| `EventFlag.SetSetClearIsFresh` | test/test_eventfd.py:105-108 | set; set; clear on a new event leaves it exactly as new |
| `EventFlag.EventfdGuardPreventsAccumulation` | eventfd/_eventfd.py:52 | a second write to a set eventfd would double the counter, which the flag guard in set() prevents |
| `EventFlag.ClearWithoutAsserts` | eventfd/_eventfd.py:41-43 | with assertions stripped, clear() resets the flag but reads nothing, so on a set event that keeps the invariant it leaves the marker readable and breaks the invariant |
| `EventFlag.RoundsAccumulate` | eventfd/_eventfd.py:41-54 | with assertions stripped, n rounds of set(); clear() on a new event leave the flag false and n markers buffered, while they fit |
| `EventFlag.RoundLeavesMarker` | eventfd/_eventfd.py:41-54 | with assertions stripped, one round of set(); clear() leaves a readable marker behind an unset flag, breaking the invariant |
| `EventFlag.FullSetHangs` | eventfd/_eventfd.py:52-54 | set() on an unset event whose pipe or counter already holds as many markers as fit blocks in write(2) |
| `EventFlag.RoundsThenSetHangs` | eventfd/_eventfd.py:41-54 | with assertions stripped, set() blocks for ever after 65536 rounds on a pipe, 255 on a little-endian eventfd, or 2^64-2 on a big-endian one |
| `PackageEventFD.BaseEventFD.PipeEventFD` | eventfd/_eventfd.py:92-94 | PipeEventFD() starts unset over a new empty pipe with distinct read and write descriptors |
| `PackageEventFD.BaseEventFD.CEventFD` | eventfd/_eventfd.py:108-110 | CEventFD() starts unset over a new eventfd at 0, one descriptor serving both sides |
| `PackageEventFD.BaseEventFD.IsSet` | eventfd/_eventfd.py:30-32 | is_set() returns the cached flag, which equals select readability of the read side |
| `PackageEventFD.BaseEventFD.Set` | eventfd/_eventfd.py:45-54 | set() follows EventFlag.Set: flag true, exactly one marker buffered, only this event's file changed, nothing written if already set |
| `PackageEventFD.BaseEventFD.Clear` | eventfd/_eventfd.py:34-43 | clear() follows EventFlag.Clear: flag false, the bytes read are the marker, buffer empty, nothing read if already clear |
| `PackageEventFD.BaseEventFD.Wait` | eventfd/_eventfd.py:56-74 | wait() changes nothing and follows EventFlag.Wait on the read descriptor: true when set; when not set, ValueError for a negative timeout or a descriptor beyond FD_SETSIZE, false at a timeout, no return without one |
| `PackageEventFD.BaseEventFD.Fileno` | eventfd/_eventfd.py:76-81 | fileno() is the read descriptor, open for reading on this event's file; for an eventfd it is also the write descriptor |
| `PackageEventFD.BaseEventFD.Del` | eventfd/_eventfd.py:96-113 | __del__ removes both pipe ends, or the one eventfd descriptor, from the table, and changes no file |
| `PackageEventFD.NewEventFD` | eventfd/_eventfd.py:100-115 | EventFD() gives a fresh unset event whose backend is the eventfd exactly when the C extension is available, and leaves existing descriptors and files unchanged |
| `StandaloneEventFD.EventFD.constructor` | eventfd.py:18-20 | __init__ opens a new empty pipe, read end first in the pair, with the flag false |
| `StandaloneEventFD.EventFD.IsSet` | eventfd.py:22-24 | is_set() returns the flag, which is true iff the pipe holds exactly b"A" and false iff it is empty |
| `StandaloneEventFD.EventFD.Clear` | eventfd.py:26-35 | clear() reads one byte, equal to DATA, only when set; afterwards flag false and pipe empty |
| `StandaloneEventFD.EventFD.Set` | eventfd.py:37-46 | set() writes DATA to the write end only when unset; afterwards flag true and the pipe holds exactly DATA |
| `StandaloneEventFD.EventFD.Wait` | eventfd.py:48-66 | wait() changes nothing and follows EventFlag.Wait on the read end: true when set; when not set, ValueError for a negative timeout or a descriptor beyond FD_SETSIZE, false at a timeout, no return without one |
| `StandaloneEventFD.EventFD.Fileno` | eventfd.py:68-73 | fileno() is the read end of the pair, distinct from the write end |
| `StandaloneEventFD.EventFD.Del` | eventfd.py:75-78 | __del__ removes the read end and the write end from the table, and changes no file |

## Findings

| source | as written | input that shows it | evidently intended | confidence | as-written member | corrected member |
|---|---|---|---|---|---|---|
| eventfd/_eventfd.py:43 | the `os.read` that drains the marker is inside an `assert` statement, which `python -O` removes | run under `python -O` and call set(); clear() repeatedly: the marker stays buffered, so select reports an unset event readable, and the 65537th set() on a pipe or the 256th on a little-endian eventfd blocks for ever | clear() reads the marker whether or not assertions are enabled | high for the removal of the read, which is Python's documented behaviour; not executed | `EventFlag.RoundsThenSetHangs` | `EventFlag.ClearKeepsInv` |
| eventfd.py:35 | the one-byte `os.read` is inside an `assert` statement, removed by `python -O` | under `python -O`, set(); clear() once: the byte stays in the pipe while is_set() is false, and after 65536 rounds set() blocks for ever | clear() reads the byte whether or not assertions are enabled | high for the removal of the read; not executed | `EventFlag.RoundLeavesMarker` | `EventFlag.ClearKeepsInv` |

## Left out

- Concurrency and timing are not modelled.
  - There is one thread. A `select` or `read` that would wait for another
    thread is `Blocks`/`NeverWakes`.
  - The timeout of `wait` is a float. Only its sign enters the model.
  - The wake-up and latency assertions of the tests are not modelled.
- `Wait` (both classes) does not model a `set()` from another thread during
  the `select`. So without a timeout, an unset event is modelled as never
  returning.
- The import-time probe for the C extension is a foreign import. It is the
  boolean parameter `haveCEventfd`.
- `BaseEventFD.__del__` raises `NotImplementedError`. It is not modelled,
  because the source never creates a bare `BaseEventFD`: the model has only
  the two subclass constructors.
- The initial `_read_fd = None` and `_write_fd = None` are not modelled.
  They are overwritten in the same constructor before any use.
- `__del__` is modelled as an explicit call. Garbage-collection timing and
  use after close are not modelled.
- Construction failures are not modelled: no `EMFILE` from `pipe(2)`, no
  `OSError` from the C wrapper. The descriptor table is unbounded, so an
  event can hold a descriptor at or above `FD_SETSIZE`; `wait` then raises,
  as select.select does.
- Pipe writes are modelled as atomic, which is what `write(2)` guarantees up
  to `PIPE_BUF` bytes. The only pipe write in the source is one byte.
- Reading a pipe whose write end is closed (end of file) is not modelled. The
  write end stays open for the object's whole life.
- The `assert ret[0] in [[self], []]` inside `wait` is not stated separately.
  `select` on one object returns either it or nothing, so the assertion
  always holds.
- The C wrapper (eventfd/_eventfd.c) is modelled only by its result, a new
  eventfd counter (`Kernel.Kernel.OpenEventFd`).
- The example server (server.py) and packaging (setup.py) are not part of
  this model.
