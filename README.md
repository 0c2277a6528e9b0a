# PID-file lock, modelled in Dafny

This project models `PIDLockFile`, the lock behind DeepBind's `deepity` library.
The lock is a PID file:
- The lock is held exactly while the file at the lock path exists.
- The file's first line records the process id of the holder, in ASCII decimal.
- Mutual exclusion rests on one primitive alone: the exclusive create `O_CREAT | O_EXCL`.

The model has four modules:

- `PidText` (`pid_text.dfy`) is the text format, and it is pure.
  - The writer is Python's `"%d\n"`.
  - The reader is `readline()`, then `strip()`, then Python 2's `int()`.
  - This is the convention of section 5.13 of the Filesystem Hierarchy Standard 2.3. The writer is strict. The reader ignores white space, leading zeros, a missing newline and extra lines.
  - Python 2 reads the file as a byte string, so each character of the model stands for one byte.
  - White space is what C's `isspace` accepts in the "C" locale: space, tab, newline, vertical tab, form feed and carriage return.
- `FileSystem` (`file_system.dfy`) is the few OS calls the lock uses.
  - They act on a `FileStore` object: a mutable map from path to content, plus two sets of paths.
    - On the unreachable paths every call of this process fails with EACCES.
    - On the undeletable paths the file can be seen and read, but removing it fails with EPERM and leaves it in place. Examples are another user's file in a sticky directory such as /tmp, or a file system mounted read-only.
  - Other processes can act on the lock path only between two calls of this one, through `Interfere`. They can leave a file of their own there, remove the file, or take this process's access to the path away (a permission change, for instance). A file of their own on a held path stands for the holder releasing the lock and a third process taking it during the same sleep.
- `PidLockFile` (`pid_lock_file.dfy`) holds the three module-level functions and the lock class `PidLock`.
  - `read_pid_from_pidfile` is a function. `write_pid_to_pidfile` and `remove_existing_pidfile` are methods on the store.
  - `acquire`, `release` and `break_lock` are methods that change the store.
  - `acquire` keeps the source's `while True` retry loop. One pass of that loop is the method `Attempt`.
  - The functions `PassOf` (one pass) and `Run` (the whole loop) describe `acquire` on values. `Attempt` and `Acquire` are proved to compute them, and the lemmas about `Run` carry the properties of `acquire`.
  - The clock and the other processes are inputs to `acquire`. The clock is a start reading plus, for each pass that meets `EEXIST`, the time that passes before the clock is read again. The other processes are what they do to the lock path during each sleep.
  - `Replay` applies what the other processes did during the sleeps that `acquire` took. The lock file `acquire` leaves behind is the one `Replay` gives, plus its own PID file exactly when it succeeds.
- `LockScenarios` (`scenarios.dfy`) has two processes use one lock path, one of them waiting until the other lets go, and an owner whose lock file may not be removed, to show that the contracts compose.

Time is exact (`real`), so `timeout/10` and the default sleep of 0.1 are exact too.

A note on `acquire` with a timeout of zero. A zero timeout is usually described as "fail at once on contention, never sleep". The code sets `end_time` to the clock reading and then tests `time.time() > end_time` strictly. So when the clock has not moved between the two readings, the loop does not raise: it sleeps 0.1 (since `0/10` is falsy) and tries again. The model follows the code:
- `PidLock.Acquire` promises `AlreadyLocked` without a second create only when the clock has moved before the first check.
- The `OnContention`, `RetryDelay` and `ContentionOutcomes` contracts state the zero case as the code has it.

A note on negative timeouts. The deadline is not moved and the sleep argument is negative. If the clock has not moved, `time.sleep` raises (`IOError` with `EINVAL` in Python 2). The model reports this as `Raised(IOError(EINVAL))`.

## Model

| member | source | states |
|---|---|---|
| FileSystem.FileStore.Open | code/libs/deepity/deepity/_lockfile/pidlockfile.py:159-162 | `open(path, 'r')` succeeds exactly when the path exists and is reachable, and then yields that file's content |
| FileSystem.FileStore.CreateExclusive | code/libs/deepity/deepity/_lockfile/pidlockfile.py:191-193 | the exclusive create fails with EEXIST, changing nothing, when the path is already there; otherwise it creates an empty file; an unreachable path fails with another errno |
| FileSystem.FileStore.Append | code/libs/deepity/deepity/_lockfile/pidlockfile.py:205-206 | writing to the new file appends the data to its content and changes no other file |
| FileSystem.FileStore.Remove | code/libs/deepity/deepity/_lockfile/pidlockfile.py:218 | `os.remove` deletes the path; it fails with ENOENT when the path is absent, with EACCES when it is out of reach, and with EPERM on a file that may not be removed; every failure changes nothing |
| PidText.Digits | code/libs/deepity/deepity/_lockfile/pidlockfile.py:204 | `%d` of a natural number is a non-empty run of decimal digits with a leading zero only for 0 |
| PidText.RenderShape | code/libs/deepity/deepity/_lockfile/pidlockfile.py:204 | the rendered pid is non-empty, ends in a digit, holds no newline, starts with neither white space nor (except for 0) a zero, and starts with `-` exactly for a negative pid |
| PidText.ReadLine | code/libs/deepity/deepity/_lockfile/pidlockfile.py:174 | `readline()` returns a prefix of the text that ends in a newline exactly when the text holds one, and has no newline before its last character; text without a newline is returned whole |
| PidText.NewlineIndex | code/libs/deepity/deepity/_lockfile/pidlockfile.py:174 | the index `readline()` stops at is the first newline, or the end of the text when there is none |
| PidText.ReadLineStopsAtNewline | code/libs/deepity/deepity/_lockfile/pidlockfile.py:174 | `readline()` returns the text up to and including the first newline, whatever follows |
| PidText.StripAround | code/libs/deepity/deepity/_lockfile/pidlockfile.py:174 | `strip()` removes exactly the white space around a core that starts and ends with a non-space character |
| PidText.StripAllSpace | code/libs/deepity/deepity/_lockfile/pidlockfile.py:174 | `strip()` of white space alone is empty |
| PidText.StripSplit | code/libs/deepity/deepity/_lockfile/pidlockfile.py:174 | every string is white space, then what `strip()` keeps (empty, or starting and ending with non-space), then white space |
| PidText.StripStripped | code/libs/deepity/deepity/_lockfile/pidlockfile.py:174 | `strip()` is idempotent |
| PidText.StripKeeps | code/libs/deepity/deepity/_lockfile/pidlockfile.py:174 | `strip()` never drops a non-space character |
| PidText.DecimalValueOfDigits | code/libs/deepity/deepity/_lockfile/pidlockfile.py:176 | the value `int()` gives to the digits `%d` writes for n is n |
| PidText.LeadingZerosIgnored | code/libs/deepity/deepity/_lockfile/pidlockfile.py:176 | leading zeros do not change the value of a digit run |
| PidText.DecimalParses | code/libs/deepity/deepity/_lockfile/pidlockfile.py:176 | `int()` of a bare digit run is its decimal value |
| PidText.SignThenSpaces | code/libs/deepity/deepity/_lockfile/pidlockfile.py:176 | Python 2's `int()` accepts a sign, then white space, then the digits `%d` writes for n, and negates for `-` |
| PidText.ParseRendered | code/libs/deepity/deepity/_lockfile/pidlockfile.py:176 | `int()` of `%d` of any integer is that integer |
| PidText.StripPidLine | code/libs/deepity/deepity/_lockfile/pidlockfile.py:174 | `readline().strip()` of a written PID file is the rendered pid |
| PidText.RoundTrip | code/libs/deepity/deepity/_lockfile/pidlockfile.py:174-204 | the reader parses the line `"%d\n" % pid` that the writer produces back to the same pid, negative ones included |
| PidText.ParseStrippedSound | code/libs/deepity/deepity/_lockfile/pidlockfile.py:176 | the converse for stripped text: whatever `int()` accepts is an optional sign, white space only after a sign, then decimal digits, and its value is theirs, negated for `-` |
| PidText.ParseIntSound | code/libs/deepity/deepity/_lockfile/pidlockfile.py:176 | the converse for `int()`: whatever it accepts is white space, an optional sign, white space only after a sign, decimal digits and white space, and its value is that of the digits |
| PidText.ParsedLineShape | code/libs/deepity/deepity/_lockfile/pidlockfile.py:174-176 | the converse for the reader: whenever a pid is found, the first line has that shape and the pid is the value of its digits |
| PidText.StrippedComplete | code/libs/deepity/deepity/_lockfile/pidlockfile.py:176 | on stripped text, `int()` accepts an optional sign, white space only after a sign, and any decimal digits, leading zeros included, giving their value, negated for `-` |
| PidText.ParseIntComplete | code/libs/deepity/deepity/_lockfile/pidlockfile.py:176 | the converse of `ParseIntSound`: `int()` accepts every string of that shape, white space around it included, and gives the value of its digits, negated for `-` |
| PidText.FirstLineParse | code/libs/deepity/deepity/_lockfile/pidlockfile.py:174-176 | for a first line without a newline, followed by nothing or by further lines, the reader finds exactly what `int()` makes of that line |
| PidText.ParsedLineComplete | code/libs/deepity/deepity/_lockfile/pidlockfile.py:174-176 | the converse of `ParsedLineShape`: every first line of that shape, followed by nothing or by further lines, yields the value of its digits as the pid |
| PidText.FirstLineOnly | code/libs/deepity/deepity/_lockfile/pidlockfile.py:174-176 | only the first line counts: anything after the first newline leaves the parsed pid unchanged |
| PidText.LenientRead | code/libs/deepity/deepity/_lockfile/pidlockfile.py:164-176 | white space around the pid, leading zeros, a missing newline and extra lines are all accepted and yield the pid |
| PidText.PaddedPidWithExtraLine | code/libs/deepity/deepity/_lockfile/pidlockfile.py:164-176 | the file `"  007\n42\n"` holds pid 7 |
| PidText.BlankLineHasNoPid | code/libs/deepity/deepity/_lockfile/pidlockfile.py:175-178 | a first line that is empty or only white space makes `int()` fail, so no pid |
| PidText.ForeignCharacterMeansNoPid | code/libs/deepity/deepity/_lockfile/pidlockfile.py:175-178 | a first line with a character that is not white space, a digit or a sign makes `int()` fail, so no pid |
| PidLockFile.ReadPidFromPidfile | code/libs/deepity/deepity/_lockfile/pidlockfile.py:150-181 | no pid when the file cannot be opened; otherwise the parse of its first line, with a parse failure giving no pid rather than an error |
| PidLockFile.WritePidToPidfile | code/libs/deepity/deepity/_lockfile/pidlockfile.py:184-206 | it succeeds exactly when the path was absent and reachable, and then the new file holds `%d\n` of the pid; otherwise it fails with EEXIST (or the access errno) and changes nothing |
| PidLockFile.WrittenPidReadsBack | code/libs/deepity/deepity/_lockfile/pidlockfile.py:150-206 | a PID file as the writer leaves it is read back as the writer's pid |
| PidLockFile.RemoveExistingPidfile | code/libs/deepity/deepity/_lockfile/pidlockfile.py:209-223 | it succeeds, removing the file, exactly when the path is reachable and either absent (ENOENT is no error) or removable; otherwise it passes on EACCES or EPERM and changes nothing; the file stays in sight exactly when the removal was refused with EPERM |
| PidLockFile.Deadline | code/libs/deepity/deepity/_lockfile/pidlockfile.py:107-109 | the deadline is never before the start, and is past it only for a positive timeout, by exactly that timeout |
| PidLockFile.RetryDelay | code/libs/deepity/deepity/_lockfile/pidlockfile.py:122 | the sleep is 0.1 with no timeout or a zero one; otherwise a tenth of the timeout, negative exactly for a negative timeout |
| PidLockFile.OnContention | code/libs/deepity/deepity/_lockfile/pidlockfile.py:115-122 | with no timeout the clock is ignored and the loop sleeps 0.1; with one, it gives up exactly when the clock is past the deadline, and otherwise sleeps the retry delay |
| PidLockFile.ContentionOutcomes | code/libs/deepity/deepity/_lockfile/pidlockfile.py:107-122 | contention raises LockTimeout exactly past a positive timeout, and AlreadyLocked exactly when the clock has moved under a zero or negative one; before that it sleeps a tenth of the timeout (0.1 for zero) |
| PidLockFile.Replay | code/libs/deepity/deepity/_lockfile/pidlockfile.py:113-122 | what other processes do during the sleeps changes only the lock path; with no removal and no file of their own the files stay as they were; a lock file that was there disappears only through a removal |
| PidLockFile.ReplayAccess | code/libs/deepity/deepity/_lockfile/pidlockfile.py:113-124 | other processes change the reach of the lock path only; it ends out of reach exactly when it was already, or some sleep took the access away |
| PidLockFile.PidLock.constructor | code/libs/deepity/deepity/_lockfile/pidlockfile.py:71-77 | a lock object records its path, the file store and the pid of its process |
| PidLockFile.PidLock.OwnerFromContent | code/libs/deepity/deepity/_lockfile/pidlockfile.py:79-98 | with a lock file written for pid q, `is_locked` is true, `read_pid` is q, and `i_am_locking` holds exactly when q is this process's pid |
| PidLockFile.PidLock.MineOnFile | code/libs/deepity/deepity/_lockfile/pidlockfile.py:92-98 | whenever `i_am_locking` holds, the lock file is there and its first line is white space, an optional sign, decimal digits and white space whose value is this process's pid |
| PidLockFile.PassOf | code/libs/deepity/deepity/_lockfile/pidlockfile.py:111-126 | one pass of the loop changes no path but the lock path, and goes round again only after meeting EEXIST on a reachable path, and then only after the clock read plus a sleep of exactly the retry delay, which is never negative there |
| PidLockFile.Run | code/libs/deepity/deepity/_lockfile/pidlockfile.py:100-126 | the whole loop changes no path but the lock path, and uses no more rounds than it is given |
| PidLockFile.RunKeepsOthersLock | code/libs/deepity/deepity/_lockfile/pidlockfile.py:111-126 | `acquire`'s only write is its own exclusive create: the files it leaves are those the other processes left during its sleeps, plus its own PID file exactly when it succeeds, and then on a path they left free; a lock file of another process, including one that took a freed lock during a sleep, is never overwritten or removed |
| PidLockFile.TakenWhileAsleep | code/libs/deepity/deepity/_lockfile/pidlockfile.py:113-122 | a lock freed during a sleep and taken by another process first makes the next create meet EEXIST again; `acquire` keeps waiting and leaves that process's file as it is |
| PidLockFile.FreedWhileAsleep | code/libs/deepity/deepity/_lockfile/pidlockfile.py:113-124 | a lock another process removes during the sleep is taken by the next create, with this pid written there |
| PidLockFile.RunContended | code/libs/deepity/deepity/_lockfile/pidlockfile.py:113-124 | every outcome but success and LockFailed ends with the lock file present and reachable, since only EEXIST leads to the timeout check; a lock removed during a sleep is taken by the very next create |
| PidLockFile.RunFailsOnlyUnreachable | code/libs/deepity/deepity/_lockfile/pidlockfile.py:113-124 | the unreachable paths `acquire` ends with are those the other processes left during its sleeps, and LockFailed is raised exactly when the lock path is one of them |
| PidLockFile.RunEndings | code/libs/deepity/deepity/_lockfile/pidlockfile.py:111-126 | only LockFailed, LockTimeout, AlreadyLocked and the sleep's IOError are raised; without a timeout only LockFailed; LockTimeout only past the deadline of a positive timeout, AlreadyLocked only past it under a zero or negative one; the IOError only for a negative timeout; the loop runs out of rounds only after using all of them; the clock never goes back |
| PidLockFile.RunAcquiresInTime | code/libs/deepity/deepity/_lockfile/pidlockfile.py:117-122 | under a positive timeout t, the lock is taken no later than t/10 past the deadline |
| PidLockFile.PositiveTimeoutSleeps | code/libs/deepity/deepity/_lockfile/pidlockfile.py:107-122 | under a positive timeout, starting with the clock at least k tenths of it past the start after k sleeps, the loop sleeps at most 11 times in all, whatever the outcome |
| PidLockFile.ZeroTimeoutSleeps | code/libs/deepity/deepity/_lockfile/pidlockfile.py:107-122 | under a zero timeout the loop sleeps at most once, and only while the clock has not moved from `end_time` |
| PidLockFile.RunSleepsBounded | code/libs/deepity/deepity/_lockfile/pidlockfile.py:107-122 | with any timeout the loop sleeps at most `MaxSleeps` times (11, 1 or 0), so it ends within the given rounds once there are more of them |
| PidLockFile.AcquireOutcome | code/libs/deepity/deepity/_lockfile/pidlockfile.py:100-126 | the whole of `acquire` from its start: the frame and the LockFailed statements above; a lock file there at the start is taken only after another process removed it; a free path is taken on the first create; the outcome and clock conditions of each error; the bound on sleeps; every outcome but success and LockFailed ends with the lock file present and reachable; a lock removed during a sleep is taken by the next create; success at most t/10 past a positive deadline; AlreadyLocked without a sleep for a contended zero or negative timeout once the clock has moved |
| PidLockFile.PidLock.Attempt | code/libs/deepity/deepity/_lockfile/pidlockfile.py:111-126 | one pass of the loop computes `PassOf`: it returns on a successful create, after which `i_am_locking` holds; it raises LockFailed on a non-EEXIST error; on EEXIST it either raises (LockTimeout, AlreadyLocked or the sleep's IOError) or sleeps while another process may act |
| PidLockFile.PidLock.Acquire | code/libs/deepity/deepity/_lockfile/pidlockfile.py:100-126 | it computes `Run` and reports how many sleeps it took; its only write is its own exclusive create on a path the other processes left free, after which the file holds this pid and `i_am_locking` holds; on any other outcome the files are those the other processes left, so a lock held by another process is never overwritten or removed; a lock file there at the start is taken only after another process removed it; a free path is taken on the first create; LockFailed exactly when the path ends up unreachable, which for a path reachable at the start needs another process; only these errors are raised, LockTimeout only past a positive deadline and AlreadyLocked only after the clock moved under a zero or negative timeout; IOError(EINVAL) only for a negative timeout before the clock moved; a contended zero or negative timeout with a moving clock raises AlreadyLocked without sleeping; under a positive timeout, success comes at most a tenth of the timeout past the deadline; with a timeout the loop sleeps at most 11 times, and it runs out of rounds only after using them all; LockTimeout, AlreadyLocked, IOError(EINVAL) and running out of rounds all end with the lock file present and reachable; a lock removed during a sleep is taken by the next create; no other path changes |
| PidLockFile.PidLock.Release | code/libs/deepity/deepity/_lockfile/pidlockfile.py:128-139 | NotLocked when there is no lock file, then NotMyLock when it holds another pid, changing nothing; the owner's release removes the file, so the lock is no longer held, unless the removal is refused: then the OSError is passed on and this process still holds the lock |
| PidLockFile.PidLock.BreakLock | code/libs/deepity/deepity/_lockfile/pidlockfile.py:141-148 | it removes the lock file whoever holds it, and succeeds when there is none; a failed removal passes on its OSError (EACCES or EPERM) and changes nothing; afterwards the lock is held exactly when the removal was refused with EPERM |
| LockScenarios.TakeThenContend | code/libs/deepity/deepity/_lockfile/pidlockfile.py:100-126 | of two processes on one path, the first takes a free lock; the second, with a zero timeout after the clock has moved, gets AlreadyLocked; the lock file then holds the first one's pid |
| LockScenarios.OnlyOwnerReleases | code/libs/deepity/deepity/_lockfile/pidlockfile.py:128-139 | with the lock file holding one process's pid, another process's release is refused with NotMyLock and the owner's release removes the file |
| LockScenarios.TwoProcesses | code/libs/deepity/deepity/_lockfile/pidlockfile.py:100-148 | the two steps above in sequence; then a second release gets NotLocked, breaking a lock that is not there succeeds, and the files end as they began |
| LockScenarios.WaitForRelease | code/libs/deepity/deepity/_lockfile/pidlockfile.py:100-126 | a process waiting with a positive timeout takes the lock once its holder removes it during the sleep; the file then holds the waiter's pid, and the former holder no longer holds the lock |
| LockScenarios.RefusedRemoval | code/libs/deepity/deepity/_lockfile/pidlockfile.py:128-148 | when the owner may not remove its lock file, both its release and a break pass on EPERM, and it still holds the lock |

## Left out

- Real OS calls, the clock and sleeping are not modelled as such. The file store is an abstract map. A call on an unreachable path fails with EACCES, and a refused removal fails with EPERM. These two errnos stand for every other failure of the OS calls. EINVAL is used only for the failed sleep.
- A file system that turns read-only makes a create fail as well as a removal. The model refuses only the removal on an undeletable path, and the set of undeletable paths is fixed.
- The permission bits `0644` of the new file are not modelled (`pidlockfile.py:192`).
- A failure of `os.fdopen`, `write` or `close` after the exclusive create is not modelled. In Python it raises and leaves an empty or partial file behind.
- `os.getpid()` is the constant `pid` of each lock object.
- `LockBase` and the exception classes live in the package's `__init__.py`, which is not part of this model.
- `PIDLockFile.__init__` takes a `threaded` argument (`pidlockfile.py:71`) and ignores it, passing False to `LockBase` (`pidlockfile.py:74`). The model has no such argument.
- `__init__` also computes `dirname`, `basename` and `unique_name`; no operation here uses them, so they are not modelled.
- Floating-point time is modelled by exact reals. A positive timeout so small that `timeout/10` underflows to zero therefore sleeps a tenth of it here, where Python sleeps 0.1.
- PidLockFile.PidLock.Acquire: for a timeout given as a Python 2 `int`, `timeout/10` is floor division, so timeouts of 1 to 9 seconds sleep 0.1 each time. The model divides exactly.
- PidLockFile.PidLock.Acquire: the clock is taken to be monotonic (each `lag` is non-negative), and every sleep is taken to last its full length (no early return on a signal). The bound of 11 sleeps under a positive timeout rests on both assumptions. A clock set back, or sleeps cut short, can give more passes in the source.
- PidLockFile.PidLock.Acquire: without a timeout the source loops for as long as the lock is held. The model runs as many passes as the given rounds allow, then reports `StillWaiting`.
- Concurrency is modelled only as other processes acting on the lock path between two passes of `acquire`. Interleavings inside a single call, and other paths changing, are not modelled.
- PidLockFile.PidLock.Acquire: each sleep carries one action of the other processes. A removal followed by taking this process's access away within the same sleep has no single action, so it is not represented.
