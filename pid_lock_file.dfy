/**
 * A lock represented by a PID file: the lock is held while the file exists, and the
 * file records the process id of the process that created it. Mutual exclusion rests
 * on the exclusive create of the file alone.
 */
module PidLockFile {
  import opened Wrappers
  import opened PidText
  import opened FileSystem

  /** The exceptions the lock raises. */
  datatype LockError =
    | AlreadyLocked          // contention with a timeout of zero or less
    | LockTimeout            // contention past a positive timeout
    | LockFailed             // the create failed for a reason other than EEXIST
    | NotLocked              // release without a lock file
    | NotMyLock              // release of a lock file holding another pid
    | OSError(errno: Errno)  // a failed removal, passed on unchanged
    | IOError(errno: Errno)  // time.sleep given a negative duration

  // ---------------------------------------------------------------------------
  // The module-level functions
  // ---------------------------------------------------------------------------

  /** `read_pid_from_pidfile`: the pid recorded at `path`, or `None` when the file
      cannot be opened or its first line is not an integer. It never raises. */
  function ReadPidFromPidfile(fs: FileStore, path: string): (r: Option<int>)
    reads fs
    ensures !fs.Exists(path) ==> r == None
    ensures fs.Exists(path) ==> r == ParsePid(fs.files[path])
  {
    match fs.Open(path)
    case None => None
    case Some(content) => ParsePid(content)
  }

  /** `write_pid_to_pidfile`: creates `path` exclusively and writes `pid` to it as a
      line of decimal digits. Fails with EEXIST, changing nothing, when the path is
      already there. */
  method WritePidToPidfile(fs: FileStore, path: string, pid: int) returns (r: Outcome<Errno>)
    modifies fs
    ensures fs.inaccessible == old(fs.inaccessible)
    ensures r.Pass? <==> path !in old(fs.files) && path !in fs.inaccessible
    ensures r.Fail? ==> r.error == (if path in fs.inaccessible then EACCES else EEXIST)
    ensures r.Fail? ==> fs.files == old(fs.files)
    ensures r.Pass? ==> fs.files == old(fs.files)[path := PidLine(pid)]
    ensures r.Pass? ==> fs.Open(path) == Some(PidLine(pid))
  {
    r := fs.CreateExclusive(path);
    if r.Pass? {
      ghost var before := fs.files;
      fs.Append(path, PidLine(pid));
      assert "" + PidLine(pid) == PidLine(pid);
      assert fs.files == before[path := PidLine(pid)];
    }
  }

  /** A PID file holding the line written for `pid` is read back as `pid`. */
  lemma WrittenPidReadsBack(fs: FileStore, path: string, pid: int)
    requires fs.Exists(path) && fs.files[path] == PidLine(pid)
    ensures ReadPidFromPidfile(fs, path) == Some(pid)
  {
    RoundTrip(pid);
  }

  /** `remove_existing_pidfile`: removes `path`; a path that is already gone is not
      an error, so a second call changes nothing. Any other failure is passed on, and
      only a refused removal leaves the file in sight. */
  method RemoveExistingPidfile(fs: FileStore, path: string) returns (r: Outcome<Errno>)
    modifies fs
    ensures fs.inaccessible == old(fs.inaccessible)
    ensures r.Pass? <==> path !in fs.inaccessible && (path !in old(fs.files) || path !in fs.undeletable)
    ensures r.Pass? ==> fs.files == old(fs.files) - {path}
    ensures r.Fail? ==> r.error == (if path in fs.inaccessible then EACCES else EPERM) && fs.files == old(fs.files)
    ensures fs.Exists(path) <==> r == Fail(EPERM)
  {
    r := fs.Remove(path);
    if r == Fail(ENOENT) {
      r := Pass;
    }
  }

  // ---------------------------------------------------------------------------
  // Acquire's handling of contention
  // ---------------------------------------------------------------------------

  type Duration = d: real | d >= 0.0

  /** `end_time`: the clock reading at the start, moved on by the timeout only when
      the timeout is positive. */
  function Deadline(start: real, timeout: Option<real>): (end: real)
    ensures end >= start
    ensures timeout.Some? && timeout.value > 0.0 ==> end == start + timeout.value
    ensures timeout.None? || timeout.value <= 0.0 ==> end == start
  {
    if timeout.Some? && timeout.value > 0.0 then start + timeout.value else start
  }

  /** The argument of `time.sleep`: `timeout is not None and timeout/10 or 0.1`, where
      a zero quotient is falsy and falls through to 0.1. */
  function RetryDelay(timeout: Option<real>): (d: real)
    ensures timeout.None? || timeout == Some(0.0) ==> d == 0.1
    ensures timeout.Some? && timeout.value != 0.0 ==> d * 10.0 == timeout.value
    ensures d < 0.0 <==> timeout.Some? && timeout.value < 0.0
  {
    if timeout.Some? && timeout.value / 10.0 != 0.0 then timeout.value / 10.0 else 0.1
  }

  /** What acquire does after a create failed with EEXIST. */
  datatype Reaction = Retry(delay: real) | GiveUp(error: LockError)

  /** The reaction to EEXIST, given the deadline and the clock reading taken then;
      without a timeout the clock is not consulted. */
  function OnContention(timeout: Option<real>, deadline: real, now: real): (r: Reaction)
    ensures timeout.None? ==> r == Retry(0.1)
    ensures r.GiveUp? <==> timeout.Some? && now > deadline
    ensures r.Retry? ==> r.delay == RetryDelay(timeout)
  {
    if timeout.Some? && now > deadline then
      GiveUp(if timeout.value > 0.0 then LockTimeout else AlreadyLocked)
    else
      Retry(RetryDelay(timeout))
  }

  /** The classification of contention: past a positive timeout it is LockTimeout,
      once the clock has moved with a zero or negative timeout it is AlreadyLocked,
      and before that acquire sleeps a tenth of the timeout (0.1 for a zero timeout). */
  lemma ContentionOutcomes(start: real, t: real, now: real)
    requires now >= start
    ensures OnContention(Some(t), Deadline(start, Some(t)), now) == GiveUp(LockTimeout)
            <==> t > 0.0 && now > start + t
    ensures OnContention(Some(t), Deadline(start, Some(t)), now) == GiveUp(AlreadyLocked)
            <==> t <= 0.0 && now > start
    ensures t > 0.0 && now <= start + t ==> OnContention(Some(t), Deadline(start, Some(t)), now) == Retry(t / 10.0)
    ensures t == 0.0 && now == start ==> OnContention(Some(t), Deadline(start, Some(t)), now) == Retry(0.1)
  {
  }

  /** The most sleeps acquire can take with a timeout `t`: after eleven sleeps of
      t/10 the clock is past a positive deadline, after one sleep past a zero one, and
      a negative timeout never sleeps (the sleep itself fails). */
  function MaxSleeps(t: real): (n: nat)
    ensures n <= 11
  {
    if t > 0.0 then 11 else if t == 0.0 then 1 else 0
  }

  /** What the rest of the system does in one pass of acquire's loop after a failed
      create: `lag` is the time that passes, on top of the sleeps, until the clock is
      read; `other` is what other processes do to the lock path during the sleep. */
  datatype Round = Round(lag: Duration, other: Interference)

  /** How a call of acquire ends. `StillWaiting` means the given rounds ran out while
      the loop would go on retrying. */
  datatype Acquisition = Acquired | Raised(error: LockError) | StillWaiting

  /** The lock path's files after what other processes do in `rounds`, in order. */
  function Replay(files: map<string, string>, path: string, rounds: seq<Round>): (after: map<string, string>)
    ensures after - {path} == files - {path}
    ensures (forall i :: 0 <= i < |rounds| ==> rounds[i].other.Quiet? || rounds[i].other.Blocks?) ==> after == files
    ensures path in files && path !in after ==> exists i :: 0 <= i < |rounds| && rounds[i].other.Deletes?
    decreases |rounds|
  {
    if rounds == [] then files
    else
      assert forall i :: 0 <= i < |rounds| - 1 ==> rounds[1..][i] == rounds[i + 1];
      Replay(Interfered(files, path, rounds[0].other), path, rounds[1..])
  }

  /** The unreachable paths after what other processes do in `rounds`: the lock path
      is out of reach exactly when it was already, or some round took it away. */
  function ReplayAccess(inaccessible: set<string>, path: string, rounds: seq<Round>): (after: set<string>)
    ensures after - {path} == inaccessible - {path}
    ensures path in after <==> path in inaccessible || exists i :: 0 <= i < |rounds| && rounds[i].other.Blocks?
    decreases |rounds|
  {
    if rounds == [] then inaccessible
    else
      assert forall i :: 0 <= i < |rounds| - 1 ==> rounds[1..][i] == rounds[i + 1];
      ReplayAccess(Revoked(inaccessible, path, rounds[0].other), path, rounds[1..])
  }

  // ---------------------------------------------------------------------------
  // Acquire's loop as a function of the store and the rounds
  // ---------------------------------------------------------------------------

  /** What stays fixed during one call of acquire: the lock path, the caller's pid,
      the timeout and the deadline computed from it. */
  datatype Call = Call(path: string, pid: int, timeout: Option<real>, deadline: real)

  /** The end of one pass of the loop: `Some(outcome)` ends the call and `None` goes
      round again; `later` is the clock and `files`, `inaccessible` the store after
      the pass. */
  datatype Step = Step(outcome: Option<Acquisition>, later: real, files: map<string, string>, inaccessible: set<string>)

  /** How a whole call of acquire ends: its result, the clock, the number of sleeps
      it took, and the store. */
  datatype Ending = Ending(result: Acquisition, clock: real, sleeps: nat, files: map<string, string>, inaccessible: set<string>)

  /** One pass of the loop: the exclusive create of `write_pid_to_pidfile` and, on
      EEXIST, the clock check and the sleep, during which `round.other` happens.
      `round` is `None` once the rounds have run out. */
  function PassOf(c: Call, now: real, round: Option<Round>, files: map<string, string>, inaccessible: set<string>): (s: Step)
    ensures s.files - {c.path} == files - {c.path}
    ensures s.inaccessible - {c.path} == inaccessible - {c.path}
    ensures s.outcome.None? ==> round.Some? && c.path in files && c.path !in inaccessible
    ensures s.outcome.None? ==> s.later == now + round.value.lag + RetryDelay(c.timeout) && RetryDelay(c.timeout) >= 0.0
    ensures s.outcome.Some? ==> s.inaccessible == inaccessible
  {
    if c.path in inaccessible then Step(Some(Raised(LockFailed)), now, files, inaccessible)
    else if c.path !in files then Step(Some(Acquired), now, files[c.path := PidLine(c.pid)], inaccessible)
    else if round.None? then Step(Some(StillWaiting), now, files, inaccessible)
    else
      var seen := now + round.value.lag;
      match OnContention(c.timeout, c.deadline, seen)
      case GiveUp(e) => Step(Some(Raised(e)), seen, files, inaccessible)
      case Retry(d) =>
        if d < 0.0 then Step(Some(Raised(IOError(EINVAL))), seen, files, inaccessible)
        else Step(None, seen + d, Interfered(files, c.path, round.value.other), Revoked(inaccessible, c.path, round.value.other))
  }

  /** The round of the pass after `k` sleeps, if one is left. */
  function RoundAt(rounds: seq<Round>, k: nat): (r: Option<Round>)
    ensures r.Some? <==> k < |rounds|
    ensures r.Some? ==> r.value == rounds[k]
  {
    if k < |rounds| then Some(rounds[k]) else None
  }

  /** Acquire's loop from the pass after `k` sleeps, with the clock reading `now`;
      each pass that sleeps uses one round. Only the lock path can change. */
  function Run(c: Call, now: real, rounds: seq<Round>, k: nat, files: map<string, string>, inaccessible: set<string>): (e: Ending)
    requires k <= |rounds|
    ensures k <= e.sleeps <= |rounds|
    ensures e.files - {c.path} == files - {c.path}
    ensures e.inaccessible - {c.path} == inaccessible - {c.path}
    decreases |rounds| - k
  {
    var s := PassOf(c, now, RoundAt(rounds, k), files, inaccessible);
    if s.outcome.Some? then Ending(s.outcome.value, s.later, k, s.files, s.inaccessible)
    else Run(c, s.later, rounds, k + 1, s.files, s.inaccessible)
  }

  /** Acquire's only write is its own exclusive create: the files it leaves are the
      ones other processes left during its sleeps, with its own PID file added
      exactly when it succeeds, and then only on a path those processes left free.
      A lock file of another process is never overwritten or removed. */
  lemma {:induction false} RunKeepsOthersLock(c: Call, now: real, rounds: seq<Round>, k: nat, files: map<string, string>, inaccessible: set<string>)
    requires k <= |rounds|
    ensures var e := Run(c, now, rounds, k, files, inaccessible);
      var others := Replay(files, c.path, rounds[k..e.sleeps]);
      && (e.result.Acquired? ==> c.path !in others && e.files == others[c.path := PidLine(c.pid)])
      && (!e.result.Acquired? ==> e.files == others)
    decreases |rounds| - k
  {
    var s := PassOf(c, now, RoundAt(rounds, k), files, inaccessible);
    if s.outcome.None? {
      RunKeepsOthersLock(c, s.later, rounds, k + 1, s.files, s.inaccessible);
      var e := Run(c, s.later, rounds, k + 1, s.files, s.inaccessible);
      assert rounds[k..e.sleeps][1..] == rounds[k + 1..e.sleeps];
    } else {
      assert rounds[k..k] == [];
    }
  }

  /** A lock freed during a sleep can be taken by another process first: acquire then
      meets EEXIST again, keeps waiting, and leaves that process's file alone. */
  lemma TakenWhileAsleep(c: Call, start: real, t: real, files: map<string, string>, inaccessible: set<string>, content: string)
    requires c.path in files && c.path !in inaccessible
    requires c.timeout == Some(t) && t > 0.0 && c.deadline == start + t
    ensures var e := Run(c, start, [Round(0.0, Takes(content))], 0, files, inaccessible);
      e.result == StillWaiting && e.sleeps == 1 && e.files == files[c.path := content]
  {
    var s := PassOf(c, start, Some(Round(0.0, Takes(content))), files, inaccessible);
    assert s.outcome.None? && s.files == files[c.path := content];
  }

  /** A lock another process removes during a sleep is free at the next create:
      acquire takes it then, after that one sleep. */
  lemma FreedWhileAsleep(c: Call, start: real, t: real, files: map<string, string>, inaccessible: set<string>)
    requires c.path in files && c.path !in inaccessible
    requires c.timeout == Some(t) && t > 0.0 && c.deadline == start + t
    ensures var e := Run(c, start, [Round(0.0, Deletes)], 0, files, inaccessible);
      e.result == Acquired && e.sleeps == 1 && e.files == files[c.path := PidLine(c.pid)]
  {
    var s := PassOf(c, start, Some(Round(0.0, Deletes)), files, inaccessible);
    assert s.outcome.None? && c.path !in s.files && c.path !in s.inaccessible;
  }

  /** Every ending other than success and LockFailed comes from contention: the lock
      file is there and reachable. And a lock removed during a sleep is taken by the
      very next create, so a Deletes round can only be the last round used. */
  lemma {:induction false} RunContended(c: Call, now: real, rounds: seq<Round>, k: nat, files: map<string, string>, inaccessible: set<string>)
    requires k <= |rounds|
    ensures var e := Run(c, now, rounds, k, files, inaccessible);
      !e.result.Acquired? && e.result != Raised(LockFailed) ==> c.path in e.files && c.path !in e.inaccessible
    ensures var e := Run(c, now, rounds, k, files, inaccessible);
      forall i :: k <= i < e.sleeps && rounds[i].other.Deletes? ==> i == e.sleeps - 1 && e.result == Acquired
    decreases |rounds| - k
  {
    var s := PassOf(c, now, RoundAt(rounds, k), files, inaccessible);
    if s.outcome.None? {
      RunContended(c, s.later, rounds, k + 1, s.files, s.inaccessible);
      if rounds[k].other.Deletes? {
        assert c.path !in s.files && c.path !in s.inaccessible;
      }
    }
  }

  /** Acquire raises LockFailed exactly when it ends with the lock path out of reach,
      and only other processes change which paths are out of reach. */
  lemma {:induction false} RunFailsOnlyUnreachable(c: Call, now: real, rounds: seq<Round>, k: nat, files: map<string, string>, inaccessible: set<string>)
    requires k <= |rounds|
    ensures var e := Run(c, now, rounds, k, files, inaccessible);
      && e.inaccessible == ReplayAccess(inaccessible, c.path, rounds[k..e.sleeps])
      && (e.result == Raised(LockFailed) <==> c.path in e.inaccessible)
    decreases |rounds| - k
  {
    var s := PassOf(c, now, RoundAt(rounds, k), files, inaccessible);
    if s.outcome.None? {
      RunFailsOnlyUnreachable(c, s.later, rounds, k + 1, s.files, s.inaccessible);
      var e := Run(c, s.later, rounds, k + 1, s.files, s.inaccessible);
      assert rounds[k..e.sleeps][1..] == rounds[k + 1..e.sleeps];
    } else {
      assert rounds[k..k] == [];
    }
  }

  /** How acquire can end, and where the clock stands then: only four errors are
      raised; without a timeout only LockFailed; LockTimeout and AlreadyLocked only
      past the deadline, for a positive and for a zero or negative timeout; the
      failed sleep only for a negative timeout, not past the deadline; and the loop
      waits on only when every round has been used. */
  lemma {:induction false} RunEndings(c: Call, now: real, rounds: seq<Round>, k: nat, files: map<string, string>, inaccessible: set<string>)
    requires k <= |rounds|
    ensures var e := Run(c, now, rounds, k, files, inaccessible);
      && e.clock >= now
      && (e.result.Raised? ==> e.result.error in {LockFailed, LockTimeout, AlreadyLocked, IOError(EINVAL)})
      && (c.timeout.None? ==> e.result.Acquired? || e.result == Raised(LockFailed) || e.result.StillWaiting?)
      && (e.result == Raised(LockTimeout) ==> c.timeout.Some? && c.timeout.value > 0.0 && e.clock > c.deadline)
      && (e.result == Raised(AlreadyLocked) ==> c.timeout.Some? && c.timeout.value <= 0.0 && e.clock > c.deadline)
      && (e.result == Raised(IOError(EINVAL)) ==> c.timeout.Some? && c.timeout.value < 0.0 && e.clock <= c.deadline)
      && (e.result.StillWaiting? ==> e.sleeps == |rounds|)
    decreases |rounds| - k
  {
    var s := PassOf(c, now, RoundAt(rounds, k), files, inaccessible);
    if s.outcome.None? {
      RunEndings(c, s.later, rounds, k + 1, s.files, s.inaccessible);
    }
  }

  /** Under a positive timeout t, acquire succeeds no later than a tenth of t past
      the deadline: it only sleeps when the clock is not past the deadline. */
  lemma {:induction false} RunAcquiresInTime(c: Call, t: real, now: real, rounds: seq<Round>, k: nat, files: map<string, string>, inaccessible: set<string>)
    requires k <= |rounds|
    requires c.timeout == Some(t) && t > 0.0 && now <= c.deadline + t / 10.0
    ensures Run(c, now, rounds, k, files, inaccessible).result.Acquired?
            ==> Run(c, now, rounds, k, files, inaccessible).clock <= c.deadline + t / 10.0
    decreases |rounds| - k
  {
    var s := PassOf(c, now, RoundAt(rounds, k), files, inaccessible);
    if s.outcome.None? {
      assert s.later == now + rounds[k].lag + t / 10.0;
      RunAcquiresInTime(c, t, s.later, rounds, k + 1, s.files, s.inaccessible);
    }
  }

  /** Eleven tenths of a positive duration exceed it. */
  lemma TenthsBound(j: nat, t: real)
    ensures t > 0.0 && (j as real) * (t / 10.0) <= t ==> j <= 10
  {
    if t > 0.0 && j > 10 {
      assert (j as real) * (t / 10.0) >= 11.0 * (t / 10.0);
    }
  }

  /** Under a positive timeout, with the clock at least `k` tenths of it past the
      start after `k` sleeps, the loop sleeps at most 11 times in all. */
  lemma {:induction false} PositiveTimeoutSleeps(c: Call, start: real, t: real, now: real, rounds: seq<Round>, k: nat, files: map<string, string>, inaccessible: set<string>)
    requires k <= |rounds| && k <= 11
    requires c.timeout == Some(t) && t > 0.0 && c.deadline == start + t
    requires now >= start + (k as real) * (t / 10.0)
    ensures Run(c, now, rounds, k, files, inaccessible).sleeps <= 11
    decreases |rounds| - k
  {
    var s := PassOf(c, now, RoundAt(rounds, k), files, inaccessible);
    if s.outcome.None? {
      assert now + rounds[k].lag <= start + t;
      TenthsBound(k, t);
      assert s.later == now + rounds[k].lag + t / 10.0;
      assert ((k + 1) as real) * (t / 10.0) == (k as real) * (t / 10.0) + t / 10.0;
      PositiveTimeoutSleeps(c, start, t, s.later, rounds, k + 1, s.files, s.inaccessible);
    }
  }

  /** Under a zero timeout the loop sleeps once more at most, and only while the clock
      has not moved from the start. */
  lemma {:induction false} ZeroTimeoutSleeps(c: Call, start: real, now: real, rounds: seq<Round>, k: nat, files: map<string, string>, inaccessible: set<string>)
    requires k <= |rounds|
    requires c.timeout == Some(0.0) && c.deadline == start && now >= start
    ensures Run(c, now, rounds, k, files, inaccessible).sleeps <= k + (if now > start then 0 else 1)
    decreases |rounds| - k
  {
    var s := PassOf(c, now, RoundAt(rounds, k), files, inaccessible);
    if s.outcome.None? {
      assert s.later == now + rounds[k].lag + 0.1;
      ZeroTimeoutSleeps(c, start, s.later, rounds, k + 1, s.files, s.inaccessible);
    }
  }

  /** With a timeout, acquire sleeps at most `MaxSleeps` times, whatever the outcome;
      so given more rounds than that it never runs out of them. */
  lemma RunSleepsBounded(c: Call, start: real, t: real, rounds: seq<Round>, files: map<string, string>, inaccessible: set<string>)
    requires c.timeout == Some(t) && c.deadline == Deadline(start, Some(t))
    ensures Run(c, start, rounds, 0, files, inaccessible).sleeps <= MaxSleeps(t)
  {
    if t > 0.0 {
      PositiveTimeoutSleeps(c, start, t, start, rounds, 0, files, inaccessible);
    } else if t == 0.0 {
      ZeroTimeoutSleeps(c, start, start, rounds, 0, files, inaccessible);
    } else {
      var s := PassOf(c, start, RoundAt(rounds, 0), files, inaccessible);
      assert s.outcome.Some?;
    }
  }

  /** Everything the lemmas above say about a whole call of acquire, from the start
      of its loop with the deadline set from `start`. */
  lemma AcquireOutcome(c: Call, start: real, rounds: seq<Round>, files: map<string, string>, inaccessible: set<string>)
    requires c.deadline == Deadline(start, c.timeout)
    ensures var e := Run(c, start, rounds, 0, files, inaccessible);
      var others := Replay(files, c.path, rounds[..e.sleeps]);
      && (e.result.Acquired? ==> c.path !in others && e.files == others[c.path := PidLine(c.pid)])
      && (!e.result.Acquired? ==> e.files == others)
      && (e.result.Acquired? && c.path in files ==> exists i :: 0 <= i < e.sleeps && rounds[i].other.Deletes?)
      && (c.path !in files && c.path !in inaccessible ==> e.result == Acquired && e.sleeps == 0)
      && e.inaccessible == ReplayAccess(inaccessible, c.path, rounds[..e.sleeps])
      && (e.result == Raised(LockFailed) <==> c.path in e.inaccessible)
      && (e.result == Raised(LockFailed) && c.path !in inaccessible
          ==> exists i :: 0 <= i < e.sleeps && rounds[i].other.Blocks?)
      && (e.result.Raised? ==> e.result.error in {LockFailed, LockTimeout, AlreadyLocked, IOError(EINVAL)})
      && (c.timeout.None? ==> e.result.Acquired? || e.result == Raised(LockFailed) || e.result.StillWaiting?)
      && (e.result == Raised(LockTimeout) ==> c.timeout.Some? && c.timeout.value > 0.0 && e.clock > start + c.timeout.value)
      && (e.result == Raised(AlreadyLocked) ==> c.timeout.Some? && c.timeout.value <= 0.0 && e.clock > start)
      && (e.result == Raised(IOError(EINVAL)) ==> c.timeout.Some? && c.timeout.value < 0.0 && e.clock == start)
      && (e.result.StillWaiting? ==> e.sleeps == |rounds|)
      && (c.timeout.Some? ==> e.sleeps <= MaxSleeps(c.timeout.value))
      && (e.result.Acquired? && c.timeout.Some? && c.timeout.value > 0.0
          ==> e.clock <= start + c.timeout.value + c.timeout.value / 10.0)
      && ((c.timeout.Some? && c.timeout.value <= 0.0 && c.path in files && c.path !in inaccessible
           && |rounds| > 0 && rounds[0].lag > 0.0)
          ==> e.result == Raised(AlreadyLocked) && e.sleeps == 0)
      && (!e.result.Acquired? && e.result != Raised(LockFailed) ==> c.path in e.files && c.path !in e.inaccessible)
      && (forall i :: 0 <= i < e.sleeps && rounds[i].other.Deletes? ==> i == e.sleeps - 1 && e.result == Acquired)
      && e.clock >= start
  {
    var e := Run(c, start, rounds, 0, files, inaccessible);
    RunContended(c, start, rounds, 0, files, inaccessible);
    RunKeepsOthersLock(c, start, rounds, 0, files, inaccessible);
    RunFailsOnlyUnreachable(c, start, rounds, 0, files, inaccessible);
    assert rounds[0..e.sleeps] == rounds[..e.sleeps];
    RunEndings(c, start, rounds, 0, files, inaccessible);
    if c.timeout.Some? {
      RunSleepsBounded(c, start, c.timeout.value, rounds, files, inaccessible);
      if c.timeout.value > 0.0 {
        RunAcquiresInTime(c, c.timeout.value, start, rounds, 0, files, inaccessible);
      }
    }
  }

  // ---------------------------------------------------------------------------
  // The lock object
  // ---------------------------------------------------------------------------

  class PidLock {
    const path: string
    const store: FileStore
    /** `os.getpid()` of the process using this lock object. */
    const pid: int

    constructor (path: string, store: FileStore, pid: int)
      ensures this.path == path && this.store == store && this.pid == pid
    {
      this.path := path;
      this.store := store;
      this.pid := pid;
    }

    /** `read_pid`. */
    function ReadPid(): Option<int>
      reads store
    {
      ReadPidFromPidfile(store, path)
    }

    /** `is_locked`: the lock is held, by somebody, exactly when the file exists. */
    predicate IsLocked()
      reads store
    {
      store.Exists(path)
    }

    /** `i_am_locking`: the file exists and records this process's pid. */
    predicate IAmLocking()
      reads store
    {
      IsLocked() && ReadPid() == Some(pid)
    }

    /** A lock file written for pid `q` is read back as `q`: it is this process's lock
        exactly when `q` is this process's pid. */
    lemma OwnerFromContent(q: int)
      requires store.Exists(path) && store.files[path] == PidLine(q)
      ensures IsLocked() && ReadPid() == Some(q)
      ensures IAmLocking() <==> q == pid
    {
      RoundTrip(q);
    }

    /** Whenever `i_am_locking` holds, the lock file is there and its first line is
        white space, an optional sign, white space, decimal digits and white space,
        the digits being this process's pid. */
    lemma MineOnFile() returns (pre: string, sign: string, gap: string, digits: string, post: string)
      requires IAmLocking()
      ensures path in store.files && path !in store.inaccessible
      ensures ReadLine(store.files[path]) == pre + sign + gap + digits + post
      ensures AllSpace(pre) && AllSpace(post) && AllSpace(gap) && IsDecimal(digits)
      ensures |sign| <= 1 && (sign != [] ==> IsSign(sign[0])) && (sign == [] ==> gap == [])
      ensures pid == (if sign == "-" then -(DecimalValue(digits) as int) else DecimalValue(digits) as int)
    {
      pre, sign, gap, digits, post := ParsedLineShape(store.files[path], pid);
    }

    /** One pass of acquire's loop, as `PassOf` describes it. */
    method Attempt(timeout: Option<real>, deadline: real, now: real, round: Option<Round>)
      returns (outcome: Option<Acquisition>, later: real)
      modifies store
      ensures Step(outcome, later, store.files, store.inaccessible)
              == PassOf(Call(path, pid, timeout, deadline), now, round, old(store.files), old(store.inaccessible))
      ensures outcome == Some(Acquired) ==> IAmLocking()
    {
      var created := WritePidToPidfile(store, path, pid);
      if created.Pass? {
        OwnerFromContent(pid);
        return Some(Acquired), now;
      }
      if created.error != EEXIST {
        return Some(Raised(LockFailed)), now;
      }
      if round.None? {
        return Some(StillWaiting), now;
      }
      later := now + round.value.lag;
      var reaction := OnContention(timeout, deadline, later);
      if reaction.GiveUp? {
        return Some(Raised(reaction.error)), later;
      }
      if reaction.delay < 0.0 {
        return Some(Raised(IOError(EINVAL))), later;
      }
      later := later + reaction.delay;
      store.Interfere(path, round.value.other);
      outcome := None;
    }

    /** `acquire(timeout)`. `start` is the clock reading that sets `end_time`, and
        `rounds` is what the clock and other processes do in each pass that meets
        EEXIST; `sleeps` is how many of them the call used. Its only write is its own
        exclusive create, on a path the other processes left free: a held lock file
        is never overwritten or removed. */
    method Acquire(timeout: Option<real>, start: real, rounds: seq<Round>)
      returns (r: Acquisition, ghost clock: real, ghost sleeps: nat)
      modifies store
      ensures Ending(r, clock, sleeps, store.files, store.inaccessible)
              == Run(Call(path, pid, timeout, Deadline(start, timeout)), start, rounds, 0, old(store.files), old(store.inaccessible))
      ensures sleeps <= |rounds|
      ensures r.Acquired? ==> path !in Replay(old(store.files), path, rounds[..sleeps])
      ensures r.Acquired? ==> store.files == Replay(old(store.files), path, rounds[..sleeps])[path := PidLine(pid)] && IAmLocking()
      ensures !r.Acquired? ==> store.files == Replay(old(store.files), path, rounds[..sleeps])
      ensures r.Acquired? && path in old(store.files) ==> exists i :: 0 <= i < sleeps && rounds[i].other.Deletes?
      ensures path !in old(store.files) && path !in old(store.inaccessible) ==> r == Acquired && sleeps == 0
      ensures store.inaccessible == ReplayAccess(old(store.inaccessible), path, rounds[..sleeps])
      ensures r == Raised(LockFailed) <==> path in store.inaccessible
      ensures r == Raised(LockFailed) && path !in old(store.inaccessible)
              ==> exists i :: 0 <= i < sleeps && rounds[i].other.Blocks?
      ensures r.Raised? ==> r.error in {LockFailed, LockTimeout, AlreadyLocked, IOError(EINVAL)}
      ensures timeout.None? ==> r.Acquired? || r == Raised(LockFailed) || r.StillWaiting?
      ensures r == Raised(LockTimeout) ==> timeout.Some? && timeout.value > 0.0 && clock > start + timeout.value
      ensures r == Raised(AlreadyLocked) ==> timeout.Some? && timeout.value <= 0.0 && clock > start
      ensures r == Raised(IOError(EINVAL)) ==> timeout.Some? && timeout.value < 0.0 && clock == start
      ensures r.StillWaiting? ==> sleeps == |rounds|
      ensures timeout.Some? ==> sleeps <= MaxSleeps(timeout.value)
      ensures r.Acquired? && timeout.Some? && timeout.value > 0.0 ==> clock <= start + timeout.value + timeout.value / 10.0
      ensures timeout.Some? && timeout.value <= 0.0 && old(IsLocked()) && |rounds| > 0 && rounds[0].lag > 0.0
              ==> r == Raised(AlreadyLocked) && sleeps == 0
      ensures !r.Acquired? && r != Raised(LockFailed) ==> path in store.files && path !in store.inaccessible
      ensures forall i :: 0 <= i < sleeps && rounds[i].other.Deletes? ==> i == sleeps - 1 && r == Acquired
      ensures clock >= start
    {
      var call := Call(path, pid, timeout, Deadline(start, timeout));
      ghost var ending := Run(call, start, rounds, 0, store.files, store.inaccessible);
      AcquireOutcome(call, start, rounds, store.files, store.inaccessible);
      var now := start;
      var k := 0;
      while true
        invariant 0 <= k <= |rounds|
        invariant Run(call, now, rounds, k, store.files, store.inaccessible) == ending
        decreases |rounds| - k
      {
        var outcome, later := Attempt(timeout, call.deadline, now, RoundAt(rounds, k));
        if outcome.Some? {
          return outcome.value, later, k;
        }
        now := later;
        k := k + 1;
      }
    }

    /** `release`: refuses with NotLocked when there is no lock file, then with
        NotMyLock when the file holds another pid; otherwise removes the file, passing
        on the OSError of a removal that fails. */
    method Release() returns (r: Outcome<LockError>)
      modifies store
      ensures store.inaccessible == old(store.inaccessible)
      ensures !old(IsLocked()) ==> r == Fail(NotLocked)
      ensures old(IsLocked()) && !old(IAmLocking()) ==> r == Fail(NotMyLock)
      ensures old(IAmLocking()) ==> r == (if path in store.undeletable then Fail(OSError(EPERM)) else Pass)
      ensures r.Fail? ==> store.files == old(store.files)
      ensures r == Fail(OSError(EPERM)) ==> IAmLocking()
      ensures r.Pass? ==> store.files == old(store.files) - {path} && !IsLocked()
    {
      if !IsLocked() {
        return Fail(NotLocked);
      }
      if !IAmLocking() {
        return Fail(NotMyLock);
      }
      var removed := RemoveExistingPidfile(store, path);
      r := if removed.Pass? then Pass else Fail(OSError(removed.error));
    }

    /** `break_lock`: removes the lock file whoever holds it; no file is no error, and
        the OSError of a removal that fails is passed on. */
    method BreakLock() returns (r: Outcome<LockError>)
      modifies store
      ensures store.inaccessible == old(store.inaccessible)
      ensures r.Pass? <==> path !in store.inaccessible && (path !in old(store.files) || path !in store.undeletable)
      ensures r.Pass? ==> store.files == old(store.files) - {path}
      ensures r.Fail? ==> r == Fail(OSError(if path in store.inaccessible then EACCES else EPERM))
      ensures r.Fail? ==> store.files == old(store.files)
      ensures IsLocked() <==> r == Fail(OSError(EPERM))
    {
      var removed := RemoveExistingPidfile(store, path);
      r := if removed.Pass? then Pass else Fail(OSError(removed.error));
    }
  }
}
