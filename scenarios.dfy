/**
 * Two processes sharing one lock path, as the lock is meant to be used: each builds
 * its own lock object on the same file store, with its own process id.
 */
module LockScenarios {
  import opened Wrappers
  import opened FileSystem
  import opened PidText
  import opened PidLockFile

  /** Process `p` takes a free lock; process `q`, trying once with a zero timeout after
      the clock has moved, is refused, and the lock file goes on holding `p`. */
  method TakeThenContend(store: FileStore, path: string, p: int, q: int)
    returns (a: PidLock, b: PidLock, first: Acquisition, second: Acquisition)
    requires p != q && path !in store.files && path !in store.inaccessible
    modifies store
    ensures a.store == store && a.path == path && a.pid == p
    ensures b.store == store && b.path == path && b.pid == q
    ensures first == Acquired && second == Raised(AlreadyLocked)
    ensures store.files == old(store.files)[path := PidLine(p)]
    ensures store.inaccessible == old(store.inaccessible)
  {
    a := new PidLock(path, store, p);
    b := new PidLock(path, store, q);
    ghost var clock: real, sleeps: nat;
    ghost var held := old(store.files)[path := PidLine(p)];
    first, clock, sleeps := a.Acquire(Some(0.0), 0.0, [Round(1.0, Quiet)]);
    assert store.files == held;
    second, clock, sleeps := b.Acquire(Some(0.0), 0.0, [Round(1.0, Quiet)]);
  }

  /** With the lock file holding the pid of `a`'s process, `b`'s process cannot
      release it, and `a`'s can. */
  method OnlyOwnerReleases(a: PidLock, b: PidLock) returns (foreign: Outcome<LockError>, own: Outcome<LockError>)
    requires a.store == b.store && a.path == b.path && a.pid != b.pid
    requires a.store.Exists(a.path) && a.path !in a.store.undeletable
    requires a.store.files[a.path] == PidLine(a.pid)
    modifies a.store
    ensures foreign == Fail(NotMyLock) && own == Pass
    ensures a.store.files == old(a.store.files) - {a.path}
    ensures a.store.inaccessible == old(a.store.inaccessible)
  {
    b.OwnerFromContent(a.pid);
    foreign := b.Release();
    a.OwnerFromContent(a.pid);
    own := a.Release();
  }

  /** Then `q` cannot release the lock it does not hold; `p` releases it, a second
      release finds no lock, and breaking a lock that is not there succeeds and
      leaves the store as it began. */
  method TwoProcesses(store: FileStore, path: string, p: int, q: int)
    returns (first: Acquisition, second: Acquisition, foreign: Outcome<LockError>,
             own: Outcome<LockError>, again: Outcome<LockError>, broken: Outcome<LockError>)
    requires p != q && path !in store.files && path !in store.inaccessible && path !in store.undeletable
    modifies store
    ensures first == Acquired && second == Raised(AlreadyLocked)
    ensures foreign == Fail(NotMyLock) && own == Pass
    ensures again == Fail(NotLocked) && broken == Pass
    ensures store.files == old(store.files)
  {
    var a, b;
    a, b, first, second := TakeThenContend(store, path, p, q);
    foreign, own := OnlyOwnerReleases(a, b);
    assert store.files == old(store.files);
    again := a.Release();
    broken := b.BreakLock();
  }

  /** A lock file the owner may not remove (another user's sticky directory, a file
      system mounted read-only): its release and a break both pass on EPERM, and the
      owner still holds the lock afterwards. */
  method RefusedRemoval(a: PidLock) returns (released: Outcome<LockError>, broken: Outcome<LockError>)
    requires a.store.Exists(a.path) && a.path in a.store.undeletable
    requires a.store.files[a.path] == PidLine(a.pid)
    modifies a.store
    ensures released == Fail(OSError(EPERM)) && broken == Fail(OSError(EPERM))
    ensures a.IAmLocking() && a.store.files == old(a.store.files)
  {
    a.OwnerFromContent(a.pid);
    released := a.Release();
    broken := a.BreakLock();
  }

  /** While `b`'s process waits with a positive timeout on the lock `a`'s process
      holds, `a`'s process releases it during the sleep: the next create succeeds, and
      the lock file now holds `b`'s pid. */
  method WaitForRelease(a: PidLock, b: PidLock) returns (r: Acquisition)
    requires a.store == b.store && a.path == b.path && a.pid != b.pid
    requires a.IAmLocking()
    modifies b.store
    ensures r == Acquired && b.IAmLocking() && !a.IAmLocking()
    ensures b.store.files == old(b.store.files)[b.path := PidLine(b.pid)]
  {
    ghost var files, inaccessible := b.store.files, b.store.inaccessible;
    FreedWhileAsleep(Call(b.path, b.pid, Some(1.0), Deadline(0.0, Some(1.0))), 0.0, 1.0, files, inaccessible);
    ghost var clock: real, sleeps: nat;
    r, clock, sleeps := b.Acquire(Some(1.0), 0.0, [Round(0.0, Deletes)]);
    b.OwnerFromContent(b.pid);
    a.OwnerFromContent(b.pid);
  }
}
