/**
 * The few operating-system primitives the PID-file lock is built on, over an abstract
 * file store: a map from path to file content, the set of paths this process cannot
 * reach at all, and the set of paths whose file it can see but not remove. Calls are sequential; another process can act on a path only
 * through `Interfere`, between two of this process's calls.
 *
 * File content is a string whose characters stand for the bytes of the file.
 */
module FileSystem {
  import opened Wrappers

  /** The `errno` of a failed OS call. EPERM stands for a removal refused on a file
      that stays in place, and EACCES for a call on a path out of reach. */
  datatype Errno = EEXIST | ENOENT | EINVAL | EACCES | EPERM

  /** What other processes do to a path while this one is not looking: nothing;
      leave their own file with `content` there (a create of their own on a free
      path, or on a held one after its holder removed it); remove the file; or take
      this process's access to the path away (a permission change on its directory,
      say), after which every call of this process on it fails. */
  datatype Interference = Quiet | Takes(content: string) | Deletes | Blocks

  /** The files after another process has acted on `path`: only `path` can change. */
  function Interfered(files: map<string, string>, path: string, act: Interference): (after: map<string, string>)
    ensures after - {path} == files - {path}
    ensures act.Quiet? ==> after == files
    ensures act.Takes? ==> path in after && after[path] == act.content
    ensures act.Deletes? ==> path !in after
  {
    match act
    case Quiet => files
    case Takes(content) => files[path := content]
    case Deletes => files - {path}
    case Blocks => files
  }

  /** The unreachable paths after another process has acted on `path`. */
  function Revoked(inaccessible: set<string>, path: string, act: Interference): (after: set<string>)
    ensures after - {path} == inaccessible - {path}
    ensures path in after <==> path in inaccessible || act.Blocks?
  {
    if act.Blocks? then inaccessible + {path} else inaccessible
  }

  class FileStore {
    var files: map<string, string>
    /** Paths on which every call of this process fails with EACCES (a directory it
        may not search, for instance). Only another process changes it. */
    var inaccessible: set<string>
    /** Paths whose file this process can see and read but not remove: another
        user's file in a sticky directory such as /tmp, or a file system mounted
        read-only. Removing it fails with EPERM and leaves it in place. */
    const undeletable: set<string>

    constructor (files: map<string, string>, inaccessible: set<string>, undeletable: set<string>)
      ensures this.files == files && this.inaccessible == inaccessible
      ensures this.undeletable == undeletable
    {
      this.files := files;
      this.inaccessible := inaccessible;
      this.undeletable := undeletable;
    }

    /** `os.path.exists(path)`: false for a missing path and also for one the call
        cannot reach, since it swallows the OSError. */
    predicate Exists(path: string)
      reads this
    {
      path in files && path !in inaccessible
    }

    /** `open(path, 'r')` and reading the file: its content, or `None` when the open
        raises IOError. */
    function Open(path: string): (r: Option<string>)
      reads this
      ensures r.Some? <==> Exists(path)
      ensures r.Some? ==> r.value == files[path]
    {
      if Exists(path) then Some(files[path]) else None
    }

    /** `os.open(path, O_CREAT | O_EXCL | O_WRONLY)`: creates an empty file, or fails
        with EEXIST, without touching the file, when the path is already there. */
    method CreateExclusive(path: string) returns (r: Outcome<Errno>)
      modifies this
      ensures inaccessible == old(inaccessible)
      ensures path in inaccessible ==> r == Fail(EACCES) && files == old(files)
      ensures path !in inaccessible && path in old(files) ==> r == Fail(EEXIST) && files == old(files)
      ensures path !in inaccessible && path !in old(files) ==> r == Pass && files == old(files)[path := ""]
    {
      if path in inaccessible {
        r := Fail(EACCES);
      } else if path in files {
        r := Fail(EEXIST);
      } else {
        files := files[path := ""];
        r := Pass;
      }
    }

    /** `write(data)` and `close()` on the descriptor of a file this process created. */
    method Append(path: string, data: string)
      requires path in files
      modifies this
      ensures inaccessible == old(inaccessible)
      ensures files == old(files)[path := old(files)[path] + data]
    {
      files := files[path := files[path] + data];
    }

    /** `os.remove(path)`: fails with ENOENT when there is nothing to remove, and with
        EPERM, leaving the file in place, when the file may not be removed. */
    method Remove(path: string) returns (r: Outcome<Errno>)
      modifies this
      ensures inaccessible == old(inaccessible)
      ensures path in inaccessible ==> r == Fail(EACCES) && files == old(files)
      ensures path !in inaccessible && path !in old(files) ==> r == Fail(ENOENT) && files == old(files)
      ensures path !in inaccessible && path in old(files) && path in undeletable
              ==> r == Fail(EPERM) && files == old(files)
      ensures path !in inaccessible && path in old(files) && path !in undeletable
              ==> r == Pass && files == old(files) - {path}
    {
      if path in inaccessible {
        r := Fail(EACCES);
      } else if path !in files {
        r := Fail(ENOENT);
      } else if path in undeletable {
        r := Fail(EPERM);
      } else {
        files := files - {path};
        r := Pass;
      }
    }

    /** Other processes act on `path`. */
    method Interfere(path: string, act: Interference)
      modifies this
      ensures files == Interfered(old(files), path, act)
      ensures inaccessible == Revoked(old(inaccessible), path, act)
    {
      match act
      case Quiet =>
      case Takes(content) =>
        files := files[path := content];
      case Deletes =>
        files := files - {path};
      case Blocks =>
        inaccessible := inaccessible + {path};
    }
  }
}
