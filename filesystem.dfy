/** The part of a POSIX filesystem that the switcher touches, as a map from path to entry,
    with the failure rules of Go's `os` and `io/ioutil` calls on Linux.  Paths are looked up
    as written; only symbolic links met at the end of a path are followed. */
module FileSystem {
  import opened Wrappers
  import Paths
  import Sorting

  newtype byte = x: int | 0 <= x < 256
  type Bytes = seq<byte>

  /** What a path names: a regular file, a directory, or a symbolic link with its literal
      target. */
  datatype Entry = File(data: Bytes) | Dir | Symlink(target: string)

  type Entries = map<string, Entry>

  /** The number of symbolic links Linux follows in one lookup before it gives up with
      ELOOP (MAXSYMLINKS). */
  const MaxSymlinks: nat := 40

  /** Where following the links from a path ends: at an entry that is not a link, at a path
      that names nothing, or nowhere because there were too many links. */
  datatype Lookup = Found(path: string) | Missing(path: string) | TooDeep

  /** The path that a link at `p` with target `t` leads to: an absolute target as written,
      a relative one taken from the link's directory. */
  function Follow(p: string, t: string): string
  {
    if Paths.Rooted(t) then t else Paths.Join([Paths.Dir(p), t])
  }

  function Resolve(entries: Entries, p: string, hops: nat): (r: Lookup)
    ensures r.Found? ==> r.path in entries && !entries[r.path].Symlink?
    ensures r.Missing? ==> r.path !in entries
    decreases hops
  {
    if p !in entries then Missing(p)
    else if entries[p].Symlink? then
      if hops == 0 then TooDeep else Resolve(entries, Follow(p, entries[p].target), hops - 1)
    else Found(p)
  }

  /** os.Lstat: the entry itself, links not followed. */
  function LstatOf(entries: Entries, p: string): (r: Result<Entry>)
  {
    if p in entries then Success(entries[p]) else Failure(NotExist(p))
  }

  /** os.Stat: the entry at the end of the links. */
  function StatOf(entries: Entries, p: string): (r: Result<Entry>)
    ensures r.Success? ==> !r.value.Symlink?
  {
    match Resolve(entries, p, MaxSymlinks)
    case Found(q) => Success(entries[q])
    case Missing(_) => Failure(NotExist(p))
    case TooDeep => Failure(Loop(p))
  }

  /** os.Readlink: the literal target of a link. */
  function ReadlinkOf(entries: Entries, p: string): (r: Result<string>)
  {
    if p !in entries then Failure(NotExist(p))
    else if !entries[p].Symlink? then Failure(NotSymlink(p))
    else Success(entries[p].target)
  }

  /** ioutil.ReadFile. */
  function ReadFileOf(entries: Entries, p: string): (r: Result<Bytes>)
  {
    match StatOf(entries, p)
    case Failure(e) => Failure(e)
    case Success(entry) => if entry.Dir? then Failure(IsDir(p)) else Success(entry.data)
  }

  /** The paths whose directory is `d`. */
  function ChildKeys(entries: Entries, d: string): set<string>
  {
    set k | k in entries && k != d && Paths.Dir(k) == d
  }

  /** The names listed in directory `d`. */
  function ChildNames(entries: Entries, d: string): set<string>
  {
    set k | k in entries && k != d && Paths.Dir(k) == d :: Paths.Base(k)
  }

  /** ioutil.ReadDir, reduced to the entries' names, which it returns sorted. */
  ghost function ReadDirOf(entries: Entries, d: string): (r: Result<seq<string>>)
    ensures r.Success? ==> Sorting.Sorted(r.value)
  {
    match Resolve(entries, d, MaxSymlinks)
    case Found(q) =>
      if entries[q].Dir? then Success(Sorting.SortedOf(multiset(ChildNames(entries, q))))
      else Failure(NotDir(d))
    case Missing(_) => Failure(NotExist(d))
    case TooDeep => Failure(Loop(d))
  }

  /** The entries after a state-changing call, and the error it returned. */
  datatype Step = Step(entries: Entries, err: Option<Error>)

  /** os.Symlink(oldname, newname): refuses an existing `newname`; the target is not
      checked. */
  function SymlinkStep(entries: Entries, oldname: string, newname: string): Step
  {
    if newname in entries then Step(entries, Some(Exist(newname)))
    else Step(entries[newname := Symlink(oldname)], None)
  }

  /** os.Remove: removes a file, a link (not what it points to) or an empty directory. */
  function RemoveStep(entries: Entries, p: string): Step
  {
    if p !in entries then Step(entries, Some(NotExist(p)))
    else if entries[p].Dir? && ChildKeys(entries, p) != {} then Step(entries, Some(NotEmpty(p)))
    else Step(entries - {p}, None)
  }

  /** ioutil.WriteFile: writes at the end of the links, creating the file if it is
      missing. */
  function WriteFileStep(entries: Entries, p: string, data: Bytes): Step
  {
    match Resolve(entries, p, MaxSymlinks)
    case Found(q) =>
      if entries[q].Dir? then Step(entries, Some(IsDir(p))) else Step(entries[q := File(data)], None)
    case Missing(q) => Step(entries[q := File(data)], None)
    case TooDeep => Step(entries, Some(Loop(p)))
  }

  /** Writing at the end of a lookup leaves the lookup ending at the written entry. */
  lemma {:induction false} ResolveAfterWrite(entries: Entries, p: string, hops: nat, q: string, e: Entry)
    requires Resolve(entries, p, hops) == Found(q) || Resolve(entries, p, hops) == Missing(q)
    requires !e.Symlink?
    ensures Resolve(entries[q := e], p, hops) == Found(q)
    decreases hops
  {
    if p != q {
      ResolveAfterWrite(entries, Follow(p, entries[p].target), hops - 1, q, e);
    }
  }

  /** A successful write is read back. */
  lemma WriteThenRead(entries: Entries, p: string, data: Bytes)
    requires WriteFileStep(entries, p, data).err.None?
    ensures ReadFileOf(WriteFileStep(entries, p, data).entries, p) == Success(data)
  {
    match Resolve(entries, p, MaxSymlinks)
    case Found(q) => ResolveAfterWrite(entries, p, MaxSymlinks, q, File(data));
    case Missing(q) => ResolveAfterWrite(entries, p, MaxSymlinks, q, File(data));
    case TooDeep =>
  }

  /** The filesystem, changed in place by the calls that write to it. */
  class FileSystem {
    var entries: Entries

    constructor (init: Entries)
      ensures entries == init
    {
      entries := init;
    }

    method Lstat(p: string) returns (r: Result<Entry>)
      ensures r == LstatOf(entries, p)
    {
      r := LstatOf(entries, p);
    }

    method Stat(p: string) returns (r: Result<Entry>)
      ensures r == StatOf(entries, p)
    {
      r := StatOf(entries, p);
    }

    method Readlink(p: string) returns (r: Result<string>)
      ensures r == ReadlinkOf(entries, p)
    {
      r := ReadlinkOf(entries, p);
    }

    method ReadFile(p: string) returns (r: Result<Bytes>)
      ensures r == ReadFileOf(entries, p)
    {
      r := ReadFileOf(entries, p);
    }

    /** Lists a directory: collects the names of its entries, then sorts them. */
    method ReadDir(d: string) returns (r: Result<seq<string>>)
      ensures r == ReadDirOf(entries, d)
    {
      match Resolve(entries, d, MaxSymlinks)
      case Found(q) =>
        if !entries[q].Dir? {
          return Failure(NotDir(d));
        }
        var names := Sorting.Enumerate(ChildNames(entries, q));
        Sorting.SortIsSortedOf(names);
        r := Success(Sorting.Sort(names));
      case Missing(_) =>
        r := Failure(NotExist(d));
      case TooDeep =>
        r := Failure(Loop(d));
    }

    method Symlink(oldname: string, newname: string) returns (err: Option<Error>)
      modifies this
      ensures Step(entries, err) == SymlinkStep(old(entries), oldname, newname)
    {
      var s := SymlinkStep(entries, oldname, newname);
      entries, err := s.entries, s.err;
    }

    method Remove(p: string) returns (err: Option<Error>)
      modifies this
      ensures Step(entries, err) == RemoveStep(old(entries), p)
    {
      var s := RemoveStep(entries, p);
      entries, err := s.entries, s.err;
    }

    method WriteFile(p: string, data: Bytes) returns (err: Option<Error>)
      modifies this
      ensures Step(entries, err) == WriteFileStep(old(entries), p, data)
    {
      var s := WriteFileStep(entries, p, data);
      entries, err := s.entries, s.err;
    }
  }
}
