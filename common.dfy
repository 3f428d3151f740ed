/** The helpers of common.go; app.go holds identical copies of `resolveSymlink` and
    `expandPath`. */
module Common {
  import opened Wrappers
  import Strs
  import Paths
  import FS = FileSystem

  /** resolveSymlink: the literal target of the link at `p`, not followed any further. */
  function ResolveSymlink(entries: FS.Entries, p: string): (r: Result<string>)
    ensures r.Success? <==> p in entries && entries[p].Symlink?
    ensures r.Success? ==> r.value == entries[p].target
    ensures r.Failure? ==> r.error == if p in entries then NotSymlink(p) else NotExist(p)
  {
    match FS.LstatOf(entries, p)
    case Failure(e) => Failure(e)
    case Success(entry) =>
      if entry.Symlink? then FS.ReadlinkOf(entries, p) else Failure(NotSymlink(p))
  }

  /** expandPath: a path starting with '~' is the home directory joined with the text up
      to the next '~'; any other path is made absolute against the working directory.
      Indexing the first character of the empty path panics. */
  function ExpandPath(home: string, cwd: string, p: string): (r: Result<string>)
    ensures r.Failure? <==> p == ""
    ensures r.Failure? ==> r.error.Panic?
  {
    if p == "" then Failure(Panic("index out of range"))
    else if p[0] == '~' then
      Strs.SplitHasSecond(p, '~', 0);
      Success(Paths.Join([home, Strs.Split(p, "~")[1]]))
    else Success(Paths.Abs(cwd, p))
  }

  /** The text after a second '~' is lost. */
  lemma ExpandHomeTruncates(home: string, cwd: string, a: string, b: string)
    requires '~' !in a
    ensures ExpandPath(home, cwd, "~" + a + "~" + b) == Success(Paths.Join([home, a]))
  {
    var p := "~" + a + "~" + b;
    assert p == "" + "~" + (a + "~" + b);
    Strs.SplitConcat("", '~', a + "~" + b);
    Strs.SplitConcat(a, '~', b);
    Strs.SplitNoSep("", '~');
    Strs.SplitNoSep(a, '~');
  }

  lemma ExpandHome(home: string, cwd: string, a: string)
    requires '~' !in a
    ensures ExpandPath(home, cwd, "~" + a) == Success(Paths.Join([home, a]))
  {
    assert "~" + a == "" + "~" + a;
    Strs.SplitConcat("", '~', a);
    Strs.SplitNoSep("", '~');
    Strs.SplitNoSep(a, '~');
  }

  /** `~/t` is `t` under the home directory. */
  lemma ExpandHomeSlash(home: string, cwd: string, t: string)
    requires home != "" && '~' !in t
    ensures ExpandPath(home, cwd, "~/" + t) == Success(Paths.Join([home, t]))
  {
    assert "~/" + t == "~" + ("/" + t);
    ExpandHome(home, cwd, "/" + t);
    Paths.JoinLeadingSlash(home, t);
  }

  /** `../n` is `n` beside the working directory. */
  lemma ExpandParent(home: string, cwd: string, n: string)
    requires Paths.Rooted(cwd) && Paths.Clean(cwd) == cwd && Paths.IsName(n)
    ensures ExpandPath(home, cwd, "../" + n) == Success(Paths.Join([Paths.Dir(cwd), n]))
  {
    Paths.JoinParent(cwd, n);
  }

  /** contains: a linear search that stops at the first match. */
  method Contains(l: seq<string>, s: string) returns (b: bool)
    ensures b <==> s in l
  {
    var i := 0;
    while i < |l|
      invariant 0 <= i <= |l|
      invariant s !in l[..i]
    {
      if l[i] == s {
        return true;
      }
      i := i + 1;
    }
    assert l[..i] == l;
    return false;
  }

  /** appendIfMissing. */
  method AppendIfMissing(slice: seq<string>, s: string) returns (r: seq<string>)
    ensures s in r
    ensures |r| >= |slice| && r[..|slice|] == slice
    ensures |r| == if s in slice then |slice| else |slice| + 1
  {
    var present := Contains(slice, s);
    if !present {
      r := slice + [s];
    } else {
      r := slice;
    }
  }
}
