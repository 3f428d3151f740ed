/** Go's `path` package (Clean, Join, Base, Dir) and `filepath.Abs`, for slash-separated
    paths.  Clean is the lexical normalisation: elements are split at '/', empty and "."
    elements vanish, ".." removes the element before it, and a ".." at the start of a
    rooted path vanishes. */
module Paths {
  import Strs

  /** A plain path element: non-empty, without a slash, neither "." nor "..". */
  predicate IsName(n: string)
  {
    n != "" && n != "." && n != ".." && '/' !in n
  }

  predicate Rooted(p: string)
  {
    |p| > 0 && p[0] == '/'
  }

  /** Clean's treatment of one element `e` given the elements kept so far. */
  function Step(stack: seq<string>, e: string, rooted: bool): seq<string>
  {
    if e == "" || e == "." then stack
    else if e == ".." then
      if |stack| > 0 && stack[|stack| - 1] != ".." then stack[..|stack| - 1]
      else if rooted then stack
      else stack + [".."]
    else stack + [e]
  }

  function Reduce(stack: seq<string>, elems: seq<string>, rooted: bool): seq<string>
    decreases |elems|
  {
    if elems == [] then stack else Reduce(Step(stack, elems[0], rooted), elems[1..], rooted)
  }

  /** The elements Clean keeps of `p`. */
  function Segs(p: string): seq<string>
  {
    Reduce([], Strs.Split(p, "/"), Rooted(p))
  }

  function Render(s: seq<string>, rooted: bool): string
  {
    var body := Strs.Join(s, "/");
    if rooted then "/" + body else if body == "" then "." else body
  }

  /** path.Clean. */
  function Clean(p: string): string
  {
    Render(Segs(p), Rooted(p))
  }

  /** path.Join: the cleaned join of the elements from the first non-empty one on;
      "" when every element is empty. */
  function Join(elems: seq<string>): string
  {
    if elems == [] then ""
    else if elems[0] == "" then Join(elems[1..])
    else Clean(Strs.Join(elems, "/"))
  }

  function TrimTrailingSlashes(p: string): string
    decreases |p|
  {
    if |p| > 0 && p[|p| - 1] == '/' then TrimTrailingSlashes(p[..|p| - 1]) else p
  }

  /** The text after the last slash of `p` (all of `p` when it has none). */
  function LastElement(p: string): (r: string)
    ensures |r| <= |p| && r == p[|p| - |r|..]
    decreases |p|
  {
    if |p| == 0 || p[|p| - 1] == '/' then "" else LastElement(p[..|p| - 1]) + [p[|p| - 1]]
  }

  /** path.Base. */
  function Base(p: string): string
  {
    if p == "" then "."
    else
      var q := TrimTrailingSlashes(p);
      if q == "" then "/"
      else
        var b := LastElement(q);
        if b == "" then "/" else b
  }

  /** path.Dir: everything up to and including the last slash, cleaned. */
  function Dir(p: string): string
  {
    Clean(p[..|p| - |LastElement(p)|])
  }

  /** filepath.Abs on a Unix system, with the working directory given. */
  function Abs(cwd: string, p: string): string
  {
    if Rooted(p) then Clean(p) else Join([cwd, p])
  }

  // ---------------------------------------------------------------------------
  // The shape of what Clean keeps

  /** The element sequences Clean produces: plain names, preceded in a relative path by a
      run of "..". */
  predicate Canonical(s: seq<string>, rooted: bool)
  {
    forall i :: 0 <= i < |s| ==>
      IsName(s[i]) || (s[i] == ".." && !rooted && forall j :: 0 <= j < i ==> s[j] == "..")
  }

  lemma StepCanonical(stack: seq<string>, e: string, rooted: bool)
    requires Canonical(stack, rooted) && '/' !in e
    ensures Canonical(Step(stack, e, rooted), rooted)
  {
    var n := |stack|;
    var r := Step(stack, e, rooted);
    if e == "" || e == "." {
    } else if e == ".." && n > 0 && stack[n - 1] != ".." {
      assert r == stack[..n - 1];
      forall i | 0 <= i < |r| ensures r[i] == stack[i] { }
    } else if e == ".." && rooted {
    } else {
      assert r == stack + [e];
      forall i | 0 <= i < |r| && !IsName(r[i])
        ensures r[i] == ".." && !rooted && forall j :: 0 <= j < i ==> r[j] == ".."
      {
        if i < n {
          assert r[i] == stack[i];
          forall j | 0 <= j < i ensures r[j] == ".." {
            assert r[j] == stack[j];
          }
        } else {
          assert r[i] == e == "..";
          forall j | 0 <= j < i ensures r[j] == ".." {
            assert r[j] == stack[j];
            if n > 0 {
              assert stack[n - 1] == "..";
            }
          }
        }
      }
    }
  }

  lemma {:induction false} ReduceCanonical(stack: seq<string>, elems: seq<string>, rooted: bool)
    requires Canonical(stack, rooted)
    requires forall k :: 0 <= k < |elems| ==> '/' !in elems[k]
    ensures Canonical(Reduce(stack, elems, rooted), rooted)
    decreases |elems|
  {
    if elems != [] {
      StepCanonical(stack, elems[0], rooted);
      ReduceCanonical(Step(stack, elems[0], rooted), elems[1..], rooted);
    }
  }

  /** The pieces of a split at '/' hold no slash. */
  lemma SplitNoSlash(p: string)
    ensures forall k :: 0 <= k < |Strs.Split(p, "/")| ==> '/' !in Strs.Split(p, "/")[k]
  {
    var parts := Strs.Split(p, "/");
    Strs.SplitPiecesFree(p, "/");
    forall k | 0 <= k < |parts| ensures '/' !in parts[k] {
      forall j | 0 <= j < |parts[k]| ensures parts[k][j] != '/' {
        Strs.OccursAtChar(parts[k], '/', j);
      }
    }
  }

  lemma SegsCanonical(p: string)
    ensures Canonical(Segs(p), Rooted(p))
  {
    SplitNoSlash(p);
    ReduceCanonical([], Strs.Split(p, "/"), Rooted(p));
  }

  /** Clean leaves an already canonical continuation as it is. */
  lemma {:induction false} ReduceOfCanonical(stack: seq<string>, t: seq<string>, rooted: bool)
    requires Canonical(stack + t, rooted)
    ensures Reduce(stack, t, rooted) == stack + t
    decreases |t|
  {
    if t != [] {
      var s := stack + t;
      assert s[|stack|] == t[0];
      if t[0] == ".." {
        if |stack| > 0 {
          assert s[|stack| - 1] == stack[|stack| - 1];
        }
      }
      assert Step(stack, t[0], rooted) == stack + [t[0]];
      assert (stack + [t[0]]) + t[1..] == s;
      ReduceOfCanonical(stack + [t[0]], t[1..], rooted);
    }
  }

  lemma {:induction false} ReduceConcat(stack: seq<string>, x: seq<string>, y: seq<string>, rooted: bool)
    ensures Reduce(stack, x + y, rooted) == Reduce(Reduce(stack, x, rooted), y, rooted)
    decreases |x|
  {
    if x != [] {
      assert (x + y)[0] == x[0] && (x + y)[1..] == x[1..] + y;
      ReduceConcat(Step(stack, x[0], rooted), x[1..], y, rooted);
    } else {
      assert x + y == y;
    }
  }

  lemma NoSlashInCanonical(s: seq<string>, rooted: bool)
    requires Canonical(s, rooted)
    ensures forall k :: 0 <= k < |s| ==> '/' !in s[k] && s[k] != ""
  {
  }

  lemma JoinHead(s: seq<string>, sep: string)
    requires |s| > 0
    ensures |Strs.Join(s, sep)| >= |s[0]| && Strs.Join(s, sep)[..|s[0]|] == s[0]
  {
  }

  /** The rendering of a canonical sequence is rooted exactly when asked to be. */
  lemma RenderRooted(s: seq<string>, rooted: bool)
    requires Canonical(s, rooted)
    ensures Rooted(Render(s, rooted)) == rooted
    ensures Render(s, rooted) != ""
  {
    if !rooted && s != [] {
      JoinHead(s, "/");
      var b := Strs.Join(s, "/");
      assert b[0] == s[0][0];
      assert s[0][0] in s[0];
    }
  }

  /** Clean recovers the elements of a rendering. */
  lemma SegsRender(s: seq<string>, rooted: bool)
    requires Canonical(s, rooted)
    ensures Segs(Render(s, rooted)) == s
  {
    RenderRooted(s, rooted);
    NoSlashInCanonical(s, rooted);
    var p := Render(s, rooted);
    if rooted {
      if s == [] {
        assert p == "" + "/" + "";
        Strs.SplitConcat("", '/', "");
        Strs.SplitNoSep("", '/');
        assert Strs.Split(p, "/") == ["", ""];
      } else {
        assert p == "" + "/" + Strs.Join(s, "/");
        Strs.SplitConcat("", '/', Strs.Join(s, "/"));
        Strs.SplitNoSep("", '/');
        Strs.SplitJoin(s, '/');
        assert Strs.Split(p, "/") == [""] + s;
        ReduceOfCanonical([], s, rooted);
        assert ([""] + s)[1..] == s;
      }
    } else {
      if s == [] {
        Strs.SplitNoSep(".", '/');
      } else {
        Strs.SplitJoin(s, '/');
        ReduceOfCanonical([], s, rooted);
        assert [] + s == s;
      }
    }
  }

  /** path.Clean is idempotent. */
  lemma CleanIdempotent(p: string)
    ensures Clean(Clean(p)) == Clean(p)
  {
    SegsCanonical(p);
    RenderRooted(Segs(p), Rooted(p));
    SegsRender(Segs(p), Rooted(p));
  }

  /** Cleaning `p + "/" + t` cleans `p` and then carries on with the elements of `t`. */
  lemma SegsAppend(p: string, t: string)
    requires p != ""
    ensures Rooted(p + "/" + t) == Rooted(p)
    ensures Segs(p + "/" + t) == Reduce(Segs(p), Strs.Split(t, "/"), Rooted(p))
  {
    var q := p + "/" + t;
    assert q[0] == p[0];
    Strs.SplitConcat(p, '/', t);
    ReduceConcat([], Strs.Split(p, "/"), Strs.Split(t, "/"), Rooted(p));
  }

  /** Joining a directory and a plain name appends the name to the directory's elements. */
  lemma JoinName(d: string, n: string)
    requires d != "" && IsName(n)
    ensures Join([d, n]) == Render(Segs(d) + [n], Rooted(d))
  {
    assert Strs.Join([d, n], "/") == d + "/" + n;
    SegsAppend(d, n);
    Strs.SplitNoSep(n, '/');
  }

  lemma {:induction false} LastElementAppend(x: string, n: string)
    requires x == "" || x[|x| - 1] == '/'
    requires '/' !in n
    ensures LastElement(x + n) == n
    decreases |n|
  {
    if n == "" {
      assert x + n == x;
    } else {
      var n' := n[..|n| - 1];
      var c := n[|n| - 1];
      assert c in n;
      assert n == n' + [c];
      assert x + n == (x + n') + [c];
      LastElementAppend(x, n');
      LastElementSnoc(x + n', c);
    }
  }

  lemma LastElementSnoc(q: string, c: char)
    requires c != '/'
    ensures LastElement(q + [c]) == LastElement(q) + [c]
  {
    assert (q + [c])[..|q|] == q;
  }

  /** The text before the last element of a rendering. */
  function Prefix(s: seq<string>, rooted: bool): string
  {
    if s == [] then (if rooted then "/" else "") else Render(s, rooted) + "/"
  }

  lemma RenderSnoc(s: seq<string>, n: string, rooted: bool)
    requires Canonical(s, rooted) && IsName(n)
    ensures Render(s + [n], rooted) == Prefix(s, rooted) + n
  {
    Strs.JoinSnoc(s, n, "/");
    var body := Strs.Join(s + [n], "/");
    if s == [] {
      assert body == n;
    } else {
      assert body == Strs.Join(s, "/") + "/" + n;
      if !rooted {
        RenderRooted(s, rooted);
        assert Strs.Join(s, "/") == Render(s, rooted);
      }
    }
  }

  /** Clean of the prefix before the last element is the rendering of the other elements. */
  lemma CleanPrefix(s: seq<string>, rooted: bool)
    requires Canonical(s, rooted)
    ensures Clean(Prefix(s, rooted)) == Render(s, rooted)
  {
    if s == [] {
      if rooted {
        SegsRender([], true);
      } else {
        Strs.SplitNoSep("", '/');
      }
    } else {
      var r := Render(s, rooted);
      RenderRooted(s, rooted);
      assert Prefix(s, rooted) == r + "/" + "";
      SegsAppend(r, "");
      Strs.SplitNoSep("", '/');
      SegsRender(s, rooted);
    }
  }

  /** Base and Dir take a rendering apart at its last element. */
  lemma BaseDirRender(s: seq<string>, n: string, rooted: bool)
    requires Canonical(s, rooted) && IsName(n)
    ensures Base(Render(s + [n], rooted)) == n
    ensures Dir(Render(s + [n], rooted)) == Render(s, rooted)
  {
    RenderSnoc(s, n, rooted);
    var x := Prefix(s, rooted);
    var p := x + n;
    assert p[|p| - 1] == n[|n| - 1];
    assert n[|n| - 1] in n;
    assert TrimTrailingSlashes(p) == p;
    LastElementAppend(x, n);
    assert p[..|p| - |n|] == x;
    CleanPrefix(s, rooted);
  }

  /** The base of `path.Join(d, n)` is the name `n`. */
  lemma BaseOfJoin(d: string, n: string)
    requires d != "" && IsName(n)
    ensures Base(Join([d, n])) == n
  {
    JoinName(d, n);
    SegsCanonical(d);
    BaseDirRender(Segs(d), n, Rooted(d));
  }

  /** The directory of `path.Join(d, n)` is `d`, cleaned. */
  lemma DirOfJoin(d: string, n: string)
    requires d != "" && IsName(n)
    ensures Dir(Join([d, n])) == Clean(d)
  {
    JoinName(d, n);
    SegsCanonical(d);
    BaseDirRender(Segs(d), n, Rooted(d));
  }

  /** `path.Join` of a clean absolute directory and `../n` is the join of its parent with
      `n`. */
  lemma JoinParent(cwd: string, n: string)
    requires Rooted(cwd) && Clean(cwd) == cwd && IsName(n)
    ensures Join([cwd, "../" + n]) == Join([Dir(cwd), n])
  {
    var s := Segs(cwd);
    SegsCanonical(cwd);
    var popped := if s == [] then [] else s[..|s| - 1];
    JoinParentSegs(cwd, n);
    assert Canonical(popped, true);
    if s == [] {
      assert cwd == "/";
      assert Dir(cwd) == Clean("/");
      CleanIdempotent(cwd);
    } else {
      assert s == popped + [s[|s| - 1]];
      BaseDirRender(popped, s[|s| - 1], true);
    }
    assert Dir(cwd) == Render(popped, true);
    RenderRooted(popped, true);
    JoinName(Dir(cwd), n);
    SegsRender(popped, true);
  }

  /** Joining "../n" onto a clean rooted path drops its last segment and adds n. */
  lemma JoinParentSegs(cwd: string, n: string)
    requires Rooted(cwd) && Clean(cwd) == cwd && IsName(n)
    ensures Join([cwd, "../" + n]) ==
      Render((if Segs(cwd) == [] then [] else Segs(cwd)[..|Segs(cwd)| - 1]) + [n], true)
  {
    var s := Segs(cwd);
    SegsCanonical(cwd);
    var t := "../" + n;
    assert Strs.Join([cwd, t], "/") == cwd + "/" + t;
    SegsAppend(cwd, t);
    ParentSplit(n);
    var popped := if s == [] then [] else s[..|s| - 1];
    ReduceParent(s, n);
    assert Join([cwd, t]) == Render(popped + [n], true);
  }

  /** "../n" splits into two pieces. */
  lemma ParentSplit(n: string)
    requires IsName(n)
    ensures Strs.Split("../" + n, "/") == ["..", n]
  {
    assert "../" + n == ".." + "/" + n;
    Strs.SplitConcat("..", '/', n);
    Strs.SplitNoSep("..", '/');
    Strs.SplitNoSep(n, '/');
  }

  /** Reducing "..", n against canonical rooted segments. */
  lemma ReduceParent(s: seq<string>, n: string)
    requires Canonical(s, true) && IsName(n)
    ensures Reduce(s, ["..", n], true) == (if s == [] then [] else s[..|s| - 1]) + [n]
  {
    var popped := if s == [] then [] else s[..|s| - 1];
    if s != [] {
      assert IsName(s[|s| - 1]);
    }
    assert Step(s, "..", true) == popped;
    assert ["..", n][1..] == [n] && [n][1..] == [];
    assert Reduce(s, ["..", n], true) == Reduce(popped, [n], true);
    assert Step(popped, n, true) == popped + [n];
    assert Reduce(popped, [n], true) == Reduce(popped + [n], [], true);
  }

  /** A slash at the start of the second element of a join is absorbed. */
  lemma JoinLeadingSlash(d: string, t: string)
    requires d != ""
    ensures Join([d, "/" + t]) == Join([d, t])
  {
    assert Strs.Join([d, "/" + t], "/") == d + "/" + ("/" + t);
    assert Strs.Join([d, t], "/") == d + "/" + t;
    SegsAppend(d, "/" + t);
    SegsAppend(d, t);
    assert "/" + t == "" + "/" + t;
    Strs.SplitConcat("", '/', t);
    Strs.SplitNoSep("", '/');
    ReduceConcat(Segs(d), [""], Strs.Split(t, "/"), Rooted(d));
  }

  /** Cleaning the left part of a join first changes nothing. */
  lemma JoinCleanLeft(d: string, t: string)
    requires d != ""
    ensures Clean(Clean(d) + "/" + t) == Clean(d + "/" + t)
  {
    SegsCanonical(d);
    RenderRooted(Segs(d), Rooted(d));
    SegsRender(Segs(d), Rooted(d));
    SegsAppend(Clean(d), t);
    SegsAppend(d, t);
  }

  /** Clean never yields the empty path. */
  lemma CleanNotEmpty(p: string)
    ensures Clean(p) != ""
  {
  }
}
