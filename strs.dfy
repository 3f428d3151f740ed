/** The parts of Go's `strings` package that the core uses: Index, Split, Join,
    HasSuffix and TrimSuffix.  Strings are sequences of characters. */
module Strs {
  import opened Wrappers

  /** `sep` occurs in `s` starting at index `j`. */
  predicate OccursAt(s: string, sep: string, j: int)
  {
    0 <= j && j + |sep| <= |s| && s[j..j + |sep|] == sep
  }

  lemma OccursShift(s: string, sep: string, j: nat)
    requires |s| > 0
    ensures OccursAt(s, sep, j + 1) <==> OccursAt(s[1..], sep, j)
  {
    if j + 1 + |sep| <= |s| {
      assert s[1..][j..j + |sep|] == s[j + 1..j + 1 + |sep|];
    }
  }

  /** strings.Index: the first index at which `sep` occurs in `s`. */
  function IndexOf(s: string, sep: string): (r: Option<nat>)
    requires |sep| > 0
    ensures r.Some? ==> OccursAt(s, sep, r.value)
    ensures r.Some? ==> forall j :: 0 <= j < r.value ==> !OccursAt(s, sep, j)
    ensures r.None? ==> forall j :: !OccursAt(s, sep, j)
    decreases |s|
  {
    if |s| < |sep| then None
    else if s[..|sep|] == sep then Some(0)
    else
      var rest := IndexOf(s[1..], sep);
      assert forall j :: 1 <= j ==> (OccursAt(s, sep, j) <==> OccursAt(s[1..], sep, j - 1)) by {
        forall j | 1 <= j ensures OccursAt(s, sep, j) <==> OccursAt(s[1..], sep, j - 1) {
          OccursShift(s, sep, j - 1);
        }
      }
      assert !OccursAt(s, sep, 0);
      if rest.None? then None else Some(rest.value + 1)
  }

  /** A single character occurs at `j` exactly when the character there is it. */
  lemma OccursAtChar(s: string, c: char, j: int)
    ensures OccursAt(s, [c], j) <==> 0 <= j < |s| && s[j] == c
  {
    if 0 <= j < |s| {
      assert s[j..j + 1] == [s[j]];
    }
  }

  /** Without the character, a one-character separator does not occur. */
  lemma IndexOfCharNone(s: string, c: char)
    requires c !in s
    ensures IndexOf(s, [c]) == None
  {
    var r := IndexOf(s, [c]);
    if r.Some? {
      OccursAtChar(s, c, r.value);
    }
  }

  /** The first occurrence of a one-character separator is the first index holding it. */
  lemma IndexOfCharAt(s: string, c: char, i: nat)
    requires i < |s| && s[i] == c && c !in s[..i]
    ensures IndexOf(s, [c]) == Some(i)
  {
    OccursAtChar(s, c, i);
    var r := IndexOf(s, [c]);
    OccursAtChar(s, c, r.value);
  }

  /** strings.Split: the pieces of `s` between successive non-overlapping occurrences of
      `sep`, scanning from the left.  There is always at least one piece. */
  function Split(s: string, sep: string): (r: seq<string>)
    requires |sep| > 0
    ensures |r| >= 1
    decreases |s|
  {
    match IndexOf(s, sep)
    case None => [s]
    case Some(i) => [s[..i]] + Split(s[i + |sep|..], sep)
  }

  /** strings.Join. */
  function Join(parts: seq<string>, sep: string): string
  {
    if |parts| == 0 then ""
    else if |parts| == 1 then parts[0]
    else parts[0] + sep + Join(parts[1..], sep)
  }

  /** Joining the pieces of a split with the same separator gives back the string. */
  lemma {:induction false} JoinSplit(s: string, sep: string)
    requires |sep| > 0
    ensures Join(Split(s, sep), sep) == s
    decreases |s|
  {
    match IndexOf(s, sep)
    case None =>
    case Some(i) =>
      var rest := s[i + |sep|..];
      var tail := Split(rest, sep);
      JoinSplit(rest, sep);
      JoinCons(s[..i], tail, sep);
      assert s == s[..i] + sep + rest by {
        assert s[i..i + |sep|] == sep;
        assert s == s[..i] + s[i..i + |sep|] + rest;
      }
  }

  /** Joining a first piece before at least one more. */
  lemma JoinCons(a: string, tail: seq<string>, sep: string)
    requires |tail| >= 1
    ensures Join([a] + tail, sep) == a + sep + Join(tail, sep)
  {
    assert ([a] + tail)[1..] == tail;
  }

  /** No piece of a split contains the separator. */
  lemma {:induction false} SplitPiecesFree(s: string, sep: string)
    requires |sep| > 0
    ensures forall k, j :: 0 <= k < |Split(s, sep)| ==> !OccursAt(Split(s, sep)[k], sep, j)
    decreases |s|
  {
    var r := Split(s, sep);
    match IndexOf(s, sep)
    case None =>
    case Some(i) =>
      var rest := s[i + |sep|..];
      SplitPiecesFree(rest, sep);
      forall j | OccursAt(s[..i], sep, j) ensures false {
        assert s[..i][j..j + |sep|] == s[j..j + |sep|];
        assert OccursAt(s, sep, j);
      }
      assert r == [s[..i]] + Split(rest, sep);
  }

  /** Splitting at a one-character separator distributes over a concatenation
      around one occurrence of it. */
  lemma {:induction false} SplitConcat(a: string, c: char, b: string)
    ensures Split(a + [c] + b, [c]) == Split(a, [c]) + Split(b, [c])
    decreases |a|
  {
    var s := a + [c] + b;
    match IndexOf(a, [c])
    case Some(i) =>
      OccursAtChar(a, c, i);
      forall j | 0 <= j < i ensures a[j] != c {
        OccursAtChar(a, c, j);
      }
      assert s[..i] == a[..i];
      IndexOfCharAt(s, c, i);
      var a' := a[i + 1..];
      assert s[i + 1..] == a' + [c] + b;
      SplitConcat(a', c, b);
    case None =>
      forall j | 0 <= j < |a| ensures a[j] != c {
        OccursAtChar(a, c, j);
      }
      assert s[..|a|] == a;
      IndexOfCharAt(s, c, |a|);
      assert s[|a| + 1..] == b;
  }

  /** A string holding a one-character separator splits into at least two pieces. */
  lemma SplitHasSecond(s: string, c: char, i: nat)
    requires i < |s| && s[i] == c
    ensures |Split(s, [c])| >= 2
  {
    OccursAtChar(s, c, i);
  }

  /** A string without the separator is its own single piece. */
  lemma SplitNoSep(s: string, c: char)
    requires c !in s
    ensures Split(s, [c]) == [s]
  {
    IndexOfCharNone(s, c);
  }

  /** Splitting the join of separator-free pieces at a one-character separator
      gives back the pieces. */
  lemma {:induction false} SplitJoin(parts: seq<string>, c: char)
    requires |parts| >= 1
    requires forall k :: 0 <= k < |parts| ==> c !in parts[k]
    ensures Split(Join(parts, [c]), [c]) == parts
  {
    if |parts| == 1 {
      SplitNoSep(parts[0], c);
    } else {
      SplitJoin(parts[1..], c);
      SplitConcat(parts[0], c, Join(parts[1..], [c]));
      SplitNoSep(parts[0], c);
    }
  }

  /** Joining three pieces. */
  lemma JoinThree(a: string, b: string, c: string, sep: string)
    ensures Join([a, b, c], sep) == a + sep + b + sep + c
  {
    assert [a, b, c][1..] == [b, c] && [b, c][1..] == [c];
    assert Join([b, c], sep) == b + sep + c;
    assert a + sep + (b + sep + c) == a + sep + b + sep + c;
  }

  /** Appending one piece to a join. */
  lemma JoinSnoc(parts: seq<string>, x: string, sep: string)
    ensures Join(parts + [x], sep) == if parts == [] then x else Join(parts, sep) + sep + x
  {
    if |parts| > 1 {
      assert (parts + [x])[1..] == parts[1..] + [x];
      JoinSnoc(parts[1..], x, sep);
    }
  }

  /** The first piece of `a + sep + b` is `a` when `sep` does not occur in `a` and its first
      character does not recur in it, so that no occurrence can straddle `a`'s end. */
  lemma FirstPiece(a: string, sep: string, b: string)
    requires |sep| > 0 && sep[0] !in sep[1..]
    requires forall j :: !OccursAt(a, sep, j)
    ensures Split(a + sep + b, sep)[0] == a
  {
    var s := a + sep + b;
    assert s[|a|..|a| + |sep|] == sep;
    forall j | 0 <= j < |a| ensures !OccursAt(s, sep, j) {
      if j + |sep| <= |a| {
        assert a[j..j + |sep|] == s[j..j + |sep|];
        assert !OccursAt(a, sep, j);
      } else if j + |sep| <= |s| {
        var k := |a| - j;
        assert s[j..j + |sep|][k] == s[|a|] == sep[0];
        assert sep[1..][k - 1] == sep[k] && sep[k] in sep[1..];
        assert s[j..j + |sep|] != sep;
      }
    }
    assert OccursAt(s, sep, |a|);
    assert IndexOf(s, sep) == Some(|a|);
    assert s[..|a|] == a;
  }

  /** A string in which the separator does not occur is its own single piece. */
  lemma WholePiece(a: string, sep: string)
    requires |sep| > 0
    requires forall j :: !OccursAt(a, sep, j)
    ensures Split(a, sep) == [a]
  {
  }

  /** Appending characters that are not in `sep` creates no occurrence of it. */
  lemma NoOccurrenceAppend(a: string, b: string, sep: string)
    requires |sep| > 0
    requires forall j :: !OccursAt(a, sep, j)
    requires forall i :: 0 <= i < |b| ==> b[i] !in sep
    ensures forall j :: !OccursAt(a + b, sep, j)
  {
    var s := a + b;
    forall j | 0 <= j && j + |sep| <= |s| ensures !OccursAt(s, sep, j) {
      if j + |sep| <= |a| {
        assert a[j..j + |sep|] == s[j..j + |sep|];
        assert !OccursAt(a, sep, j);
      } else {
        var i := j + |sep| - 1 - |a|;
        assert s[j..j + |sep|][|sep| - 1] == s[j + |sep| - 1] == b[i];
        assert sep[|sep| - 1] in sep;
        assert s[j..j + |sep|] != sep;
      }
    }
  }

  predicate HasSuffix(s: string, suffix: string)
  {
    |suffix| <= |s| && s[|s| - |suffix|..] == suffix
  }

  /** strings.TrimSuffix. */
  function TrimSuffix(s: string, suffix: string): (r: string)
    ensures HasSuffix(s, suffix) ==> r + suffix == s
    ensures !HasSuffix(s, suffix) ==> r == s
  {
    if HasSuffix(s, suffix) then s[..|s| - |suffix|] else s
  }
}
