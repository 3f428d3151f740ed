/** Go's string order and `sort.Strings`.  Go compares strings byte by byte; here strings
    are sequences of code points, compared one by one, which orders valid UTF-8 exactly as
    Go does.  Invalid UTF-8 cannot be represented. */
module Sorting {

  /** `a` sorts at or before `b`. */
  predicate LessEq(a: string, b: string)
    decreases |a|
  {
    |a| == 0 || (|b| > 0 && (a[0] < b[0] || (a[0] == b[0] && LessEq(a[1..], b[1..]))))
  }

  lemma {:induction false} LessEqReflexive(a: string)
    ensures LessEq(a, a)
    decreases |a|
  {
    if |a| > 0 {
      LessEqReflexive(a[1..]);
    }
  }

  lemma {:induction false} LessEqAntisymmetric(a: string, b: string)
    requires LessEq(a, b) && LessEq(b, a)
    ensures a == b
    decreases |a|
  {
    if |a| > 0 {
      LessEqAntisymmetric(a[1..], b[1..]);
      assert a == [a[0]] + a[1..] && b == [b[0]] + b[1..];
    }
  }

  lemma {:induction false} LessEqTransitive(a: string, b: string, c: string)
    requires LessEq(a, b) && LessEq(b, c)
    ensures LessEq(a, c)
    decreases |a|
  {
    if |a| > 0 && a[0] == b[0] && b[0] == c[0] {
      LessEqTransitive(a[1..], b[1..], c[1..]);
    }
  }

  lemma {:induction false} LessEqTotal(a: string, b: string)
    ensures LessEq(a, b) || LessEq(b, a)
    decreases |a|
  {
    if |a| > 0 && |b| > 0 && a[0] == b[0] {
      LessEqTotal(a[1..], b[1..]);
    }
  }

  /** A common prefix does not change the order. */
  lemma {:induction false} LessEqPrefix(p: string, a: string, b: string)
    requires LessEq(a, b)
    ensures LessEq(p + a, p + b)
    decreases |p|
  {
    if |p| > 0 {
      assert (p + a)[1..] == p[1..] + a && (p + b)[1..] == p[1..] + b;
      assert (p + a)[0] == p[0] == (p + b)[0];
      LessEqPrefix(p[1..], a, b);
    } else {
      assert p + a == a && p + b == b;
    }
  }

  predicate Sorted(s: seq<string>)
  {
    forall i, j :: 0 <= i < j < |s| ==> LessEq(s[i], s[j])
  }

  /** Insertion of one string into a sorted sequence. */
  function Insert(x: string, s: seq<string>): (r: seq<string>)
    ensures multiset(r) == multiset(s) + multiset{x}
    ensures |r| == |s| + 1
  {
    if s == [] then [x]
    else if LessEq(x, s[0]) then [x] + s
    else
      assert s == [s[0]] + s[1..];
      [s[0]] + Insert(x, s[1..])
  }

  lemma {:induction false} InsertSorted(x: string, s: seq<string>)
    requires Sorted(s)
    ensures Sorted(Insert(x, s))
  {
    if s != [] && !LessEq(x, s[0]) {
      InsertSorted(x, s[1..]);
      LessEqTotal(x, s[0]);
      InsertKeepsLeast(x, s);
      ConsSorted(s[0], Insert(x, s[1..]));
    } else if s != [] {
      forall k | 0 <= k < |s| ensures LessEq(x, s[k]) {
        if k > 0 {
          LessEqTransitive(x, s[0], s[k]);
        }
      }
      ConsSorted(x, s);
    }
  }

  /** The head of a sorted sequence stays below everything once a larger string goes in
      behind it. */
  lemma InsertKeepsLeast(x: string, s: seq<string>)
    requires Sorted(s) && s != [] && LessEq(s[0], x)
    ensures forall k :: 0 <= k < |Insert(x, s[1..])| ==> LessEq(s[0], Insert(x, s[1..])[k])
  {
    var tail := Insert(x, s[1..]);
    forall k | 0 <= k < |tail| ensures LessEq(s[0], tail[k]) {
      assert tail[k] in multiset(tail);
      if tail[k] != x {
        assert tail[k] in multiset(s[1..]);
        var m :| 0 <= m < |s[1..]| && s[1..][m] == tail[k];
        assert s[m + 1] == tail[k];
      }
    }
  }

  /** A string below every element of a sorted sequence may go in front of it. */
  lemma ConsSorted(h: string, t: seq<string>)
    requires Sorted(t) && forall k :: 0 <= k < |t| ==> LessEq(h, t[k])
    ensures Sorted([h] + t)
  {
    var r := [h] + t;
    forall i, j | 0 <= i < j < |r| ensures LessEq(r[i], r[j]) {
      assert r[j] == t[j - 1];
      if i > 0 {
        assert r[i] == t[i - 1];
      }
    }
  }

  /** sort.Strings, as a function of the sequence it sorts. */
  function Sort(xs: seq<string>): (r: seq<string>)
    ensures Sorted(r)
    ensures multiset(r) == multiset(xs)
  {
    if xs == [] then []
    else
      var rest := Sort(xs[1..]);
      InsertSorted(xs[0], rest);
      assert xs == [xs[0]] + xs[1..];
      Insert(xs[0], rest)
  }

  /** The sorted arrangement of a finite multiset of strings. */
  ghost function SortedOf(m: multiset<string>): (r: seq<string>)
    ensures Sorted(r)
    ensures multiset(r) == m
    decreases |m|
  {
    if |m| == 0 then []
    else
      var x :| x in m;
      var rest := SortedOf(m - multiset{x});
      InsertSorted(x, rest);
      Insert(x, rest)
  }

  lemma SortedTail(a: seq<string>)
    requires Sorted(a) && |a| > 0
    ensures Sorted(a[1..])
  {
    forall i, j | 0 <= i < j < |a[1..]| ensures LessEq(a[1..][i], a[1..][j]) {
      assert a[1..][i] == a[i + 1] && a[1..][j] == a[j + 1];
    }
  }

  lemma SortedHeadIsLeast(a: seq<string>, y: string)
    requires Sorted(a) && y in multiset(a)
    ensures LessEq(a[0], y)
  {
    var k :| 0 <= k < |a| && a[k] == y;
    if k == 0 {
      LessEqReflexive(y);
    }
  }

  /** A sorted arrangement is unique: two sorted permutations of each other are equal. */
  lemma {:induction false} SortedUnique(a: seq<string>, b: seq<string>)
    requires Sorted(a) && Sorted(b) && multiset(a) == multiset(b)
    ensures a == b
    decreases |a|
  {
    assert |a| == |multiset(a)| == |multiset(b)| == |b|;
    if |a| > 0 {
      SortedHeadIsLeast(a, b[0]);
      SortedHeadIsLeast(b, a[0]);
      LessEqAntisymmetric(a[0], b[0]);
      MultisetTail(a);
      MultisetTail(b);
      SortedTail(a);
      SortedTail(b);
      SortedUnique(a[1..], b[1..]);
    }
  }

  lemma MultisetTail(a: seq<string>)
    requires |a| > 0
    ensures multiset(a[1..]) == multiset(a) - multiset{a[0]}
  {
    assert a == [a[0]] + a[1..];
  }

  /** `Sort` yields the sorted arrangement of its input's elements, whatever their order. */
  lemma SortIsSortedOf(xs: seq<string>)
    ensures Sort(xs) == SortedOf(multiset(xs))
  {
    SortedUnique(Sort(xs), SortedOf(multiset(xs)));
  }

  /** A sequence in which no string occurs twice holds distinct strings at distinct indices. */
  lemma Distinct(s: seq<string>)
    requires forall x :: multiset(s)[x] <= 1
    ensures forall i, j :: 0 <= i < j < |s| ==> s[i] != s[j]
  {
    forall i, j | 0 <= i < j < |s| ensures s[i] != s[j] {
      assert s == s[..j] + s[j..];
      assert s[..j][i] == s[i] && s[j..][0] == s[j];
      assert multiset(s)[s[j]] == multiset(s[..j])[s[j]] + multiset(s[j..])[s[j]];
    }
  }

  /** The elements of a set, in some order, each once. */
  method Enumerate(all: set<string>) returns (names: seq<string>)
    ensures multiset(names) == multiset(all)
  {
    var left := all;
    names := [];
    while left != {}
      invariant left <= all
      invariant multiset(names) + multiset(left) == multiset(all)
      decreases |left|
    {
      var x :| x in left;
      assert multiset(left) == multiset(left - {x}) + multiset{x};
      names := names + [x];
      left := left - {x};
    }
  }

  /** The sequence without the occurrences of `x`, in the same order. */
  function FilterOut(xs: seq<string>, x: string): (r: seq<string>)
    ensures forall y :: multiset(r)[y] == if y == x then 0 else multiset(xs)[y]
  {
    if xs == [] then []
    else
      var prefix := xs[..|xs| - 1];
      var last := xs[|xs| - 1];
      assert xs == prefix + [last];
      FilterOut(prefix, x) + if last != x then [last] else []
  }

  lemma {:induction false} FilterOutSorted(xs: seq<string>, x: string)
    requires Sorted(xs)
    ensures Sorted(FilterOut(xs, x))
  {
    if xs != [] {
      var prefix := xs[..|xs| - 1];
      var last := xs[|xs| - 1];
      assert Sorted(prefix);
      FilterOutSorted(prefix, x);
      var rest := FilterOut(prefix, x);
      if last != x {
        var r := rest + [last];
        forall i, j | 0 <= i < j < |r| ensures LessEq(r[i], r[j]) {
          if j == |r| - 1 {
            assert r[i] == rest[i] && rest[i] in multiset(rest);
            var k :| 0 <= k < |prefix| && prefix[k] == rest[i];
            assert xs[k] == rest[i];
          } else {
            assert r[i] == rest[i] && r[j] == rest[j];
          }
        }
      }
    }
  }
}
