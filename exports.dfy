/** The export-variable pipeline shared by app.go, env.go and sellsword.go.  Declarations
    `alias=NAME` become an export map from export name to alias; the map is joined against
    the stored alias values of the current environment, dropping names whose alias has no
    value; the maps of several applications are combined, the first one to export a name
    winning; and the result is rendered as `export NAME=value` lines. */
module Exports {
  import opened Wrappers
  import Strs

  // ---------------------------------------------------------------------------
  // Declarations

  /** Splitting the declaration at '=' yields at least the two pieces that are read. */
  predicate Declares(d: string)
  {
    |Strs.Split(d, "=")| >= 2
  }

  lemma DeclaresIffEquals(d: string)
    ensures Declares(d) <==> '=' in d
  {
    if '=' in d {
      var i :| 0 <= i < |d| && d[i] == '=';
      Strs.SplitHasSecond(d, '=', i);
    } else {
      Strs.SplitNoSep(d, '=');
    }
  }

  /** The piece before the first '='. */
  function Alias(d: string): string
    requires Declares(d)
  {
    Strs.Split(d, "=")[0]
  }

  /** The piece between the first and the second '='. */
  function ExportName(d: string): string
    requires Declares(d)
  {
    Strs.Split(d, "=")[1]
  }

  /** Both pieces of `alias=name` when neither holds '='. */
  lemma DeclarationParts(alias: string, name: string)
    requires '=' !in alias && '=' !in name
    ensures Declares(alias + "=" + name)
    ensures Alias(alias + "=" + name) == alias && ExportName(alias + "=" + name) == name
  {
    Strs.SplitConcat(alias, '=', name);
    Strs.SplitNoSep(alias, '=');
    Strs.SplitNoSep(name, '=');
  }

  predicate AllDeclare(decls: seq<string>)
  {
    forall i :: 0 <= i < |decls| ==> Declares(decls[i])
  }

  /** The export map built by a loop over the declarations, each setting its name to its
      alias. */
  function ExportMap(decls: seq<string>): map<string, string>
    requires AllDeclare(decls)
  {
    if decls == [] then map[]
    else
      var last := decls[|decls| - 1];
      ExportMap(decls[..|decls| - 1])[ExportName(last) := Alias(last)]
  }

  /** Declaration `i` is the last one that names `n`. */
  predicate LastDeclaring(decls: seq<string>, i: int, n: string)
    requires AllDeclare(decls)
  {
    0 <= i < |decls| && ExportName(decls[i]) == n &&
    forall j :: i < j < |decls| ==> ExportName(decls[j]) != n
  }

  /** The export map of the declarations but the last, and the last one's effect. */
  lemma ExportMapSnoc(decls: seq<string>)
    requires AllDeclare(decls) && decls != []
    ensures AllDeclare(decls[..|decls| - 1])
    ensures ExportMap(decls) ==
      ExportMap(decls[..|decls| - 1])[ExportName(decls[|decls| - 1]) := Alias(decls[|decls| - 1])]
  {
    var prefix := decls[..|decls| - 1];
    assert forall i :: 0 <= i < |prefix| ==> prefix[i] == decls[i];
  }

  /** A name is exported exactly when some declaration names it. */
  lemma {:induction false} ExportMapKeys(decls: seq<string>, n: string)
    requires AllDeclare(decls)
    ensures n in ExportMap(decls) <==> exists i :: 0 <= i < |decls| && ExportName(decls[i]) == n
  {
    if decls != [] {
      var k := |decls| - 1;
      var prefix := decls[..k];
      ExportMapSnoc(decls);
      ExportMapKeys(prefix, n);
      if i :| 0 <= i < |decls| && ExportName(decls[i]) == n {
        if i < k {
          assert prefix[i] == decls[i];
        }
      }
      if i :| 0 <= i < |prefix| && ExportName(prefix[i]) == n {
        assert prefix[i] == decls[i];
      }
    }
  }

  /** A name takes the alias of the last declaration naming it. */
  lemma {:induction false} ExportMapLastWins(decls: seq<string>, i: int, n: string)
    requires AllDeclare(decls) && LastDeclaring(decls, i, n)
    ensures n in ExportMap(decls) && ExportMap(decls)[n] == Alias(decls[i])
  {
    var k := |decls| - 1;
    var prefix := decls[..k];
    ExportMapSnoc(decls);
    if i < k {
      assert ExportName(decls[k]) != n;
      assert prefix[i] == decls[i];
      forall j | i < j < |prefix| ensures ExportName(prefix[j]) != n {
        assert prefix[j] == decls[j];
      }
      assert LastDeclaring(prefix, i, n);
      ExportMapLastWins(prefix, i, n);
    }
  }

  /** Several export names may share one alias. */
  lemma ExportMapManyToOne(alias: string, n1: string, n2: string)
    requires '=' !in alias && '=' !in n1 && '=' !in n2
    ensures AllDeclare([alias + "=" + n1, alias + "=" + n2])
    ensures ExportMap([alias + "=" + n1, alias + "=" + n2]) == map[n1 := alias, n2 := alias]
  {
    DeclarationParts(alias, n1);
    DeclarationParts(alias, n2);
    var decls := [alias + "=" + n1, alias + "=" + n2];
    assert decls[..1] == [alias + "=" + n1];
    assert decls[..1][..0] == [];
    assert ExportMap(decls[..1]) == map[n1 := alias];
  }

  // ---------------------------------------------------------------------------
  // Joining against stored values

  /** The export map with each alias replaced by its stored value; names whose alias has no
      stored value are dropped. */
  function Materialize(exportMap: map<string, string>, stored: map<string, string>): map<string, string>
  {
    map k | k in exportMap && exportMap[k] in stored :: stored[exportMap[k]]
  }

  /** The values the whole pipeline exports: a name is exported when the alias of its last
      declaration has a stored value, and it is exported with that value. */
  lemma PipelineValue(decls: seq<string>, stored: map<string, string>, i: int, n: string)
    requires AllDeclare(decls) && LastDeclaring(decls, i, n)
    ensures n in Materialize(ExportMap(decls), stored) <==> Alias(decls[i]) in stored
    ensures Alias(decls[i]) in stored ==>
      Materialize(ExportMap(decls), stored)[n] == stored[Alias(decls[i])]
  {
    ExportMapLastWins(decls, i, n);
  }

  /** A Go map that is changed in place and may be shared between its holders. */
  class StringMap {
    var contents: map<string, string>

    constructor (init: map<string, string>)
      ensures contents == init
    {
      contents := init;
    }
  }

  /** The join done in place, ranging over the map and updating or deleting the key in hand
      (env.go's PopulateExportVars after loading, and sellsword.go's populateExportVars). */
  method PopulateInPlace(m: StringMap, stored: map<string, string>)
    modifies m
    ensures m.contents == Materialize(old(m.contents), stored)
    ensures forall k :: k in m.contents <==> k in old(m.contents) && old(m.contents)[k] in stored
    ensures forall k :: k in m.contents ==> m.contents[k] == stored[old(m.contents)[k]]
  {
    var c := m.contents;
    ghost var orig := c;
    var keys := c.Keys;
    while keys != {}
      invariant m.contents == c
      invariant keys <= orig.Keys && c.Keys <= orig.Keys
      invariant forall k :: k in keys ==> k in c && c[k] == orig[k]
      invariant forall k :: k in orig && k !in keys ==> (k in c <==> orig[k] in stored)
      invariant forall k :: k in c && k !in keys ==> c[k] == stored[orig[k]]
      decreases |keys|
    {
      var k :| k in keys;
      var alias := c[k];
      if alias in stored {
        c := c[k := stored[alias]];
      } else {
        c := c - {k};
      }
      m.contents := c;
      keys := keys - {k};
    }
    assert c == Materialize(orig, stored);
  }

  // ---------------------------------------------------------------------------
  // Combining applications

  /** mergeEnvMap's result: every key of `dest` keeps its value, and the keys of `src` that
      `dest` lacks are added. */
  function Merge(dest: map<string, string>, src: map<string, string>): (r: map<string, string>)
    ensures forall k :: k in r <==> k in dest || k in src
    ensures forall k :: k in dest ==> r[k] == dest[k]
    ensures forall k :: k !in dest && k in src ==> r[k] == src[k]
  {
    src + dest
  }

  /** mergeEnvMap: adds in place the entries of `src` whose key `dest` lacks. */
  method MergeInPlace(dest: StringMap, src: map<string, string>)
    modifies dest
    ensures dest.contents == Merge(old(dest.contents), src)
  {
    var c := dest.contents;
    ghost var orig := c;
    var keys := src.Keys;
    while keys != {}
      invariant dest.contents == c
      invariant keys <= src.Keys
      invariant c.Keys == orig.Keys + (src.Keys - keys)
      invariant forall k :: k in orig ==> c[k] == orig[k]
      invariant forall k :: k in c && k !in orig ==> c[k] == src[k]
      decreases |keys|
    {
      var k :| k in keys;
      if k !in c {
        c := c[k := src[k]];
        dest.contents := c;
      }
      keys := keys - {k};
    }
    assert c == Merge(orig, src);
  }

  /** The maps merged one after another into an initially empty map. */
  function MergeAll(ms: seq<map<string, string>>): map<string, string>
  {
    if ms == [] then map[] else Merge(MergeAll(ms[..|ms| - 1]), ms[|ms| - 1])
  }

  /** Map `i` is the first to hold key `k`. */
  predicate FirstHolding(ms: seq<map<string, string>>, i: int, k: string)
  {
    0 <= i < |ms| && k in ms[i] && forall j :: 0 <= j < i ==> k !in ms[j]
  }

  /** A key is in the merged map exactly when some map holds it, and it keeps the value of
      the first map holding it. */
  lemma {:induction false} MergeAllFirstWins(ms: seq<map<string, string>>, k: string)
    ensures k in MergeAll(ms) <==> exists i :: 0 <= i < |ms| && k in ms[i]
    ensures forall i :: FirstHolding(ms, i, k) ==> MergeAll(ms)[k] == ms[i][k]
  {
    if ms != [] {
      var n := |ms| - 1;
      var prefix := ms[..n];
      assert forall i :: 0 <= i < n ==> prefix[i] == ms[i];
      MergeAllFirstWins(prefix, k);
      if exists i :: 0 <= i < |ms| && k in ms[i] {
        var i :| 0 <= i < |ms| && k in ms[i];
        if i < n {
          assert k in prefix[i];
        }
      }
      forall i | FirstHolding(ms, i, k) ensures MergeAll(ms)[k] == ms[i][k] {
        if i < n {
          assert FirstHolding(prefix, i, k);
        } else {
          assert forall j :: 0 <= j < n ==> k !in prefix[j];
        }
      }
    }
  }

  // ---------------------------------------------------------------------------
  // Export lines

  function ExportLine(k: string, v: string): string
  {
    "export " + k + "=" + v
  }

  /** The export lines of a map, one per entry, in no particular order.  Two entries can
      give the same line (`A` with `B=C`, and `A=B` with `C`), hence a multiset. */
  ghost function ExportLines(m: map<string, string>): multiset<string>
    decreases |m|
  {
    if m == map[] then multiset{}
    else
      var k := Pick(m);
      ExportLines(m - {k}) + multiset{ExportLine(k, m[k])}
  }

  /** Some key of a non-empty map. */
  ghost function Pick(m: map<string, string>): (k: string)
    requires m != map[]
    ensures k in m
  {
    var k :| k in m; k
  }

  lemma MapRemoveSize(m: map<string, string>, k: string)
    requires k in m
    ensures |m - {k}| == |m| - 1
  {
    assert (m - {k}).Keys == m.Keys - {k};
  }

  /** Any entry can be taken out first. */
  lemma {:induction false} ExportLinesRemove(m: map<string, string>, k: string)
    requires k in m
    ensures ExportLines(m) == ExportLines(m - {k}) + multiset{ExportLine(k, m[k])}
    decreases |m|
  {
    MapRemoveSize(m, k);
    var j := Pick(m);
    if j != k {
      MapRemoveSize(m, j);
      var lj := multiset{ExportLine(j, m[j])};
      var lk := multiset{ExportLine(k, m[k])};
      var both := m - {j} - {k};
      assert m - {k} - {j} == both;
      assert ExportLines(m) == ExportLines(m - {j}) + lj;
      ExportLinesRemove(m - {j}, k);
      assert ExportLines(m - {j}) == ExportLines(both) + lk;
      ExportLinesRemove(m - {k}, j);
      assert ExportLines(m - {k}) == ExportLines(both) + lj;
    }
  }

  /** Adding an entry adds its line. */
  lemma ExportLinesPut(m: map<string, string>, k: string, v: string)
    requires k !in m
    ensures ExportLines(m[k := v]) == ExportLines(m) + multiset{ExportLine(k, v)}
  {
    ExportLinesRemove(m[k := v], k);
    assert m[k := v] - {k} == m;
  }

  lemma {:induction false} ExportLinesSize(m: map<string, string>)
    ensures |ExportLines(m)| == |m|
    decreases |m|
  {
    if m != map[] {
      var k := Pick(m);
      MapRemoveSize(m, k);
      ExportLinesSize(m - {k});
    }
  }

  /** The export lines are exactly the lines of the entries. */
  lemma {:induction false} ExportLinesMembers(m: map<string, string>, x: string)
    ensures x in ExportLines(m) <==> exists k :: k in m && x == ExportLine(k, m[k])
    decreases |m|
  {
    if m != map[] {
      var j := Pick(m);
      MapRemoveSize(m, j);
      ExportLinesMembers(m - {j}, x);
      if k :| k in m && x == ExportLine(k, m[k]) {
        if k != j {
          assert k in m - {j};
        }
      }
    }
  }

  /** A line per entry, appended while ranging over the map in whatever order it yields. */
  method Statements(m: map<string, string>) returns (lines: seq<string>)
    ensures multiset(lines) == ExportLines(m)
    ensures |lines| == |m|
  {
    var rest := m;
    lines := [];
    while rest != map[]
      invariant rest.Keys <= m.Keys
      invariant forall k :: k in rest ==> rest[k] == m[k]
      invariant multiset(lines) + ExportLines(rest) == ExportLines(m)
      decreases |rest|
    {
      var k :| k in rest;
      ExportLinesRemove(rest, k);
      MapRemoveSize(rest, k);
      lines := lines + [ExportLine(k, rest[k])];
      rest := rest - {k};
    }
    ExportLinesSize(m);
  }
}
