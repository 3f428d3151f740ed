/** appset.go: the applications found under the switcher's home directory, and the
    listing of their environments. */
module ApplicationSet {
  import opened Wrappers
  import Paths
  import Sorting
  import FS = FileSystem
  import Yaml
  import Environment
  import Application

  /** Parsing the application at `p` panics: its definition reads as a directory-type
      application without a target, whose expansion indexes an empty string. */
  predicate ParsePanics(entries: FS.Entries, codec: Yaml.Codec, p: string)
  {
    var doc := Application.DocumentOf(entries, codec, Application.DefinitionPath(p));
    doc.Success? &&
    Yaml.Overwrite("", doc.value.envType) == Environment.DirectoryType &&
    Yaml.Overwrite("", doc.value.target) == ""
  }

  /** The application `n` under `home` panics when parsed. */
  predicate PanicsAt(entries: FS.Entries, codec: Yaml.Codec, home: string, n: string)
  {
    ParsePanics(entries, codec, Paths.Join([home, n]))
  }

  /** How many of `names`, taken in order, parse before the first that panics. */
  function FirstPanic(entries: FS.Entries, codec: Yaml.Codec, home: string, names: seq<string>): (r: nat)
    ensures r <= |names|
    ensures forall j :: 0 <= j < r ==> !PanicsAt(entries, codec, home, names[j])
    ensures r < |names| ==> PanicsAt(entries, codec, home, names[r])
  {
    if names == [] then 0
    else if PanicsAt(entries, codec, home, names[0]) then 0
    else 1 + FirstPanic(entries, codec, home, names[1..])
  }

  /** The names findApps creates applications for: with "all" first, every entry of the
      home directory but `config` in listing order; otherwise the names given. */
  ghost function Selection(entries: FS.Entries, home: string, appNames: seq<string>): seq<string>
    requires |appNames| > 0
  {
    if appNames[0] == "all" then Sorting.FilterOut(Application.Listing(entries, home), "config")
    else appNames
  }

  /** The first step of findApps: the names to create applications for. */
  method SelectNames(fs: FS.FileSystem, home: string, appNames: seq<string>) returns (names: seq<string>)
    requires |appNames| > 0
    ensures names == Selection(fs.entries, home, appNames)
  {
    names := appNames;
    if appNames[0] == "all" {
      var di := fs.ReadDir(home);
      var listed := if di.Success? then di.value else [];
      assert listed == Application.Listing(fs.entries, home);
      names := Sorting.FilterOut(listed, "config");
    }
  }

  /** An application found at `p`, as Parse names it. */
  predicate Found(a: Application.App, p: string)
    reads a
  {
    a.Path == p && a.Name == Paths.Base(p) && a.Definition == Application.DefinitionPath(p)
  }

  /** `found` holds, in order, an application found at `home`/`names[j]` for each `j < k`. */
  predicate FoundAll(found: seq<Application.App>, home: string, names: seq<string>, k: nat)
    reads found
  {
    k <= |names| && |found| == k &&
    forall j :: 0 <= j < k ==> Found(found[j], Paths.Join([home, names[j]]))
  }

  /** `after` is `before` with applications found at `home`/`names[j]` for each `j < k`
      appended. */
  predicate Extends(before: seq<Application.App>, after: seq<Application.App>, home: string,
                    names: seq<string>, k: nat)
    reads after
  {
    |before| <= |after| && after[..|before|] == before && FoundAll(after[|before|..], home, names, k)
  }

  lemma FoundAllSnoc(found: seq<Application.App>, home: string, names: seq<string>, i: nat, a: Application.App)
    requires i < |names| && FoundAll(found, home, names, i)
    requires Found(a, Paths.Join([home, names[i]]))
    ensures FoundAll(found + [a], home, names, i + 1)
  {
    forall j | 0 <= j < i + 1 ensures Found((found + [a])[j], Paths.Join([home, names[j]])) {
      if j < i {
        assert (found + [a])[j] == found[j];
      }
    }
  }

  /** A new App at `p`, parsed; only a panic of Parse is reported. */
  method ParsedApp(fs: FS.FileSystem, codec: Yaml.Codec, userHome: string, cwd: string, home: string, name: string)
    returns (a: Application.App, panic: Option<Error>)
    ensures fresh(a) && Found(a, Paths.Join([home, name]))
    ensures panic.Some? <==> PanicsAt(fs.entries, codec, home, name)
    ensures panic.Some? ==> panic.value.Panic?
  {
    a := new Application.App.Zero();
    a.Path := Paths.Join([home, name]);
    var err := a.Parse(fs, codec, userHome, cwd);
    panic := if err.Some? && err.value.Panic? then err else None;
  }

  /** The listing of one application: its name, its current environment or the lack of
      one, then every environment whose name is not the current one's. */
  ghost function Report(entries: FS.Entries, name: string, path: string, nameOf: string -> string): seq<string>
  {
    ReportOf(name, Application.CurrentName(entries, path, nameOf), EnvDisplayNames(entries, path, nameOf))
  }

  /** The listing of an application named `name` whose current environment is `cur` and
      whose environments are named `envs`. */
  function ReportOf(name: string, cur: Result<string>, envs: seq<string>): seq<string>
  {
    var curName := if cur.Success? then cur.value else "";
    [name + ":"] +
    (if cur.Success? then ["\t" + cur.value + "\tCURRENT"] else ["No environment currently in use"]) +
    Indented(Sorting.FilterOut(envs, curName))
  }

  /** The names of the environments ListEnvs yields, in its order. */
  ghost function EnvDisplayNames(entries: FS.Entries, path: string, nameOf: string -> string): seq<string>
  {
    DisplayNames(path, Application.EnvNames(entries, path), nameOf)
  }

  /** The names `nameOf` gives the entries `ns` of directory `path`. */
  function DisplayNames(path: string, ns: seq<string>, nameOf: string -> string): seq<string>
  {
    seq(|ns|, i requires 0 <= i < |ns| => nameOf(Paths.Join([path, ns[i]])))
  }

  /** Each string on a line of its own after a tab. */
  function Indented(xs: seq<string>): (r: seq<string>)
    ensures |r| == |xs|
    ensures forall i :: 0 <= i < |xs| ==> r[i] == "\t" + xs[i]
  {
    if xs == [] then [] else Indented(xs[..|xs| - 1]) + ["\t" + xs[|xs| - 1]]
  }

  /** Indenting keeps lines apart: a line occurs as often as the string it indents. */
  lemma {:induction false} IndentedCount(xs: seq<string>, x: string)
    ensures multiset(Indented(xs))["\t" + x] == multiset(xs)[x]
  {
    if xs != [] {
      var prefix := xs[..|xs| - 1];
      var last := xs[|xs| - 1];
      assert xs == prefix + [last];
      IndentedCount(prefix, x);
      assert ("\t" + last)[1..] == last && ("\t" + x)[1..] == x;
    }
  }

  /** The plain part of a report names every environment but the current one, each as
      often as ListEnvs yields it, and never the current one. */
  lemma ReportSkipsCurrent(name: string, cur: Result<string>, envs: seq<string>)
    ensures var r := ReportOf(name, cur, envs);
      var curName := if cur.Success? then cur.value else "";
      |r| >= 2 &&
      "\t" + curName !in r[2..] &&
      forall x :: x != curName ==> multiset(r[2..])["\t" + x] == multiset(envs)[x]
  {
    var r := ReportOf(name, cur, envs);
    var curName := if cur.Success? then cur.value else "";
    var kept := Sorting.FilterOut(envs, curName);
    assert r[2..] == Indented(kept);
    IndentedCount(kept, curName);
    forall x | x != curName
      ensures multiset(r[2..])["\t" + x] == multiset(envs)[x]
    {
      IndentedCount(kept, x);
    }
  }

  /** Reports one after the other. */
  function Flatten(reports: seq<seq<string>>): seq<string>
  {
    if reports == [] then [] else Flatten(reports[..|reports| - 1]) + reports[|reports| - 1]
  }

  /** The names of a sequence of envs. */
  function NamesOf(envs: seq<Environment.Env>): (r: seq<string>)
    reads envs
    ensures |r| == |envs|
    ensures forall i :: 0 <= i < |envs| ==> r[i] == envs[i].Name
  {
    if envs == [] then [] else NamesOf(envs[..|envs| - 1]) + [envs[|envs| - 1].Name]
  }

  /** The inner loop of listApps: the envs not named like the current one. */
  method PlainLines(envs: seq<Environment.Env>, curName: string) returns (lines: seq<string>)
    ensures lines == Indented(Sorting.FilterOut(NamesOf(envs), curName))
  {
    lines := [];
    ghost var kept := [];
    var i := 0;
    while i < |envs|
      invariant 0 <= i <= |envs|
      invariant kept == Sorting.FilterOut(NamesOf(envs[..i]), curName)
      invariant lines == Indented(kept)
    {
      assert NamesOf(envs[..i + 1]) == NamesOf(envs[..i]) + [envs[i].Name];
      var names := NamesOf(envs[..i + 1]);
      assert names[..|names| - 1] == NamesOf(envs[..i]);
      if envs[i].Name != curName {
        lines := lines + ["\t" + envs[i].Name];
        kept := kept + [envs[i].Name];
        assert kept[..|kept| - 1] == Sorting.FilterOut(NamesOf(envs[..i]), curName);
      }
      i := i + 1;
    }
    assert envs[..i] == envs;
  }

  /** The listing of one application. */
  method AppReport(fs: FS.FileSystem, app: Application.App, nameOf: string -> string) returns (lines: seq<string>)
    ensures lines == Report(fs.entries, app.Name, app.Path, nameOf)
  {
    var current, err := app.Current(fs, nameOf);
    var envs := app.ListEnvs(fs, nameOf);
    ListedNames(envs, app.Path, Application.EnvNames(fs.entries, app.Path), nameOf);
    lines := ReportLines(app.Name, current.Name, err, envs);
  }

  /** The envs ListEnvs yields carry the names `nameOf` gives their paths. */
  lemma ListedNames(envs: seq<Environment.Env>, path: string, ns: seq<string>, nameOf: string -> string)
    requires |envs| == |ns|
    requires forall i :: 0 <= i < |envs| ==>
      envs[i].Path == Paths.Join([path, ns[i]]) && envs[i].Name == nameOf(envs[i].Path)
    ensures NamesOf(envs) == DisplayNames(path, ns, nameOf)
  {
  }

  /** The lines of one application's listing, from what Current and ListEnvs returned (a
      failed Current leaves the env's name empty). */
  method ReportLines(name: string, curName: string, err: Option<Error>, envs: seq<Environment.Env>)
    returns (lines: seq<string>)
    requires err.Some? ==> curName == ""
    ensures lines == ReportOf(name, if err.None? then Success(curName) else Failure(err.value), NamesOf(envs))
  {
    lines := [name + ":"];
    if err.Some? {
      lines := lines + ["No environment currently in use"];
    } else {
      lines := lines + ["\t" + curName + "\tCURRENT"];
    }
    var plain := PlainLines(envs, curName);
    lines := lines + plain;
  }

  /** The listing of each application in turn. */
  method Reports(fs: FS.FileSystem, apps: seq<Application.App>, nameOf: string -> string)
    returns (lines: seq<string>, ghost reports: seq<seq<string>>)
    ensures |reports| == |apps|
    ensures forall j :: 0 <= j < |apps| ==> reports[j] == Report(fs.entries, apps[j].Name, apps[j].Path, nameOf)
    ensures lines == Flatten(reports)
  {
    ghost var want := Wanted(fs.entries, apps, nameOf);
    lines, reports := [], [];
    var i := 0;
    while i < |apps|
      invariant 0 <= i <= |apps|
      invariant reports == want[..i]
      invariant lines == Flatten(reports)
    {
      var r := AppReport(fs, apps[i], nameOf);
      assert r == want[i];
      FlattenSnoc(reports, r);
      SliceSnoc(want, i);
      lines, reports := lines + r, reports + [r];
      i := i + 1;
    }
    SliceSnoc(want, i);
  }

  /** A prefix one longer. */
  lemma SliceSnoc<T>(s: seq<T>, i: nat)
    requires i <= |s|
    ensures i < |s| ==> s[..i + 1] == s[..i] + [s[i]]
    ensures i == |s| ==> s[..i] == s
  {
  }

  /** The listing of each application. */
  ghost function Wanted(entries: FS.Entries, apps: seq<Application.App>, nameOf: string -> string)
    : (r: seq<seq<string>>)
    reads apps
    ensures |r| == |apps|
    ensures forall j :: 0 <= j < |apps| ==> r[j] == Report(entries, apps[j].Name, apps[j].Path, nameOf)
  {
    seq(|apps|, j requires 0 <= j < |apps| reads apps => Report(entries, apps[j].Name, apps[j].Path, nameOf))
  }

  /** The listing of the next application extends the lines. */
  lemma FlattenSnoc(reports: seq<seq<string>>, r: seq<string>)
    ensures Flatten(reports + [r]) == Flatten(reports) + r
  {
    assert (reports + [r])[..|reports|] == reports;
  }

  /** The applications found at `home`/`names[j]` for each `j` before the first whose Parse
      panics, and that panic. */
  method ParsedApps(fs: FS.FileSystem, codec: Yaml.Codec, userHome: string, cwd: string, home: string,
                    names: seq<string>)
    returns (found: seq<Application.App>, err: Option<Error>)
    ensures var k := FirstPanic(fs.entries, codec, home, names);
      FoundAll(found, home, names, k) &&
      (err.Some? <==> k < |names|) && (err.Some? ==> err.value.Panic?)
    ensures forall j :: 0 <= j < |found| ==> fresh(found[j])
  {
    ghost var k := FirstPanic(fs.entries, codec, home, names);
    found := [];
    var i := 0;
    while i < |names|
      invariant 0 <= i <= |names| && i <= k
      invariant FoundAll(found, home, names, i)
      invariant forall j :: 0 <= j < |found| ==> fresh(found[j])
    {
      var a, panic := ParsedApp(fs, codec, userHome, cwd, home, names[i]);
      FoundAllSnoc(found, home, names, i, a);
      if panic.Some? {
        return found, panic;
      }
      found := found + [a];
      i := i + 1;
    }
    err := None;
  }

  lemma ExtendsAppend(before: seq<Application.App>, found: seq<Application.App>, home: string,
                      names: seq<string>, k: nat)
    requires FoundAll(found, home, names, k)
    ensures Extends(before, before + found, home, names, k)
  {
    assert (before + found)[..|before|] == before && (before + found)[|before|..] == found;
  }

  class AppSet {
    var Apps: seq<Application.App>
    var Home: string

    constructor (home: string)
      ensures Apps == [] && Home == home
    {
      Apps, Home := [], home;
    }

    /** findApps: appends the applications named by `appNames` under the home directory,
        unless the home directory does not exist.  Indexing an empty `appNames`, or a
        Parse that panics, stops it. */
    method FindApps(fs: FS.FileSystem, codec: Yaml.Codec, userHome: string, cwd: string, appNames: seq<string>)
      returns (err: Option<Error>)
      modifies this
      ensures Home == old(Home)
      ensures var stat := FS.StatOf(fs.entries, Home);
        if stat.Failure? && IsNotExist(stat.error) then Apps == old(Apps) && err == None
        else if |appNames| == 0 then Apps == old(Apps) && err == Some(Panic("index out of range"))
        else
          var names := Selection(fs.entries, Home, appNames);
          var k := FirstPanic(fs.entries, codec, Home, names);
          Extends(old(Apps), Apps, Home, names, k) &&
          (err.Some? <==> k < |names|) && (err.Some? ==> err.value.Panic?)
      ensures forall j :: |old(Apps)| <= j < |Apps| ==> fresh(Apps[j])
    {
      var info := fs.Stat(Home);
      if info.Failure? && IsNotExist(info.error) {
        return None;
      }
      if |appNames| == 0 {
        return Some(Panic("index out of range"));
      }
      var names := SelectNames(fs, Home, appNames);
      err := AppendApps(fs, codec, userHome, cwd, names);
    }

    /** The loop of findApps over the chosen names. */
    method AppendApps(fs: FS.FileSystem, codec: Yaml.Codec, userHome: string, cwd: string, names: seq<string>)
      returns (err: Option<Error>)
      modifies this
      ensures Home == old(Home)
      ensures var k := FirstPanic(fs.entries, codec, Home, names);
        Extends(old(Apps), Apps, Home, names, k) &&
        (err.Some? <==> k < |names|) && (err.Some? ==> err.value.Panic?)
      ensures forall j :: |old(Apps)| <= j < |Apps| ==> fresh(Apps[j])
    {
      var found;
      found, err := ParsedApps(fs, codec, userHome, cwd, Home, names);
      ExtendsAppend(Apps, found, Home, names, FirstPanic(fs.entries, codec, Home, names));
      Apps := Apps + found;
    }

    /** listApps: finds the applications (all of them when no name is given), then lists
        each as Report describes. */
    method ListApps(fs: FS.FileSystem, codec: Yaml.Codec, userHome: string, cwd: string,
                    nameOf: string -> string, appNames: seq<string>)
      returns (err: Option<Error>, lines: seq<string>, ghost reports: seq<seq<string>>)
      modifies this
      ensures Home == old(Home)
      ensures err.Some? ==> err.value.Panic? && lines == []
      ensures err.None? ==>
        |reports| == |Apps| &&
        (forall j :: 0 <= j < |Apps| ==> reports[j] == Report(fs.entries, Apps[j].Name, Apps[j].Path, nameOf)) &&
        lines == Flatten(reports)
    {
      err := FindApps(fs, codec, userHome, cwd, if |appNames| == 0 then ["all"] else appNames);
      if err.Some? {
        return err, [], [];
      }
      lines, reports := Reports(fs, Apps, nameOf);
    }
  }
}
