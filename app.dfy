/** app.go: an application directory holding one entry per environment and a `current`
    link to the one in use; for a directory-type application a second link, the target,
    points at the same environment. */
module Application {
  import opened Wrappers
  import Strs
  import Paths
  import Sorting
  import FS = FileSystem
  import Yaml
  import Common
  import Exports
  import Environment

  /** The fields of an App that the link protocol reads. */
  datatype Layout = Layout(envType: string, path: string, target: string, variables: seq<string>)

  /** The `current` link of the application at `path`. */
  function CurrentLink(path: string): string
  {
    Paths.Join([path, "current"])
  }

  /** The file describing the application at `p`: `config/<name>.ssw` beside it. */
  function DefinitionPath(p: string): string
  {
    Paths.Join([Paths.Dir(p), "config", Paths.Base(p) + ".ssw"])
  }

  /** An application `n` under the home directory is named `n` and described by
      `config/n.ssw` under the home directory. */
  lemma DefinitionOfAppPath(home: string, n: string)
    requires home != "" && Paths.IsName(n)
    ensures Paths.Base(Paths.Join([home, n])) == n
    ensures DefinitionPath(Paths.Join([home, n])) == Paths.Join([home, "config/" + n + ".ssw"])
  {
    var p := Paths.Join([home, n]);
    Paths.BaseOfJoin(home, n);
    Paths.DirOfJoin(home, n);
    ConfigBeside(home, n + ".ssw");
    assert DefinitionPath(p) == Paths.Join([Paths.Clean(home), "config", n + ".ssw"]);
    assert "config/" + (n + ".ssw") == "config/" + n + ".ssw";
  }

  /** `config/x` beside the cleaned directory is `config/x` beside the directory. */
  lemma ConfigBeside(home: string, x: string)
    requires home != ""
    ensures Paths.Join([Paths.Clean(home), "config", x]) == Paths.Join([home, "config/" + x])
  {
    var c := Paths.Clean(home);
    var t := "config/" + x;
    Paths.CleanNotEmpty(home);
    JoinThree(c, "config", x);
    assert "config" + "/" + x == t;
    Paths.JoinCleanLeft(home, t);
    JoinTwo(home, t);
  }

  lemma JoinTwo(a: string, b: string)
    requires a != ""
    ensures Paths.Join([a, b]) == Paths.Clean(a + "/" + b)
  {
    assert [a, b][1..] == [b];
    assert Strs.Join([b], "/") == b;
  }

  lemma JoinThree(a: string, b: string, c: string)
    requires a != ""
    ensures Paths.Join([a, b, c]) == Paths.Clean(a + "/" + (b + "/" + c))
  {
    assert [a, b, c][1..] == [b, c] && [b, c][1..] == [c];
    assert Strs.Join([c], "/") == c;
    assert Strs.Join([b, c], "/") == b + "/" + c;
  }

  /** DetermineEnvPath: `<envName>-env.ssw` in the application directory for an
      environment-type application, `<envName>` for any other type. */
  function DetermineEnvPath(l: Layout, envName: string): (r: string)
    ensures l.path != "" && Paths.IsName(envName) ==>
      Paths.Dir(r) == Paths.Clean(l.path) &&
      Paths.Base(r) == if l.envType == Environment.EnvironmentType then envName + "-env.ssw" else envName
  {
    var leaf := if l.envType == Environment.EnvironmentType then envName + "-env.ssw" else envName;
    if l.path != "" && Paths.IsName(envName) then
      assert Paths.IsName(leaf) by {
        assert leaf[0] == envName[0];
        if l.envType == Environment.EnvironmentType {
          assert |leaf| > 2;
        }
      }
      Paths.BaseOfJoin(l.path, leaf);
      Paths.DirOfJoin(l.path, leaf);
      Paths.Join([l.path, leaf])
    else Paths.Join([l.path, leaf])
  }

  /** The names the application directory lists. */
  ghost function Listing(entries: FS.Entries, d: string): seq<string>
  {
    match FS.ReadDirOf(entries, d)
    case Success(names) => names
    case Failure(_) => []
  }

  /** The environments ListEnvs finds: every listed name but `current`. */
  ghost function EnvNames(entries: FS.Entries, path: string): seq<string>
  {
    Sorting.FilterOut(Listing(entries, path), "current")
  }

  /** The environments come in name order, `current` is not one of them, and every other
      name in the directory is one of them exactly once. */
  lemma EnvNamesListed(entries: FS.Entries, path: string)
    ensures Sorting.Sorted(EnvNames(entries, path))
    ensures "current" !in EnvNames(entries, path)
    ensures forall n :: n != "current" ==>
      multiset(EnvNames(entries, path))[n] == multiset(Listing(entries, path))[n]
    ensures forall n :: multiset(EnvNames(entries, path))[n] <= 1
  {
    ListingDistinct(entries, path);
    WithoutCurrent(Listing(entries, path));
  }

  /** A directory lists its names in order, each once. */
  lemma ListingDistinct(entries: FS.Entries, path: string)
    ensures Sorting.Sorted(Listing(entries, path))
    ensures forall n :: multiset(Listing(entries, path))[n] <= 1
  {
    match FS.ReadDirOf(entries, path)
    case Success(names) =>
    case Failure(_) =>
  }

  lemma WithoutCurrent(listing: seq<string>)
    requires Sorting.Sorted(listing)
    requires forall n :: multiset(listing)[n] <= 1
    ensures Sorting.Sorted(Sorting.FilterOut(listing, "current"))
    ensures "current" !in Sorting.FilterOut(listing, "current")
    ensures forall n :: n != "current" ==>
      multiset(Sorting.FilterOut(listing, "current"))[n] == multiset(listing)[n]
    ensures forall n :: multiset(Sorting.FilterOut(listing, "current"))[n] <= 1
  {
    Sorting.FilterOutSorted(listing, "current");
    assert multiset(Sorting.FilterOut(listing, "current"))["current"] == 0;
  }

  /** Unlink, as a change of the filesystem. */
  function UnlinkStep(entries: FS.Entries, l: Layout): FS.Step
  {
    var current := CurrentLink(l.path);
    var info := FS.LstatOf(entries, current);
    if info.Failure? && IsNotExist(info.error) then FS.Step(entries, None)
    else if l.envType == Environment.DirectoryType then
      var s := FS.RemoveStep(entries, l.target);
      if s.err.Some? then s else FS.RemoveStep(s.entries, current)
    else FS.RemoveStep(entries, current)
  }

  /** Link, as a change of the filesystem. */
  function LinkStep(entries: FS.Entries, l: Layout, envName: string): FS.Step
  {
    var source := Paths.Join([l.path, envName]);
    var s := FS.SymlinkStep(entries, source, CurrentLink(l.path));
    if s.err.Some? then s
    else if l.envType == Environment.DirectoryType then FS.SymlinkStep(s.entries, source, l.target)
    else s
  }

  /** The name of the current environment as Current derives it, or the failure to read
      the `current` link. */
  function CurrentName(entries: FS.Entries, path: string, nameOf: string -> string): Result<string>
  {
    match Common.ResolveSymlink(entries, CurrentLink(path))
    case Success(realPath) => Success(nameOf(realPath))
    case Failure(e) => Failure(e)
  }

  /** MakeCurrent goes past its two early returns: the environment exists (or fails to
      stat for a reason other than absence) and is not already current. */
  predicate Proceeds(entries: FS.Entries, l: Layout, envName: string, nameOf: string -> string)
  {
    var stat := FS.StatOf(entries, DetermineEnvPath(l, envName));
    !(stat.Failure? && IsNotExist(stat.error)) &&
    !(CurrentName(entries, l.path, nameOf) == Success(envName))
  }

  /** MakeCurrent, as a change of the filesystem.  An export declaration without '='
      panics before any link is touched. */
  function MakeCurrentStep(entries: FS.Entries, l: Layout, envName: string, nameOf: string -> string): FS.Step
  {
    var envPath := DetermineEnvPath(l, envName);
    var stat := FS.StatOf(entries, envPath);
    if stat.Failure? && IsNotExist(stat.error) then FS.Step(entries, Some(stat.error))
    else if CurrentName(entries, l.path, nameOf) == Success(envName) then FS.Step(entries, None)
    else if l.envType == Environment.EnvironmentType && !Exports.AllDeclare(l.variables) then
      FS.Step(entries, Some(Panic("index out of range")))
    else
      var u := UnlinkStep(entries, l);
      if u.err.Some? then u else LinkStep(u.entries, l, nameOf(envPath))
  }

  // ---------------------------------------------------------------------------
  // Unlink and Link

  /** Without a `current` link there is nothing to unlink. */
  lemma UnlinkWithoutCurrent(entries: FS.Entries, l: Layout)
    requires CurrentLink(l.path) !in entries
    ensures UnlinkStep(entries, l) == FS.Step(entries, None)
  {
  }

  /** For a directory-type application the target goes first: when it cannot be removed,
      `current` stays and the error is returned. */
  lemma UnlinkTargetFirst(entries: FS.Entries, l: Layout)
    requires l.envType == Environment.DirectoryType && CurrentLink(l.path) in entries
    requires FS.RemoveStep(entries, l.target).err.Some?
    ensures UnlinkStep(entries, l) == FS.Step(entries, FS.RemoveStep(entries, l.target).err)
    ensures CurrentLink(l.path) in UnlinkStep(entries, l).entries
  {
  }

  /** A successful unlink removes `current`, and the target for a directory-type
      application, and nothing else. */
  lemma UnlinkRemoves(entries: FS.Entries, l: Layout)
    requires CurrentLink(l.path) in entries && UnlinkStep(entries, l).err.None?
    ensures UnlinkStep(entries, l).entries ==
      if l.envType == Environment.DirectoryType then entries - {l.target} - {CurrentLink(l.path)}
      else entries - {CurrentLink(l.path)}
  {
  }

  /** A successful link adds `current`, and the target for a directory-type application,
      both pointing at the environment, and nothing else. */
  lemma LinkCreates(entries: FS.Entries, l: Layout, envName: string)
    requires LinkStep(entries, l, envName).err.None?
    ensures var link := FS.Symlink(Paths.Join([l.path, envName]));
      LinkStep(entries, l, envName).entries ==
        if l.envType == Environment.DirectoryType then entries[CurrentLink(l.path) := link][l.target := link]
        else entries[CurrentLink(l.path) := link]
  {
  }

  /** When `current` exists, Link fails and does not try the target. */
  lemma LinkFirstFails(entries: FS.Entries, l: Layout, envName: string)
    requires CurrentLink(l.path) in entries
    ensures LinkStep(entries, l, envName) == FS.Step(entries, Some(Exist(CurrentLink(l.path))))
  {
  }

  /** When only the target exists, the new `current` link stays behind. */
  lemma LinkSecondFails(entries: FS.Entries, l: Layout, envName: string)
    requires l.envType == Environment.DirectoryType
    requires CurrentLink(l.path) !in entries && l.target in entries
    ensures LinkStep(entries, l, envName) ==
      FS.Step(entries[CurrentLink(l.path) := FS.Symlink(Paths.Join([l.path, envName]))], Some(Exist(l.target)))
  {
  }

  /** Unlink undoes Link. */
  lemma LinkThenUnlink(entries: FS.Entries, l: Layout, envName: string)
    requires CurrentLink(l.path) !in entries
    requires l.envType == Environment.DirectoryType ==> l.target !in entries && l.target != CurrentLink(l.path)
    ensures LinkStep(entries, l, envName).err.None?
    ensures UnlinkStep(LinkStep(entries, l, envName).entries, l) == FS.Step(entries, None)
  {
    var cur := CurrentLink(l.path);
    var link := FS.Symlink(Paths.Join([l.path, envName]));
    var linked := LinkStep(entries, l, envName).entries;
    if l.envType == Environment.DirectoryType {
      assert linked == entries[cur := link][l.target := link];
      assert linked - {l.target} - {cur} == entries;
    } else {
      assert linked == entries[cur := link];
      assert linked - {cur} == entries;
    }
  }

  // ---------------------------------------------------------------------------
  // MakeCurrent

  /** An environment that does not exist is an error, and no link changes. */
  lemma MakeCurrentMissing(entries: FS.Entries, l: Layout, envName: string, nameOf: string -> string)
    requires FS.StatOf(entries, DetermineEnvPath(l, envName)) == Failure(NotExist(DetermineEnvPath(l, envName)))
    ensures MakeCurrentStep(entries, l, envName, nameOf) == FS.Step(entries, Some(NotExist(DetermineEnvPath(l, envName))))
  {
  }

  /** Switching to the environment already current changes nothing and succeeds. */
  lemma MakeCurrentAlreadyCurrent(entries: FS.Entries, l: Layout, envName: string, nameOf: string -> string)
    requires FS.StatOf(entries, DetermineEnvPath(l, envName)).Success?
    requires CurrentName(entries, l.path, nameOf) == Success(envName)
    ensures MakeCurrentStep(entries, l, envName, nameOf) == FS.Step(entries, None)
  {
  }

  /** After a switch that succeeds, `current` (and for a directory-type application the
      target) points at the environment's directory. */
  lemma MakeCurrentSwitches(entries: FS.Entries, l: Layout, envName: string, nameOf: string -> string)
    requires Proceeds(entries, l, envName, nameOf)
    requires MakeCurrentStep(entries, l, envName, nameOf).err.None?
    ensures var after := MakeCurrentStep(entries, l, envName, nameOf).entries;
      var source := Paths.Join([l.path, nameOf(DetermineEnvPath(l, envName))]);
      FS.ReadlinkOf(after, CurrentLink(l.path)) == Success(source) &&
      (l.envType == Environment.DirectoryType ==> FS.ReadlinkOf(after, l.target) == Success(source))
  {
    var u := UnlinkStep(entries, l);
    var n := nameOf(DetermineEnvPath(l, envName));
    assert MakeCurrentStep(entries, l, envName, nameOf) == LinkStep(u.entries, l, n);
    LinkCreates(u.entries, l, n);
    if l.envType == Environment.DirectoryType {
      assert l.target != CurrentLink(l.path);
    }
  }

  /** `current` and the target point at the same place, or neither is a link. */
  /** A failed Unlink aborts the switch: Link is not attempted and the state Unlink left
      is the result. */
  lemma MakeCurrentUnlinkFails(entries: FS.Entries, l: Layout, envName: string, nameOf: string -> string)
    requires Proceeds(entries, l, envName, nameOf)
    requires !(l.envType == Environment.EnvironmentType && !Exports.AllDeclare(l.variables))
    requires UnlinkStep(entries, l).err.Some?
    ensures MakeCurrentStep(entries, l, envName, nameOf) == UnlinkStep(entries, l)
  {
  }

  predicate LinksTogether(entries: FS.Entries, l: Layout)
  {
    var cur := CurrentLink(l.path);
    l.envType == Environment.DirectoryType ==>
      ((cur in entries && entries[cur].Symlink?) <==> (l.target in entries && entries[l.target].Symlink?)) &&
      (cur in entries && entries[cur].Symlink? ==> entries[cur] == entries[l.target])
  }

  /** MakeCurrent keeps `current` and the target together, provided the target is a link
      or absent. */
  lemma MakeCurrentKeepsLinksTogether(entries: FS.Entries, l: Layout, envName: string, nameOf: string -> string)
    requires LinksTogether(entries, l)
    requires l.target != CurrentLink(l.path)
    requires l.target !in entries || entries[l.target].Symlink?
    ensures LinksTogether(MakeCurrentStep(entries, l, envName, nameOf).entries, l)
  {
    var cur := CurrentLink(l.path);
    if l.envType == Environment.DirectoryType && Proceeds(entries, l, envName, nameOf) {
      var u := UnlinkStep(entries, l);
      var n := nameOf(DetermineEnvPath(l, envName));
      if u.err.None? {
        if cur in entries {
          UnlinkRemoves(entries, l);
        } else {
          UnlinkWithoutCurrent(entries, l);
        }
        assert cur !in u.entries && l.target !in u.entries;
        LinkCreates(u.entries, l, n);
      }
    }
  }

  /** With no `current` link but a target that is not a link (say a real directory), a
      switch creates `current`, fails on the target and leaves the two apart. */
  lemma MakeCurrentStrayTarget(entries: FS.Entries, l: Layout, envName: string, nameOf: string -> string)
    requires l.envType == Environment.DirectoryType
    requires FS.StatOf(entries, DetermineEnvPath(l, envName)).Success?
    requires CurrentLink(l.path) !in entries && l.target != CurrentLink(l.path)
    requires l.target in entries && !entries[l.target].Symlink?
    ensures MakeCurrentStep(entries, l, envName, nameOf) ==
      FS.Step(entries[CurrentLink(l.path) := FS.Symlink(Paths.Join([l.path, nameOf(DetermineEnvPath(l, envName))]))],
              Some(Exist(l.target)))
    ensures !LinksTogether(MakeCurrentStep(entries, l, envName, nameOf).entries, l)
  {
    LinkSecondFails(entries, l, nameOf(DetermineEnvPath(l, envName)));
  }

  /** The line UnsetExportVars prints for one export name. */
  function UnsetLine(k: string): string
  {
    "unset " + k
  }

  lemma UnsetLineInjective(a: string, b: string)
    ensures UnsetLine(a) == UnsetLine(b) ==> a == b
  {
    if UnsetLine(a) == UnsetLine(b) {
      assert a == UnsetLine(a)[6..] && b == UnsetLine(b)[6..];
    }
  }

  class App {
    var Name: string
    var EnvType: string
    var Path: string
    var Root: string
    var Target: string
    var Definition: string
    var Variables: seq<string>
    var ExportVariables: map<string, string>

    /** new(App): every field at its zero value. */
    constructor Zero()
      ensures Name == "" && EnvType == "" && Path == "" && Root == "" && Target == ""
      ensures Definition == "" && Variables == [] && ExportVariables == map[]
    {
      Name, EnvType, Path, Root, Target, Definition := "", "", "", "", "", "";
      Variables, ExportVariables := [], map[];
    }

    /** The fields the link protocol reads. */
    function Shape(): Layout
      reads this
    {
      Layout(EnvType, Path, Target, Variables)
    }

    /** Parse: derives the name and definition file from Path, reads the definition, and
        for a directory-type application expands the target, which panics when empty. */
    method Parse(fs: FS.FileSystem, codec: Yaml.Codec, home: string, cwd: string) returns (err: Option<Error>)
      modifies this
      ensures Path == old(Path) && Root == old(Root) && ExportVariables == old(ExportVariables)
      ensures Name == Paths.Base(Path) && Definition == DefinitionPath(Path)
      ensures var doc := DocumentOf(fs.entries, codec, Definition);
        if doc.Failure? then
          err == Some(doc.error) &&
          EnvType == old(EnvType) && Target == old(Target) && Variables == old(Variables)
        else
          var target := Yaml.Overwrite(old(Target), doc.value.target);
          EnvType == Yaml.Overwrite(old(EnvType), doc.value.envType) &&
          Variables == Yaml.Overwrite(old(Variables), doc.value.variables) &&
          if EnvType == Environment.DirectoryType then
            match Common.ExpandPath(home, cwd, target)
            case Success(t) => Target == t && err == None
            case Failure(e) => Target == target && err == Some(e)
          else Target == target && err == None
    {
      var name := Paths.Base(Path);
      var definition := DefinitionPath(Path);
      Name, Definition := name, definition;
      var doc := ReadDocument(fs, codec, definition);
      if doc.Failure? {
        return Some(doc.error);
      }
      var envType, target, variables;
      envType, target, variables, err := Decoded(doc.value, EnvType, Target, Variables, home, cwd);
      EnvType, Target, Variables := envType, target, variables;
    }

    /** ParseExportVars: rebuilds the export map from the declarations; a declaration
        without '=' panics. */
    method ParseExportVars() returns (err: Option<Error>)
      modifies this
      ensures Name == old(Name) && EnvType == old(EnvType) && Path == old(Path) && Root == old(Root)
      ensures Target == old(Target) && Definition == old(Definition) && Variables == old(Variables)
      ensures err.None? <==> Exports.AllDeclare(Variables)
      ensures err.Some? ==> err == Some(Panic("index out of range"))
      ensures err.None? ==> ExportVariables == Exports.ExportMap(Variables)
    {
      var decls := Variables;
      var m := map[];
      var i := 0;
      while i < |decls|
        invariant 0 <= i <= |decls|
        invariant Exports.AllDeclare(decls[..i])
        invariant m == Exports.ExportMap(decls[..i])
      {
        var keyValue := Strs.Split(decls[i], "=");
        if |keyValue| < 2 {
          ExportVariables := m;
          assert !Exports.Declares(decls[i]);
          return Some(Panic("index out of range"));
        }
        assert decls[..i + 1][..i] == decls[..i];
        m := m[keyValue[1] := keyValue[0]];
        i := i + 1;
      }
      assert decls[..i] == decls;
      ExportVariables := m;
      err := None;
    }

    /** Current: the environment the `current` link points at, named by `nameOf`. */
    method Current(fs: FS.FileSystem, nameOf: string -> string) returns (env: Environment.Env, err: Option<Error>)
      ensures fresh(env) && env.EnvType == EnvType
      ensures match Common.ResolveSymlink(fs.entries, CurrentLink(Path))
        case Success(realPath) => env.Path == realPath && env.Name == nameOf(realPath) && err == None
        case Failure(e) => env.Path == "" && env.Name == "" && err == Some(e)
      ensures CurrentName(fs.entries, Path, nameOf) == if err.None? then Success(env.Name) else Failure(err.value)
    {
      env := new Environment.Env.Zero();
      env.EnvType := EnvType;
      var currentPath := Paths.Join([Path, "current"]);
      var realPath := Common.ResolveSymlink(fs.entries, currentPath);
      if realPath.Success? {
        env.Path := realPath.value;
        env.Name := nameOf(env.Path);
        err := None;
      } else {
        err := Some(realPath.error);
      }
    }

    /** ListEnvs: one env per listed name but `current`, with its path in the application
        directory. */
    method ListEnvs(fs: FS.FileSystem, nameOf: string -> string) returns (envs: seq<Environment.Env>)
      ensures |envs| == |EnvNames(fs.entries, Path)|
      ensures forall i :: 0 <= i < |envs| ==>
        fresh(envs[i]) && envs[i].Path == Paths.Join([Path, EnvNames(fs.entries, Path)[i]]) &&
        envs[i].Name == nameOf(envs[i].Path)
    {
      var listing := fs.ReadDir(Path);
      var di := if listing.Success? then listing.value else [];
      assert di == Listing(fs.entries, Path);
      envs := ListedEnvs(Path, di, nameOf);
    }

    /** EnumerateExportVars: every export name, each once. */
    method EnumerateExportVars() returns (vars: seq<string>)
      ensures |vars| == |ExportVariables|
      ensures forall k :: k in ExportVariables <==> k in vars
      ensures forall i, j :: 0 <= i < j < |vars| ==> vars[i] != vars[j]
    {
      vars := Sorting.Enumerate(ExportVariables.Keys);
      assert |ExportVariables.Keys| == |ExportVariables|;
      assert |vars| == |multiset(vars)| == |multiset(ExportVariables.Keys)|;
      forall k ensures k in ExportVariables <==> k in vars {
        assert k in vars <==> k in multiset(vars);
      }
      Sorting.Distinct(vars);
    }

    /** UnsetExportVars: an `unset` line per export name, each once. */
    method UnsetExportVars() returns (lines: seq<string>)
      ensures |lines| == |ExportVariables|
      ensures forall k :: k in ExportVariables <==> UnsetLine(k) in lines
      ensures forall i, j :: 0 <= i < j < |lines| ==> lines[i] != lines[j]
    {
      var vars := EnumerateExportVars();
      lines := [];
      var i := 0;
      while i < |vars|
        invariant 0 <= i <= |vars| && |lines| == i
        invariant forall j :: 0 <= j < i ==> lines[j] == UnsetLine(vars[j])
      {
        lines := lines + [UnsetLine(vars[i])];
        i := i + 1;
      }
      forall k ensures k in ExportVariables <==> UnsetLine(k) in lines {
        if UnsetLine(k) in lines {
          var j :| 0 <= j < |lines| && lines[j] == UnsetLine(k);
          UnsetLineInjective(vars[j], k);
        }
        if k in ExportVariables {
          var j :| 0 <= j < |vars| && vars[j] == k;
          assert lines[j] == UnsetLine(k);
        }
      }
      forall i, j | 0 <= i < j < |lines| ensures lines[i] != lines[j] {
        UnsetLineInjective(vars[i], vars[j]);
      }
    }

    /** Unlink: removes the target of a directory-type application, then `current`. */
    method Unlink(fs: FS.FileSystem) returns (err: Option<Error>)
      modifies fs
      ensures FS.Step(fs.entries, err) == UnlinkStep(old(fs.entries), Shape())
    {
      var current := Paths.Join([Path, "current"]);
      var info := fs.Lstat(current);
      if info.Failure? && IsNotExist(info.error) {
        return None;
      }
      if EnvType == Environment.DirectoryType {
        err := fs.Remove(Target);
        if err.Some? {
          return err;
        }
      }
      err := fs.Remove(Paths.Join([Path, "current"]));
    }

    /** Link: points `current`, then for a directory-type application the target, at the
        environment. */
    method Link(fs: FS.FileSystem, envName: string) returns (err: Option<Error>)
      modifies fs
      ensures FS.Step(fs.entries, err) == LinkStep(old(fs.entries), Shape(), envName)
    {
      var source := Paths.Join([Path, envName]);
      var target := Paths.Join([Path, "current"]);
      err := fs.Symlink(source, target);
      if err.Some? {
        return err;
      }
      if EnvType == Environment.DirectoryType {
        err := fs.Symlink(source, Target);
      }
    }

    /** MakeCurrent: switches the application to `envName`.  An environment-type
        application rebuilds its export map and yields the `unset` lines for it. */
    method MakeCurrent(fs: FS.FileSystem, nameOf: string -> string, envName: string)
      returns (err: Option<Error>, unsets: seq<string>)
      modifies this, fs
      ensures Name == old(Name) && EnvType == old(EnvType) && Path == old(Path) && Root == old(Root)
      ensures Target == old(Target) && Definition == old(Definition) && Variables == old(Variables)
      ensures FS.Step(fs.entries, err) == MakeCurrentStep(old(fs.entries), Shape(), envName, nameOf)
      ensures var emits := Proceeds(old(fs.entries), Shape(), envName, nameOf) &&
          EnvType == Environment.EnvironmentType && Exports.AllDeclare(Variables);
        if emits then
          ExportVariables == Exports.ExportMap(Variables) &&
          |unsets| == |ExportVariables| && (forall k :: k in ExportVariables <==> UnsetLine(k) in unsets)
        else unsets == []
      ensures !(Proceeds(old(fs.entries), Shape(), envName, nameOf) && EnvType == Environment.EnvironmentType) ==>
        ExportVariables == old(ExportVariables)
    {
      unsets := [];
      var envPath := DetermineEnvPath(Shape(), envName);
      var currentEnv, currentErr := Current(fs, nameOf);
      var stat := fs.Stat(envPath);
      if stat.Failure? && IsNotExist(stat.error) {
        return Some(stat.error), [];
      } else if currentErr.None? && envName == currentEnv.Name {
        return None, [];
      }
      // Env.Parse, which is not part of this model, names the new environment.
      var newName := nameOf(envPath);
      if EnvType == Environment.EnvironmentType {
        var panicked := ParseExportVars();
        if panicked.Some? {
          return panicked, [];
        }
        unsets := UnsetExportVars();
      }
      err := Unlink(fs);
      if err.Some? {
        return err, unsets;
      }
      err := Link(fs, newName);
    }
  }

  /** The loop of ListEnvs over the listed names `di`. */
  method ListedEnvs(path: string, di: seq<string>, nameOf: string -> string) returns (envs: seq<Environment.Env>)
    ensures |envs| == |Sorting.FilterOut(di, "current")|
    ensures forall i :: 0 <= i < |envs| ==>
      fresh(envs[i]) && envs[i].Path == Paths.Join([path, Sorting.FilterOut(di, "current")[i]]) &&
      envs[i].Name == nameOf(envs[i].Path)
  {
    envs := [];
    ghost var kept := [];
    var i := 0;
    while i < |di|
      invariant 0 <= i <= |di|
      invariant kept == Sorting.FilterOut(di[..i], "current")
      invariant |envs| == |kept|
      invariant forall j :: 0 <= j < |envs| ==>
        fresh(envs[j]) && envs[j].Path == Paths.Join([path, kept[j]]) && envs[j].Name == nameOf(envs[j].Path)
    {
      assert di[..i + 1][..i] == di[..i];
      var name := di[i];
      if name != "current" {
        var e := ListedEnv(path, name, nameOf);
        envs := envs + [e];
        kept := kept + [name];
      }
      i := i + 1;
    }
    assert di[..i] == di;
  }

  /** An env of the application at `path`, named by `nameOf` from its path. */
  method ListedEnv(path: string, name: string, nameOf: string -> string) returns (e: Environment.Env)
    ensures fresh(e) && e.Path == Paths.Join([path, name]) && e.Name == nameOf(e.Path)
  {
    e := new Environment.Env.Zero();
    e.Path := Paths.Join([path, name]);
    e.Name := nameOf(e.Path);
  }

  /** The fields Parse sets from a decoded definition: each key present overwrites its
      field, and a directory-type application's target is expanded. */
  method Decoded(doc: Yaml.AppDocument, envType0: string, target0: string, variables0: seq<string>,
                 home: string, cwd: string)
    returns (envType: string, target: string, variables: seq<string>, err: Option<Error>)
    ensures var t := Yaml.Overwrite(target0, doc.target);
      envType == Yaml.Overwrite(envType0, doc.envType) &&
      variables == Yaml.Overwrite(variables0, doc.variables) &&
      if envType == Environment.DirectoryType then
        match Common.ExpandPath(home, cwd, t)
        case Success(e) => target == e && err == None
        case Failure(e) => target == t && err == Some(e)
      else target == t && err == None
  {
    envType := Yaml.Overwrite(envType0, doc.envType);
    target := Yaml.Overwrite(target0, doc.target);
    variables := Yaml.Overwrite(variables0, doc.variables);
    err := None;
    if envType == Environment.DirectoryType {
      var expanded := Common.ExpandPath(home, cwd, target);
      if expanded.Failure? {
        err := Some(expanded.error);
      } else {
        target := expanded.value;
      }
    }
  }

  /** Reads and decodes the definition of an application. */
  method ReadDocument(fs: FS.FileSystem, codec: Yaml.Codec, definition: string) returns (doc: Result<Yaml.AppDocument>)
    ensures doc == DocumentOf(fs.entries, codec, definition)
  {
    var data := fs.ReadFile(definition);
    if data.Failure? {
      return Failure(data.error);
    }
    doc := Yaml.AppOf(codec, data.value, definition);
  }

  /** The definition document of an application, or the failure to read or decode it. */
  function DocumentOf(entries: FS.Entries, codec: Yaml.Codec, definition: string): Result<Yaml.AppDocument>
  {
    match FS.ReadFileOf(entries, definition)
    case Failure(e) => Failure(e)
    case Success(data) => Yaml.AppOf(codec, data, definition)
  }
}
