/** sellsword.go: the configuration files under `~/.ssw/config`, the shell export
    statements made from the current environment of every application, and the name shown
    for an environment file. */
module Sellsword {
  import opened Wrappers
  import Strs
  import Paths
  import FS = FileSystem
  import Yaml
  import Exports
  import Environment
  import Application

  /** A configuration file as decoded: sswEnv. */
  datatype SswEnv = SswEnv(name: string, envType: string, path: string, variables: seq<string>)

  // ---------------------------------------------------------------------------
  // Export declarations and the exported text

  /** sswEnv.ParseExportVars: the export map of the declarations, each setting its name to
      its alias, a later declaration of a name replacing an earlier one.  A declaration
      without '=' panics when its second piece is indexed; no error is returned
      otherwise. */
  method ParseExportVars(e: SswEnv) returns (r: Result<map<string, string>>)
    ensures r.Success? <==> Exports.AllDeclare(e.variables)
    ensures r.Success? ==> r.value == Exports.ExportMap(e.variables)
    ensures r.Failure? ==> r.error == Panic("index out of range")
  {
    var exportVars := map[];
    var i := 0;
    while i < |e.variables|
      invariant 0 <= i <= |e.variables|
      invariant Exports.AllDeclare(e.variables[..i])
      invariant exportVars == Exports.ExportMap(e.variables[..i])
    {
      var keyValue := Strs.Split(e.variables[i], "=");
      if |keyValue| < 2 {
        assert !Exports.Declares(e.variables[i]);
        return Failure(Panic("index out of range"));
      }
      assert e.variables[..i + 1][..i] == e.variables[..i];
      exportVars := exportVars[keyValue[1] := keyValue[0]];
      i := i + 1;
    }
    assert e.variables[..i] == e.variables;
    r := Success(exportVars);
  }

  /** What convertToBash prints for the export lines `lines`: an empty first element, then
      the lines, joined by newlines, and the newline that ends the print. */
  function BashText(lines: seq<string>): string
  {
    Strs.Join([""] + lines, "\n") + "\n"
  }

  /** When no line holds a newline, the printed text splits back into the empty first
      line, the lines in order, and the empty remainder after the final newline. */
  lemma BashTextSplit(lines: seq<string>)
    requires forall k :: 0 <= k < |lines| ==> '\n' !in lines[k]
    ensures Strs.Split(BashText(lines), "\n") == [""] + lines + [""]
  {
    var parts := [""] + lines + [""];
    Strs.JoinSnoc([""] + lines, "", "\n");
    assert Strs.Join(parts, "\n") == BashText(lines);
    forall k | 0 <= k < |parts| ensures '\n' !in parts[k] {
      if 0 < k < |parts| - 1 {
        assert parts[k] == lines[k - 1];
      }
    }
    Strs.SplitJoin(parts, '\n');
  }

  /** convertToBash: one `export NAME=value` line per entry, in whatever order the map is
      ranged, after the empty first element. */
  method ConvertToBash(exportVars: map<string, string>) returns (out: string, ghost lines: seq<string>)
    ensures multiset(lines) == Exports.ExportLines(exportVars)
    ensures out == BashText(lines)
  {
    var exports := [""];
    var statements := Exports.Statements(exportVars);
    lines := statements;
    out := Strs.Join(exports + statements, "\n") + "\n";
  }

  // ---------------------------------------------------------------------------
  // Configuration files

  /** The directory holding the configuration files. */
  function ConfigDir(userHome: string): string
  {
    Paths.Join([userHome, "/.ssw/config"])
  }

  /** The entries of `listing` whose names end in `.ssw`, in listing order, as paths under
      `dir`. */
  function ConfigFiles(dir: string, listing: seq<string>): seq<string>
  {
    if listing == [] then []
    else
      var last := listing[|listing| - 1];
      ConfigFiles(dir, listing[..|listing| - 1]) +
      if Strs.HasSuffix(last, ".ssw") then [Paths.Join([dir, last])] else []
  }

  /** A path is a configuration file exactly when some listed name ending in `.ssw` names
      it. */
  lemma {:induction false} ConfigFilesListed(dir: string, listing: seq<string>, f: string)
    ensures f in ConfigFiles(dir, listing) <==>
      exists n :: n in listing && Strs.HasSuffix(n, ".ssw") && f == Paths.Join([dir, n])
  {
    if listing != [] {
      var prefix := listing[..|listing| - 1];
      var last := listing[|listing| - 1];
      assert listing == prefix + [last];
      ConfigFilesListed(dir, prefix, f);
      if n :| n in listing && Strs.HasSuffix(n, ".ssw") && f == Paths.Join([dir, n]) {
        if n != last {
          assert n in prefix;
        }
      }
    }
  }

  /** The loop that keeps the `.ssw` entries of a listing. */
  method FilterConfigFiles(dir: string, listing: seq<string>) returns (files: seq<string>)
    ensures files == ConfigFiles(dir, listing)
  {
    files := [];
    var i := 0;
    while i < |listing|
      invariant 0 <= i <= |listing|
      invariant files == ConfigFiles(dir, listing[..i])
    {
      assert listing[..i + 1][..i] == listing[..i];
      if Strs.HasSuffix(listing[i], ".ssw") {
        files := files + [Paths.Join([dir, listing[i]])];
      }
      i := i + 1;
    }
    assert listing[..i] == listing;
  }

  /** The configuration files of `dir`; none when the directory cannot be read. */
  method ListConfigFiles(fs: FS.FileSystem, dir: string) returns (files: seq<string>)
    ensures files == ConfigFiles(dir, Application.Listing(fs.entries, dir))
  {
    var dirInfo := fs.ReadDir(dir);
    var listing := if dirInfo.Success? then dirInfo.value else [];
    assert listing == Application.Listing(fs.entries, dir);
    files := FilterConfigFiles(dir, listing);
  }

  /** The document a configuration file holds: no keys when it cannot be read (the nil data
      decodes to nothing) or does not decode. */
  function ConfigDocument(entries: FS.Entries, codec: Yaml.Codec, file: string): Yaml.EnvDocument
  {
    match FS.ReadFileOf(entries, file)
    case Failure(_) => Yaml.NoKeys
    case Success(data) =>
      match codec.decodeEnv(data)
      case Some(doc) => doc
      case None => Yaml.NoKeys
  }

  /** The env made from a configuration file: named after the file without its `.ssw`, each
      field then overwritten by the key of the same name when the document has it. */
  function ConfigEnv(entries: FS.Entries, codec: Yaml.Codec, file: string): SswEnv
  {
    var doc := ConfigDocument(entries, codec, file);
    SswEnv(
      Yaml.Overwrite(Strs.TrimSuffix(Paths.Base(file), ".ssw"), doc.name),
      Yaml.Overwrite("", doc.envType),
      Yaml.Overwrite("", doc.path),
      Yaml.Overwrite([], doc.variables))
  }

  /** A configuration file that does not name itself is named after its file: the listed
      name without the `.ssw` it ends in. */
  lemma ConfigEnvName(entries: FS.Entries, codec: Yaml.Codec, dir: string, n: string)
    requires dir != "" && Paths.IsName(n) && Strs.HasSuffix(n, ".ssw")
    requires ConfigDocument(entries, codec, Paths.Join([dir, n])).name.None?
    ensures ConfigEnv(entries, codec, Paths.Join([dir, n])).name + ".ssw" == n
  {
    Paths.BaseOfJoin(dir, n);
  }

  /** One configuration file read and decoded. */
  method LoadConfig(fs: FS.FileSystem, codec: Yaml.Codec, file: string) returns (env: SswEnv)
    ensures env == ConfigEnv(fs.entries, codec, file)
  {
    var data := fs.ReadFile(file);
    var doc := Yaml.NoKeys;
    if data.Success? {
      var decoded := codec.decodeEnv(data.value);
      if decoded.Some? {
        doc := decoded.value;
      }
    }
    env := SswEnv(Strs.TrimSuffix(Paths.Base(file), ".ssw"), "", "", []);
    env := env.(name := Yaml.Overwrite(env.name, doc.name), envType := Yaml.Overwrite(env.envType, doc.envType));
    env := env.(path := Yaml.Overwrite(env.path, doc.path), variables := Yaml.Overwrite(env.variables, doc.variables));
  }

  /** The envs of the files, in order. */
  function ConfigEnvs(entries: FS.Entries, codec: Yaml.Codec, files: seq<string>): seq<SswEnv>
  {
    seq(|files|, i requires 0 <= i < |files| => ConfigEnv(entries, codec, files[i]))
  }

  /** Storing one more env. */
  lemma KeyedSnoc(envs: seq<SswEnv>, e: SswEnv)
    ensures Keyed(envs + [e]) == Keyed(envs)[e.name := e]
  {
    assert (envs + [e])[..|envs|] == envs;
  }

  /** The envs keyed by name, each stored in turn, so a later env replaces an earlier one
      of the same name. */
  function Keyed(envs: seq<SswEnv>): map<string, SswEnv>
  {
    if envs == [] then map[]
    else
      var last := envs[|envs| - 1];
      Keyed(envs[..|envs| - 1])[last.name := last]
  }

  /** A name is a key exactly when some env has it. */
  lemma {:induction false} KeyedKeys(envs: seq<SswEnv>, k: string)
    ensures k in Keyed(envs) <==> exists i :: 0 <= i < |envs| && envs[i].name == k
  {
    if envs != [] {
      var n := |envs| - 1;
      var prefix := envs[..n];
      KeyedKeys(prefix, k);
      if i :| 0 <= i < |envs| && envs[i].name == k {
        if i < n {
          assert prefix[i] == envs[i];
        }
      }
      if i :| 0 <= i < |prefix| && prefix[i].name == k {
        assert prefix[i] == envs[i];
      }
    }
  }

  /** A name maps to the last env that has it. */
  lemma {:induction false} KeyedLastWins(envs: seq<SswEnv>, i: int)
    requires 0 <= i < |envs|
    requires forall j :: i < j < |envs| ==> envs[j].name != envs[i].name
    ensures envs[i].name in Keyed(envs) && Keyed(envs)[envs[i].name] == envs[i]
  {
    var n := |envs| - 1;
    if i < n {
      var prefix := envs[..n];
      assert prefix[i] == envs[i];
      KeyedLastWins(prefix, i);
    }
  }

  /** findEnvs: the env of every configuration file under `~/.ssw/config`, keyed by its
      name. */
  method FindEnvs(fs: FS.FileSystem, codec: Yaml.Codec, userHome: string) returns (envs: map<string, SswEnv>)
    ensures var dir := ConfigDir(userHome);
      envs == Keyed(ConfigEnvs(fs.entries, codec, ConfigFiles(dir, Application.Listing(fs.entries, dir))))
  {
    var homedir := ConfigDir(userHome);
    var envFiles := ListConfigFiles(fs, homedir);
    envs := KeyedConfigs(fs, codec, envFiles);
  }

  /** The loop of findEnvs over the configuration files. */
  method KeyedConfigs(fs: FS.FileSystem, codec: Yaml.Codec, envFiles: seq<string>) returns (envs: map<string, SswEnv>)
    ensures envs == Keyed(ConfigEnvs(fs.entries, codec, envFiles))
  {
    envs := map[];
    var i := 0;
    while i < |envFiles|
      invariant 0 <= i <= |envFiles|
      invariant envs == Keyed(ConfigEnvs(fs.entries, codec, envFiles[..i]))
    {
      var env := LoadConfig(fs, codec, envFiles[i]);
      KeyedNext(fs.entries, codec, envFiles, i, env);
      envs := envs[env.name := env];
      i := i + 1;
    }
    assert envFiles[..i] == envFiles;
  }

  /** Keying the env of one more file. */
  lemma KeyedNext(entries: FS.Entries, codec: Yaml.Codec, files: seq<string>, i: nat, e: SswEnv)
    requires i < |files| && e == ConfigEnv(entries, codec, files[i])
    ensures Keyed(ConfigEnvs(entries, codec, files[..i + 1])) == Keyed(ConfigEnvs(entries, codec, files[..i]))[e.name := e]
  {
    assert files[..i + 1] == files[..i] + [files[i]];
    ConfigEnvsSnoc(entries, codec, files[..i], files[i], e, files[..i + 1]);
  }

  /** One more file, one more env, keyed last. */
  lemma ConfigEnvsSnoc(entries: FS.Entries, codec: Yaml.Codec, files: seq<string>, f: string, e: SswEnv,
                       longer: seq<string>)
    requires e == ConfigEnv(entries, codec, f) && longer == files + [f]
    ensures Keyed(ConfigEnvs(entries, codec, longer)) == Keyed(ConfigEnvs(entries, codec, files))[e.name := e]
  {
    assert ConfigEnvs(entries, codec, longer) == ConfigEnvs(entries, codec, files) + [e];
    KeyedSnoc(ConfigEnvs(entries, codec, files), e);
  }

  // ---------------------------------------------------------------------------
  // Loading the current environments

  /** The file holding the values of the current environment of application `name`. */
  function CurrentEnvFile(userHome: string, name: string): string
  {
    Paths.Join([userHome, "/.ssw", name, "current-env.ssw"])
  }

  /** What one configuration adds to the exports: nothing unless it is of the environment
      type and its current environment file can be read; then its export map joined
      against the file's values, of which there are none when they do not decode.  A
      declaration without '=' panics. */
  function Contribution(entries: FS.Entries, codec: Yaml.Codec, userHome: string, e: SswEnv)
    : Result<Option<map<string, string>>>
  {
    if e.envType != Environment.EnvironmentType then Success(None)
    else if !Exports.AllDeclare(e.variables) then Failure(Panic("index out of range"))
    else
      match FS.ReadFileOf(entries, CurrentEnvFile(userHome, e.name))
      case Failure(_) => Success(None)
      case Success(data) =>
        var stored := match codec.decodeVars(data) case Some(m) => m case None => map[];
        Success(Some(Exports.Materialize(Exports.ExportMap(e.variables), stored)))
  }

  /** Only an environment-type configuration contributes a map. */
  lemma ContributionNeedsEnvironment(entries: FS.Entries, codec: Yaml.Codec, userHome: string, e: SswEnv)
    ensures Contribution(entries, codec, userHome, e).Success? &&
            Contribution(entries, codec, userHome, e).value.Some? ==>
              e.envType == Environment.EnvironmentType
  {
  }

  /** The maps `contribute` yields for the configurations, in order, or the first panic. */
  function Gather(envs: seq<SswEnv>, contribute: SswEnv -> Result<Option<map<string, string>>>)
    : Result<seq<map<string, string>>>
  {
    if envs == [] then Success([])
    else
      match Gather(envs[..|envs| - 1], contribute)
      case Failure(e) => Failure(e)
      case Success(ms) =>
        match contribute(envs[|envs| - 1])
        case Failure(e) => Failure(e)
        case Success(None) => Success(ms)
        case Success(Some(m)) => Success(ms + [m])
  }

  /** Gathering fails exactly when some configuration fails, and otherwise yields precisely
      the contributed maps: each contributed map is present, and each present map was
      contributed. */
  lemma {:induction false} GatherOf(envs: seq<SswEnv>, contribute: SswEnv -> Result<Option<map<string, string>>>)
    ensures Gather(envs, contribute).Failure? <==>
      exists i :: 0 <= i < |envs| && contribute(envs[i]).Failure?
    ensures Gather(envs, contribute).Success? ==>
      (forall i :: 0 <= i < |envs| && contribute(envs[i]).value.Some? ==>
        contribute(envs[i]).value.value in Gather(envs, contribute).value) &&
      (forall m :: m in Gather(envs, contribute).value ==>
        exists i :: 0 <= i < |envs| && contribute(envs[i]) == Success(Some(m)))
  {
    if envs != [] {
      var n := |envs| - 1;
      var prefix := envs[..n];
      assert forall i :: 0 <= i < n ==> prefix[i] == envs[i];
      GatherOf(prefix, contribute);
      var whole := Gather(envs, contribute);
      if whole.Success? {
        var ms := Gather(prefix, contribute).value;
        forall m | m in whole.value
          ensures exists i :: 0 <= i < |envs| && contribute(envs[i]) == Success(Some(m))
        {
          if m in ms {
            var i :| 0 <= i < n && contribute(prefix[i]) == Success(Some(m));
            assert envs[i] == prefix[i];
          } else {
            assert contribute(envs[n]) == Success(Some(m));
          }
        }
      }
    }
  }

  /** A failure in a prefix of the configurations is the failure of them all. */
  lemma {:induction false} GatherStops(envs: seq<SswEnv>, contribute: SswEnv -> Result<Option<map<string, string>>>, k: nat)
    requires k <= |envs| && Gather(envs[..k], contribute).Failure?
    ensures Gather(envs, contribute) == Gather(envs[..k], contribute)
    decreases |envs| - k
  {
    if k < |envs| {
      var prefix := envs[..|envs| - 1];
      assert prefix[..k] == envs[..k];
      GatherStops(prefix, contribute, k);
    } else {
      assert envs[..k] == envs;
    }
  }

  /** Gathering one more configuration. */
  lemma GatherSnoc(envs: seq<SswEnv>, contribute: SswEnv -> Result<Option<map<string, string>>>, i: nat)
    requires i < |envs|
    ensures Gather(envs[..i + 1], contribute) ==
      match Gather(envs[..i], contribute)
      case Failure(e) => Failure(e)
      case Success(ms) =>
        match contribute(envs[i])
        case Failure(e) => Failure(e)
        case Success(None) => Success(ms)
        case Success(Some(m)) => Success(ms + [m])
  {
    assert envs[..i + 1][..i] == envs[..i];
  }

  /** Gathering past one more configuration, from a prefix that did not fail: a failure
      there is the failure of them all. */
  lemma GatherNext(envs: seq<SswEnv>, contribute: SswEnv -> Result<Option<map<string, string>>>, i: nat,
                   ms: seq<map<string, string>>)
    requires i < |envs| && Gather(envs[..i], contribute) == Success(ms)
    ensures contribute(envs[i]).Failure? ==> Gather(envs, contribute) == Failure(contribute(envs[i]).error)
    ensures contribute(envs[i]) == Success(None) ==> Gather(envs[..i + 1], contribute) == Success(ms)
    ensures contribute(envs[i]).Success? && contribute(envs[i]).value.Some? ==>
      Gather(envs[..i + 1], contribute) == Success(ms + [contribute(envs[i]).value.value])
  {
    GatherSnoc(envs, contribute, i);
    if contribute(envs[i]).Failure? {
      GatherStops(envs, contribute, i + 1);
    }
  }

  /** The part of loadEnvs's loop that handles one configuration. */
  method Contribute(fs: FS.FileSystem, codec: Yaml.Codec, userHome: string, env: SswEnv)
    returns (r: Result<Option<map<string, string>>>)
    ensures r == Contribution(fs.entries, codec, userHome, env)
  {
    if env.envType != Environment.EnvironmentType {
      return Success(None);
    }
    var exportVars := ParseExportVars(env);
    if exportVars.Failure? {
      return Failure(exportVars.error);
    }
    var envFile := CurrentEnvFile(userHome, env.name);
    var envData := fs.ReadFile(envFile);
    if envData.Failure? {
      return Success(None);
    }
    var currentVars := map[];
    var decoded := codec.decodeVars(envData.value);
    if decoded.Some? {
      currentVars := decoded.value;
    }
    var populated := new Exports.StringMap(exportVars.value);
    Exports.PopulateInPlace(populated, currentVars);
    r := Success(Some(populated.contents));
  }

  /** Contribution, for the configurations read from `entries`. */
  function Contributor(entries: FS.Entries, codec: Yaml.Codec, userHome: string)
    : SswEnv -> Result<Option<map<string, string>>>
  {
    e => Contribution(entries, codec, userHome, e)
  }

  /** loadEnvs: the configurations' contributions merged into one map, the first map to
      export a name winning, printed by convertToBash; a panic prints nothing. */
  method LoadEnvs(fs: FS.FileSystem, codec: Yaml.Codec, userHome: string)
    returns (r: Result<string>, ghost lines: seq<string>)
    ensures var dir := ConfigDir(userHome);
      var envs := ConfigEnvs(fs.entries, codec, ConfigFiles(dir, Application.Listing(fs.entries, dir)));
      match Gather(envs, Contributor(fs.entries, codec, userHome))
      case Failure(e) => r == Failure(e)
      case Success(ms) =>
        r.Success? && multiset(lines) == Exports.ExportLines(Exports.MergeAll(ms)) && r.value == BashText(lines)
  {
    var homedir := ConfigDir(userHome);
    var envFiles := ListConfigFiles(fs, homedir);
    var allExportedVars := MergedExports(fs, codec, userHome, envFiles);
    if allExportedVars.Failure? {
      return Failure(allExportedVars.error), [];
    }
    var out;
    out, lines := ConvertToBash(allExportedVars.value);
    r := Success(out);
  }

  /** The loop of loadEnvs over the configuration files. */
  method MergedExports(fs: FS.FileSystem, codec: Yaml.Codec, userHome: string, envFiles: seq<string>)
    returns (r: Result<map<string, string>>)
    ensures match Gather(ConfigEnvs(fs.entries, codec, envFiles), Contributor(fs.entries, codec, userHome))
      case Failure(e) => r == Failure(e)
      case Success(ms) => r == Success(Exports.MergeAll(ms))
  {
    var allExportedVars := new Exports.StringMap(map[]);
    ghost var envs := ConfigEnvs(fs.entries, codec, envFiles);
    ghost var contribute := Contributor(fs.entries, codec, userHome);
    ghost var ms := [];
    var i := 0;
    while i < |envFiles|
      invariant 0 <= i <= |envFiles|
      invariant Gather(envs[..i], contribute) == Success(ms)
      invariant allExportedVars.contents == Exports.MergeAll(ms)
    {
      var env := LoadConfig(fs, codec, envFiles[i]);
      var c := Contribute(fs, codec, userHome, env);
      assert contribute(envs[i]) == c;
      GatherNext(envs, contribute, i, ms);
      if c.Failure? {
        return Failure(c.error);
      }
      if c.value.Some? {
        Exports.MergeInPlace(allExportedVars, c.value.value);
        MergeAllSnoc(ms, c.value.value);
        ms := ms + [c.value.value];
      }
      i := i + 1;
    }
    assert envs[..i] == envs;
    r := Success(allExportedVars.contents);
  }

  lemma MergeAllSnoc(ms: seq<map<string, string>>, m: map<string, string>)
    ensures Exports.MergeAll(ms + [m]) == Exports.Merge(Exports.MergeAll(ms), m)
  {
    assert (ms + [m])[..|ms|] == ms;
  }

  // ---------------------------------------------------------------------------
  // Display names

  /** The environment name showCurrentEnvs displays for the path of a current environment:
      the base name cut at its first `.ssw`, then at its first `-env`. */
  function DisplayName(p: string): string
  {
    var currentEnv := Strs.Split(Paths.Base(p), ".ssw")[0];
    Strs.Split(currentEnv, "-env")[0]
  }

  /** The environment file `app-env.ssw` displays as `app`, for any `app` in which neither
      `.ssw` nor `-env` occurs. */
  lemma DisplayNameOfEnvFile(d: string, app: string)
    requires d != "" && '/' !in app
    requires forall j :: !Strs.OccursAt(app, ".ssw", j)
    requires forall j :: !Strs.OccursAt(app, "-env", j)
    ensures DisplayName(Paths.Join([d, app + "-env.ssw"])) == app
  {
    var file := app + "-env.ssw";
    assert '/' !in file by {
      assert forall j :: |app| <= j < |file| ==> file[j] != '/';
    }
    Paths.BaseOfJoin(d, file);
    assert file == (app + "-env") + ".ssw" + "";
    Strs.NoOccurrenceAppend(app, "-env", ".ssw");
    Strs.FirstPiece(app + "-env", ".ssw", "");
    assert app + "-env" == app + "-env" + "";
    Strs.FirstPiece(app, "-env", "");
  }

  /** The configuration file `app.ssw` displays as `app`, for any `app` in which neither
      `.ssw` nor `-env` occurs. */
  lemma DisplayNameOfConfigFile(d: string, app: string)
    requires d != "" && '/' !in app
    requires forall j :: !Strs.OccursAt(app, ".ssw", j)
    requires forall j :: !Strs.OccursAt(app, "-env", j)
    ensures DisplayName(Paths.Join([d, app + ".ssw"])) == app
  {
    var file := app + ".ssw";
    assert '/' !in file by {
      assert forall j :: |app| <= j < |file| ==> file[j] != '/';
    }
    Paths.BaseOfJoin(d, file);
    assert file == app + ".ssw" + "";
    Strs.FirstPiece(app, ".ssw", "");
    Strs.WholePiece(app, "-env");
  }

  /** A displayed name never holds `-env`. */
  lemma DisplayNameFree(p: string)
    ensures forall j :: !Strs.OccursAt(DisplayName(p), "-env", j)
  {
    Strs.SplitPiecesFree(Strs.Split(Paths.Base(p), ".ssw")[0], "-env");
  }
}
