/** env.go: an environment of an application, the file that stores its variable values,
    and the export statements made from it. */
module Environment {
  import opened Wrappers
  import Strs
  import Sorting
  import Paths
  import FS = FileSystem
  import Yaml
  import Exports

  /** The application types the code distinguishes. */
  const EnvironmentType := "environment"
  const DirectoryType := "directory"

  /** arrayToEmptyMap, which is not part of this model, as its test expects it: every
      name mapped to the empty value. */
  function EmptyValues(names: seq<string>): map<string, string>
  {
    map k | k in names :: ""
  }

  /** Env.load: the variable values stored in the file at `p`. */
  function LoadOf(entries: FS.Entries, codec: Yaml.Codec, p: string): Result<map<string, string>>
  {
    match FS.ReadFileOf(entries, p)
    case Failure(e) => Failure(e)
    case Success(data) => Yaml.VarsOf(codec, data, p)
  }

  /** The variables NewEnv gives an environment-type env: those stored in its file when the
      file exists, otherwise every requested name with the empty value. */
  function StartingVariables(entries: FS.Entries, codec: Yaml.Codec, p: string, vars: seq<string>)
    : (map<string, string>, Option<Error>)
  {
    if FS.StatOf(entries, p).Success? then
      match LoadOf(entries, codec, p)
      case Success(m) => (m, None)
      case Failure(e) => (map[], Some(e))
    else (EmptyValues(vars), None)
  }

  /** Without a file, every requested name is present with the empty value, and nothing
      else is. */
  lemma StartingVariablesWithoutFile(entries: FS.Entries, codec: Yaml.Codec, p: string, vars: seq<string>)
    requires FS.StatOf(entries, p).Failure?
    ensures StartingVariables(entries, codec, p, vars).1 == None
    ensures forall k :: k in StartingVariables(entries, codec, p, vars).0 <==> k in vars
    ensures forall k :: k in StartingVariables(entries, codec, p, vars).0 ==>
      StartingVariables(entries, codec, p, vars).0[k] == ""
  {
  }

  /** What Save writes is what a later load reads, for a codec that reads back what it
      writes. */
  lemma SaveThenLoad(entries: FS.Entries, codec: Yaml.Codec, p: string, vars: map<string, string>)
    requires codec.decodeVars(codec.encodeVars(vars)) == Some(vars)
    requires FS.WriteFileStep(entries, p, codec.encodeVars(vars)).err.None?
    ensures LoadOf(FS.WriteFileStep(entries, p, codec.encodeVars(vars)).entries, codec, p) == Success(vars)
  {
    FS.WriteThenRead(entries, p, codec.encodeVars(vars));
  }

  /** The statements MakeExportStatements joins: the export lines of the map, sorted. */
  ghost function SortedStatements(m: map<string, string>): seq<string>
  {
    Sorting.SortedOf(Exports.ExportLines(m))
  }

  /** When no name or value holds a newline, the joined statements split back into the
      sorted lines, one per entry, so the text does not depend on the order the map was
      ranged in. */
  lemma StatementsSplit(m: map<string, string>)
    requires m != map[]
    requires forall k :: k in m ==> '\n' !in k && '\n' !in m[k]
    ensures var lines := SortedStatements(m);
      Strs.Split(Strs.Join(lines, "\n"), "\n") == lines &&
      Sorting.Sorted(lines) && |lines| == |m| &&
      forall x :: x in lines <==> exists k :: k in m && x == Exports.ExportLine(k, m[k])
  {
    var lines := SortedStatements(m);
    Exports.ExportLinesSize(m);
    assert |lines| == |multiset(lines)| == |m|;
    forall x ensures x in lines <==> exists k :: k in m && x == Exports.ExportLine(k, m[k]) {
      assert x in lines <==> x in multiset(lines);
      Exports.ExportLinesMembers(m, x);
    }
    forall i | 0 <= i < |lines| ensures '\n' !in lines[i] {
      assert lines[i] in lines;
      var k :| k in m && lines[i] == Exports.ExportLine(k, m[k]);
      LineWithoutNewline(k, m[k]);
    }
    Strs.SplitJoin(lines, '\n');
  }

  lemma LineWithoutNewline(k: string, v: string)
    requires '\n' !in k && '\n' !in v
    ensures '\n' !in Exports.ExportLine(k, v)
  {
    var line := Exports.ExportLine(k, v);
    assert line == "export " + k + "=" + v;
    forall j | 0 <= j < |line| ensures line[j] != '\n' {
      if j >= 7 + |k| + 1 {
        assert line[j] == v[j - 8 - |k|];
      } else if j >= 7 && j < 7 + |k| {
        assert line[j] == k[j - 7];
      }
    }
  }

  /** The stored values of the `acme` environment in the repository's test data, and the
      export map the test joins against them. */
  const AcmeStored := map["username" := "mcmuffin", "password" := "holdthestuffin", "region" := "nowhere"]
  const AcmeExports := map["USERNAME" := "username", "PASSWORD" := "password", "REGION" := "region",
                           "PROFILE" := "profile"]

  /** Three entries whose names start with increasing characters give their statements
      in name order. */
  lemma StatementsOfThree(k1: string, v1: string, k2: string, v2: string, k3: string, v3: string)
    requires |k1| > 0 && |k2| > 0 && |k3| > 0 && k1[0] < k2[0] < k3[0]
    ensures Strs.Join(SortedStatements(map[k1 := v1, k2 := v2, k3 := v3]), "\n") ==
      Exports.ExportLine(k1, v1) + "\n" + Exports.ExportLine(k2, v2) + "\n" + Exports.ExportLine(k3, v3)
  {
    var m := map[k1 := v1, k2 := v2, k3 := v3];
    var a, b, c := Exports.ExportLine(k1, v1), Exports.ExportLine(k2, v2), Exports.ExportLine(k3, v3);
    LinesOfThree(k1, v1, k2, v2, k3, v3);
    SortedThree(k1, v1, k2, v2, k3, v3);
    Sorting.SortedUnique([a, b, c], SortedStatements(m));
    Strs.JoinThree(a, b, c, "\n");
  }

  lemma LinesOfThree(k1: string, v1: string, k2: string, v2: string, k3: string, v3: string)
    requires k1 != k2 && k2 != k3 && k1 != k3
    ensures Exports.ExportLines(map[k1 := v1, k2 := v2, k3 := v3]) ==
      multiset{Exports.ExportLine(k1, v1), Exports.ExportLine(k2, v2), Exports.ExportLine(k3, v3)}
  {
    LinesOfTwo(k1, v1, k2, v2);
    Exports.ExportLinesPut(map[k1 := v1, k2 := v2], k3, v3);
  }

  lemma LinesOfTwo(k1: string, v1: string, k2: string, v2: string)
    requires k1 != k2
    ensures Exports.ExportLines(map[k1 := v1, k2 := v2]) ==
      multiset{Exports.ExportLine(k1, v1), Exports.ExportLine(k2, v2)}
  {
    var m0: map<string, string> := map[];
    Exports.ExportLinesPut(m0, k1, v1);
    Exports.ExportLinesPut(m0[k1 := v1], k2, v2);
  }

  lemma SortedThree(k1: string, v1: string, k2: string, v2: string, k3: string, v3: string)
    requires |k1| > 0 && |k2| > 0 && |k3| > 0 && k1[0] < k2[0] < k3[0]
    ensures Sorting.Sorted([Exports.ExportLine(k1, v1), Exports.ExportLine(k2, v2), Exports.ExportLine(k3, v3)])
  {
    var a, b, c := Exports.ExportLine(k1, v1), Exports.ExportLine(k2, v2), Exports.ExportLine(k3, v3);
    var x, y, z := k1 + "=" + v1, k2 + "=" + v2, k3 + "=" + v3;
    assert x[0] == k1[0] && y[0] == k2[0] && z[0] == k3[0];
    assert Sorting.LessEq(x, y) && Sorting.LessEq(y, z);
    assert a == "export " + x && b == "export " + y && c == "export " + z;
    Sorting.LessEqPrefix("export ", x, y);
    Sorting.LessEqPrefix("export ", y, z);
    Sorting.LessEqTransitive(a, b, c);
  }

  /** Joining drops PROFILE, whose alias has no stored value, and the statements come out
      sorted by name. */
  lemma AcmeStatements()
    ensures Exports.Materialize(AcmeExports, AcmeStored) ==
      map["PASSWORD" := "holdthestuffin", "REGION" := "nowhere", "USERNAME" := "mcmuffin"]
    ensures Strs.Join(SortedStatements(Exports.Materialize(AcmeExports, AcmeStored)), "\n") ==
      Exports.ExportLine("PASSWORD", "holdthestuffin") + "\n" + Exports.ExportLine("REGION", "nowhere") + "\n" +
      Exports.ExportLine("USERNAME", "mcmuffin")
  {
    var m := map["PASSWORD" := "holdthestuffin", "REGION" := "nowhere", "USERNAME" := "mcmuffin"];
    assert Exports.Materialize(AcmeExports, AcmeStored) == m;
    StatementsOfThree("PASSWORD", "holdthestuffin", "REGION", "nowhere", "USERNAME", "mcmuffin");
  }

  class Env {
    var Name: string
    var Path: string
    var Current: bool
    var EnvType: string
    /** The caller's export map itself, not a copy (null for a nil map). */
    var ExportVariables: Exports.StringMap?
    /** A nil map reads as the empty map. */
    var Variables: map<string, string>

    /** new(Env): every field at its zero value. */
    constructor Zero()
      ensures Name == "" && Path == "" && !Current && EnvType == ""
      ensures ExportVariables == null && Variables == map[]
    {
      Name, Path, Current, EnvType := "", "", false, "";
      ExportVariables, Variables := null, map[];
    }

    /** The export map's contents; ranging over a nil map sees nothing. */
    function Exported(): map<string, string>
      reads this, ExportVariables
    {
      if ExportVariables == null then map[] else ExportVariables.contents
    }

    /** Save: only environment-type envs are written, as their encoded variables. */
    method Save(fs: FS.FileSystem, codec: Yaml.Codec) returns (err: Option<Error>)
      modifies fs
      ensures EnvType != EnvironmentType ==> err == None && fs.entries == old(fs.entries)
      ensures EnvType == EnvironmentType ==>
        FS.Step(fs.entries, err) == FS.WriteFileStep(old(fs.entries), Path, codec.encodeVars(Variables))
    {
      if EnvType != EnvironmentType {
        return None;
      }
      var data := codec.encodeVars(Variables);
      err := fs.WriteFile(Path, data);
    }

    /** PopulateExportVars: loads the stored values and joins the export map against them
        in place; when loading fails the map is left as it was. */
    method PopulateExportVars(fs: FS.FileSystem, codec: Yaml.Codec) returns (err: Option<Error>)
      modifies ExportVariables
      ensures LoadOf(fs.entries, codec, Path).Failure? ==>
        err == Some(LoadOf(fs.entries, codec, Path).error) && Exported() == old(Exported())
      ensures LoadOf(fs.entries, codec, Path).Success? ==>
        err == None && Exported() == Exports.Materialize(old(Exported()), LoadOf(fs.entries, codec, Path).value)
    {
      var data := fs.ReadFile(Path);
      if data.Failure? {
        return Some(data.error);
      }
      var stored := Yaml.VarsOf(codec, data.value, Path);
      if stored.Failure? {
        return Some(stored.error);
      }
      if ExportVariables != null {
        Exports.PopulateInPlace(ExportVariables, stored.value);
      }
      err := None;
    }

    /** MakeExportStatements: one `export K=V` line per entry, sorted as whole strings and
        joined by newlines, whatever order the map is ranged in. */
    method MakeExportStatements() returns (s: string)
      ensures s == Strs.Join(Sorting.SortedOf(Exports.ExportLines(Exported())), "\n")
    {
      var statements := Exports.Statements(Exported());
      Sorting.SortIsSortedOf(statements);
      s := Strs.Join(Sorting.Sort(statements), "\n");
    }
  }

  /** NewEnv: the env `name` under `basePath`; only an environment-type env takes the
      export map and variables. */
  method NewEnv(fs: FS.FileSystem, codec: Yaml.Codec, name: string, basePath: string,
                exportVars: Exports.StringMap?, vars: seq<string>, envType: string)
    returns (env: Env, err: Option<Error>)
    ensures fresh(env)
    ensures env.Name == name && env.EnvType == envType && !env.Current
    ensures env.Path == Paths.Join([basePath, name])
    ensures envType != EnvironmentType ==>
      env.ExportVariables == null && env.Variables == map[] && err == None
    ensures envType == EnvironmentType ==>
      env.ExportVariables == exportVars &&
      (env.Variables, err) == StartingVariables(fs.entries, codec, env.Path, vars)
  {
    env := new Env.Zero();
    env.Name := name;
    env.EnvType := envType;
    env.Path := Paths.Join([basePath, name]);
    err := None;
    if envType == EnvironmentType {
      env.ExportVariables := exportVars;
      var info := fs.Stat(env.Path);
      if info.Success? {
        var data := fs.ReadFile(env.Path);
        if data.Failure? {
          env.Variables := map[];
          return env, Some(data.error);
        }
        var loaded := Yaml.VarsOf(codec, data.value, env.Path);
        if loaded.Failure? {
          env.Variables := map[];
          return env, Some(loaded.error);
        }
        env.Variables := loaded.value;
      } else {
        env.Variables := EmptyValues(vars);
      }
    }
  }

  /** NewEnvironmentEnv. */
  method NewEnvironmentEnv(fs: FS.FileSystem, codec: Yaml.Codec, name: string, basePath: string,
                           exportVars: Exports.StringMap?, vars: seq<string>)
    returns (env: Env, err: Option<Error>)
    ensures fresh(env)
    ensures env.Name == name && env.EnvType == EnvironmentType && env.Path == Paths.Join([basePath, name])
    ensures env.ExportVariables == exportVars
    ensures (env.Variables, err) == StartingVariables(fs.entries, codec, env.Path, vars)
  {
    env, err := NewEnv(fs, codec, name, basePath, exportVars, vars, EnvironmentType);
  }

  /** NewDirectoryEnv: a directory-type env has neither export map nor variables, and
      creating one cannot fail. */
  method NewDirectoryEnv(fs: FS.FileSystem, codec: Yaml.Codec, name: string, basePath: string)
    returns (env: Env, err: Option<Error>)
    ensures fresh(env)
    ensures env.Name == name && env.EnvType == DirectoryType && env.Path == Paths.Join([basePath, name])
    ensures env.ExportVariables == null && env.Variables == map[] && err == None
  {
    var none := new Exports.StringMap(map[]);
    env, err := NewEnv(fs, codec, name, basePath, none, [], DirectoryType);
  }
}
