# sellsword, modelled in Dafny

sellsword switches a user between named environments of an application. The
environments are credential sets, such as two AWS accounts, and configuration
directories, such as two `.chef` setups. Each application lives in a home directory:

- A definition file `config/<app>.ssw` gives the application's type (`environment` or
  `directory`), its export declarations `alias=EXPORT_NAME` and, for a directory-type
  application, a target path.
- The application directory holds one entry per environment.
- A symbolic link `current` points at the environment in use.
- A directory-type application has a second link, its target, pointing at the same
  environment.
- Switching replaces the links. For an environment-type application it also emits
  `unset`/`export` shell statements, built from the export declarations and the
  values stored in the new environment's file.

The model covers five parts of that program.

- **The export-variable pipeline.** Module `Exports` ties together, as Dafny maps:
  - the declarations, which become a map from export name to alias, with the later
    declaration winning;
  - the join of that map against the stored alias→value map, which drops a name whose
    alias has no value, both in place and as a function;
  - the first-wins merge across applications;
  - the `export K=V` lines, whose order is unspecified because Go ranges over a map in
    no fixed order, so they are a multiset.

  Modules `Environment` (env.go) and `Sellsword` (sellsword.go) use this pipeline.
- **The current-link protocol** of an App (app.go, module `Application`). It covers
  `Current`, `ListEnvs`, `DetermineEnvPath`, `Unlink`, `Link` and `MakeCurrent`. It runs
  over a filesystem class (`FileSystem`) whose one field maps a path to an entry: a
  file, a directory or a link. Its methods give the results and failure rules of Go's
  `os.Lstat`, `os.Stat` (at most 40 links followed), `os.Readlink`, `os.Symlink`,
  `os.Remove`, `ioutil.ReadFile`, `ioutil.WriteFile` and `ioutil.ReadDir` (names sorted),
  for paths looked up as written: only a link at the end of a path is followed. Each
  state-changing operation is also written as a function from entries to entries plus
  an error (`UnlinkStep`, `LinkStep`, `MakeCurrentStep`). The lemmas about the
  protocol are stated over those functions.
- **The application set** (appset.go, module `ApplicationSet`): which applications
  `findApps` appends, and the lines `listApps` prints.
- **The configuration scan and combined exports** (sellsword.go, module `Sellsword`):
  the `.ssw` filtering and naming of `findEnvs`, the per-application combination in
  `loadEnvs`, the text `convertToBash` prints, and the display name of a current
  environment file.
- **The helpers** `resolveSymlink`, `expandPath`, `contains` and `appendIfMissing`
  (common.go and app.go, module `Common`). The Go library calls they rest on are
  written out:
  - `path.Clean`, `path.Join`, `path.Base`, `path.Dir` and `filepath.Abs` (module
    `Paths`): Clean renders the segment sequence its lexical rules reduce a path to;
  - `strings.Index`, `strings.Split`, `strings.Join`, `strings.HasSuffix` and
    `strings.TrimSuffix` (module `Strs`);
  - `sort.Strings`, as an order on characters and a sort (module `Sorting`). For valid
    UTF-8 this is Go's byte-wise order.

The home directory and the working directory are parameters. YAML decoding and
encoding is an abstract codec of function values (module `Yaml`). A decoder either
yields a document or fails, and a key present in a document overwrites the field of
the same name. `Env.Parse`, which names an environment from its path, is a function
parameter `nameOf`. A Go panic reachable from file contents is the error `Panic`.
Examples are an `alias=NAME` declaration without `=`, or `expandPath("")` on an empty
directory target.

Where the code departs from the behaviour documented for the program, the model follows
the code:

- `expandPath` of the empty string panics (it indexes `pathName[0]`) rather than
  reporting an invalid path.
- A path starting with `~` keeps only the text up to a second `~`.
- A declaration is split at every `=`: the alias is the first piece and the name the
  second, so `a=B=c` declares `B`.
- `App.Parse` does not compute the export map. `ParseExportVars` does, when
  `MakeCurrent` calls it.
- `MakeExportStatements` sorts the whole `export K=V` strings, not the names.
  `UnsetExportVars` in app.go and `convertToBash` print in map order, which the model
  states as a multiset.
- Directory listings come out sorted by name, as `ioutil.ReadDir` returns them.

## Model

| member | source | states |
|---|---|---|
| Common.ResolveSymlink | common.go:31-47 | succeeds exactly when the path is a link, with its literal target; otherwise fails with not-exist for a missing path and not-a-symlink for another entry |
| Common.ExpandPath | common.go:50-58 | fails, with a panic, exactly on the empty path |
| Common.ExpandHomeTruncates | common.go:51-54 | `~a~b` expands to home joined with `a`; the text after the second `~` is lost |
| Common.ExpandHome | common.go:51-54 | `~a` expands to home joined with `a` |
| Common.ExpandHomeSlash | common.go:51-54 | `~/t` expands to home joined with `t` |
| Common.ExpandParent | common.go:55-57 | `../n` expands to the working directory's parent joined with `n` |
| Common.Contains | common.go:60-67 | true exactly when the string occurs in the slice |
| Common.AppendIfMissing | common.go:69-75 | the result holds the string, starts with the original slice, and is one longer exactly when the string was missing |
| Exports.DeclaresIffEquals | app.go:85-86 | a declaration has a second piece exactly when it contains `=` |
| Exports.DeclarationParts | app.go:85-86 | `alias=name` yields that alias and that name |
| Exports.ExportMapSnoc | app.go:84-87 | one more declaration sets its name to its alias in the map of the earlier ones |
| Exports.ExportMapKeys | app.go:82-89 | the map's keys are exactly the declared export names |
| Exports.ExportMapLastWins | app.go:84-87 | a name maps to the alias of its last declaration |
| Exports.ExportMapManyToOne | app_test.go:45-60 | two names declared with one alias both map to that alias |
| Exports.PipelineValue | env.go:86-92 | a declared name survives the join exactly when its alias has a stored value, and then takes that value |
| Exports.PopulateInPlace | sellsword.go:54-62 | the map keeps exactly the keys whose alias is stored, each now holding the stored value |
| Exports.Merge | sellsword.go:44-52 | the keys are those of both maps; a key of `dest` keeps its value; any other takes the value from `src` |
| Exports.MergeInPlace | sellsword.go:44-52 | the destination becomes the merge of its old contents with the source |
| Exports.MergeAllFirstWins | sellsword.go:178 | a merged key occurs in some map, and its value comes from the first map holding it |
| Exports.ExportLinesRemove | env.go:101-103 | the lines of a map are those without one key plus that key's line |
| Exports.ExportLinesPut | env.go:101-103 | adding a new key adds exactly its line |
| Exports.ExportLinesSize | env.go:101-103 | one line per entry |
| Exports.ExportLinesMembers | env.go:101-103 | a line is present exactly when it is some entry's `export K=V` |
| Exports.Statements | env.go:100-103 | the collected lines are, as a multiset, the lines of the map, one per entry |
| Exports.StringMap.constructor | env.go:31 | the shared map starts with the given contents |
| Environment.StartingVariablesWithoutFile | env.go:37-39 | without a stored file, the names requested are present with empty values and nothing else is |
| Environment.SaveThenLoad | env.go:54-80 | for a codec that reads back what it writes, what Save writes a later load reads |
| Environment.StatementsSplit | env.go:99-107 | the joined statements split back into sorted lines, one per entry, each an entry's `export K=V` |
| Environment.StatementsOfThree | env.go:99-107 | three entries with names of distinct first letters come out in that order, joined by newlines |
| Environment.AcmeStatements | env_test.go:97-116 | the test's stored values and export map give the `PASSWORD`, `REGION`, `USERNAME` lines in that order; the profile name, with no stored value, is dropped |
| Environment.Env.Zero | env.go:15-22 | new(Env): zero fields |
| Environment.Env.Save | env.go:64-80 | a non-environment env writes nothing and succeeds; otherwise the encoded variables are written to its path |
| Environment.Env.PopulateExportVars | env.go:82-96 | a failed load returns its error and leaves the map alone; otherwise the shared map becomes its join with the stored values |
| Environment.Env.MakeExportStatements | env.go:99-107 | the sorted export lines of the map, joined by newlines |
| Environment.NewEnv | env.go:24-42 | name, type and path `basePath/name`; only an environment-type env takes the caller's map itself and its starting variables |
| Environment.NewEnvironmentEnv | env.go:45-47 | an environment-type env holding the given map and its starting variables |
| Environment.NewDirectoryEnv | env.go:50-52 | a directory-type env with no map and no variables |
| Application.DefinitionOfAppPath | app.go:58-59 | application `n` under home is named `n` and described by `home/config/n.ssw` |
| Application.DetermineEnvPath | app.go:135-141 | the result lies in the application directory and is named `name-env.ssw` for the environment type, `name` otherwise |
| Application.EnvNamesListed | app.go:105-118 | the environment names are the sorted listing without `current`, each once |
| Application.ListingDistinct | app.go:107 | a directory listing is sorted and holds no name twice |
| Application.UnlinkWithoutCurrent | app.go:193-195 | without a `current` link, Unlink changes nothing and succeeds |
| Application.UnlinkTargetFirst | app.go:197-202 | when removing the target fails, that error is returned and `current` remains |
| Application.UnlinkRemoves | app.go:191-205 | a successful Unlink removes `current`, and for the directory type also the target, and nothing else |
| Application.LinkCreates | app.go:207-221 | a successful Link adds `current`, and for the directory type the target, both pointing at `Path/envName`, and nothing else |
| Application.LinkFirstFails | app.go:210-213 | an existing `current` makes Link fail untouched, before the target is tried |
| Application.LinkSecondFails | app.go:214-218 | when the target exists, the new `current` link remains and the error is returned |
| Application.LinkThenUnlink | app.go:191-221 | on free link paths, Link succeeds and a following Unlink restores the original entries |
| Application.MakeCurrentMissing | app.go:148-150 | a missing environment path returns not-exist and changes no entry |
| Application.MakeCurrentAlreadyCurrent | app.go:151-154 | switching to the current environment succeeds and changes nothing |
| Application.MakeCurrentUnlinkFails | app.go:166-170 | when Unlink fails the switch stops there: Link is not attempted and Unlink's state and error are the result |
| Application.MakeCurrentSwitches | app.go:166-170 | after a successful switch, `current`, and for the directory type the target, point at the new environment |
| Application.MakeCurrentKeepsLinksTogether | app.go:143-172 | when `current` and the target agree before a switch and the target path is free or a link, they agree after it, whatever its outcome |
| Application.MakeCurrentStrayTarget | app.go:214-218 | a target path occupied by a non-link leaves a new `current` behind with an error, so the links disagree |
| Application.UnsetLineInjective | app.go:187 | distinct names give distinct `unset` lines |
| Application.App.Zero | app.go:45-54 | new(App): zero fields |
| Application.App.Parse | app.go:56-80 | Name is the base of Path, Definition is `config/Name.ssw` beside it; a read or decode failure is returned; a directory-type target is expanded, whose failure is returned |
| Application.App.ParseExportVars | app.go:82-89 | succeeds exactly when every declaration has `=`, then rebuilds the export map from the declarations; otherwise panics; other fields unchanged |
| Application.App.Current | app.go:91-103 | the env has the app's type, and the link's target and its name, or the error of resolving the link |
| Application.App.ListEnvs | app.go:105-118 | one env per listed name other than `current`, in listing order, at `Path/name`, named by Env.Parse |
| Application.App.EnumerateExportVars | app.go:174-182 | exactly the map's keys, each once |
| Application.App.UnsetExportVars | app.go:184-189 | one distinct `unset K` line per export name, and no other |
| Application.App.Unlink | app.go:191-205 | the filesystem and the error are those UnlinkStep gives |
| Application.App.Link | app.go:207-221 | the filesystem and the error are those LinkStep gives |
| Application.App.MakeCurrent | app.go:143-172 | the filesystem and the error are those MakeCurrentStep gives; an environment-type switch rebuilds the export map and emits an `unset` per name; the missing-environment and already-current returns, and every directory-type call, leave the export map unchanged |
| Application.ListedEnvs | app.go:108-116 | the loop of ListEnvs: one env per name other than `current`, in order |
| Application.Decoded | app.go:64-77 | keys present overwrite their fields; a directory-type target is expanded, and a failed expansion is returned with the target left unexpanded |
| ApplicationSet.FirstPanic | appset.go:27 | the number of names that parse before the first whose parse panics |
| ApplicationSet.SelectNames | appset.go:21-38 | with `all` first, the sorted home listing without `config`; otherwise the names given |
| ApplicationSet.ParsedApp | appset.go:25-27 | a new App at `home/name` with its name and definition, and a panic exactly when its Parse panics |
| ApplicationSet.IndentedCount | appset.go:62 | every name printed after a tab is printed once per occurrence |
| ApplicationSet.ReportSkipsCurrent | appset.go:59-64 | the plain list never holds the current name and holds every other name as often as it is listed |
| ApplicationSet.PlainLines | appset.go:60-64 | the names other than the current one, each after a tab, in order |
| ApplicationSet.AppReport | appset.go:52-64 | one application's lines: its name, its current environment or the lack of one, then the others |
| ApplicationSet.ListedNames | appset.go:59 | the names of the envs ListEnvs yields are Env.Parse of their paths |
| ApplicationSet.ReportLines | appset.go:52-64 | the lines for a given current name or error and env list |
| ApplicationSet.Reports | appset.go:48-65 | the concatenated reports of the applications, in order |
| ApplicationSet.ParsedApps | appset.go:32-37 | one found App per name, in order, up to the first parse panic, which is returned |
| ApplicationSet.AppSet.constructor | appset.go:11-14 | an empty set at the given home |
| ApplicationSet.AppSet.FindApps | appset.go:16-40 | a missing home changes nothing; no names panics; otherwise found Apps are appended after the existing ones, stopping at a panic |
| ApplicationSet.AppSet.AppendApps | appset.go:32-37 | the found Apps are appended to the existing ones, never replacing them |
| ApplicationSet.AppSet.ListApps | appset.go:42-66 | `all` when no name is given; then every application's report, in order |
| Sellsword.ParseExportVars | sellsword.go:35-42 | succeeds exactly when every declaration has `=`, with the export map; otherwise panics |
| Sellsword.BashTextSplit | sellsword.go:64-70 | the text splits into an empty first line, the export lines and an empty last line |
| Sellsword.ConvertToBash | sellsword.go:64-70 | the printed lines are, as a multiset, the export lines of the map |
| Sellsword.ConfigFilesListed | sellsword.go:117-122 | a configuration file is exactly a listed name ending in `.ssw`, joined to the directory |
| Sellsword.FilterConfigFiles | sellsword.go:117-122 | the loop keeps the listed `.ssw` names in order |
| Sellsword.ListConfigFiles | sellsword.go:112-122 | the configuration files of the directory listing |
| Sellsword.ConfigEnvName | sellsword.go:132 | a file that names no env is named after its file name without `.ssw` |
| Sellsword.LoadConfig | sellsword.go:127-135 | the env decoded from one file, with no keys when it cannot be read or decoded |
| Sellsword.KeyedKeys | sellsword.go:136 | the keyed envs are keyed by exactly the names of the files' envs |
| Sellsword.KeyedLastWins | sellsword.go:136 | a name maps to the last env of that name |
| Sellsword.FindEnvs | sellsword.go:109-139 | the envs of the configuration files, keyed by name |
| Sellsword.KeyedConfigs | sellsword.go:126-137 | the loop of findEnvs keys the envs of the files by name |
| Sellsword.ContributionNeedsEnvironment | sellsword.go:168 | only an environment-type configuration contributes exports |
| Sellsword.GatherOf | sellsword.go:158-184 | gathering fails exactly when one configuration panics; otherwise it holds exactly the contributed maps |
| Sellsword.MergedExports | sellsword.go:158-184 | the first-wins merge of the contributions in order, or the first panic |
| Sellsword.LoadEnvs | sellsword.go:141-186 | the printed text holds, as a multiset, the export lines of the merged maps, or the first panic |
| Sellsword.MergeAllSnoc | sellsword.go:178 | merging one more map merges it into the earlier result |
| Sellsword.DisplayNameOfEnvFile | sellsword.go:76-77 | `app-env.ssw` displays as `app` whenever neither `.ssw` nor `-env` occurs in `app`, so `my-app-env.ssw` displays as `my-app` |
| Sellsword.DisplayNameOfConfigFile | sellsword.go:76-77 | `app.ssw` displays as `app` whenever neither `.ssw` nor `-env` occurs in `app` |
| Sellsword.DisplayNameFree | sellsword.go:77 | a display name never contains `-env` |
| Paths.BaseOfJoin | app.go:58 | the base of `dir/name` is the name |
| Paths.DirOfJoin | app.go:59 | the dir of `dir/name` is the cleaned dir |
| Paths.CleanIdempotent | app.go:94 | cleaning a cleaned path changes nothing |
| Paths.JoinParent | common.go:56 | joining `../n` to a clean rooted path equals joining `n` to its parent |
| Paths.JoinLeadingSlash | sellsword.go:171 | a slash at the start of a joined element is absorbed |
| Paths.JoinCleanLeft | app.go:59 | cleaning the first element before joining changes nothing |
| Strs.IndexOf | sellsword.go:76-77 | the first occurrence of the separator, or none when it does not occur |
| Strs.JoinSplit | sellsword.go:76-77 | joining the pieces of a split with its separator restores the string |
| Strs.SplitJoin | env.go:106 | splitting lines joined by a character none of them holds gives the lines back |
| Strs.SplitPiecesFree | sellsword.go:76-77 | no piece of a split contains the separator |
| Strs.FirstPiece | sellsword.go:76-77 | the first piece of `a + sep + b` is `a` when `sep` does not occur in `a` and cannot straddle its end |
| Strs.TrimSuffix | sellsword.go:132 | a present suffix is removed exactly; otherwise the string is unchanged |
| Sorting.LessEqTotal | env.go:105 | any two strings are ordered one way or the other |
| Sorting.LessEqTransitive | env.go:105 | the byte-wise order is transitive |
| Sorting.LessEqAntisymmetric | env.go:105 | two strings ordered both ways are equal |
| Sorting.Sort | env.go:105 | the result is sorted and a permutation of the input |
| Sorting.SortedUnique | env.go:105 | two sorted permutations of one multiset are equal, so the sorted output does not depend on map order |
| Sorting.Enumerate | app.go:177-180 | the names collected from a map's keys are exactly those keys, once each |
| Sorting.FilterOut | app.go:110 | every string but the skipped one keeps its count |
| Sorting.FilterOutSorted | app.go:110 | skipping one string keeps a listing sorted |
| FileSystem.StatOf | app.go:148 | os.Stat never reports a link: it looks through at most 40 of them |
| FileSystem.ReadDirOf | app.go:107 | a listing is sorted |
| FileSystem.WriteThenRead | env.go:72 | what WriteFile wrote, ReadFile returns |
| FileSystem.FileSystem.Lstat | app.go:17 | os.Lstat: the entry itself, or not-exist |
| FileSystem.FileSystem.Stat | app.go:148 | os.Stat: the entry at the end of the links |
| FileSystem.FileSystem.Readlink | app.go:23 | os.Readlink: a link's literal target |
| FileSystem.FileSystem.ReadFile | app.go:60 | ioutil.ReadFile: the data, or the failure to stat, or is-a-directory |
| FileSystem.FileSystem.ReadDir | app.go:107 | ioutil.ReadDir: the sorted names in the directory |
| FileSystem.FileSystem.Symlink | app.go:210 | os.Symlink: refuses an existing link path, else adds the link |
| FileSystem.FileSystem.Remove | app.go:199 | os.Remove: not-exist for a missing path, not-empty for a directory with entries, else removed |
| FileSystem.FileSystem.WriteFile | env.go:72 | ioutil.WriteFile: writes at the end of the links |
| Yaml.VarsOf | env.go:59 | a failed decode is a decode error for that file |
| Yaml.AppOf | app.go:64 | a failed decode is a decode error for that file |

## Left out

- cmd/sellsword/main.go, the `main`, `setDebug` and `mkdirP` functions of sellsword.go,
  and the `showCurrentEnvs`/`findCurrentEnvs` loop around the name stripping: command-line
  wiring, process exit and printing.
- Logging and terminal colours (`GetTermPrinter`, `GetTermPrinterF`, `getTermPrinterF`):
  output formatting only.
- The YAML library: decoding and encoding are the functions of a `Yaml.Codec` value.
  When decoding fails, what yaml.v2 had already filled in is not modelled.
- Application.App.Parse: only the `type`, `target` and `variables` keys of a definition
  are read. The keys yaml.v2 would also decode into an App (`name`, `path`, `root`,
  `definition`, `exportvariables`) are not modelled.
- Env.Construct (env.go:116-136): it prompts on standard input.
- Env.PrintExports and the printing in `UnsetExportVars`, `listApps` and `convertToBash`:
  the model gives the printed lines or text, not standard output.
- App.Load and App.Unload, the load and unload hooks and `MakeUnsetExportVars` are not
  part of this model. The sorted `unset` output tested in app_test.go:114-129 belongs to
  `MakeUnsetExportVars`.
- Application.App.MakeCurrent: the new env's `PopulateExportVars` and `PrintExports` act
  on the Env type of app.go's own package, whose definition is not part of this model.
  They are left out.
- Application.App.Current: the error `Env.Parse` may return is not modelled. An env's
  name is the `nameOf` parameter applied to its path.
- `NewApp` and `arrayToEmptyMap` are not part of this model. `Environment.EmptyValues`
  gives every requested name the empty value, as common_test.go:84-93 expects.
- The user's home directory (`user.Current`) and the working directory are parameters,
  not calls.
- FileSystem.FileSystem.Symlink and FileSystem.FileSystem.WriteFile do not check that
  the parent directory exists. Permissions and file modes are not modelled.
- FileSystem.FileSystem.ReadDir gives entry names only, not the other file information.
- FileSystem: a path is looked up as written. A link in a parent component of a path is
  not followed, so two spellings of one file through a linked directory are two separate
  entries. A relative link target is taken from the literal directory of the link's
  path. A regular file used as a directory gives not-exist, where Linux gives ENOTDIR.
- Sorting.LessEq compares characters (code points), not bytes. Strings that are not
  valid UTF-8, which Go can hold and compares byte by byte, cannot be represented.
- Concurrent changes to the filesystem by other processes are not modelled.
- ApplicationSet.AppSet.ListApps: after a parse panic the model returns the panic with
  no lines, where the program stops.
