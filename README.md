# multi-repo-maven-packager, modelled in Dafny

The packager builds one deployable bundle from several Git repositories. A `package.yml` names include files. Each include file defines jobs. A job lists repositories and the artifacts to collect. The command-line tool offers the merged jobs and reads the user's selection. For each selected job it does the following:
- it clones every missing checkout (in a dry run it only announces the clone);
- it synchronises the checkout with `git fetch`, `checkout` and `pull`;
- it runs the configured Maven goals;
- it copies the artifacts into an output directory. When a configured file is absent, it falls back to the `.war` files found under `target` directories.

This project models that core as Dafny functions, methods and classes, and proves properties of it. The modules are:
- `VarResolver`: `${key}` substitution, a scan repeated at most five times.
- `CompositeConfigLoader`: merging package.yml's global maven setting and variables into each include, and flattening the includes' jobs into one list.
- `Git`, `Maven`, `ProcessExec`: the command lines the executors issue. The outside world is a parameter: `ExecEnv` says which command fails and how each successful command changes the disk.
- `ArtifactFinder`: the recursive war discovery, over a filesystem map (`FileSystem`).
- `ArtifactCopier`: `Files.createDirectories` plus `Files.copy(REPLACE_EXISTING)`, and the dry-run switch.
- `JobRunner`: `runJob` and `chooseBestWar`. The class keeps the announced `[PLAN]` lines and the executors' state.
- `JobRunnerProps`: the validation errors, the dry-run guarantees and the parity between a dry run and a real run.
- `Cli`: `Main`'s helpers, namely `hasFlag`, `argValue`, `trimQuotes`, `resolveSelectedJobs`, `findJobByName` and the `askYesNo` decision.
- `Text`: the `java.lang.String` operations they rely on, namely `trim`, blank tests, ASCII `toLowerCase` and `split`.

Each imperative method is proved against a specification function. The specification function is then the subject of the lemmas.

## Model

| member | source | states |
|---|---|---|
| VarResolver.KeyRun | packager-core/src/main/java/io/github/fichil/packager/core/config/VarResolver.java:8 | the greedy run of key characters `[A-Za-z0-9_\-.]` at the start of the text: every character in it is a key character and the next one is not |
| VarResolver.TokenAt | packager-core/src/main/java/io/github/fichil/packager/core/config/VarResolver.java:8 | a match of `\$\{([A-Za-z0-9_\-.]+)\}` at the text's start captures a non-empty key and spans the key plus three characters |
| VarResolver.TokenAtSpells | packager-core/src/main/java/io/github/fichil/packager/core/config/VarResolver.java:8 | the characters a match spans are exactly `${key}` for its captured key |
| VarResolver.TokenAtTokenText | packager-core/src/main/java/io/github/fichil/packager/core/config/VarResolver.java:8 | `${k}` followed by anything is matched back with key `k`, for every valid key |
| VarResolver.KeyRunStopsAt | packager-core/src/main/java/io/github/fichil/packager/core/config/VarResolver.java:8 | the key run ends exactly where the key characters end |
| VarResolver.ScanStep | packager-core/src/main/java/io/github/fichil/packager/core/config/VarResolver.java:21-27 | each step of the matcher advances by at least one character; text that is not a hit is copied through unchanged |
| VarResolver.Pass | packager-core/src/main/java/io/github/fichil/packager/core/config/VarResolver.java:18-29 | a scan that replaced nothing returns the text unchanged |
| VarResolver.PassCons | packager-core/src/main/java/io/github/fichil/packager/core/config/VarResolver.java:21-28 | a scan is its first step followed by the scan of what that step leaves |
| VarResolver.PassesUnfold | packager-core/src/main/java/io/github/fichil/packager/core/config/VarResolver.java:17-31 | one more round of the five-round loop: a round that changed nothing ends the loop |
| VarResolver.Resolve | packager-core/src/main/java/io/github/fichil/packager/core/config/VarResolver.java:13 | an empty text or an empty table comes back unchanged |
| VarResolver.ResolveOpt | packager-core/src/main/java/io/github/fichil/packager/core/config/VarResolver.java:13 | a null text comes back null, and only a null text does |
| VarResolver.ScanMore | packager-core/src/main/java/io/github/fichil/packager/core/config/VarResolver.java:21-27 | the scan loop's invariant holds again after one more `find`/`appendReplacement` |
| VarResolver.ReplaceAll | packager-core/src/main/java/io/github/fichil/packager/core/config/VarResolver.java:18-29 | the matcher loop with `appendTail` produces the text and changed flag of one scan |
| VarResolver.ResolveText | packager-core/src/main/java/io/github/fichil/packager/core/config/VarResolver.java:12-33 | `resolve` equals the five-round resolution `ResolveOpt` |
| VarResolver.TokenInterior | packager-core/src/main/java/io/github/fichil/packager/core/config/VarResolver.java:8 | no other token can begin inside a token |
| VarResolver.PassChangedIff | packager-core/src/main/java/io/github/fichil/packager/core/config/VarResolver.java:21-30 | a scan reports a change if and only if the text holds a token whose key is in the table |
| VarResolver.NoKnownTokenResolvesToItself | packager-core/src/main/java/io/github/fichil/packager/core/config/VarResolver.java:12-33 | a text without a token for a known key resolves to itself |
| VarResolver.PassKnownToken | packager-core/src/main/java/io/github/fichil/packager/core/config/VarResolver.java:22-26 | a token with a known key is replaced by its value verbatim, with no `$` or `\` interpretation, and the scan reports a change |
| VarResolver.PassUnknownToken | packager-core/src/main/java/io/github/fichil/packager/core/config/VarResolver.java:24 | a token with an unknown key is kept as written and does not count as a change |
| VarResolver.ChainResolves | packager-core/src/main/java/io/github/fichil/packager/core/config/VarResolver.java:17-31 | `${a}` with `a -> ${b}` and `b -> x` resolves to `x` through a second round |
| VarResolver.RoundsStable | packager-core/src/main/java/io/github/fichil/packager/core/config/VarResolver.java:28-30 | once a round changes nothing, further rounds keep the text |
| VarResolver.PassesStable | packager-core/src/main/java/io/github/fichil/packager/core/config/VarResolver.java:28-30 | a text that one round leaves unchanged comes out of the loop as it went in |
| VarResolver.PassesReach | packager-core/src/main/java/io/github/fichil/packager/core/config/VarResolver.java:17-31 | when some number of rounds within the loop's budget leaves no token of a known key, the loop returns exactly that text |
| VarResolver.ResolvesWithinFive | packager-core/src/main/java/io/github/fichil/packager/core/config/VarResolver.java:12-33 | every chain of references resolved by at most five rounds is resolved completely by `resolve` |
| VarResolver.LoneKnownToken | packager-core/src/main/java/io/github/fichil/packager/core/config/VarResolver.java:22-28 | a text that is a single known token becomes that token's value |
| VarResolver.CycleTerminates | packager-core/src/main/java/io/github/fichil/packager/core/config/VarResolver.java:16-17 | a self-referential key stops after five rounds and leaves the token in place |
| CompositeConfigLoader.Merge | packager-core/src/main/java/io/github/fichil/packager/core/config/CompositeConfigLoader.java:87-102 | the include's maven setting wins over the global one; the variables are the global ones overlaid key by key with the include's; the jobs are the include's |
| CompositeConfigLoader.DisplayName | packager-core/src/main/java/io/github/fichil/packager/core/config/CompositeConfigLoader.java:112-117 | the display name is `include:job`, or the bare job name when the include's name is null or blank; it always ends with the job name |
| CompositeConfigLoader.Entries | packager-core/src/main/java/io/github/fichil/packager/core/config/CompositeConfigLoader.java:108-120 | one entry per job, in the include's job order, each carrying the merged configuration and its own job name |
| CompositeConfigLoader.Contribution | packager-core/src/main/java/io/github/fichil/packager/core/config/CompositeConfigLoader.java:79-84 | an include with a blank path contributes nothing; otherwise its entries come from the merged configuration of its file |
| CompositeConfigLoader.Load | packager-core/src/main/java/io/github/fichil/packager/core/config/CompositeConfigLoader.java:58-60 | package.yml without includes is an error |
| CompositeConfigLoader.LoadFromPackageYml | packager-core/src/main/java/io/github/fichil/packager/core/config/CompositeConfigLoader.java:50-124 | the loop over includes and their jobs yields exactly the flattened list, or the first include that could not be read |
| CompositeConfigLoader.AppendEntries | packager-core/src/main/java/io/github/fichil/packager/core/config/CompositeConfigLoader.java:108-120 | the inner loop appends the include's entries in job order |
| CompositeConfigLoader.FlattenStep | packager-core/src/main/java/io/github/fichil/packager/core/config/CompositeConfigLoader.java:73-121 | each turn of the include loop appends that include's contribution |
| CompositeConfigLoader.FlattenStopsAtError | packager-core/src/main/java/io/github/fichil/packager/core/config/CompositeConfigLoader.java:84 | once an include fails to load, later includes are not read and that failure is the result |
| CompositeConfigLoader.FlattenAppend | packager-core/src/main/java/io/github/fichil/packager/core/config/CompositeConfigLoader.java:73-121 | flattening two lists of includes gives the concatenation of their flattened outputs |
| CompositeConfigLoader.AndThenUnit | packager-core/src/main/java/io/github/fichil/packager/core/config/CompositeConfigLoader.java:73-121 | an empty contribution leaves the output as it is |
| CompositeConfigLoader.AndThenAssoc | packager-core/src/main/java/io/github/fichil/packager/core/config/CompositeConfigLoader.java:73-121 | contributions concatenate associatively |
| CompositeConfigLoader.BlankIncludeSkipped | packager-core/src/main/java/io/github/fichil/packager/core/config/CompositeConfigLoader.java:79-81 | removing an include with a blank path changes nothing |
| CompositeConfigLoader.EmptyIncludeSkipped | packager-core/src/main/java/io/github/fichil/packager/core/config/CompositeConfigLoader.java:98-106 | an include file without jobs contributes no entries |
| CompositeConfigLoader.FlattenLength | packager-core/src/main/java/io/github/fichil/packager/core/config/CompositeConfigLoader.java:104-120 | the list has one entry per job of every contributing include |
| CompositeConfigLoader.DuplicatesKept | packager-core/src/main/java/io/github/fichil/packager/core/config/CompositeConfigLoader.java:112-119 | display names are not made unique: two includes with the same name and job give two equal display names |
| CompositeConfigLoader.MergeOverlayExample | packager-core/src/main/java/io/github/fichil/packager/core/config/CompositeConfigLoader.java:92-96 | global `{A:1}` under include `{A:2,B:3}` gives `{A:2,B:3}` |
| ProcessExec.Execute | packager-core/src/main/java/io/github/fichil/packager/core/exec/ProcessExecutor.java:15-35 | every command is recorded; a dry run always succeeds and leaves the disk alone; a real command fails exactly when the world says so, and then the disk is unchanged |
| ProcessExec.ExecuteInert | packager-core/src/main/java/io/github/fichil/packager/core/exec/ProcessExecutor.java:15-35 | in a world where nothing fails and nothing changes the disk, a command only lands in the trace |
| ProcessExec.ProcessExecutor.constructor | packager-core/src/main/java/io/github/fichil/packager/core/exec/ProcessExecutor.java:13 | a new executor is not in dry run and has issued nothing |
| ProcessExec.ProcessExecutor.SetDryRun | packager-core/src/main/java/io/github/fichil/packager/core/exec/ProcessExecutor.java:37-39 | sets the dry-run switch and nothing else |
| ProcessExec.ProcessExecutor.Run | packager-core/src/main/java/io/github/fichil/packager/core/exec/ProcessExecutor.java:15-35 | `run` behaves as `Execute` on the executor's state |
| Git.GitCommand | packager-core/src/main/java/io/github/fichil/packager/core/git/GitExecutor.java:81-88 | `runGit` issues "git" followed by exactly the arguments, in the given directory |
| Git.SyncAllSucceed | packager-core/src/main/java/io/github/fichil/packager/core/git/GitExecutor.java:24-46 | when nothing fails, `checkoutAndPull` issues unset, add, fetch, checkout and pull in that order and succeeds |
| Git.SyncInert | packager-core/src/main/java/io/github/fichil/packager/core/git/GitExecutor.java:24-46 | in an inert world synchronising only appends those five commands |
| Git.SyncUnsetTolerated | packager-core/src/main/java/io/github/fichil/packager/core/git/GitExecutor.java:27-31 | a non-zero exit of `config --unset-all` is swallowed and the other four commands still run |
| Git.SyncUnsetLaunchError | packager-core/src/main/java/io/github/fichil/packager/core/git/GitExecutor.java:27-31 | an unset that cannot be started is not a RuntimeException: it ends the sequence with that error |
| Git.SyncCheckoutFallback | packager-core/src/main/java/io/github/fichil/packager/core/git/GitExecutor.java:38-45 | a failing `checkout <branch>` is followed by `checkout -B <branch> origin/<branch>` and then the pull |
| Git.SyncAddFailureStops | packager-core/src/main/java/io/github/fichil/packager/core/git/GitExecutor.java:32 | a failing `config --add` propagates and nothing after it is issued |
| Git.GitStep | packager-core/src/main/java/io/github/fichil/packager/core/git/GitExecutor.java:81-88 | one git command in a directory keeps the trace's tail made only of git commands in that directory |
| Git.SyncShape | packager-core/src/main/java/io/github/fichil/packager/core/git/GitExecutor.java:24-46 | synchronisation issues at least one command, all of them git commands in the checkout, and a failure names the last command issued |
| Git.SyncFailuresPropagate | packager-core/src/main/java/io/github/fichil/packager/core/git/GitExecutor.java:24-46 | every failure before the last command issued was a non-zero exit of the unset or of the plain checkout; the sequence fails exactly when its last command failed, with that failure, and `checkout -B` is issued only right after a plain checkout that exited non-zero |
| Git.FetchPropagates | packager-core/src/main/java/io/github/fichil/packager/core/git/GitExecutor.java:32-35 | after the unset, a failure of the add or the fetch ends the sequence with that failure, and the same holds for everything after |
| Git.PullPropagates | packager-core/src/main/java/io/github/fichil/packager/core/git/GitExecutor.java:38-45 | after the fetch, only a non-zero exit of the plain checkout is swallowed; a failure of the fallback checkout or the pull ends the sequence with that failure |
| Git.FetchShape | packager-core/src/main/java/io/github/fichil/packager/core/git/GitExecutor.java:32-45 | the same for the commands from the refspec add on |
| Git.PullShape | packager-core/src/main/java/io/github/fichil/packager/core/git/GitExecutor.java:38-45 | the same for the checkout and the pull |
| Git.GitExecutor.constructor | packager-core/src/main/java/io/github/fichil/packager/core/git/GitExecutor.java:11-13 | the executor drives the given process executor |
| Git.GitExecutor.RunGit | packager-core/src/main/java/io/github/fichil/packager/core/git/GitExecutor.java:81-88 | `runGit` is one `Execute` of the git command |
| Git.GitExecutor.CloneRepo | packager-core/src/main/java/io/github/fichil/packager/core/git/GitExecutor.java:15-22 | `cloneRepo` runs `clone [--depth 1] <url> <absolute dir>` from the target's parent directory |
| Git.GitExecutor.CheckoutAndPull | packager-core/src/main/java/io/github/fichil/packager/core/git/GitExecutor.java:24-46 | `checkoutAndPull` behaves as the synchronisation specification |
| Maven.ExecutableFor | packager-core/src/main/java/io/github/fichil/packager/core/maven/MavenExecutor.java:14-19 | the executable is the configured one, or "mvn" when that is null or blank; it is never blank |
| Maven.RunGoalsIssues | packager-core/src/main/java/io/github/fichil/packager/core/maven/MavenExecutor.java:21-33 | no goals issue nothing; otherwise exactly one command runs in the work directory: the executable, every goal in order, and "-DskipTests" last exactly when tests are skipped |
| Maven.RunGoalsInert | packager-core/src/main/java/io/github/fichil/packager/core/maven/MavenExecutor.java:21-33 | in an inert world a build only extends the trace |
| Maven.MavenExecutor.constructor | packager-core/src/main/java/io/github/fichil/packager/core/maven/MavenExecutor.java:14-19 | the executable is fixed at construction by `ExecutableFor` |
| Maven.MavenExecutor.RunGoals | packager-core/src/main/java/io/github/fichil/packager/core/maven/MavenExecutor.java:21-33 | `runGoals` behaves as its specification |
| FileSystem.MkDirs | packager-core/src/main/java/io/github/fichil/packager/core/artifact/ArtifactCopier.java:30-31 | `createDirectories` makes every prefix of the path a directory, keeps every other entry, and fails only when an ancestor is a file |
| FileSystem.MkDirsFailsIff | packager-core/src/main/java/io/github/fichil/packager/core/artifact/ArtifactCopier.java:31 | `createDirectories` fails if and only if the path or one of its ancestors is a regular file |
| FileSystem.MkDirsQuiet | packager-core/src/main/java/io/github/fichil/packager/core/job/JobRunner.java:72 | `mkdirs` never touches an existing file |
| FileSystem.RenderRoundTrip | packager-core/src/main/java/io/github/fichil/packager/core/job/JobRunner.java:64 | a path rendered with `getAbsolutePath` reads back as the same `File` |
| FileSystem.CurrentDirIgnored | packager-core/src/main/java/io/github/fichil/packager/core/job/JobRunner.java:132-133 | a leading `./` names the same file as the rest of the path |
| FileSystem.Disk.constructor | packager-core/src/main/java/io/github/fichil/packager/core/artifact/ArtifactCopier.java:20-34 | the disk starts with the given entries and clock |
| ArtifactFinder.WarsIn | packager-core/src/main/java/io/github/fichil/packager/core/artifact/ArtifactFinder.java:30-41 | the listed entries below the target directory that pass the filter, and nothing else |
| ArtifactFinder.EntryWars | packager-core/src/main/java/io/github/fichil/packager/core/artifact/ArtifactFinder.java:20-26 | a subdirectory contributes only paths below itself |
| ArtifactFinder.ScanEntries | packager-core/src/main/java/io/github/fichil/packager/core/artifact/ArtifactFinder.java:19-27 | the entries' contributions lie below their own entry |
| ArtifactFinder.ScanDir | packager-core/src/main/java/io/github/fichil/packager/core/artifact/ArtifactFinder.java:15-28 | every path found lies at least two levels below the scanned directory |
| ArtifactFinder.BelowShrinks | packager-core/src/main/java/io/github/fichil/packager/core/artifact/ArtifactFinder.java:24 | walking into a subdirectory strictly shrinks what is left to walk |
| ArtifactFinder.ScanEntriesIff | packager-core/src/main/java/io/github/fichil/packager/core/artifact/ArtifactFinder.java:19-27 | a war is found among the entries exactly when some entry leads to it |
| ArtifactFinder.ScanDirIff | packager-core/src/main/java/io/github/fichil/packager/core/artifact/ArtifactFinder.java:15-28 | the scan finds exactly the wars reached through non-`target` directories ending in one `target` directory; both directions are proved |
| ArtifactFinder.EntryIff | packager-core/src/main/java/io/github/fichil/packager/core/artifact/ArtifactFinder.java:20-26 | one listed entry contributes a war exactly when the walk through it reaches that war |
| ArtifactFinder.TargetEntryIff | packager-core/src/main/java/io/github/fichil/packager/core/artifact/ArtifactFinder.java:30-41 | `collectWar` adds exactly the listed names of a readable `target` directory that pass the filter |
| ArtifactFinder.FoundWarsAreWars | packager-core/src/main/java/io/github/fichil/packager/core/artifact/ArtifactFinder.java:15-41 | every war found ends in `.war`, is neither `original-*` nor `*-sources.war`, sits directly in a directory named `target`, and lies under no other `target` |
| ArtifactFinder.ReachedWarShape | packager-core/src/main/java/io/github/fichil/packager/core/artifact/ArtifactFinder.java:15-41 | the same for the walk description |
| ArtifactFinder.FindWars | packager-core/src/main/java/io/github/fichil/packager/core/artifact/ArtifactFinder.java:9-13 | `findWars` returns exactly the scan of the repository directory |
| ArtifactFinder.ScanEntriesStep | packager-core/src/main/java/io/github/fichil/packager/core/artifact/ArtifactFinder.java:19-27 | one more entry appends its contribution |
| ArtifactFinder.Scan | packager-core/src/main/java/io/github/fichil/packager/core/artifact/ArtifactFinder.java:15-28 | `scan` appends exactly the scan of the directory to the list it is given |
| ArtifactFinder.ScanListing | packager-core/src/main/java/io/github/fichil/packager/core/artifact/ArtifactFinder.java:19-27 | the loop over the listing appends the entries' contributions in listing order |
| ArtifactFinder.ScanEntry | packager-core/src/main/java/io/github/fichil/packager/core/artifact/ArtifactFinder.java:20-26 | a `target` subdirectory is collected from, any other subdirectory is walked into, and a file adds nothing |
| ArtifactFinder.WarsInStep | packager-core/src/main/java/io/github/fichil/packager/core/artifact/ArtifactFinder.java:37-39 | one more listed name appends it when it passes the filter |
| ArtifactFinder.CollectWar | packager-core/src/main/java/io/github/fichil/packager/core/artifact/ArtifactFinder.java:30-41 | `collectWar` appends exactly the filtered listing |
| ArtifactCopier.Place | packager-core/src/main/java/io/github/fichil/packager/core/artifact/ArtifactCopier.java:33 | the target becomes the new node; every other entry keeps its kind and every file keeps its contents |
| ArtifactCopier.CopySpec | packager-core/src/main/java/io/github/fichil/packager/core/artifact/ArtifactCopier.java:20-34 | a dry copy changes nothing; a missing source fails with the disk unchanged; no file other than the target changes; new entries lie on the target's path; a successful copy puts the source's contents at the target |
| ArtifactCopier.CopyOntoItself | packager-core/src/main/java/io/github/fichil/packager/core/artifact/ArtifactCopier.java:33 | copying a file onto itself succeeds and keeps its contents |
| ArtifactCopier.CopySucceeds | packager-core/src/main/java/io/github/fichil/packager/core/artifact/ArtifactCopier.java:20-34 | a real copy succeeds when the source is a file, the target has a parent, the target is not a directory (a non-empty one makes the copy fail) and no ancestor of the target is a file |
| ArtifactCopier.ArtifactCopier.Default | packager-core/src/main/java/io/github/fichil/packager/core/artifact/ArtifactCopier.java:12-14 | the no-argument copier copies for real |
| ArtifactCopier.ArtifactCopier.constructor | packager-core/src/main/java/io/github/fichil/packager/core/artifact/ArtifactCopier.java:16-18 | the dry-run switch is fixed at construction |
| ArtifactCopier.ArtifactCopier.Copy | packager-core/src/main/java/io/github/fichil/packager/core/artifact/ArtifactCopier.java:20-34 | `copy` behaves as `CopySpec` on the copier's disk |
| JobRunner.MavenDir | packager-core/src/main/java/io/github/fichil/packager/core/job/JobRunner.java:100-103 | the build directory is the checkout itself or a path below it, by its names: `..` is not resolved |
| JobRunner.Artifacts | packager-core/src/main/java/io/github/fichil/packager/core/job/JobRunner.java:113-171 | the artifact phase issues no command and only extends the plan; its rules are the lemmas `ArtifactsSkipped` and `BlankOutputDirRejected` |
| JobRunner.ArtifactLoop | packager-core/src/main/java/io/github/fichil/packager/core/job/JobRunner.java:121-170 | the same for the artifact loop |
| JobRunner.ArtifactStep | packager-core/src/main/java/io/github/fichil/packager/core/job/JobRunner.java:122-168 | the same for one artifact; its rules are the lemmas `UnknownRepo`, `DirectCopy` and `MissingFromFallsBack` |
| JobRunner.Fallback | packager-core/src/main/java/io/github/fichil/packager/core/job/JobRunner.java:140-167 | the same for the war fallback; its rules are the lemmas `NoWarFails`, `SingleWarCopy` and `CopyWarsPlan` |
| JobRunner.CopyStep | packager-core/src/main/java/io/github/fichil/packager/core/job/JobRunner.java:137-138 | one copy announces exactly one plan line and issues no command |
| JobRunner.CopyWars | packager-core/src/main/java/io/github/fichil/packager/core/job/JobRunner.java:160-166 | copying every discovered war only extends the plan |
| JobRunner.NewestIndex | packager-core/src/main/java/io/github/fichil/packager/core/job/JobRunner.java:174-189 | chooses the first non-null war with the latest modification time; none only when every war is null |
| JobRunner.Somes | packager-core/src/main/java/io/github/fichil/packager/core/job/JobRunner.java:144-155 | the discovered wars as the non-null list handed to `chooseBestWar` |
| JobRunner.Newest | packager-core/src/main/java/io/github/fichil/packager/core/job/JobRunner.java:153-157 | the war chosen for a single-file target is one of the wars, and no war is newer |
| JobRunner.ChooseBestWar | packager-core/src/main/java/io/github/fichil/packager/core/job/JobRunner.java:174-189 | `chooseBestWar` returns the war `NewestIndex` designates |
| JobRunner.JobRunner.constructor | packager-core/src/main/java/io/github/fichil/packager/core/job/JobRunner.java:24-36 | the runner keeps its collaborators, its variables and its dry-run switch, and has announced nothing |
| JobRunner.JobRunner.RunJob | packager-core/src/main/java/io/github/fichil/packager/core/job/JobRunner.java:38-172 | `runJob` behaves as `RunJobSpec`: its outcome, the disk, the command trace and the announced plan |
| JobRunner.JobRunner.RunRepo | packager-core/src/main/java/io/github/fichil/packager/core/job/JobRunner.java:47-108 | one turn of the repository loop behaves as `RepoStep` |
| JobRunner.JobRunner.LocateRepo | packager-core/src/main/java/io/github/fichil/packager/core/job/JobRunner.java:64-92 | an existing checkout is used; a missing one is cloned |
| JobRunner.JobRunner.CloneMissingRepo | packager-core/src/main/java/io/github/fichil/packager/core/job/JobRunner.java:71-84 | `CloneMissing`, the clone branch once a URL is present: only planned and registered in a dry run, otherwise the parent created, a clone (depth 1 when shallow) from the parent directory, then synchronisation and build |
| JobRunner.JobRunner.SyncAndBuildRepo | packager-core/src/main/java/io/github/fichil/packager/core/job/JobRunner.java:88-108 | the directory check, registration, `checkoutAndPull` and the build |
| JobRunner.JobRunner.BuildRepo | packager-core/src/main/java/io/github/fichil/packager/core/job/JobRunner.java:99-108 | the build runs only when there are goals, in `MavenDir` |
| JobRunner.JobRunner.RunArtifacts | packager-core/src/main/java/io/github/fichil/packager/core/job/JobRunner.java:113-171 | the artifact phase behaves as `Artifacts` |
| JobRunner.JobRunner.RunArtifact | packager-core/src/main/java/io/github/fichil/packager/core/job/JobRunner.java:122-168 | one artifact behaves as `ArtifactStep` |
| JobRunner.JobRunner.FallbackCopy | packager-core/src/main/java/io/github/fichil/packager/core/job/JobRunner.java:140-167 | the fallback behaves as `Fallback` |
| JobRunner.JobRunner.CopyOne | packager-core/src/main/java/io/github/fichil/packager/core/job/JobRunner.java:137-138 | an announced copy behaves as `CopyStep` |
| JobRunner.JobRunner.CopyAll | packager-core/src/main/java/io/github/fichil/packager/core/job/JobRunner.java:160-166 | the loop over discovered wars behaves as `CopyWars` |
| JobRunnerProps.BlankPathRejected | packager-core/src/main/java/io/github/fichil/packager/core/job/JobRunner.java:57-59 | a blank resolved path is refused before anything is announced, run or registered |
| JobRunnerProps.BlankBranchRejected | packager-core/src/main/java/io/github/fichil/packager/core/job/JobRunner.java:60-62 | a blank resolved branch is refused likewise |
| JobRunnerProps.MissingUrlRejected | packager-core/src/main/java/io/github/fichil/packager/core/job/JobRunner.java:67-70 | a missing checkout without a URL is refused, dry run or not |
| JobRunnerProps.NotADirectoryRejected | packager-core/src/main/java/io/github/fichil/packager/core/job/JobRunner.java:88-90 | a resolved path that exists but is not a directory is refused before it is registered, announced or synchronised |
| JobRunnerProps.JobValidation | packager-core/src/main/java/io/github/fichil/packager/core/job/JobRunner.java:39 | a null job is refused untouched, and so is a job whose first repository has a blank path |
| JobRunnerProps.MissingRepoDryRun | packager-core/src/main/java/io/github/fichil/packager/core/job/JobRunner.java:76-83 | in a dry run a missing checkout is announced and registered, and nothing is run or created |
| JobRunnerProps.SyncAndBuildExtends | packager-core/src/main/java/io/github/fichil/packager/core/job/JobRunner.java:88-108 | synchronising and building only extend the plan and the trace |
| JobRunnerProps.MissingRepoCloned | packager-core/src/main/java/io/github/fichil/packager/core/job/JobRunner.java:67-77 | in a real run a missing checkout's clone is announced and is the first command: from the parent directory, with `--depth 1` exactly when "shallow" equals "true" ignoring case |
| JobRunnerProps.CloneMissingCloned | packager-core/src/main/java/io/github/fichil/packager/core/job/JobRunner.java:71-77 | the same for the clone branch |
| JobRunnerProps.DefaultBuildDir | packager-core/src/main/java/io/github/fichil/packager/core/job/JobRunner.java:100-103 | with no work directory configured the build runs in the checkout itself |
| JobRunnerProps.AutoCopies | packager-core/src/main/java/io/github/fichil/packager/core/job/JobRunner.java:160-166 | one auto-copy per discovered war, into the target directory under its own name, in discovery order |
| JobRunnerProps.AutoCopiesCons | packager-core/src/main/java/io/github/fichil/packager/core/job/JobRunner.java:160-166 | the first war's copy comes first |
| JobRunnerProps.CopyWarsDryPlan | packager-core/src/main/java/io/github/fichil/packager/core/job/JobRunner.java:160-166 | with a dry copier every discovered war is announced in order and the disk is untouched |
| JobRunnerProps.ArtifactsSkipped | packager-core/src/main/java/io/github/fichil/packager/core/job/JobRunner.java:113-114 | without an artifact list, or with an empty one, the artifact phase passes and changes nothing |
| JobRunnerProps.BlankOutputDirRejected | packager-core/src/main/java/io/github/fichil/packager/core/job/JobRunner.java:115-118 | a list with entries and a blank resolved output directory fails with nothing copied or announced |
| JobRunnerProps.UnknownRepo | packager-core/src/main/java/io/github/fichil/packager/core/job/JobRunner.java:124-127 | an artifact whose repository was not registered by the repository phase fails with nothing announced |
| JobRunnerProps.DirectCopy | packager-core/src/main/java/io/github/fichil/packager/core/job/JobRunner.java:129-138 | a configured file that exists is copied once, from below its checkout to below the output directory, announced as a configured copy; outcome and disk are the copier's |
| JobRunnerProps.MissingFromFallsBack | packager-core/src/main/java/io/github/fichil/packager/core/job/JobRunner.java:135-144 | a configured file that does not exist sends the artifact to war discovery in its checkout |
| JobRunnerProps.NoWarFails | packager-core/src/main/java/io/github/fichil/packager/core/job/JobRunner.java:145-148 | when discovery finds no war, the discovery is announced and the artifact fails |
| JobRunnerProps.SingleWarCopy | packager-core/src/main/java/io/github/fichil/packager/core/job/JobRunner.java:150-157 | a target ending in `.war` (any case) receives exactly one copy, of the newest discovered war, announced after the discovery |
| JobRunnerProps.CopyWarsPlan | packager-core/src/main/java/io/github/fichil/packager/core/job/JobRunner.java:158-166 | when copying every war succeeds, one automatic copy per war is announced, in discovery order, each into the target directory under the war's own name |
| JobRunnerProps.RepoStepDryKeepsDisk | packager-core/src/main/java/io/github/fichil/packager/core/job/JobRunner.java:47-108 | a fully dry repository step leaves the disk unchanged |
| JobRunnerProps.ReposDryKeepsDisk | packager-core/src/main/java/io/github/fichil/packager/core/job/JobRunner.java:46-109 | so does the whole repository loop |
| JobRunnerProps.ArtifactLoopDryKeepsDisk | packager-core/src/main/java/io/github/fichil/packager/core/job/JobRunner.java:121-170 | a dry artifact loop changes neither the disk nor the trace |
| JobRunnerProps.DryRunKeepsDisk | packager-core/src/main/java/io/github/fichil/packager/core/job/JobRunner.java:38-172 | a run in which the runner, the process executor and the copier are all dry leaves the disk as it found it |
| JobRunnerProps.ScanDirLocal | packager-core/src/main/java/io/github/fichil/packager/core/artifact/ArtifactFinder.java:15-28 | war discovery depends only on what lies below the scanned directory |
| JobRunnerProps.NewestLocal | packager-core/src/main/java/io/github/fichil/packager/core/job/JobRunner.java:174-189 | the war chosen depends only on the candidates' modification times |
| JobRunnerProps.CopyKeepsSub | packager-core/src/main/java/io/github/fichil/packager/core/artifact/ArtifactCopier.java:20-34 | a copy changes nothing below a directory the target is not inside |
| JobRunnerProps.CopyStepParity | packager-core/src/main/java/io/github/fichil/packager/core/job/JobRunner.java:137-138 | a dry copy and a real copy announce the same line; only a failed real copy sets them apart |
| JobRunnerProps.CopyWarsParity | packager-core/src/main/java/io/github/fichil/packager/core/job/JobRunner.java:160-166 | the same for copying every discovered war |
| JobRunnerProps.FallbackParity | packager-core/src/main/java/io/github/fichil/packager/core/job/JobRunner.java:140-167 | the same for the fallback, which finds the same wars and chooses the same one |
| JobRunnerProps.ArtifactStepParity | packager-core/src/main/java/io/github/fichil/packager/core/job/JobRunner.java:122-168 | the same for one artifact |
| JobRunnerProps.ArtifactLoopParity | packager-core/src/main/java/io/github/fichil/packager/core/job/JobRunner.java:121-170 | the same for the artifact loop |
| JobRunnerProps.RepoStepInert | packager-core/src/main/java/io/github/fichil/packager/core/job/JobRunner.java:47-108 | over existing checkouts in an inert world, a repository step does not depend on the dry-run flags and leaves the disk alone |
| JobRunnerProps.SyncAndBuildInert | packager-core/src/main/java/io/github/fichil/packager/core/job/JobRunner.java:88-108 | the same for synchronising and building |
| JobRunnerProps.ReposInert | packager-core/src/main/java/io/github/fichil/packager/core/job/JobRunner.java:46-109 | the same for the repository loop |
| JobRunnerProps.RepoStepDirs | packager-core/src/main/java/io/github/fichil/packager/core/job/JobRunner.java:80-92 | a repository step registers at most its own resolved path |
| JobRunnerProps.ReposApart | packager-core/src/main/java/io/github/fichil/packager/core/job/JobRunner.java:46-109 | when every checkout lies apart from the output directory, every registered checkout does |
| JobRunnerProps.DryRunParity | packager-core/src/main/java/io/github/fichil/packager/core/job/JobRunner.java:38-172 | over existing checkouts in an inert world, a dry run issues exactly the commands a real run issues; the real plan is a prefix of the dry plan; a real success has the same plan and outcome |
| Cli.HasFlag | packager-cli/src/main/java/io/github/fichil/packager/cli/Main.java:249-255 | true exactly when the flag is one of the arguments |
| Cli.ArgValue | packager-cli/src/main/java/io/github/fichil/packager/cli/Main.java:239-247 | the argument after the first occurrence of the key that has a successor; none when there is no such occurrence |
| Cli.TrimQuotesAgree | packager-cli/src/main/java/io/github/fichil/packager/cli/Main.java:262-269 | the code as written throws exactly on a lone quote; on every other input it agrees with the corrected `TrimQuotes` |
| Cli.TrimQuotesAsWritten | packager-cli/src/main/java/io/github/fichil/packager/cli/Main.java:262-269 | `trimQuotes` as written: it throws only on a lone quote character; otherwise it gives the trimmed value, or its inside when a matching pair of quotes wraps it |
| Cli.TrimQuotes | packager-cli/src/main/java/io/github/fichil/packager/cli/Main.java:262-269 | `trimQuotes` as intended: the trimmed value, or its inside when a matching pair of quotes wraps it; never longer than the input |
| Cli.LoneQuoteThrows | packager-cli/src/main/java/io/github/fichil/packager/cli/Main.java:265-266 | the input `"` makes `substring(1, 0)` throw |
| Cli.TrimQuotesRoundTrip | packager-cli/src/main/java/io/github/fichil/packager/cli/Main.java:262-269 | a value wrapped in matching quotes, with no padding, comes back without them |
| Cli.TrimQuotesUnquoted | packager-cli/src/main/java/io/github/fichil/packager/cli/Main.java:262-269 | a trimmed value that is not wrapped in quotes passes unchanged |
| Cli.Decimal | packager-cli/src/main/java/io/github/fichil/packager/cli/Main.java:142 | a position written in decimal is a token matching `\d+` |
| Cli.DecimalRoundTrip | packager-cli/src/main/java/io/github/fichil/packager/cli/Main.java:170-171 | reading back a position written in decimal gives the position |
| Cli.FirstDisplay | packager-cli/src/main/java/io/github/fichil/packager/cli/Main.java:192-195 | the first job whose display name is the token, if any |
| Cli.FirstLower | packager-cli/src/main/java/io/github/fichil/packager/cli/Main.java:213-220 | the first job whose display name equals the token ignoring ASCII case, if any |
| Cli.NameMatches | packager-cli/src/main/java/io/github/fichil/packager/cli/Main.java:197-210 | exactly the positions of the jobs named the token, in increasing order |
| Cli.FindByName | packager-cli/src/main/java/io/github/fichil/packager/cli/Main.java:188-223 | a job found is one of the listed jobs |
| Cli.NoMatchNone | packager-cli/src/main/java/io/github/fichil/packager/cli/Main.java:188-223 | a token that no job carries as display name, job name or display name up to case finds nothing |
| Cli.ExactDisplayFirst | packager-cli/src/main/java/io/github/fichil/packager/cli/Main.java:191-195 | an exact display name wins, and its first holder is chosen |
| Cli.UniqueJobName | packager-cli/src/main/java/io/github/fichil/packager/cli/Main.java:197-211 | failing that, a job name held by exactly one job selects that job |
| Cli.AmbiguousJobName | packager-cli/src/main/java/io/github/fichil/packager/cli/Main.java:202-207 | a job name held by two jobs selects nothing, even when a display name matches ignoring case |
| Cli.CaseInsensitiveFallback | packager-cli/src/main/java/io/github/fichil/packager/cli/Main.java:213-220 | failing both exact matches, the first display name equal ignoring case is chosen |
| Cli.ListedNameFound | packager-cli/src/main/java/io/github/fichil/packager/cli/Main.java:188-223 | typing a listed display name always selects a job shown under exactly that name |
| Cli.FindJobByName | packager-cli/src/main/java/io/github/fichil/packager/cli/Main.java:188-223 | `findJobByName` with its three passes returns `FindByName` |
| Cli.DisplayPass | packager-cli/src/main/java/io/github/fichil/packager/cli/Main.java:192-195 | the first pass returns the first exact display name |
| Cli.JobNamePass | packager-cli/src/main/java/io/github/fichil/packager/cli/Main.java:198-210 | the second pass gives up exactly when two jobs carry the name; otherwise it returns the only holder, or none |
| Cli.IgnoreCasePass | packager-cli/src/main/java/io/github/fichil/packager/cli/Main.java:214-220 | the third pass returns the first display name equal ignoring case |
| Cli.PickToken | packager-cli/src/main/java/io/github/fichil/packager/cli/Main.java:167-178 | the job a trimmed token selects is one of the listed jobs |
| Cli.Pick | packager-cli/src/main/java/io/github/fichil/packager/cli/Main.java:162-178 | the job a piece selects is one of the listed jobs; a blank piece selects nothing, as the skip at Main.java:163-165 |
| Cli.PickTokenAsWritten | packager-cli/src/main/java/io/github/fichil/packager/cli/Main.java:167-178 | a trimmed token as written: it throws only on a number beyond `int`; a job it selects is a listed job |
| Cli.PickAsWritten | packager-cli/src/main/java/io/github/fichil/packager/cli/Main.java:162-178 | one piece as written: a blank piece is skipped, it throws only on a number beyond `int`, and a job it selects is a listed job |
| Cli.PickAgrees | packager-cli/src/main/java/io/github/fichil/packager/cli/Main.java:170-174 | the code as written throws exactly on a number beyond `int`; on every other piece it agrees with the corrected `Pick` |
| Cli.HugePositionThrows | packager-cli/src/main/java/io/github/fichil/packager/cli/Main.java:170-171 | a position beyond `int`, such as 2147483648, makes the code as written throw instead of skipping the piece |
| Cli.HugeTokenThrows | packager-cli/src/main/java/io/github/fichil/packager/cli/Main.java:170-171 | the same at token level |
| Cli.PickPosition | packager-cli/src/main/java/io/github/fichil/packager/cli/Main.java:170-174 | a listed position from 1 to the number of jobs selects the job listed there |
| Cli.PickOutOfRange | packager-cli/src/main/java/io/github/fichil/packager/cli/Main.java:170-176 | position 0 and any position past the list select nothing; the code as written skips them too while the number fits in an `int` |
| Cli.Select | packager-cli/src/main/java/io/github/fichil/packager/cli/Main.java:155-186 | `resolveSelectedJobs`: a null or blank input selects nothing; otherwise only listed jobs, at most one per backslash-separated piece |
| Cli.Picks | packager-cli/src/main/java/io/github/fichil/packager/cli/Main.java:161-183 | the pieces select listed jobs only, at most one per piece |
| Cli.PicksPositions | packager-cli/src/main/java/io/github/fichil/packager/cli/Main.java:161-183 | a list of valid positions selects those jobs in the order typed |
| Cli.SelectPositions | packager-cli/src/main/java/io/github/fichil/packager/cli/Main.java:155-186 | the input `1\3\5` selects jobs 1, 3 and 5 in that order, duplicates kept |
| Cli.ResolveSelectedJobs | packager-cli/src/main/java/io/github/fichil/packager/cli/Main.java:155-186 | `resolveSelectedJobs` equals `Select`: blank input selects nothing; otherwise the backslash-separated pieces in order |
| Cli.PickAll | packager-cli/src/main/java/io/github/fichil/packager/cli/Main.java:161-183 | the loop appends what each piece selects |
| Cli.PickPart | packager-cli/src/main/java/io/github/fichil/packager/cli/Main.java:162-165 | one turn of the loop trims the piece and skips a blank one |
| Cli.PickTokenOf | packager-cli/src/main/java/io/github/fichil/packager/cli/Main.java:167-178 | a number selects by position, anything else by name |
| Cli.Answer | packager-cli/src/main/java/io/github/fichil/packager/cli/Main.java:233-236 | y, yes, true and 1 answer yes; n, no, false and 0 answer no; any other answer keeps the default |
| Cli.YesNo | packager-cli/src/main/java/io/github/fichil/packager/cli/Main.java:225-237 | `askYesNo` once the line is read: a yes word (any case, any padding) answers yes, a no word answers no, and the answer differs from the default only on such a word |
| Cli.YesNoIgnoresCase | packager-cli/src/main/java/io/github/fichil/packager/cli/Main.java:230 | the answer does not depend on the case it was typed in |
| Text.Trim | packager-cli/src/main/java/io/github/fichil/packager/cli/Main.java:258 | `String.trim`: the result neither starts nor ends with a character at or below U+0020 |
| Text.TrimStartThenEnd | packager-cli/src/main/java/io/github/fichil/packager/cli/Main.java:258 | trimming is stripping the front, then the back |
| Text.BlankIffAllTrimmable | packager-cli/src/main/java/io/github/fichil/packager/cli/Main.java:257-259 | `isBlank` holds exactly when every character is at or below U+0020 |
| Text.TrimIdempotent | packager-cli/src/main/java/io/github/fichil/packager/cli/Main.java:264 | trimming twice is trimming once |
| Text.TrimToLowerCommute | packager-cli/src/main/java/io/github/fichil/packager/cli/Main.java:230 | `trim` and ASCII `toLowerCase` commute |
| Text.ToLower | packager-cli/src/main/java/io/github/fichil/packager/cli/Main.java:214 | lower-casing keeps the length and maps each character |
| Text.Split | packager-cli/src/main/java/io/github/fichil/packager/cli/Main.java:158 | the pieces contain no separator |
| Text.JoinSplit | packager-cli/src/main/java/io/github/fichil/packager/cli/Main.java:158 | the pieces joined with the separator give back the text |
| Text.SplitJoin | packager-cli/src/main/java/io/github/fichil/packager/cli/Main.java:158 | separator-free pieces are split back out of their join |

## Left out

- Reading files is left out. YAML parsing (`ConfigLoader`, Jackson), `package.yml`'s existence check and include path resolution happen before the model starts. The parsed beans and the include files are parameters: `None` stands for an include file that could not be read.
- Processes, their exit codes and their effect on the disk come from the `ExecEnv` parameter. Standard output, logging and `inheritIO` are not modelled. The announced `[PLAN]` lines are kept as a list of actions, not as text.
- Null lists and maps in the configuration are modelled as empty, because every reader treats the two alike. A null value in the variable table is modelled as a missing key.
- VarResolver.ReplaceAll: the matcher's position is the text not yet scanned rather than an index.
- The clock is the `now` field of the disk. It stamps created directories and copied files.
- Text.ToLower: only ASCII letters are lower-cased; Java's Unicode case mapping is not modelled.
- Text.Split: `String.split` also drops trailing empty pieces. The model keeps them, and they are blank, so the selection skips them either way.
- ArtifactCopier.CopySpec: `REPLACE_EXISTING` over an empty directory is modelled as a replacement. A target that is a non-empty directory fails. File attributes and symbolic links are not modelled.
- FileSystem.PathOf: paths are their name segments, with empty and `.` segments dropped. There is no distinction between relative and absolute paths, and `..` is kept as a name rather than resolved.
- JobRunner.MavenDir: "below the checkout" holds by names only, because `..` in a work directory is not resolved.
- ArtifactFinder.ScanDir: the disk is a finite map without symbolic links. `isDirectory` follows links, so in Java a link cycle below a checkout makes the scan recurse without end; the model always terminates.
- CompositeConfigLoader.Merge: an include's variable with a null value (`KEY: ~`) is treated as absent, so the global value shows through and `${KEY}` is substituted. In Java `putAll` stores the null, which hides the global value, and `${KEY}` stays verbatim.
- ProcessExec.Execute: a failed command leaves the disk unchanged. A real clone or build that fails can leave files behind, which the model does not capture.
- Main's interactive flow is left out: reading lines from standard input, printing the job list and `System.exit`. Only the decisions it takes on the values read are modelled (`YesNo`, `Select`, `TrimQuotes`).
- `GitExecutor.remoteBranchExists` and `detectRemoteName` are left out, because nothing calls them.
- JobRunnerProps.DryRunParity: parity is proved only over existing checkouts, an inert real world and an output directory apart from every checkout. With missing checkouts the dry run skips the synchronisation, so the traces differ.
- Cli.ResolveSelectedJobs follows the corrected `Pick`: a number beyond `int` is skipped instead of throwing (see Findings).

## Findings

| source | as written | input that shows it | evidently intended | confidence | as-written member | corrected member |
|---|---|---|---|---|---|---|
| packager-cli/src/main/java/io/github/fichil/packager/cli/Main.java:262-269 | a lone quote both starts and ends the trimmed string, so `substring(1, 0)` throws `StringIndexOutOfBoundsException` | `"` | a single quote character is not a quoted value and is returned as it is | not executed | Cli.LoneQuoteThrows | Cli.TrimQuotesAgree |
| packager-cli/src/main/java/io/github/fichil/packager/cli/Main.java:170-174 | a token of digits beyond `int` passes `matches("\\d+")`, and `Integer.parseInt` then throws `NumberFormatException` | `2147483648` | invalid items are ignored, as the method's comment says | not executed | Cli.HugePositionThrows | Cli.PickOutOfRange |
