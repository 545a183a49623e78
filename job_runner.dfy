/**
  * JobRunner: one job run. Each repository is cloned when absent (only planned in dry-run),
  * synchronised and built, in declared order; then each artifact is copied, either from its
  * configured path or from the wars discovered in its repository.
  */
module JobRunner {
  import opened Wrappers
  import opened Text
  import opened FileSystem
  import opened ProcessExec
  import opened Config
  import VarResolver
  import opened Git
  import opened Maven
  import opened ArtifactFinder
  import opened ArtifactCopier

  /** The `[PLAN]` lines, in the order they are announced. */
  datatype Action =
    | Clone(url: string, dir: Path, shallow: bool)
    | Checkout(branch: string, repo: Option<string>)
    | Build(goals: seq<string>, dir: Path)
    | Discover(repoDir: Path)
    | Copy(from: Path, to: Path, auto: bool)

  /** The exceptions `runJob` lets escape. */
  datatype JobError =
    | NullJob
    | BlankRepoPath(repo: Option<string>)
    | BlankBranch(repo: Option<string>)
    | MissingGitUrl(repo: Option<string>)
    | NotADirectory(repo: Option<string>)
    | CommandFailed(failure: CommandFailure)
    | BlankOutputDir
    | UnknownArtifactRepo(repo: Option<string>)
    | NullArtifactPath(repo: Option<string>)
    | NoWarFound(repoDir: Path)
    | CopyFailed(error: CopyError)

  /** `repoNameToDir`; a repository without a name is registered under null. */
  type Dirs = map<Option<string>, Path>

  /** What a run observes and changes: the disk and command trace, and the announced plan. */
  datatype World = World(exec: ExecState, plan: seq<Action>)

  /**
    * What a run is given: the variables, the runner's own dry-run flag, the process
    * executor's world, the Maven executable, the copier's dry-run flag and the clock.
    */
  datatype Setup = Setup(vars: map<string, string>, dryRun: bool, env: ExecEnv, mvnExe: string, copierDry: bool, now: int)

  /** Where a repository phase stands: its outcome, the world, and the repositories registered so far. */
  datatype Step = Step(out: Outcome<JobError>, w: World, dirs: Dirs)

  function Res(s: Setup, x: Option<string>): Option<string> {
    VarResolver.ResolveOpt(x, s.vars)
  }

  /** `"true".equalsIgnoreCase(x)`. */
  predicate IsTrueIgnoreCase(x: Option<string>) {
    x.Some? && EqualsIgnoreCase("true", x.value)
  }

  /** One repository: validation, then clone or registration, then synchronisation and build. */
  function RepoStep(s: Setup, r: RepoConfig, w: World, dirs: Dirs, skipTests: bool): Step {
    var path := Res(s, r.path);
    var branch := Res(s, r.branch);
    var url := Res(s, r.gitUrl);
    var shallow := IsTrueIgnoreCase(Res(s, r.shallow));
    if IsBlankOpt(path) then Step(Fail(BlankRepoPath(r.name)), w, dirs)
    else if IsBlankOpt(branch) then Step(Fail(BlankBranch(r.name)), w, dirs)
    else Locate(s, r, branch.value, PathOf(path.value), url, shallow, w, dirs, skipTests)
  }

  /** An existing checkout is used; a missing one needs a URL. */
  function Locate(s: Setup, r: RepoConfig, branch: string, repoDir: Path, url: Option<string>, shallow: bool, w: World, dirs: Dirs, skipTests: bool): Step {
    if repoDir in w.exec.fs then SyncAndBuild(s, r, branch, repoDir, w, dirs, skipTests)
    else if IsBlankOpt(url) then Step(Fail(MissingGitUrl(r.name)), w, dirs)
    else CloneMissing(s, r, branch, repoDir, url.value, shallow, w, dirs, skipTests)
  }

  /**
    * A missing checkout: announced; in dry-run only registered, otherwise its parent is
    * created (quietly, when absent), it is cloned, and the run goes on with it.
    */
  function CloneMissing(s: Setup, r: RepoConfig, branch: string, repoDir: Path, url: string, shallow: bool, w: World, dirs: Dirs, skipTests: bool): Step {
    var plan := w.plan + [Clone(url, repoDir, shallow)];
    if s.dryRun then Step(Pass, World(w.exec, plan), dirs[r.name := repoDir])
    else
      var fs := if repoDir != [] && Parent(repoDir) !in w.exec.fs then MkDirsQuiet(w.exec.fs, Parent(repoDir), s.now) else w.exec.fs;
      var (o, st) := CloneSpec(s.env, ExecState(fs, w.exec.trace), url, repoDir, shallow);
      if o.Fail? then Step(Fail(CommandFailed(o.error)), World(st, plan), dirs)
      else SyncAndBuild(s, r, branch, repoDir, World(st, plan), dirs, skipTests)
  }

  /** The directory check, registration, `checkoutAndPull` and the optional build. */
  function SyncAndBuild(s: Setup, r: RepoConfig, branch: string, repoDir: Path, w: World, dirs: Dirs, skipTests: bool): Step {
    if !IsDir(w.exec.fs, repoDir) then Step(Fail(NotADirectory(r.name)), w, dirs)
    else
      var dirs1 := dirs[r.name := repoDir];
      var plan := w.plan + [Checkout(branch, r.name)];
      var (o, st) := SyncSpec(s.env, w.exec, repoDir, branch);
      if o.Fail? then Step(Fail(CommandFailed(o.error)), World(st, plan), dirs1)
      else
        var (o2, w2) := BuildStep(s, r.maven, repoDir, World(st, plan), skipTests);
        Step(o2, w2, dirs1)
  }

  /** The build directory: the checkout itself for ".", otherwise the resolved path below it. */
  function MavenDir(s: Setup, m: MavenConfig, repoDir: Path): (d: Path)
    ensures repoDir <= d
  {
    var wd := VarResolver.Resolve(m.workDir.GetOr("."), s.vars);
    if wd == "." then repoDir else Under(repoDir, wd)
  }

  /** The build, only when there are goals. */
  function BuildStep(s: Setup, m: Option<MavenConfig>, repoDir: Path, w: World, skipTests: bool): (Outcome<JobError>, World) {
    if m.None? || m.value.goals == [] then (Pass, w)
    else
      var dir := MavenDir(s, m.value, repoDir);
      var (o, st) := RunGoalsSpec(s.env, w.exec, s.mvnExe, dir, m.value.goals, skipTests);
      (if o.Fail? then Fail(CommandFailed(o.error)) else Pass, World(st, w.plan + [Build(m.value.goals, dir)]))
  }

  /** The repository loop; the first exception ends it. */
  function Repos(s: Setup, repos: seq<RepoConfig>, w: World, dirs: Dirs, skipTests: bool): Step
    decreases |repos|
  {
    if repos == [] then Step(Pass, w, dirs)
    else
      var st := RepoStep(s, repos[0], w, dirs, skipTests);
      if st.out.Fail? then st else Repos(s, repos[1..], st.w, st.dirs, skipTests)
  }

  /** The artifact phase, only when there is an artifact list with entries. */
  function Artifacts(s: Setup, a: Option<ArtifactsConfig>, w: World, dirs: Dirs): (r: (Outcome<JobError>, World))
    ensures r.1.exec.trace == w.exec.trace && w.plan <= r.1.plan
  {
    if a.None? || a.value.files == [] then (Pass, w)
    else
      var out := Res(s, a.value.outputDir);
      if IsBlankOpt(out) then (Fail(BlankOutputDir), w)
      else ArtifactLoop(s, PathOf(out.value), a.value.files, w, dirs)
  }

  /** The artifact loop; the first exception ends it. */
  function ArtifactLoop(s: Setup, outDir: Path, files: seq<ArtifactFile>, w: World, dirs: Dirs): (r: (Outcome<JobError>, World))
    ensures r.1.exec.trace == w.exec.trace && w.plan <= r.1.plan
    decreases |files|
  {
    if files == [] then (Pass, w)
    else
      var (o, w1) := ArtifactStep(s, outDir, files[0], w, dirs);
      if o.Fail? then (o, w1) else ArtifactLoop(s, outDir, files[1..], w1, dirs)
  }

  /** One artifact: the configured file if it exists, otherwise the discovered wars. */
  function ArtifactStep(s: Setup, outDir: Path, f: ArtifactFile, w: World, dirs: Dirs): (r: (Outcome<JobError>, World))
    ensures r.1.exec.trace == w.exec.trace && w.plan <= r.1.plan
  {
    if f.repo !in dirs then (Fail(UnknownArtifactRepo(f.repo)), w)
    else
      var repoDir := dirs[f.repo];
      var fromS := Res(s, f.from);
      var toS := Res(s, f.to);
      if fromS.None? || toS.None? then (Fail(NullArtifactPath(f.repo)), w)
      else
        var from := Under(repoDir, fromS.value);
        var to := Under(outDir, toS.value);
        if IsFile(w.exec.fs, from) then CopyStep(s, from, to, false, w)
        else Fallback(s, repoDir, toS.value, to, w)
  }

  /**
    * The configured file is missing: the wars of the checkout are discovered; a target
    * named like a war receives the newest one, any other target receives all of them.
    */
  function Fallback(s: Setup, repoDir: Path, toS: string, to: Path, w: World): (r: (Outcome<JobError>, World))
    ensures r.1.exec.trace == w.exec.trace && w.plan <= r.1.plan
  {
    var wars := ScanDir(w.exec.fs, repoDir);
    var w1 := World(w.exec, w.plan + [Discover(repoDir)]);
    if wars == [] then (Fail(NoWarFound(repoDir)), w1)
    else if EndsWith(ToLower(toS), ".war") then CopyStep(s, Newest(w.exec.fs, wars), to, true, w1)
    else CopyWars(s, wars, to, w1)
  }

  /** One announced copy. */
  function CopyStep(s: Setup, from: Path, to: Path, auto: bool, w: World): (r: (Outcome<JobError>, World))
    ensures r.1.exec.trace == w.exec.trace && r.1.plan == w.plan + [Copy(from, to, auto)]
  {
    var (o, fs) := CopySpec(s.copierDry, w.exec.fs, from, to, s.now);
    (if o.Fail? then Fail(CopyFailed(o.error)) else Pass, World(ExecState(fs, w.exec.trace), w.plan + [Copy(from, to, auto)]))
  }

  /** Every war into `toDir` under its own name, in discovery order; the first failure ends it. */
  function CopyWars(s: Setup, wars: seq<Path>, toDir: Path, w: World): (r: (Outcome<JobError>, World))
    requires forall i :: 0 <= i < |wars| ==> wars[i] != []
    ensures r.1.exec.trace == w.exec.trace && w.plan <= r.1.plan
    decreases |wars|
  {
    if wars == [] then (Pass, w)
    else
      var (o, w1) := CopyStep(s, wars[0], toDir + [Name(wars[0])], true, w);
      if o.Fail? then (o, w1) else CopyWars(s, wars[1..], toDir, w1)
  }

  /**
    * `chooseBestWar` on positions: the first non-null war with the greatest modification
    * time; None when every entry is null.
    */
  function NewestIndex(fs: FS, ws: seq<Option<Path>>): (r: Option<nat>)
    ensures r.None? <==> forall i :: 0 <= i < |ws| ==> ws[i].None?
    ensures r.Some? ==> r.value < |ws| && ws[r.value].Some?
    ensures r.Some? ==> forall i :: 0 <= i < |ws| && ws[i].Some? ==> LastModified(fs, ws[i].value) <= LastModified(fs, ws[r.value].value)
    ensures r.Some? ==> forall i :: 0 <= i < r.value && ws[i].Some? ==> LastModified(fs, ws[i].value) < LastModified(fs, ws[r.value].value)
  {
    if ws == [] then None
    else
      var n := |ws| - 1;
      var prev := NewestIndex(fs, ws[..n]);
      assert forall i :: 0 <= i < n ==> ws[..n][i] == ws[i];
      if ws[n].None? then prev
      else if prev.None? || LastModified(fs, ws[n].value) > LastModified(fs, ws[prev.value].value) then Some(n)
      else prev
  }

  /** The discovered wars as the non-null list `chooseBestWar` is given. */
  function Somes(wars: seq<Path>): (r: seq<Option<Path>>)
    ensures |r| == |wars| && forall i :: 0 <= i < |wars| ==> r[i] == Some(wars[i])
  {
    seq(|wars|, i requires 0 <= i < |wars| => Some(wars[i]))
  }

  /** The war chosen for a single-file target. */
  function Newest(fs: FS, wars: seq<Path>): (r: Path)
    requires wars != []
    ensures r in wars
    ensures forall v :: v in wars ==> LastModified(fs, v) <= LastModified(fs, r)
  {
    var ws := Somes(wars);
    assert ws[0].Some?;
    var i := NewestIndex(fs, ws).value;
    assert forall v :: v in wars ==> exists j :: 0 <= j < |wars| && ws[j] == Some(v);
    wars[i]
  }

  /** `runJob(job, skipTests)`: the repositories first, then the artifacts. */
  function RunJobSpec(s: Setup, job: Option<JobConfig>, skipTests: bool, w: World): (Outcome<JobError>, World) {
    if job.None? then (Fail(NullJob), w)
    else
      var st := Repos(s, job.value.repos, w, map[], skipTests);
      if st.out.Fail? then (st.out, st.w)
      else Artifacts(s, job.value.artifacts, st.w, st.dirs)
  }

  /** `chooseBestWar(wars)`. */
  method ChooseBestWar(fs: FS, wars: seq<Option<Path>>) returns (best: Option<Path>)
    ensures best == (var j := NewestIndex(fs, wars); if j.None? then None else wars[j.value])
  {
    best := None;
    var bestTime := -1;
    for i := 0 to |wars|
      invariant best == (var j := NewestIndex(fs, wars[..i]); if j.None? then None else wars[j.value])
      invariant best.Some? ==> bestTime == LastModified(fs, best.value)
    {
      assert wars[..i + 1][..i] == wars[..i];
      var w := wars[i];
      if w.None? {
        continue;
      }
      var t := LastModified(fs, w.value);
      if best.None? || t > bestTime {
        best := w;
        bestTime := t;
      }
    }
    assert wars[..|wars|] == wars;
  }

  /**
    * `JobRunner`. Its collaborators are wired to one process executor and one disk, as the
    * command line builds them; `plan` collects the announced actions.
    */
  class JobRunner {
    const git: GitExecutor
    const mvn: MavenExecutor
    const copier: ArtifactCopier
    const vars: map<string, string>
    const dryRun: bool
    var plan: seq<Action>

    ghost predicate Valid()
      reads this, git, mvn, copier
    {
      mvn.exec == git.pe && copier.disk == git.pe.disk
    }

    function Setting(): Setup
      reads this, git, git.pe, mvn, copier
    {
      Setup(vars, dryRun, git.pe.Env(), mvn.executable, copier.dryRun, git.pe.disk.now)
    }

    function State(): World
      reads this, git, git.pe, git.pe.disk
    {
      World(git.pe.State(), plan)
    }

    constructor (git: GitExecutor, mvn: MavenExecutor, copier: ArtifactCopier, vars: map<string, string>, dryRun: bool)
      requires mvn.exec == git.pe && copier.disk == git.pe.disk
      ensures Valid() && plan == []
      ensures this.git == git && this.mvn == mvn && this.copier == copier && this.vars == vars && this.dryRun == dryRun
    {
      this.git := git;
      this.mvn := mvn;
      this.copier := copier;
      this.vars := vars;
      this.dryRun := dryRun;
      plan := [];
    }

    /** `runJob(job, skipTests)`. */
    method RunJob(job: Option<JobConfig>, skipTests: bool) returns (out: Outcome<JobError>)
      requires Valid()
      modifies this`plan, git.pe`trace, git.pe.disk`nodes
      ensures (out, State()) == RunJobSpec(Setting(), job, skipTests, old(State()))
    {
      if job.None? {
        return Fail(NullJob);
      }
      var repos := job.value.repos;
      var dirs: Dirs := map[];
      for i := 0 to |repos|
        invariant Repos(Setting(), repos, old(State()), map[], skipTests) == Repos(Setting(), repos[i..], State(), dirs, skipTests)
      {
        assert repos[i..][1..] == repos[i + 1..];
        out, dirs := RunRepo(repos[i], dirs, skipTests);
        if out.Fail? {
          return;
        }
      }
      out := RunArtifacts(job.value.artifacts, dirs);
    }

    /** One turn of the repository loop. */
    method RunRepo(r: RepoConfig, dirs: Dirs, skipTests: bool) returns (out: Outcome<JobError>, dirs': Dirs)
      requires Valid()
      modifies this`plan, git.pe`trace, git.pe.disk`nodes
      ensures Step(out, State(), dirs') == RepoStep(Setting(), r, old(State()), dirs, skipTests)
    {
      var path := VarResolver.ResolveText(r.path, vars);
      var branch := VarResolver.ResolveText(r.branch, vars);
      var url := VarResolver.ResolveText(r.gitUrl, vars);
      var shallowStr := VarResolver.ResolveText(r.shallow, vars);
      var shallow := shallowStr.Some? && EqualsIgnoreCase("true", shallowStr.value);
      if path.None? || IsBlank(path.value) {
        return Fail(BlankRepoPath(r.name)), dirs;
      }
      if branch.None? || IsBlank(branch.value) {
        return Fail(BlankBranch(r.name)), dirs;
      }
      out, dirs' := LocateRepo(r, branch.value, PathOf(path.value), url, shallow, dirs, skipTests);
    }

    method LocateRepo(r: RepoConfig, branch: string, repoDir: Path, url: Option<string>, shallow: bool, dirs: Dirs, skipTests: bool)
      returns (out: Outcome<JobError>, dirs': Dirs)
      requires Valid()
      modifies this`plan, git.pe`trace, git.pe.disk`nodes
      ensures Step(out, State(), dirs') == Locate(Setting(), r, branch, repoDir, url, shallow, old(State()), dirs, skipTests)
    {
      if repoDir in git.pe.disk.nodes {
        out, dirs' := SyncAndBuildRepo(r, branch, repoDir, dirs, skipTests);
        return;
      }
      if url.None? || IsBlank(url.value) {
        return Fail(MissingGitUrl(r.name)), dirs;
      }
      out, dirs' := CloneMissingRepo(r, branch, repoDir, url.value, shallow, dirs, skipTests);
    }

    method CloneMissingRepo(r: RepoConfig, branch: string, repoDir: Path, url: string, shallow: bool, dirs: Dirs, skipTests: bool)
      returns (out: Outcome<JobError>, dirs': Dirs)
      requires Valid()
      modifies this`plan, git.pe`trace, git.pe.disk`nodes
      ensures Step(out, State(), dirs') == CloneMissing(Setting(), r, branch, repoDir, url, shallow, old(State()), dirs, skipTests)
    {
      var disk := git.pe.disk;
      if repoDir != [] && Parent(repoDir) !in disk.nodes && !dryRun {
        disk.nodes := MkDirsQuiet(disk.nodes, Parent(repoDir), disk.now);
      }
      plan := plan + [Clone(url, repoDir, shallow)];
      if dryRun {
        return Pass, dirs[r.name := repoDir];
      }
      var o := git.CloneRepo(url, repoDir, shallow);
      if o.Fail? {
        return Fail(CommandFailed(o.error)), dirs;
      }
      out, dirs' := SyncAndBuildRepo(r, branch, repoDir, dirs, skipTests);
    }

    /** The rest of the turn once the checkout is there. */
    method SyncAndBuildRepo(r: RepoConfig, branch: string, repoDir: Path, dirs: Dirs, skipTests: bool) returns (out: Outcome<JobError>, dirs': Dirs)
      requires Valid()
      modifies this`plan, git.pe`trace, git.pe.disk`nodes
      ensures Step(out, State(), dirs') == SyncAndBuild(Setting(), r, branch, repoDir, old(State()), dirs, skipTests)
    {
      if !(repoDir in git.pe.disk.nodes && git.pe.disk.nodes[repoDir].Dir?) {
        return Fail(NotADirectory(r.name)), dirs;
      }
      dirs' := dirs[r.name := repoDir];
      plan := plan + [Checkout(branch, r.name)];
      var o := git.CheckoutAndPull(repoDir, branch);
      if o.Fail? {
        return Fail(CommandFailed(o.error)), dirs';
      }
      out := BuildRepo(r.maven, repoDir, skipTests);
    }

    /** The optional build of a checkout. */
    method BuildRepo(maven: Option<MavenConfig>, repoDir: Path, skipTests: bool) returns (out: Outcome<JobError>)
      requires Valid()
      modifies this`plan, git.pe`trace, git.pe.disk`nodes
      ensures (out, State()) == BuildStep(Setting(), maven, repoDir, old(State()), skipTests)
    {
      if maven.None? || maven.value.goals == [] {
        return Pass;
      }
      var m := maven.value;
      var workDir := VarResolver.ResolveText(Some(m.workDir.GetOr(".")), vars);
      var mvnDir := if workDir.value == "." then repoDir else Under(repoDir, workDir.value);
      plan := plan + [Build(m.goals, mvnDir)];
      var o := mvn.RunGoals(mvnDir, m.goals, skipTests);
      out := if o.Fail? then Fail(CommandFailed(o.error)) else Pass;
    }

    /** The artifact phase. */
    method RunArtifacts(a: Option<ArtifactsConfig>, dirs: Dirs) returns (out: Outcome<JobError>)
      requires Valid()
      modifies this`plan, git.pe.disk`nodes
      ensures (out, State()) == Artifacts(Setting(), a, old(State()), dirs)
    {
      if a.None? || a.value.files == [] {
        return Pass;
      }
      var outDirStr := VarResolver.ResolveText(a.value.outputDir, vars);
      if outDirStr.None? || IsBlank(outDirStr.value) {
        return Fail(BlankOutputDir);
      }
      var outDir := PathOf(outDirStr.value);
      var files := a.value.files;
      out := Pass;
      for i := 0 to |files|
        invariant out == Pass
        invariant ArtifactLoop(Setting(), outDir, files, old(State()), dirs) == ArtifactLoop(Setting(), outDir, files[i..], State(), dirs)
      {
        assert files[i..][1..] == files[i + 1..];
        out := RunArtifact(outDir, files[i], dirs);
        if out.Fail? {
          return;
        }
      }
    }

    /** One turn of the artifact loop. */
    method RunArtifact(outDir: Path, f: ArtifactFile, dirs: Dirs) returns (out: Outcome<JobError>)
      requires Valid()
      modifies this`plan, git.pe.disk`nodes
      ensures (out, State()) == ArtifactStep(Setting(), outDir, f, old(State()), dirs)
    {
      if f.repo !in dirs {
        return Fail(UnknownArtifactRepo(f.repo));
      }
      var repoDir := dirs[f.repo];
      var fromStr := VarResolver.ResolveText(f.from, vars);
      var toStr := VarResolver.ResolveText(f.to, vars);
      if fromStr.None? || toStr.None? {
        return Fail(NullArtifactPath(f.repo));
      }
      var from := Under(repoDir, fromStr.value);
      var to := Under(outDir, toStr.value);
      var fs := git.pe.disk.nodes;
      if from in fs && fs[from].File? {
        out := CopyOne(from, to, false);
        return;
      }
      out := FallbackCopy(repoDir, toStr.value, to);
    }

    /** The war discovery branch of the artifact loop. */
    method FallbackCopy(repoDir: Path, toStr: string, to: Path) returns (out: Outcome<JobError>)
      requires Valid()
      modifies this`plan, git.pe.disk`nodes
      ensures (out, State()) == Fallback(Setting(), repoDir, toStr, to, old(State()))
    {
      var fs := git.pe.disk.nodes;
      plan := plan + [Discover(repoDir)];
      var wars := FindWars(fs, repoDir);
      if wars == [] {
        return Fail(NoWarFound(repoDir));
      }
      var toLooksLikeFile := EndsWith(ToLower(toStr), ".war");
      if toLooksLikeFile {
        var chosen := ChooseBestWar(fs, Somes(wars));
        out := CopyOne(chosen.value, to, true);
      } else {
        forall i | 0 <= i < |wars|
          ensures wars[i] != []
        {
          assert wars[i] in ScanDir(fs, repoDir);
        }
        out := CopyAll(wars, to);
      }
    }

    /** An announced copy. */
    method CopyOne(from: Path, to: Path, auto: bool) returns (out: Outcome<JobError>)
      requires Valid()
      modifies this`plan, git.pe.disk`nodes
      ensures (out, State()) == CopyStep(Setting(), from, to, auto, old(State()))
    {
      plan := plan + [Copy(from, to, auto)];
      var o := copier.Copy(from, to);
      out := if o.Fail? then Fail(CopyFailed(o.error)) else Pass;
    }

    /** The loop that copies every discovered war into the target directory. */
    method CopyAll(wars: seq<Path>, toDir: Path) returns (out: Outcome<JobError>)
      requires Valid()
      requires forall i :: 0 <= i < |wars| ==> wars[i] != []
      modifies this`plan, git.pe.disk`nodes
      ensures (out, State()) == CopyWars(Setting(), wars, toDir, old(State()))
    {
      out := Pass;
      for k := 0 to |wars|
        invariant out == Pass
        invariant CopyWars(Setting(), wars, toDir, old(State())) == CopyWars(Setting(), wars[k..], toDir, State())
      {
        assert wars[k..][1..] == wars[k + 1..];
        var war := wars[k];
        var target := toDir + [Name(war)];
        out := CopyOne(war, target, true);
        if out.Fail? {
          return;
        }
      }
    }
  }
}
