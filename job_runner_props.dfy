/**
  * What a job run promises: the order in which a repository entry is validated, what a
  * missing checkout leads to, where a build runs, how the discovered wars are copied, that a
  * dry run leaves the disk alone, and that over existing checkouts a dry run announces what
  * a real run announces and issues the same commands.
  */
module JobRunnerProps {
  import opened Wrappers
  import opened Text
  import opened FileSystem
  import opened ProcessExec
  import opened Config
  import VarResolver
  import opened Git
  import opened Maven
  import opened ArtifactFinder
  import opened ArtifactCopier
  import opened JobRunner

  lemma PrefixTrans<T>(a: seq<T>, b: seq<T>, c: seq<T>)
    requires a <= b && b <= c
    ensures a <= c
  {
    assert a == c[..|a|] by {
      assert b[..|a|] == c[..|b|][..|a|];
    }
  }

  // ---------------------------------------------------------------- validation order

  /** A blank resolved path is refused before anything is announced, run or registered. */
  lemma BlankPathRejected(s: Setup, r: RepoConfig, w: World, dirs: Dirs, skipTests: bool)
    requires IsBlankOpt(Res(s, r.path))
    ensures RepoStep(s, r, w, dirs, skipTests) == Step(Fail(BlankRepoPath(r.name)), w, dirs)
  {
  }

  /** So is a blank resolved branch, once the path is known to be there. */
  lemma BlankBranchRejected(s: Setup, r: RepoConfig, w: World, dirs: Dirs, skipTests: bool)
    requires !IsBlankOpt(Res(s, r.path)) && IsBlankOpt(Res(s, r.branch))
    ensures RepoStep(s, r, w, dirs, skipTests) == Step(Fail(BlankBranch(r.name)), w, dirs)
  {
  }

  /** A missing checkout without a URL is refused, whatever the dry-run setting. */
  lemma MissingUrlRejected(s: Setup, r: RepoConfig, w: World, dirs: Dirs, skipTests: bool)
    requires !IsBlankOpt(Res(s, r.path)) && !IsBlankOpt(Res(s, r.branch))
    requires PathOf(Res(s, r.path).value) !in w.exec.fs && IsBlankOpt(Res(s, r.gitUrl))
    ensures RepoStep(s, r, w, dirs, skipTests) == Step(Fail(MissingGitUrl(r.name)), w, dirs)
  {
  }

  /** A null job is refused, and so is a job whose first repository has a blank path: untouched. */
  lemma JobValidation(s: Setup, job: Option<JobConfig>, skipTests: bool, w: World)
    ensures job.None? ==> RunJobSpec(s, job, skipTests, w) == (Fail(NullJob), w)
    ensures job.Some? && job.value.repos != [] && IsBlankOpt(Res(s, job.value.repos[0].path)) ==>
      RunJobSpec(s, job, skipTests, w) == (Fail(BlankRepoPath(job.value.repos[0].name)), w)
  {
  }

  // ---------------------------------------------------------------- missing checkouts

  /** In a dry run a missing checkout is announced and registered, and nothing else happens. */
  lemma MissingRepoDryRun(s: Setup, r: RepoConfig, w: World, dirs: Dirs, skipTests: bool)
    requires s.dryRun
    requires !IsBlankOpt(Res(s, r.path)) && !IsBlankOpt(Res(s, r.branch)) && !IsBlankOpt(Res(s, r.gitUrl))
    requires PathOf(Res(s, r.path).value) !in w.exec.fs
    ensures var dir := PathOf(Res(s, r.path).value);
      RepoStep(s, r, w, dirs, skipTests) ==
      Step(Pass, World(w.exec, w.plan + [Clone(Res(s, r.gitUrl).value, dir, IsTrueIgnoreCase(Res(s, r.shallow)))]),
        dirs[r.name := dir])
  {
  }

  /** Synchronising and building only ever extend the plan and the trace. */
  lemma SyncAndBuildExtends(s: Setup, r: RepoConfig, branch: string, repoDir: Path, w: World, dirs: Dirs, skipTests: bool)
    ensures var st := SyncAndBuild(s, r, branch, repoDir, w, dirs, skipTests);
      w.plan <= st.w.plan && w.exec.trace <= st.w.exec.trace
  {
    if IsDir(w.exec.fs, repoDir) {
      var plan := w.plan + [Checkout(branch, r.name)];
      var (o, st) := SyncSpec(s.env, w.exec, repoDir, branch);
      SyncShape(s.env, w.exec, repoDir, branch);
      if o.Pass? && r.maven.Some? && r.maven.value.goals != [] {
        var dir := MavenDir(s, r.maven.value, repoDir);
        RunGoalsIssues(s.env, st, s.mvnExe, dir, r.maven.value.goals, skipTests);
        var (_, st2) := RunGoalsSpec(s.env, st, s.mvnExe, dir, r.maven.value.goals, skipTests);
        PrefixTrans(w.exec.trace, st.trace, st2.trace);
        PrefixTrans(w.plan, plan, plan + [Build(r.maven.value.goals, dir)]);
      }
    }
  }

  /**
    * In a real run a missing checkout is announced and its clone is the first command issued:
    * from the parent directory, with `--depth 1` exactly when "shallow" reads "true" in any case.
    */
  lemma MissingRepoCloned(s: Setup, r: RepoConfig, w: World, dirs: Dirs, skipTests: bool)
    requires !s.dryRun
    requires !IsBlankOpt(Res(s, r.path)) && !IsBlankOpt(Res(s, r.branch)) && !IsBlankOpt(Res(s, r.gitUrl))
    requires PathOf(Res(s, r.path).value) !in w.exec.fs
    ensures var dir := PathOf(Res(s, r.path).value);
      var url := Res(s, r.gitUrl).value;
      var shallow := IsTrueIgnoreCase(Res(s, r.shallow));
      var st := RepoStep(s, r, w, dirs, skipTests);
      w.plan + [Clone(url, dir, shallow)] <= st.w.plan &&
      w.exec.trace + [GitCommand(ParentDir(dir), CloneArgs(url, dir, shallow))] <= st.w.exec.trace
  {
    CloneMissingCloned(s, r, Res(s, r.branch).value, PathOf(Res(s, r.path).value), Res(s, r.gitUrl).value,
      IsTrueIgnoreCase(Res(s, r.shallow)), w, dirs, skipTests);
  }

  lemma CloneMissingCloned(s: Setup, r: RepoConfig, branch: string, dir: Path, url: string, shallow: bool, w: World, dirs: Dirs, skipTests: bool)
    requires !s.dryRun
    ensures var st := CloneMissing(s, r, branch, dir, url, shallow, w, dirs, skipTests);
      w.plan + [Clone(url, dir, shallow)] <= st.w.plan &&
      w.exec.trace + [GitCommand(ParentDir(dir), CloneArgs(url, dir, shallow))] <= st.w.exec.trace
  {
    var plan := w.plan + [Clone(url, dir, shallow)];
    var fs := if dir != [] && Parent(dir) !in w.exec.fs then MkDirsQuiet(w.exec.fs, Parent(dir), s.now) else w.exec.fs;
    var (o, st) := CloneSpec(s.env, ExecState(fs, w.exec.trace), url, dir, shallow);
    if o.Pass? {
      SyncAndBuildExtends(s, r, branch, dir, World(st, plan), dirs, skipTests);
      var fin := SyncAndBuild(s, r, branch, dir, World(st, plan), dirs, skipTests);
      PrefixTrans(st.trace, st.trace, fin.w.exec.trace);
    }
  }

  /** A path that exists but is not a directory is refused before it is registered or synchronised. */
  lemma NotADirectoryRejected(s: Setup, r: RepoConfig, w: World, dirs: Dirs, skipTests: bool)
    requires !IsBlankOpt(Res(s, r.path)) && !IsBlankOpt(Res(s, r.branch))
    requires var dir := PathOf(Res(s, r.path).value); dir in w.exec.fs && !IsDir(w.exec.fs, dir)
    ensures RepoStep(s, r, w, dirs, skipTests) == Step(Fail(NotADirectory(r.name)), w, dirs)
  {
  }

  // ---------------------------------------------------------------- build directory

  /** Without a configured work directory the build runs in the checkout itself. */
  lemma DefaultBuildDir(s: Setup, m: MavenConfig, repoDir: Path)
    requires m.workDir.None?
    ensures MavenDir(s, m, repoDir) == repoDir
  {
    assert VarResolver.NoKnownToken(".", s.vars) by {
      forall i | 0 <= i < 1
        ensures !VarResolver.KnownAt("."[i..], s.vars)
      {
        assert "."[i..] == ".";
      }
    }
    VarResolver.NoKnownTokenResolvesToItself(".", s.vars);
  }

  // ---------------------------------------------------------------- automatic copies

  /** The copies announced for every discovered war, each into `toDir` under its own name. */
  function AutoCopies(wars: seq<Path>, toDir: Path): (r: seq<Action>)
    requires forall i :: 0 <= i < |wars| ==> wars[i] != []
    ensures |r| == |wars| && forall i :: 0 <= i < |wars| ==> r[i] == Copy(wars[i], toDir + [Name(wars[i])], true)
  {
    seq(|wars|, i requires 0 <= i < |wars| => Copy(wars[i], toDir + [Name(wars[i])], true))
  }

  lemma AutoCopiesCons(wars: seq<Path>, toDir: Path)
    requires wars != [] && forall i :: 0 <= i < |wars| ==> wars[i] != []
    ensures AutoCopies(wars, toDir) == [Copy(wars[0], toDir + [Name(wars[0])], true)] + AutoCopies(wars[1..], toDir)
  {
  }

  /** With a dry copier every discovered war is announced, in order, and the disk is untouched. */
  lemma {:induction false} CopyWarsDryPlan(s: Setup, wars: seq<Path>, toDir: Path, w: World)
    requires s.copierDry
    requires forall i :: 0 <= i < |wars| ==> wars[i] != []
    ensures CopyWars(s, wars, toDir, w) == (Pass, World(w.exec, w.plan + AutoCopies(wars, toDir)))
    decreases |wars|
  {
    if wars == [] {
      assert w.plan + AutoCopies(wars, toDir) == w.plan;
    } else {
      var c := Copy(wars[0], toDir + [Name(wars[0])], true);
      var w1 := World(w.exec, w.plan + [c]);
      assert CopyStep(s, wars[0], toDir + [Name(wars[0])], true, w) == (Pass, w1);
      CopyWarsDryPlan(s, wars[1..], toDir, w1);
      AutoCopiesCons(wars, toDir);
      AppendAssoc(w.plan, [c], AutoCopies(wars[1..], toDir));
    }
  }

  // ---------------------------------------------------------------- artifact phase

  /** Without an artifact list, or with an empty one, the phase does nothing at all. */
  lemma ArtifactsSkipped(s: Setup, a: Option<ArtifactsConfig>, w: World, dirs: Dirs)
    requires a.None? || a.value.files == []
    ensures Artifacts(s, a, w, dirs) == (Pass, w)
  {
  }

  /** A list with entries and a blank resolved output directory is refused before any copy. */
  lemma BlankOutputDirRejected(s: Setup, a: Option<ArtifactsConfig>, w: World, dirs: Dirs)
    requires a.Some? && a.value.files != [] && IsBlankOpt(Res(s, a.value.outputDir))
    ensures Artifacts(s, a, w, dirs) == (Fail(BlankOutputDir), w)
  {
  }

  /** An artifact of a repository that was never registered is refused, and nothing is announced. */
  lemma UnknownRepo(s: Setup, outDir: Path, f: ArtifactFile, w: World, dirs: Dirs)
    requires f.repo !in dirs
    ensures ArtifactStep(s, outDir, f, w, dirs) == (Fail(UnknownArtifactRepo(f.repo)), w)
  {
  }

  /**
    * A configured file that exists is copied once, to the target below the output directory,
    * announced as a configured (not automatic) copy; the disk and outcome are the copier's.
    */
  lemma DirectCopy(s: Setup, outDir: Path, f: ArtifactFile, w: World, dirs: Dirs)
    requires f.repo in dirs && Res(s, f.from).Some? && Res(s, f.to).Some?
    requires IsFile(w.exec.fs, Under(dirs[f.repo], Res(s, f.from).value))
    ensures var from := Under(dirs[f.repo], Res(s, f.from).value);
      var to := Under(outDir, Res(s, f.to).value);
      var c := CopySpec(s.copierDry, w.exec.fs, from, to, s.now);
      ArtifactStep(s, outDir, f, w, dirs) ==
      (if c.0.Fail? then Fail(CopyFailed(c.0.error)) else Pass,
       World(ExecState(c.1, w.exec.trace), w.plan + [Copy(from, to, false)]))
  {
  }

  /** A configured file that does not exist sends the artifact to the discovered wars. */
  lemma MissingFromFallsBack(s: Setup, outDir: Path, f: ArtifactFile, w: World, dirs: Dirs)
    requires f.repo in dirs && Res(s, f.from).Some? && Res(s, f.to).Some?
    requires !IsFile(w.exec.fs, Under(dirs[f.repo], Res(s, f.from).value))
    ensures ArtifactStep(s, outDir, f, w, dirs) ==
      Fallback(s, dirs[f.repo], Res(s, f.to).value, Under(outDir, Res(s, f.to).value), w)
  {
  }

  /** When the checkout holds no war the discovery is announced and the artifact fails. */
  lemma NoWarFails(s: Setup, repoDir: Path, toS: string, to: Path, w: World)
    requires ScanDir(w.exec.fs, repoDir) == []
    ensures Fallback(s, repoDir, toS, to, w) == (Fail(NoWarFound(repoDir)), World(w.exec, w.plan + [Discover(repoDir)]))
  {
  }

  /**
    * A target named like a war receives exactly one automatic copy, of the newest war
    * discovered, after the discovery is announced.
    */
  lemma SingleWarCopy(s: Setup, repoDir: Path, toS: string, to: Path, w: World)
    requires ScanDir(w.exec.fs, repoDir) != [] && EndsWith(ToLower(toS), ".war")
    ensures var newest := Newest(w.exec.fs, ScanDir(w.exec.fs, repoDir));
      var c := CopySpec(s.copierDry, w.exec.fs, newest, to, s.now);
      newest in ScanDir(w.exec.fs, repoDir) &&
      Fallback(s, repoDir, toS, to, w) ==
      (if c.0.Fail? then Fail(CopyFailed(c.0.error)) else Pass,
       World(ExecState(c.1, w.exec.trace), w.plan + [Discover(repoDir), Copy(newest, to, true)]))
  {
    var wars := ScanDir(w.exec.fs, repoDir);
    var w1 := World(w.exec, w.plan + [Discover(repoDir)]);
    assert Fallback(s, repoDir, toS, to, w) == CopyStep(s, Newest(w.exec.fs, wars), to, true, w1);
    CopyStepOutcome(s, Newest(w.exec.fs, wars), to, true, w1);
    assert w1.plan + [Copy(Newest(w.exec.fs, wars), to, true)] == w.plan + [Discover(repoDir), Copy(Newest(w.exec.fs, wars), to, true)];
  }

  lemma CopyStepOutcome(s: Setup, from: Path, to: Path, auto: bool, w: World)
    ensures var c := CopySpec(s.copierDry, w.exec.fs, from, to, s.now);
      CopyStep(s, from, to, auto, w) ==
      (if c.0.Fail? then Fail(CopyFailed(c.0.error)) else Pass, World(ExecState(c.1, w.exec.trace), w.plan + [Copy(from, to, auto)]))
  {
  }

  /** Copying every war that succeeds announces one automatic copy per war, in discovery order. */
  lemma {:induction false} CopyWarsPlan(s: Setup, wars: seq<Path>, toDir: Path, w: World)
    requires forall i :: 0 <= i < |wars| ==> wars[i] != []
    requires CopyWars(s, wars, toDir, w).0.Pass?
    ensures CopyWars(s, wars, toDir, w).1.plan == w.plan + AutoCopies(wars, toDir)
    decreases |wars|
  {
    if wars == [] {
      assert w.plan + AutoCopies(wars, toDir) == w.plan;
    } else {
      var c := Copy(wars[0], toDir + [Name(wars[0])], true);
      var (o, w1) := CopyStep(s, wars[0], toDir + [Name(wars[0])], true, w);
      CopyWarsPlan(s, wars[1..], toDir, w1);
      AutoCopiesCons(wars, toDir);
      AppendAssoc(w.plan, [c], AutoCopies(wars[1..], toDir));
    }
  }

  // ---------------------------------------------------------------- dry run

  /** Every part of the run is dry: the runner, the process executor and the copier. */
  predicate AllDry(s: Setup) {
    s.dryRun && s.env.dryRun && s.copierDry
  }

  lemma RepoStepDryKeepsDisk(s: Setup, r: RepoConfig, w: World, dirs: Dirs, skipTests: bool)
    requires AllDry(s)
    ensures RepoStep(s, r, w, dirs, skipTests).w.exec.fs == w.exec.fs
  {
    var path := Res(s, r.path);
    var branch := Res(s, r.branch);
    if !IsBlankOpt(path) && !IsBlankOpt(branch) && PathOf(path.value) in w.exec.fs && IsDir(w.exec.fs, PathOf(path.value)) {
      var repoDir := PathOf(path.value);
      SyncInert(s.env, w.exec, repoDir, branch.value);
      if r.maven.Some? && r.maven.value.goals != [] {
        var (_, st) := SyncSpec(s.env, w.exec, repoDir, branch.value);
        RunGoalsInert(s.env, st, s.mvnExe, MavenDir(s, r.maven.value, repoDir), r.maven.value.goals, skipTests);
      }
    }
  }

  lemma {:induction false} ReposDryKeepsDisk(s: Setup, repos: seq<RepoConfig>, w: World, dirs: Dirs, skipTests: bool)
    requires AllDry(s)
    ensures Repos(s, repos, w, dirs, skipTests).w.exec.fs == w.exec.fs
    decreases |repos|
  {
    if repos != [] {
      var st := RepoStep(s, repos[0], w, dirs, skipTests);
      RepoStepDryKeepsDisk(s, repos[0], w, dirs, skipTests);
      if st.out.Pass? {
        ReposDryKeepsDisk(s, repos[1..], st.w, st.dirs, skipTests);
      }
    }
  }

  lemma {:induction false} ArtifactLoopDryKeepsDisk(s: Setup, outDir: Path, files: seq<ArtifactFile>, w: World, dirs: Dirs)
    requires s.copierDry
    ensures ArtifactLoop(s, outDir, files, w, dirs).1.exec == w.exec
    decreases |files|
  {
    if files != [] {
      var f := files[0];
      if f.repo in dirs && Res(s, f.from).Some? && Res(s, f.to).Some? {
        var repoDir := dirs[f.repo];
        var from := Under(repoDir, Res(s, f.from).value);
        var to := Under(outDir, Res(s, f.to).value);
        var wars := ScanDir(w.exec.fs, repoDir);
        if !IsFile(w.exec.fs, from) && wars != [] && !EndsWith(ToLower(Res(s, f.to).value), ".war") {
          assert forall i :: 0 <= i < |wars| ==> wars[i] != [] by {
            assert forall i :: 0 <= i < |wars| ==> wars[i] in wars;
          }
          CopyWarsDryPlan(s, wars, to, World(w.exec, w.plan + [Discover(repoDir)]));
        }
      }
      var (o, w1) := ArtifactStep(s, outDir, f, w, dirs);
      if o.Pass? {
        ArtifactLoopDryKeepsDisk(s, outDir, files[1..], w1, dirs);
      }
    }
  }

  /** A run in which everything is dry leaves the disk exactly as it found it. */
  lemma DryRunKeepsDisk(s: Setup, job: Option<JobConfig>, skipTests: bool, w: World)
    requires AllDry(s)
    ensures RunJobSpec(s, job, skipTests, w).1.exec.fs == w.exec.fs
  {
    if job.Some? {
      var st := Repos(s, job.value.repos, w, map[], skipTests);
      ReposDryKeepsDisk(s, job.value.repos, w, map[], skipTests);
      var a := job.value.artifacts;
      if st.out.Pass? && a.Some? && a.value.files != [] && !IsBlankOpt(Res(s, a.value.outputDir)) {
        ArtifactLoopDryKeepsDisk(s, PathOf(Res(s, a.value.outputDir).value), a.value.files, st.w, st.dirs);
      }
    }
  }

  // ---------------------------------------------------------------- dry run against real run

  /** Neither path contains the other: they lie on separate branches of the tree. */
  predicate Apart(a: Path, b: Path) {
    !(a <= b) && !(b <= a)
  }

  lemma ApartBelow(d: Path, outDir: Path, t: Path)
    requires Apart(d, outDir) && outDir <= t
    ensures !(d <= t)
  {
    assert outDir == t[..|outDir|];
  }

  lemma NotBelow(d: Path, q: Path, to: Path)
    requires d <= q && !(d <= to)
    ensures !(q <= to)
  {
    assert d == q[..|d|];
  }

  /** The part of a disk at and below `d`. */
  function Sub(fs: FS, d: Path): map<Path, Node> {
    map q | q in fs && d <= q :: fs[q]
  }

  /** Every registered checkout looks the same on both disks. */
  predicate Mirrors(fsD: FS, fsR: FS, dirs: Dirs) {
    forall d :: d in dirs.Values ==> Sub(fsD, d) == Sub(fsR, d)
  }

  lemma SubAgree(fs1: FS, fs2: FS, d: Path, q: Path)
    requires Sub(fs1, d) == Sub(fs2, d) && d <= q
    ensures (q in fs1 <==> q in fs2) && (q in fs1 ==> fs1[q] == fs2[q])
  {
    assert q in fs1 <==> q in Sub(fs1, d);
    assert q in fs2 <==> q in Sub(fs2, d);
  }

  lemma SubNarrow(fs1: FS, fs2: FS, d: Path, c: Path)
    requires Sub(fs1, d) == Sub(fs2, d) && d <= c
    ensures Sub(fs1, c) == Sub(fs2, c)
  {
    forall q | c <= q
      ensures (q in fs1 <==> q in fs2) && (q in fs1 ==> fs1[q] == fs2[q])
    {
      PrefixTrans(d, c, q);
      SubAgree(fs1, fs2, d, q);
    }
  }

  /** The scan of a directory depends only on what lies below it. */
  lemma {:induction false} ScanDirLocal(fs1: FS, fs2: FS, dir: Path)
    requires Sub(fs1, dir) == Sub(fs2, dir)
    ensures ScanDir(fs1, dir) == ScanDir(fs2, dir)
    decreases Below(fs1, dir), 1, 0
  {
    SubAgree(fs1, fs2, dir, dir);
    if Listable(fs1, dir) {
      ScanEntriesLocal(fs1, fs2, dir, Listing(fs1, dir));
    }
  }

  lemma {:induction false} ScanEntriesLocal(fs1: FS, fs2: FS, dir: Path, names: seq<string>)
    requires Sub(fs1, dir) == Sub(fs2, dir)
    ensures ScanEntries(fs1, dir, names) == ScanEntries(fs2, dir, names)
    decreases Below(fs1, dir), 0, |names|
  {
    if names != [] {
      ScanEntriesLocal(fs1, fs2, dir, names[..|names| - 1]);
      EntryWarsLocal(fs1, fs2, dir, names[|names| - 1]);
    }
  }

  lemma {:induction false} EntryWarsLocal(fs1: FS, fs2: FS, dir: Path, name: string)
    requires Sub(fs1, dir) == Sub(fs2, dir)
    ensures EntryWars(fs1, dir, name) == EntryWars(fs2, dir, name)
    decreases Below(fs1, dir), 0, 0
  {
    var c := dir + [name];
    SubAgree(fs1, fs2, dir, c);
    if IsDir(fs1, c) && name != TargetDirName {
      BelowShrinks(fs1, dir, c);
      SubNarrow(fs1, fs2, dir, c);
      ScanDirLocal(fs1, fs2, c);
    }
  }

  lemma {:induction false} NewestIndexLocal(fs1: FS, fs2: FS, ws: seq<Option<Path>>)
    requires forall i :: 0 <= i < |ws| && ws[i].Some? ==> LastModified(fs1, ws[i].value) == LastModified(fs2, ws[i].value)
    ensures NewestIndex(fs1, ws) == NewestIndex(fs2, ws)
  {
    if ws != [] {
      NewestIndexLocal(fs1, fs2, ws[..|ws| - 1]);
    }
  }

  /** The war chosen depends only on the modification times of the candidates. */
  lemma NewestLocal(fs1: FS, fs2: FS, wars: seq<Path>)
    requires wars != []
    requires forall v :: v in wars ==> LastModified(fs1, v) == LastModified(fs2, v)
    ensures Newest(fs1, wars) == Newest(fs2, wars)
  {
    NewestIndexLocal(fs1, fs2, Somes(wars));
  }

  /** A copy changes nothing below a directory the target is not inside of. */
  lemma CopyKeepsSub(dryRun: bool, fs: FS, from: Path, to: Path, now: int, d: Path)
    requires !(d <= to)
    ensures Sub(CopySpec(dryRun, fs, from, to, now).1, d) == Sub(fs, d)
  {
    var fs' := CopySpec(dryRun, fs, from, to, now).1;
    forall q | d <= q
      ensures (q in fs' <==> q in fs) && (q in fs ==> fs'[q] == fs[q])
    {
      NotBelow(d, q, to);
    }
  }

  /** Both runs issued the same commands, the real plan is a prefix of the dry one, and only a failed copy sets them apart. */
  predicate Parity(d: (Outcome<JobError>, World), r: (Outcome<JobError>, World)) {
    d.1.exec.trace == r.1.exec.trace && r.1.plan <= d.1.plan &&
    ((r.0.Fail? && r.0.error.CopyFailed?) || (d.0 == r.0 && d.1.plan == r.1.plan))
  }

  /** Parity, and after a real success the registered checkouts still look alike. */
  predicate StepParity(d: (Outcome<JobError>, World), r: (Outcome<JobError>, World), dirs: Dirs) {
    Parity(d, r) && (r.0.Pass? ==> Mirrors(d.1.exec.fs, r.1.exec.fs, dirs))
  }

  /** Where two artifact phases start alike: same plan and trace, same checkouts, output apart from them. */
  predicate Aligned(wD: World, wR: World, dirs: Dirs, outDir: Path) {
    wD.plan == wR.plan && wD.exec.trace == wR.exec.trace && Mirrors(wD.exec.fs, wR.exec.fs, dirs) &&
    forall d :: d in dirs.Values ==> Apart(d, outDir)
  }

  lemma CopyStepParity(sD: Setup, sR: Setup, from: Path, to: Path, auto: bool, wD: World, wR: World, dirs: Dirs, outDir: Path)
    requires sD.copierDry && Aligned(wD, wR, dirs, outDir) && outDir <= to
    ensures StepParity(CopyStep(sD, from, to, auto, wD), CopyStep(sR, from, to, auto, wR), dirs)
  {
    var fsR := CopySpec(sR.copierDry, wR.exec.fs, from, to, sR.now).1;
    forall d | d in dirs.Values
      ensures Sub(fsR, d) == Sub(wR.exec.fs, d)
    {
      ApartBelow(d, outDir, to);
      CopyKeepsSub(sR.copierDry, wR.exec.fs, from, to, sR.now, d);
    }
  }

  lemma {:induction false} CopyWarsParity(sD: Setup, sR: Setup, wars: seq<Path>, toDir: Path, wD: World, wR: World, dirs: Dirs, outDir: Path)
    requires sD.copierDry && Aligned(wD, wR, dirs, outDir) && outDir <= toDir
    requires forall i :: 0 <= i < |wars| ==> wars[i] != []
    ensures StepParity(CopyWars(sD, wars, toDir, wD), CopyWars(sR, wars, toDir, wR), dirs)
    decreases |wars|
  {
    if wars != [] {
      var t := toDir + [Name(wars[0])];
      PrefixTrans(outDir, toDir, t);
      CopyStepParity(sD, sR, wars[0], t, true, wD, wR, dirs, outDir);
      var (oD, wD1) := CopyStep(sD, wars[0], t, true, wD);
      var (oR, wR1) := CopyStep(sR, wars[0], t, true, wR);
      if oR.Pass? {
        CopyWarsParity(sD, sR, wars[1..], toDir, wD1, wR1, dirs, outDir);
      } else {
        PrefixTrans(wR1.plan, wD1.plan, CopyWars(sD, wars[1..], toDir, wD1).1.plan);
      }
    }
  }

  lemma FallbackParity(sD: Setup, sR: Setup, repoDir: Path, toS: string, to: Path, wD: World, wR: World, dirs: Dirs, outDir: Path)
    requires sD.copierDry && Aligned(wD, wR, dirs, outDir) && outDir <= to && repoDir in dirs.Values
    ensures StepParity(Fallback(sD, repoDir, toS, to, wD), Fallback(sR, repoDir, toS, to, wR), dirs)
  {
    var wars := ScanDir(wD.exec.fs, repoDir);
    ScanDirLocal(wD.exec.fs, wR.exec.fs, repoDir);
    var w1D := World(wD.exec, wD.plan + [Discover(repoDir)]);
    var w1R := World(wR.exec, wR.plan + [Discover(repoDir)]);
    if wars != [] {
      if EndsWith(ToLower(toS), ".war") {
        forall v | v in wars
          ensures LastModified(wD.exec.fs, v) == LastModified(wR.exec.fs, v)
        {
          SubAgree(wD.exec.fs, wR.exec.fs, repoDir, v);
        }
        NewestLocal(wD.exec.fs, wR.exec.fs, wars);
        CopyStepParity(sD, sR, Newest(wD.exec.fs, wars), to, true, w1D, w1R, dirs, outDir);
      } else {
        assert forall i :: 0 <= i < |wars| ==> wars[i] != [] by {
          assert forall i :: 0 <= i < |wars| ==> wars[i] in wars;
        }
        CopyWarsParity(sD, sR, wars, to, w1D, w1R, dirs, outDir);
      }
    }
  }

  lemma ArtifactStepParity(sD: Setup, sR: Setup, outDir: Path, f: ArtifactFile, wD: World, wR: World, dirs: Dirs)
    requires sD.copierDry && sD.vars == sR.vars && Aligned(wD, wR, dirs, outDir)
    ensures StepParity(ArtifactStep(sD, outDir, f, wD, dirs), ArtifactStep(sR, outDir, f, wR, dirs), dirs)
  {
    if f.repo in dirs && Res(sD, f.from).Some? && Res(sD, f.to).Some? {
      var repoDir := dirs[f.repo];
      assert repoDir in dirs.Values;
      var from := Under(repoDir, Res(sD, f.from).value);
      var to := Under(outDir, Res(sD, f.to).value);
      SubAgree(wD.exec.fs, wR.exec.fs, repoDir, from);
      if IsFile(wD.exec.fs, from) {
        CopyStepParity(sD, sR, from, to, false, wD, wR, dirs, outDir);
      } else {
        FallbackParity(sD, sR, repoDir, Res(sD, f.to).value, to, wD, wR, dirs, outDir);
      }
    }
  }

  lemma {:induction false} ArtifactLoopParity(sD: Setup, sR: Setup, outDir: Path, files: seq<ArtifactFile>, wD: World, wR: World, dirs: Dirs)
    requires sD.copierDry && sD.vars == sR.vars && Aligned(wD, wR, dirs, outDir)
    ensures Parity(ArtifactLoop(sD, outDir, files, wD, dirs), ArtifactLoop(sR, outDir, files, wR, dirs))
    decreases |files|
  {
    if files != [] {
      ArtifactStepParity(sD, sR, outDir, files[0], wD, wR, dirs);
      var (oD, wD1) := ArtifactStep(sD, outDir, files[0], wD, dirs);
      var (oR, wR1) := ArtifactStep(sR, outDir, files[0], wR, dirs);
      if oR.Pass? {
        ArtifactLoopParity(sD, sR, outDir, files[1..], wD1, wR1, dirs);
      } else if oD.Pass? {
        PrefixTrans(wR1.plan, wD1.plan, ArtifactLoop(sD, outDir, files[1..], wD1, dirs).1.plan);
      }
    }
  }

  /** The checkout a repository entry names already exists (or the entry is refused outright). */
  predicate RepoPresent(vars: map<string, string>, r: RepoConfig, fs: FS) {
    var p := VarResolver.ResolveOpt(r.path, vars);
    IsBlankOpt(p) || PathOf(p.value) in fs
  }

  lemma RepoStepInert(s1: Setup, s2: Setup, r: RepoConfig, w: World, dirs: Dirs, skipTests: bool)
    requires Inert(s1.env) && Inert(s2.env) && s1.vars == s2.vars && s1.mvnExe == s2.mvnExe
    requires RepoPresent(s1.vars, r, w.exec.fs)
    ensures RepoStep(s1, r, w, dirs, skipTests) == RepoStep(s2, r, w, dirs, skipTests)
    ensures RepoStep(s1, r, w, dirs, skipTests).w.exec.fs == w.exec.fs
  {
    var path := Res(s1, r.path);
    var branch := Res(s1, r.branch);
    if !IsBlankOpt(path) && !IsBlankOpt(branch) && IsDir(w.exec.fs, PathOf(path.value)) {
      SyncAndBuildInert(s1, s2, r, branch.value, PathOf(path.value), w, dirs, skipTests);
    }
  }

  lemma SyncAndBuildInert(s1: Setup, s2: Setup, r: RepoConfig, branch: string, repoDir: Path, w: World, dirs: Dirs, skipTests: bool)
    requires Inert(s1.env) && Inert(s2.env) && s1.vars == s2.vars && s1.mvnExe == s2.mvnExe
    requires IsDir(w.exec.fs, repoDir)
    ensures SyncAndBuild(s1, r, branch, repoDir, w, dirs, skipTests) == SyncAndBuild(s2, r, branch, repoDir, w, dirs, skipTests)
    ensures SyncAndBuild(s1, r, branch, repoDir, w, dirs, skipTests).w.exec.fs == w.exec.fs
  {
    SyncInert(s1.env, w.exec, repoDir, branch);
    SyncInert(s2.env, w.exec, repoDir, branch);
    if r.maven.Some? && r.maven.value.goals != [] {
      var st := ExecState(w.exec.fs, w.exec.trace + SyncCommands(repoDir, branch));
      var dir := MavenDir(s1, r.maven.value, repoDir);
      RunGoalsInert(s1.env, st, s1.mvnExe, dir, r.maven.value.goals, skipTests);
      RunGoalsInert(s2.env, st, s2.mvnExe, dir, r.maven.value.goals, skipTests);
    }
  }

  lemma {:induction false} ReposInert(s1: Setup, s2: Setup, repos: seq<RepoConfig>, w: World, dirs: Dirs, skipTests: bool)
    requires Inert(s1.env) && Inert(s2.env) && s1.vars == s2.vars && s1.mvnExe == s2.mvnExe
    requires forall i :: 0 <= i < |repos| ==> RepoPresent(s1.vars, repos[i], w.exec.fs)
    ensures Repos(s1, repos, w, dirs, skipTests) == Repos(s2, repos, w, dirs, skipTests)
    ensures Repos(s1, repos, w, dirs, skipTests).w.exec.fs == w.exec.fs
    decreases |repos|
  {
    if repos != [] {
      RepoStepInert(s1, s2, repos[0], w, dirs, skipTests);
      var st := RepoStep(s1, repos[0], w, dirs, skipTests);
      if st.out.Pass? {
        ReposInert(s1, s2, repos[1..], st.w, st.dirs, skipTests);
      }
    }
  }

  /** The repository entry is refused outright or names a checkout apart from `outDir`. */
  predicate RepoApart(vars: map<string, string>, r: RepoConfig, outDir: Path) {
    var p := VarResolver.ResolveOpt(r.path, vars);
    IsBlankOpt(p) || Apart(PathOf(p.value), outDir)
  }

  /** A repository step registers at most its own resolved path. */
  lemma RepoStepDirs(s: Setup, r: RepoConfig, w: World, dirs: Dirs, skipTests: bool)
    ensures var st := RepoStep(s, r, w, dirs, skipTests);
      st.dirs == dirs || (!IsBlankOpt(Res(s, r.path)) && st.dirs == dirs[r.name := PathOf(Res(s, r.path).value)])
  {
    var path := Res(s, r.path);
    var branch := Res(s, r.branch);
    if !IsBlankOpt(path) && !IsBlankOpt(branch) {
      var repoDir := PathOf(path.value);
      var url := Res(s, r.gitUrl);
      var shallow := IsTrueIgnoreCase(Res(s, r.shallow));
      LocateDirs(s, r, branch.value, repoDir, url, shallow, w, dirs, skipTests);
    }
  }

  lemma LocateDirs(s: Setup, r: RepoConfig, branch: string, repoDir: Path, url: Option<string>, shallow: bool, w: World, dirs: Dirs, skipTests: bool)
    ensures var st := Locate(s, r, branch, repoDir, url, shallow, w, dirs, skipTests);
      st.dirs == dirs || st.dirs == dirs[r.name := repoDir]
  {
    if repoDir in w.exec.fs {
      SyncAndBuildDirs(s, r, branch, repoDir, w, dirs, skipTests);
    } else if !IsBlankOpt(url) {
      CloneMissingDirs(s, r, branch, repoDir, url.value, shallow, w, dirs, skipTests);
    }
  }

  lemma CloneMissingDirs(s: Setup, r: RepoConfig, branch: string, repoDir: Path, url: string, shallow: bool, w: World, dirs: Dirs, skipTests: bool)
    ensures var st := CloneMissing(s, r, branch, repoDir, url, shallow, w, dirs, skipTests);
      st.dirs == dirs || st.dirs == dirs[r.name := repoDir]
  {
    if !s.dryRun {
      var plan := w.plan + [Clone(url, repoDir, shallow)];
      var fs := if repoDir != [] && Parent(repoDir) !in w.exec.fs then MkDirsQuiet(w.exec.fs, Parent(repoDir), s.now) else w.exec.fs;
      var (o, st) := CloneSpec(s.env, ExecState(fs, w.exec.trace), url, repoDir, shallow);
      SyncAndBuildDirs(s, r, branch, repoDir, World(st, plan), dirs, skipTests);
    }
  }

  lemma SyncAndBuildDirs(s: Setup, r: RepoConfig, branch: string, repoDir: Path, w: World, dirs: Dirs, skipTests: bool)
    ensures var st := SyncAndBuild(s, r, branch, repoDir, w, dirs, skipTests);
      st.dirs == dirs || st.dirs == dirs[r.name := repoDir]
  {
  }

  lemma {:induction false} ReposApart(s: Setup, repos: seq<RepoConfig>, w: World, dirs: Dirs, skipTests: bool, outDir: Path)
    requires forall d :: d in dirs.Values ==> Apart(d, outDir)
    requires forall i :: 0 <= i < |repos| ==> RepoApart(s.vars, repos[i], outDir)
    ensures forall d :: d in Repos(s, repos, w, dirs, skipTests).dirs.Values ==> Apart(d, outDir)
    decreases |repos|
  {
    if repos != [] {
      RepoStepDirs(s, repos[0], w, dirs, skipTests);
      var st := RepoStep(s, repos[0], w, dirs, skipTests);
      assert forall d :: d in st.dirs.Values ==> Apart(d, outDir) by {
        forall d | d in st.dirs.Values
          ensures Apart(d, outDir)
        {
          var k :| k in st.dirs && st.dirs[k] == d;
          if st.dirs != dirs && k != repos[0].name {
            assert k in dirs && dirs[k] == d;
          }
        }
      }
      if st.out.Pass? {
        ReposApart(s, repos[1..], st.w, st.dirs, skipTests, outDir);
      }
    }
  }

  /** Every checkout of the job exists already. */
  predicate JobPresent(vars: map<string, string>, job: JobConfig, fs: FS) {
    forall i :: 0 <= i < |job.repos| ==> RepoPresent(vars, job.repos[i], fs)
  }

  /** The output directory, when there is one, is apart from every checkout. */
  predicate OutputApart(vars: map<string, string>, job: JobConfig) {
    job.artifacts.Some? ==>
      var o := VarResolver.ResolveOpt(job.artifacts.value.outputDir, vars);
      IsBlankOpt(o) || forall i :: 0 <= i < |job.repos| ==> RepoApart(vars, job.repos[i], PathOf(o.value))
  }

  /**
    * Over existing checkouts, in a world where nothing fails or changes the disk, a dry run
    * issues exactly the commands a real run issues and announces the same plan with the same
    * outcome; only a real copy that fails can end the real run earlier.
    */
  lemma DryRunParity(sD: Setup, sR: Setup, job: Option<JobConfig>, skipTests: bool, w: World)
    requires AllDry(sD) && !sR.dryRun && !sR.copierDry && Inert(sR.env)
    requires sD.vars == sR.vars && sD.mvnExe == sR.mvnExe
    requires job.Some? ==> JobPresent(sD.vars, job.value, w.exec.fs) && OutputApart(sD.vars, job.value)
    ensures Parity(RunJobSpec(sD, job, skipTests, w), RunJobSpec(sR, job, skipTests, w))
  {
    if job.Some? {
      ReposInert(sD, sR, job.value.repos, w, map[], skipTests);
      var st := Repos(sD, job.value.repos, w, map[], skipTests);
      var a := job.value.artifacts;
      if st.out.Pass? && a.Some? && a.value.files != [] && !IsBlankOpt(Res(sD, a.value.outputDir)) {
        var outDir := PathOf(Res(sD, a.value.outputDir).value);
        ReposApart(sD, job.value.repos, w, map[], skipTests, outDir);
        ArtifactLoopParity(sD, sR, outDir, a.value.files, st.w, st.w, st.dirs);
      }
    }
  }
}
