/**
  * GitExecutor: the git command lines issued for a clone and for bringing a checkout onto a
  * branch, with the failures that are tolerated and the one fallback.
  */
module Git {
  import opened Wrappers
  import opened FileSystem
  import opened ProcessExec

  /** `runGit(dir, args...)`: "git" followed by the arguments, run in `dir`. */
  function GitCommand(dir: Option<Path>, args: seq<string>): (c: Command)
    ensures |c.args| == |args| + 1 && c.args[0] == "git" && c.args[1..] == args && c.dir == dir
  {
    Command(["git"] + args, dir)
  }

  /** The directory a clone runs in: the target's parent (null above the root). */
  function ParentDir(p: Path): Option<Path> {
    if p == [] then None else Some(Parent(p))
  }

  /** `clone [--depth 1] <url> <absolute target>`. */
  function CloneArgs(url: string, repoDir: Path, shallow: bool): seq<string> {
    if shallow then ["clone", "--depth", "1", url, Render(repoDir)] else ["clone", url, Render(repoDir)]
  }

  /** `cloneRepo(gitUrl, repoDir, shallow)`. */
  function CloneSpec(env: ExecEnv, st: ExecState, url: string, repoDir: Path, shallow: bool): (Outcome<CommandFailure>, ExecState) {
    Execute(env, st, GitCommand(ParentDir(repoDir), CloneArgs(url, repoDir, shallow)))
  }

  const UnsetArgs: seq<string> := ["config", "--unset-all", "remote.origin.fetch"]
  const AddArgs: seq<string> := ["config", "--add", "remote.origin.fetch", "+refs/heads/*:refs/remotes/origin/*"]
  const FetchArgs: seq<string> := ["fetch", "--prune", "origin"]

  function CheckoutArgs(branch: string): seq<string> {
    ["checkout", branch]
  }

  function CheckoutNewArgs(branch: string): seq<string> {
    ["checkout", "-B", branch, "origin/" + branch]
  }

  function PullArgs(branch: string): seq<string> {
    ["pull", "--ff-only", "origin", branch]
  }

  /** `checkout <branch>`, and on a non-zero exit `checkout -B <branch> origin/<branch>`. */
  function CheckoutSpec(env: ExecEnv, st: ExecState, dir: Path, branch: string): (Outcome<CommandFailure>, ExecState) {
    var (o, s1) := Execute(env, st, GitCommand(Some(dir), CheckoutArgs(branch)));
    if o.Fail? && o.error.kind == NonZeroExit then Execute(env, s1, GitCommand(Some(dir), CheckoutNewArgs(branch)))
    else (o, s1)
  }

  /**
    * `checkoutAndPull(repoDir, branch)`: unset the fetch refspec (a non-zero exit is ignored),
    * add the all-branches refspec, fetch, check out, pull; any other failure ends the sequence.
    */
  function SyncSpec(env: ExecEnv, st: ExecState, dir: Path, branch: string): (Outcome<CommandFailure>, ExecState) {
    var (o1, s1) := Execute(env, st, GitCommand(Some(dir), UnsetArgs));
    if o1.Fail? && o1.error.kind == LaunchError then (o1, s1)
    else FetchStage(env, s1, dir, branch)
  }

  /** After the unset: add the refspec, fetch, then check out and pull. */
  function FetchStage(env: ExecEnv, st: ExecState, dir: Path, branch: string): (Outcome<CommandFailure>, ExecState) {
    var (o2, s2) := Execute(env, st, GitCommand(Some(dir), AddArgs));
    if o2.Fail? then (o2, s2)
    else
      var (o3, s3) := Execute(env, s2, GitCommand(Some(dir), FetchArgs));
      if o3.Fail? then (o3, s3)
      else PullStage(env, s3, dir, branch)
  }

  /** After the fetch: check out, then pull. */
  function PullStage(env: ExecEnv, st: ExecState, dir: Path, branch: string): (Outcome<CommandFailure>, ExecState) {
    var (o4, s4) := CheckoutSpec(env, st, dir, branch);
    if o4.Fail? then (o4, s4)
    else Execute(env, s4, GitCommand(Some(dir), PullArgs(branch)))
  }

  /** None of the `k` commands issued from position `n` on fails. */
  predicate QuietFrom(env: ExecEnv, n: nat, k: nat) {
    env.dryRun || forall i :: n <= i < n + k ==> i !in env.failures
  }

  /** The five commands of a synchronisation in which nothing fails. */
  function SyncCommands(dir: Path, branch: string): seq<Command> {
    [GitCommand(Some(dir), UnsetArgs), GitCommand(Some(dir), AddArgs), GitCommand(Some(dir), FetchArgs),
     GitCommand(Some(dir), CheckoutArgs(branch)), GitCommand(Some(dir), PullArgs(branch))]
  }

  /** With nothing failing, the five commands are issued in order and the sequence succeeds. */
  lemma SyncAllSucceed(env: ExecEnv, st: ExecState, dir: Path, branch: string)
    requires QuietFrom(env, |st.trace|, 5)
    ensures SyncSpec(env, st, dir, branch).0 == Pass
    ensures SyncSpec(env, st, dir, branch).1.trace == st.trace + SyncCommands(dir, branch)
  {
  }

  /** In a world where nothing fails or changes the disk, synchronising only extends the trace. */
  lemma SyncInert(env: ExecEnv, st: ExecState, dir: Path, branch: string)
    requires Inert(env)
    ensures SyncSpec(env, st, dir, branch) == (Pass, ExecState(st.fs, st.trace + SyncCommands(dir, branch)))
  {
    SyncAllSucceed(env, st, dir, branch);
  }

  /** A non-zero exit of the refspec unset is swallowed: the other four commands still run. */
  lemma SyncUnsetTolerated(env: ExecEnv, st: ExecState, dir: Path, branch: string)
    requires !env.dryRun && |st.trace| in env.failures && env.failures[|st.trace|] == NonZeroExit
    requires QuietFrom(env, |st.trace| + 1, 4)
    ensures SyncSpec(env, st, dir, branch).0 == Pass
    ensures SyncSpec(env, st, dir, branch).1.trace == st.trace + [
      GitCommand(Some(dir), UnsetArgs), GitCommand(Some(dir), AddArgs), GitCommand(Some(dir), FetchArgs),
      GitCommand(Some(dir), CheckoutArgs(branch)), GitCommand(Some(dir), PullArgs(branch))]
  {
  }

  /** An unset that cannot even be started is not a RuntimeException: it ends the sequence. */
  lemma SyncUnsetLaunchError(env: ExecEnv, st: ExecState, dir: Path, branch: string)
    requires !env.dryRun && |st.trace| in env.failures && env.failures[|st.trace|] == LaunchError
    ensures SyncSpec(env, st, dir, branch) == (Fail(CommandFailure(GitCommand(Some(dir), UnsetArgs), LaunchError)),
      ExecState(st.fs, st.trace + [GitCommand(Some(dir), UnsetArgs)]))
  {
  }

  /** A failing plain checkout is followed by `checkout -B`, and the sequence goes on to the pull. */
  lemma SyncCheckoutFallback(env: ExecEnv, st: ExecState, dir: Path, branch: string)
    requires !env.dryRun
    requires QuietFrom(env, |st.trace|, 3) && QuietFrom(env, |st.trace| + 4, 2)
    requires |st.trace| + 3 in env.failures && env.failures[|st.trace| + 3] == NonZeroExit
    ensures SyncSpec(env, st, dir, branch).0 == Pass
    ensures SyncSpec(env, st, dir, branch).1.trace == st.trace + [
      GitCommand(Some(dir), UnsetArgs), GitCommand(Some(dir), AddArgs), GitCommand(Some(dir), FetchArgs),
      GitCommand(Some(dir), CheckoutArgs(branch)), GitCommand(Some(dir), CheckoutNewArgs(branch)),
      GitCommand(Some(dir), PullArgs(branch))]
  {
  }

  /** A failing `config --add` propagates and nothing after it is issued. */
  lemma SyncAddFailureStops(env: ExecEnv, st: ExecState, dir: Path, branch: string)
    requires !env.dryRun && QuietFrom(env, |st.trace|, 1)
    requires |st.trace| + 1 in env.failures
    ensures SyncSpec(env, st, dir, branch) == (Fail(CommandFailure(GitCommand(Some(dir), AddArgs), env.failures[|st.trace| + 1])),
      ExecState(env.effect(GitCommand(Some(dir), UnsetArgs), st.fs),
        st.trace + [GitCommand(Some(dir), UnsetArgs), GitCommand(Some(dir), AddArgs)]))
  {
    var d := Some(dir);
    var (o1, s1) := Execute(env, st, GitCommand(d, UnsetArgs));
    assert o1 == Pass by {
      assert |st.trace| !in env.failures;
    }
    assert s1.trace + [GitCommand(d, AddArgs)] == st.trace + [GitCommand(d, UnsetArgs), GitCommand(d, AddArgs)];
  }

  /** Every command of `t` from position `n` on is a git command run in `dir`. */
  predicate GitFrom(t: seq<Command>, n: nat, dir: Path) {
    forall i :: n <= i < |t| ==> |t[i].args| > 0 && t[i].args[0] == "git" && t[i].dir == Some(dir)
  }

  /** A git command run in `dir` keeps the tail of the trace made of such commands. */
  lemma GitStep(env: ExecEnv, st: ExecState, n: nat, dir: Path, args: seq<string>)
    requires n <= |st.trace| && GitFrom(st.trace, n, dir)
    ensures var r := Execute(env, st, GitCommand(Some(dir), args));
      GitFrom(r.1.trace, n, dir) && (r.0.Fail? ==> r.0.error.cmd == r.1.trace[|r.1.trace| - 1])
  {
  }

  /**
    * Whatever fails, the sequence only appends git commands run in the checkout, and a
    * failure is reported for the last command issued: nothing is issued after it.
    */
  lemma SyncShape(env: ExecEnv, st: ExecState, dir: Path, branch: string)
    ensures var r := SyncSpec(env, st, dir, branch);
      st.trace < r.1.trace && GitFrom(r.1.trace, |st.trace|, dir) &&
      (r.0.Fail? ==> r.0.error.cmd == r.1.trace[|r.1.trace| - 1])
  {
    var n := |st.trace|;
    GitStep(env, st, n, dir, UnsetArgs);
    var (o1, s1) := Execute(env, st, GitCommand(Some(dir), UnsetArgs));
    FetchShape(env, s1, n, dir, branch);
  }

  lemma FetchShape(env: ExecEnv, st: ExecState, n: nat, dir: Path, branch: string)
    requires n <= |st.trace| && GitFrom(st.trace, n, dir)
    ensures var r := FetchStage(env, st, dir, branch);
      st.trace < r.1.trace && GitFrom(r.1.trace, n, dir) &&
      (r.0.Fail? ==> r.0.error.cmd == r.1.trace[|r.1.trace| - 1])
  {
    GitStep(env, st, n, dir, AddArgs);
    var (o2, s2) := Execute(env, st, GitCommand(Some(dir), AddArgs));
    GitStep(env, s2, n, dir, FetchArgs);
    var (o3, s3) := Execute(env, s2, GitCommand(Some(dir), FetchArgs));
    PullShape(env, s3, n, dir, branch);
  }

  lemma PullShape(env: ExecEnv, st: ExecState, n: nat, dir: Path, branch: string)
    requires n <= |st.trace| && GitFrom(st.trace, n, dir)
    ensures var r := PullStage(env, st, dir, branch);
      st.trace < r.1.trace && GitFrom(r.1.trace, n, dir) &&
      (r.0.Fail? ==> r.0.error.cmd == r.1.trace[|r.1.trace| - 1])
  {
    GitStep(env, st, n, dir, CheckoutArgs(branch));
    var (o4, s4) := Execute(env, st, GitCommand(Some(dir), CheckoutArgs(branch)));
    GitStep(env, s4, n, dir, CheckoutNewArgs(branch));
    var (o5, s5) := Execute(env, s4, GitCommand(Some(dir), CheckoutNewArgs(branch)));
    GitStep(env, s4, n, dir, PullArgs(branch));
    GitStep(env, s5, n, dir, PullArgs(branch));
  }

  // ---------------------------------------------------------------- which failures are swallowed

  /** The command at trace position `i` fails. */
  predicate Fails(env: ExecEnv, i: nat) {
    !env.dryRun && i in env.failures
  }

  /**
    * The failure at position `i` is one the sequence swallows: a non-zero exit of the unset
    * (issued at `n0`) or of the plain checkout.
    */
  predicate Swallowed(env: ExecEnv, c: Command, i: nat, n0: nat, dir: Path, branch: string) {
    Fails(env, i) && env.failures[i] == NonZeroExit && (i == n0 || c == GitCommand(Some(dir), CheckoutArgs(branch)))
  }

  /** Every failure among the commands at positions `n0` up to `hi` was swallowed. */
  predicate Caught(env: ExecEnv, t: seq<Command>, n0: nat, hi: nat, dir: Path, branch: string) {
    forall i :: n0 <= i < hi && i < |t| && Fails(env, i) ==> Swallowed(env, t[i], i, n0, dir, branch)
  }

  /**
    * Every failure before the last command was swallowed; the sequence fails exactly when
    * the last command failed, and then with that command's failure, which is not one it swallows.
    */
  predicate Propagated(env: ExecEnv, r: (Outcome<CommandFailure>, ExecState), n0: nat, dir: Path, branch: string) {
    var t := r.1.trace;
    n0 < |t| && Caught(env, t, n0, |t| - 1, dir, branch) &&
    (r.0.Pass? <==> !Fails(env, |t| - 1)) &&
    (r.0.Fail? ==>
       !Swallowed(env, t[|t| - 1], |t| - 1, n0, dir, branch) &&
       r.0.error == CommandFailure(t[|t| - 1], env.failures[|t| - 1]))
  }

  /** Every `checkout -B` from position `lo` on directly follows a plain checkout that exited non-zero. */
  predicate FallbackAfterFailure(env: ExecEnv, t: seq<Command>, lo: nat, dir: Path, branch: string) {
    forall i :: lo <= i < |t| && t[i] == GitCommand(Some(dir), CheckoutNewArgs(branch)) ==>
      lo < i && t[i - 1] == GitCommand(Some(dir), CheckoutArgs(branch)) && Fails(env, i - 1) && env.failures[i - 1] == NonZeroExit
  }

  /**
    * Only the failures the original tolerates are swallowed: a failure of the add, the fetch,
    * the fallback checkout or the pull, or a launch failure of the unset or the plain checkout,
    * ends the sequence with that failure, and `checkout -B` is issued only after the plain
    * checkout exited non-zero.
    */
  lemma SyncFailuresPropagate(env: ExecEnv, st: ExecState, dir: Path, branch: string)
    ensures Propagated(env, SyncSpec(env, st, dir, branch), |st.trace|, dir, branch)
    ensures FallbackAfterFailure(env, SyncSpec(env, st, dir, branch).1.trace, |st.trace|, dir, branch)
  {
    var n0 := |st.trace|;
    var (o1, s1) := Execute(env, st, GitCommand(Some(dir), UnsetArgs));
    if !(o1.Fail? && o1.error.kind == LaunchError) {
      assert Caught(env, s1.trace, n0, |s1.trace|, dir, branch);
      assert FallbackAfterFailure(env, s1.trace, n0, dir, branch) by {
        assert s1.trace[n0] != GitCommand(Some(dir), CheckoutNewArgs(branch));
      }
      FetchPropagates(env, s1, n0, dir, branch);
    }
  }

  lemma FetchPropagates(env: ExecEnv, st: ExecState, n0: nat, dir: Path, branch: string)
    requires n0 < |st.trace| && Caught(env, st.trace, n0, |st.trace|, dir, branch)
    requires FallbackAfterFailure(env, st.trace, n0, dir, branch)
    ensures Propagated(env, FetchStage(env, st, dir, branch), n0, dir, branch)
    ensures FallbackAfterFailure(env, FetchStage(env, st, dir, branch).1.trace, n0, dir, branch)
  {
    var d := Some(dir);
    var (o2, s2) := Execute(env, st, GitCommand(d, AddArgs));
    StepKeeps(env, st, n0, dir, branch, AddArgs);
    if o2.Pass? {
      var (o3, s3) := Execute(env, s2, GitCommand(d, FetchArgs));
      StepKeeps(env, s2, n0, dir, branch, FetchArgs);
      if o3.Pass? {
        PullPropagates(env, s3, n0, dir, branch);
      }
    }
  }

  lemma PullPropagates(env: ExecEnv, st: ExecState, n0: nat, dir: Path, branch: string)
    requires n0 < |st.trace| && Caught(env, st.trace, n0, |st.trace|, dir, branch)
    requires FallbackAfterFailure(env, st.trace, n0, dir, branch)
    ensures Propagated(env, PullStage(env, st, dir, branch), n0, dir, branch)
    ensures FallbackAfterFailure(env, PullStage(env, st, dir, branch).1.trace, n0, dir, branch)
  {
    var d := Some(dir);
    var (o4, s4) := Execute(env, st, GitCommand(d, CheckoutArgs(branch)));
    StepKeeps(env, st, n0, dir, branch, CheckoutArgs(branch));
    if o4.Fail? && o4.error.kind == NonZeroExit {
      var (o5, s5) := Execute(env, s4, GitCommand(d, CheckoutNewArgs(branch)));
      assert Caught(env, s4.trace, n0, |s4.trace|, dir, branch);
      FallbackStep(env, s4, n0, dir, branch);
      if o5.Pass? {
        StepKeeps(env, s5, n0, dir, branch, PullArgs(branch));
      }
    } else if o4.Pass? {
      StepKeeps(env, s4, n0, dir, branch, PullArgs(branch));
    }
  }

  /**
    * One command other than `checkout -B` after `n0`: the failures before it stay caught, and
    * the command's own failure is caught exactly when it is a swallowed one.
    */
  lemma StepKeeps(env: ExecEnv, st: ExecState, n0: nat, dir: Path, branch: string, args: seq<string>)
    requires n0 < |st.trace| && Caught(env, st.trace, n0, |st.trace|, dir, branch)
    requires FallbackAfterFailure(env, st.trace, n0, dir, branch)
    requires args != CheckoutNewArgs(branch)
    ensures var r := Execute(env, st, GitCommand(Some(dir), args));
      Caught(env, r.1.trace, n0, |st.trace|, dir, branch) &&
      FallbackAfterFailure(env, r.1.trace, n0, dir, branch) &&
      (r.0.Pass? ==> Caught(env, r.1.trace, n0, |r.1.trace|, dir, branch)) &&
      (r.0.Fail? && r.0.error.kind == NonZeroExit && args == CheckoutArgs(branch) ==> Caught(env, r.1.trace, n0, |r.1.trace|, dir, branch))
  {
    var c := GitCommand(Some(dir), args);
    var t := st.trace + [c];
    assert forall i :: 0 <= i < |st.trace| ==> t[i] == st.trace[i];
    assert c != GitCommand(Some(dir), CheckoutNewArgs(branch)) by {
      assert c.args[1..] == args;
    }
  }

  /** `checkout -B` after a plain checkout that exited non-zero. */
  lemma FallbackStep(env: ExecEnv, st: ExecState, n0: nat, dir: Path, branch: string)
    requires n0 < |st.trace| - 1 && Caught(env, st.trace, n0, |st.trace|, dir, branch)
    requires FallbackAfterFailure(env, st.trace, n0, dir, branch)
    requires st.trace[|st.trace| - 1] == GitCommand(Some(dir), CheckoutArgs(branch))
    requires Fails(env, |st.trace| - 1) && env.failures[|st.trace| - 1] == NonZeroExit
    ensures var r := Execute(env, st, GitCommand(Some(dir), CheckoutNewArgs(branch)));
      Caught(env, r.1.trace, n0, |st.trace|, dir, branch) &&
      FallbackAfterFailure(env, r.1.trace, n0, dir, branch) &&
      (r.0.Pass? ==> Caught(env, r.1.trace, n0, |r.1.trace|, dir, branch)) &&
      (r.0.Fail? ==> !Swallowed(env, r.1.trace[|st.trace|], |st.trace|, n0, dir, branch))
  {
    var c := GitCommand(Some(dir), CheckoutNewArgs(branch));
    var t := st.trace + [c];
    assert forall i :: 0 <= i < |st.trace| ==> t[i] == st.trace[i];
    assert c != GitCommand(Some(dir), CheckoutArgs(branch)) by {
      assert |c.args| == 5;
    }
  }

  /** `GitExecutor`, sharing the process executor with the rest of the job. */
  class GitExecutor {
    const pe: ProcessExecutor

    constructor (pe: ProcessExecutor)
      ensures this.pe == pe
    {
      this.pe := pe;
    }

    /** `runGit`: builds "git" + args element by element and runs it. */
    method RunGit(dir: Option<Path>, args: seq<string>) returns (out: Outcome<CommandFailure>)
      modifies pe`trace, pe.disk`nodes
      ensures (out, pe.State()) == Execute(pe.Env(), old(pe.State()), GitCommand(dir, args))
    {
      var cmd := ["git"];
      for i := 0 to |args|
        invariant cmd == ["git"] + args[..i]
      {
        cmd := cmd + [args[i]];
        assert args[..i + 1] == args[..i] + [args[i]];
      }
      assert args[..|args|] == args;
      out := pe.Run(Command(cmd, dir));
    }

    /** `cloneRepo(gitUrl, repoDir, shallow)`. */
    method CloneRepo(url: string, repoDir: Path, shallow: bool) returns (out: Outcome<CommandFailure>)
      modifies pe`trace, pe.disk`nodes
      ensures (out, pe.State()) == CloneSpec(pe.Env(), old(pe.State()), url, repoDir, shallow)
    {
      var dir: Option<Path> := if repoDir == [] then None else Some(Parent(repoDir));
      if shallow {
        out := RunGit(dir, ["clone", "--depth", "1", url, Render(repoDir)]);
      } else {
        out := RunGit(dir, ["clone", url, Render(repoDir)]);
      }
    }

    /** `checkoutAndPull(repoDir, branch)`. */
    method CheckoutAndPull(repoDir: Path, branch: string) returns (out: Outcome<CommandFailure>)
      modifies pe`trace, pe.disk`nodes
      ensures (out, pe.State()) == SyncSpec(pe.Env(), old(pe.State()), repoDir, branch)
    {
      var d := Some(repoDir);
      out := RunGit(d, ["config", "--unset-all", "remote.origin.fetch"]);
      if out.Fail? && out.error.kind == LaunchError {
        return;
      }
      out := RunGit(d, ["config", "--add", "remote.origin.fetch", "+refs/heads/*:refs/remotes/origin/*"]);
      if out.Fail? {
        return;
      }
      out := RunGit(d, ["fetch", "--prune", "origin"]);
      if out.Fail? {
        return;
      }
      out := RunGit(d, ["checkout", branch]);
      if out.Fail? && out.error.kind == NonZeroExit {
        out := RunGit(d, ["checkout", "-B", branch, "origin/" + branch]);
      }
      if out.Fail? {
        return;
      }
      out := RunGit(d, ["pull", "--ff-only", "origin", branch]);
    }
  }
}
