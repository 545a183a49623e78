/** MavenExecutor: the Maven command line for a repository's goals. */
module Maven {
  import opened Wrappers
  import opened Text
  import opened FileSystem
  import opened ProcessExec

  const DefaultExecutable: string := "mvn"
  const SkipTestsFlag: string := "-DskipTests"

  /** The configured executable, or "mvn" when it is null or blank. */
  function ExecutableFor(configured: Option<string>): (r: string)
    ensures !IsBlank(r)
    ensures r == DefaultExecutable || (configured.Some? && r == configured.value)
    ensures configured.Some? && !IsBlank(configured.value) ==> r == configured.value
  {
    assert Trim(DefaultExecutable) == DefaultExecutable;
    if configured.None? || IsBlank(configured.value) then DefaultExecutable else configured.value
  }

  /** The executable, then the goals in order, then the skip-tests switch when asked for. */
  function MavenArgs(executable: string, goals: seq<string>, skipTests: bool): seq<string> {
    [executable] + goals + (if skipTests then [SkipTestsFlag] else [])
  }

  /** `runGoals(workDir, goals, skipTests)`: nothing at all for an empty goal list. */
  function RunGoalsSpec(env: ExecEnv, st: ExecState, executable: string, workDir: Path, goals: seq<string>, skipTests: bool)
    : (Outcome<CommandFailure>, ExecState)
  {
    if goals == [] then (Pass, st)
    else Execute(env, st, Command(MavenArgs(executable, goals, skipTests), Some(workDir)))
  }

  /**
    * The build issues at most one command; with goals it is exactly one, run in the work
    * directory, naming the executable, every goal in order, and "-DskipTests" last exactly
    * when tests are skipped.
    */
  lemma RunGoalsIssues(env: ExecEnv, st: ExecState, executable: string, workDir: Path, goals: seq<string>, skipTests: bool)
    ensures var r := RunGoalsSpec(env, st, executable, workDir, goals, skipTests);
      (goals == [] ==> r == (Pass, st)) &&
      (goals != [] ==>
        |r.1.trace| == |st.trace| + 1 && r.1.trace[..|st.trace|] == st.trace &&
        var c := r.1.trace[|st.trace|];
        c.dir == Some(workDir) && c.args[0] == executable && c.args[1..|goals| + 1] == goals &&
        (|c.args| == |goals| + 2 <==> skipTests) && (skipTests ==> c.args[|goals| + 1] == SkipTestsFlag))
  {
    if goals != [] {
      var args := MavenArgs(executable, goals, skipTests);
      assert args[1..|goals| + 1] == goals;
    }
  }

  /** In a world where nothing fails or changes the disk, a build only extends the trace. */
  lemma RunGoalsInert(env: ExecEnv, st: ExecState, executable: string, workDir: Path, goals: seq<string>, skipTests: bool)
    requires Inert(env)
    ensures RunGoalsSpec(env, st, executable, workDir, goals, skipTests) ==
      (Pass, ExecState(st.fs, st.trace + if goals == [] then [] else [Command(MavenArgs(executable, goals, skipTests), Some(workDir))]))
  {
    assert st.trace + [] == st.trace;
  }

  /** `MavenExecutor`: the executable is fixed when it is built. */
  class MavenExecutor {
    const exec: ProcessExecutor
    const executable: string

    constructor (exec: ProcessExecutor, configured: Option<string>)
      ensures this.exec == exec && executable == ExecutableFor(configured)
    {
      this.exec := exec;
      executable := if configured.None? || IsBlank(configured.value) then DefaultExecutable else configured.value;
    }

    /** `runGoals`. */
    method RunGoals(workDir: Path, goals: seq<string>, skipTests: bool) returns (out: Outcome<CommandFailure>)
      modifies exec`trace, exec.disk`nodes
      ensures (out, exec.State()) == RunGoalsSpec(exec.Env(), old(exec.State()), executable, workDir, goals, skipTests)
    {
      if goals == [] {
        return Pass;
      }
      var cmd := [executable] + goals;
      if skipTests {
        cmd := cmd + [SkipTestsFlag];
      } else {
        assert cmd + [] == cmd;
      }
      out := exec.Run(Command(cmd, Some(workDir)));
    }
  }
}
