/**
  * The process executor as the rest of the packager sees it. Every command is appended to a
  * trace. In dry-run it only succeeds. In a real run the outside world decides: `failures`
  * says which issued commands fail, by their position in the trace, and `effect` says what
  * a successful command does to the disk (a clone creating the checkout, a build writing wars).
  */
module ProcessExec {
  import opened Wrappers
  import opened FileSystem

  /** A command line and the directory it runs in (None: a null directory, i.e. the JVM's own). */
  datatype Command = Command(args: seq<string>, dir: Option<Path>)

  /** A non-zero exit code (a RuntimeException) or a process that could not be started (an IOException). */
  datatype Failure = NonZeroExit | LaunchError

  datatype CommandFailure = CommandFailure(cmd: Command, kind: Failure)

  /** What the outside world does with the commands. */
  datatype ExecEnv = ExecEnv(dryRun: bool, failures: map<nat, Failure>, effect: (Command, FS) -> FS)

  /** The disk and the commands issued so far. */
  datatype ExecState = ExecState(fs: FS, trace: seq<Command>)

  /** `ProcessExecutor.run`. */
  function Execute(env: ExecEnv, st: ExecState, cmd: Command): (r: (Outcome<CommandFailure>, ExecState))
    ensures r.1.trace == st.trace + [cmd]
    ensures env.dryRun ==> r.0 == Pass && r.1.fs == st.fs
    ensures r.0.Fail? <==> !env.dryRun && |st.trace| in env.failures
    ensures r.0.Fail? ==> r.0.error == CommandFailure(cmd, env.failures[|st.trace|]) && r.1.fs == st.fs
    ensures !env.dryRun && r.0.Pass? ==> r.1.fs == env.effect(cmd, st.fs)
  {
    var trace := st.trace + [cmd];
    if env.dryRun then (Pass, ExecState(st.fs, trace))
    else if |st.trace| in env.failures then (Fail(CommandFailure(cmd, env.failures[|st.trace|])), ExecState(st.fs, trace))
    else (Pass, ExecState(env.effect(cmd, st.fs), trace))
  }

  /** A world in which nothing fails and no command changes the disk. */
  ghost predicate Inert(env: ExecEnv) {
    env.dryRun || (env.failures == map[] && forall c, fs :: env.effect(c, fs) == fs)
  }

  /** Under an inert world a command only lands in the trace. */
  lemma ExecuteInert(env: ExecEnv, st: ExecState, cmd: Command)
    requires Inert(env)
    ensures Execute(env, st, cmd) == (Pass, ExecState(st.fs, st.trace + [cmd]))
  {
  }

  /** `ProcessExecutor`: the dry-run switch, and the machine it drives. */
  class ProcessExecutor {
    var dryRun: bool
    var trace: seq<Command>
    const failures: map<nat, Failure>
    const effect: (Command, FS) -> FS
    const disk: Disk

    /** A new executor is not in dry-run. */
    constructor (disk: Disk, failures: map<nat, Failure>, effect: (Command, FS) -> FS)
      ensures !dryRun && trace == []
      ensures this.disk == disk && this.failures == failures && this.effect == effect
    {
      dryRun := false;
      trace := [];
      this.disk := disk;
      this.failures := failures;
      this.effect := effect;
    }

    function Env(): ExecEnv
      reads this
    {
      ExecEnv(dryRun, failures, effect)
    }

    function State(): ExecState
      reads this, disk
    {
      ExecState(disk.nodes, trace)
    }

    method SetDryRun(dryRun: bool)
      modifies this`dryRun
      ensures this.dryRun == dryRun
    {
      this.dryRun := dryRun;
    }

    /** `run(command, workDir)`: logs or starts the command; a failure is returned as the exception. */
    method Run(cmd: Command) returns (out: Outcome<CommandFailure>)
      modifies this`trace, disk`nodes
      ensures (out, State()) == Execute(Env(), old(State()), cmd)
    {
      var n := |trace|;
      trace := trace + [cmd];
      if dryRun {
        return Pass;
      }
      if n in failures {
        return Fail(CommandFailure(cmd, failures[n]));
      }
      disk.nodes := effect(cmd, disk.nodes);
      return Pass;
    }
  }
}
