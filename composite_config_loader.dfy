/**
  * CompositeConfigLoader.loadFromPackageYml after the YAML has been read: package.yml's global
  * maven setting and variables are merged into every include, and the includes' jobs are
  * flattened into one list of named jobs, in include order and then job order.
  */
module CompositeConfigLoader {
  import opened Wrappers
  import opened Text
  import opened Config

  /** A job as offered to the user: `include:job` (or `job`), its name, its include's merged configuration. */
  datatype NamedJob = NamedJob(displayName: string, jobName: string, mergedConfig: PackagerConfig, job: Option<JobConfig>)

  /** package.yml without includes, or an include file the YAML reader could not read. */
  datatype LoadError = NoIncludes | IncludeUnreadable(path: string)

  /** The include's own maven setting, else the global one; global variables overlaid by the include's. */
  function Merge(root: PackageConfig, child: PackagerConfig): (m: PackagerConfig)
    ensures m.jobs == child.jobs
    ensures child.maven.Some? ==> m.maven == child.maven
    ensures child.maven.None? ==> m.maven == root.maven
    ensures m.vars.Keys == root.vars.Keys + child.vars.Keys
    ensures forall k :: k in child.vars ==> m.vars[k] == child.vars[k]
    ensures forall k :: k in root.vars && k !in child.vars ==> m.vars[k] == root.vars[k]
  {
    PackagerConfig(child.jobs, if child.maven.Some? then child.maven else root.maven, root.vars + child.vars)
  }

  /** The name shown for a job: prefixed with the include's name unless that is blank. */
  function DisplayName(incName: Option<string>, jobName: string): (d: string)
    ensures EndsWith(d, jobName)
    ensures IsBlankOpt(incName) ==> d == jobName
    ensures !IsBlankOpt(incName) ==> d == incName.value + ":" + jobName
  {
    if IsBlankOpt(incName) then jobName else incName.value + ":" + jobName
  }

  /** The entry for job `k` of a merged include. */
  function Entry(inc: IncludeConfig, merged: PackagerConfig, k: nat): NamedJob
    requires k < |merged.jobs|
  {
    NamedJob(DisplayName(inc.name, merged.jobs[k].0), merged.jobs[k].0, merged, merged.jobs[k].1)
  }

  /** One entry per job of the include, in the include's job order, all sharing the merged configuration. */
  function Entries(inc: IncludeConfig, merged: PackagerConfig): (r: seq<NamedJob>)
    ensures |r| == |merged.jobs|
    ensures forall k :: 0 <= k < |r| ==> r[k] == Entry(inc, merged, k)
    ensures forall k :: 0 <= k < |r| ==> r[k].mergedConfig == merged && r[k].jobName == merged.jobs[k].0
  {
    seq(|merged.jobs|, k requires 0 <= k < |merged.jobs| => Entry(inc, merged, k))
  }

  /** What one include adds: nothing for a blank path, else its jobs (or the reader's failure). */
  function Contribution(root: PackageConfig, inc: IncludeConfig, child: Option<PackagerConfig>): (r: Result<seq<NamedJob>, LoadError>)
    ensures IsBlankOpt(inc.path) ==> r == Ok([])
    ensures r.Ok? && !IsBlankOpt(inc.path) ==> child.Some? && r.value == Entries(inc, Merge(root, child.value))
  {
    if IsBlankOpt(inc.path) then Ok([])
    else
      match child
      case None => Err(IncludeUnreadable(inc.path.value))
      case Some(c) => Ok(Entries(inc, Merge(root, c)))
  }

  /** Two steps in a row: the first error, or both outputs one after the other. */
  function AndThen(a: Result<seq<NamedJob>, LoadError>, b: Result<seq<NamedJob>, LoadError>): Result<seq<NamedJob>, LoadError> {
    match a
    case Err(e) => Err(e)
    case Ok(x) =>
      match b
      case Err(e) => Err(e)
      case Ok(y) => Ok(x + y)
  }

  /** The includes processed in order; `children[i]` is the parsed file of include `i`. */
  function Flatten(root: PackageConfig, incs: seq<IncludeConfig>, children: seq<Option<PackagerConfig>>): Result<seq<NamedJob>, LoadError>
    requires |incs| == |children|
    decreases |incs|
  {
    if incs == [] then Ok([])
    else
      var n := |incs| - 1;
      AndThen(Flatten(root, incs[..n], children[..n]), Contribution(root, incs[n], children[n]))
  }

  /** `loadFromPackageYml` once package.yml and the include files have been read. */
  function Load(root: PackageConfig, children: seq<Option<PackagerConfig>>): (r: Result<seq<NamedJob>, LoadError>)
    requires |children| == |root.includes|
    ensures root.includes == [] ==> r == Err(NoIncludes)
  {
    if root.includes == [] then Err(NoIncludes) else Flatten(root, root.includes, children)
  }

  /** The loop over includes, with the inner loop over the include's jobs. */
  method LoadFromPackageYml(root: PackageConfig, children: seq<Option<PackagerConfig>>) returns (r: Result<seq<NamedJob>, LoadError>)
    requires |children| == |root.includes|
    ensures r == Load(root, children)
  {
    if |root.includes| == 0 {
      return Err(NoIncludes);
    }
    var out: seq<NamedJob> := [];
    for i := 0 to |root.includes|
      invariant Flatten(root, root.includes[..i], children[..i]) == Ok(out)
    {
      FlattenStep(root, root.includes, children, i);
      var inc := root.includes[i];
      if IsBlankOpt(inc.path) {
        assert out + [] == out;
        continue;
      }
      if children[i].None? {
        FlattenStopsAtError(root, root.includes, children, i + 1);
        assert root.includes[..|root.includes|] == root.includes;
        assert children[..|children|] == children;
        return Err(IncludeUnreadable(inc.path.value));
      }
      var merged := Merge(root, children[i].value);
      if |merged.jobs| == 0 {
        assert Entries(inc, merged) == [];
        assert out + [] == out;
        continue;
      }
      out := AppendEntries(out, inc, merged);
      assert Contribution(root, inc, children[i]) == Ok(Entries(inc, merged));
    }
    assert root.includes[..|root.includes|] == root.includes;
    assert children[..|children|] == children;
    return Ok(out);
  }

  /** The inner loop: one entry per job of the include, appended in job order. */
  method AppendEntries(out: seq<NamedJob>, inc: IncludeConfig, merged: PackagerConfig) returns (r: seq<NamedJob>)
    ensures r == out + Entries(inc, merged)
  {
    r := out;
    for k := 0 to |merged.jobs|
      invariant r == out + Entries(inc, merged)[..k]
    {
      var jobName := merged.jobs[k].0;
      r := r + [NamedJob(DisplayName(inc.name, jobName), jobName, merged, merged.jobs[k].1)];
      assert Entries(inc, merged)[..k + 1] == Entries(inc, merged)[..k] + [Entry(inc, merged, k)];
    }
    assert Entries(inc, merged)[..|merged.jobs|] == Entries(inc, merged);
  }

  /** One more include, spelled out. */
  lemma FlattenStep(root: PackageConfig, incs: seq<IncludeConfig>, children: seq<Option<PackagerConfig>>, i: nat)
    requires |incs| == |children| && i < |incs|
    ensures Flatten(root, incs[..i + 1], children[..i + 1])
         == AndThen(Flatten(root, incs[..i], children[..i]), Contribution(root, incs[i], children[i]))
  {
    assert incs[..i + 1][..i] == incs[..i];
    assert children[..i + 1][..i] == children[..i];
  }

  /** Once an include fails, the includes after it are not read and the failure is the result. */
  lemma {:induction false} FlattenStopsAtError(root: PackageConfig, incs: seq<IncludeConfig>, children: seq<Option<PackagerConfig>>, i: nat)
    requires |incs| == |children| && i <= |incs|
    requires Flatten(root, incs[..i], children[..i]).Err?
    ensures Flatten(root, incs, children) == Flatten(root, incs[..i], children[..i])
    decreases |incs|
  {
    if i < |incs| {
      var n := |incs| - 1;
      assert incs[..n][..i] == incs[..i] && children[..n][..i] == children[..i];
      FlattenStopsAtError(root, incs[..n], children[..n], i);
    } else {
      assert incs[..i] == incs && children[..i] == children;
    }
  }

  /** The includes can be processed in two halves: their outputs are concatenated in order. */
  lemma {:induction false} FlattenAppend(root: PackageConfig, a: seq<IncludeConfig>, ca: seq<Option<PackagerConfig>>, b: seq<IncludeConfig>, cb: seq<Option<PackagerConfig>>)
    requires |a| == |ca| && |b| == |cb|
    ensures Flatten(root, a + b, ca + cb) == AndThen(Flatten(root, a, ca), Flatten(root, b, cb))
    decreases |b|
  {
    if b == [] {
      assert a + b == a && ca + cb == ca;
      AndThenUnit(Flatten(root, a, ca));
    } else {
      var n := |b| - 1;
      assert (a + b)[..|a + b| - 1] == a + b[..n];
      assert (ca + cb)[..|ca + cb| - 1] == ca + cb[..n];
      assert (a + b)[|a + b| - 1] == b[n] && (ca + cb)[|ca + cb| - 1] == cb[n];
      FlattenAppend(root, a, ca, b[..n], cb[..n]);
      AndThenAssoc(Flatten(root, a, ca), Flatten(root, b[..n], cb[..n]), Contribution(root, b[n], cb[n]));
    }
  }

  lemma AndThenUnit(x: Result<seq<NamedJob>, LoadError>)
    ensures AndThen(x, Ok([])) == x
  {
    if x.Ok? {
      assert x.value + [] == x.value;
    }
  }

  lemma AndThenAssoc(x: Result<seq<NamedJob>, LoadError>, y: Result<seq<NamedJob>, LoadError>, z: Result<seq<NamedJob>, LoadError>)
    ensures AndThen(AndThen(x, y), z) == AndThen(x, AndThen(y, z))
  {
    if x.Ok? && y.Ok? && z.Ok? {
      assert x.value + y.value + z.value == x.value + (y.value + z.value);
    }
  }

  /** An include with a blank path contributes nothing and does not stop the includes after it. */
  lemma BlankIncludeSkipped(root: PackageConfig, incs: seq<IncludeConfig>, children: seq<Option<PackagerConfig>>, i: nat)
    requires |incs| == |children| && i < |incs|
    requires IsBlankOpt(incs[i].path)
    ensures Flatten(root, incs, children) == Flatten(root, incs[..i] + incs[i + 1..], children[..i] + children[i + 1..])
  {
    assert incs == incs[..i] + ([incs[i]] + incs[i + 1..]);
    assert children == children[..i] + ([children[i]] + children[i + 1..]);
    FlattenAppend(root, incs[..i], children[..i], [incs[i]] + incs[i + 1..], [children[i]] + children[i + 1..]);
    FlattenAppend(root, [incs[i]], [children[i]], incs[i + 1..], children[i + 1..]);
    FlattenAppend(root, incs[..i], children[..i], incs[i + 1..], children[i + 1..]);
    assert [incs[i]][..0] == [] && [children[i]][..0] == [];
    var y := Flatten(root, incs[i + 1..], children[i + 1..]);
    if y.Ok? {
      assert [] + y.value == y.value;
    }
  }

  /** An include whose file defines no jobs contributes no entries. */
  lemma EmptyIncludeSkipped(root: PackageConfig, inc: IncludeConfig, child: PackagerConfig)
    requires child.jobs == []
    ensures Contribution(root, inc, Some(child)) == Ok([])
  {
  }

  /** The number of jobs the includes offer, counting only includes with a path that were read. */
  function JobCount(root: PackageConfig, incs: seq<IncludeConfig>, children: seq<Option<PackagerConfig>>): nat
    requires |incs| == |children|
    decreases |incs|
  {
    if incs == [] then 0
    else
      var n := |incs| - 1;
      JobCount(root, incs[..n], children[..n])
        + (if IsBlankOpt(incs[n].path) || children[n].None? then 0 else |children[n].value.jobs|)
  }

  /** The flattened list has one entry per job of every include that contributes. */
  lemma {:induction false} FlattenLength(root: PackageConfig, incs: seq<IncludeConfig>, children: seq<Option<PackagerConfig>>)
    requires |incs| == |children|
    requires Flatten(root, incs, children).Ok?
    ensures |Flatten(root, incs, children).value| == JobCount(root, incs, children)
    decreases |incs|
  {
    if incs != [] {
      var n := |incs| - 1;
      FlattenLength(root, incs[..n], children[..n]);
    }
  }

  /** Display names are not made unique: two includes of the same name offering the same job give two equal entries. */
  lemma DuplicatesKept(root: PackageConfig, name: string, p1: string, p2: string, c1: PackagerConfig, c2: PackagerConfig, job: string)
    requires !IsBlank(name) && !IsBlank(p1) && !IsBlank(p2)
    requires root.includes == [IncludeConfig(Some(name), Some(p1)), IncludeConfig(Some(name), Some(p2))]
    requires c1.jobs == [(job, None)] && c2.jobs == [(job, None)]
    ensures Load(root, [Some(c1), Some(c2)]).Ok?
    ensures var r := Load(root, [Some(c1), Some(c2)]).value;
      |r| == 2 && r[0].displayName == r[1].displayName == name + ":" + job
  {
    var incs := root.includes;
    var cs := [Some(c1), Some(c2)];
    assert incs[..1] == [incs[0]] && cs[..1] == [cs[0]];
    assert incs[..1][..0] == [] && cs[..1][..0] == [];
    var e1 := Entries(incs[0], Merge(root, c1));
    var e2 := Entries(incs[1], Merge(root, c2));
    assert Flatten(root, incs[..1], cs[..1]) == Ok([] + e1);
    assert [] + e1 == e1;
    assert Flatten(root, incs, cs) == Ok(e1 + e2);
  }

  /** The overlay of variables, on the example {A:1} under {A:2,B:3}. */
  lemma MergeOverlayExample(root: PackageConfig, child: PackagerConfig)
    requires root.vars == map["A" := "1"] && child.vars == map["A" := "2", "B" := "3"]
    ensures Merge(root, child).vars == map["A" := "2", "B" := "3"]
  {
  }
}
