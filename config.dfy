/**
  * The parsed configuration beans (PackagerConfig, PackageConfig) as values. A reference the
  * YAML may leave null is an Option; a list or map that may be null is an empty sequence or
  * map, since every reader treats null and empty alike.
  */
module Config {
  import opened Wrappers

  /** `maven: { executable: ... }`. */
  datatype GlobalMaven = GlobalMaven(executable: Option<string>)

  /** A repository's build: the working directory below the checkout and the goals to run. */
  datatype MavenConfig = MavenConfig(workDir: Option<string>, goals: seq<string>)

  /** One repository of a job; `shallow` is a string that is compared with "true". */
  datatype RepoConfig = RepoConfig(
    name: Option<string>,
    path: Option<string>,
    branch: Option<string>,
    gitUrl: Option<string>,
    shallow: Option<string>,
    maven: Option<MavenConfig>)

  /** One artifact to collect: `from` below the checkout of `repo`, `to` below the output directory. */
  datatype ArtifactFile = ArtifactFile(repo: Option<string>, from: Option<string>, to: Option<string>)

  datatype ArtifactsConfig = ArtifactsConfig(outputDir: Option<string>, files: seq<ArtifactFile>)

  datatype JobConfig = JobConfig(repos: seq<RepoConfig>, artifacts: Option<ArtifactsConfig>)

  /**
    * An include file (apps.yml, openapi.yml, ...): its jobs in file order, a job whose body
    * is empty being null, plus its own maven setting and variables.
    */
  datatype PackagerConfig = PackagerConfig(
    jobs: seq<(string, Option<JobConfig>)>,
    maven: Option<GlobalMaven>,
    vars: map<string, string>)

  /** An entry of `includes:` in package.yml. */
  datatype IncludeConfig = IncludeConfig(name: Option<string>, path: Option<string>)

  /** package.yml: global maven setting, global variables and the includes. */
  datatype PackageConfig = PackageConfig(
    maven: Option<GlobalMaven>,
    vars: map<string, string>,
    includes: seq<IncludeConfig>)
}
