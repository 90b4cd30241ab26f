/**
 * The stub application: a placeholder dex that mobile-install installs in place of the
 * real application entry point. There are two instances, one for the incremental APK and
 * one for the main split, each read from its own prerequisite attribute.
 */
module StubApplication {
  import opened Wrappers
  import opened Artifacts
  import opened Actions

  function StubAttribute(split: bool): string
  {
    if split then "$incremental_split_stub_application" else "$incremental_stub_application"
  }

  function StubDeployJar(split: bool): Artifact
  {
    MobileInstallArtifact(if split then "split_stub_deploy.jar" else "stub_deploy.jar")
  }

  function StubDexArtifact(split: bool): Artifact
  {
    MobileInstallArtifact(if split then "split_stub_application/classes.dex" else "stub_application/classes.dex")
  }

  /**
   * The stub dex of one instance, or the error reported against its attribute: the
   * prerequisite must be present and must be a Java target.
   */
  function StubDex(prerequisites: map<string, Target>, split: bool): (r: Result<Artifact, AttributeError>)
    ensures r.Success? <==> StubAttribute(split) in prerequisites
                            && prerequisites[StubAttribute(split)].runtimeJars.Some?
    ensures r.Success? ==> r.value == StubDexArtifact(split)
    ensures r.Failure? ==> r.error.attribute == StubAttribute(split)
    ensures r.Failure? && StubAttribute(split) !in prerequisites
            ==> r.error.message == "Stub application cannot be found"
    ensures r.Failure? && StubAttribute(split) in prerequisites
            ==> r.error.message == "'" + prerequisites[StubAttribute(split)].targetLabel + "' should be a Java target"
  {
    var attribute := StubAttribute(split);
    if attribute !in prerequisites then
      Failure(AttributeError(attribute, "Stub application cannot be found"))
    else if prerequisites[attribute].runtimeJars.None? then
      Failure(AttributeError(attribute, "'" + prerequisites[attribute].targetLabel + "' should be a Java target"))
    else
      Success(StubDexArtifact(split))
  }

  /**
   * What building the stub dex registers: a deploy jar of the prerequisite's runtime
   * classpath, then its dexing. Nothing is registered when the prerequisite is unusable.
   */
  function StubDexActions(prerequisites: map<string, Target>, split: bool): seq<Registration>
  {
    var attribute := StubAttribute(split);
    if attribute in prerequisites && prerequisites[attribute].runtimeJars.Some? then
      [DeployArchive(StubDeployJar(split), prerequisites[attribute].runtimeJars.value),
       Dex(StubDeployJar(split), StubDexArtifact(split))]
    else []
  }

  method GetStubDex(ctx: RuleContext, split: bool) returns (stubDex: Option<Artifact>)
    modifies ctx
    ensures match StubDex(ctx.prerequisites, split)
      case Success(dex) => stubDex == Some(dex) && ctx.errors == old(ctx.errors)
      case Failure(e) => stubDex == None && ctx.errors == old(ctx.errors) + [e]
    ensures ctx.actions == old(ctx.actions) + StubDexActions(ctx.prerequisites, split)
  {
    var attribute := if split then "$incremental_split_stub_application" else "$incremental_stub_application";
    if attribute !in ctx.prerequisites {
      ctx.ReportAttributeError(attribute, "Stub application cannot be found");
      return None;
    }
    var dep := ctx.prerequisites[attribute];
    if dep.runtimeJars.None? {
      ctx.ReportAttributeError(attribute, "'" + dep.targetLabel + "' should be a Java target");
      return None;
    }
    var stubDeployJar := MobileInstallArtifact(if split then "split_stub_deploy.jar" else "stub_deploy.jar");
    ctx.RegisterAction(DeployArchive(stubDeployJar, dep.runtimeJars.value));
    var dex := MobileInstallArtifact(
      if split then "split_stub_application/classes.dex" else "stub_application/classes.dex");
    ctx.RegisterAction(Dex(stubDeployJar, dex));
    stubDex := Some(dex);
  }

  /** Each instance depends only on its own attribute. */
  lemma StubDexReadsOwnAttribute(p: map<string, Target>, q: map<string, Target>, split: bool)
    requires StubAttribute(split) in p <==> StubAttribute(split) in q
    requires StubAttribute(split) in p ==> p[StubAttribute(split)] == q[StubAttribute(split)]
    ensures StubDex(p, split) == StubDex(q, split)
    ensures StubDexActions(p, split) == StubDexActions(q, split)
  {
  }
}
