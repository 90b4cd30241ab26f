/**
 * The two resource packages of mobile-install: one for the incremental APK (its manifest
 * carries the stub application) and one for the Android resources split. Two processing
 * strategies exist; both register the same shape of work and produce the same artifacts.
 */
module ResourceApks {
  import opened Wrappers
  import opened Artifacts
  import opened Actions

  /** A packaged-resources artifact with the manifest it was built from. */
  datatype ResourceApk = ResourceApk(artifact: Artifact, manifest: Artifact)

  datatype MobileInstallResourceApks = MobileInstallResourceApks(incremental: ResourceApk, split: ResourceApk)

  function IncrementalResourceApk(applicationManifest: Artifact): ResourceApk
  {
    ResourceApk(Implicit(IncrementalResourcesApk), StubManifest(applicationManifest))
  }

  function SplitResourceApk(applicationManifest: Artifact): ResourceApk
  {
    ResourceApk(MobileInstallArtifact("android_resources.ap_"),
                SplitManifest(applicationManifest, "android_resources", false))
  }

  /** How one resource package is built under the chosen strategy. */
  function PackageActions(decoupled: bool, noCompress: seq<string>, crunchPng: bool, r: ResourceApk,
                          kind: string): seq<Registration>
  {
    [ManifestAction(r.manifest),
     if decoupled then ProcessIncrementalData(r.manifest, r.artifact, kind)
     else PackIncremental(r.manifest, r.artifact, noCompress, crunchPng, kind)]
  }

  /** Everything createMobileInstallResourceApks registers when no error stops it. */
  function ResourceApkActions(decoupled: bool, noCompress: seq<string>, crunchPng: bool,
                              applicationManifest: Artifact): seq<Registration>
  {
    PackageActions(decoupled, noCompress, crunchPng, IncrementalResourceApk(applicationManifest), "incremental")
    + PackageActions(decoupled, noCompress, crunchPng, SplitResourceApk(applicationManifest), "incremental_split")
  }

  /**
   * Builds both resource packages with the strategy the configuration selects, checking
   * for reported errors where the rule does: after the incremental package in the legacy
   * strategy, and after both packages in either.
   */
  method CreateMobileInstallResourceApks(ctx: RuleContext, applicationManifest: Artifact)
    returns (apks: Option<MobileInstallResourceApks>)
    modifies ctx
    ensures ctx.errors == old(ctx.errors)
    ensures apks.Some? <==> !ctx.HasErrors()
    ensures apks.Some? ==> apks.value == MobileInstallResourceApks(
      IncrementalResourceApk(applicationManifest), SplitResourceApk(applicationManifest))
    ensures var all := ResourceApkActions(ctx.decoupleDataProcessing, ctx.noCompressExtensions, ctx.crunchPng,
                                          applicationManifest);
      ctx.actions == old(ctx.actions)
        + (if apks.None? && !ctx.decoupleDataProcessing then all[..2] else all)
  {
    ghost var before := ctx.actions;
    ghost var first := PackageActions(ctx.decoupleDataProcessing, ctx.noCompressExtensions, ctx.crunchPng,
                                      IncrementalResourceApk(applicationManifest), "incremental");
    ghost var second := PackageActions(ctx.decoupleDataProcessing, ctx.noCompressExtensions, ctx.crunchPng,
                                       SplitResourceApk(applicationManifest), "incremental_split");
    var incremental: ResourceApk;
    var split: ResourceApk;
    if ctx.decoupleDataProcessing {
      var stubManifest := StubManifest(applicationManifest);
      ctx.RegisterAction(ManifestAction(stubManifest));
      incremental := ResourceApk(Implicit(IncrementalResourcesApk), stubManifest);
      ctx.RegisterAction(ProcessIncrementalData(stubManifest, incremental.artifact, "incremental"));
      assert ctx.actions == before + first;
      var splitManifest := SplitManifest(applicationManifest, "android_resources", false);
      ctx.RegisterAction(ManifestAction(splitManifest));
      split := ResourceApk(MobileInstallArtifact("android_resources.ap_"), splitManifest);
      ctx.RegisterAction(ProcessIncrementalData(splitManifest, split.artifact, "incremental_split"));
      assert ctx.actions == before + first + second;
    } else {
      var stubManifest := StubManifest(applicationManifest);
      ctx.RegisterAction(ManifestAction(stubManifest));
      incremental := ResourceApk(Implicit(IncrementalResourcesApk), stubManifest);
      ctx.RegisterAction(PackIncremental(stubManifest, incremental.artifact, ctx.noCompressExtensions,
                                         ctx.crunchPng, "incremental"));
      assert ctx.actions == before + first;
      assert (first + second)[..2] == first;
      if ctx.HasErrors() {
        return None;
      }
      var splitManifest := SplitManifest(applicationManifest, "android_resources", false);
      ctx.RegisterAction(ManifestAction(splitManifest));
      split := ResourceApk(MobileInstallArtifact("android_resources.ap_"), splitManifest);
      ctx.RegisterAction(PackIncremental(splitManifest, split.artifact, ctx.noCompressExtensions,
                                         ctx.crunchPng, "incremental_split"));
      assert ctx.actions == before + first + second;
    }
    assert ctx.actions == before + (first + second);
    if ctx.HasErrors() {
      return None;
    }
    apks := Some(MobileInstallResourceApks(incremental, split));
  }

  /**
   * The strategy changes how each package is processed, never which packages exist: both
   * register four things, derive the same two manifests and write the same two packages,
   * the split one to android_resources.ap_ from the android_resources manifest without code.
   * The manifests agree because the model derives them the same way for both strategies.
   */
  lemma StrategiesAgree(noCompress: seq<string>, crunchPng: bool, applicationManifest: Artifact)
    ensures var d := ResourceApkActions(true, noCompress, crunchPng, applicationManifest);
      var l := ResourceApkActions(false, noCompress, crunchPng, applicationManifest);
      && |d| == |l| == 4
      && d[0] == l[0] == ManifestAction(StubManifest(applicationManifest))
      && d[2] == l[2] == ManifestAction(SplitManifest(applicationManifest, "android_resources", false))
      && Outputs(d[1]) == Outputs(l[1]) == [Implicit(IncrementalResourcesApk)]
      && Outputs(d[3]) == Outputs(l[3]) == [MobileInstallArtifact("android_resources.ap_")]
  {
  }
}
