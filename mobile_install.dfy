/**
 * addMobileInstall: wires the incremental APK, the three install actions, the split APKs
 * and the output groups of one android_binary, step by step on the rule context.
 */
module MobileInstall {
  import opened Wrappers
  import opened Artifacts
  import opened Actions
  import opened InstallActions
  import opened Splits
  import opened StubApplication
  import opened ResourceApks

  /** What the rest of the binary's analysis hands to mobile-install. */
  datatype MobileInstallInputs = MobileInstallInputs(
    shardDexZips: seq<Artifact>,
    javaResourceJar: Artifact,
    nativeLibs: NativeLibs,
    resourceApk: ResourceApk,
    resourceApks: MobileInstallResourceApks,
    nativeLibsAar: seq<Artifact>,
    signingKey: Artifact,
    additionalMergedManifests: seq<Artifact>,
    applicationManifest: Artifact)

  datatype OutputGroup = OutputGroup(name: string, artifacts: seq<Artifact>)

  /** OutputGroupInfo.INTERNAL_SUFFIX, the framework's marker for internal output groups. */
  const InternalSuffix: string := "_INTERNAL_"

  function ExecPaths(artifacts: seq<Artifact>): (r: seq<Arg>)
    ensures |r| == |artifacts| && forall i :: 0 <= i < |artifacts| ==> r[i] == ExecPath(artifacts[i])
  {
    seq(|artifacts|, i requires 0 <= i < |artifacts| => ExecPath(artifacts[i]))
  }

  /** The manifest of dex shards that the incremental install tool reads. */
  function DexManifestAction(shardDexZips: seq<Artifact>): SpawnAction
  {
    SpawnAction("AndroidDexManifest", BuildIncrementalDexManifest, [], shardDexZips, [Implicit(DexManifest)],
                [ExecPath(Implicit(DexManifest))] + ExecPaths(shardDexZips), true, false, false)
  }

  /**
   * The incremental APK: the stub dex, the incremental resources, the Java resources and
   * the stub data; the native libraries go into it only when they are not installed
   * one by one.
   */
  function IncrementalApkBuild(useIncrementalNativeLibs: bool, mi: MobileInstallInputs): ApkBuild
  {
    ApkBuild("incremental apk", Some(StubDexArtifact(false)),
             [mi.resourceApks.incremental.artifact] + mi.nativeLibsAar,
             Some(mi.javaResourceJar),
             if useIncrementalNativeLibs then None else Some(mi.nativeLibs),
             Some(Implicit(StubApplicationData)),
             Implicit(IncrementalApk), mi.signingKey)
  }

  function ResourceSplitBuild(mi: MobileInstallInputs): ApkBuild
  {
    ApkBuild("split Android resource apk", None, [mi.resourceApks.split.artifact], None, None, None,
             ResourceSplitApk, mi.signingKey)
  }

  function NativeSplitBuild(mi: MobileInstallInputs): ApkBuild
  {
    ApkBuild("split native apk", None, [SplitApkResources("native")], None, Some(mi.nativeLibs), None,
             NativeSplitApk, mi.signingKey)
  }

  function JavaResourcesSplitBuild(mi: MobileInstallInputs): ApkBuild
  {
    ApkBuild("split Java resource apk", None, [SplitApkResources("java_resources")], Some(mi.javaResourceJar),
             None, None, JavaResourcesSplitApk, mi.signingKey)
  }

  function SplitMainBuild(mi: MobileInstallInputs): ApkBuild
  {
    ApkBuild("split main apk", Some(StubDexArtifact(true)), [SplitMainApkResources] + mi.nativeLibsAar,
             None, None, None, SplitMainApk, mi.signingKey)
  }

  /** Strips every resource from the main resource APK, for the main split. */
  function StripResourcesAction(mi: MobileInstallInputs): SpawnAction
  {
    SpawnAction("AndroidStripResources", StripResources, [], [mi.resourceApk.artifact], [SplitMainApkResources],
                [Str("--input_resource_apk"), ExecPath(mi.resourceApk.artifact),
                 Str("--output_resource_apk"), ExecPath(SplitMainApkResources)],
                false, false, false)
  }

  function FullInstallAction(useIncrementalNativeLibs: bool, mi: MobileInstallInputs): SpawnAction
  {
    InstallAction(false, useIncrementalNativeLibs, Implicit(FullDeployMarker), Implicit(MobileInstallArgs),
                  Implicit(DexManifest), mi.resourceApks.incremental.artifact, Implicit(IncrementalApk),
                  mi.nativeLibs, Implicit(StubApplicationData))
  }

  function IncrementalInstallAction(useIncrementalNativeLibs: bool, mi: MobileInstallInputs): SpawnAction
  {
    InstallAction(true, useIncrementalNativeLibs, Implicit(IncrementalDeployMarker), Implicit(MobileInstallArgs),
                  Implicit(DexManifest), mi.resourceApks.incremental.artifact, Implicit(IncrementalApk),
                  mi.nativeLibs, Implicit(StubApplicationData))
  }

  function SplitInstall(mi: MobileInstallInputs): SpawnAction
  {
    SplitInstallAction(Implicit(SplitDeployMarker), Implicit(MobileInstallArgs), SplitMainApk,
                       SplitApks(|mi.shardDexZips|), Implicit(StubApplicationData))
  }

  /** Up to the first error check: the dex manifest and the stub dex. */
  function IncrementalPrologue(prerequisites: map<string, Target>, mi: MobileInstallInputs): seq<Registration>
  {
    [Spawn(DexManifestAction(mi.shardDexZips))] + StubDexActions(prerequisites, false)
  }

  /** The incremental APK, the args file, the full and the incremental install. */
  function IncrementalInstalls(useIncrementalNativeLibs: bool, mi: MobileInstallInputs): seq<Registration>
  {
    [Apk(IncrementalApkBuild(useIncrementalNativeLibs, mi)),
     WriteAdbArgs(Implicit(MobileInstallArgs)),
     Spawn(FullInstallAction(useIncrementalNativeLibs, mi)),
     Spawn(IncrementalInstallAction(useIncrementalNativeLibs, mi))]
  }

  /** The native and Java resources splits and the stripped main resources. */
  function SplitTail(mi: MobileInstallInputs): seq<Registration>
  {
    SplitResourcesActions(mi.applicationManifest, "native", false)
    + [Apk(NativeSplitBuild(mi))]
    + SplitResourcesActions(mi.applicationManifest, "java_resources", false)
    + [Apk(JavaResourcesSplitBuild(mi)),
       Spawn(StripResourcesAction(mi))]
  }

  /** Every split APK but the main one, and the stripped resources of the main one. */
  function SplitApkActions(mi: MobileInstallInputs): seq<Registration>
  {
    [Apk(ResourceSplitBuild(mi))]
    + DexSplitActions(mi.applicationManifest, mi.signingKey, mi.shardDexZips)
    + SplitTail(mi)
  }

  /** From the incremental APK to the split stub dex, before the second error check. */
  function SplitsBody(prerequisites: map<string, Target>, useIncrementalNativeLibs: bool, mi: MobileInstallInputs)
    : seq<Registration>
  {
    IncrementalInstalls(useIncrementalNativeLibs, mi) + SplitApkActions(mi) + StubDexActions(prerequisites, true)
  }

  /** After the second error check: the main split, the split install, the deploy infos. */
  function SplitEpilogue(mi: MobileInstallInputs): seq<Registration>
  {
    [Apk(SplitMainBuild(mi)),
     Spawn(SplitInstall(mi)),
     DeployInfo(Implicit(DeployInfoIncremental), mi.resourceApk.manifest, mi.additionalMergedManifests),
     DeployInfo(Implicit(DeployInfoSplit), mi.resourceApk.manifest, mi.additionalMergedManifests)]
  }

  /** Everything addMobileInstall registers when no error stops it. */
  function MobileInstallActions(prerequisites: map<string, Target>, useIncrementalNativeLibs: bool,
                                mi: MobileInstallInputs): seq<Registration>
  {
    IncrementalPrologue(prerequisites, mi) + SplitsBody(prerequisites, useIncrementalNativeLibs, mi)
    + SplitEpilogue(mi)
  }

  /**
   * The errors a stopped addMobileInstall reports itself: the stub's when it is unusable;
   * otherwise none when earlier errors stop the run at the first check, and the split
   * stub's when it is unusable.
   */
  function StopErrors(prerequisites: map<string, Target>, earlier: seq<AttributeError>): seq<AttributeError>
  {
    match StubDex(prerequisites, false)
    case Failure(e) => [e]
    case Success(_) =>
      if earlier != [] then []
      else match StubDex(prerequisites, true)
        case Failure(e) => [e]
        case Success(_) => []
  }

  /** The four output groups addMobileInstall adds to the configured target. */
  function MobileInstallOutputGroups(shards: nat): seq<OutputGroup>
  {
    [OutputGroup("mobile_install_full" + InternalSuffix,
                 [Implicit(FullDeployMarker), Implicit(DeployInfoIncremental)]),
     OutputGroup("mobile_install_incremental" + InternalSuffix,
                 [Implicit(IncrementalDeployMarker), Implicit(DeployInfoIncremental)]),
     OutputGroup("mobile_install_split" + InternalSuffix,
                 AllSplitApks(shards) + [Implicit(SplitDeployMarker), Implicit(DeployInfoSplit)]),
     OutputGroup("android_incremental_deploy_info", [Implicit(DeployInfoIncremental)])]
  }

  /** The incremental APK, which holds the stub dex, then the full and incremental installs. */
  method AddIncrementalInstalls(ctx: RuleContext, mi: MobileInstallInputs, stubDex: Option<Artifact>)
    requires stubDex == Some(StubDexArtifact(false))
    modifies ctx
    ensures ctx.actions == old(ctx.actions) + IncrementalInstalls(ctx.useIncrementalNativeLibs, mi)
    ensures ctx.errors == old(ctx.errors)
  {
    var incrementalApk := Implicit(IncrementalApk);
    var stubData := Implicit(StubApplicationData);
    ctx.RegisterAction(Apk(ApkBuild(
      "incremental apk", stubDex, [mi.resourceApks.incremental.artifact] + mi.nativeLibsAar,
      Some(mi.javaResourceJar), if ctx.useIncrementalNativeLibs then None else Some(mi.nativeLibs),
      Some(stubData), incrementalApk, mi.signingKey)));

    var argsArtifact := Implicit(MobileInstallArgs);
    ctx.RegisterAction(WriteAdbArgs(argsArtifact));

    CreateInstallAction(ctx, false, Implicit(FullDeployMarker), argsArtifact, Implicit(DexManifest),
                        mi.resourceApks.incremental.artifact, incrementalApk, mi.nativeLibs, stubData);
    CreateInstallAction(ctx, true, Implicit(IncrementalDeployMarker), argsArtifact, Implicit(DexManifest),
                        mi.resourceApks.incremental.artifact, incrementalApk, mi.nativeLibs, stubData);
  }

  /** One split APK per dex shard, in shard order, each with its own split resources. */
  method AddDexSplits(ctx: RuleContext, mi: MobileInstallInputs) returns (dexSplitApks: seq<Artifact>)
    modifies ctx
    ensures dexSplitApks == DexSplitApks(|mi.shardDexZips|)
    ensures ctx.actions == old(ctx.actions) + DexSplitActions(mi.applicationManifest, mi.signingKey, mi.shardDexZips)
    ensures ctx.errors == old(ctx.errors)
  {
    dexSplitApks := [];
    var shards := mi.shardDexZips;
    for i := 0 to |shards|
      invariant ctx.errors == old(ctx.errors)
      invariant ctx.actions == old(ctx.actions) + DexSplitActions(mi.applicationManifest, mi.signingKey, shards[..i])
      invariant dexSplitApks == DexSplitApks(i)
    {
      var splitApk := AddDexSplit(ctx, mi.applicationManifest, mi.signingKey, i, shards[i]);
      dexSplitApks := dexSplitApks + [splitApk];
      DexSplitActionsStep(mi.applicationManifest, mi.signingKey, shards, i);
    }
    assert shards[..|shards|] == shards;
  }

  /** One turn of the shard loop: the split's resources, then its APK around the shard's dex. */
  method AddDexSplit(ctx: RuleContext, mainManifest: Artifact, signingKey: Artifact, i: nat, shardDexZip: Artifact)
    returns (splitApk: Artifact)
    modifies ctx
    ensures splitApk == SplitApk(DexSplitName(i))
    ensures ctx.actions == old(ctx.actions) + DexSplitActionsAt(mainManifest, signingKey, i, shardDexZip)
    ensures ctx.errors == old(ctx.errors)
  {
    var splitName := "dex" + NatToString(i + 1);
    var splitApkResources := CreateSplitApkResources(ctx, mainManifest, splitName, true);
    splitApk := MobileInstallArtifact(splitName + ".apk");
    ctx.RegisterAction(Apk(ApkBuild("split dex apk " + NatToString(i + 1), Some(shardDexZip),
                                    [splitApkResources], None, None, None, splitApk, signingKey)));
  }

  /** The native and Java resources splits, then the stripped resources of the main split. */
  method AddSplitTail(ctx: RuleContext, mi: MobileInstallInputs) returns (tailApks: seq<Artifact>)
    modifies ctx
    ensures tailApks == [NativeSplitApk, JavaResourcesSplitApk]
    ensures ctx.actions == old(ctx.actions) + SplitTail(mi)
    ensures ctx.errors == old(ctx.errors)
  {
    var nativeSplitApkResources := CreateSplitApkResources(ctx, mi.applicationManifest, "native", false);
    var nativeSplitApk := MobileInstallArtifact("native.apk");
    ctx.RegisterAction(Apk(ApkBuild("split native apk", None, [nativeSplitApkResources], None,
                                    Some(mi.nativeLibs), None, nativeSplitApk, mi.signingKey)));
    tailApks := [nativeSplitApk];

    var javaSplitApkResources := CreateSplitApkResources(ctx, mi.applicationManifest, "java_resources", false);
    var javaSplitApk := MobileInstallArtifact("java_resources.apk");
    ctx.RegisterAction(Apk(ApkBuild("split Java resource apk", None, [javaSplitApkResources],
                                    Some(mi.javaResourceJar), None, None, javaSplitApk, mi.signingKey)));
    tailApks := tailApks + [javaSplitApk];

    var splitMainApkResources := MobileInstallArtifact("split_main.ap_");
    ctx.RegisterAction(Spawn(SpawnAction(
      "AndroidStripResources", StripResources, [], [mi.resourceApk.artifact], [splitMainApkResources],
      [Str("--input_resource_apk"), ExecPath(mi.resourceApk.artifact),
       Str("--output_resource_apk"), ExecPath(splitMainApkResources)],
      false, false, false)));
  }

  /**
   * Builds the split APKs in install order: Android resources first, one per dex shard,
   * native, Java resources; then strips the resources of the main split. Returns the
   * split set as it stands before the main split joins it.
   */
  method AddSplitApks(ctx: RuleContext, mi: MobileInstallInputs) returns (splitApkSet: seq<Artifact>)
    modifies ctx
    ensures splitApkSet == SplitApks(|mi.shardDexZips|)
    ensures ctx.actions == old(ctx.actions) + SplitApkActions(mi)
    ensures ctx.errors == old(ctx.errors)
  {
    // The Android resources split goes first, so that it is installed first.
    ghost var before := ctx.actions;
    splitApkSet := [];
    var resourceSplitApk := MobileInstallArtifact("android_resources.apk");
    ctx.RegisterAction(Apk(ApkBuild("split Android resource apk", None, [mi.resourceApks.split.artifact],
                                    None, None, None, resourceSplitApk, mi.signingKey)));
    splitApkSet := splitApkSet + [resourceSplitApk];

    var dexSplitApks := AddDexSplits(ctx, mi);
    splitApkSet := splitApkSet + dexSplitApks;

    var tailApks := AddSplitTail(ctx, mi);
    splitApkSet := splitApkSet + tailApks;
    AppendInOrder(before, [Apk(ResourceSplitBuild(mi))],
                  DexSplitActions(mi.applicationManifest, mi.signingKey, mi.shardDexZips), SplitTail(mi));
  }


  /**
   * The main split, which holds the split stub dex and the stripped resources; then the
   * split install, given the other splits, and the two deploy-info files. Returns every
   * split APK, the main one last.
   */
  method AddSplitMain(ctx: RuleContext, mi: MobileInstallInputs, splitApks: seq<Artifact>,
                      splitStubDex: Option<Artifact>)
    returns (allSplitApks: seq<Artifact>)
    requires splitApks == SplitApks(|mi.shardDexZips|)
    requires splitStubDex == Some(StubDexArtifact(true))
    modifies ctx
    ensures allSplitApks == AllSplitApks(|mi.shardDexZips|)
    ensures ctx.actions == old(ctx.actions) + SplitEpilogue(mi)
    ensures ctx.errors == old(ctx.errors)
  {
    var splitMainApk := MobileInstallArtifact("split_main.apk");
    ctx.RegisterAction(Apk(ApkBuild("split main apk", splitStubDex,
                                    [MobileInstallArtifact("split_main.ap_")] + mi.nativeLibsAar, None, None, None,
                                    splitMainApk, mi.signingKey)));
    allSplitApks := splitApks + [splitMainApk];

    CreateSplitInstallAction(ctx, Implicit(SplitDeployMarker), Implicit(MobileInstallArgs), splitMainApk,
                             splitApks, Implicit(StubApplicationData));

    ctx.RegisterAction(DeployInfo(Implicit(DeployInfoIncremental), mi.resourceApk.manifest,
                                  mi.additionalMergedManifests));
    ctx.RegisterAction(DeployInfo(Implicit(DeployInfoSplit), mi.resourceApk.manifest,
                                  mi.additionalMergedManifests));
  }

  /** The dex manifest of the incremental APK, then the stub application's dex. */
  method AddIncrementalPrologue(ctx: RuleContext, mi: MobileInstallInputs) returns (stubDex: Option<Artifact>)
    modifies ctx
    ensures ctx.actions == old(ctx.actions) + IncrementalPrologue(ctx.prerequisites, mi)
    ensures StubDex(ctx.prerequisites, false).Success? ==>
              stubDex == Some(StubDexArtifact(false)) && ctx.errors == old(ctx.errors)
    ensures StubDex(ctx.prerequisites, false).Failure? ==>
              stubDex == None && ctx.errors == old(ctx.errors) + [StubDex(ctx.prerequisites, false).error]
  {
    var incrementalDexManifest := Implicit(DexManifest);
    ctx.RegisterAction(Spawn(SpawnAction(
      "AndroidDexManifest", BuildIncrementalDexManifest, [], mi.shardDexZips, [incrementalDexManifest],
      [ExecPath(incrementalDexManifest)] + ExecPaths(mi.shardDexZips), true, false, false)));
    stubDex := GetStubDex(ctx, false);
  }

  /**
   * Between the two error checks: the incremental APK and its installs, the split APKs,
   * then the split stub application's dex. Returns the split set without the main split.
   */
  method AddSplitsBody(ctx: RuleContext, mi: MobileInstallInputs, stubDex: Option<Artifact>)
    returns (splitApks: seq<Artifact>, splitStubDex: Option<Artifact>)
    requires stubDex == Some(StubDexArtifact(false))
    modifies ctx
    ensures splitApks == SplitApks(|mi.shardDexZips|)
    ensures ctx.actions == old(ctx.actions) + SplitsBody(ctx.prerequisites, ctx.useIncrementalNativeLibs, mi)
    ensures StubDex(ctx.prerequisites, true).Success? ==>
              splitStubDex == Some(StubDexArtifact(true)) && ctx.errors == old(ctx.errors)
    ensures StubDex(ctx.prerequisites, true).Failure? ==>
              splitStubDex == None && ctx.errors == old(ctx.errors) + [StubDex(ctx.prerequisites, true).error]
  {
    ghost var before := ctx.actions;
    AddIncrementalInstalls(ctx, mi, stubDex);
    splitApks := AddSplitApks(ctx, mi);
    splitStubDex := GetStubDex(ctx, true);
    AppendInOrder(before, IncrementalInstalls(ctx.useIncrementalNativeLibs, mi), SplitApkActions(mi),
                  StubDexActions(ctx.prerequisites, true));
  }

  /**
   * Registers every mobile-install action of the binary and returns its output groups,
   * or None when assertNoErrors stops construction: after the stub dex, if any error has
   * been reported by then, and after the split stub dex, likewise.
   */
  method AddMobileInstall(ctx: RuleContext, mi: MobileInstallInputs) returns (groups: Option<seq<OutputGroup>>)
    modifies ctx
    ensures groups.Some? <==> old(ctx.errors) == [] && StubDex(ctx.prerequisites, false).Success?
                              && StubDex(ctx.prerequisites, true).Success?
    ensures groups.Some? ==> && groups.value == MobileInstallOutputGroups(|mi.shardDexZips|)
                             && ctx.errors == old(ctx.errors)
                             && ctx.actions == old(ctx.actions)
                                + MobileInstallActions(ctx.prerequisites, ctx.useIncrementalNativeLibs, mi)
    ensures groups.None? ==> ctx.HasErrors()
    ensures groups.None? ==>
      ctx.errors == old(ctx.errors) + StopErrors(ctx.prerequisites, old(ctx.errors))
    ensures groups.None? ==>
      var stopsEarly := old(ctx.errors) != [] || StubDex(ctx.prerequisites, false).Failure?;
      ctx.actions == old(ctx.actions) + IncrementalPrologue(ctx.prerequisites, mi)
        + (if stopsEarly then [] else SplitsBody(ctx.prerequisites, ctx.useIncrementalNativeLibs, mi))
  {
    ghost var before := ctx.actions;
    ghost var prologue := IncrementalPrologue(ctx.prerequisites, mi);
    ghost var body := SplitsBody(ctx.prerequisites, ctx.useIncrementalNativeLibs, mi);
    var stubDex := AddIncrementalPrologue(ctx, mi);
    if ctx.HasErrors() {
      assert ctx.actions == before + prologue + [];
      return None;
    }
    var splitApks, splitStubDex := AddSplitsBody(ctx, mi, stubDex);
    if ctx.HasErrors() {
      return None;
    }
    var allSplitApks := AddSplitMain(ctx, mi, splitApks, splitStubDex);
    AppendInOrder(before, prologue, body, SplitEpilogue(mi));
    var incrementalDeployInfo := Implicit(DeployInfoIncremental);
    var splitDeployInfo := Implicit(DeployInfoSplit);
    groups := Some([
      OutputGroup("mobile_install_full" + InternalSuffix, [Implicit(FullDeployMarker), incrementalDeployInfo]),
      OutputGroup("mobile_install_incremental" + InternalSuffix,
                  [Implicit(IncrementalDeployMarker), incrementalDeployInfo]),
      OutputGroup("mobile_install_split" + InternalSuffix,
                  allSplitApks + [Implicit(SplitDeployMarker), splitDeployInfo]),
      OutputGroup("android_incremental_deploy_info", [incrementalDeployInfo])]);
  }

  /**
   * Three phases appended one after the other to a list are that list plus the three
   * phases. Stated apart over plain sequences because the same equation over the phases'
   * own terms is far more expensive to check inside the methods that use it.
   */
  lemma AppendInOrder<T>(s: seq<T>, a: seq<T>, b: seq<T>, c: seq<T>)
    ensures s + a + b + c == s + (a + b + c)
  {
  }
}
