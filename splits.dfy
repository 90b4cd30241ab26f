/**
 * The split APKs of a split install: their names, the order they are listed in, and the
 * actions that build the resources of one split.
 */
module Splits {
  import opened Wrappers
  import opened Artifacts
  import opened Actions

  /** Dex split i (counting from 0) is called dex1, dex2, ... */
  function DexSplitName(i: nat): string
  {
    "dex" + NatToString(i + 1)
  }

  function SplitApk(splitName: string): Artifact
  {
    MobileInstallArtifact(splitName + ".apk")
  }

  /** The resources of one split, packaged by aapt from the split's manifest. */
  function SplitApkResources(splitName: string): Artifact
  {
    MobileInstallArtifact("split_" + splitName + ".ap_")
  }

  const ResourceSplitApk: Artifact := MobileInstallArtifact("android_resources.apk")
  const NativeSplitApk: Artifact := MobileInstallArtifact("native.apk")
  const JavaResourcesSplitApk: Artifact := MobileInstallArtifact("java_resources.apk")
  const SplitMainApkResources: Artifact := MobileInstallArtifact("split_main.ap_")
  const SplitMainApk: Artifact := MobileInstallArtifact("split_main.apk")

  /** One APK per dex shard, in shard order. */
  function DexSplitApks(n: nat): seq<Artifact>
  {
    if n == 0 then [] else DexSplitApks(n - 1) + [SplitApk(DexSplitName(n - 1))]
  }

  /** The splits handed to the split install next to the main split: resources first. */
  function SplitApks(shards: nat): seq<Artifact>
  {
    [ResourceSplitApk] + DexSplitApks(shards) + [NativeSplitApk, JavaResourcesSplitApk]
  }

  /** Every split APK, the main split last. */
  function AllSplitApks(shards: nat): seq<Artifact>
  {
    SplitApks(shards) + [SplitMainApk]
  }

  // ---------------------------------------------------------------------------
  // Order.

  lemma {:induction false} DexSplitApksAt(n: nat, i: nat)
    requires i < n
    ensures |DexSplitApks(n)| == n
    ensures DexSplitApks(n)[i] == SplitApk(DexSplitName(i))
  {
    DexSplitApksLength(n - 1);
    if i < n - 1 {
      DexSplitApksAt(n - 1, i);
    }
  }

  lemma {:induction false} DexSplitApksLength(n: nat)
    ensures |DexSplitApks(n)| == n
  {
    if n > 0 {
      DexSplitApksLength(n - 1);
    }
  }

  /**
   * With n dex shards there are n + 4 split APKs: the Android resources split first,
   * then dex1 ... dexN in shard order, then native, then java_resources, and the main
   * split last.
   */
  lemma AllSplitApksOrder(n: nat)
    ensures |SplitApks(n)| == n + 3 && |AllSplitApks(n)| == n + 4
    ensures AllSplitApks(n)[0] == ResourceSplitApk
    ensures forall i :: 0 <= i < n ==> AllSplitApks(n)[i + 1] == SplitApk(DexSplitName(i))
    ensures AllSplitApks(n)[n + 1] == NativeSplitApk
    ensures AllSplitApks(n)[n + 2] == JavaResourcesSplitApk
    ensures AllSplitApks(n)[n + 3] == SplitMainApk
    ensures SplitApks(n) == AllSplitApks(n)[..n + 3]
  {
    DexSplitApksLength(n);
    forall i | 0 <= i < n
      ensures AllSplitApks(n)[i + 1] == SplitApk(DexSplitName(i))
    {
      DexSplitApksAt(n, i);
    }
  }

  // ---------------------------------------------------------------------------
  // Distinctness. The split set is a nested set, which drops repeated elements; the
  // splits being pairwise different is what makes it hold all n + 4 of them.

  /** Dex split APKs are named after their shard number and nothing else. */
  lemma DexSplitApkInjective(i: nat, j: nat)
    requires SplitApk(DexSplitName(i)) == SplitApk(DexSplitName(j))
    ensures i == j
  {
    AffixInjective("dex", NatToString(i + 1), NatToString(j + 1), ".apk");
    NatToStringInjective(i + 1, j + 1);
  }

  /** A dex split APK's name starts with 'd', unlike the four fixed splits. */
  lemma DexSplitApkFirstChar(i: nat)
    ensures SplitApk(DexSplitName(i)).baseName[0] == 'd'
    ensures ResourceSplitApk.baseName[0] != 'd' && NativeSplitApk.baseName[0] != 'd'
    ensures JavaResourcesSplitApk.baseName[0] != 'd' && SplitMainApk.baseName[0] != 'd'
  {
    assert SplitApk(DexSplitName(i)).baseName == "dex" + NatToString(i + 1) + ".apk";
  }

  lemma SplitApksDistinctAt(n: nat, i: nat, j: nat)
    requires i < j < |AllSplitApks(n)|
    ensures AllSplitApks(n)[i] != AllSplitApks(n)[j]
  {
    AllSplitApksOrder(n);
    var all := AllSplitApks(n);
    if 1 <= i <= n && 1 <= j <= n {
      if all[i] == all[j] {
        DexSplitApkInjective(i - 1, j - 1);
      }
    } else if 1 <= i <= n {
      DexSplitApkFirstChar(i - 1);
    } else if 1 <= j <= n {
      DexSplitApkFirstChar(j - 1);
    }
  }

  /** No split APK is listed twice. */
  lemma AllSplitApksDistinct(n: nat)
    ensures forall i, j :: 0 <= i < j < |AllSplitApks(n)| ==> AllSplitApks(n)[i] != AllSplitApks(n)[j]
  {
    AllSplitApksOrder(n);
    forall i, j | 0 <= i < j < |AllSplitApks(n)|
      ensures AllSplitApks(n)[i] != AllSplitApks(n)[j]
    {
      SplitApksDistinctAt(n, i, j);
    }
  }

  /** The splits handed to the split install never include the main split. */
  lemma SplitMainNotInSplitApks(n: nat)
    ensures SplitMainApk !in SplitApks(n)
  {
    AllSplitApksOrder(n);
    if SplitMainApk in SplitApks(n) {
      var i :| 0 <= i < |SplitApks(n)| && SplitApks(n)[i] == SplitMainApk;
      SplitApksDistinctAt(n, i, n + 3);
    }
  }

  // ---------------------------------------------------------------------------
  // The resources of one split.

  /** The aapt action createSplitApkResources registers. */
  function AaptSplitAction(mainManifest: Artifact, splitName: string, hasCode: bool): SpawnAction
  {
    var splitManifest := SplitManifest(mainManifest, splitName, hasCode);
    var splitResources := SplitApkResources(splitName);
    SpawnAction(
      "AaptSplitResourceApk", Aapt, [],
      [splitManifest, AndroidJar],
      [splitResources],
      [Str("package"), Str("-F"), ExecPath(splitResources), Str("-M"), ExecPath(splitManifest),
       Str("-I"), ExecPath(AndroidJar)],
      false, false, false)
  }

  /** Deriving the split's manifest, then packaging its resources. */
  function SplitResourcesActions(mainManifest: Artifact, splitName: string, hasCode: bool): seq<Registration>
  {
    [ManifestAction(SplitManifest(mainManifest, splitName, hasCode)),
     Spawn(AaptSplitAction(mainManifest, splitName, hasCode))]
  }

  method CreateSplitApkResources(ctx: RuleContext, mainManifest: Artifact, splitName: string, hasCode: bool)
    returns (splitResources: Artifact)
    modifies ctx
    ensures splitResources == SplitApkResources(splitName)
    ensures ctx.actions == old(ctx.actions) + SplitResourcesActions(mainManifest, splitName, hasCode)
    ensures ctx.errors == old(ctx.errors)
  {
    var splitManifest := SplitManifest(mainManifest, splitName, hasCode);
    ctx.RegisterAction(ManifestAction(splitManifest));
    splitResources := SplitApkResources(splitName);
    ctx.RegisterAction(Spawn(SpawnAction(
      "AaptSplitResourceApk", Aapt, [],
      [splitManifest, AndroidJar],
      [splitResources],
      [Str("package"), Str("-F"), ExecPath(splitResources), Str("-M"), ExecPath(splitManifest),
       Str("-I"), ExecPath(AndroidJar)],
      false, false, false)));
  }

  // ---------------------------------------------------------------------------
  // The dex splits.

  /** The signed APK of dex split i: shard i as its classes.dex, its own split resources. */
  function DexSplitBuild(i: nat, shardDexZip: Artifact, signingKey: Artifact): ApkBuild
  {
    var splitName := DexSplitName(i);
    ApkBuild("split dex apk " + NatToString(i + 1), Some(shardDexZip), [SplitApkResources(splitName)],
             None, None, None, SplitApk(splitName), signingKey)
  }

  /** What one turn of the shard loop registers. */
  function DexSplitActionsAt(mainManifest: Artifact, signingKey: Artifact, i: nat, shardDexZip: Artifact)
    : seq<Registration>
  {
    SplitResourcesActions(mainManifest, DexSplitName(i), true) + [Apk(DexSplitBuild(i, shardDexZip, signingKey))]
  }

  /** What the whole shard loop registers, shard by shard. */
  function DexSplitActions(mainManifest: Artifact, signingKey: Artifact, shards: seq<Artifact>): seq<Registration>
  {
    if |shards| == 0 then []
    else DexSplitActions(mainManifest, signingKey, shards[..|shards| - 1])
         + DexSplitActionsAt(mainManifest, signingKey, |shards| - 1, shards[|shards| - 1])
  }

  /** One more turn of the shard loop appends that turn's registrations. */
  lemma DexSplitActionsStep(mainManifest: Artifact, signingKey: Artifact, shards: seq<Artifact>, i: nat)
    requires i < |shards|
    ensures DexSplitActions(mainManifest, signingKey, shards[..i + 1])
            == DexSplitActions(mainManifest, signingKey, shards[..i])
               + DexSplitActionsAt(mainManifest, signingKey, i, shards[i])
  {
    assert shards[..i + 1][..i] == shards[..i];
  }

  lemma {:induction false} DexSplitActionsLength(mainManifest: Artifact, signingKey: Artifact, shards: seq<Artifact>)
    ensures |DexSplitActions(mainManifest, signingKey, shards)| == 3 * |shards|
    decreases |shards|
  {
    if |shards| > 0 {
      DexSplitActionsLength(mainManifest, signingKey, shards[..|shards| - 1]);
    }
  }

  /**
   * The shard loop registers three things per shard, in shard order: the split manifest
   * of dex(i+1) with code, its aapt packaging into split_dex(i+1).ap_, and the signed APK
   * dex(i+1).apk whose classes.dex is shard i.
   */
  lemma {:induction false} DexSplitActionsWiring(mainManifest: Artifact, signingKey: Artifact,
                                                 shards: seq<Artifact>, i: nat)
    requires i < |shards|
    ensures |DexSplitActions(mainManifest, signingKey, shards)| == 3 * |shards|
    ensures DexSplitActions(mainManifest, signingKey, shards)[3 * i .. 3 * i + 3]
            == DexSplitActionsAt(mainManifest, signingKey, i, shards[i])
    decreases |shards|
  {
    var front := shards[..|shards| - 1];
    DexSplitActionsLength(mainManifest, signingKey, shards);
    DexSplitActionsLength(mainManifest, signingKey, front);
    var all := DexSplitActions(mainManifest, signingKey, shards);
    var pre := DexSplitActions(mainManifest, signingKey, front);
    if i < |front| {
      DexSplitActionsWiring(mainManifest, signingKey, front, i);
      assert shards[i] == front[i];
      assert all[3 * i .. 3 * i + 3] == pre[3 * i .. 3 * i + 3];
    } else {
      assert all[3 * i .. 3 * i + 3] == all[|pre|..];
    }
  }
}
