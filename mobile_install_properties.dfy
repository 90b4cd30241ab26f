/**
 * What addMobileInstall promises as a whole: which APKs get signed and with what key,
 * which of its spawn actions are marked to execute unconditionally, and what the output
 * groups hold.
 */
module MobileInstallProperties {
  import opened Wrappers
  import opened Artifacts
  import opened Actions
  import opened InstallActions
  import opened Splits
  import opened StubApplication
  import opened MobileInstall

  // ---------------------------------------------------------------------------
  // Picking registrations of one kind out of a registration list.

  function PickApk(r: Registration): Option<ApkBuild>
  {
    if r.Apk? then Some(r.apk) else None
  }

  /**
   * The spawn actions marked to execute unconditionally, so that the build runs them even
   * when their inputs are unchanged. Other registrations are never picked: how the builders
   * outside this file execute their actions is not modelled.
   */
  function PickUnconditional(r: Registration): Option<SpawnAction>
  {
    if r.Spawn? && r.action.executeUnconditionally then Some(r.action) else None
  }

  /** The registrations `pick` selects, in registration order. */
  function Picked<T>(rs: seq<Registration>, pick: Registration -> Option<T>): seq<T>
  {
    if |rs| == 0 then []
    else Picked(rs[..|rs| - 1], pick) + (match pick(rs[|rs| - 1]) case Some(x) => [x] case None => [])
  }

  lemma {:induction false} PickedAppend<T>(a: seq<Registration>, b: seq<Registration>, pick: Registration -> Option<T>)
    ensures Picked(a + b, pick) == Picked(a, pick) + Picked(b, pick)
    decreases |b|
  {
    if |b| == 0 {
      assert a + b == a;
    } else {
      var front := b[..|b| - 1];
      PickedAppend(a, front, pick);
      assert (a + b)[..|a + b| - 1] == a + front;
    }
  }

  /** A registration list holding nothing that `pick` selects. */
  lemma {:induction false} PickedNone<T>(rs: seq<Registration>, pick: Registration -> Option<T>)
    requires forall i :: 0 <= i < |rs| ==> pick(rs[i]).None?
    ensures Picked(rs, pick) == []
    decreases |rs|
  {
    if |rs| > 0 {
      PickedNone(rs[..|rs| - 1], pick);
    }
  }

  /** What `pick` does not select from a list, it selects from none of the list's registrations. */
  lemma {:induction false} NotPicked<T>(rs: seq<Registration>, pick: Registration -> Option<T>, x: T)
    requires x !in Picked(rs, pick)
    ensures forall i :: 0 <= i < |rs| ==> pick(rs[i]) != Some(x)
    decreases |rs|
  {
    if |rs| > 0 {
      var front := rs[..|rs| - 1];
      assert Picked(rs, pick) == Picked(front, pick) + (match pick(rs[|rs| - 1]) case Some(y) => [y] case None => []);
      NotPicked(front, pick, x);
      assert forall i :: 0 <= i < |rs| - 1 ==> rs[i] == front[i];
    }
  }

  lemma PickedOne<T>(r: Registration, pick: Registration -> Option<T>)
    ensures Picked([r], pick) == (match pick(r) case Some(x) => [x] case None => [])
  {
    assert [r][..0] == [];
  }

  function SignedApks(builds: seq<ApkBuild>): (r: seq<Artifact>)
    ensures |r| == |builds| && forall i :: 0 <= i < |builds| ==> r[i] == builds[i].signedApk
  {
    seq(|builds|, i requires 0 <= i < |builds| => builds[i].signedApk)
  }

  // ---------------------------------------------------------------------------
  // Signed APKs.

  /** The shard loop signs dex1.apk … dexN.apk, in shard order. */
  lemma {:induction false} DexSplitSignedApks(mainManifest: Artifact, signingKey: Artifact, shards: seq<Artifact>)
    ensures SignedApks(Picked(DexSplitActions(mainManifest, signingKey, shards), PickApk)) == DexSplitApks(|shards|)
    decreases |shards|
  {
    if |shards| > 0 {
      var i := |shards| - 1;
      var front := shards[..i];
      DexSplitSignedApks(mainManifest, signingKey, front);
      var pre := Picked(DexSplitActions(mainManifest, signingKey, front), PickApk);
      var build := DexSplitBuild(i, shards[i], signingKey);
      DexSplitPickedTurn(mainManifest, signingKey, shards);
      DexSplitTurnApks(mainManifest, signingKey, i, shards[i]);
      SignedApksAppend(pre, [build]);
      SignedApksOne(build);
      calc {
        SignedApks(Picked(DexSplitActions(mainManifest, signingKey, shards), PickApk));
        SignedApks(pre + [build]);
        SignedApks(pre) + SignedApks([build]);
        DexSplitApks(i) + [SplitApk(DexSplitName(i))];
        DexSplitApks(|shards|);
      }
    }
  }

  /** Every APK the shard loop signs is signed with the one key. */
  lemma DexSplitSigningKeys(mainManifest: Artifact, signingKey: Artifact, shards: seq<Artifact>)
    ensures SignedWith(Picked(DexSplitActions(mainManifest, signingKey, shards), PickApk), signingKey)
  {
    DexSplitPickedBuilds(mainManifest, signingKey, shards);
    DexSplitBuildsSigned(signingKey, shards);
  }

  /** The APK builds of the shard loop, one per shard, in shard order. */
  function DexSplitBuilds(signingKey: Artifact, shards: seq<Artifact>): seq<ApkBuild>
  {
    if |shards| == 0 then []
    else DexSplitBuilds(signingKey, shards[..|shards| - 1])
         + [DexSplitBuild(|shards| - 1, shards[|shards| - 1], signingKey)]
  }

  /** The shard loop registers exactly those APK builds. */
  lemma {:induction false} DexSplitPickedBuilds(mainManifest: Artifact, signingKey: Artifact, shards: seq<Artifact>)
    ensures Picked(DexSplitActions(mainManifest, signingKey, shards), PickApk) == DexSplitBuilds(signingKey, shards)
    decreases |shards|
  {
    if |shards| > 0 {
      DexSplitPickedBuilds(mainManifest, signingKey, shards[..|shards| - 1]);
      DexSplitPickedTurn(mainManifest, signingKey, shards);
    }
  }

  lemma {:induction false} DexSplitBuildsSigned(signingKey: Artifact, shards: seq<Artifact>)
    ensures SignedWith(DexSplitBuilds(signingKey, shards), signingKey)
    decreases |shards|
  {
    if |shards| > 0 {
      var i := |shards| - 1;
      DexSplitBuildsSigned(signingKey, shards[..i]);
      SignedWithOneMore(DexSplitBuilds(signingKey, shards), DexSplitBuilds(signingKey, shards[..i]),
                        DexSplitBuild(i, shards[i], signingKey), signingKey);
    }
  }

  /** The last turn of the shard loop adds exactly one signed APK to what came before. */
  lemma DexSplitPickedTurn(mainManifest: Artifact, signingKey: Artifact, shards: seq<Artifact>)
    requires |shards| > 0
    ensures var i := |shards| - 1;
      Picked(DexSplitActions(mainManifest, signingKey, shards), PickApk)
      == Picked(DexSplitActions(mainManifest, signingKey, shards[..i]), PickApk) + [DexSplitBuild(i, shards[i], signingKey)]
  {
    var i := |shards| - 1;
    var front := shards[..i];
    var turn := DexSplitActionsAt(mainManifest, signingKey, i, shards[i]);
    assert DexSplitActions(mainManifest, signingKey, shards) == DexSplitActions(mainManifest, signingKey, front) + turn;
    PickedAppend(DexSplitActions(mainManifest, signingKey, front), turn, PickApk);
    DexSplitTurnApks(mainManifest, signingKey, i, shards[i]);
  }

  /** Turn i of the shard loop signs dex(i+1).apk with the given key. */
  lemma DexSplitTurnApks(mainManifest: Artifact, signingKey: Artifact, i: nat, shardDexZip: Artifact)
    ensures Picked(DexSplitActionsAt(mainManifest, signingKey, i, shardDexZip), PickApk)
            == [DexSplitBuild(i, shardDexZip, signingKey)]
    ensures DexSplitBuild(i, shardDexZip, signingKey).signedApk == SplitApk(DexSplitName(i))
    ensures DexSplitBuild(i, shardDexZip, signingKey).signingKey == signingKey
  {
    var build := Apk(DexSplitBuild(i, shardDexZip, signingKey));
    PickedAppend(SplitResourcesActions(mainManifest, DexSplitName(i), true), [build], PickApk);
    PickedNone(SplitResourcesActions(mainManifest, DexSplitName(i), true), PickApk);
    PickedOne(build, PickApk);
  }

  /** Every build in the list is signed with the key. */
  predicate SignedWith(builds: seq<ApkBuild>, key: Artifact)
  {
    forall b :: b in builds ==> b.signingKey == key
  }

  lemma SignedWithOneMore(all: seq<ApkBuild>, a: seq<ApkBuild>, b: ApkBuild, key: Artifact)
    requires all == a + [b] && SignedWith(a, key) && b.signingKey == key
    ensures SignedWith(all, key)
  {
  }

  lemma SignedApksOne(b: ApkBuild)
    ensures SignedApks([b]) == [b.signedApk]
  {
  }

  lemma SignedApksAppend(a: seq<ApkBuild>, b: seq<ApkBuild>)
    ensures SignedApks(a + b) == SignedApks(a) + SignedApks(b)
  {
  }

  lemma StubDexActionsPickNothing<T>(prerequisites: map<string, Target>, split: bool, pick: Registration -> Option<T>)
    requires forall r: Registration :: !r.Apk? && !r.Spawn? ==> pick(r).None?
    ensures Picked(StubDexActions(prerequisites, split), pick) == []
  {
    PickedNone(StubDexActions(prerequisites, split), pick);
  }

  lemma PrologueApks(prerequisites: map<string, Target>, mi: MobileInstallInputs)
    ensures Picked(IncrementalPrologue(prerequisites, mi), PickApk) == []
  {
    StubDexActionsPickNothing(prerequisites, false, PickApk);
    PickedAppend([Spawn(DexManifestAction(mi.shardDexZips))], StubDexActions(prerequisites, false), PickApk);
    PickedOne(Spawn(DexManifestAction(mi.shardDexZips)), PickApk);
  }

  lemma InstallsApks(useIncrementalNativeLibs: bool, mi: MobileInstallInputs)
    ensures Picked(IncrementalInstalls(useIncrementalNativeLibs, mi), PickApk)
            == [IncrementalApkBuild(useIncrementalNativeLibs, mi)]
  {
    var installs := IncrementalInstalls(useIncrementalNativeLibs, mi);
    assert installs == [installs[0]] + installs[1..];
    PickedAppend([installs[0]], installs[1..], PickApk);
    PickedOne(installs[0], PickApk);
    PickedNone(installs[1..], PickApk);
  }

  lemma SplitTailApks(mi: MobileInstallInputs)
    ensures Picked(SplitTail(mi), PickApk) == [NativeSplitBuild(mi), JavaResourcesSplitBuild(mi)]
  {
    var nativeRes := SplitResourcesActions(mi.applicationManifest, "native", false);
    var javaRes := SplitResourcesActions(mi.applicationManifest, "java_resources", false);
    var tailEnd := [Apk(JavaResourcesSplitBuild(mi)), Spawn(StripResourcesAction(mi))];
    PickedNone(nativeRes, PickApk);
    PickedNone(javaRes, PickApk);
    PickedAppend(nativeRes + [Apk(NativeSplitBuild(mi))] + javaRes, tailEnd, PickApk);
    PickedAppend(nativeRes + [Apk(NativeSplitBuild(mi))], javaRes, PickApk);
    PickedAppend(nativeRes, [Apk(NativeSplitBuild(mi))], PickApk);
    PickedOne(Apk(NativeSplitBuild(mi)), PickApk);
    assert tailEnd == [tailEnd[0]] + [tailEnd[1]];
    PickedAppend([tailEnd[0]], [tailEnd[1]], PickApk);
    PickedOne(tailEnd[0], PickApk);
    PickedOne(tailEnd[1], PickApk);
  }

  lemma SplitApkActionsApks(mi: MobileInstallInputs)
    ensures Picked(SplitApkActions(mi), PickApk)
            == [ResourceSplitBuild(mi)]
               + Picked(DexSplitActions(mi.applicationManifest, mi.signingKey, mi.shardDexZips), PickApk)
               + [NativeSplitBuild(mi), JavaResourcesSplitBuild(mi)]
  {
    var dex := DexSplitActions(mi.applicationManifest, mi.signingKey, mi.shardDexZips);
    SplitTailApks(mi);
    PickedAppend([Apk(ResourceSplitBuild(mi))] + dex, SplitTail(mi), PickApk);
    PickedAppend([Apk(ResourceSplitBuild(mi))], dex, PickApk);
    PickedOne(Apk(ResourceSplitBuild(mi)), PickApk);
  }

  lemma EpilogueApks(mi: MobileInstallInputs)
    ensures Picked(SplitEpilogue(mi), PickApk) == [SplitMainBuild(mi)]
  {
    var main := Apk(SplitMainBuild(mi));
    var rest := [Spawn(SplitInstall(mi)),
                 DeployInfo(Implicit(DeployInfoIncremental), mi.resourceApk.manifest, mi.additionalMergedManifests),
                 DeployInfo(Implicit(DeployInfoSplit), mi.resourceApk.manifest, mi.additionalMergedManifests)];
    assert SplitEpilogue(mi) == [main] + rest;
    PickedAppend([main], rest, PickApk);
    PickedOne(main, PickApk);
    PickedNone(rest, PickApk);
  }

  /** Every APK build addMobileInstall registers, in registration order. */
  lemma MobileInstallApkBuilds(prerequisites: map<string, Target>, useIncrementalNativeLibs: bool,
                               mi: MobileInstallInputs)
    ensures Picked(MobileInstallActions(prerequisites, useIncrementalNativeLibs, mi), PickApk)
            == [IncrementalApkBuild(useIncrementalNativeLibs, mi), ResourceSplitBuild(mi)]
               + Picked(DexSplitActions(mi.applicationManifest, mi.signingKey, mi.shardDexZips), PickApk)
               + [NativeSplitBuild(mi), JavaResourcesSplitBuild(mi), SplitMainBuild(mi)]
  {
    var u := useIncrementalNativeLibs;
    var prologue := IncrementalPrologue(prerequisites, mi);
    var installs := IncrementalInstalls(u, mi);
    var splits := SplitApkActions(mi);
    var body := SplitsBody(prerequisites, u, mi);
    var epilogue := SplitEpilogue(mi);
    PrologueApks(prerequisites, mi);
    InstallsApks(u, mi);
    SplitApkActionsApks(mi);
    EpilogueApks(mi);
    StubDexActionsPickNothing(prerequisites, true, PickApk);
    PickedAppend(installs + splits, StubDexActions(prerequisites, true), PickApk);
    PickedAppend(installs, splits, PickApk);
    PickedAppend(prologue + body, epilogue, PickApk);
    PickedAppend(prologue, body, PickApk);
    assert MobileInstallActions(prerequisites, u, mi) == prologue + body + epilogue;
    SplitListOrder(IncrementalApkBuild(u, mi), ResourceSplitBuild(mi),
                   Picked(DexSplitActions(mi.applicationManifest, mi.signingKey, mi.shardDexZips), PickApk),
                   NativeSplitBuild(mi), JavaResourcesSplitBuild(mi), SplitMainBuild(mi));
  }

  /**
   * The incremental APK, the resources split, the dex splits, the native and Java resources
   * splits and the main split, grouped the way the phases and the split list group them.
   * Stated apart over plain elements because the same equation over the phases' own terms
   * is far more expensive to check inside the lemmas that use it.
   */
  lemma SplitListOrder<T>(a: T, b: T, d: seq<T>, x: T, y: T, z: T)
    ensures [] + ([a] + ([b] + d + [x, y]) + []) + [z] == [a, b] + d + [x, y, z]
    ensures [a, b] + d + [x, y, z] == [a] + ([b] + d + [x, y] + [z])
  {
  }

  /**
   * addMobileInstall signs the incremental APK and then every split APK, the main split
   * last, and signs each of them with the binary's signing key.
   */
  lemma MobileInstallSignedApks(prerequisites: map<string, Target>, useIncrementalNativeLibs: bool,
                                mi: MobileInstallInputs)
    ensures var builds := Picked(MobileInstallActions(prerequisites, useIncrementalNativeLibs, mi), PickApk);
      && SignedApks(builds) == [Implicit(IncrementalApk)] + AllSplitApks(|mi.shardDexZips|)
      && SignedWith(builds, mi.signingKey)
  {
    var u := useIncrementalNativeLibs;
    var n := |mi.shardDexZips|;
    var dexBuilds := Picked(DexSplitActions(mi.applicationManifest, mi.signingKey, mi.shardDexZips), PickApk);
    DexSplitSignedApks(mi.applicationManifest, mi.signingKey, mi.shardDexZips);
    DexSplitSigningKeys(mi.applicationManifest, mi.signingKey, mi.shardDexZips);
    MobileInstallApkBuilds(prerequisites, u, mi);
    FixedApkBuilds(u, mi);
    SignedConcat([IncrementalApkBuild(u, mi), ResourceSplitBuild(mi)], dexBuilds,
                 [NativeSplitBuild(mi), JavaResourcesSplitBuild(mi), SplitMainBuild(mi)], mi.signingKey);
    SplitListOrder(Implicit(IncrementalApk), ResourceSplitApk, DexSplitApks(n),
                   NativeSplitApk, JavaResourcesSplitApk, SplitMainApk);
  }

  /** The APKs signed outside the shard loop, and their key. */
  lemma FixedApkBuilds(useIncrementalNativeLibs: bool, mi: MobileInstallInputs)
    ensures var head := [IncrementalApkBuild(useIncrementalNativeLibs, mi), ResourceSplitBuild(mi)];
            var tail := [NativeSplitBuild(mi), JavaResourcesSplitBuild(mi), SplitMainBuild(mi)];
      && SignedApks(head) == [Implicit(IncrementalApk), ResourceSplitApk]
      && SignedApks(tail) == [NativeSplitApk, JavaResourcesSplitApk, SplitMainApk]
      && SignedWith(head, mi.signingKey) && SignedWith(tail, mi.signingKey)
  {
  }

  lemma SignedConcat(a: seq<ApkBuild>, d: seq<ApkBuild>, c: seq<ApkBuild>, key: Artifact)
    requires SignedWith(a, key) && SignedWith(d, key) && SignedWith(c, key)
    ensures SignedWith(a + d + c, key)
    ensures SignedApks(a + d + c) == SignedApks(a) + SignedApks(d) + SignedApks(c)
  {
  }

  // ---------------------------------------------------------------------------
  // Spawn actions marked to execute unconditionally.

  lemma {:induction false} DexSplitsConditional(mainManifest: Artifact, signingKey: Artifact, shards: seq<Artifact>)
    ensures Picked(DexSplitActions(mainManifest, signingKey, shards), PickUnconditional) == []
    decreases |shards|
  {
    if |shards| > 0 {
      var i := |shards| - 1;
      DexSplitsConditional(mainManifest, signingKey, shards[..i]);
      var turn := DexSplitActionsAt(mainManifest, signingKey, i, shards[i]);
      PickedAppend(DexSplitActions(mainManifest, signingKey, shards[..i]), turn, PickUnconditional);
      DexSplitTurnConditional(mainManifest, signingKey, i, shards[i]);
    }
  }

  /** One turn of the shard loop registers no spawn action marked unconditional. */
  lemma DexSplitTurnConditional(mainManifest: Artifact, signingKey: Artifact, i: nat, shardDexZip: Artifact)
    ensures Picked(DexSplitActionsAt(mainManifest, signingKey, i, shardDexZip), PickUnconditional) == []
  {
    PickedNone(DexSplitActionsAt(mainManifest, signingKey, i, shardDexZip), PickUnconditional);
  }

  lemma SplitTailConditional(mi: MobileInstallInputs)
    ensures Picked(SplitTail(mi), PickUnconditional) == []
  {
    var nativeRes := SplitResourcesActions(mi.applicationManifest, "native", false);
    var javaRes := SplitResourcesActions(mi.applicationManifest, "java_resources", false);
    var tailEnd := [Apk(JavaResourcesSplitBuild(mi)), Spawn(StripResourcesAction(mi))];
    PickedNone(nativeRes, PickUnconditional);
    PickedNone(javaRes, PickUnconditional);
    PickedNone(tailEnd, PickUnconditional);
    PickedOne(Apk(NativeSplitBuild(mi)), PickUnconditional);
    PickedAppend(nativeRes + [Apk(NativeSplitBuild(mi))] + javaRes, tailEnd, PickUnconditional);
    PickedAppend(nativeRes + [Apk(NativeSplitBuild(mi))], javaRes, PickUnconditional);
    PickedAppend(nativeRes, [Apk(NativeSplitBuild(mi))], PickUnconditional);
  }

  lemma SplitApkActionsConditional(mi: MobileInstallInputs)
    ensures Picked(SplitApkActions(mi), PickUnconditional) == []
  {
    var dex := DexSplitActions(mi.applicationManifest, mi.signingKey, mi.shardDexZips);
    DexSplitsConditional(mi.applicationManifest, mi.signingKey, mi.shardDexZips);
    SplitTailConditional(mi);
    PickedOne(Apk(ResourceSplitBuild(mi)), PickUnconditional);
    PickedAppend([Apk(ResourceSplitBuild(mi))] + dex, SplitTail(mi), PickUnconditional);
    PickedAppend([Apk(ResourceSplitBuild(mi))], dex, PickUnconditional);
  }

  lemma InstallsUnconditional(useIncrementalNativeLibs: bool, mi: MobileInstallInputs)
    ensures Picked(IncrementalInstalls(useIncrementalNativeLibs, mi), PickUnconditional)
            == [FullInstallAction(useIncrementalNativeLibs, mi), IncrementalInstallAction(useIncrementalNativeLibs, mi)]
  {
    var installs := IncrementalInstalls(useIncrementalNativeLibs, mi);
    assert installs == installs[..2] + [installs[2]] + [installs[3]];
    PickedNone(installs[..2], PickUnconditional);
    PickedOne(installs[2], PickUnconditional);
    PickedOne(installs[3], PickUnconditional);
    PickedAppend(installs[..2] + [installs[2]], [installs[3]], PickUnconditional);
    PickedAppend(installs[..2], [installs[2]], PickUnconditional);
  }

  lemma EpilogueUnconditional(mi: MobileInstallInputs)
    ensures Picked(SplitEpilogue(mi), PickUnconditional) == [SplitInstall(mi)]
  {
    var main := Apk(SplitMainBuild(mi));
    var install := Spawn(SplitInstall(mi));
    var infos := [DeployInfo(Implicit(DeployInfoIncremental), mi.resourceApk.manifest, mi.additionalMergedManifests),
                  DeployInfo(Implicit(DeployInfoSplit), mi.resourceApk.manifest, mi.additionalMergedManifests)];
    assert SplitEpilogue(mi) == [main] + [install] + infos;
    assert SplitInstall(mi).executeUnconditionally;
    PickedOne(main, PickUnconditional);
    PickedOne(install, PickUnconditional);
    PickedNone(infos, PickUnconditional);
    PickedAppend([main] + [install], infos, PickUnconditional);
    PickedAppend([main], [install], PickUnconditional);
  }

  /**
   * Of the spawn actions addMobileInstall registers, exactly three are marked to execute
   * unconditionally: the full, the incremental and the split install, in that order; all
   * three are AndroidInstall actions that run locally.
   */
  lemma MobileInstallUnconditionalActions(prerequisites: map<string, Target>, useIncrementalNativeLibs: bool,
                                          mi: MobileInstallInputs)
    ensures var installs := Picked(MobileInstallActions(prerequisites, useIncrementalNativeLibs, mi),
                                   PickUnconditional);
      && installs == [FullInstallAction(useIncrementalNativeLibs, mi),
                      IncrementalInstallAction(useIncrementalNativeLibs, mi), SplitInstall(mi)]
      && forall a :: a in installs ==> a.mnemonic == "AndroidInstall" && a.local
  {
    var u := useIncrementalNativeLibs;
    var prologue := IncrementalPrologue(prerequisites, mi);
    var body := SplitsBody(prerequisites, u, mi);
    var epilogue := SplitEpilogue(mi);
    BeforeEpilogueUnconditional(prerequisites, u, mi);
    EpilogueUnconditional(mi);
    PickedAppend(prologue + body, epilogue, PickUnconditional);
    assert MobileInstallActions(prerequisites, u, mi) == prologue + body + epilogue;
    InstallActionsLocal(u, mi);
  }

  /** Up to the second error check, the full and the incremental install are the only spawn actions marked unconditional. */
  lemma BeforeEpilogueUnconditional(prerequisites: map<string, Target>, useIncrementalNativeLibs: bool,
                                    mi: MobileInstallInputs)
    ensures Picked(IncrementalPrologue(prerequisites, mi) + SplitsBody(prerequisites, useIncrementalNativeLibs, mi),
                   PickUnconditional)
            == [FullInstallAction(useIncrementalNativeLibs, mi), IncrementalInstallAction(useIncrementalNativeLibs, mi)]
  {
    var u := useIncrementalNativeLibs;
    var prologue := IncrementalPrologue(prerequisites, mi);
    var installs := IncrementalInstalls(u, mi);
    var splits := SplitApkActions(mi);
    var body := SplitsBody(prerequisites, u, mi);
    StubDexActionsPickNothing(prerequisites, false, PickUnconditional);
    StubDexActionsPickNothing(prerequisites, true, PickUnconditional);
    PickedOne(Spawn(DexManifestAction(mi.shardDexZips)), PickUnconditional);
    PickedAppend([Spawn(DexManifestAction(mi.shardDexZips))], StubDexActions(prerequisites, false), PickUnconditional);
    InstallsUnconditional(u, mi);
    SplitApkActionsConditional(mi);
    PickedAppend(installs + splits, StubDexActions(prerequisites, true), PickUnconditional);
    PickedAppend(installs, splits, PickUnconditional);
    PickedAppend(prologue, body, PickUnconditional);
  }

  /**
   * A run stopped at either error check has not registered the split install: it is
   * registered only after the split stub dex was found usable.
   */
  lemma NoSplitInstallBeforeEpilogue(prerequisites: map<string, Target>, useIncrementalNativeLibs: bool,
                                     mi: MobileInstallInputs)
    ensures Spawn(SplitInstall(mi)) !in IncrementalPrologue(prerequisites, mi)
    ensures Spawn(SplitInstall(mi)) !in IncrementalPrologue(prerequisites, mi)
                                        + SplitsBody(prerequisites, useIncrementalNativeLibs, mi)
  {
    var u := useIncrementalNativeLibs;
    var rs := IncrementalPrologue(prerequisites, mi) + SplitsBody(prerequisites, u, mi);
    BeforeEpilogueUnconditional(prerequisites, u, mi);
    assert SplitInstall(mi).outputs != FullInstallAction(u, mi).outputs;
    assert SplitInstall(mi).outputs != IncrementalInstallAction(u, mi).outputs;
    NotPicked(rs, PickUnconditional, SplitInstall(mi));
    assert PickUnconditional(Spawn(SplitInstall(mi))) == Some(SplitInstall(mi));
    assert forall i :: 0 <= i < |IncrementalPrologue(prerequisites, mi)| ==> IncrementalPrologue(prerequisites, mi)[i] == rs[i];
  }

  lemma InstallActionsLocal(useIncrementalNativeLibs: bool, mi: MobileInstallInputs)
    ensures forall a :: a in [FullInstallAction(useIncrementalNativeLibs, mi),
                             IncrementalInstallAction(useIncrementalNativeLibs, mi), SplitInstall(mi)]
                        ==> a.mnemonic == "AndroidInstall" && a.local
  {
  }

  // ---------------------------------------------------------------------------
  // The three install actions as addMobileInstall wires them.

  /**
   * Only the full install hands over the complete incremental APK, as an input and as
   * `--apk`; the incremental install has neither, as long as the incremental resources
   * and the native libraries are other artifacts than that APK.
   */
  lemma FullAndIncrementalInstall(useIncrementalNativeLibs: bool, mi: MobileInstallInputs)
    requires mi.resourceApks.incremental.artifact != Implicit(IncrementalApk)
    requires Implicit(IncrementalApk) !in NativeLibInputs(mi.nativeLibs)
    ensures var full := FullInstallAction(useIncrementalNativeLibs, mi);
            var incremental := IncrementalInstallAction(useIncrementalNativeLibs, mi);
      && Str("--apk") in full.commandLine && Implicit(IncrementalApk) in full.inputs
      && Str("--apk") !in incremental.commandLine && Implicit(IncrementalApk) !in incremental.inputs
      && full.outputs == [Implicit(FullDeployMarker)] && incremental.outputs == [Implicit(IncrementalDeployMarker)]
  {
    var u := useIncrementalNativeLibs;
    InstallActionApk(false, u, Implicit(FullDeployMarker), Implicit(MobileInstallArgs), Implicit(DexManifest),
                     mi.resourceApks.incremental.artifact, Implicit(IncrementalApk), mi.nativeLibs,
                     Implicit(StubApplicationData));
    InstallActionApk(true, u, Implicit(IncrementalDeployMarker), Implicit(MobileInstallArgs), Implicit(DexManifest),
                     mi.resourceApks.incremental.artifact, Implicit(IncrementalApk), mi.nativeLibs,
                     Implicit(StubApplicationData));
  }

  /**
   * The split install takes every split but the main one as a `--split_apk`, in install
   * order, and the main split once, as `--split_main_apk`: the split set it is given was
   * taken before split_main.apk joined it.
   */
  lemma SplitInstallWiring(mi: MobileInstallInputs)
    ensures var a := SplitInstall(mi);
            var n := |mi.shardDexZips|;
      && a.inputs == [Implicit(StubApplicationData), Implicit(MobileInstallArgs), SplitMainApk] + SplitApks(n)
      && SplitMainApk !in SplitApks(n)
      && multiset(a.commandLine)[Str("--split_apk")] == n + 3
      && multiset(a.commandLine)[Str("--split_main_apk")] == 1
      && multiset(a.commandLine)[ExecPath(SplitMainApk)] == 1
  {
    var n := |mi.shardDexZips|;
    var splitApks := SplitApks(n);
    SplitMainNotInSplitApks(n);
    DexSplitApksLength(n);
    assert |splitApks| == n + 3;
    var others := [Implicit(SplitDeployMarker), Implicit(MobileInstallArgs), Implicit(StubApplicationData),
                   Executable(Adb)];
    assert SplitMainApk !in others;
    SplitInstallActionCounts(Implicit(SplitDeployMarker), Implicit(MobileInstallArgs), SplitMainApk,
                             splitApks, Implicit(StubApplicationData));
    SplitInstallActionMainOnce(Implicit(SplitDeployMarker), Implicit(MobileInstallArgs), SplitMainApk,
                               splitApks, Implicit(StubApplicationData));
  }

  // ---------------------------------------------------------------------------
  // Native libraries.

  /**
   * The native libraries reach the device one way only: bundled into the incremental APK
   * when useIncrementalNativeLibs is off, one `--native_lib` per (architecture, library)
   * pair on both install command lines when it is on. The native split always carries them.
   */
  lemma NativeLibsOneWay(useIncrementalNativeLibs: bool, mi: MobileInstallInputs)
    ensures var apk := IncrementalApkBuild(useIncrementalNativeLibs, mi);
            var full := FullInstallAction(useIncrementalNativeLibs, mi);
            var incremental := IncrementalInstallAction(useIncrementalNativeLibs, mi);
      && (apk.nativeLibs.Some? <==> !useIncrementalNativeLibs)
      && (apk.nativeLibs.Some? ==> apk.nativeLibs.value == mi.nativeLibs)
      && multiset(full.commandLine)[Str("--native_lib")]
         == multiset(incremental.commandLine)[Str("--native_lib")]
         == (if useIncrementalNativeLibs then |LibPairs(mi.nativeLibs)| else 0)
      && NativeSplitBuild(mi).nativeLibs == Some(mi.nativeLibs)
  {
    var u := useIncrementalNativeLibs;
    InstallActionNativeLibCount(false, u, Implicit(FullDeployMarker), Implicit(MobileInstallArgs),
                                Implicit(DexManifest), mi.resourceApks.incremental.artifact, Implicit(IncrementalApk),
                                mi.nativeLibs, Implicit(StubApplicationData));
    InstallActionNativeLibCount(true, u, Implicit(IncrementalDeployMarker), Implicit(MobileInstallArgs),
                                Implicit(DexManifest), mi.resourceApks.incremental.artifact, Implicit(IncrementalApk),
                                mi.nativeLibs, Implicit(StubApplicationData));
  }

  // ---------------------------------------------------------------------------
  // Output groups.

  /** Every split APK lives under _mobile_install/. */
  lemma AllSplitApksInMobileInstallDir(n: nat, i: nat)
    requires i < |AllSplitApks(n)|
    ensures AllSplitApks(n)[i].MobileInstall?
  {
    AllSplitApksOrder(n);
    if 1 <= i <= n {
      DexSplitApksAt(n, i - 1);
    }
  }

  /** The split group holds every split APK, the main split last, then the split marker and deploy info, each once. */
  lemma SplitOutputGroupDistinct(n: nat, i: nat, j: nat)
    requires i < j < |MobileInstallOutputGroups(n)[2].artifacts|
    ensures |MobileInstallOutputGroups(n)[2].artifacts| == n + 6
    ensures MobileInstallOutputGroups(n)[2].artifacts[i] != MobileInstallOutputGroups(n)[2].artifacts[j]
  {
    var group := MobileInstallOutputGroups(n)[2].artifacts;
    AllSplitApksOrder(n);
    assert group == AllSplitApks(n) + [Implicit(SplitDeployMarker), Implicit(DeployInfoSplit)];
    if j < n + 4 {
      SplitApksDistinctAt(n, i, j);
    } else if i < n + 4 {
      AllSplitApksInMobileInstallDir(n, i);
    }
  }

  /**
   * The four groups have distinct names; the three mobile_install groups are internal and
   * the deploy-info group is not.
   */
  lemma MobileInstallOutputGroupNames(n: nat)
    ensures var g := MobileInstallOutputGroups(n);
      && |g| == 4
      && (forall i, j :: 0 <= i < j < 4 ==> g[i].name != g[j].name)
      && (forall i :: 0 <= i < 3 ==> IsInternal(g[i].name))
      && !IsInternal(g[3].name)
  {
    var g := MobileInstallOutputGroups(n);
    assert g[0].name[15] == 'f' && g[1].name[15] == 'i' && g[2].name[15] == 's';
    assert g[0].name[0] == g[1].name[0] == g[2].name[0] == 'm' && g[3].name[0] == 'a';
    assert g[3].name[|g[3].name| - 1] == 'o';
  }

  /**
   * The incremental deploy info is in the full, the incremental and the deploy-info group
   * next to the matching marker; the split group holds all split APKs in install order,
   * then the split marker and the split deploy info.
   */
  lemma MobileInstallOutputGroupMembers(n: nat)
    ensures var g := MobileInstallOutputGroups(n);
      && |g| == 4
      && g[0].artifacts == [Implicit(FullDeployMarker), Implicit(DeployInfoIncremental)]
      && g[1].artifacts == [Implicit(IncrementalDeployMarker), Implicit(DeployInfoIncremental)]
      && g[3].artifacts == [Implicit(DeployInfoIncremental)]
      && |g[2].artifacts| == n + 6
      && g[2].artifacts[..n + 4] == AllSplitApks(n)
      && g[2].artifacts[n + 4..] == [Implicit(SplitDeployMarker), Implicit(DeployInfoSplit)]
  {
    var g := MobileInstallOutputGroups(n);
    AllSplitApksOrder(n);
    assert g[2].artifacts == AllSplitApks(n) + [Implicit(SplitDeployMarker), Implicit(DeployInfoSplit)];
  }

  /** An output group the framework treats as internal: its name ends with the internal suffix. */
  predicate IsInternal(name: string)
  {
    |InternalSuffix| <= |name| && name[|name| - |InternalSuffix|..] == InternalSuffix
  }
}
