/**
 * The device-install actions: one for a full install, one for an incremental install and
 * one for a split install. Each is specified by a function describing the action it
 * registers; the methods build the same action the way the builders do, one argument at
 * a time.
 */
module InstallActions {
  import opened Artifacts
  import opened Actions

  // ---------------------------------------------------------------------------
  // Native libraries passed one by one (useIncrementalNativeLibs).

  /** The (architecture, library) pairs of the map, in iteration order. */
  function LibPairs(libs: NativeLibs): seq<(string, Artifact)>
  {
    if |libs| == 0 then []
    else LibPairs(libs[..|libs| - 1]) + ArchPairs(libs[|libs| - 1].0, libs[|libs| - 1].1)
  }

  function ArchPairs(arch: string, ls: seq<Artifact>): (r: seq<(string, Artifact)>)
    ensures |r| == |ls| && forall t :: 0 <= t < |ls| ==> r[t] == (arch, ls[t])
  {
    seq(|ls|, t requires 0 <= t < |ls| => (arch, ls[t]))
  }

  /** Every library of every architecture, in iteration order. */
  function NativeLibInputs(libs: NativeLibs): seq<Artifact>
  {
    if |libs| == 0 then [] else NativeLibInputs(libs[..|libs| - 1]) + libs[|libs| - 1].1
  }

  /** `--native_lib arch:lib` for each library of one architecture. */
  function ArchArgs(arch: string, ls: seq<Artifact>): seq<Arg>
  {
    if |ls| == 0 then [] else ArchArgs(arch, ls[..|ls| - 1]) + [Str("--native_lib"), ArchLib(arch, ls[|ls| - 1])]
  }

  /** `--native_lib arch:lib` for each pair, in iteration order. */
  function NativeLibArgs(libs: NativeLibs): seq<Arg>
  {
    if |libs| == 0 then [] else NativeLibArgs(libs[..|libs| - 1]) + ArchArgs(libs[|libs| - 1].0, libs[|libs| - 1].1)
  }

  // ---------------------------------------------------------------------------
  // Full and incremental install.

  /** The fixed start of every full or incremental install command line. */
  function InstallPrefix(marker: Artifact, argsArtifact: Artifact, dexmanifest: Artifact,
                         resourceApk: Artifact, stubDataFile: Artifact): seq<Arg>
  {
    [Str("--output_marker"), ExecPath(marker),
     Str("--dexmanifest"), ExecPath(dexmanifest),
     Str("--resource_apk"), ExecPath(resourceApk),
     Str("--stub_datafile"), ExecPath(stubDataFile),
     Str("--adb"), ExecPath(Executable(Adb)),
     Str("--flagfile"), ExecPath(argsArtifact)]
  }

  /** The words an install command line has before its native libraries. */
  function InstallHead(incremental: bool, marker: Artifact, argsArtifact: Artifact, dexmanifest: Artifact,
                       resourceApk: Artifact, apk: Artifact, stubDataFile: Artifact): seq<Arg>
  {
    InstallPrefix(marker, argsArtifact, dexmanifest, resourceApk, stubDataFile)
      + (if incremental then [] else [Str("--apk"), ExecPath(apk)])
  }

  /** The action createInstallAction registers. */
  function InstallAction(incremental: bool, useIncrementalNativeLibs: bool, marker: Artifact,
                         argsArtifact: Artifact, dexmanifest: Artifact, resourceApk: Artifact,
                         apk: Artifact, nativeLibs: NativeLibs, stubDataFile: Artifact): SpawnAction
  {
    SpawnAction(
      "AndroidInstall", IncrementalInstall, [Adb],
      [dexmanifest, resourceApk, stubDataFile, argsArtifact]
        + (if incremental then [] else [apk])
        + (if useIncrementalNativeLibs then NativeLibInputs(nativeLibs) else []),
      [marker],
      InstallHead(incremental, marker, argsArtifact, dexmanifest, resourceApk, apk, stubDataFile)
        + (if useIncrementalNativeLibs then NativeLibArgs(nativeLibs) else []),
      false, true, true)
  }

  /** The inputs and words one architecture's libraries add, in the map's order. */
  method BuildArchLibs(arch: string, libs: seq<Artifact>) returns (inputs: seq<Artifact>, args: seq<Arg>)
    ensures inputs == libs && args == ArchArgs(arch, libs)
  {
    inputs, args := [], [];
    for j := 0 to |libs|
      invariant inputs == libs[..j]
      invariant args == ArchArgs(arch, libs[..j])
    {
      inputs := inputs + [libs[j]];
      args := args + [Str("--native_lib"), ArchLib(arch, libs[j])];
      assert libs[..j + 1][..j] == libs[..j];
    }
    assert libs[..|libs|] == libs;
  }

  /** The inputs and words the whole architecture map adds (two nested loops). */
  method BuildNativeLibs(nativeLibs: NativeLibs) returns (inputs: seq<Artifact>, args: seq<Arg>)
    ensures inputs == NativeLibInputs(nativeLibs) && args == NativeLibArgs(nativeLibs)
  {
    inputs, args := [], [];
    for i := 0 to |nativeLibs|
      invariant inputs == NativeLibInputs(nativeLibs[..i])
      invariant args == NativeLibArgs(nativeLibs[..i])
    {
      var (arch, libs) := nativeLibs[i];
      var archInputs, archArgs := BuildArchLibs(arch, libs);
      inputs := inputs + archInputs;
      args := args + archArgs;
      assert nativeLibs[..i + 1][..i] == nativeLibs[..i];
    }
    assert nativeLibs[..|nativeLibs|] == nativeLibs;
  }

  /**
   * Builds the install action as createInstallAction does: the fixed inputs and flags,
   * the complete APK for a full install, then every native library when they are
   * installed incrementally.
   */
  method BuildInstallAction(incremental: bool, useIncrementalNativeLibs: bool, marker: Artifact,
                            argsArtifact: Artifact, dexmanifest: Artifact, resourceApk: Artifact,
                            apk: Artifact, nativeLibs: NativeLibs, stubDataFile: Artifact)
    returns (action: SpawnAction)
    ensures action == InstallAction(incremental, useIncrementalNativeLibs, marker, argsArtifact,
                                    dexmanifest, resourceApk, apk, nativeLibs, stubDataFile)
  {
    var inputs := [dexmanifest, resourceApk, stubDataFile, argsArtifact];
    var commandLine := InstallPrefix(marker, argsArtifact, dexmanifest, resourceApk, stubDataFile);
    if !incremental {
      inputs := inputs + [apk];
      commandLine := commandLine + [Str("--apk"), ExecPath(apk)];
    }
    if useIncrementalNativeLibs {
      var libInputs, libArgs := BuildNativeLibs(nativeLibs);
      inputs := inputs + libInputs;
      commandLine := commandLine + libArgs;
    }
    action := SpawnAction("AndroidInstall", IncrementalInstall, [Adb], inputs, [marker], commandLine,
                          false, true, true);
  }

  method CreateInstallAction(ctx: RuleContext, incremental: bool, marker: Artifact, argsArtifact: Artifact,
                             dexmanifest: Artifact, resourceApk: Artifact, apk: Artifact,
                             nativeLibs: NativeLibs, stubDataFile: Artifact)
    modifies ctx
    ensures ctx.actions == old(ctx.actions) + [Spawn(InstallAction(incremental, ctx.useIncrementalNativeLibs,
      marker, argsArtifact, dexmanifest, resourceApk, apk, nativeLibs, stubDataFile))]
    ensures ctx.errors == old(ctx.errors)
  {
    var action := BuildInstallAction(incremental, ctx.useIncrementalNativeLibs, marker, argsArtifact,
                                     dexmanifest, resourceApk, apk, nativeLibs, stubDataFile);
    ctx.RegisterAction(Spawn(action));
  }

  // ---------------------------------------------------------------------------
  // Split install.

  /** `--split_apk` and the APK, for each split in order. */
  function SplitApkArgs(splitApks: seq<Artifact>): seq<Arg>
  {
    if |splitApks| == 0 then []
    else SplitApkArgs(splitApks[..|splitApks| - 1]) + [Str("--split_apk"), ExecPath(splitApks[|splitApks| - 1])]
  }

  /** The four fixed flags that open a split install command line. */
  function SplitInstallFlags(marker: Artifact, argsArtifact: Artifact, stubDataFile: Artifact): seq<Arg>
  {
    [Str("--output_marker"), ExecPath(marker),
     Str("--stub_datafile"), ExecPath(stubDataFile),
     Str("--adb"), ExecPath(Executable(Adb)),
     Str("--flagfile"), ExecPath(argsArtifact)]
  }

  /** The fixed start of the split install command line: the four flags, then the main split. */
  function SplitInstallPrefix(marker: Artifact, argsArtifact: Artifact, splitMainApk: Artifact,
                              stubDataFile: Artifact): seq<Arg>
  {
    SplitInstallFlags(marker, argsArtifact, stubDataFile) + [Str("--split_main_apk"), ExecPath(splitMainApk)]
  }

  /** The action createSplitInstallAction registers. */
  function SplitInstallAction(marker: Artifact, argsArtifact: Artifact, splitMainApk: Artifact,
                              splitApks: seq<Artifact>, stubDataFile: Artifact): SpawnAction
  {
    SpawnAction(
      "AndroidInstall", IncrementalInstall, [Adb],
      [stubDataFile, argsArtifact, splitMainApk] + splitApks,
      [marker],
      SplitInstallPrefix(marker, argsArtifact, splitMainApk, stubDataFile) + SplitApkArgs(splitApks),
      false, true, true)
  }

  /** Builds the split install action, one input and one `--split_apk` per split. */
  method BuildSplitInstallAction(marker: Artifact, argsArtifact: Artifact, splitMainApk: Artifact,
                                 splitApks: seq<Artifact>, stubDataFile: Artifact)
    returns (action: SpawnAction)
    ensures action == SplitInstallAction(marker, argsArtifact, splitMainApk, splitApks, stubDataFile)
  {
    var inputs := [stubDataFile, argsArtifact, splitMainApk];
    var commandLine := SplitInstallPrefix(marker, argsArtifact, splitMainApk, stubDataFile);
    for k := 0 to |splitApks|
      invariant inputs == [stubDataFile, argsArtifact, splitMainApk] + splitApks[..k]
      invariant commandLine == SplitInstallPrefix(marker, argsArtifact, splitMainApk, stubDataFile)
                               + SplitApkArgs(splitApks[..k])
    {
      inputs := inputs + [splitApks[k]];
      commandLine := commandLine + [Str("--split_apk"), ExecPath(splitApks[k])];
      assert splitApks[..k + 1][..k] == splitApks[..k];
    }
    assert splitApks[..|splitApks|] == splitApks;
    action := SpawnAction("AndroidInstall", IncrementalInstall, [Adb], inputs, [marker], commandLine,
                          false, true, true);
  }

  method CreateSplitInstallAction(ctx: RuleContext, marker: Artifact, argsArtifact: Artifact,
                                  splitMainApk: Artifact, splitApks: seq<Artifact>, stubDataFile: Artifact)
    modifies ctx
    ensures ctx.actions == old(ctx.actions)
      + [Spawn(SplitInstallAction(marker, argsArtifact, splitMainApk, splitApks, stubDataFile))]
    ensures ctx.errors == old(ctx.errors)
  {
    var action := BuildSplitInstallAction(marker, argsArtifact, splitMainApk, splitApks, stubDataFile);
    ctx.RegisterAction(Spawn(action));
  }

  // ---------------------------------------------------------------------------
  // What the install command lines contain.

  lemma {:induction false} ArchArgsLength(arch: string, ls: seq<Artifact>)
    ensures |ArchArgs(arch, ls)| == 2 * |ls|
    decreases |ls|
  {
    if |ls| > 0 {
      ArchArgsLength(arch, ls[..|ls| - 1]);
    }
  }

  /** One architecture contributes one `--native_lib` per library. */
  lemma {:induction false} ArchArgsCount(arch: string, ls: seq<Artifact>)
    ensures multiset(ArchArgs(arch, ls))[Str("--native_lib")] == |ls|
    decreases |ls|
  {
    if |ls| > 0 {
      var front := ls[..|ls| - 1];
      ArchArgsCount(arch, front);
      assert ArchArgs(arch, ls) == ArchArgs(arch, front) + [Str("--native_lib"), ArchLib(arch, ls[|ls| - 1])];
    }
  }

  /** The only words one architecture contributes are `--native_lib` and `arch:lib`. */
  lemma {:induction false} ArchArgsWords(arch: string, ls: seq<Artifact>)
    ensures forall x :: x in ArchArgs(arch, ls) ==> x == Str("--native_lib") || x.ArchLib?
    decreases |ls|
  {
    if |ls| > 0 {
      ArchArgsWords(arch, ls[..|ls| - 1]);
    }
  }

  /** The t-th library of one architecture is the t-th `--native_lib arch:lib` pair. */
  lemma {:induction false} ArchArgsAt(arch: string, ls: seq<Artifact>, t: nat)
    requires t < |ls|
    ensures |ArchArgs(arch, ls)| == 2 * |ls|
    ensures ArchArgs(arch, ls)[2 * t] == Str("--native_lib") && ArchArgs(arch, ls)[2 * t + 1] == ArchLib(arch, ls[t])
    decreases |ls|
  {
    var front := ls[..|ls| - 1];
    ArchArgsLength(arch, front);
    assert ArchArgs(arch, ls) == ArchArgs(arch, front) + [Str("--native_lib"), ArchLib(arch, ls[|ls| - 1])];
    if t < |front| {
      ArchArgsAt(arch, front, t);
      assert ls[t] == front[t];
    }
  }

  /** Each (architecture, library) pair of the map gives one input and two words. */
  lemma {:induction false} NativeLibsLength(libs: NativeLibs)
    ensures |NativeLibInputs(libs)| == |LibPairs(libs)|
    ensures |NativeLibArgs(libs)| == 2 * |LibPairs(libs)|
    decreases |libs|
  {
    if |libs| > 0 {
      NativeLibsLength(libs[..|libs| - 1]);
      ArchArgsLength(libs[|libs| - 1].0, libs[|libs| - 1].1);
    }
  }

  /** Across the whole map, one `--native_lib` per (architecture, library) pair. */
  lemma {:induction false} NativeLibsCount(libs: NativeLibs)
    ensures multiset(NativeLibArgs(libs))[Str("--native_lib")] == |LibPairs(libs)|
    decreases |libs|
  {
    if |libs| > 0 {
      var front := libs[..|libs| - 1];
      NativeLibsCount(front);
      ArchArgsCount(libs[|libs| - 1].0, libs[|libs| - 1].1);
      assert NativeLibArgs(libs) == NativeLibArgs(front) + ArchArgs(libs[|libs| - 1].0, libs[|libs| - 1].1);
    }
  }

  /** The only words the map contributes are `--native_lib` and `arch:lib`. */
  lemma {:induction false} NativeLibsWords(libs: NativeLibs)
    ensures forall x :: x in NativeLibArgs(libs) ==> x == Str("--native_lib") || x.ArchLib?
    decreases |libs|
  {
    if |libs| > 0 {
      NativeLibsWords(libs[..|libs| - 1]);
      ArchArgsWords(libs[|libs| - 1].0, libs[|libs| - 1].1);
    }
  }

  /**
   * The t-th (architecture, library) pair of the map is the t-th input added and the
   * t-th `--native_lib arch:lib` on the command line.
   */
  lemma {:induction false} NativeLibsAt(libs: NativeLibs, t: nat)
    requires t < |LibPairs(libs)|
    ensures |NativeLibInputs(libs)| == |LibPairs(libs)| && |NativeLibArgs(libs)| == 2 * |LibPairs(libs)|
    ensures NativeLibInputs(libs)[t] == LibPairs(libs)[t].1
    ensures NativeLibArgs(libs)[2 * t] == Str("--native_lib")
    ensures NativeLibArgs(libs)[2 * t + 1] == ArchLib(LibPairs(libs)[t].0, LibPairs(libs)[t].1)
    decreases |libs|
  {
    NativeLibsLength(libs);
    var front := libs[..|libs| - 1];
    var arch, ls := libs[|libs| - 1].0, libs[|libs| - 1].1;
    NativeLibsLength(front);
    ArchArgsLength(arch, ls);
    var n := |LibPairs(front)|;
    assert LibPairs(libs) == LibPairs(front) + ArchPairs(arch, ls);
    assert NativeLibInputs(libs) == NativeLibInputs(front) + ls;
    assert NativeLibArgs(libs) == NativeLibArgs(front) + ArchArgs(arch, ls);
    if t < n {
      NativeLibsAt(front, t);
      assert LibPairs(libs)[t] == LibPairs(front)[t];
      assert NativeLibInputs(libs)[t] == NativeLibInputs(front)[t];
      assert NativeLibArgs(libs)[2 * t] == NativeLibArgs(front)[2 * t];
      assert NativeLibArgs(libs)[2 * t + 1] == NativeLibArgs(front)[2 * t + 1];
    } else {
      var u := t - n;
      ArchArgsAt(arch, ls, u);
      assert LibPairs(libs)[t] == ArchPairs(arch, ls)[u];
      assert NativeLibInputs(libs)[t] == ls[u];
      assert NativeLibArgs(libs)[2 * t] == ArchArgs(arch, ls)[2 * u];
      assert NativeLibArgs(libs)[2 * t + 1] == ArchArgs(arch, ls)[2 * u + 1];
    }
  }

  /**
   * Both installs run unconditionally and locally, write only their marker, and start
   * with the six fixed flags; the full install follows them with `--apk` and the APK.
   */
  lemma InstallActionFlags(incremental: bool, useIncrementalNativeLibs: bool, marker: Artifact,
                           argsArtifact: Artifact, dexmanifest: Artifact, resourceApk: Artifact,
                           apk: Artifact, nativeLibs: NativeLibs, stubDataFile: Artifact)
    ensures var a := InstallAction(incremental, useIncrementalNativeLibs, marker, argsArtifact,
                                   dexmanifest, resourceApk, apk, nativeLibs, stubDataFile);
      && a.executeUnconditionally && a.local && a.outputs == [marker]
      && a.commandLine[..12] == InstallPrefix(marker, argsArtifact, dexmanifest, resourceApk, stubDataFile)
      && (!incremental ==> a.commandLine[12..14] == [Str("--apk"), ExecPath(apk)])
  {
    var a := InstallAction(incremental, useIncrementalNativeLibs, marker, argsArtifact,
                           dexmanifest, resourceApk, apk, nativeLibs, stubDataFile);
    var head := InstallHead(incremental, marker, argsArtifact, dexmanifest, resourceApk, apk, stubDataFile);
    assert a.commandLine[..|head|] == head;
  }

  /**
   * The full install passes the complete APK, as an input and as `--apk`; the incremental
   * install never says `--apk`, and does not take the APK as an input unless it is one of
   * the other inputs.
   */
  lemma InstallActionApk(incremental: bool, useIncrementalNativeLibs: bool, marker: Artifact,
                         argsArtifact: Artifact, dexmanifest: Artifact, resourceApk: Artifact,
                         apk: Artifact, nativeLibs: NativeLibs, stubDataFile: Artifact)
    ensures var a := InstallAction(incremental, useIncrementalNativeLibs, marker, argsArtifact,
                                   dexmanifest, resourceApk, apk, nativeLibs, stubDataFile);
      && (Str("--apk") in a.commandLine <==> !incremental)
      && (!incremental ==> apk in a.inputs)
      && ((incremental && apk !in [dexmanifest, resourceApk, stubDataFile, argsArtifact]
           && (useIncrementalNativeLibs ==> apk !in NativeLibInputs(nativeLibs))) ==> apk !in a.inputs)
  {
    var a := InstallAction(incremental, useIncrementalNativeLibs, marker, argsArtifact,
                           dexmanifest, resourceApk, apk, nativeLibs, stubDataFile);
    var prefix := InstallPrefix(marker, argsArtifact, dexmanifest, resourceApk, stubDataFile);
    var apkArgs := if incremental then [] else [Str("--apk"), ExecPath(apk)];
    var libArgs := if useIncrementalNativeLibs then NativeLibArgs(nativeLibs) else [];
    InstallPrefixWords(marker, argsArtifact, dexmanifest, resourceApk, stubDataFile);
    NativeLibsWords(nativeLibs);
    assert Str("--apk") !in libArgs;
    assert a.commandLine == prefix + apkArgs + libArgs;
    assert Str("--apk") in a.commandLine <==> Str("--apk") in apkArgs;
  }

  /** The six fixed flags name no native library and no complete APK. */
  lemma InstallPrefixWords(marker: Artifact, argsArtifact: Artifact, dexmanifest: Artifact,
                           resourceApk: Artifact, stubDataFile: Artifact)
    ensures var prefix := InstallPrefix(marker, argsArtifact, dexmanifest, resourceApk, stubDataFile);
      && Str("--native_lib") !in prefix && Str("--apk") !in prefix
      && forall x :: x in prefix ==> !x.ArchLib?
  {
  }

  /** The fixed words of an install command line name no native library. */
  lemma InstallHeadWords(incremental: bool, marker: Artifact, argsArtifact: Artifact, dexmanifest: Artifact,
                         resourceApk: Artifact, apk: Artifact, stubDataFile: Artifact)
    ensures var head := InstallHead(incremental, marker, argsArtifact, dexmanifest, resourceApk, apk, stubDataFile);
      Str("--native_lib") !in head && forall x :: x in head ==> !x.ArchLib?
  {
    var prefix := InstallPrefix(marker, argsArtifact, dexmanifest, resourceApk, stubDataFile);
    InstallPrefixWords(marker, argsArtifact, dexmanifest, resourceApk, stubDataFile);
    if incremental {
      assert InstallHead(incremental, marker, argsArtifact, dexmanifest, resourceApk, apk, stubDataFile) == prefix;
    } else {
      var apkArgs := [Str("--apk"), ExecPath(apk)];
      assert InstallHead(incremental, marker, argsArtifact, dexmanifest, resourceApk, apk, stubDataFile) == prefix + apkArgs;
      assert Str("--native_lib") !in apkArgs && forall x :: x in apkArgs ==> !x.ArchLib?;
      assert forall x :: x in prefix + apkArgs ==> x in prefix || x in apkArgs;
    }
  }

  /** The install command line holds the fixed words and, when installed one by one, the native library words. */
  lemma InstallCommandLineWords(incremental: bool, useIncrementalNativeLibs: bool, marker: Artifact,
                                argsArtifact: Artifact, dexmanifest: Artifact, resourceApk: Artifact,
                                apk: Artifact, nativeLibs: NativeLibs, stubDataFile: Artifact)
    ensures multiset(InstallAction(incremental, useIncrementalNativeLibs, marker, argsArtifact,
                                   dexmanifest, resourceApk, apk, nativeLibs, stubDataFile).commandLine)
      == multiset(InstallHead(incremental, marker, argsArtifact, dexmanifest, resourceApk, apk, stubDataFile))
         + multiset(if useIncrementalNativeLibs then NativeLibArgs(nativeLibs) else [])
  {
  }

  /**
   * With useIncrementalNativeLibs the command line holds one `--native_lib` per
   * (architecture, library) pair; without it, none.
   */
  lemma InstallActionNativeLibCount(incremental: bool, useIncrementalNativeLibs: bool, marker: Artifact,
                                    argsArtifact: Artifact, dexmanifest: Artifact, resourceApk: Artifact,
                                    apk: Artifact, nativeLibs: NativeLibs, stubDataFile: Artifact)
    ensures var a := InstallAction(incremental, useIncrementalNativeLibs, marker, argsArtifact,
                                   dexmanifest, resourceApk, apk, nativeLibs, stubDataFile);
      multiset(a.commandLine)[Str("--native_lib")] == (if useIncrementalNativeLibs then |LibPairs(nativeLibs)| else 0)
  {
    var head := InstallHead(incremental, marker, argsArtifact, dexmanifest, resourceApk, apk, stubDataFile);
    InstallHeadWords(incremental, marker, argsArtifact, dexmanifest, resourceApk, apk, stubDataFile);
    InstallCommandLineWords(incremental, useIncrementalNativeLibs, marker, argsArtifact, dexmanifest, resourceApk,
                            apk, nativeLibs, stubDataFile);
    assert multiset(head)[Str("--native_lib")] == 0;
    if useIncrementalNativeLibs {
      NativeLibsCount(nativeLibs);
    }
  }

  /** Without useIncrementalNativeLibs no `arch:lib` reaches the command line. */
  lemma InstallActionNoArchLibs(incremental: bool, marker: Artifact, argsArtifact: Artifact,
                                dexmanifest: Artifact, resourceApk: Artifact, apk: Artifact,
                                nativeLibs: NativeLibs, stubDataFile: Artifact)
    ensures var a := InstallAction(incremental, false, marker, argsArtifact,
                                   dexmanifest, resourceApk, apk, nativeLibs, stubDataFile);
      forall x :: x in a.commandLine ==> !x.ArchLib?
  {
    var a := InstallAction(incremental, false, marker, argsArtifact,
                           dexmanifest, resourceApk, apk, nativeLibs, stubDataFile);
    var head := InstallHead(incremental, marker, argsArtifact, dexmanifest, resourceApk, apk, stubDataFile);
    assert a.commandLine == head + [];
    InstallHeadWords(incremental, marker, argsArtifact, dexmanifest, resourceApk, apk, stubDataFile);
  }

  /** The install action has four fixed inputs, the APK for a full install, and one input per native library. */
  lemma InstallActionInputCount(incremental: bool, useIncrementalNativeLibs: bool, marker: Artifact,
                                argsArtifact: Artifact, dexmanifest: Artifact, resourceApk: Artifact,
                                apk: Artifact, nativeLibs: NativeLibs, stubDataFile: Artifact)
    ensures var a := InstallAction(incremental, useIncrementalNativeLibs, marker, argsArtifact,
                                   dexmanifest, resourceApk, apk, nativeLibs, stubDataFile);
      |a.inputs| == 4 + (if incremental then 0 else 1) + (if useIncrementalNativeLibs then |LibPairs(nativeLibs)| else 0)
  {
    NativeLibsLength(nativeLibs);
  }

  /**
   * With useIncrementalNativeLibs every (architecture, library) pair of the map is an
   * input of the install action and appears as `arch:lib` on its command line.
   */
  lemma InstallActionNativeLibPairs(incremental: bool, useIncrementalNativeLibs: bool, marker: Artifact,
                                    argsArtifact: Artifact, dexmanifest: Artifact, resourceApk: Artifact,
                                    apk: Artifact, nativeLibs: NativeLibs, stubDataFile: Artifact, t: nat)
    requires useIncrementalNativeLibs && t < |LibPairs(nativeLibs)|
    ensures var a := InstallAction(incremental, useIncrementalNativeLibs, marker, argsArtifact,
                                   dexmanifest, resourceApk, apk, nativeLibs, stubDataFile);
      var (arch, lib) := LibPairs(nativeLibs)[t];
      ArchLib(arch, lib) in a.commandLine && lib in a.inputs
  {
    NativeLibsAt(nativeLibs, t);
    var a := InstallAction(incremental, useIncrementalNativeLibs, marker, argsArtifact,
                           dexmanifest, resourceApk, apk, nativeLibs, stubDataFile);
    var head := InstallHead(incremental, marker, argsArtifact, dexmanifest, resourceApk, apk, stubDataFile);
    var inHead := [dexmanifest, resourceApk, stubDataFile, argsArtifact] + (if incremental then [] else [apk]);
    assert a.commandLine == head + NativeLibArgs(nativeLibs);
    assert a.inputs == inHead + NativeLibInputs(nativeLibs);
    assert a.commandLine[|head| + 2 * t + 1] == NativeLibArgs(nativeLibs)[2 * t + 1];
    assert a.inputs[|inHead| + t] == NativeLibInputs(nativeLibs)[t];
  }

  lemma {:induction false} SplitApkArgsLength(splitApks: seq<Artifact>)
    ensures |SplitApkArgs(splitApks)| == 2 * |splitApks|
    decreases |splitApks|
  {
    if |splitApks| > 0 {
      SplitApkArgsLength(splitApks[..|splitApks| - 1]);
    }
  }

  /** One `--split_apk` per split, and never `--split_main_apk`. */
  lemma {:induction false} SplitApkArgsCounts(splitApks: seq<Artifact>)
    ensures multiset(SplitApkArgs(splitApks))[Str("--split_apk")] == |splitApks|
    ensures multiset(SplitApkArgs(splitApks))[Str("--split_main_apk")] == 0
    decreases |splitApks|
  {
    if |splitApks| > 0 {
      var front := splitApks[..|splitApks| - 1];
      SplitApkArgsCounts(front);
      assert SplitApkArgs(splitApks) == SplitApkArgs(front) + [Str("--split_apk"), ExecPath(splitApks[|splitApks| - 1])];
    }
  }

  /** The words of the last split, as a multiset step. */
  lemma SplitApkArgsLast(splitApks: seq<Artifact>)
    requires |splitApks| > 0
    ensures var front, last := splitApks[..|splitApks| - 1], splitApks[|splitApks| - 1];
      && multiset(SplitApkArgs(splitApks)) == multiset(SplitApkArgs(front)) + multiset{Str("--split_apk"), ExecPath(last)}
      && multiset(splitApks) == multiset(front) + multiset{last}
  {
    var front, last := splitApks[..|splitApks| - 1], splitApks[|splitApks| - 1];
    assert splitApks == front + [last];
    assert multiset([Str("--split_apk"), ExecPath(last)]) == multiset{Str("--split_apk"), ExecPath(last)};
  }

  /** A split's path appears as often as the split does. */
  lemma {:induction false} SplitApkArgsPathCount(splitApks: seq<Artifact>, a: Artifact)
    ensures multiset(SplitApkArgs(splitApks))[ExecPath(a)] == multiset(splitApks)[a]
    decreases |splitApks|
  {
    if |splitApks| > 0 {
      SplitApkArgsPathCount(splitApks[..|splitApks| - 1], a);
      SplitApkArgsLast(splitApks);
    }
  }

  /** The k-th split is the k-th `--split_apk`. */
  lemma {:induction false} SplitApkArgsAt(splitApks: seq<Artifact>, k: nat)
    requires k < |splitApks|
    ensures |SplitApkArgs(splitApks)| == 2 * |splitApks|
    ensures SplitApkArgs(splitApks)[2 * k] == Str("--split_apk")
    ensures SplitApkArgs(splitApks)[2 * k + 1] == ExecPath(splitApks[k])
    decreases |splitApks|
  {
    var front := splitApks[..|splitApks| - 1];
    SplitApkArgsLength(front);
    assert SplitApkArgs(splitApks) == SplitApkArgs(front) + [Str("--split_apk"), ExecPath(splitApks[|splitApks| - 1])];
    if k < |front| {
      SplitApkArgsAt(front, k);
      assert splitApks[k] == front[k];
    }
  }

  /**
   * The split install runs unconditionally and locally, writes only its marker, takes the
   * fixed files, the main split and every other split as inputs, and starts its command
   * line with the fixed flags and the main split, followed by two words per split.
   */
  lemma SplitInstallActionShape(marker: Artifact, argsArtifact: Artifact, splitMainApk: Artifact,
                                splitApks: seq<Artifact>, stubDataFile: Artifact)
    ensures var a := SplitInstallAction(marker, argsArtifact, splitMainApk, splitApks, stubDataFile);
      && a.executeUnconditionally && a.local && a.outputs == [marker]
      && a.inputs == [stubDataFile, argsArtifact, splitMainApk] + splitApks
      && a.commandLine[..10] == SplitInstallPrefix(marker, argsArtifact, splitMainApk, stubDataFile)
      && |a.commandLine| == 10 + 2 * |splitApks|
  {
    SplitApkArgsLength(splitApks);
    var a := SplitInstallAction(marker, argsArtifact, splitMainApk, splitApks, stubDataFile);
    var head := SplitInstallPrefix(marker, argsArtifact, splitMainApk, stubDataFile);
    assert a.commandLine == head + SplitApkArgs(splitApks);
  }

  /** After the prefix, the k-th split is passed as `--split_apk` and its APK, in the order given. */
  lemma SplitInstallActionOrder(marker: Artifact, argsArtifact: Artifact, splitMainApk: Artifact,
                                splitApks: seq<Artifact>, stubDataFile: Artifact, k: nat)
    requires k < |splitApks|
    ensures var a := SplitInstallAction(marker, argsArtifact, splitMainApk, splitApks, stubDataFile);
      && |a.commandLine| == 10 + 2 * |splitApks|
      && a.commandLine[10 + 2 * k] == Str("--split_apk")
      && a.commandLine[11 + 2 * k] == ExecPath(splitApks[k])
  {
    SplitApkArgsAt(splitApks, k);
    var a := SplitInstallAction(marker, argsArtifact, splitMainApk, splitApks, stubDataFile);
    var head := SplitInstallPrefix(marker, argsArtifact, splitMainApk, stubDataFile);
    assert a.commandLine == head + SplitApkArgs(splitApks);
    assert a.commandLine[10 + 2 * k] == SplitApkArgs(splitApks)[2 * k];
    assert a.commandLine[11 + 2 * k] == SplitApkArgs(splitApks)[2 * k + 1];
  }

  /** The fixed flags name no split, and the main split only if it is one of their files. */
  lemma SplitInstallFlagsWords(marker: Artifact, argsArtifact: Artifact, splitMainApk: Artifact, stubDataFile: Artifact)
    ensures var flags := SplitInstallFlags(marker, argsArtifact, stubDataFile);
      && Str("--split_apk") !in flags && Str("--split_main_apk") !in flags
      && (splitMainApk !in [marker, argsArtifact, stubDataFile, Executable(Adb)] ==> ExecPath(splitMainApk) !in flags)
  {
  }

  /** The split install command line holds the fixed flags, the main split and the other splits. */
  lemma SplitInstallWords(marker: Artifact, argsArtifact: Artifact, splitMainApk: Artifact,
                          splitApks: seq<Artifact>, stubDataFile: Artifact)
    ensures multiset(SplitInstallAction(marker, argsArtifact, splitMainApk, splitApks, stubDataFile).commandLine)
      == multiset(SplitInstallFlags(marker, argsArtifact, stubDataFile))
         + multiset{Str("--split_main_apk"), ExecPath(splitMainApk)}
         + multiset(SplitApkArgs(splitApks))
  {
    var main := [Str("--split_main_apk"), ExecPath(splitMainApk)];
    assert multiset(main) == multiset{Str("--split_main_apk"), ExecPath(splitMainApk)};
  }

  /** The split install says `--split_apk` once per split and `--split_main_apk` exactly once. */
  lemma SplitInstallActionCounts(marker: Artifact, argsArtifact: Artifact, splitMainApk: Artifact,
                                 splitApks: seq<Artifact>, stubDataFile: Artifact)
    ensures var a := SplitInstallAction(marker, argsArtifact, splitMainApk, splitApks, stubDataFile);
      && multiset(a.commandLine)[Str("--split_apk")] == |splitApks|
      && multiset(a.commandLine)[Str("--split_main_apk")] == 1
  {
    SplitInstallWords(marker, argsArtifact, splitMainApk, splitApks, stubDataFile);
    SplitInstallFlagsWords(marker, argsArtifact, splitMainApk, stubDataFile);
    SplitApkArgsCounts(splitApks);
    var f := multiset(SplitInstallFlags(marker, argsArtifact, stubDataFile));
    var m := multiset{Str("--split_main_apk"), ExecPath(splitMainApk)};
    assert f[Str("--split_apk")] == 0 && m[Str("--split_apk")] == 0;
    assert f[Str("--split_main_apk")] == 0 && m[Str("--split_main_apk")] == 1;
  }

  /**
   * When the main split is not among the others (and is none of the marker, the args
   * file, the stub data or adb) its path appears exactly once on the split install
   * command line.
   */
  lemma SplitInstallActionMainOnce(marker: Artifact, argsArtifact: Artifact, splitMainApk: Artifact,
                                   splitApks: seq<Artifact>, stubDataFile: Artifact)
    requires splitMainApk !in splitApks
    requires splitMainApk !in [marker, argsArtifact, stubDataFile, Executable(Adb)]
    ensures var a := SplitInstallAction(marker, argsArtifact, splitMainApk, splitApks, stubDataFile);
      multiset(a.commandLine)[ExecPath(splitMainApk)] == 1
  {
    SplitInstallWords(marker, argsArtifact, splitMainApk, splitApks, stubDataFile);
    SplitInstallFlagsWords(marker, argsArtifact, splitMainApk, stubDataFile);
    SplitApkArgsPathCount(splitApks, splitMainApk);
    var f := multiset(SplitInstallFlags(marker, argsArtifact, stubDataFile));
    var m := multiset{Str("--split_main_apk"), ExecPath(splitMainApk)};
    assert f[ExecPath(splitMainApk)] == 0 && m[ExecPath(splitMainApk)] == 1;
  }
}
