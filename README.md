# Mobile-install wiring of android_binary

This project models how Bazel's `android_binary` rule sets up `mobile-install`: which
APKs and APK splits exist, what each one is named, the order they are listed in, what
each signed APK contains and which key signs it, and what the three device-install
command lines say. It also models the two stub-application prerequisite checks, the choice
between the two resource-processing strategies, and what goes into the four output groups.

Artifacts are opaque handles. The model never computes a path string; it only records
which artifact goes where:
- a named implicit output of the rule, such as the incremental APK;
- a file under `_mobile_install/`;
- a derived split manifest or stub manifest;
- a tool.

Command lines are sequences of words, exec paths and `arch:lib` pairs, the way the
framework's `CustomCommandLine` keeps them. The rule context is a class with two lists
that only grow: the actions registered so far and the attribute errors reported so far.
Each framework producer (`ApkActionsBuilder`, `DeployArchiveBuilder`, the dex action,
`WriteAdbArgsAction`, `AndroidDeployInfoAction`, manifest derivation, resource packaging)
is one registration that records its arguments.

Every step that registers actions is a module-level method that takes the rule context and
changes its two lists. Its postcondition says that the context's action list grows by exactly the registrations a specification function
describes. The per-shard loop and the native-library and split loops that build command
lines are proved against those functions with loop invariants. The lemmas then state the
rule's promises about the specification functions:
- the order and distinctness of the splits;
- the signing key of every APK;
- the flags and inputs of each install action;
- the mutually exclusive ways the native libraries are shipped;
- the membership of the output groups.

Modules:
- `Artifacts` (artifacts.dfy): the artifact handles and `getMobileInstallArtifact`.
- `Actions` (actions.dfy): the registrations and the rule context.
- `InstallActions` (install.dfy): `createInstallAction` and `createSplitInstallAction`.
- `Splits` (splits.dfy): split names and `createSplitApkResources`.
- `StubApplication` (stub.dfy): `getStubDex`.
- `ResourceApks` (resources.dfy): `createMobileInstallResourceApks`.
- `MobileInstall` (mobile_install.dfy): `addMobileInstall`.
- `MobileInstallProperties` (mobile_install_properties.dfy): whole-pipeline properties.

## Model

| member | source | states |
|---|---|---|
| Artifacts.MobileInstallArtifact | src/main/java/com/google/devtools/build/lib/rules/android/AndroidBinaryMobileInstall.java:523-527 | an intermediate artifact lives under the given base name in the rule's `_mobile_install` unique directory |
| Artifacts.MobileInstallPathInjective | src/main/java/com/google/devtools/build/lib/rules/android/AndroidBinaryMobileInstall.java:523-527 | two mobile-install artifacts have the same `_mobile_install/` path exactly when they are the same artifact |
| Artifacts.NatToString | src/main/java/com/google/devtools/build/lib/rules/android/AndroidBinaryMobileInstall.java:233 | the decimal rendering of a shard number is non-empty, all digits, has one digit exactly below 10, and has no leading zero |
| Artifacts.NatToStringValue | src/main/java/com/google/devtools/build/lib/rules/android/AndroidBinaryMobileInstall.java:233 | read back positionally, the decimal rendering denotes the number rendered |
| Artifacts.NatToStringInjective | src/main/java/com/google/devtools/build/lib/rules/android/AndroidBinaryMobileInstall.java:233 | different shard numbers give different decimal strings, so different split names |
| InstallActions.ArchArgsLength | src/main/java/com/google/devtools/build/lib/rules/android/AndroidBinaryMobileInstall.java:443-446 | one architecture contributes two words per library |
| InstallActions.ArchArgsCount | src/main/java/com/google/devtools/build/lib/rules/android/AndroidBinaryMobileInstall.java:443-446 | one architecture contributes exactly one `--native_lib` per library |
| InstallActions.ArchArgsWords | src/main/java/com/google/devtools/build/lib/rules/android/AndroidBinaryMobileInstall.java:443-446 | one architecture contributes no word other than `--native_lib` and `arch:lib` |
| InstallActions.ArchArgsAt | src/main/java/com/google/devtools/build/lib/rules/android/AndroidBinaryMobileInstall.java:443-446 | the t-th library of an architecture is the t-th `--native_lib arch:lib` pair |
| InstallActions.NativeLibsLength | src/main/java/com/google/devtools/build/lib/rules/android/AndroidBinaryMobileInstall.java:441-448 | the whole map contributes one input and two words per (architecture, library) pair |
| InstallActions.NativeLibsCount | src/main/java/com/google/devtools/build/lib/rules/android/AndroidBinaryMobileInstall.java:441-448 | the whole map contributes exactly one `--native_lib` per (architecture, library) pair |
| InstallActions.NativeLibsWords | src/main/java/com/google/devtools/build/lib/rules/android/AndroidBinaryMobileInstall.java:441-448 | the whole map contributes no word other than `--native_lib` and `arch:lib` |
| InstallActions.NativeLibsAt | src/main/java/com/google/devtools/build/lib/rules/android/AndroidBinaryMobileInstall.java:441-448 | the t-th pair in iteration order is the t-th native input and the t-th `--native_lib arch:lib` |
| InstallActions.BuildArchLibs | src/main/java/com/google/devtools/build/lib/rules/android/AndroidBinaryMobileInstall.java:442-446 | the inner loop adds every library of one architecture as an input and as `--native_lib arch:lib`, in order |
| InstallActions.BuildNativeLibs | src/main/java/com/google/devtools/build/lib/rules/android/AndroidBinaryMobileInstall.java:441-448 | the outer loop adds the inputs and words of every architecture in the map's iteration order |
| InstallActions.BuildInstallAction | src/main/java/com/google/devtools/build/lib/rules/android/AndroidBinaryMobileInstall.java:396-450 | builds exactly the install action the specification describes: fixed inputs and flags, the APK for a full install, then the native libraries when the flag is on |
| InstallActions.CreateInstallAction | src/main/java/com/google/devtools/build/lib/rules/android/AndroidBinaryMobileInstall.java:396-452 | registers that one install action, configured by the context's useIncrementalNativeLibs, and reports no error when the framework calls it makes report none |
| InstallActions.InstallActionFlags | src/main/java/com/google/devtools/build/lib/rules/android/AndroidBinaryMobileInstall.java:407-439 | an install action runs unconditionally and locally, writes only its marker, starts with its six fixed flags, and a full install follows them with `--apk` and the APK |
| InstallActions.InstallActionApk | src/main/java/com/google/devtools/build/lib/rules/android/AndroidBinaryMobileInstall.java:436-439 | `--apk` appears iff the install is full; a full install has the APK as input, and an incremental one does not when the APK is none of its other inputs |
| InstallActions.InstallActionNativeLibCount | src/main/java/com/google/devtools/build/lib/rules/android/AndroidBinaryMobileInstall.java:441-448 | the number of `--native_lib` is the number of (architecture, library) pairs when the flag is on, and zero when it is off |
| InstallActions.InstallActionNoArchLibs | src/main/java/com/google/devtools/build/lib/rules/android/AndroidBinaryMobileInstall.java:428-448 | without the flag no `arch:lib` argument appears |
| InstallActions.InstallActionInputCount | src/main/java/com/google/devtools/build/lib/rules/android/AndroidBinaryMobileInstall.java:421-448 | the inputs are the four fixed ones, the APK for a full install, and one per native library when the flag is on |
| InstallActions.InstallActionNativeLibPairs | src/main/java/com/google/devtools/build/lib/rules/android/AndroidBinaryMobileInstall.java:441-448 | with the flag, every (architecture, library) pair is an input and an `arch:lib` argument |
| InstallActions.SplitApkArgsLength | src/main/java/com/google/devtools/build/lib/rules/android/AndroidBinaryMobileInstall.java:484-487 | the split arguments hold two words per split |
| InstallActions.SplitApkArgsCounts | src/main/java/com/google/devtools/build/lib/rules/android/AndroidBinaryMobileInstall.java:484-487 | the split arguments hold one `--split_apk` per split and no `--split_main_apk` |
| InstallActions.SplitApkArgsPathCount | src/main/java/com/google/devtools/build/lib/rules/android/AndroidBinaryMobileInstall.java:484-487 | each split's path appears in the split arguments exactly as often as the split is given |
| InstallActions.SplitApkArgsAt | src/main/java/com/google/devtools/build/lib/rules/android/AndroidBinaryMobileInstall.java:484-487 | the k-th split is the k-th `--split_apk` argument |
| InstallActions.BuildSplitInstallAction | src/main/java/com/google/devtools/build/lib/rules/android/AndroidBinaryMobileInstall.java:454-489 | the loop over the splits builds exactly the split install action the specification describes |
| InstallActions.CreateSplitInstallAction | src/main/java/com/google/devtools/build/lib/rules/android/AndroidBinaryMobileInstall.java:454-491 | registers that one split install action and reports no error when the framework calls it makes report none |
| InstallActions.SplitInstallActionShape | src/main/java/com/google/devtools/build/lib/rules/android/AndroidBinaryMobileInstall.java:454-487 | the split install runs unconditionally and locally, writes only its marker, has the fixed inputs, the main split and then every split as inputs, and starts its command line with the five fixed flags followed by two words per split |
| InstallActions.SplitInstallActionOrder | src/main/java/com/google/devtools/build/lib/rules/android/AndroidBinaryMobileInstall.java:476-487 | after the fixed flags, the k-th split is passed as `--split_apk` and its APK, in the given order |
| InstallActions.SplitInstallActionCounts | src/main/java/com/google/devtools/build/lib/rules/android/AndroidBinaryMobileInstall.java:476-487 | `--split_apk` once per split and `--split_main_apk` exactly once |
| InstallActions.SplitInstallActionMainOnce | src/main/java/com/google/devtools/build/lib/rules/android/AndroidBinaryMobileInstall.java:476-487 | the main split's path appears once when it is not among the other splits and is none of the fixed files |
| Splits.DexSplitApksAt | src/main/java/com/google/devtools/build/lib/rules/android/AndroidBinaryMobileInstall.java:232-244 | the i-th dex split is `dex(i+1).apk` |
| Splits.DexSplitApksLength | src/main/java/com/google/devtools/build/lib/rules/android/AndroidBinaryMobileInstall.java:232-244 | there is one dex split per shard |
| Splits.AllSplitApksOrder | src/main/java/com/google/devtools/build/lib/rules/android/AndroidBinaryMobileInstall.java:224-296 | N shards give N+4 splits: android_resources first, dex1..dexN in shard order, native, java_resources, split_main last; the split install's set is that list without split_main |
| Splits.DexSplitApkInjective | src/main/java/com/google/devtools/build/lib/rules/android/AndroidBinaryMobileInstall.java:233-236 | different shards get different dex split APKs |
| Splits.DexSplitApkFirstChar | src/main/java/com/google/devtools/build/lib/rules/android/AndroidBinaryMobileInstall.java:233-236 | every dex split's file name starts with `d`, which no fixed split name does |
| Splits.SplitApksDistinctAt | src/main/java/com/google/devtools/build/lib/rules/android/AndroidBinaryMobileInstall.java:224-296 | any two positions of the split list hold different APKs |
| Splits.AllSplitApksDistinct | src/main/java/com/google/devtools/build/lib/rules/android/AndroidBinaryMobileInstall.java:216-296 | the split list has no duplicates, so the deduplicating nested set keeps every split in insertion order |
| Splits.SplitMainNotInSplitApks | src/main/java/com/google/devtools/build/lib/rules/android/AndroidBinaryMobileInstall.java:284-299 | the set taken before split_main.apk is added does not contain it |
| Splits.CreateSplitApkResources | src/main/java/com/google/devtools/build/lib/rules/android/AndroidBinaryMobileInstall.java:493-521 | derives the split manifest with the given hasCode, registers `aapt package -F split_<name>.ap_ -M manifest -I android.jar`, and returns `split_<name>.ap_` |
| Splits.DexSplitActionsLength | src/main/java/com/google/devtools/build/lib/rules/android/AndroidBinaryMobileInstall.java:232-244 | the shard loop registers three things per shard |
| Splits.DexSplitActionsWiring | src/main/java/com/google/devtools/build/lib/rules/android/AndroidBinaryMobileInstall.java:232-244 | turn i of the loop registers the dex(i+1) split manifest with code, its aapt packaging, and the APK whose classes dex is shard i |
| StubApplication.StubDex | src/main/java/com/google/devtools/build/lib/rules/android/AndroidBinaryMobileInstall.java:346-394 | the stub dex exists iff its attribute has a Java prerequisite; otherwise the error is against that attribute, with "Stub application cannot be found" or "'label' should be a Java target" |
| StubApplication.GetStubDex | src/main/java/com/google/devtools/build/lib/rules/android/AndroidBinaryMobileInstall.java:346-394 | returns the stub dex or reports exactly that error, and registers the deploy jar and dex actions only on success |
| StubApplication.StubDexReadsOwnAttribute | src/main/java/com/google/devtools/build/lib/rules/android/AndroidBinaryMobileInstall.java:349-352 | each stub instance depends only on its own attribute |
| ResourceApks.CreateMobileInstallResourceApks | src/main/java/com/google/devtools/build/lib/rules/android/AndroidBinaryMobileInstall.java:60-121 | picks the strategy by decoupleDataProcessing, stops where assertNoErrors does, and on success returns the incremental package and android_resources.ap_ |
| ResourceApks.StrategiesAgree | src/main/java/com/google/devtools/build/lib/rules/android/AndroidBinaryMobileInstall.java:68-117 | both strategies register four things, take the stub and the `android_resources` split manifest (without code) of the application manifest, and write the same two packages |
| MobileInstall.AddIncrementalPrologue | src/main/java/com/google/devtools/build/lib/rules/android/AndroidBinaryMobileInstall.java:148-171 | registers the dex manifest action, then the stub dex; it returns the stub dex and reports nothing when the stub is usable, and otherwise returns nothing and reports exactly the stub's error |
| MobileInstall.AddIncrementalInstalls | src/main/java/com/google/devtools/build/lib/rules/android/AndroidBinaryMobileInstall.java:174-214 | registers the incremental APK, the adb args file, then the full and the incremental install |
| MobileInstall.AddDexSplit | src/main/java/com/google/devtools/build/lib/rules/android/AndroidBinaryMobileInstall.java:233-243 | one turn registers the split's resources and then its APK, whose dex is the shard, and returns dex(i+1).apk |
| MobileInstall.AddDexSplits | src/main/java/com/google/devtools/build/lib/rules/android/AndroidBinaryMobileInstall.java:232-244 | the shard loop returns dex1..dexN and registers each split's resources and APK in shard order |
| MobileInstall.AddSplitTail | src/main/java/com/google/devtools/build/lib/rules/android/AndroidBinaryMobileInstall.java:246-282 | registers the native and Java-resources splits, without code, then the resource-stripping action |
| MobileInstall.AddSplitApks | src/main/java/com/google/devtools/build/lib/rules/android/AndroidBinaryMobileInstall.java:216-284 | builds the split set: resources, dex splits, native, java_resources |
| MobileInstall.AddSplitsBody | src/main/java/com/google/devtools/build/lib/rules/android/AndroidBinaryMobileInstall.java:174-287 | registers everything between the two error checks, ending with the split stub dex; when the split stub is unusable it returns nothing and reports exactly that stub's error |
| MobileInstall.AddSplitMain | src/main/java/com/google/devtools/build/lib/rules/android/AndroidBinaryMobileInstall.java:285-317 | registers the main split, the split install and both deploy infos; returns all splits, split_main last |
| MobileInstall.AddMobileInstall | src/main/java/com/google/devtools/build/lib/rules/android/AndroidBinaryMobileInstall.java:123-344 | when no framework call reports an error, succeeds iff no error was reported before and both stubs are usable; then it registers all its actions and returns the four output groups; otherwise it stops at the first failing assertNoErrors with what was registered up to it, having reported exactly the failing stub's error, or nothing of its own when earlier errors stopped it |
| MobileInstallProperties.DexSplitSignedApks | src/main/java/com/google/devtools/build/lib/rules/android/AndroidBinaryMobileInstall.java:232-244 | the shard loop signs dex1..dexN, in shard order |
| MobileInstallProperties.DexSplitSigningKeys | src/main/java/com/google/devtools/build/lib/rules/android/AndroidBinaryMobileInstall.java:232-244 | every APK the shard loop signs is signed with the given key |
| MobileInstallProperties.PrologueApks | src/main/java/com/google/devtools/build/lib/rules/android/AndroidBinaryMobileInstall.java:148-172 | no APK is signed before the first error check |
| MobileInstallProperties.InstallsApks | src/main/java/com/google/devtools/build/lib/rules/android/AndroidBinaryMobileInstall.java:174-214 | the only APK before the splits is the incremental APK |
| MobileInstallProperties.SplitTailApks | src/main/java/com/google/devtools/build/lib/rules/android/AndroidBinaryMobileInstall.java:246-282 | the native split, then the Java resources split |
| MobileInstallProperties.SplitApkActionsApks | src/main/java/com/google/devtools/build/lib/rules/android/AndroidBinaryMobileInstall.java:224-282 | the resources split, the dex splits, native, java_resources, in that order |
| MobileInstallProperties.EpilogueApks | src/main/java/com/google/devtools/build/lib/rules/android/AndroidBinaryMobileInstall.java:288-317 | after the second check only the main split is signed |
| MobileInstallProperties.MobileInstallApkBuilds | src/main/java/com/google/devtools/build/lib/rules/android/AndroidBinaryMobileInstall.java:174-296 | the APK builds of the whole run, in registration order |
| MobileInstallProperties.MobileInstallSignedApks | src/main/java/com/google/devtools/build/lib/rules/android/AndroidBinaryMobileInstall.java:174-296 | the signed APKs are the incremental APK then every split, split_main last, all signed with the binary's key |
| MobileInstallProperties.DexSplitsConditional | src/main/java/com/google/devtools/build/lib/rules/android/AndroidBinaryMobileInstall.java:232-244 | no spawn action the shard loop registers is marked to execute unconditionally |
| MobileInstallProperties.SplitTailConditional | src/main/java/com/google/devtools/build/lib/rules/android/AndroidBinaryMobileInstall.java:246-282 | no spawn action of the native/Java/strip part is marked to execute unconditionally |
| MobileInstallProperties.SplitApkActionsConditional | src/main/java/com/google/devtools/build/lib/rules/android/AndroidBinaryMobileInstall.java:224-282 | building the splits registers no spawn action marked to execute unconditionally |
| MobileInstallProperties.InstallsUnconditional | src/main/java/com/google/devtools/build/lib/rules/android/AndroidBinaryMobileInstall.java:174-214 | the full and the incremental install are the spawn actions of that phase marked to execute unconditionally |
| MobileInstallProperties.EpilogueUnconditional | src/main/java/com/google/devtools/build/lib/rules/android/AndroidBinaryMobileInstall.java:288-317 | the split install is the spawn action of the last phase marked to execute unconditionally |
| MobileInstallProperties.BeforeEpilogueUnconditional | src/main/java/com/google/devtools/build/lib/rules/android/AndroidBinaryMobileInstall.java:150-287 | up to the second error check, the full and the incremental install are the only spawn actions marked to execute unconditionally |
| MobileInstallProperties.NoSplitInstallBeforeEpilogue | src/main/java/com/google/devtools/build/lib/rules/android/AndroidBinaryMobileInstall.java:171-310 | a run stopped at either error check has not registered the split install |
| MobileInstallProperties.MobileInstallUnconditionalActions | src/main/java/com/google/devtools/build/lib/rules/android/AndroidBinaryMobileInstall.java:150-317 | of the spawn actions this file builds, exactly the full, the incremental and the split install are marked to execute unconditionally, in that order, all local AndroidInstall actions |
| MobileInstallProperties.FullAndIncrementalInstall | src/main/java/com/google/devtools/build/lib/rules/android/AndroidBinaryMobileInstall.java:194-214 | only the full install passes the incremental APK and `--apk`; each writes its own marker |
| MobileInstallProperties.SplitInstallWiring | src/main/java/com/google/devtools/build/lib/rules/android/AndroidBinaryMobileInstall.java:284-299 | the split install gets the N+3 other splits as `--split_apk` and split_main once, as `--split_main_apk` |
| MobileInstallProperties.NativeLibsOneWay | src/main/java/com/google/devtools/build/lib/rules/android/AndroidBinaryMobileInstall.java:184-186 | native libraries go into the incremental APK iff useIncrementalNativeLibs is off, and onto both install command lines iff it is on; the native split always has them |
| MobileInstallProperties.AllSplitApksInMobileInstallDir | src/main/java/com/google/devtools/build/lib/rules/android/AndroidBinaryMobileInstall.java:224-296 | every split APK is a file under `_mobile_install/` |
| MobileInstallProperties.SplitOutputGroupDistinct | src/main/java/com/google/devtools/build/lib/rules/android/AndroidBinaryMobileInstall.java:331-336 | the split output group has N+6 members, all different |
| MobileInstallProperties.MobileInstallOutputGroupNames | src/main/java/com/google/devtools/build/lib/rules/android/AndroidBinaryMobileInstall.java:338-343 | the four group names differ; the three mobile_install groups are internal and the deploy-info group is not |
| MobileInstallProperties.MobileInstallOutputGroupMembers | src/main/java/com/google/devtools/build/lib/rules/android/AndroidBinaryMobileInstall.java:319-343 | full = marker + incremental deploy info; incremental likewise; split = all splits + split marker + split deploy info; deploy info = the incremental deploy info |

## Left out

- Paths: exec paths are not rendered. An artifact's path is kept only as far as `_mobile_install/` plus its base name.
- Desugaring of the stub application's runtime jars (`desugarJava8`, `collectDesugaredJarsFromAttributes`, `checkDesugarDeps`): the deploy-archive registration records the runtime jars only.
- The resource extractor tool given with the Java resource zip is not recorded.
- Resource processing (`ProcessedAndroidData`, `StampedAndroidManifest`, `packIncrementalBinaryWithDataAndResources`): each package is one registration. The model assumes these foreign calls report no errors, so the legacy strategy's first error check only sees errors reported before it.
- `ResourceApks.StrategiesAgree`: the decoupled strategy derives its stub and split manifests from a `StampedAndroidManifest` of the application manifest (no package, exported), and the legacy strategy derives them from the `ApplicationManifest` itself. The model has one derivation for both (`StubManifest` and `SplitManifest` of the application manifest), so the lemma's clauses that the two strategies derive equal manifests hold by that modelling choice and not by anything the source does.
- `ResourceApks.CreateMobileInstallResourceApks`: the ProGuard configuration artifact is recorded only by its prefix, and the resource dependencies are not recorded.
- Execution of aapt, adb, the resource stripper, the dex-manifest builder and the incremental-install tool is external.
- Progress messages and the default shell environment are not recorded.
- The second `addTool(adb)` of the split install action is not modelled: the framework deduplicates it, and the model records adb once.
- Nested sets are ordered lists. The split set's deduplication changes nothing because the splits are distinct (`Splits.AllSplitApksDistinct`). Each architecture's native-library list is taken to be duplicate-free, as a set is; a list with a repeated library would make `InstallActions.NativeLibsCount` and `InstallActions.InstallActionNativeLibCount` count it once per repetition.
- `OutputGroupInfo.INTERNAL_SUFFIX` is outside the modelled file. The model uses the framework's value `_INTERNAL_`.
- The output groups are returned as a value instead of being added to the configured-target builder.
- `MobileInstall.AddMobileInstall`: the framework calls made between the error checks are assumed never to report an error. These are `getExecutablePrerequisite` (for the dex-manifest builder, the resource stripper and the incremental-install tool), `AndroidSdkProvider.fromRuleContext`, `DeployArchiveBuilder` and `createDexAction`. So the run succeeds exactly when no error was reported before it and both stubs are usable, and `InstallActions.CreateInstallAction` and `InstallActions.CreateSplitInstallAction` report no error.
- Execution policy of the builders outside this file (`WriteAdbArgsAction`, `ApkActionsBuilder`, `DeployArchiveBuilder`, the dex action, `AndroidDeployInfoAction`, manifest derivation, resource packaging) is not modelled. `MobileInstallProperties.PickUnconditional` never picks their registrations, so the lemmas about unconditional execution speak only of the spawn actions this file builds.
- `assertNoErrors` throws. The model instead returns `None` and keeps everything registered up to that point.
- `src/test/java/com/google/devtools/build/lib/util/JavaClockTest.java` tests the wall clock with sleeps and is not part of this model.
