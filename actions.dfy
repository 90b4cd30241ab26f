/**
 * The slice of the build framework that mobile-install talks to: declared actions, the
 * attribute errors a rule reports, and the rule context that collects both.
 *
 * Actions are declarative records; registering one only appends it to the context.
 */
module Actions {
  import opened Wrappers
  import opened Artifacts

  /**
   * One element of a custom command line. Paths are rendered by the framework at
   * execution time, so the model keeps the artifact itself.
   */
  datatype Arg =
    | Str(s: string)                     // add(s): a literal word, e.g. a flag
    | ExecPath(a: Artifact)              // the exec path of an artifact
    | ArchLib(arch: string, lib: Artifact)  // addFormatted("%s:%s", arch, lib)

  /** The native libraries per CPU architecture, in the map's iteration order. */
  type NativeLibs = seq<(string, seq<Artifact>)>

  /** A SpawnAction as built by SpawnAction.Builder. */
  datatype SpawnAction = SpawnAction(
    mnemonic: string,
    executable: Tool,
    tools: seq<Tool>,
    inputs: seq<Artifact>,
    outputs: seq<Artifact>,
    commandLine: seq<Arg>,
    paramFile: bool,              // the command line goes through an (unquoted) parameter file
    executeUnconditionally: bool,
    local: bool)                  // execution info {"local": ""}

  /** What one ApkActionsBuilder is given before registerActions: one signed APK. */
  datatype ApkBuild = ApkBuild(
    description: string,
    classesDex: Option<Artifact>,
    inputZips: seq<Artifact>,
    javaResourceZip: Option<Artifact>,
    nativeLibs: Option<NativeLibs>,
    javaResourceFile: Option<Artifact>,
    signedApk: Artifact,
    signingKey: Artifact)

  /** Everything registered with the rule context, one entry per producer. */
  datatype Registration =
    | Spawn(action: SpawnAction)
    | Apk(apk: ApkBuild)
    | WriteAdbArgs(argsFile: Artifact)
    | DeployArchive(deployJar: Artifact, runtimeJars: seq<Artifact>)
    | Dex(dexInput: Artifact, dexOutput: Artifact)
    | DeployInfo(deployInfo: Artifact, manifest: Artifact, additionalManifests: seq<Artifact>)
    | ManifestAction(derived: Artifact)   // a stub or split manifest derived from an application manifest
    | ProcessIncrementalData(dataManifest: Artifact, resourceApk: Artifact, dataKind: string)
    | PackIncremental(packManifest: Artifact, packedApk: Artifact, noCompress: seq<string>, crunchPng: bool, proguardPrefix: string)

  /** The artifacts one registration produces. */
  function Outputs(r: Registration): seq<Artifact>
  {
    match r
    case Spawn(a) => a.outputs
    case Apk(b) => [b.signedApk]
    case WriteAdbArgs(f) => [f]
    case DeployArchive(jar, _) => [jar]
    case Dex(_, dex) => [dex]
    case DeployInfo(info, _, _) => [info]
    case ManifestAction(m) => [m]
    case ProcessIncrementalData(_, apk, _) => [apk]
    case PackIncremental(_, apk, _, _, _) => [apk]
  }

  datatype AttributeError = AttributeError(attribute: string, message: string)

  /** A prerequisite target; `runtimeJars` is None when it has no JavaCompilationArgsProvider. */
  datatype Target = Target(targetLabel: string, runtimeJars: Option<seq<Artifact>>)

  /**
   * The rule context of one android_binary: its configuration is fixed, its list of
   * registered actions and its list of attribute errors only grow.
   */
  class RuleContext {
    const prerequisites: map<string, Target>
    const useIncrementalNativeLibs: bool
    const decoupleDataProcessing: bool
    const crunchPng: bool
    const noCompressExtensions: seq<string>
    var actions: seq<Registration>
    var errors: seq<AttributeError>

    constructor (prerequisites: map<string, Target>, useIncrementalNativeLibs: bool,
                 decoupleDataProcessing: bool, crunchPng: bool, noCompressExtensions: seq<string>)
      ensures this.prerequisites == prerequisites
      ensures this.useIncrementalNativeLibs == useIncrementalNativeLibs
      ensures this.decoupleDataProcessing == decoupleDataProcessing
      ensures this.crunchPng == crunchPng && this.noCompressExtensions == noCompressExtensions
      ensures actions == [] && errors == []
    {
      this.prerequisites := prerequisites;
      this.useIncrementalNativeLibs := useIncrementalNativeLibs;
      this.decoupleDataProcessing := decoupleDataProcessing;
      this.crunchPng := crunchPng;
      this.noCompressExtensions := noCompressExtensions;
      actions := [];
      errors := [];
    }

    /** assertNoErrors throws exactly when this holds. */
    predicate HasErrors()
      reads this
    {
      errors != []
    }

    method RegisterAction(r: Registration)
      modifies this
      ensures actions == old(actions) + [r] && errors == old(errors)
    {
      actions := actions + [r];
    }

    /** Records an error against an attribute; construction goes on until the next assertNoErrors. */
    method ReportAttributeError(attribute: string, message: string)
      modifies this
      ensures errors == old(errors) + [AttributeError(attribute, message)] && actions == old(actions)
    {
      errors := errors + [AttributeError(attribute, message)];
    }
  }
}
