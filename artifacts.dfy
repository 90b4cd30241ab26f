/**
 * Artifact handles and the names mobile-install gives to its intermediate outputs.
 *
 * Artifacts are opaque: the model never invents a file path for one. A handle says only
 * where the artifact comes from, which is enough to tell two handles apart.
 */
module Artifacts {

  /** The executables the registered actions invoke. */
  datatype Tool =
    | IncrementalInstall           // prerequisite $incremental_install
    | BuildIncrementalDexManifest  // prerequisite $build_incremental_dexmanifest
    | StripResources               // prerequisite $strip_resources
    | Aapt                         // the Android SDK's aapt
    | Adb                          // the Android SDK's adb

  /** The rule's implicit outputs that mobile-install writes (AndroidRuleClasses constants). */
  datatype ImplicitOutput =
    | IncrementalApk
    | IncrementalResourcesApk
    | FullDeployMarker
    | IncrementalDeployMarker
    | SplitDeployMarker
    | DexManifest
    | StubApplicationData
    | MobileInstallArgs
    | DeployInfoIncremental
    | DeployInfoSplit

  datatype Artifact =
    | Given(id: string)                 // handed in by the caller: dex shards, native libraries, the key, ...
    | Implicit(output: ImplicitOutput)
    | MobileInstall(baseName: string)   // getMobileInstallArtifact: <baseName> under the rule's `_mobile_install` unique directory
    | SplitManifest(of: Artifact, splitName: string, hasCode: bool)  // createSplitManifest(splitName, hasCode)
    | StubManifest(of: Artifact)        // addMobileInstallStubApplication
    | Executable(tool: Tool)
    | AndroidJar                        // the SDK's android.jar

  const MobileInstallDir: string := "_mobile_install/"

  /** The intermediate artifact with the given base name, in the rule's `_mobile_install` unique directory. */
  function MobileInstallArtifact(baseName: string): (a: Artifact)
    ensures a.MobileInstall? && MobileInstallPath(a) == MobileInstallDir + baseName
  {
    MobileInstall(baseName)
  }

  /** The path of a mobile-install artifact, from the `_mobile_install` unique directory on. */
  function MobileInstallPath(a: Artifact): string
    requires a.MobileInstall?
  {
    MobileInstallDir + a.baseName
  }

  /** Distinct base names never share a path: the private directory keeps the names apart. */
  lemma MobileInstallPathInjective(a: Artifact, b: Artifact)
    requires a.MobileInstall? && b.MobileInstall?
    ensures MobileInstallPath(a) == MobileInstallPath(b) <==> a == b
  {
    if MobileInstallPath(a) == MobileInstallPath(b) {
      assert a.baseName == MobileInstallPath(a)[|MobileInstallDir|..];
      assert b.baseName == MobileInstallPath(b)[|MobileInstallDir|..];
    }
  }

  // ---------------------------------------------------------------------------
  // Java's decimal rendering of a non-negative int, as used in "dex" + (i + 1).

  function DigitChar(d: nat): (c: char)
    requires d < 10
    ensures '0' <= c <= '9'
  {
    (48 + d) as char
  }

  /** The decimal digits of n, most significant first, without leading zeros. */
  function NatToString(n: nat): (s: string)
    ensures 1 <= |s|
    ensures |s| == 1 <==> n < 10
    ensures forall k :: 0 <= k < |s| ==> '0' <= s[k] <= '9'
    ensures |s| > 1 ==> s[0] != '0'
    decreases n
  {
    if n < 10 then [DigitChar(n)] else NatToString(n / 10) + [DigitChar(n % 10)]
  }

  /** The number a string of decimal digits denotes, read positionally, most significant first. */
  function DigitsValue(s: string): int
  {
    if |s| == 0 then 0 else DigitsValue(s[..|s| - 1]) * 10 + (s[|s| - 1] as int - '0' as int)
  }

  /** The rendering denotes the number it renders. */
  lemma {:induction false} NatToStringValue(n: nat)
    ensures DigitsValue(NatToString(n)) == n
    decreases n
  {
    var s := NatToString(n);
    if n < 10 {
      assert s[..0] == [];
    } else {
      assert s[..|s| - 1] == NatToString(n / 10);
      NatToStringValue(n / 10);
    }
  }

  /** Different numbers have different decimal renderings. */
  lemma {:induction false} NatToStringInjective(a: nat, b: nat)
    requires NatToString(a) == NatToString(b)
    ensures a == b
    decreases a
  {
    if a < 10 {
      assert b < 10;
      assert (48 + a) as char == (48 + b) as char;
    } else {
      assert b >= 10;
      var sa, sb := NatToString(a), NatToString(b);
      assert NatToString(a / 10) == sa[..|sa| - 1];
      assert NatToString(b / 10) == sb[..|sb| - 1];
      NatToStringInjective(a / 10, b / 10);
      assert DigitChar(a % 10) == sa[|sa| - 1] == DigitChar(b % 10);
    }
  }

  /** If `p + s + q == p + t + q` then `s == t`: a fixed prefix and suffix keep names apart. */
  lemma AffixInjective(p: string, s: string, t: string, q: string)
    requires p + s + q == p + t + q
    ensures s == t
  {
    var u, v := p + s + q, p + t + q;
    assert |s| == |t|;
    assert s == u[|p|..|p| + |s|];
    assert t == v[|p|..|p| + |t|];
  }
}
