/**
 * The patch loader of the hot-fix library. It keeps the application's
 * installed list of code elements (the `dexElements` of the application's
 * class loader, resolved first match first), and on a successful load
 * replaces it by the patch's elements followed by the previous ones, so that
 * patched classes shadow the application's own.
 *
 * Code elements (type E) are opaque. The device's files are a map from path
 * to what the library would find there; a path missing from the map does not
 * exist.
 */
module HotFix {
  import opened Wrappers
  import opened Signature

  /**
   * A file on the device: what JarFile sees in it, and the `dexElements` of a
   * DexClassLoader built over it; None when building that loader, or any of
   * the reflective reads and the final write of the installed list, throws.
   */
  datatype BundleFile<C, E> = BundleFile(jar: JarArchive<C>, dexElements: Option<seq<E>>)

  /** The device's files by absolute path. */
  type FileSystem<C, E> = map<string, BundleFile<C, E>>

  /**
   * The Android context: the package manager's answer about the host's
   * signing certificate, and the absolute path of the private "hackDir"
   * directory.
   */
  datatype Context<K> = Context(host: HostLookup<K>, hackDir: string)

  /** How one load request ended; `Fix.load` reports these only in its log. */
  datatype LoadOutcome = NotFound | Rejected | InstallFailed | Installed

  /** File name of the bootstrap bundle shipped in the application's assets. */
  const HACK_JAR: string := "hack.jar"

  /** ReflectUtil.combineArray(first, second): the elements of `first`, then those of `second`. */
  function CombineArray<E>(first: seq<E>, second: seq<E>): seq<E>
  {
    first + second
  }

  /**
   * First-match class resolution over an element list: the index of the first
   * element that defines the class, if any.
   */
  function FindClass<E>(elements: seq<E>, defines: E -> bool): (r: Option<nat>)
    ensures r.Some? ==> r.value < |elements| && defines(elements[r.value])
    ensures r.Some? ==> forall k :: 0 <= k < r.value ==> !defines(elements[k])
    ensures r.None? <==> forall k :: 0 <= k < |elements| ==> !defines(elements[k])
  {
    if |elements| == 0 then None
    else if defines(elements[0]) then Some(0)
    else match FindClass(elements[1..], defines)
      case None => None
      case Some(i) => Some(i + 1)
  }

  /**
   * After patch elements are put in front of the base, a class defined by the
   * patch resolves to the patch's definition, and any other class resolves to
   * the base's, shifted by the patch's length.
   */
  lemma {:induction false} PatchShadowsBase<E>(patch: seq<E>, base: seq<E>, defines: E -> bool)
    ensures FindClass(CombineArray(patch, base), defines) ==
      match FindClass(patch, defines)
      case Some(i) => Some(i)
      case None =>
        match FindClass(base, defines)
        case Some(j) => Some(|patch| + j)
        case None => None
  {
    if |patch| > 0 {
      assert CombineArray(patch, base)[1..] == CombineArray(patch[1..], base);
      if !defines(patch[0]) {
        PatchShadowsBase(patch[1..], base, defines);
      }
    } else {
      assert CombineArray(patch, base) == base;
    }
  }

  class Fix<C, K, E> {
    /** The context passed to `constructor`; its uses are folded into the oracle parameters. */
    var context: Context<K>
    /** The checker built from the host's identity before anything is loaded. */
    var signature: SignatureChecker<C, K>
    /** The application class loader's element list, searched first to last. */
    var installed: seq<E>

    /**
     * Fix.init: builds the checker, copies the bootstrap bundle out of the
     * assets (None when the copy throws) and loads it without verification.
     */
    constructor (context: Context<K>, verifies: (C, K) -> bool,
                 samePrincipal: (string, string) -> bool, base: seq<E>,
                 hackAsset: Option<BundleFile<C, E>>, fs: FileSystem<C, E>)
      ensures this.context == context
      ensures signature.verifies == verifies && signature.samePrincipal == samePrincipal
      ensures signature.debuggable <==>
        context.host.HostCertificate? && samePrincipal(context.host.subject, DEBUG_DN)
      ensures signature.publicKey ==
        if context.host.HostCertificate? then Some(context.host.publicKey) else None
      ensures installed ==
        if hackAsset.Some? && hackAsset.value.dexElements.Some?
        then hackAsset.value.dexElements.value + base
        else base
    {
      signature := new SignatureChecker(context.host, verifies, samePrincipal);
      this.context := context;
      installed := base;
      new;
      if hackAsset.Some? {
        var hackJar := context.hackDir + "/" + HACK_JAR;
        ghost var outcome, consulted := Load(hackJar, false, fs[hackJar := hackAsset.value]);
      }
    }

    /**
     * Fix.load(path, doVerify): a missing file or a rejected archive leave the
     * installed list alone; otherwise the patch's elements are put in front of
     * it, unless a step of that replacement throws. `consulted` records whether
     * the signature checker was asked.
     */
    method Load(path: string, doVerify: bool, fs: FileSystem<C, E>)
      returns (ghost outcome: LoadOutcome, ghost consulted: bool)
      modifies this
      ensures context == old(context) && signature == old(signature)
      ensures consulted <==> path in fs && doVerify
      ensures outcome == NotFound <==> path !in fs
      ensures outcome == Rejected <==> path in fs && doVerify && !signature.Accepts(fs[path].jar)
      ensures outcome == InstallFailed <==>
        path in fs && (!doVerify || signature.Accepts(fs[path].jar)) && fs[path].dexElements.None?
      ensures outcome == Installed ==> installed == fs[path].dexElements.value + old(installed)
      ensures outcome != Installed ==> installed == old(installed)
    {
      consulted := false;
      if path !in fs {
        return NotFound, consulted;
      }
      var file := fs[path];
      if doVerify {
        consulted := true;
        var ok := signature.VerifyApk(file.jar);
        if !ok {
          return Rejected, consulted;
        }
      }
      if file.dexElements.None? {
        return InstallFailed, consulted;
      }
      var baseElements := installed;
      var dexElements := file.dexElements.value;
      var combineElements := CombineArray(dexElements, baseElements);
      installed := combineElements;
      outcome := Installed;
    }

    /** Fix.load(path): external bundles are always verified. */
    method LoadVerified(path: string, fs: FileSystem<C, E>)
      returns (ghost outcome: LoadOutcome, ghost consulted: bool)
      modifies this
      ensures context == old(context) && signature == old(signature)
      ensures consulted <==> path in fs
      ensures outcome == NotFound <==> path !in fs
      ensures outcome == Rejected <==> path in fs && !signature.Accepts(fs[path].jar)
      ensures outcome == Installed <==>
        path in fs && signature.Accepts(fs[path].jar) && fs[path].dexElements.Some?
      ensures outcome == Installed ==> installed == fs[path].dexElements.value + old(installed)
      ensures outcome != Installed ==> installed == old(installed)
    {
      outcome, consulted := Load(path, true, fs);
    }
  }
}
