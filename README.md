# HotFix patch trust and precedence, modelled in Dafny

The HotFix library patches a running Android application without reinstalling it. At start-up it
learns the host application's own signing identity. It then loads code bundles: a bootstrap
bundle, `hack.jar`, copied out of the application's assets and loaded without verification, and
external patch bundles, which must carry a certificate that verifies against the host's public key.
A bundle that is accepted has its code elements put in front of the application's class-loader
element list. Classes are resolved first match first, so the patch's classes shadow the
application's own.

This project models the two pieces of logic that decide this:

- `signature.dfy`, module `Signature`: the class `SignatureChecker` (from `SignatureChecker.java`).
  It has the fields `debuggable` and `publicKey`, its initialisation from the host certificate, the
  early-return decision `VerifyApk`, the stream-draining loop `LoadDigests` and the descending
  certificate search `Check`.
- `hotfix.dfy`, module `HotFix`: the class `Fix` (from `Fix.java`). It has the checker, the context
  and the installed element list. Its constructor is `Fix.init`, with the bootstrap load. `Load` is
  the gated prepend-and-replace of the installed list, and `LoadVerified` is `load(path)`.
- `wrappers.dfy`: an `Option` type standing in for Java's `null`.

Platform calls become values and oracles:

- Certificates and keys are opaque type parameters. `Certificate.verify` is the checker's constant
  `verifies: (C, K) -> bool`. When the key is missing, `verify(null)` throws inside the catch-all
  handler, so the model treats that attempt as failed.
- The package manager's answer is a `HostLookup`: a parsed certificate with its subject name and
  key, `NameNotFound`, or `BadCertificate`. `X500Principal.equals` is the checker's constant
  `samePrincipal`, which compares two distinguished names in canonical form. So a subject written
  in another case or with different spacing still matches `DEBUG_DN`.
- A `JarArchive` records whether `new JarFile` throws and the `classes.dex` entry, if there is one.
  That entry's `EntryStream` records whether opening it throws, the successive `read` results
  (`Chunk`, `EndOfStream`, `ReadError`; reads past the recorded ones report end of stream) and
  whether closing it throws. `JarEntry.certificates` is what `getCertificates` returns once the
  stream has been read to its end. The model reads it only after `LoadDigests` succeeded, which is
  the read-before-trust order the JDK needs.
- The device's files are a `map` from path to `BundleFile`. A path that is not in the map does not
  exist. A `BundleFile`'s `dexElements` is what a `DexClassLoader` over the file exposes. It is
  `None` when any step of the replacement throws (`Class.forName`, the reflective reads, the loader,
  `setField`).
- `ReflectUtil.combineArray` is not part of this model. Going by the argument order at
  `Fix.java:54`, it is assumed to be concatenation, first argument first (`CombineArray`). Nothing
  shown removes duplicates, so the model does not either.

Which results of the source are modelled:

- Dead-end paths return `false` or leave the state unchanged, exactly as the caught exceptions and
  early returns do.
- The trust policy is preserved as written. Any single certificate of the chain that verifies is
  enough, and a host signed with the debug certificate accepts every bundle.
- Nothing in `Fix.load` removes duplicates: loading the same bundle twice puts its elements in the
  list twice, and the model does the same.

## Model

| member | source | states |
|---|---|---|
| `Signature.SignatureChecker.constructor` | fix/src/main/java/com/aitsuki/fix/SignatureChecker.java:29-58 | `debuggable` holds exactly when the host certificate could be read and its subject equals `CN=Android Debug,O=Android,C=US` as an X.500 principal (`samePrincipal`). `publicKey` is that certificate's key, or absent. When the lookup or the parse throws, the new checker rejects every archive (fails closed). |
| `Signature.SignatureChecker.Init` | fix/src/main/java/com/aitsuki/fix/SignatureChecker.java:38-58 | On a readable host certificate, both fields are set from it. On `NameNotFoundException` or `CertificateException`, both fields keep their previous values. |
| `Signature.SignatureChecker.InitFailureFailsClosed` | fix/src/main/java/com/aitsuki/fix/SignatureChecker.java:53-57 | With no stored key and no debug flag, `Accepts` is false for every archive: no certificate can verify. |
| `Signature.SignatureChecker.LoadDigests` | fix/src/main/java/com/aitsuki/fix/SignatureChecker.java:115-127 | The drain loop succeeds (throws no `IOException`) exactly when opening succeeds, the reads reach end of stream before any read error, and closing succeeds. |
| `Signature.SignatureChecker.Check` | fix/src/main/java/com/aitsuki/fix/SignatureChecker.java:100-113 | Accepts if and only if some certificate, at any position, verifies against the stored key, so an empty array is rejected. Indices are tried strictly from `length-1` downwards. Every tried index except the last fails. On acceptance, the stop index `length - attempts` is the highest verifying index. On rejection, all `length` indices were tried. |
| `Signature.SignatureChecker.VerifyApk` | fix/src/main/java/com/aitsuki/fix/SignatureChecker.java:64-98 | The result equals `Accepts`: debug mode, or else the archive opens, has `classes.dex`, its stream is read to the end, its certificates are non-null and one verifies. Debug mode accepts any archive, even a corrupt one. Without debug mode, each of these rejects: an archive that fails to open, a missing `classes.dex`, an I/O failure on the entry stream, a null certificate array and an empty certificate array. |
| `HotFix.PatchShadowsBase` | fix/src/main/java/com/aitsuki/fix/Fix.java:53-55 | First-match lookup over `combineArray(patch, base)` finds a class in the patch whenever the patch defines it. Otherwise it finds the base's definition, at the base's index shifted by the patch's length. |
| `HotFix.Fix.constructor` | fix/src/main/java/com/aitsuki/fix/Fix.java:19-30 | The checker is built from the host identity before anything is loaded. If copying `hack.jar` succeeds, the bootstrap bundle is loaded without verification, so its elements come first whatever its signature. If the copy throws, the list is the application's base list. |
| `HotFix.Fix.Load` | fix/src/main/java/com/aitsuki/fix/Fix.java:36-60 | A missing file leaves the list unchanged, and the checker is not consulted. The checker is consulted exactly when the file exists and `doVerify` holds; `&&` short-circuits when `doVerify` is false. A rejected archive leaves the list unchanged. A failure anywhere in the replacement leaves the list unchanged. Otherwise the new list is the patch's elements followed by the previous list. |
| `HotFix.Fix.LoadVerified` | fix/src/main/java/com/aitsuki/fix/Fix.java:32-34 | `load(path)` is `load(path, true)`: the checker is always consulted for an existing file, and the list changes only for an accepted archive. |

## Left out

- Opening and parsing the archive, extracting certificates, X.509 structure and signature
  mathematics are library internals. They are represented by the `JarArchive`/`EntryStream`
  values and the `verifies` oracle.
- The 8192-byte read buffer is not modelled, because its contents are discarded. Only the
  sequence of read results is tracked.
- A failure in closing the archive is not modelled. It happens in the `finally` block of
  `verifyApk`, where it is caught and logged, so it never changes the verdict.
- The `path` parameter of `check` is used only for logging, so it is dropped.
- Unchecked exceptions are not modelled. One example is a `SecurityException` that the JAR
  verifier may raise on a digest mismatch. It is not caught by `verifyApk`, so it escapes `load`
  before the installed list is written.
- `Fix.load` before `Fix.init` is not modelled: a `Fix` object exists only after its constructor
  (`init`) has run. In the source, `load(path, true)` on an existing file then throws a
  `NullPointerException` at `signature.verifyApk`, outside the `try`, and it escapes. `load(path,
  false)` skips the checker. It first dereferences null at `mContext.getClassLoader()`, inside the
  `try`, where the exception is caught and the list stays unchanged.
- `Context.getDir`, `AssetsUtil.copyAssets`, `PackageManager` and `DexClassLoader` construction are
  platform plumbing. They become the constructor's and `Load`'s parameters.
- `ReflectUtil` is not part of this model. `combineArray` is assumed to be concatenation, and no
  de-duplication is claimed.
- Logging has no behavioural effect.
- The application hook (`FixApplication.java`) and the sample widget (`Circle.java`) are outside
  the core.
- Concurrent loads are not modelled. The code has no locking, so loads are treated as sequential
  calls on one object.
