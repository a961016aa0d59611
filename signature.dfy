/**
 * The patch signature checker of the hot-fix library: it learns the host
 * application's own signing identity once, and then decides whether a patch
 * archive carries a certificate that verifies against the host's public key.
 *
 * Certificates (type C) and public keys (type K) are opaque; whether a
 * certificate verifies against a key is the oracle `verifies`, standing for
 * java.security.cert.Certificate.verify. The archive, its `classes.dex` entry
 * and the entry's input stream are described by values that record what the
 * JDK calls would return or throw.
 */
module Signature {
  import opened Wrappers

  /** Subject name, as written, of the certificate the Android build tools use for debug signing. */
  const DEBUG_DN: string := "CN=Android Debug,O=Android,C=US"

  /** Name of the archive entry that carries the patch's code. */
  const DEX_ENTRY: string := "classes.dex"

  /** What the package manager yields for the host application's first signing certificate. */
  datatype HostLookup<K> =
    | HostCertificate(subject: string, publicKey: K)  // parsed as X.509: subject name and key
    | NameNotFound                                   // PackageManager.NameNotFoundException
    | BadCertificate                                 // CertificateException while parsing it

  /**
   * One call of InputStream.read into the non-empty 8192-byte buffer. Such a
   * call returns a positive count (Chunk), -1 at end of stream (EndOfStream),
   * or throws an IOException (ReadError); it never returns 0.
   */
  datatype ReadResult = Chunk | EndOfStream | ReadError

  /**
   * The input stream of an archive entry: whether opening it throws, the
   * results of its successive reads (every read past the end of `results`
   * reports end of stream), and whether closing it throws.
   */
  datatype EntryStream = EntryStream(openFails: bool, results: seq<ReadResult>, closeFails: bool)

  /**
   * An archive entry: its stream, and what JarEntry.getCertificates returns
   * once that stream has been read to its end (None for null).
   */
  datatype JarEntry<C> = JarEntry(stream: EntryStream, certificates: Option<seq<C>>)

  /**
   * A patch file opened as a JarFile: whether the constructor throws an
   * IOException, and the entry named DEX_ENTRY if there is one.
   */
  datatype JarArchive<C> = JarArchive(openFails: bool, dexEntry: Option<JarEntry<C>>)

  /** The stream is read up to end of stream without a read error. */
  predicate ReachesEnd(results: seq<ReadResult>)
  {
    forall k :: 0 <= k < |results| && results[k].ReadError? ==>
      exists e :: 0 <= e < k && results[e].EndOfStream?
  }

  /** Opening, reading to the end and closing the entry's stream all succeed. */
  predicate DigestsLoad(s: EntryStream)
  {
    !s.openFails && ReachesEnd(s.results) && !s.closeFails
  }

  class SignatureChecker<C, K> {
    /** Certificate.verify: does the certificate verify against the key? */
    const verifies: (C, K) -> bool
    /**
     * X500Principal.equals: do the two distinguished names agree once both
     * are brought to canonical form (case, spacing and encoding ignored)?
     */
    const samePrincipal: (string, string) -> bool
    /** The host is signed with the debug certificate: every patch is accepted. */
    var debuggable: bool
    /** The host certificate's public key; None while it could not be read. */
    var publicKey: Option<K>

    /** Verifying `c` against the stored key succeeds; against a missing key it always throws. */
    predicate VerifiesWithKey(c: C)
      reads this
    {
      publicKey.Some? && verifies(c, publicKey.value)
    }

    /** At least one certificate, at any position, verifies against the stored key. */
    predicate AnyVerifies(certs: seq<C>)
      reads this
    {
      exists i :: 0 <= i < |certs| && VerifiesWithKey(certs[i])
    }

    /** The verdict on a patch archive, stated without regard to the order of the steps. */
    ghost predicate Accepts(jar: JarArchive<C>)
      reads this
    {
      || debuggable
      || (&& !jar.openFails
          && jar.dexEntry.Some?
          && DigestsLoad(jar.dexEntry.value.stream)
          && jar.dexEntry.value.certificates.Some?
          && AnyVerifies(jar.dexEntry.value.certificates.value))
    }

    /** Construction runs `Init` on a checker whose fields hold Java's defaults (false, null). */
    constructor (host: HostLookup<K>, verifies: (C, K) -> bool, samePrincipal: (string, string) -> bool)
      ensures this.verifies == verifies && this.samePrincipal == samePrincipal
      ensures debuggable <==> host.HostCertificate? && samePrincipal(host.subject, DEBUG_DN)
      ensures publicKey == if host.HostCertificate? then Some(host.publicKey) else None
      ensures !host.HostCertificate? ==> forall jar :: !Accepts(jar)
    {
      this.verifies := verifies;
      this.samePrincipal := samePrincipal;
      debuggable := false;
      publicKey := None;
      new;
      Init(host);
      if !host.HostCertificate? {
        InitFailureFailsClosed();
      }
    }

    /**
     * Records whether the host certificate is the debug one, and its key.
     * When the lookup throws, both fields keep their previous values.
     */
    method Init(host: HostLookup<K>)
      modifies this
      ensures host.HostCertificate? ==>
        debuggable == samePrincipal(host.subject, DEBUG_DN) && publicKey == Some(host.publicKey)
      ensures !host.HostCertificate? ==>
        debuggable == old(debuggable) && publicKey == old(publicKey)
    {
      match host
      case HostCertificate(subject, key) =>
        debuggable := samePrincipal(subject, DEBUG_DN);
        publicKey := Some(key);
      case NameNotFound =>
      case BadCertificate =>
    }

    /** Without a key and without the debug flag, no archive is accepted. */
    lemma InitFailureFailsClosed()
      requires !debuggable && publicKey.None?
      ensures forall jar :: !Accepts(jar)
    {
    }

    /**
     * Reads the entry's stream until a read returns no bytes, then closes it.
     * Returns false where the Java method throws an IOException.
     */
    method LoadDigests(s: EntryStream) returns (ok: bool)
      ensures ok <==> DigestsLoad(s)
    {
      if s.openFails {
        return false;
      }
      var i := 0;
      while i < |s.results| && s.results[i].Chunk?
        invariant 0 <= i <= |s.results|
        invariant forall k :: 0 <= k < i ==> s.results[k].Chunk?
      {
        i := i + 1;
      }
      var readFailed := i < |s.results| && s.results[i].ReadError?;
      if readFailed {
        assert !ReachesEnd(s.results) by {
          assert forall e :: 0 <= e < i ==> !s.results[e].EndOfStream?;
        }
      } else if i < |s.results| {
        assert s.results[i].EndOfStream?;
        forall k | 0 <= k < |s.results| && s.results[k].ReadError?
          ensures exists e :: 0 <= e < k && s.results[e].EndOfStream?
        {
          assert i < k;
        }
      }
      ok := !readFailed && !s.closeFails;
    }

    /**
     * Tries the certificates from the last one down to the first and accepts
     * on the first that verifies. `tried` lists the indices attempted.
     */
    method Check(certs: seq<C>) returns (accepted: bool, ghost tried: seq<nat>)
      ensures accepted <==> AnyVerifies(certs)
      ensures |tried| <= |certs|
      ensures forall k :: 0 <= k < |tried| ==> tried[k] == |certs| - 1 - k
      ensures forall k :: 0 <= k < |tried| - 1 ==> !VerifiesWithKey(certs[tried[k]])
      ensures accepted ==> 0 < |tried| && VerifiesWithKey(certs[|certs| - |tried|])
      ensures accepted ==> forall j :: |certs| - |tried| < j < |certs| ==> !VerifiesWithKey(certs[j])
      ensures !accepted ==> |tried| == |certs|
    {
      tried := [];
      if |certs| > 0 {
        var i := |certs| - 1;
        while i >= 0
          invariant -1 <= i < |certs|
          invariant |tried| == |certs| - 1 - i
          invariant forall k :: 0 <= k < |tried| ==> tried[k] == |certs| - 1 - k
          invariant forall j :: i < j < |certs| ==> !VerifiesWithKey(certs[j])
        {
          tried := tried + [i];
          if VerifiesWithKey(certs[i]) {
            return true, tried;
          }
          i := i - 1;
        }
      }
      return false, tried;
    }

    /**
     * The decision on a patch archive: debug hosts accept anything; otherwise
     * the archive must open, hold DEX_ENTRY, have that entry read to its end,
     * carry certificates, and one of them must verify. Every IOException
     * turns into a rejection.
     */
    method VerifyApk(jar: JarArchive<C>) returns (ok: bool)
      ensures ok == Accepts(jar)
      ensures debuggable ==> ok
      ensures !debuggable && (jar.openFails || jar.dexEntry.None?) ==> !ok
      ensures !debuggable && jar.dexEntry.Some? && !DigestsLoad(jar.dexEntry.value.stream) ==> !ok
      ensures !debuggable && jar.dexEntry.Some? && jar.dexEntry.value.certificates.None? ==> !ok
      ensures !debuggable && jar.dexEntry.Some? && jar.dexEntry.value.certificates == Some([]) ==> !ok
    {
      if debuggable {
        return true;
      }
      if jar.openFails {
        return false;
      }
      if jar.dexEntry.None? {
        return false;
      }
      var entry := jar.dexEntry.value;
      var read := LoadDigests(entry.stream);
      if !read {
        return false;
      }
      if entry.certificates.None? {
        return false;
      }
      ghost var tried;
      ok, tried := Check(entry.certificates.value);
    }
  }
}
