/** Signing a release (src/bin/sign-release.rs) and verifying it (src/updater.rs). */
module Release {
  import opened Wrappers
  import opened Crypto

  datatype Artifact = Artifact(
    kind: string,
    targetVersion: string,
    expectedSha256: string,
    signature: string,
    releaseKey: string,
    releaseKeyPrevious: Option<string>)

  datatype Manifest = Manifest(version: string, sha256: string, signature: string)

  datatype ReleaseError = HashMismatch | ReleaseKeyMissing | BadSignature | UnknownKind

  const KINDS: set<string> := {"self_update", "desktop_update", "proxmox_update"}

  function ToLower(s: string): string {
    seq(|s|, i requires 0 <= i < |s| => if 'A' <= s[i] <= 'Z' then s[i] - 'A' + 'a' else s[i])
  }

  ghost predicate IsCapital(c: char) {
    'A' <= c <= 'Z'
  }

  /** The same character, or the two cases of one ASCII letter. */
  ghost predicate SameLetter(c: char, d: char) {
    || c == d
    || (IsCapital(c) && d as int == c as int + 32)
    || (IsCapital(d) && c as int == d as int + 32)
  }

  /** Lowering removes the capitals and tells no two texts apart that differ in case only. */
  lemma LowerMeans(s: string, t: string)
    ensures forall i :: 0 <= i < |ToLower(s)| ==> !IsCapital(ToLower(s)[i])
    ensures ToLower(s) == ToLower(t) <==>
            |s| == |t| && forall i :: 0 <= i < |s| ==> SameLetter(s[i], t[i])
    ensures (forall i :: 0 <= i < |s| ==> !IsCapital(s[i])) ==> ToLower(s) == s
  {
    if |s| == |t| && forall i :: 0 <= i < |s| ==> SameLetter(s[i], t[i]) {
      assert forall i :: 0 <= i < |s| ==> ToLower(s)[i] == ToLower(t)[i];
    }
    if ToLower(s) == ToLower(t) {
      forall i | 0 <= i < |s| ensures SameLetter(s[i], t[i]) {
        assert ToLower(s)[i] == ToLower(t)[i];
      }
    }
  }

  /** The message a release signature covers. */
  function Canonical(kind: string, version: string, expected: string, actual: string): string {
    "v1\n" + kind + "\n" + version + "\n" + expected + "\n" + actual
  }

  /** The lines of a text, put together again. */
  function JoinLines(lines: seq<string>): string {
    if lines == [] then ""
    else if |lines| == 1 then lines[0]
    else lines[0] + "\n" + JoinLines(lines[1..])
  }

  /** Five lines: format, kind, version, the expected hash and the hash found. */
  lemma CanonicalLines(kind: string, version: string, expected: string, actual: string)
    ensures Canonical(kind, version, expected, actual) == JoinLines(["v1", kind, version, expected, actual])
  {
    var last := JoinLines([actual]);
    var four := expected + "\n" + last;
    assert JoinLines([expected, actual]) == four;
    var three := version + "\n" + four;
    assert [version, expected, actual][1..] == [expected, actual];
    assert JoinLines([version, expected, actual]) == three;
    var two := kind + "\n" + three;
    assert [kind, version, expected, actual][1..] == [version, expected, actual];
    assert JoinLines([kind, version, expected, actual]) == two;
    assert ["v1", kind, version, expected, actual][1..] == [kind, version, expected, actual];
    assert JoinLines(["v1", kind, version, expected, actual]) == "v1" + "\n" + two;
    assert Canonical(kind, version, expected, actual) == "v1" + "\n" + two;
  }

  method SignRelease(scheme: Scheme, sign: Bytes -> string, kindArgument: string, version: string, binary: Bytes)
    returns (r: Result<Manifest, ReleaseError>)
    ensures r.Ok? <==> Trim(kindArgument) in KINDS
    ensures r.Ok? ==>
              r.value == SignedManifest(scheme, sign, Trim(kindArgument), version, binary)
    ensures r.Ok? ==>
              var hash := scheme.sha256Hex(binary);
              var lines := ["v1", Trim(kindArgument), version, hash, hash];
              r.value == Manifest(version, hash, sign(scheme.utf8(JoinLines(lines))))
    ensures r.Ok? <==>
              || Trim(kindArgument) == "self_update"
              || Trim(kindArgument) == "desktop_update"
              || Trim(kindArgument) == "proxmox_update"
  {
    var kind := Trim(kindArgument);
    if kind != "self_update" && kind != "desktop_update" && kind != "proxmox_update" {
      return Err(UnknownKind);
    }
    var sha256 := scheme.sha256Hex(binary);
    var canonical := Canonical(kind, version, sha256, sha256);
    CanonicalLines(kind, version, sha256, sha256);
    var signature := sign(scheme.utf8(canonical));
    return Ok(Manifest(version, sha256, signature));
  }

  function SignedManifest(scheme: Scheme, sign: Bytes -> string, kind: string, version: string, binary: Bytes)
    : Manifest
  {
    var sha256 := scheme.sha256Hex(binary);
    Manifest(version, sha256, sign(scheme.utf8(Canonical(kind, version, sha256, sha256))))
  }

  /** The keys tried, current first, without blanks or a repetition. */
  function VerifyKeys(a: Artifact): seq<string> {
    var current := if Blank(a.releaseKey) then [] else [a.releaseKey];
    if a.releaseKeyPrevious.Some? && !Blank(a.releaseKeyPrevious.value) && a.releaseKeyPrevious.value !in current
    then current + [a.releaseKeyPrevious.value] else current
  }

  method ReleaseVerifyKeys(a: Artifact) returns (keys: seq<string>)
    ensures keys == VerifyKeys(a)
    ensures forall k :: k in keys <==> !Blank(k) && (k == a.releaseKey || a.releaseKeyPrevious == Some(k))
    ensures forall i, j :: 0 <= i < j < |keys| ==> keys[i] != keys[j]
    ensures !Blank(a.releaseKey) ==> keys != [] && keys[0] == a.releaseKey
  {
    keys := [];
    if !Blank(a.releaseKey) {
      keys := keys + [a.releaseKey];
    }
    if a.releaseKeyPrevious.Some? {
      var previous := a.releaseKeyPrevious.value;
      if !Blank(previous) && previous !in keys {
        keys := keys + [previous];
      }
    }
  }

  /** A detached signature over the raw bytes; a key that is not base64 ends the search. */
  ghost predicate ContentSigned(scheme: Scheme, keys: seq<string>, content: Bytes, signature: string) {
    && scheme.SignatureIn(Trim(signature)).Some?
    && exists i ::
         && 0 <= i < |keys|
         && scheme.Signs(Trim(keys[i]), content, scheme.SignatureIn(Trim(signature)).value)
         && forall j :: 0 <= j < i ==> scheme.decode(Trim(keys[j])).Some?
  }

  method VerifyContentSignature(scheme: Scheme, keys: seq<string>, content: Bytes, signature: string) returns (ok: bool)
    ensures ok <==> ContentSigned(scheme, keys, content, signature)
  {
    var decoded := scheme.decode(Trim(signature));
    if decoded.None? || |decoded.value| != SIGNATURE_LENGTH {
      return false;
    }
    for i := 0 to |keys|
      invariant forall j :: 0 <= j < i ==>
                  scheme.decode(Trim(keys[j])).Some? && !scheme.Signs(Trim(keys[j]), content, decoded.value)
    {
      var key := scheme.decode(Trim(keys[i]));
      if key.None? {
        return false;
      }
      if |key.value| == KEY_LENGTH && scheme.validKey(key.value) && scheme.verifies(key.value, content, decoded.value) {
        return true;
      }
    }
    return false;
  }

  /** A signature over the canonical message by any of the keys. */
  ghost predicate CanonicalSigned(scheme: Scheme, keys: seq<string>, canonical: string, signature: string) {
    && scheme.SignatureIn(signature).Some?
    && exists k :: k in keys && scheme.Signs(k, scheme.utf8(canonical), scheme.SignatureIn(signature).value)
  }

  ghost predicate Accepts(scheme: Scheme, bytes: Bytes, a: Artifact) {
    var actual := scheme.sha256Hex(bytes);
    && actual == ToLower(a.expectedSha256)
    && (|| ContentSigned(scheme, VerifyKeys(a), bytes, a.signature)
        || CanonicalSigned(scheme, VerifyKeys(a),
                           Canonical(a.kind, a.targetVersion, a.expectedSha256, actual), a.signature))
  }

  method VerifyBytes(scheme: Scheme, bytes: Bytes, a: Artifact) returns (r: Result<(), ReleaseError>)
    ensures r.Ok? <==> Accepts(scheme, bytes, a)
    ensures r == Err(HashMismatch) <==> scheme.sha256Hex(bytes) != ToLower(a.expectedSha256)
    ensures r == Err(ReleaseKeyMissing) <==>
              scheme.sha256Hex(bytes) == ToLower(a.expectedSha256) && VerifyKeys(a) == []
    ensures r == Err(BadSignature) <==>
              && scheme.sha256Hex(bytes) == ToLower(a.expectedSha256) && VerifyKeys(a) != []
              && !Accepts(scheme, bytes, a)
  {
    var actual := scheme.sha256Hex(bytes);
    if actual != ToLower(a.expectedSha256) {
      return Err(HashMismatch);
    }
    var keys := ReleaseVerifyKeys(a);
    if keys == [] {
      return Err(ReleaseKeyMissing);
    }
    var contentOk := VerifyContentSignature(scheme, keys, bytes, a.signature);
    if contentOk {
      return Ok(());
    }
    var canonical := Canonical(a.kind, a.targetVersion, a.expectedSha256, actual);
    var signature := scheme.SignatureIn(a.signature);
    var ok := false;
    var i := 0;
    while i < |keys| && !ok
      invariant 0 <= i <= |keys|
      invariant ok <==>
                  && signature.Some?
                  && exists j :: 0 <= j < i && scheme.Signs(keys[j], scheme.utf8(canonical), signature.value)
    {
      ok := signature.Some? && scheme.Signs(keys[i], scheme.utf8(canonical), signature.value);
      i := i + 1;
    }
    if !ok {
      return Err(BadSignature);
    }
    return Ok(());
  }

  /** Digests are printed in lower case. */
  ghost predicate LowerCaseDigest(scheme: Scheme, bytes: Bytes) {
    ToLower(scheme.sha256Hex(bytes)) == scheme.sha256Hex(bytes)
  }

  /** The artifact a server advertises for a signed manifest. */
  function Advertise(kind: string, m: Manifest, key: string, previous: Option<string>): Artifact {
    Artifact(kind, m.version, m.sha256, m.signature, key, previous)
  }

  /** What sign-release signs, verify_bytes accepts, with the signing key current or previous. */
  lemma SignedReleaseIsAccepted(scheme: Scheme, sign: Bytes -> string, signer: string, kind: string, version: string,
                                binary: Bytes, key: string, previous: Option<string>)
    requires GenuineSigner(scheme, sign, signer) && LowerCaseDigest(scheme, binary) && !Blank(signer)
    requires signer == key || previous == Some(signer)
    ensures Accepts(scheme, binary, Advertise(kind, SignedManifest(scheme, sign, kind, version, binary), key, previous))
  {
    var m := SignedManifest(scheme, sign, kind, version, binary);
    var a := Advertise(kind, m, key, previous);
    assert signer in VerifyKeys(a);
    assert scheme.SignatureIn(a.signature).Some?;
  }

  /**
    A detached signature over the file itself is accepted too, with the signing key current
    or previous, white space around key and signature, and the hash in either case; a first
    key of the wrong length does not matter.
  */
  lemma SignedContentIsAccepted(scheme: Scheme, sign: Bytes -> string, binary: Bytes, a: Artifact)
    requires |scheme.sha256Hex(binary)| == |a.expectedSha256|
    requires forall i :: 0 <= i < |a.expectedSha256| ==> SameLetter(scheme.sha256Hex(binary)[i], a.expectedSha256[i])
    requires LowerCaseDigest(scheme, binary)
    requires Trim(a.signature) == sign(binary)
    requires
      || (!Blank(a.releaseKey) && GenuineSigner(scheme, sign, Trim(a.releaseKey)))
      || (&& a.releaseKeyPrevious.Some? && !Blank(a.releaseKeyPrevious.value)
          && GenuineSigner(scheme, sign, Trim(a.releaseKeyPrevious.value))
          && (Blank(a.releaseKey) || scheme.decode(Trim(a.releaseKey)).Some?))
    ensures Accepts(scheme, binary, a)
  {
    LowerMeans(scheme.sha256Hex(binary), a.expectedSha256);
    var keys := VerifyKeys(a);
    if !Blank(a.releaseKey) && GenuineSigner(scheme, sign, Trim(a.releaseKey)) {
      assert keys[0] == a.releaseKey;
    } else {
      var previous := a.releaseKeyPrevious.value;
      assert keys[|keys| - 1] == previous && forall j :: 0 <= j < |keys| - 1 ==> keys[j] == a.releaseKey;
      assert scheme.Signs(Trim(keys[|keys| - 1]), binary, scheme.SignatureIn(Trim(a.signature)).value);
    }
  }

  /** The canonical message determines kind, version and hash, even if the version holds newlines. */
  lemma CanonicalIsInjective(k1: string, v1: string, h1: string, k2: string, v2: string, h2: string)
    requires '\n' !in k1 && '\n' !in k2
    requires |h1| == |h2|
    requires Canonical(k1, v1, h1, h1) == Canonical(k2, v2, h2, h2)
    ensures k1 == k2 && v1 == v2 && h1 == h2
  {
    var m := Canonical(k1, v1, h1, h1);
    var rest1 := "\n" + v1 + "\n" + h1 + "\n" + h1;
    var rest2 := "\n" + v2 + "\n" + h2 + "\n" + h2;
    assert m == "v1\n" + (k1 + rest1) == "v1\n" + (k2 + rest2);
    assert m[3..] == k1 + rest1 == k2 + rest2;
    FirstNewline(k1, rest1, k2, rest2);
    assert rest1 == "\n" + v1 + ("\n" + h1 + "\n" + h1);
    assert rest2 == "\n" + v2 + ("\n" + h2 + "\n" + h2);
    assert |v1| == |v2|;
    assert rest1[1..|v1| + 1] == v1 && rest2[1..|v1| + 1] == v2;
    assert rest1[|rest1| - |h1|..] == h1 && rest2[|rest1| - |h1|..] == h2;
  }

  /** How many characters precede the first newline. */
  function Lead(m: string): nat {
    if m == "" || m[0] == '\n' then 0 else 1 + Lead(m[1..])
  }

  lemma {:induction false} LeadOf(a: string, s: string)
    requires '\n' !in a && s != "" && s[0] == '\n'
    ensures Lead(a + s) == |a|
  {
    if a == "" {
      assert a + s == s;
    } else {
      assert (a + s)[1..] == a[1..] + s;
      LeadOf(a[1..], s);
    }
  }

  lemma FirstNewline(a: string, s: string, b: string, t: string)
    requires '\n' !in a && '\n' !in b
    requires s != "" && t != "" && s[0] == '\n' && t[0] == '\n'
    requires a + s == b + t
    ensures a == b && s == t
  {
    LeadOf(a, s);
    LeadOf(b, t);
    assert (a + s)[..|a|] == a && (b + t)[..|a|] == b;
    assert (a + s)[|a|..] == s && (b + t)[|a|..] == t;
  }

  ghost predicate Fits(scheme: Scheme, key: string, signature: string, message: Bytes) {
    scheme.SignatureIn(signature).Some? && scheme.Signs(key, message, scheme.SignatureIn(signature).value)
  }

  /** Under the keys it is checked with, `signature` is valid for `message` only. */
  ghost predicate SignsOnly(scheme: Scheme, keys: seq<string>, signature: string, message: Bytes) {
    forall key, other ::
      key in keys && (Fits(scheme, key, signature, other) || Fits(scheme, Trim(key), Trim(signature), other)) ==>
        other == message
  }

  /**
    A manifest signature that, under the artifact's keys, fits no other message installs nothing but that release: the
    accepted kind, version and hash are the signed ones, letter case included. The one other
    file the content check lets through is the canonical message itself.
  */
  lemma SignatureBindsRelease(scheme: Scheme, sign: Bytes -> string, kind: string, version: string, binary: Bytes,
                              offered: Bytes, a: Artifact)
    requires forall s, t :: scheme.utf8(s) == scheme.utf8(t) ==> s == t
    requires forall b :: |scheme.sha256Hex(b)| == 64
    requires '\n' !in kind && '\n' !in a.kind
    requires var m := SignedManifest(scheme, sign, kind, version, binary);
             a.signature == m.signature &&
             SignsOnly(scheme, VerifyKeys(a), m.signature,
                       scheme.utf8(Canonical(kind, version, m.sha256, m.sha256)))
    requires Accepts(scheme, offered, a)
    ensures var sha := scheme.sha256Hex(binary);
            || (a.kind == kind && a.targetVersion == version && a.expectedSha256 == sha == scheme.sha256Hex(offered))
            || offered == scheme.utf8(Canonical(kind, version, sha, sha))
  {
    var sha := scheme.sha256Hex(binary);
    var actual := scheme.sha256Hex(offered);
    if ContentSigned(scheme, VerifyKeys(a), offered, a.signature) {
      var i :| 0 <= i < |VerifyKeys(a)| &&
               scheme.Signs(Trim(VerifyKeys(a)[i]), offered, scheme.SignatureIn(Trim(a.signature)).value);
      assert Fits(scheme, Trim(VerifyKeys(a)[i]), Trim(a.signature), offered);
    } else {
      var wanted := Canonical(a.kind, a.targetVersion, a.expectedSha256, actual);
      var key :| key in VerifyKeys(a) &&
                 scheme.Signs(key, scheme.utf8(wanted), scheme.SignatureIn(a.signature).value);
      assert Fits(scheme, key, a.signature, scheme.utf8(wanted));
      assert |ToLower(a.expectedSha256)| == |a.expectedSha256| == 64;
      assert wanted == Canonical(kind, version, sha, sha);
      LastLineOf(a.kind, a.targetVersion, a.expectedSha256, actual, kind, version, sha);
      CanonicalIsInjective(a.kind, a.targetVersion, actual, kind, version, sha);
    }
  }

  /** The two digests at the end of equal messages are equal to the signed one. */
  lemma LastLineOf(k1: string, v1: string, expected: string, actual: string, k2: string, v2: string, h: string)
    requires |expected| == |actual| == |h|
    requires Canonical(k1, v1, expected, actual) == Canonical(k2, v2, h, h)
    ensures expected == actual == h
  {
    var m := Canonical(k1, v1, expected, actual);
    var n := |h|;
    assert m[|m| - n..] == actual && m[|m| - n..] == h;
    assert m[|m| - 2 * n - 1..|m| - n - 1] == expected && m[|m| - 2 * n - 1..|m| - n - 1] == h;
  }

  /**
    The content check depends on the order of the keys: a first key that is not base64 hides
    a second key that verifies, while the other way round the content is accepted.
  */
  lemma MalformedKeyHidesLaterKeys(scheme: Scheme, malformed: string, good: string, content: Bytes, signature: string)
    requires scheme.decode(Trim(malformed)).None?
    requires ContentSigned(scheme, [good], content, signature)
    ensures ContentSigned(scheme, [good, malformed], content, signature)
    ensures !ContentSigned(scheme, [malformed, good], content, signature)
  {
    assert scheme.Signs(Trim([good, malformed][0]), content, scheme.SignatureIn(Trim(signature)).value);
    assert [malformed, good][0] == malformed;
  }
}
