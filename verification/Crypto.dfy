/**
  Signatures as uninterpreted functions, and the string tests around them.

  Nothing is assumed of base64, UTF-8, SHA-256 or Ed25519 beyond what a lemma asks for.
*/
module Crypto {
  import opened Wrappers

  const KEY_LENGTH: nat := 32
  const SIGNATURE_LENGTH: nat := 64

  datatype Scheme = Scheme(
    decode: string -> Option<Bytes>,
    utf8: string -> Bytes,
    sha256Hex: Bytes -> string,
    validKey: Bytes -> bool,
    verifies: (Bytes, Bytes, Bytes) -> bool,
    continuityMessage: (string, string) -> string)
  {
    /** The key a base64 text stands for, if it stands for one. */
    function KeyIn(text: string): Option<Bytes> {
      var key := decode(text);
      if key.Some? && |key.value| == KEY_LENGTH && validKey(key.value) then key else None
    }

    function SignatureIn(text: string): Option<Bytes> {
      var signature := decode(text);
      if signature.Some? && |signature.value| == SIGNATURE_LENGTH then signature else None
    }

    /** `signature` is valid for `message` under the key written `keyText`. */
    predicate Signs(keyText: string, message: Bytes, signature: Bytes) {
      var key := KeyIn(keyText);
      key.Some? && verifies(key.value, message, signature)
    }
  }

  /** The characters with the Unicode property White_Space. */
  predicate IsSpace(c: char) {
    || '\U{9}' <= c <= '\U{D}' || c == ' ' || c == '\U{85}' || c == '\U{A0}' || c == '\U{1680}'
    || '\U{2000}' <= c <= '\U{200A}' || c == '\U{2028}' || c == '\U{2029}' || c == '\U{202F}'
    || c == '\U{205F}' || c == '\U{3000}'
  }

  function TrimStart(s: string): string {
    if s != "" && IsSpace(s[0]) then TrimStart(s[1..]) else s
  }

  function TrimEnd(s: string): string {
    if s != "" && IsSpace(s[|s| - 1]) then TrimEnd(s[..|s| - 1]) else s
  }

  function Trim(s: string): string {
    TrimEnd(TrimStart(s))
  }

  predicate Blank(s: string) {
    Trim(s) == ""
  }

  ghost predicate AllSpace(s: string) {
    forall i :: 0 <= i < |s| ==> IsSpace(s[i])
  }

  lemma {:induction false} TrimStartMeans(s: string) returns (before: string)
    ensures s == before + TrimStart(s) && AllSpace(before)
    ensures TrimStart(s) != "" ==> !IsSpace(TrimStart(s)[0])
  {
    before := "";
    if s != "" && IsSpace(s[0]) {
      before := TrimStartMeans(s[1..]);
      before := [s[0]] + before;
    }
  }

  lemma {:induction false} TrimEndMeans(s: string) returns (after: string)
    ensures s == TrimEnd(s) + after && AllSpace(after)
    ensures TrimEnd(s) != "" ==> TrimEnd(s)[0] == s[0] && !IsSpace(TrimEnd(s)[|TrimEnd(s)| - 1])
  {
    after := "";
    if s != "" && IsSpace(s[|s| - 1]) {
      after := TrimEndMeans(s[..|s| - 1]);
      after := after + [s[|s| - 1]];
    }
  }

  /** Trimming takes away the white space at both ends and nothing else. */
  lemma TrimMeans(s: string) returns (before: string, after: string)
    ensures s == before + Trim(s) + after && AllSpace(before) && AllSpace(after)
    ensures Trim(s) != "" ==> !IsSpace(Trim(s)[0]) && !IsSpace(Trim(s)[|Trim(s)| - 1])
  {
    before := TrimStartMeans(s);
    after := TrimEndMeans(TrimStart(s));
    assert before + Trim(s) + after == before + (Trim(s) + after);
  }

  /** Blank means made of white space only. */
  lemma BlankMeans(s: string)
    ensures Blank(s) <==> AllSpace(s)
  {
    var before, after := TrimMeans(s);
    if !Blank(s) {
      assert s[|before|] == Trim(s)[0];
    }
  }

  /** Signing with the private half of `key` gives what verifies under `key` (section 5.1 of RFC 8032). */
  ghost predicate GenuineSigner(scheme: Scheme, sign: Bytes -> string, key: string) {
    forall message :: scheme.SignatureIn(sign(message)).Some? &&
                      scheme.Signs(key, message, scheme.SignatureIn(sign(message)).value)
  }

  /** A text is a key or a signature only at the length of one, 32 and 64 bytes. */
  lemma LengthsOfKeysAndSignatures(scheme: Scheme, text: string)
    ensures scheme.KeyIn(text).Some? ==>
              scheme.decode(text) == scheme.KeyIn(text) && |scheme.KeyIn(text).value| == 32
    ensures scheme.SignatureIn(text).Some? <==>
              scheme.decode(text).Some? && |scheme.decode(text).value| == 64
  {
  }
}
