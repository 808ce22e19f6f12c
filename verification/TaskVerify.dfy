/** Verifying a server task against the current and the previous key (src/task_verify.rs). */
module TaskVerify {
  import opened Wrappers
  import opened Crypto

  datatype TaskError =
    | KeyNotConfigured
    | MissingSignature
    | SignatureEncoding
    | SignatureLength
    | KeyEncoding
    | KeyLength
    | InvalidKey
    | InvalidSignature

  /** A task as far as verification sees it. */
  datatype Task = Task(canonical: string, signature: string)

  method VerifyWithKey(scheme: Scheme, key: string, canonical: string, signature: Bytes)
    returns (r: Result<(), TaskError>)
    ensures r.Ok? <==> scheme.Signs(key, scheme.utf8(canonical), signature)
  {
    var bytes := scheme.decode(key);
    if bytes.None? {
      return Err(KeyEncoding);
    }
    if |bytes.value| != KEY_LENGTH {
      return Err(KeyLength);
    }
    if !scheme.validKey(bytes.value) {
      return Err(InvalidKey);
    }
    if !scheme.verifies(bytes.value, scheme.utf8(canonical), signature) {
      return Err(InvalidSignature);
    }
    return Ok(());
  }

  /** Some key that is not blank verifies the task, wherever it stands among `keys`. */
  ghost predicate Accepted(scheme: Scheme, keys: seq<string>, task: Task) {
    && !Blank(task.signature)
    && scheme.SignatureIn(task.signature).Some?
    && exists k :: k in keys && !Blank(k) &&
         scheme.Signs(k, scheme.utf8(task.canonical), scheme.SignatureIn(task.signature).value)
  }

  method VerifyServerTaskSigAny(scheme: Scheme, candidates: seq<string>, task: Task)
    returns (r: Result<(), TaskError>)
    ensures r.Ok? <==> Accepted(scheme, candidates, task)
    ensures (forall k :: k in candidates ==> Blank(k)) ==> r == Err(KeyNotConfigured)
    ensures (exists k :: k in candidates && !Blank(k)) && Blank(task.signature) ==> r == Err(MissingSignature)
  {
    var keys := [];
    for i := 0 to |candidates|
      invariant forall k :: k in keys <==> k in candidates[..i] && !Blank(k)
    {
      assert candidates[..i + 1] == candidates[..i] + [candidates[i]];
      if !Blank(candidates[i]) {
        keys := keys + [candidates[i]];
      }
    }
    assert candidates[..|candidates|] == candidates;
    if keys == [] {
      return Err(KeyNotConfigured);
    }
    assert keys[0] in keys;
    if Blank(task.signature) {
      return Err(MissingSignature);
    }
    var signature := scheme.decode(task.signature);
    if signature.None? {
      return Err(SignatureEncoding);
    }
    if |signature.value| != SIGNATURE_LENGTH {
      return Err(SignatureLength);
    }
    var lastError := InvalidSignature;
    for i := 0 to |keys|
      invariant forall j :: 0 <= j < i ==> !scheme.Signs(keys[j], scheme.utf8(task.canonical), signature.value)
    {
      var one := VerifyWithKey(scheme, keys[i], task.canonical, signature.value);
      if one.Ok? {
        assert keys[i] in keys;
        return Ok(());
      }
      lastError := one.error;
    }
    return Err(lastError);
  }

  /** A genuine signature is accepted wherever its key stands, whatever the other keys are. */
  lemma GenuineTaskIsAccepted(scheme: Scheme, sign: Bytes -> string, keys: seq<string>, i: nat, canonical: string)
    requires i < |keys| && !Blank(keys[i]) && GenuineSigner(scheme, sign, keys[i])
    requires !Blank(sign(scheme.utf8(canonical)))
    ensures Accepted(scheme, keys, Task(canonical, sign(scheme.utf8(canonical))))
  {
    assert keys[i] in keys;
  }

  /** Without a key that verifies the task, nothing accepts it. */
  lemma ForgedTaskIsRefused(scheme: Scheme, keys: seq<string>, task: Task)
    requires forall k, signature ::
               k in keys && scheme.decode(task.signature) == Some(signature) ==>
                 Blank(k) || !scheme.Signs(k, scheme.utf8(task.canonical), signature)
    ensures !Accepted(scheme, keys, task)
  {
  }
}
