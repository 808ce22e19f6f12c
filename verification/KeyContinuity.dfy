/** Attested succession of public keys (src/key_material.rs). */
module KeyContinuity {
  import opened Wrappers
  import opened Crypto

  datatype Attestation = Attestation(previous: string, successor: string, signature: string)

  /** `previous` signed the statement that `successor` follows it. */
  predicate Continues(scheme: Scheme, previous: string, successor: string, signature: string) {
    && scheme.SignatureIn(Trim(signature)).Some?
    && scheme.Signs(Trim(previous), scheme.utf8(scheme.continuityMessage(previous, successor)),
                    scheme.SignatureIn(Trim(signature)).value)
  }

  predicate Verified(scheme: Scheme, a: Attestation) {
    Continues(scheme, a.previous, a.successor, a.signature)
  }

  ghost predicate Link(scheme: Scheme, a: string, b: string) {
    exists signature :: Continues(scheme, a, b, signature)
  }

  /** The holder of a key attests its successor by signing the message about the two, in that order. */
  lemma HolderAttestsSuccessor(scheme: Scheme, sign: Bytes -> string, previous: string, successor: string,
                               written: string)
    requires GenuineSigner(scheme, sign, Trim(previous))
    requires Trim(written) == sign(scheme.utf8(scheme.continuityMessage(previous, successor)))
    ensures Verified(scheme, Attestation(previous, successor, written))
  {
  }

  /** A path of verified links from `p[0]` to its last key. */
  ghost predicate Path(scheme: Scheme, p: seq<string>) {
    p != [] && forall i :: 0 <= i < |p| - 1 ==> Link(scheme, p[i], p[i + 1])
  }

  ghost predicate Descends(scheme: Scheme, ancestor: string, key: string) {
    exists p :: Path(scheme, p) && p[0] == ancestor && p[|p| - 1] == key
  }

  lemma DescendsFromItself(scheme: Scheme, key: string)
    ensures Descends(scheme, key, key)
  {
    assert Path(scheme, [key]) && [key][0] == key;
  }

  lemma DescendsTransitively(scheme: Scheme, a: string, b: string, c: string)
    requires Descends(scheme, a, b) && Descends(scheme, b, c)
    ensures Descends(scheme, a, c)
  {
    var p :| Path(scheme, p) && p[0] == a && p[|p| - 1] == b;
    var q :| Path(scheme, q) && q[0] == b && q[|q| - 1] == c;
    var joined := p + q[1..];
    forall i | 0 <= i < |joined| - 1 ensures Link(scheme, joined[i], joined[i + 1]) {
      if i >= |p| - 1 {
        assert joined[i] == q[i - (|p| - 1)] && joined[i + 1] == q[i + 1 - (|p| - 1)];
      }
    }
    assert Path(scheme, joined) && joined[0] == a && joined[|joined| - 1] == c;
  }

  /** Whether the walk along `chain` from `cursor` arrives at `target`. */
  function Walk(scheme: Scheme, cursor: string, target: string, chain: seq<Attestation>): bool
    decreases |chain|
  {
    if chain == [] then cursor == target
    else if chain[0].previous != cursor then Walk(scheme, cursor, target, chain[1..])
    else if !Verified(scheme, chain[0]) then false
    else if chain[0].successor == target then true
    else Walk(scheme, chain[0].successor, target, chain[1..])
  }

  method WalkContinuityChain(scheme: Scheme, start: string, target: string, chain: seq<Attestation>)
    returns (arrived: bool)
    ensures arrived == Walk(scheme, start, target, chain)
  {
    var cursor := start;
    for i := 0 to |chain|
      invariant Walk(scheme, start, target, chain) == Walk(scheme, cursor, target, chain[i..])
    {
      assert chain[i..][0] == chain[i] && chain[i..][1..] == chain[i + 1..];
      if chain[i].previous == cursor {
        if !Verified(scheme, chain[i]) {
          return false;
        }
        cursor := chain[i].successor;
        if cursor == target {
          return true;
        }
      }
    }
    return cursor == target;
  }

  /** The attestations at positions `picked` lead from `start` to `target`, in chain order. */
  ghost predicate Leads(scheme: Scheme, start: string, target: string, chain: seq<Attestation>, picked: seq<nat>) {
    && picked != []
    && (forall i :: 0 <= i < |picked| ==> picked[i] < |chain| && Verified(scheme, chain[picked[i]]))
    && (forall i, j :: 0 <= i < j < |picked| ==> picked[i] < picked[j])
    && chain[picked[0]].previous == start
    && (forall i :: 0 <= i < |picked| - 1 ==> chain[picked[i]].successor == chain[picked[i + 1]].previous)
    && chain[picked[|picked| - 1]].successor == target
  }

  /** A successful walk to another key followed a verified in-order subsequence of the chain. */
  lemma WalkFollowsLinks(scheme: Scheme, start: string, target: string, chain: seq<Attestation>)
    returns (picked: seq<nat>)
    requires Walk(scheme, start, target, chain) && start != target
    ensures Leads(scheme, start, target, chain, picked)
  {
    assert chain[0..] == chain;
    picked := WalkFollowsLinksFrom(scheme, start, target, chain, 0);
  }

  lemma {:induction false} WalkFollowsLinksFrom(scheme: Scheme, start: string, target: string,
                                                chain: seq<Attestation>, from: nat)
    returns (picked: seq<nat>)
    requires from <= |chain| && Walk(scheme, start, target, chain[from..]) && start != target
    ensures Leads(scheme, start, target, chain, picked) && picked[0] >= from
    decreases |chain| - from
  {
    var a := chain[from];
    assert chain[from..][1..] == chain[from + 1..];
    if a.previous != start {
      picked := WalkFollowsLinksFrom(scheme, start, target, chain, from + 1);
    } else if a.successor == target {
      picked := [from];
    } else {
      picked := WalkFollowsLinksFrom(scheme, a.successor, target, chain, from + 1);
      picked := Prepended(scheme, a.successor, target, chain, from, picked);
    }
  }

  lemma Prepended(scheme: Scheme, start: string, target: string, chain: seq<Attestation>, first: nat, rest: seq<nat>)
    returns (picked: seq<nat>)
    requires first < |chain| && Leads(scheme, start, target, chain, rest) && rest[0] > first
    requires Verified(scheme, chain[first]) && chain[first].successor == start
    ensures Leads(scheme, chain[first].previous, target, chain, picked) && picked[0] == first
  {
    picked := [first] + rest;
    forall i | 0 <= i < |picked| - 1
      ensures chain[picked[i]].successor == chain[picked[i + 1]].previous
    {
      if i > 0 {
        assert picked[i] == rest[i - 1] && picked[i + 1] == rest[(i - 1) + 1];
      }
    }
  }

  lemma TailLeads(scheme: Scheme, start: string, target: string, chain: seq<Attestation>, picked: seq<nat>)
    requires Leads(scheme, start, target, chain, picked) && |picked| > 1
    ensures Leads(scheme, chain[picked[0]].successor, target, chain, picked[1..])
  {
    var rest := picked[1..];
    assert rest[0] == picked[0 + 1];
    forall i | 0 <= i < |rest| - 1 ensures chain[rest[i]].successor == chain[rest[i + 1]].previous {
      assert rest[i] == picked[i + 1] && rest[i + 1] == picked[(i + 1) + 1];
    }
  }

  lemma {:induction false} LeadsGivesDescent(scheme: Scheme, start: string, target: string,
                                             chain: seq<Attestation>, picked: seq<nat>)
    requires Leads(scheme, start, target, chain, picked)
    ensures Descends(scheme, start, target)
    decreases |picked|
  {
    var a := chain[picked[0]];
    OneLinkDescends(scheme, a);
    if |picked| > 1 {
      TailLeads(scheme, start, target, chain, picked);
      LeadsGivesDescent(scheme, a.successor, target, chain, picked[1..]);
      DescendsTransitively(scheme, start, a.successor, target);
    }
  }

  lemma OneLinkDescends(scheme: Scheme, a: Attestation)
    requires Verified(scheme, a)
    ensures Descends(scheme, a.previous, a.successor)
  {
    var p := [a.previous, a.successor];
    assert Link(scheme, p[0], p[1]);
    assert Path(scheme, p) && p[0] == a.previous && p[|p| - 1] == a.successor;
  }

  /** A key is reached from itself when the chain does not lead away from it. */
  lemma {:induction false} WalkToItself(scheme: Scheme, key: string, chain: seq<Attestation>)
    requires forall i :: 0 <= i < |chain| ==> chain[i].previous != key
    ensures Walk(scheme, key, key, chain)
    decreases |chain|
  {
    if chain != [] {
      WalkToItself(scheme, key, chain[1..]);
    }
  }

  // ---- honest chains ------------------------------------------------------------------

  ghost predicate Distinct(keys: seq<string>) {
    forall i, j :: 0 <= i < j < |keys| ==> keys[i] != keys[j]
  }

  /** Consecutive verified links over `keys`. */
  ghost predicate ChainOver(scheme: Scheme, keys: seq<string>, chain: seq<Attestation>) {
    && |keys| == |chain| + 1
    && forall i :: 0 <= i < |chain| ==>
         Verified(scheme, chain[i]) && chain[i].previous == keys[i] && chain[i].successor == keys[i + 1]
  }

  lemma TailIsChain(scheme: Scheme, keys: seq<string>, chain: seq<Attestation>)
    requires Distinct(keys) && ChainOver(scheme, keys, chain) && chain != []
    ensures Distinct(keys[1..]) && ChainOver(scheme, keys[1..], chain[1..])
    ensures forall i :: 0 < i < |keys| ==> keys[1..][i - 1] == keys[i]
    ensures keys[0] !in keys[1..]
  {
  }

  /** The walk from a key of the tail ignores the first attestation. */
  lemma WalkSkipsFirst(scheme: Scheme, keys: seq<string>, chain: seq<Attestation>, i: nat, target: string)
    requires Distinct(keys) && ChainOver(scheme, keys, chain) && 0 < i < |keys|
    ensures Walk(scheme, keys[i], target, chain) == Walk(scheme, keys[1..][i - 1], target, chain[1..])
  {
    assert chain[0].previous == keys[0] != keys[i];
  }

  /** The walk from the first key stops at the second or goes on from it. */
  lemma WalkTakesFirst(scheme: Scheme, keys: seq<string>, chain: seq<Attestation>, target: string)
    requires ChainOver(scheme, keys, chain) && chain != []
    ensures Walk(scheme, keys[0], target, chain) <==>
            keys[1] == target || Walk(scheme, keys[1..][0], target, chain[1..])
  {
  }

  lemma {:induction false} WalkGoesForward(scheme: Scheme, keys: seq<string>, chain: seq<Attestation>,
                                           i: nat, target: string)
    requires Distinct(keys) && ChainOver(scheme, keys, chain)
    requires i < |keys| && target in keys[i + 1..]
    ensures Walk(scheme, keys[i], target, chain)
    decreases |chain|
  {
    TailIsChain(scheme, keys, chain);
    if i > 0 {
      assert keys[1..][i..] == keys[i + 1..];
      WalkSkipsFirst(scheme, keys, chain, i, target);
      WalkGoesForward(scheme, keys[1..], chain[1..], i - 1, target);
    } else {
      WalkTakesFirst(scheme, keys, chain, target);
      if keys[1] != target {
        assert keys[1..] == [keys[1]] + keys[1..][1..];
        WalkGoesForward(scheme, keys[1..], chain[1..], 0, target);
      }
    }
  }

  lemma {:induction false} WalkNeverGoesBack(scheme: Scheme, keys: seq<string>, chain: seq<Attestation>,
                                             i: nat, target: string)
    requires Distinct(keys) && ChainOver(scheme, keys, chain)
    requires i < |keys| && target !in keys[i..]
    ensures !Walk(scheme, keys[i], target, chain)
    decreases |chain|
  {
    if chain == [] {
      assert keys[i] in keys[i..];
    } else {
      TailIsChain(scheme, keys, chain);
      if i > 0 {
        assert keys[1..][i - 1..] == keys[i..];
        WalkSkipsFirst(scheme, keys, chain, i, target);
        WalkNeverGoesBack(scheme, keys[1..], chain[1..], i - 1, target);
      } else {
        assert keys[0..] == keys && keys[1] in keys[0..];
        assert target !in keys[1..][0..];
        WalkTakesFirst(scheme, keys, chain, target);
        WalkNeverGoesBack(scheme, keys[1..], chain[1..], 0, target);
      }
    }
  }

  /** Along an honest chain the walk goes forward to every later key and never back. */
  lemma WalkGoesForwardOnly(scheme: Scheme, keys: seq<string>, chain: seq<Attestation>, i: nat, j: nat)
    requires Distinct(keys) && ChainOver(scheme, keys, chain)
    requires i < |keys| && j < |keys| && i != j
    ensures Walk(scheme, keys[i], keys[j], chain) <==> i < j
  {
    if i < j {
      assert keys[i + 1..][j - (i + 1)] == keys[j];
      WalkGoesForward(scheme, keys, chain, i, keys[j]);
    } else {
      WalkNeverGoesBack(scheme, keys, chain, i, keys[j]);
    }
  }

  /** The keys at which the walk stands. */
  function Cursors(scheme: Scheme, cursor: string, target: string, chain: seq<Attestation>): set<string>
    decreases |chain|
  {
    {cursor} +
    if chain == [] then {}
    else if chain[0].previous != cursor then Cursors(scheme, cursor, target, chain[1..])
    else if !Verified(scheme, chain[0]) || chain[0].successor == target then {}
    else Cursors(scheme, chain[0].successor, target, chain[1..])
  }

  /** The chain without the attestations of keys outside `issuers`. */
  function IssuedBy(chain: seq<Attestation>, issuers: set<string>): seq<Attestation> {
    if chain == [] then []
    else (if chain[0].previous in issuers then [chain[0]] else []) + IssuedBy(chain[1..], issuers)
  }

  /** Attestations of keys the walk never stands at can be inserted anywhere without effect. */
  lemma {:induction false} ForeignLinksDoNotMatter(scheme: Scheme, cursor: string, target: string,
                                                   chain: seq<Attestation>, issuers: set<string>)
    requires Cursors(scheme, cursor, target, IssuedBy(chain, issuers)) <= issuers
    ensures Walk(scheme, cursor, target, chain) == Walk(scheme, cursor, target, IssuedBy(chain, issuers))
    decreases |chain|
  {
    if chain != [] {
      var a := chain[0];
      var kept := IssuedBy(chain, issuers);
      if a.previous !in issuers {
        assert kept == IssuedBy(chain[1..], issuers);
        assert cursor in Cursors(scheme, cursor, target, kept);
        ForeignLinksDoNotMatter(scheme, cursor, target, chain[1..], issuers);
      } else {
        assert kept[0] == a && kept[1..] == IssuedBy(chain[1..], issuers);
        if a.previous != cursor {
          ForeignLinksDoNotMatter(scheme, cursor, target, chain[1..], issuers);
        } else if Verified(scheme, a) && a.successor != target {
          ForeignLinksDoNotMatter(scheme, a.successor, target, chain[1..], issuers);
        }
      }
    }
  }

  lemma {:induction false} CursorsAreChainKeys(scheme: Scheme, keys: seq<string>, chain: seq<Attestation>,
                                               cursor: string, target: string)
    requires ChainOver(scheme, keys, chain) && cursor in keys
    ensures Cursors(scheme, cursor, target, chain) <= set k | k in keys
    decreases |chain|
  {
    if chain != [] {
      assert keys == [keys[0]] + keys[1..] && chain[0].successor == keys[1..][0];
      if chain[0].previous != cursor {
        CursorsAreChainKeys(scheme, keys[1..], chain[1..], cursor, target);
      } else if Verified(scheme, chain[0]) && chain[0].successor != target {
        CursorsAreChainKeys(scheme, keys[1..], chain[1..], chain[0].successor, target);
      }
    }
  }

  /** Whatever foreign attestations surround an honest chain, the walk still goes forward only. */
  lemma NoisyChainGoesForwardOnly(scheme: Scheme, keys: seq<string>, chain: seq<Attestation>, i: nat, j: nat)
    requires Distinct(keys) && ChainOver(scheme, keys, IssuedBy(chain, set k | k in keys))
    requires i < |keys| && j < |keys| && i != j
    ensures Walk(scheme, keys[i], keys[j], chain) <==> i < j
  {
    var issuers := set k | k in keys;
    var honest := IssuedBy(chain, issuers);
    CursorsAreChainKeys(scheme, keys, honest, keys[i], keys[j]);
    ForeignLinksDoNotMatter(scheme, keys[i], keys[j], chain, issuers);
    WalkGoesForwardOnly(scheme, keys, honest, i, j);
  }
}
