/** Reading a child's output up to a limit (src/commands/shell_run.rs), before text decoding. */
module LimitedRead {
  import opened Wrappers

  const CHUNK: nat := 4096

  /** What one call of read gives; an empty read is the end of the stream. */
  datatype Reading = Got(bytes: Bytes) | Failed

  /** The bytes a reader would deliver up to its first empty read. */
  function Stream(readings: seq<Reading>): Bytes {
    if readings == [] || readings[0].Failed? || readings[0].bytes == [] then []
    else readings[0].bytes + Stream(readings[1..])
  }

  function Concat(chunks: seq<Bytes>): Bytes {
    if chunks == [] then [] else Concat(chunks[..|chunks| - 1]) + chunks[|chunks| - 1]
  }

  /** A reader that hands over these chunks and then the end of the stream delivers their bytes in order. */
  lemma {:induction false} StreamIsTheChunks(chunks: seq<Bytes>, readings: seq<Reading>)
    requires |readings| > |chunks| && forall k :: 0 <= k < |chunks| ==> chunks[k] != [] && readings[k] == Got(chunks[k])
    requires readings[|chunks|] == Got([]) || readings[|chunks|].Failed?
    ensures Stream(readings) == Concat(chunks)
  {
    StreamGrows(readings, |chunks|);
    StreamOfPrefix(chunks, readings, |chunks|);
    assert chunks[..|chunks|] == chunks && Stream(readings[|chunks|..]) == [];
  }

  lemma {:induction false} StreamOfPrefix(chunks: seq<Bytes>, readings: seq<Reading>, n: nat)
    requires n <= |chunks| <= |readings|
    requires forall k :: 0 <= k < |chunks| ==> chunks[k] != [] && readings[k] == Got(chunks[k])
    ensures Stream(readings[..n]) == Concat(chunks[..n])
  {
    if n > 0 {
      StreamOfPrefix(chunks, readings, n - 1);
      StreamOneMore(readings, n - 1);
      assert chunks[..n][..n - 1] == chunks[..n - 1];
    }
  }

  lemma {:induction false} StreamGrows(readings: seq<Reading>, k: nat)
    requires k <= |readings|
    requires forall j :: 0 <= j < k ==> readings[j].Got? && readings[j].bytes != []
    ensures Stream(readings) == Stream(readings[..k]) + Stream(readings[k..])
  {
    if k == 0 {
      assert readings[..0] == [] && readings[0..] == readings;
    } else {
      StreamGrows(readings[1..], k - 1);
      assert readings[..k][0] == readings[0] && readings[..k][1..] == readings[1..][..k - 1];
      assert readings[1..][k - 1..] == readings[k..];
      assert Stream(readings[..k]) == readings[0].bytes + Stream(readings[1..][..k - 1]);
    }
  }

  lemma StreamOneMore(readings: seq<Reading>, k: nat)
    requires k < |readings|
    requires forall j :: 0 <= j <= k ==> readings[j].Got? && readings[j].bytes != []
    ensures Stream(readings[..k + 1]) == Stream(readings[..k]) + readings[k].bytes
  {
    var upTo := readings[..k + 1];
    StreamGrows(upTo, k);
    assert upTo[..k] == readings[..k] && upTo[k..] == [readings[k]];
    assert Stream([readings[k]]) == readings[k].bytes + Stream([]);
  }

  /** The reader comes to its end or fails. */
  ghost predicate Ends(readings: seq<Reading>) {
    exists k :: 0 <= k < |readings| && (readings[k].Failed? || readings[k].bytes == [])
  }

  /**
    However the reader splits its stream into chunks, a successful call returns the first
    min(n, limit) of its n bytes, and reports truncation exactly when n exceeds the limit.
    It fails exactly when a read failed before the end or the limit was passed.
  */
  method ReadFromReader(readings: seq<Reading>, limit: nat) returns (r: Result<(Bytes, bool), ()>)
    requires forall k :: 0 <= k < |readings| && readings[k].Got? ==> |readings[k].bytes| <= CHUNK
    requires Ends(readings) || |Stream(readings)| > limit
    ensures r.Ok? ==>
              var stream := Stream(readings);
              && r.value.0 == stream[..Min(|stream|, limit)]
              && (r.value.1 <==> |stream| > limit)
    ensures r.Err? <==>
              exists k :: 0 <= k < |readings| && readings[k].Failed?
                && (forall j :: 0 <= j < k ==> readings[j].Got? && readings[j].bytes != [])
                && |Stream(readings[..k])| <= limit
  {
    var buffer: Bytes := [];
    var i: nat := 0;
    while true
      invariant i <= |readings|
      invariant forall j :: 0 <= j < i ==> readings[j].Got? && readings[j].bytes != []
      invariant buffer == Stream(readings[..i]) && |buffer| <= limit
      decreases |readings| - i
    {
      StreamGrows(readings, i);
      assert readings[..|readings|] == readings;
      assert i < |readings|;
      if readings[i].Failed? {
        return Err(());
      }
      var chunk := readings[i].bytes;
      if chunk == [] {
        assert Stream(readings[i..]) == [];
        return Ok((buffer, false));
      }
      StreamOneMore(readings, i);
      StreamGrows(readings, i + 1);
      var remaining := limit - |buffer|;
      if remaining == 0 {
        LaterPrefixesLonger(readings, i, limit);
        return Ok((buffer, true));
      }
      if |chunk| > remaining {
        LaterPrefixesLonger(readings, i, limit);
        buffer := buffer + chunk[..remaining];
        return Ok((buffer, true));
      }
      buffer := buffer + chunk;
      i := i + 1;
    }
  }

  /** Once a prefix of the stream passes the limit, every longer one does. */
  lemma LaterPrefixesLonger(readings: seq<Reading>, i: nat, limit: nat)
    requires i < |readings| && forall j :: 0 <= j <= i ==> readings[j].Got? && readings[j].bytes != []
    requires |Stream(readings[..i + 1])| > limit
    ensures forall k ::
              i < k <= |readings| && (forall j :: 0 <= j < k ==> readings[j].Got? && readings[j].bytes != []) ==>
                |Stream(readings[..k])| > limit
  {
    forall k | i < k <= |readings| && (forall j :: 0 <= j < k ==> readings[j].Got? && readings[j].bytes != [])
      ensures |Stream(readings[..k])| > limit
    {
      StreamGrows(readings[..k], i + 1);
      assert readings[..k][..i + 1] == readings[..i + 1];
    }
  }
}
