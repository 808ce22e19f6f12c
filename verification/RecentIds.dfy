/** The bounded window of recently executed command ids (src/pull.rs). */
module RecentIds {
  import opened Wrappers

  type Uuid = nat

  const CAPACITY: nat := 512

  /** The last `n` elements of `s`, or all of them when there are fewer. */
  function Suffix<T>(s: seq<T>, n: nat): seq<T> {
    if |s| <= n then s else s[|s| - n..]
  }

  lemma SuffixMeans<T>(s: seq<T>, n: nat)
    ensures |Suffix(s, n)| == Min(|s|, n)
    ensures s == s[..|s| - |Suffix(s, n)|] + Suffix(s, n)
  {
  }

  ghost predicate NoRepeats<T(!new)>(s: seq<T>) {
    forall i, j :: 0 <= i < j < |s| ==> s[i] != s[j]
  }

  /** Dropping the oldest of distinct ids drops it from their set. */
  lemma PopFront(s: seq<Uuid>)
    requires s != [] && NoRepeats(s)
    ensures NoRepeats(s[1..])
    ensures Elements(s[1..]) == Elements(s) - {s[0]}
  {
    assert s == [s[0]] + s[1..];
  }

  /** What one delivery of `id` leaves in a window. */
  function Remember(window: seq<Uuid>, id: Uuid): seq<Uuid> {
    if id in window then window else Suffix(window + [id], CAPACITY)
  }

  /** The queue and the hash set of the source, changed together. */
  class RecentCommandIds {
    var order: seq<Uuid>
    var members: set<Uuid>

    ghost predicate Valid()
      reads this
    {
      && |order| <= CAPACITY
      && NoRepeats(order)
      && members == Elements(order)
    }

    constructor WithCapacityHint()
      ensures Valid() && order == []
    {
      order, members := [], {};
    }

    method InsertIfNew(id: Uuid) returns (isNew: bool)
      requires Valid()
      modifies this
      ensures Valid()
      ensures isNew <==> id !in old(order)
      ensures order == Remember(old(order), id)
      ensures |order| <= 512 && id in order
    {
      if id in members {
        return false;
      }
      members := members + {id};
      order := order + [id];
      ghost var pushed := order;
      while |order| > CAPACITY
        invariant CAPACITY <= |order| || order == pushed
        invariant order == Suffix(pushed, |order|)
        invariant |order| <= |pushed| <= CAPACITY + 1
        invariant NoRepeats(order)
        invariant members == Elements(order)
      {
        PopFront(order);
        var oldest := order[0];
        order := order[1..];
        members := members - {oldest};
      }
      return true;
    }
  }

  /** The window after a whole session's deliveries, oldest first. */
  function Window(delivered: seq<Uuid>): (w: seq<Uuid>)
    ensures |w| <= CAPACITY
  {
    if delivered == [] then []
    else Remember(Window(delivered[..|delivered| - 1]), delivered[|delivered| - 1])
  }

  /** The deliveries that were not skipped as duplicates, in order. */
  function Accepted(delivered: seq<Uuid>): seq<Uuid> {
    if delivered == [] then []
    else
      var before := delivered[..|delivered| - 1];
      var id := delivered[|delivered| - 1];
      if id in Window(before) then Accepted(before) else Accepted(before) + [id]
  }

  lemma SuffixOfSuffix<T>(s: seq<T>, x: T, n: nat)
    requires n > 0
    ensures Suffix(Suffix(s, n) + [x], n) == Suffix(s + [x], n)
  {
  }

  /** However many deliveries came before, the window holds exactly the last 512 accepted ids. */
  lemma {:induction false} WindowIsLastAccepted(delivered: seq<Uuid>)
    ensures Window(delivered) == Suffix(Accepted(delivered), 512)
  {
    if delivered != [] {
      var before := delivered[..|delivered| - 1];
      WindowIsLastAccepted(before);
      SuffixOfSuffix(Accepted(before), delivered[|delivered| - 1], CAPACITY);
    }
  }

  /** A delivery is skipped exactly when its id is one of the last 512 accepted ids. */
  lemma SkippedExactlyWhenRecent(delivered: seq<Uuid>, id: Uuid)
    ensures Accepted(delivered + [id]) ==
            if id in Suffix(Accepted(delivered), 512) then Accepted(delivered)
            else Accepted(delivered) + [id]
  {
    WindowIsLastAccepted(delivered);
    assert (delivered + [id])[..|delivered|] == delivered;
  }

  /** Any 513 consecutive executed commands carry pairwise distinct ids. */
  lemma {:induction false} AtMostOnceWindow(delivered: seq<Uuid>, i: nat, j: nat)
    requires i < j < |Accepted(delivered)|
    requires j - i <= 512
    ensures Accepted(delivered)[i] != Accepted(delivered)[j]
  {
    var before := delivered[..|delivered| - 1];
    var id := delivered[|delivered| - 1];
    WindowIsLastAccepted(before);
    if j < |Accepted(before)| {
      AtMostOnceWindow(before, i, j);
    } else {
      var a := Accepted(before);
      var k := if |a| <= CAPACITY then i else i - (|a| - CAPACITY);
      assert Suffix(a, CAPACITY)[k] == a[i];
    }
  }
}
