/** Merging machine tags with those of the two helpers (src/agent_run.rs). */
module TagRefresh {
  import opened Wrappers

  /** The standard string order: by the first differing character, a prefix first. */
  predicate Less(a: string, b: string) {
    if b == "" then false
    else if a == "" then true
    else if a[0] != b[0] then a[0] < b[0]
    else Less(a[1..], b[1..])
  }

  /** At the first place where two strings differ, or one ends, the smaller one is smaller. */
  lemma {:induction false} LessMeans(a: string, b: string, common: string, a1: string, b1: string)
    requires a == common + a1 && b == common + b1
    requires a1 == "" || b1 == "" || a1[0] != b1[0]
    ensures Less(a, b) <==> b1 != "" && (a1 == "" || a1[0] < b1[0])
  {
    if common == "" {
      assert a == a1 && b == b1;
    } else {
      assert a[0] == b[0] == common[0];
      assert a[1..] == common[1..] + a1 && b[1..] == common[1..] + b1;
      LessMeans(a[1..], b[1..], common[1..], a1, b1);
    }
  }

  lemma {:induction false} LessIsTotal(a: string, b: string)
    ensures a == b || Less(a, b) || Less(b, a)
    ensures !(Less(a, b) && Less(b, a)) && !Less(a, a)
  {
    if a != "" && b != "" {
      LessIsTotal(a[1..], b[1..]);
      if a[0] == b[0] && a[1..] == b[1..] {
        assert a == [a[0]] + a[1..] == b;
      }
    }
    if a != "" {
      LessIsTotal(a[1..], a[1..]);
    }
  }

  lemma {:induction false} LessIsTransitive(a: string, b: string, c: string)
    requires Less(a, b) && Less(b, c)
    ensures Less(a, c)
  {
    if a != "" && a[0] == b[0] && b[0] == c[0] {
      LessIsTransitive(a[1..], b[1..], c[1..]);
    }
  }

  ghost predicate StrictlySorted(s: seq<string>) {
    forall i, j :: 0 <= i < j < |s| ==> Less(s[i], s[j])
  }

  /** Insert into a strictly sorted sequence unless already there. */
  function Insert(x: string, s: seq<string>): seq<string> {
    if s == [] then [x]
    else if x == s[0] then s
    else if Less(x, s[0]) then [x] + s
    else [s[0]] + Insert(x, s[1..])
  }

  /** `sort` followed by `dedup`. */
  function SortDedup(s: seq<string>): seq<string> {
    if s == [] then [] else Insert(s[0], SortDedup(s[1..]))
  }

  lemma {:induction false} InsertAdds(x: string, s: seq<string>)
    ensures Elements(Insert(x, s)) == Elements(s) + {x}
  {
    if s != [] && x != s[0] && !Less(x, s[0]) {
      InsertAdds(x, s[1..]);
      ElementsOfCons(s[0], s[1..]);
      ElementsOfCons(s[0], Insert(x, s[1..]));
      assert s == [s[0]] + s[1..];
    } else {
      ElementsOfCons(x, s);
    }
  }

  lemma ElementsOfCons(x: string, s: seq<string>)
    ensures Elements([x] + s) == {x} + Elements(s)
  {
  }

  lemma SortedCons(x: string, s: seq<string>)
    requires StrictlySorted(s)
    requires forall y :: y in Elements(s) ==> Less(x, y)
    ensures StrictlySorted([x] + s)
  {
    forall j | 0 <= j < |s| ensures Less(x, s[j]) {
      assert s[j] in Elements(s);
    }
  }

  lemma {:induction false} InsertKeepsSorted(x: string, s: seq<string>)
    requires StrictlySorted(s)
    ensures StrictlySorted(Insert(x, s))
  {
    if s != [] && x != s[0] {
      LessIsTotal(x, s[0]);
      TailElements(s);
      if Less(x, s[0]) {
        forall y | y in Elements(s) ensures Less(x, y) {
          HeadIsLeast(s, y);
          if y != s[0] {
            LessIsTransitive(x, s[0], y);
          }
        }
        SortedCons(x, s);
      } else {
        InsertKeepsSorted(x, s[1..]);
        InsertAdds(x, s[1..]);
        forall y | y in Elements(s[1..]) + {x} ensures Less(s[0], y) {
          if y != x {
            HeadIsLeast(s, y);
          }
        }
        SortedCons(s[0], Insert(x, s[1..]));
      }
    }
  }

  lemma {:induction false} SortDedupSorts(s: seq<string>)
    ensures StrictlySorted(SortDedup(s))
    ensures Elements(SortDedup(s)) == Elements(s)
  {
    if s != [] {
      SortDedupSorts(s[1..]);
      InsertKeepsSorted(s[0], SortDedup(s[1..]));
      InsertAdds(s[0], SortDedup(s[1..]));
      ElementsOfCons(s[0], s[1..]);
      assert s == [s[0]] + s[1..];
    }
  }

  lemma NoElements(s: seq<string>)
    ensures Elements(s) == {} <==> s == []
  {
    if s != [] {
      assert s[0] in Elements(s);
    }
  }

  /** A set of tags has only one strictly sorted listing. */
  lemma {:induction false} SortedListingIsUnique(a: seq<string>, b: seq<string>)
    requires StrictlySorted(a) && StrictlySorted(b) && Elements(a) == Elements(b)
    ensures a == b
  {
    NoElements(a);
    NoElements(b);
    if a != [] {
      assert a[0] in Elements(a);
      assert b[0] in Elements(b);
      HeadIsLeast(a, b[0]);
      HeadIsLeast(b, a[0]);
      LessIsTotal(a[0], b[0]);
      TailElements(a);
      TailElements(b);
      SortedListingIsUnique(a[1..], b[1..]);
      assert a == [a[0]] + a[1..] && b == [b[0]] + b[1..];
    }
  }

  lemma HeadIsLeast(s: seq<string>, x: string)
    requires StrictlySorted(s) && x in s
    ensures x == s[0] || Less(s[0], x)
  {
  }

  lemma TailElements(s: seq<string>)
    requires s != [] && StrictlySorted(s)
    ensures Elements(s[1..]) == Elements(s) - {s[0]}
  {
    assert s == [s[0]] + s[1..];
    LessIsTotal(s[0], s[0]);
  }

  predicate StartsWith(s: string, prefix: string) {
    prefix <= s
  }

  /** Tags owned by a helper, which a refresh replaces. */
  predicate HelperTag(tag: string) {
    StartsWith(tag, "gui:") || StartsWith(tag, "display:") || StartsWith(tag, "proxmox:")
  }

  /** That is: the ones in the name spaces of the two helpers. */
  lemma HelperTagMeans(tag: string)
    ensures HelperTag(tag) <==>
            exists rest: string :: tag == "gui:" + rest || tag == "display:" + rest || tag == "proxmox:" + rest
  {
    if StartsWith(tag, "gui:") {
      assert tag == "gui:" + tag[4..];
    } else if StartsWith(tag, "display:") {
      assert tag == "display:" + tag[8..];
    } else if StartsWith(tag, "proxmox:") {
      assert tag == "proxmox:" + tag[8..];
    }
  }

  /** The machine's own tags. */
  function Own(base: seq<string>): set<string> {
    set t | t in base && !HelperTag(t)
  }

  /** The tags the server should know: the machine's own, and the latest of each helper. */
  ghost function Wanted(base: seq<string>, gui: Option<seq<string>>, proxmox: Option<seq<string>>): set<string> {
    Own(base) + Elements(gui.GetOr([])) + Elements(proxmox.GetOr([]))
  }

  lemma WantedMeans(base: seq<string>, gui: Option<seq<string>>, proxmox: Option<seq<string>>, queued: seq<string>)
    requires Lists(queued, Wanted(base, gui, proxmox))
    ensures forall tag :: tag in queued <==>
              || (tag in base && !HelperTag(tag))
              || (gui.Some? && tag in gui.value)
              || (proxmox.Some? && tag in proxmox.value)
  {
    assert forall tag :: tag in queued <==> tag in Elements(queued);
  }

  ghost predicate Lists(queued: seq<string>, wanted: set<string>) {
    StrictlySorted(queued) && Elements(queued) == wanted
  }

  /** Filter out helper tags, then extend, sort and dedup. */
  method Merge(base: seq<string>, first: Option<seq<string>>, second: Option<seq<string>>)
    returns (merged: seq<string>)
    ensures Lists(merged, Wanted(base, first, second))
    ensures Lists(merged, Wanted(base, second, first))
    ensures forall tag :: tag in merged <==>
              || (tag in base && !HelperTag(tag))
              || (first.Some? && tag in first.value)
              || (second.Some? && tag in second.value)
  {
    var kept: seq<string> := [];
    for i := 0 to |base|
      invariant Elements(kept) == Own(base[..i])
    {
      assert base[..i + 1] == base[..i] + [base[i]];
      assert Own(base[..i + 1]) == Own(base[..i]) + Own([base[i]]);
      assert Elements(kept + [base[i]]) == Elements(kept) + {base[i]};
      if !HelperTag(base[i]) {
        kept := kept + [base[i]];
      }
    }
    assert base[..|base|] == base;
    var all := kept + first.GetOr([]) + second.GetOr([]);
    assert Elements(all) == Elements(kept) + Elements(first.GetOr([])) + Elements(second.GetOr([]));
    SortDedupSorts(all);
    merged := SortDedup(all);
    WantedMeans(base, first, second, merged);
  }

  /** What one helper said, and whether the machine tags could be collected then. */
  datatype Look = Look(gui: bool, tags: seq<string>, collected: bool)

  /** One iteration: each installed helper is asked, and the machine tags are collected for each. */
  datatype Round = Round(gui: Option<seq<string>>, guiCollected: bool,
                         proxmox: Option<seq<string>>, proxmoxCollected: bool)

  /** Asking one helper, if it is installed. */
  function Asked(gui: bool, said: Option<seq<string>>, collected: bool): seq<Look> {
    if said.Some? then [Look(gui, said.value, collected)] else []
  }

  function Looks(rounds: seq<Round>): seq<Look> {
    if rounds == [] then []
    else
      var last := rounds[|rounds| - 1];
      Looks(rounds[..|rounds| - 1])
      + Asked(true, last.gui, last.guiCollected) + Asked(false, last.proxmox, last.proxmoxCollected)
  }

  /** What a helper said last. */
  function LastOf(looks: seq<Look>, gui: bool): Option<seq<string>> {
    if looks == [] then None
    else
      var last := looks[|looks| - 1];
      if last.gui == gui then Some(last.tags) else LastOf(looks[..|looks| - 1], gui)
  }

  /** The last of these looks brought something new. */
  predicate BroughtChange(looks: seq<Look>)
    requires looks != []
  {
    var last := looks[|looks| - 1];
    LastOf(looks[..|looks| - 1], last.gui) != Some(last.tags)
  }

  /** The set the server should know after these looks. */
  ghost function WantedAfter(base: seq<string>, looks: seq<Look>): set<string> {
    Wanted(base, LastOf(looks, true), LastOf(looks, false))
  }

  /** How many looks there were up to the last change, which is 0 if there was none. */
  function LastChange(looks: seq<Look>): (n: nat)
    ensures n <= |looks| && (n > 0 ==> BroughtChange(looks[..n]))
  {
    if looks == [] then 0
    else if BroughtChange(looks) then
      assert looks[..|looks|] == looks;
      |looks|
    else
      var n := LastChange(looks[..|looks| - 1]);
      assert looks[..|looks| - 1][..n] == looks[..n];
      n
  }

  /** The same for the last change for which collection worked. */
  function LastCollectedChange(looks: seq<Look>): (n: nat)
    ensures n <= |looks| && (n > 0 ==> BroughtChange(looks[..n]) && looks[n - 1].collected)
  {
    if looks == [] then 0
    else if BroughtChange(looks) && looks[|looks| - 1].collected then
      assert looks[..|looks|] == looks;
      |looks|
    else
      var n := LastCollectedChange(looks[..|looks| - 1]);
      assert looks[..|looks| - 1][..n] == looks[..n];
      n
  }

  /**
    The last change decides: if collection worked for it, it is the one the queue reflects;
    if not, the queue still reflects what came before that change.
  */
  lemma {:induction false} LastChangeDecides(looks: seq<Look>)
    ensures var n := LastChange(looks);
            LastCollectedChange(looks) ==
            if n == 0 then 0
            else if looks[n - 1].collected then n
            else LastCollectedChange(looks[..n - 1])
    ensures forall gui :: LastOf(looks, gui) == LastOf(looks[..LastChange(looks)], gui)
  {
    if looks != [] {
      var n := LastChange(looks);
      var before := looks[..|looks| - 1];
      if BroughtChange(looks) {
        assert looks[..n] == looks;
      } else {
        LastChangeDecides(before);
        assert before[..n] == looks[..n];
        if n > 0 {
          assert before[..n - 1] == looks[..n - 1] && before[n - 1] == looks[n - 1];
        }
      }
    }
  }

  /** What was wanted at the last change for which collection worked. */
  ghost function Reflected(base: seq<string>, looks: seq<Look>): Option<set<string>> {
    var n := LastCollectedChange(looks);
    if n == 0 then None else Some(WantedAfter(base, looks[..n]))
  }

  /** That is what the queue holds. */
  ghost predicate QueuedAfter(base: seq<string>, looks: seq<Look>, queued: Option<seq<string>>) {
    match Reflected(base, looks)
    case None => queued == None
    case Some(wanted) => queued.Some? && Lists(queued.value, wanted)
  }

  /** One helper asked once more. */
  lemma AskedAgain(base: seq<string>, looks: seq<Look>, gui: bool, said: Option<seq<string>>, collected: bool)
    ensures var all := looks + Asked(gui, said, collected);
            && LastOf(all, gui) == (if said.Some? then said else LastOf(looks, gui))
            && LastOf(all, !gui) == LastOf(looks, !gui)
            && Reflected(base, all) ==
               if said.Some? && LastOf(looks, gui) != said && collected
               then Some(Wanted(base, LastOf(all, true), LastOf(all, false)))
               else Reflected(base, looks)
  {
    if said.None? {
      assert looks + Asked(gui, said, collected) == looks;
    } else {
      var all, n := looks + [Look(gui, said.value, collected)], LastCollectedChange(looks);
      assert all[..|looks|] == looks && all[..|all|] == all && all[..n] == looks[..n];
    }
  }

  /**
    The exact condition for the queue to be up to date: nothing was ever reported, or the
    last change that could be collected already gave the set wanted now.
  */
  lemma UpToDateIff(base: seq<string>, looks: seq<Look>, queued: Option<seq<string>>)
    requires QueuedAfter(base, looks, queued)
    ensures var n := LastCollectedChange(looks);
            Current(base, LastOf(looks, true), LastOf(looks, false), queued) <==>
            if n == 0 then looks == [] else Reflected(base, looks) == Some(WantedAfter(base, looks))
  {
    SomethingSaid(looks);
  }

  /** If collection worked for the last change, the queue is up to date. */
  lemma CollectedLastChangeIsQueued(base: seq<string>, looks: seq<Look>, queued: Option<seq<string>>)
    requires QueuedAfter(base, looks, queued)
    requires looks != [] ==> LastChange(looks) > 0 && looks[LastChange(looks) - 1].collected
    ensures Current(base, LastOf(looks, true), LastOf(looks, false), queued)
  {
    LastChangeDecides(looks);
    UpToDateIff(base, looks, queued);
  }

  /** A helper that was asked has said something, and the first thing said was a change. */
  lemma {:induction false} SomethingSaid(looks: seq<Look>)
    ensures looks == [] <==> LastOf(looks, true) == None && LastOf(looks, false) == None
    ensures looks == [] <==> LastChange(looks) == 0
  {
    if looks != [] {
      SomethingSaid(looks[..|looks| - 1]);
    }
  }

  /** Nothing said and nothing queued, or the queued set lists what is wanted. */
  ghost predicate Current(base: seq<string>, gui: Option<seq<string>>, proxmox: Option<seq<string>>,
                          queued: Option<seq<string>>) {
    if gui == None && proxmox == None then queued == None
    else queued.Some? && Lists(queued.value, Wanted(base, gui, proxmox))
  }

  /** The tag part of the pull loop's state. */
  class TagRefresher {
    var lastGui: Option<seq<string>>
    var lastProxmox: Option<seq<string>>
    /** The set most recently handed to queue_tag_refresh, if any. */
    var queued: Option<seq<string>>

    constructor ()
      ensures lastGui == lastProxmox == None && queued == None
    {
      lastGui, lastProxmox, queued := None, None, None;
    }

    /** Nothing queued yet, or the newest queued set is the wanted one for `base`. */
    ghost predicate UpToDate(base: seq<string>)
      reads this
    {
      Current(base, lastGui, lastProxmox, queued)
    }

    ghost predicate Queued(wanted: set<string>)
      reads this
    {
      queued.Some? && Lists(queued.value, wanted)
    }

    /**
      One iteration. A probe is None when that helper is not installed. The machine tags are
      collected for each helper by itself; each time they are None when that failed.
    */
    method Refresh(gui: Option<seq<string>>, guiBase: Option<seq<string>>,
                   proxmox: Option<seq<string>>, proxmoxBase: Option<seq<string>>)
      modifies this
      ensures lastGui == if gui.Some? then gui else old(lastGui)
      ensures lastProxmox == if proxmox.Some? then proxmox else old(lastProxmox)
      ensures if lastProxmox != old(lastProxmox) && proxmoxBase.Some?
              then Queued(Wanted(proxmoxBase.value, lastGui, lastProxmox))
              else if lastGui != old(lastGui) && guiBase.Some?
              then Queued(Wanted(guiBase.value, lastGui, old(lastProxmox)))
              else queued == old(queued)
    {
      if gui.Some? {
        if lastGui != gui {
          if guiBase.Some? {
            var merged := Merge(guiBase.value, gui, lastProxmox);
            queued := Some(merged);
          }
          lastGui := gui;
        }
      }
      if proxmox.Some? {
        if lastProxmox != proxmox {
          if proxmoxBase.Some? {
            var merged := Merge(proxmoxBase.value, lastGui, proxmox);
            queued := Some(merged);
          }
          lastProxmox := proxmox;
        }
      }
    }

    /**
      Any number of iterations, with either helper installed or not and collection working
      or not each time: the queued set is that of the last change that could be collected.
    */
    method RefreshRounds(base: seq<string>, rounds: seq<Round>)
      requires lastGui == None && lastProxmox == None && queued == None
      modifies this
      ensures lastGui == LastOf(Looks(rounds), true) && lastProxmox == LastOf(Looks(rounds), false)
      ensures QueuedAfter(base, Looks(rounds), queued)
    {
      for i := 0 to |rounds|
        invariant lastGui == LastOf(Looks(rounds[..i]), true) && lastProxmox == LastOf(Looks(rounds[..i]), false)
        invariant QueuedAfter(base, Looks(rounds[..i]), queued)
      {
        ghost var before, r := Looks(rounds[..i]), rounds[i];
        ghost var middle := before + Asked(true, r.gui, r.guiCollected);
        AskedAgain(base, before, true, r.gui, r.guiCollected);
        AskedAgain(base, middle, false, r.proxmox, r.proxmoxCollected);
        RoundAppended(rounds, i);
        Refresh(rounds[i].gui, if rounds[i].guiCollected then Some(base) else None,
                rounds[i].proxmox, if rounds[i].proxmoxCollected then Some(base) else None);
      }
      assert rounds[..|rounds|] == rounds;
    }

    /**
      Over any number of iterations with fixed machine tags and both helpers installed, the
      last queued set is the strictly sorted union of the machine's tags and the latest of both.
    */
    method RefreshAll(base: seq<string>, probes: seq<(seq<string>, seq<string>)>)
      requires lastGui == None && lastProxmox == None && queued == None
      modifies this
      ensures probes != [] ==>
                var (gui, proxmox) := probes[|probes| - 1];
                queued.Some? && Lists(queued.value, Wanted(base, Some(gui), Some(proxmox)))
                && forall tag :: tag in queued.value <==>
                     (tag in base && !HelperTag(tag)) || tag in gui || tag in proxmox
    {
      for i := 0 to |probes|
        invariant UpToDate(base)
        invariant i > 0 ==> lastGui == Some(probes[i - 1].0) && lastProxmox == Some(probes[i - 1].1)
      {
        Refresh(Some(probes[i].0), Some(base), Some(probes[i].1), Some(base));
      }
      if probes != [] {
        WantedMeans(base, lastGui, lastProxmox, queued.value);
      }
    }

    /**
      If collection fails in the iteration in which a helper's tags change, the change is
      recorded but never queued: as long as the probes stay the same, no later iteration
      queues anything.
    */
    method ChangeLostWhenCollectionFails(gui: Option<seq<string>>, proxmox: Option<seq<string>>,
                                         base: seq<string>, later: nat)
      modifies this
      ensures lastGui == if gui.Some? then gui else old(lastGui)
      ensures lastProxmox == if proxmox.Some? then proxmox else old(lastProxmox)
      ensures queued == old(queued)
    {
      Refresh(gui, None, proxmox, None);
      ghost var firstGui, firstProxmox := lastGui, lastProxmox;
      for i := 0 to later
        invariant lastGui == firstGui && lastProxmox == firstProxmox && queued == old(queued)
      {
        Refresh(gui, Some(base), proxmox, Some(base));
      }
    }
  }

  /** The looks of one more iteration. */
  lemma RoundAppended(rounds: seq<Round>, i: nat)
    requires i < |rounds|
    ensures Looks(rounds[..i + 1]) ==
            Looks(rounds[..i]) + Asked(true, rounds[i].gui, rounds[i].guiCollected)
            + Asked(false, rounds[i].proxmox, rounds[i].proxmoxCollected)
  {
    assert rounds[..i + 1][..i] == rounds[..i];
  }
}
