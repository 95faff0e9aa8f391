/** The relay's egress allowlist: rebuilt aside, swapped in, and remembered once applied. */
module Ipset {
  import opened Wrappers
  import opened Sorting
  import opened Text

  /** An entry that may be handed to ipset; `parses` is `net.ParseCIDR` accepting it. */
  predicate Usable(c: string, parses: string -> bool) {
    c != "" && c[0] != '-' && parses(c)
  }

  ghost function UsableSet(cidrs: seq<string>, parses: string -> bool): set<string> {
    set c | c in cidrs && Usable(TrimSpace(c), parses) :: TrimSpace(c)
  }

  method Normalise(cidrs: seq<string>, parses: string -> bool) returns (list: seq<string>)
    ensures list == NormaliseOf(cidrs, parses)
  {
    var seen: set<string> := {};
    list := [];
    for i := 0 to |cidrs|
      invariant seen == Elements(list) == UsableSet(cidrs[..i], parses) && NoDuplicates(list)
    {
      assert cidrs[..i + 1] == cidrs[..i] + [cidrs[i]];
      var c := TrimSpace(cidrs[i]);
      if c != "" && c !in seen && Usable(c, parses) {
        seen := seen + {c};
        list := list + [c];
      }
    }
    assert cidrs[..|cidrs|] == cidrs;
    SortedSetUnique(list, UsableSet(cidrs, parses));
    list := SortStrings(list);
  }

  ghost function NormaliseOf(cidrs: seq<string>, parses: string -> bool): seq<string> {
    SortedSet(UsableSet(cidrs, parses))
  }

  /** What a list normalises to: each entry once, in order, without the blanks around it;
      none that is empty, reads as an option, or does not parse. */
  lemma NormaliseMeans(cidrs: seq<string>, parses: string -> bool)
    ensures var list := NormaliseOf(cidrs, parses);
      && NoDuplicates(list) && Sorted(list, Leq)
      && forall x :: x in list <==>
           x != "" && x[0] != '-' && parses(x) && exists c :: c in cidrs && TrimSpace(c) == x
  {
    forall x ensures x in UsableSet(cidrs, parses) <==>
      x != "" && x[0] != '-' && parses(x) && exists c :: c in cidrs && TrimSpace(c) == x {}
  }

  /** Normalising twice is normalising once. */
  lemma NormaliseIdempotent(cidrs: seq<string>, parses: string -> bool)
    ensures NormaliseOf(NormaliseOf(cidrs, parses), parses) == NormaliseOf(cidrs, parses)
  {
    var list := NormaliseOf(cidrs, parses);
    forall c | c in list ensures TrimSpace(c) == c && Usable(c, parses) {
      var d :| d in cidrs && Usable(TrimSpace(d), parses) && c == TrimSpace(d);
      TrimSpaceIdempotent(d);
    }
    assert UsableSet(list, parses) == UsableSet(cidrs, parses);
  }

  // ----- the kernel's sets

  type Sets = map<string, set<string>>

  datatype Cmd = Destroy(n: string) | Create(n: string, exist: bool) | Add(n: string, c: string) | Swap(n: string, m: string)

  /** One ipset command; `fault` is a failure that has nothing to do with the sets. */
  function Exec(sets: Sets, cmd: Cmd, fault: bool): (Sets, bool) {
    if fault then (sets, false)
    else match cmd
      case Destroy(n) => if n in sets then (sets - {n}, true) else (sets, false)
      case Create(n, exist) => if n !in sets then (sets[n := {}], true) else (sets, exist)
      case Add(n, c) => if n in sets && c !in sets[n] then (sets[n := sets[n] + {c}], true) else (sets, false)
      case Swap(n, m) => if n in sets && m in sets then (sets[n := sets[m]][m := sets[n]], true) else (sets, false)
  }

  /** What the set lets through; one that does not exist lets nothing through. */
  function Live(sets: Sets, n: string): set<string> {
    if n in sets then sets[n] else {}
  }

  class Kernel {
    var sets: Sets
    var calls: nat
    const faults: nat -> bool
    /** Every state the sets have been in. */
    ghost var moments: seq<Sets>

    constructor (sets: Sets, faults: nat -> bool)
      ensures this.sets == sets && this.faults == faults && calls == 0 && moments == [sets]
    {
      this.sets, this.faults, calls, moments := sets, faults, 0, [sets];
    }

    method Run(cmd: Cmd) returns (ok: bool)
      modifies this
      ensures (sets, ok) == Exec(old(sets), cmd, faults(old(calls)))
      ensures calls == old(calls) + 1 && moments == old(moments) + [sets]
    {
      ok := false;
      if !faults(calls) {
        match cmd {
          case Destroy(n) => if n in sets { sets, ok := sets - {n}, true; }
          case Create(n, exist) => if n !in sets { sets, ok := sets[n := {}], true; } else { ok := exist; }
          case Add(n, c) => if n in sets && c !in sets[n] { sets, ok := sets[n := sets[n] + {c}], true; }
          case Swap(n, m) =>
            if n in sets && m in sets { sets, ok := sets[n := sets[m]][m := sets[n]], true; }
        }
      }
      calls, moments := calls + 1, moments + [sets];
    }
  }

  function Aside(setName: string): string {
    setName + "-new"
  }

  ghost predicate SameBut(a: Sets, b: Sets, names: set<string>) {
    forall n :: n !in names ==> (n in a <==> n in b) && (n in a ==> a[n] == b[n])
  }

  /** Every state from `from` on lets through the old list or the whole new one. */
  ghost predicate NeverHalfBuilt(moments: seq<Sets>, from: nat, n: string, before: set<string>, after: set<string>) {
    from <= |moments| && forall i :: from <= i < |moments| ==> Live(moments[i], n) == before || Live(moments[i], n) == after
  }

  /** A rebuild of `n` entries begun at call `from` got past its swap: the swap did not fail
      and the last command issued is the destroy behind it. */
  predicate BehindSwap(k: Kernel, from: nat, n: nat)
    reads k
  {
    k.calls == from + n + 5 && !k.faults(from + n + 3)
  }

  /** Rebuilds the set under a temporary name and swaps it into place.  The live set is at
      every moment the old one or the new one; it is the new one after success, and after
      a failure exactly if the command that failed is the last, the one after the swap.  No
      other set is touched, and none is left aside unless destroying it failed. */
  method ApplyWithIpset(k: Kernel, setName: string, sorted: seq<string>) returns (ok: bool)
    modifies k
    ensures old(k.moments) <= k.moments
    ensures NeverHalfBuilt(k.moments, |old(k.moments)|, setName, Live(old(k.sets), setName), Elements(sorted))
    ensures ok ==> Live(k.sets, setName) == Elements(sorted)
    ensures !ok ==> (Live(k.sets, setName) ==
                     if BehindSwap(k, old(k.calls), |sorted|) then Elements(sorted) else Live(old(k.sets), setName))
    ensures !ok && BehindSwap(k, old(k.calls), |sorted|) ==> k.faults(k.calls - 1)
    ensures ok ==> k.sets == (old(k.sets) - {Aside(setName)})[setName := Elements(sorted)]
    ensures SameBut(k.sets, old(k.sets), {setName, Aside(setName)})
    ensures k.calls > old(k.calls) && (!ok && Aside(setName) in k.sets ==> k.faults(k.calls - 1) || k.faults(old(k.calls)))
    ensures NoDuplicates(sorted) && (forall c :: old(k.calls) <= c ==> !k.faults(c)) ==> ok
  {
    var tmp := Aside(setName);
    assert tmp != setName by { assert |tmp| > |setName|; }
    ok := BuildAside(k, tmp, setName, sorted);
    if !ok { return; }
    ok := SwapIn(k, tmp, setName, Elements(sorted));
  }

  /** From the set built aside to the live one. */
  method SwapIn(k: Kernel, tmp: string, setName: string, ghost after: set<string>) returns (ok: bool)
    requires tmp != setName && tmp in k.sets && k.sets[tmp] == after
    modifies k
    ensures old(k.moments) <= k.moments
    ensures NeverHalfBuilt(k.moments, |old(k.moments)|, setName, Live(old(k.sets), setName), after)
    ensures ok ==> Live(k.sets, setName) == after
    ensures var behind := k.calls == old(k.calls) + 3 && !k.faults(old(k.calls) + 1);
      !ok ==> Live(k.sets, setName) == (if behind then after else Live(old(k.sets), setName)) && (behind ==> k.faults(k.calls - 1))
    ensures (forall c :: old(k.calls) <= c ==> !k.faults(c)) ==> ok
    ensures ok ==> k.sets == (old(k.sets) - {tmp})[setName := after]
    ensures SameBut(k.sets, old(k.sets), {setName, tmp})
    ensures k.calls > old(k.calls) && (!ok && tmp in k.sets ==> k.faults(k.calls - 1))
  {
    ok := k.Run(Create(setName, true));
    if !ok {
      var ignored := k.Run(Destroy(tmp));
      return;
    }
    ok := k.Run(Swap(tmp, setName));
    if !ok {
      var ignored := k.Run(Destroy(tmp));
      return;
    }
    ok := k.Run(Destroy(tmp));
  }

  /** The part before the swap: the live set is not touched. */
  method BuildAside(k: Kernel, tmp: string, setName: string, sorted: seq<string>) returns (ok: bool)
    requires tmp != setName
    modifies k
    ensures old(k.moments) <= k.moments
    ensures Untouched(k.moments, |old(k.moments)|, setName, Live(old(k.sets), setName))
    ensures Live(k.sets, setName) == Live(old(k.sets), setName)
    ensures ok ==> tmp in k.sets && k.sets[tmp] == Elements(sorted) && k.calls == old(k.calls) + |sorted| + 2
    ensures !ok ==> k.calls < old(k.calls) + |sorted| + 4
    ensures ok ==> k.sets == old(k.sets)[tmp := Elements(sorted)]
    ensures SameBut(k.sets, old(k.sets), {tmp})
    ensures k.calls > old(k.calls) && (!ok && tmp in k.sets ==> k.faults(k.calls - 1) || k.faults(old(k.calls)))
    ensures NoDuplicates(sorted) && (forall c :: old(k.calls) <= c ==> !k.faults(c)) ==> ok
  {
    var ignored := k.Run(Destroy(tmp));
    ok := k.Run(Create(tmp, false));
    if !ok { return; }
    ok := Fill(k, tmp, setName, sorted);
    if !ok {
      ignored := k.Run(Destroy(tmp));
    }
  }

  method Fill(k: Kernel, tmp: string, setName: string, sorted: seq<string>) returns (ok: bool)
    requires tmp != setName && tmp in k.sets && k.sets[tmp] == {}
    modifies k
    ensures old(k.moments) <= k.moments
    ensures Untouched(k.moments, |old(k.moments)|, setName, Live(old(k.sets), setName))
    ensures Live(k.sets, setName) == Live(old(k.sets), setName)
    ensures ok ==> tmp in k.sets && k.sets[tmp] == Elements(sorted) && k.calls == old(k.calls) + |sorted|
    ensures old(k.calls) <= k.calls <= old(k.calls) + |sorted|
    ensures SameBut(k.sets, old(k.sets), {tmp}) && tmp in k.sets
    ensures NoDuplicates(sorted) && (forall c :: old(k.calls) <= c ==> !k.faults(c)) ==> ok
  {
    for i := 0 to |sorted|
      invariant tmp in k.sets && k.sets[tmp] == Elements(sorted[..i])
      invariant Live(k.sets, setName) == Live(old(k.sets), setName)
      invariant k.calls == old(k.calls) + i
      invariant SameBut(k.sets, old(k.sets), {tmp})
      invariant old(k.moments) <= k.moments
      invariant Untouched(k.moments, |old(k.moments)|, setName, Live(old(k.sets), setName))
    {
      assert sorted[..i + 1] == sorted[..i] + [sorted[i]];
      ok := k.Run(Add(tmp, sorted[i]));
      if !ok {
        assert !k.faults(k.calls - 1) ==> exists j :: 0 <= j < i && sorted[j] == sorted[i];
        return;
      }
    }
    assert sorted[..|sorted|] == sorted;
    ok := true;
  }

  ghost predicate Untouched(moments: seq<Sets>, from: nat, n: string, before: set<string>) {
    from <= |moments| && forall i :: from <= i < |moments| ==> Live(moments[i], n) == before
  }

  // ----- remembering what was applied

  /** The syncer's memory (the fingerprint of a list stands for the list) and the live set. */
  datatype SyncState = SyncState(applied: Option<seq<string>>, live: set<string>)

  datatype Outcome = Done | FailedBefore | FailedAfterSwap

  class Syncer {
    const setName: string
    var applied: Option<seq<string>>

    constructor (setName: string)
      ensures this.setName == setName && applied == None
    {
      this.setName, applied := setName, None;
    }

    ghost function St(k: Kernel): SyncState
      reads this, k
    {
      SyncState(applied, Live(k.sets, setName))
    }

    method Sync(k: Kernel, cidrs: seq<string>, parses: string -> bool) returns (ok: bool)
      modifies this, k
      ensures var list := NormaliseOf(cidrs, parses);
        var o := if ok then Done else if BehindSwap(k, old(k.calls), |list|) then FailedAfterSwap else FailedBefore;
        (St(k), ok) == Synced(old(St(k)), list, o)
    {
      var list := Normalise(cidrs, parses);
      assert Elements(list) == UsableSet(cidrs, parses);
      if applied == Some(list) {
        return true;
      }
      ok := ApplyWithIpset(k, setName, list);
      if !ok { return; }
      applied := Some(list);
    }
  }

  ghost function Synced(s: SyncState, list: seq<string>, o: Outcome): (SyncState, bool) {
    if s.applied == Some(list) then (s, true)
    else match o
      case Done => (SyncState(Some(list), Elements(list)), true)
      case FailedBefore => (s, false)
      case FailedAfterSwap => (s.(live := Elements(list)), false)
  }

  /** What is remembered as applied is what is live. */
  ghost predicate Honest(s: SyncState) {
    s.applied.Some? ==> s.live == Elements(s.applied.value)
  }

  /** The memory goes wrong exactly when a different list was swapped in before the failure. */
  lemma HonestyKeptIff(s: SyncState, list: seq<string>, o: Outcome)
    requires Honest(s)
    ensures Honest(Synced(s, list, o).0) <==>
      !(o == FailedAfterSwap && s.applied.Some? && Elements(s.applied.value) != Elements(list))
  {
  }

  ghost function SyncRun(s: SyncState, lists: seq<seq<string>>, os: seq<Outcome>): SyncState
    requires |lists| == |os|
  {
    if lists == [] then s
    else Synced(SyncRun(s, lists[..|lists| - 1], os[..|os| - 1]), lists[|lists| - 1], os[|os| - 1]).0
  }

  /** The list whose sync last took effect and was remembered. */
  function LastRemembered(lists: seq<seq<string>>, os: seq<Outcome>): Option<seq<string>>
    requires |lists| == |os|
  {
    if lists == [] then None
    else if os[|os| - 1] == Done then Some(lists[|lists| - 1])
    else LastRemembered(lists[..|lists| - 1], os[..|os| - 1])
  }

  /** The list that was last swapped in, by a sync that did not find it remembered. */
  function LastSwapped(lists: seq<seq<string>>, os: seq<Outcome>): (last: Option<seq<string>>)
    requires |lists| == |os|
    ensures LastRemembered(lists, os).Some? ==> last.Some?
  {
    if lists == [] then None
    else
      var (front, before) := (lists[..|lists| - 1], os[..|os| - 1]);
      var list := lists[|lists| - 1];
      if os[|os| - 1] == FailedBefore || LastRemembered(front, before) == Some(list) then LastSwapped(front, before)
      else Some(list)
  }

  /** After any series from a fresh syncer the memory holds the last list remembered, and
      the live set the last list swapped in. */
  lemma {:induction false} SeriesEffect(s: SyncState, lists: seq<seq<string>>, os: seq<Outcome>)
    requires |lists| == |os| && s.applied == None
    ensures SyncRun(s, lists, os).applied == LastRemembered(lists, os)
    ensures SyncRun(s, lists, os).live ==
      match LastSwapped(lists, os) case Some(list) => Elements(list) case None => s.live
  {
    if lists != [] { SeriesEffect(s, lists[..|lists| - 1], os[..|os| - 1]); }
  }

  /** Over every series of syncs of a fresh syncer, with failures anywhere: a sync that then
      reports success leaves exactly its list live if and only if that list was not the one
      last remembered, or the list last swapped in has the same members. */
  lemma SuccessMeansLiveIff(s: SyncState, lists: seq<seq<string>>, os: seq<Outcome>, list: seq<string>, o: Outcome)
    requires |lists| == |os| && s.applied == None && Synced(SyncRun(s, lists, os), list, o).1
    ensures Synced(SyncRun(s, lists, os), list, o).0.live == Elements(list) <==>
      LastRemembered(lists, os) != Some(list) || Elements(LastSwapped(lists, os).value) == Elements(list)
  {
    SeriesEffect(s, lists, os);
  }

  /** Without a failure behind a swap, what is remembered is what was swapped in last, so
      every success leaves its list live. */
  lemma {:induction false} NoLateFailureMeansHonest(s: SyncState, lists: seq<seq<string>>, os: seq<Outcome>)
    requires |lists| == |os| && s.applied == None && FailedAfterSwap !in os
    ensures LastSwapped(lists, os) == LastRemembered(lists, os) && Honest(SyncRun(s, lists, os))
  {
    SeriesEffect(s, lists, os);
    if lists != [] {
      NoLateFailureMeansHonest(s, lists[..|lists| - 1], os[..|os| - 1]);
      assert os[|os| - 1] in os;
    }
  }

  /** A profile that is published, replaced while the clean-up fails, and published again
      stays replaced although the sync reports success; publishing a third one repairs it. */
  lemma StaleAfterLateFailure(s: SyncState, a: seq<string>, b: seq<string>, c: seq<string>, o: Outcome)
    requires s.applied == None && Elements(a) != Elements(b) && a != c
    ensures var t := Synced(Synced(s, a, Done).0, b, FailedAfterSwap).0;
      && Synced(t, a, o).1 && Synced(t, a, o).0.live == Elements(b)
      && Synced(Synced(t, c, Done).0, a, Done).0.live == Elements(a)
  {
  }
}
