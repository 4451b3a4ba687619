/** Registering two lists of probes, all or nothing, and taking them out again. */
module Probes {
  import opened Options
  import opened Sequences

  type Probe = nat

  /** An entry of a probe array; `None` is a NULL pointer. */
  type Slot = Option<Probe>

  predicate Distinct(slots: seq<Slot>) {
    forall i, j :: 0 <= i < j < |slots| && slots[i].Some? ==> slots[i] != slots[j]
  }

  predicate NoNull(slots: seq<Slot>) { forall i :: 0 <= i < |slots| ==> slots[i].Some? }

  /** The probes of a list, as a set; in array order; and in the reverse order. */
  function All(slots: seq<Slot>): set<Probe> { set s <- slots | s.Some? :: s.value }

  /** The entries whose probe has an address. */
  function WithAddr(slots: seq<Slot>, addr: map<Probe, nat>): (r: seq<Slot>)
    ensures |r| == |slots|
  {
    seq(|slots|, i requires 0 <= i < |slots| =>
      if slots[i].Some? && slots[i].value in addr && addr[slots[i].value] != 0 then slots[i] else None)
  }

  function Forward(slots: seq<Slot>): seq<Probe> {
    if slots == [] then [] else Forward(slots[..|slots| - 1]) + Entry(slots[|slots| - 1])
  }

  function Backward(slots: seq<Slot>, from: nat, end: nat): seq<Probe>
    requires end <= |slots|
    decreases end - from
  {
    if from >= end then [] else Backward(slots, from + 1, end) + Entry(slots[from])
  }

  predicate NullIn(slots: seq<Slot>, from: nat, end: nat)
    requires end <= |slots|
  {
    exists k :: from <= k < end && slots[k] == None
  }

  function Entry(s: Slot): seq<Probe> { if s.Some? then [s.value] else [] }

  /** Where registration of the list stops: at the first probe the kernel turns down. */
  function Stop(slots: seq<Slot>, refuses: set<Probe>): (n: nat)
    ensures n <= |slots|
    ensures n < |slots| ==> slots[n].Some? && slots[n].value in refuses
    ensures forall i :: 0 <= i < n && slots[i].Some? ==> slots[i].value !in refuses
  {
    if slots == [] || (slots[0].Some? && slots[0].value in refuses) then 0 else 1 + Stop(slots[1..], refuses)
  }

  lemma StopIsUnique(slots: seq<Slot>, refuses: set<Probe>, n: nat)
    requires n <= |slots| && (n < |slots| ==> slots[n].Some? && slots[n].value in refuses)
    requires forall i :: 0 <= i < n && slots[i].Some? ==> slots[i].value !in refuses
    ensures n == Stop(slots, refuses)
  {
  }

  /** All probes of the list are accepted. */
  predicate Accepted(slots: seq<Slot>, refuses: set<Probe>) { All(slots) !! refuses }

  lemma AcceptedMeansNoStop(slots: seq<Slot>, refuses: set<Probe>)
    ensures Accepted(slots, refuses) <==> Stop(slots, refuses) == |slots|
  {
    var n := Stop(slots, refuses);
    if n < |slots| {
      assert slots[n] in slots && slots[n].value in All(slots) * refuses;
    }
  }

  /** Undoing a stopped registration meets a NULL. */
  predicate NullBeforeStop(slots: seq<Slot>, refuses: set<Probe>) {
    var n := Stop(slots, refuses);
    n < |slots| && NullIn(slots, 0, n)
  }

  /** All NULL entries of a list are at its end. */
  predicate NullsLast(slots: seq<Slot>) {
    forall i, j :: 0 <= i < j < |slots| && slots[j].Some? ==> slots[i].Some?
  }

  lemma TrailingNullsAreSafe(slots: seq<Slot>, refuses: set<Probe>)
    requires NullsLast(slots)
    ensures !NullBeforeStop(slots, refuses)
  {
  }

  /** A NULL before some probe is met as soon as that probe alone is turned down. */
  lemma InnerNullIsUnsafe(slots: seq<Slot>, i: nat, j: nat)
    requires i < j < |slots| && slots[i].None? && slots[j].Some? && Distinct(slots)
    ensures NullBeforeStop(slots, {slots[j].value})
  {
    StopIsUnique(slots, {slots[j].value}, j);
    assert slots[i] == None;
  }

  /** A list is undone safely, whatever the kernel turns down, exactly when its NULL entries are all at the end. */
  lemma SafeExactlyWhenNullsLast(slots: seq<Slot>)
    requires Distinct(slots)
    ensures NullsLast(slots) <==> forall refuses :: !NullBeforeStop(slots, refuses)
  {
    if NullsLast(slots) {
      forall refuses ensures !NullBeforeStop(slots, refuses) { TrailingNullsAreSafe(slots, refuses); }
    } else {
      var i, j :| 0 <= i < j < |slots| && slots[j].Some? && slots[i].None?;
      InnerNullIsUnsafe(slots, i, j);
    }
  }

  lemma AllOfNone()
    ensures All([]) == {}
  {
  }

  lemma AllAppend(slots: seq<Slot>, i: nat)
    requires i < |slots|
    ensures All(slots[..i + 1]) == All(slots[..i]) + All([slots[i]])
    ensures All([slots[i]]) == if slots[i].Some? then {slots[i].value} else {}
  {
    assert slots[..i + 1] == slots[..i] + [slots[i]];
    if slots[i].Some? { assert slots[i] in [slots[i]]; }
  }

  /** Taking entry j out of what is registered up to there. */
  lemma TakeOut(slots: seq<Slot>, j: nat, before: set<Probe>)
    requires j < |slots| && Distinct(slots) && All(slots) !! before
    ensures var live := before + All(slots[..j + 1]);
            match slots[j]
            case None => live == before + All(slots[..j])
            case Some(p) => p in live && live - {p} == before + All(slots[..j])
  {
    AllAppend(slots, j);
    assert slots[j] in slots;
  }

  /** The kernel's side: what is registered, the address each probe was given, every probe unregistered so far. */
  class Kernel {
    const refuses: set<Probe>
    const resolves: set<Probe>
    var live: set<Probe>
    var addr: map<Probe, nat>
    var gone: seq<Probe>
    var faulted: bool

    ghost predicate HasAddr(slots: seq<Slot>)
      reads this
    {
      forall p <- All(slots) :: p in addr && addr[p] != 0
    }

    lemma HaveAddr(slots: seq<Slot>)
      requires HasAddr(slots)
      ensures WithAddr(slots, addr) == slots
    {
      forall i | 0 <= i < |slots| ensures WithAddr(slots, addr)[i] == slots[i] {
        if slots[i].Some? { assert slots[i] in slots && slots[i].value in All(slots); }
      }
    }

    /** A probe that is turned down may have been given its address all the same. */
    method Register(p: Probe) returns (ret: int)
      modifies this`live, this`addr
      ensures ret != 0 <==> p in refuses
      ensures live == if p in refuses then old(live) else old(live) + {p}
      ensures addr == if p in refuses && p !in resolves then old(addr) else old(addr)[p := 1 + p]
    {
      if p !in refuses || p in resolves {
        addr := addr[p := 1 + p];
      }
      if p in refuses { return -22; }
      live := live + {p};
      ret := 0;
    }

    /** Passing NULL, or a probe that is not registered, is a fault. */
    method Unregister(s: Slot)
      modifies this`live, this`gone, this`faulted
      ensures if s.Some? && s.value in old(live)
              then live == old(live) - {s.value} && gone == old(gone) + [s.value] && faulted == old(faulted)
              else live == old(live) && gone == old(gone) && faulted
    {
      if s.Some? && s.value in live {
        live, gone := live - {s.value}, gone + [s.value];
      } else {
        faulted := true;
      }
    }

    method Undo(slots: seq<Slot>, i: nat, ghost before: set<Probe>)
      requires i <= |slots| && Distinct(slots) && All(slots) !! before && live == before + All(slots[..i])
      modifies this`live, this`gone, this`faulted
      ensures live == before && gone == old(gone) + Backward(slots, 0, i)
      ensures faulted == (old(faulted) || NullIn(slots, 0, i))
    {
      var j := i as int - 1;
      while j >= 0
        invariant -1 <= j < i
        invariant live == before + All(slots[..j + 1])
        invariant gone == old(gone) + Backward(slots, j + 1, i)
        invariant faulted == (old(faulted) || NullIn(slots, j + 1, i))
        decreases j
      {
        TakeOut(slots, j, before);
        Unregister(slots[j]);
        j := j - 1;
      }
      AllOfNone();
    }

    /** Either the whole list is registered, or nothing of it is left and `ret` is 1. */
    method RegisterJprobeList(jps: seq<Slot>) returns (ret: int)
      requires Distinct(jps) && All(jps) !! live
      modifies this
      ensures ret == (if Accepted(jps, refuses) then 0 else 1)
      ensures Accepted(jps, refuses) ==> live == old(live) + All(jps) && gone == old(gone) && HasAddr(jps)
      ensures !Accepted(jps, refuses) ==> live == old(live) && gone == old(gone) + Backward(jps, 0, Stop(jps, refuses))
      ensures faulted == (old(faulted) || NullBeforeStop(jps, refuses))
      ensures forall p <- old(addr) :: p in addr && (old(addr)[p] != 0 ==> addr[p] != 0)
    {
      AcceptedMeansNoStop(jps, refuses);
      var i := 0;
      while i < |jps|
        invariant i <= Stop(jps, refuses)
        invariant live == old(live) + All(jps[..i]) && gone == old(gone) && faulted == old(faulted)
        invariant HasAddr(jps[..i])
        invariant forall p <- old(addr) :: p in addr && (old(addr)[p] != 0 ==> addr[p] != 0)
      {
        AllAppend(jps, i);
        if jps[i].None? {
          i := i + 1;
          continue;
        }
        var r := Register(jps[i].value);
        if r != 0 {
          Undo(jps, i, old(live));
          return 1;
        }
        i := i + 1;
      }
      assert jps[..i] == jps;
      return 0;
    }

    /** The same for the kprobes, whose array has no NULL entries. */
    method RegisterKprobeList(kps: seq<Slot>) returns (ret: int)
      requires Distinct(kps) && NoNull(kps) && All(kps) !! live
      modifies this
      ensures ret == (if Accepted(kps, refuses) then 0 else 1)
      ensures Accepted(kps, refuses) ==> live == old(live) + All(kps) && gone == old(gone) && HasAddr(kps)
      ensures !Accepted(kps, refuses) ==> live == old(live) && gone == old(gone) + Backward(kps, 0, Stop(kps, refuses))
      ensures faulted == old(faulted)
      ensures forall p <- old(addr) :: p in addr && (old(addr)[p] != 0 ==> addr[p] != 0)
    {
      AcceptedMeansNoStop(kps, refuses);
      var i := 0;
      while i < |kps|
        invariant i <= Stop(kps, refuses)
        invariant live == old(live) + All(kps[..i]) && gone == old(gone) && faulted == old(faulted)
        invariant HasAddr(kps[..i])
        invariant forall p <- old(addr) :: p in addr && (old(addr)[p] != 0 ==> addr[p] != 0)
      {
        AllAppend(kps, i);
        var r := Register(kps[i].value);
        if r != 0 {
          Undo(kps, i, old(live));
          return 1;
        }
        i := i + 1;
      }
      assert kps[..i] == kps;
      return 0;
    }

    /** Takes out the registered probes of a list that have an address, in array order, and skips the others. */
    method UnregisterList(slots: seq<Slot>, ghost before: set<Probe>)
      requires Distinct(slots) && All(slots) !! before && live == before + All(slots)
      modifies this`live, this`gone, this`faulted
      ensures live == before + (All(slots) - All(WithAddr(slots, addr)))
      ensures gone == old(gone) + Forward(WithAddr(slots, addr)) && faulted == old(faulted)
    {
      ghost var have := WithAddr(slots, addr);
      var i := 0;
      AllOfNone();
      while i < |slots|
        invariant i <= |slots|
        invariant live == before + (All(slots) - All(have[..i]))
        invariant gone == old(gone) + Forward(have[..i]) && faulted == old(faulted)
      {
        AllAppend(have, i);
        assert have[..i + 1][..i] == have[..i];
        if slots[i].Some? && slots[i].value in addr && addr[slots[i].value] != 0 {
          OnlyHere(slots, addr, i);
          Unregister(slots[i]);
        }
        i := i + 1;
      }
      assert have[..i] == have;
    }

    /** All or nothing over both lists. */
    method Init(jps: seq<Slot>, kps: seq<Slot>) returns (ret: int)
      requires Distinct(jps) && Distinct(kps) && NoNull(kps)
      requires All(jps) !! All(kps) && (All(jps) + All(kps)) !! live
      modifies this
      ensures ret == (if Accepted(jps, refuses) && Accepted(kps, refuses) then 0 else 1)
      ensures ret == 0 ==> live == old(live) + All(jps) + All(kps) && gone == old(gone) && HasAddr(jps) && HasAddr(kps)
      ensures ret != 0 ==> live == old(live)
      ensures ret != 0 ==>
                gone == old(gone) + if Accepted(jps, refuses) then Backward(kps, 0, Stop(kps, refuses)) + Forward(jps)
                                    else Backward(jps, 0, Stop(jps, refuses))
      ensures faulted == (old(faulted) || NullBeforeStop(jps, refuses))
    {
      ret := RegisterJprobeList(jps);
      AcceptedMeansNoStop(jps, refuses);
      if ret > 0 { return; }
      ret := RegisterKprobeList(kps);
      if ret > 0 {
        HaveAddr(jps);
        UnregisterList(jps, old(live));
        Assoc(old(gone), Backward(kps, 0, Stop(kps, refuses)), Forward(jps));
        return;
      }
      return 0;
    }

    /** After a successful start: every probe unregistered once, the kprobes first, and nothing else touched. */
    method Exit(jps: seq<Slot>, kps: seq<Slot>, ghost before: set<Probe>)
      requires Distinct(jps) && Distinct(kps) && NoNull(kps)
      requires All(jps) !! All(kps) && (All(jps) + All(kps)) !! before
      requires live == before + All(jps) + All(kps) && HasAddr(jps) && HasAddr(kps)
      modifies this
      ensures live == before && gone == old(gone) + Forward(kps) + Forward(jps) && faulted == old(faulted)
    {
      HaveAddr(kps);
      HaveAddr(jps);
      UnregisterList(kps, before + All(jps));
      UnregisterList(jps, before);
    }
  }

  /** A probe with an address is in the list, and not among the earlier entries with an address. */
  lemma OnlyHere(slots: seq<Slot>, addr: map<Probe, nat>, i: nat)
    requires i < |slots| && Distinct(slots) && WithAddr(slots, addr)[i].Some?
    ensures slots[i].value in All(slots) && slots[i].value !in All(WithAddr(slots, addr)[..i])
  {
    assert slots[i] in slots;
  }

  /** Array order lists each probe of the array exactly once. */
  lemma {:induction false} EachOnce(slots: seq<Slot>)
    requires Distinct(slots)
    ensures forall p :: multiset(Forward(slots))[p] == if p in All(slots) then 1 else 0
  {
    if slots != [] {
      var n := |slots| - 1;
      EachOnce(slots[..n]);
      AllAppend(slots, n);
      assert slots[..n + 1] == slots;
      assert slots[n].Some? ==> slots[n].value !in All(slots[..n]);
    } else {
      assert All(slots) == {};
    }
  }

  lemma {:induction false} ForwardAppend(a: seq<Slot>, b: seq<Slot>)
    ensures Forward(a + b) == Forward(a) + Forward(b)
  {
    if b == [] {
      assert a + b == a;
    } else {
      var n := |b| - 1;
      assert (a + b)[..|a + b| - 1] == a + b[..n];
      ForwardAppend(a, b[..n]);
      Assoc(Forward(a), Forward(b[..n]), Entry(b[n]));
    }
  }

  /** Array order: of two probes the one with the lower index goes first, and what stands between and around them
      are the probes between and around them. */
  lemma ForwardInOrder(slots: seq<Slot>, i: nat, j: nat)
    requires i < j < |slots| && slots[i].Some? && slots[j].Some?
    ensures Forward(slots) == Forward(slots[..i]) + ([slots[i].value] + (Forward(slots[i + 1..j])
                              + ([slots[j].value] + Forward(slots[j + 1..]))))
  {
    hide Forward;
    var a, b, c := slots[..i], slots[i + 1..j], slots[j + 1..];
    assert slots == a + ([slots[i]] + (b + ([slots[j]] + c)));
    ForwardOne(slots[i]);
    ForwardOne(slots[j]);
    ForwardAppend([slots[j]], c);
    ForwardAppend(b, [slots[j]] + c);
    ForwardAppend([slots[i]], b + ([slots[j]] + c));
    ForwardAppend(a, [slots[i]] + (b + ([slots[j]] + c)));
  }

  lemma ForwardOne(s: Slot)
    ensures Forward([s]) == if s.Some? then [s.value] else []
  {
    assert [s][..0] == [];
    assert Forward([s]) == Forward([]) + Entry(s);
  }

  function Reversed(ps: seq<Probe>): seq<Probe> { if ps == [] then [] else Reversed(ps[1..]) + [ps[0]] }

  lemma {:induction false} ReversedAt(ps: seq<Probe>, i: nat)
    requires i < |ps|
    ensures |Reversed(ps)| == |ps| && Reversed(ps)[i] == ps[|ps| - 1 - i]
  {
    if |ps| > 1 { ReversedAt(ps[1..], if i < |ps| - 1 then i else 0); }
  }

  lemma NoneAtAll()
    ensures Forward([]) == Reversed([]) == []
  {
  }

  lemma ReversedEntry(s: Slot, rest: seq<Probe>)
    ensures Reversed(Forward([s]) + rest) == Reversed(rest) + Entry(s)
  {
    ForwardOne(s);
    if s.Some? {
      assert ([s.value] + rest)[1..] == rest;
    } else {
      assert [] + rest == rest && Reversed(rest) + [] == Reversed(rest);
    }
  }

  lemma {:induction false} BackwardReverses(slots: seq<Slot>, from: nat, end: nat)
    requires from <= end <= |slots|
    ensures Backward(slots, from, end) == Reversed(Forward(slots[from..end]))
    decreases end - from
  {
    hide Forward, Reversed, Entry;
    if from == end {
      assert slots[from..end] == [];
      NoneAtAll();
    } else {
      BackwardReverses(slots, from + 1, end);
      var first, rest := [slots[from]], slots[from + 1..end];
      assert slots[from..end] == first + rest;
      ForwardAppend(first, rest);
      ReversedEntry(slots[from], Forward(rest));
    }
  }

  /** A rollback goes through what was registered in the opposite order. */
  lemma RollbackReverses(slots: seq<Slot>, end: nat, i: nat)
    requires end <= |slots| && i < |Forward(slots[..end])|
    ensures var there, back := Forward(slots[..end]), Backward(slots, 0, end);
            |back| == |there| && back[i] == there[|there| - 1 - i]
  {
    hide Forward, Backward, Reversed;
    assert slots[0..end] == slots[..end];
    BackwardReverses(slots, 0, end);
    ReversedAt(Forward(slots[..end]), i);
  }
}
