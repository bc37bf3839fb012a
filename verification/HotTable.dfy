/** The open-addressing table of dispatch counts (ng_generated_smoke_note_dispatch). */
module HotTable {
  import opened Machine

  const HOT_SLOTS := 32768

  /** ng_generated_smoke_hot_slot: masking by a power of two less one is a remainder.
      Nothing below depends on which hash it is. */
  function HotSlot(addr: u32): (slot: nat)
    ensures slot < HOT_SLOTS
  {
    var a := (addr % 0x100_0000) as bv32;
    ((a ^ (a >> 12)) as int * 2654435761) % HOT_SLOTS
  }

  /** Slot number p of the probe sequence from h. */
  function Probe(h: nat, p: nat, size: nat): (i: nat)
    requires h < size && p < size
    ensures i < size
  {
    if h + p < size then h + p else h + p - size
  }

  /** How many probes from h reach slot i. */
  function Distance(h: nat, i: nat, size: nat): (p: nat)
    requires h < size && i < size
    ensures p < size && Probe(h, p, size) == i
  {
    if i >= h then i - h else i + size - h
  }

  lemma ProbeIsInjective(h: nat, p: nat, q: nat, size: nat)
    requires h < size && p < size && q < size && Probe(h, p, size) == Probe(h, q, size)
    ensures p == q
  {
  }

  type Hash = u32 -> nat

  /** The table as a value: hot_addr, hot_count, unique_dispatch_count, hot_overflow,
      with the addresses that have a slot and the dispatches the table stands for. */
  datatype View = View(addrs: seq<u32>, counts: seq<nat>, unique: nat, overflow: bool,
                       keys: set<u32>, noted: multiset<u32>)
  {
    predicate Occupied(i: nat)
      requires i < |counts|
    {
      counts[i] != 0
    }
  }

  ghost predicate Sized(hash: Hash, v: View) {
    |v.addrs| > 0 && |v.counts| == |v.addrs| && forall a :: hash(a) < |v.addrs|
  }

  /** Slot i is reached from the hash of its address through occupied slots. */
  predicate Placed(v: View, h: nat, i: nat)
    requires h < |v.addrs| && i < |v.addrs| == |v.counts|
  {
    forall p :: 0 <= p < Distance(h, i, |v.addrs|) ==> v.Occupied(Probe(h, p, |v.addrs|))
  }

  predicate HasSlot(v: View, a: u32)
    requires |v.addrs| == |v.counts|
  {
    exists i :: 0 <= i < |v.addrs| && v.Occupied(i) && v.addrs[i] == a
  }

  ghost predicate AllPlaced(hash: Hash, v: View)
    requires Sized(hash, v)
  {
    forall i :: 0 <= i < |v.addrs| && v.Occupied(i) ==> Placed(v, hash(v.addrs[i]), i)
  }

  /** Distinct addresses, each with its exact count, and each known address once. */
  ghost predicate Counted(hash: Hash, v: View)
    requires Sized(hash, v)
  {
    && (forall i :: 0 <= i < |v.addrs| && v.Occupied(i) ==> v.addrs[i] in v.keys && v.counts[i] == v.noted[v.addrs[i]])
    && (forall i, j :: 0 <= i < j < |v.addrs| && v.Occupied(i) && v.Occupied(j) ==> v.addrs[i] != v.addrs[j])
    && (forall a :: a in v.keys ==> HasSlot(v, a))
  }

  predicate HasFree(v: View)
    requires |v.addrs| == |v.counts|
  {
    exists i :: 0 <= i < |v.addrs| && !v.Occupied(i)
  }

  ghost predicate Good(hash: Hash, v: View) {
    && Sized(hash, v) && AllPlaced(hash, v) && Counted(hash, v)
    && v.unique == |v.keys|
    && (forall a :: a in v.noted && a !in v.keys ==> v.overflow)
    && (v.overflow ==> !HasFree(v))
  }

  /** The first p slots of the probe sequence for `to` are taken by others. */
  ghost predicate PassedOver(hash: Hash, v: View, to: u32, p: nat)
    requires Sized(hash, v) && p <= |v.addrs|
  {
    forall q :: 0 <= q < p ==> var i := Probe(hash(to), q, |v.addrs|); v.Occupied(i) && v.addrs[i] != to
  }

  lemma KeyHasSlot(hash: Hash, v: View, a: u32)
    requires Good(hash, v) && a in v.keys
    ensures HasSlot(v, a)
  {
  }

  /** An address that has a slot is met before any free slot. */
  lemma MetBeforeFree(hash: Hash, v: View, to: u32, p: nat)
    requires Good(hash, v) && p < |v.addrs| && PassedOver(hash, v, to, p) && to in v.keys
    ensures v.Occupied(Probe(hash(to), p, |v.addrs|))
  {
    KeyHasSlot(hash, v, to);
    var i :| 0 <= i < |v.addrs| && v.Occupied(i) && v.addrs[i] == to;
    assert Placed(v, hash(to), i);
    assert Distance(hash(to), i, |v.addrs|) >= p;
  }

  /** A probe that has gone all the way round has been everywhere. */
  lemma WentRound(hash: Hash, v: View, to: u32)
    requires Good(hash, v) && PassedOver(hash, v, to, |v.addrs|)
    ensures to !in v.keys && !HasFree(v)
  {
    forall i | 0 <= i < |v.addrs| ensures v.Occupied(i) && v.addrs[i] != to {
      assert Probe(hash(to), Distance(hash(to), i, |v.addrs|), |v.addrs|) == i;
    }
    if to in v.keys {
      KeyHasSlot(hash, v, to);
    }
  }

  lemma PassOne(hash: Hash, v: View, to: u32, p: nat)
    requires Sized(hash, v) && p < |v.addrs| && PassedOver(hash, v, to, p)
    requires var i := Probe(hash(to), p, |v.addrs|); v.Occupied(i) && v.addrs[i] != to
    ensures PassedOver(hash, v, to, p + 1)
  {
  }

  /** The slot of an address dispatched before. */
  function CountAgain(v: View, i: nat): View
    requires i < |v.addrs| == |v.counts|
  {
    v.(counts := v.counts[i := v.counts[i] + 1], noted := v.noted + multiset{v.addrs[i]})
  }

  lemma CountAgainKeeps(hash: Hash, v: View, i: nat)
    requires Good(hash, v) && i < |v.addrs| && v.Occupied(i)
    ensures v.addrs[i] in v.keys && Good(hash, CountAgain(v, i))
  {
    hide Placed, HasSlot, Counted;
    var w := CountAgain(v, i);
    SameSlots(hash, v, w);
    CountAgainCounted(hash, v, i);
    assert forall a :: a in w.noted && a !in w.keys ==> a in v.noted;
    assert forall j :: 0 <= j < |v.addrs| ==> w.Occupied(j) == v.Occupied(j);
  }

  lemma CountAgainCounted(hash: Hash, v: View, i: nat)
    requires Sized(hash, v) && Counted(hash, v) && i < |v.addrs| && v.Occupied(i)
    requires forall a :: HasSlot(v, a) ==> HasSlot(CountAgain(v, i), a)
    ensures v.addrs[i] in v.keys && Counted(hash, CountAgain(v, i))
  {
    hide HasSlot;
    var w := CountAgain(v, i);
    assert forall j :: 0 <= j < |v.addrs| ==> w.Occupied(j) == v.Occupied(j);
    assert forall j :: 0 <= j < |v.addrs| && v.Occupied(j) && j != i ==> v.addrs[j] != v.addrs[i];
  }

  /** Filling slots keeps every address where it can be reached. */
  lemma SameSlots(hash: Hash, v: View, w: View)
    requires Sized(hash, v) && AllPlaced(hash, v) && |w.counts| == |w.addrs| == |v.addrs|
    requires forall i :: 0 <= i < |v.addrs| && v.Occupied(i) ==> w.Occupied(i) && w.addrs[i] == v.addrs[i]
    ensures forall i :: 0 <= i < |v.addrs| && v.Occupied(i) ==> Placed(w, hash(w.addrs[i]), i)
    ensures forall a :: HasSlot(v, a) ==> HasSlot(w, a)
  {
    forall i | 0 <= i < |v.addrs| && v.Occupied(i) ensures Placed(w, hash(w.addrs[i]), i) {
      assert Placed(v, hash(v.addrs[i]), i);
    }
    forall a | HasSlot(v, a) ensures HasSlot(w, a) {
      var i :| 0 <= i < |v.addrs| && v.Occupied(i) && v.addrs[i] == a;
      assert w.Occupied(i) && w.addrs[i] == a;
    }
  }

  /** The first free slot of the probe sequence goes to a new address. */
  function TakeSlot(v: View, to: u32, i: nat): View
    requires i < |v.addrs| == |v.counts|
  {
    v.(addrs := v.addrs[i := to], counts := v.counts[i := 1], unique := v.unique + 1,
       keys := v.keys + {to}, noted := v.noted + multiset{to})
  }

  lemma TakeSlotKeeps(hash: Hash, v: View, to: u32, p: nat)
    requires Good(hash, v) && p < |v.addrs| && PassedOver(hash, v, to, p)
    requires !v.Occupied(Probe(hash(to), p, |v.addrs|))
    ensures to !in v.keys && HasFree(v) && Good(hash, TakeSlot(v, to, Probe(hash(to), p, |v.addrs|)))
  {
    hide Placed, HasSlot, Counted, PassedOver;
    var i := Probe(hash(to), p, |v.addrs|);
    var w := TakeSlot(v, to, i);
    if to in v.keys {
      MetBeforeFree(hash, v, to, p);
    }
    assert HasFree(v) && !v.overflow;
    assert to !in v.noted;
    assert forall j :: 0 <= j < |v.addrs| && j != i ==> w.Occupied(j) == v.Occupied(j) && w.addrs[j] == v.addrs[j];
    SameSlots(hash, v, w);
    TakenIsPlaced(hash, v, to, p);
    TakenIsCounted(hash, v, to, i);
    assert w.unique == |w.keys|;
  }

  lemma TakenIsPlaced(hash: Hash, v: View, to: u32, p: nat)
    requires Sized(hash, v) && p < |v.addrs| && PassedOver(hash, v, to, p)
    ensures var i := Probe(hash(to), p, |v.addrs|); Placed(TakeSlot(v, to, i), hash(to), i)
  {
    var i := Probe(hash(to), p, |v.addrs|);
    ProbeIsInjective(hash(to), p, Distance(hash(to), i, |v.addrs|), |v.addrs|);
  }

  lemma TakenIsCounted(hash: Hash, v: View, to: u32, i: nat)
    requires Sized(hash, v) && Counted(hash, v) && i < |v.addrs| && !v.Occupied(i)
    requires to !in v.keys && to !in v.noted
    ensures Counted(hash, TakeSlot(v, to, i))
  {
    var w := TakeSlot(v, to, i);
    assert forall j :: 0 <= j < |v.addrs| && j != i ==> w.Occupied(j) == v.Occupied(j) && w.addrs[j] == v.addrs[j];
    assert w.Occupied(i) && w.addrs[i] == to;
    forall a | a in w.keys ensures HasSlot(w, a) {
      if a != to {
        assert HasSlot(v, a);
        var j :| 0 <= j < |v.addrs| && v.Occupied(j) && v.addrs[j] == a;
        assert w.Occupied(j);
      }
    }
  }

  /** A new address when every slot is taken is counted nowhere. */
  lemma OverflowKeeps(hash: Hash, v: View, to: u32)
    requires Good(hash, v) && PassedOver(hash, v, to, |v.addrs|)
    ensures to !in v.keys && !HasFree(v)
    ensures Good(hash, v.(overflow := true, noted := v.noted + multiset{to}))
  {
    hide Placed, HasSlot, PassedOver;
    WentRound(hash, v, to);
    var w := v.(overflow := true, noted := v.noted + multiset{to});
    assert forall i :: 0 <= i < |v.addrs| ==> w.Occupied(i) == v.Occupied(i);
    SameSlots(hash, v, w);
  }

  predicate Holds(v: View, i: nat, a: u32)
    requires i < |v.addrs| == |v.counts|
  {
    v.Occupied(i) && v.addrs[i] == a
  }

  /** While nothing has overflowed the table is the multiset: the addresses with a
      slot are those dispatched, each in one slot, with its number of dispatches. */
  lemma TableIsMultiset(hash: Hash, v: View, a: u32)
    requires Good(hash, v) && !v.overflow
    ensures a in v.noted <==> HasSlot(v, a)
    ensures forall i, j :: 0 <= i < |v.addrs| && 0 <= j < |v.addrs| && Holds(v, i, a) && Holds(v, j, a) ==>
              i == j && v.counts[i] == v.noted[a]
    ensures v.unique == |v.keys| && (a in v.keys <==> a in v.noted)
  {
    if a in v.keys {
      assert HasSlot(v, a);
    }
  }

  /** Overflow means the table is full: every slot taken, by as many addresses. */
  lemma OverflowMeansFull(hash: Hash, v: View)
    requires Good(hash, v) && v.overflow
    ensures v.unique == |v.addrs|
  {
    var n := |v.addrs|;
    AllDistinct(hash, v);
    SlotCount(v.addrs, n);
    forall a ensures a in v.keys <==> a in SlotSet(v.addrs, n) {
      InSlotSet(v.addrs, n, a);
      if a in v.keys {
        KeyHasSlot(hash, v, a);
      }
    }
    assert v.keys == SlotSet(v.addrs, n);
  }

  lemma AllDistinct(hash: Hash, v: View)
    requires Good(hash, v) && !HasFree(v)
    ensures forall i, j :: 0 <= i < j < |v.addrs| ==> v.addrs[i] != v.addrs[j]
    ensures forall i :: 0 <= i < |v.addrs| ==> v.addrs[i] in v.keys
  {
    assert forall i :: 0 <= i < |v.addrs| ==> v.Occupied(i);
  }

  function SlotSet(addrs: seq<u32>, n: nat): set<u32>
    requires n <= |addrs|
  {
    if n == 0 then {} else SlotSet(addrs, n - 1) + {addrs[n - 1]}
  }

  lemma {:induction false} InSlotSet(addrs: seq<u32>, n: nat, a: u32)
    requires n <= |addrs|
    ensures a in SlotSet(addrs, n) <==> exists i :: 0 <= i < n && addrs[i] == a
  {
    if n > 0 {
      InSlotSet(addrs, n - 1, a);
      assert addrs[n - 1] == addrs[n - 1];
    }
  }

  lemma {:induction false} SlotCount(addrs: seq<u32>, n: nat)
    requires n <= |addrs| && forall i, j :: 0 <= i < j < |addrs| ==> addrs[i] != addrs[j]
    ensures |SlotSet(addrs, n)| == n
  {
    if n > 0 {
      SlotCount(addrs, n - 1);
      InSlotSet(addrs, n - 1, addrs[n - 1]);
    }
  }

  // ---------------------------------------------------------------- the arrays

  class Table {
    const hash: Hash
    const addrs: array<u32>
    const counts: array<nat>
    var unique: nat
    var overflow: bool
    ghost var noted: multiset<u32>
    ghost var keys: set<u32>

    constructor ()
      ensures Valid() && fresh(addrs) && fresh(counts) && noted == multiset{} && keys == {} && !overflow
      ensures addrs.Length == HOT_SLOTS && hash == HotSlot
    {
      hash := HotSlot;
      addrs := new u32[HOT_SLOTS](_ => 0);
      counts := new nat[HOT_SLOTS](_ => 0);
      unique, overflow, noted, keys := 0, false, multiset{}, {};
      new;
      hide Good;
      assert forall i :: 0 <= i < HOT_SLOTS ==> counts[..][i] == 0;
      EmptyIsGood(HotSlot, addrs[..], counts[..]);
    }

    ghost function Contents(): View
      reads this, addrs, counts
    {
      View(addrs[..], counts[..], unique, overflow, keys, noted)
    }

    ghost predicate Valid()
      reads this, addrs, counts
    {
      Good(hash, Contents())
    }

    /** Count a dispatch: one more of `to` in the multiset, and a slot for it unless
        every slot is taken by another address, which sets overflow. */
    method NoteDispatch(to: u32)
      requires Valid()
      modifies this`unique, this`overflow, this`noted, this`keys, addrs, counts
      ensures Valid()
      ensures noted == old(noted) + multiset{to}
      ensures if to in old(keys) || old(HasFree(Contents())) then keys == old(keys) + {to} && overflow == old(overflow)
              else keys == old(keys) && overflow
    {
      hide Good, HasFree, AllPlaced, Counted, PassedOver, Probe;
      ghost var v := Contents();
      assert Sized(hash, v) && PassedOver(hash, v, to, 0) by { IsSized(hash, v, to); }
      var slot := hash(to);
      for probe := 0 to addrs.Length
        invariant Contents() == v && PassedOver(hash, v, to, probe)
      {
        var idx := Probe(slot, probe, addrs.Length);
        if counts[idx] == 0 {
          TakeSlotKeeps(hash, v, to, probe);
          addrs[idx], counts[idx] := to, 1;
          unique, keys, noted := unique + 1, keys + {to}, noted + multiset{to};
          assert Contents() == TakeSlot(v, to, idx);
          return;
        }
        if addrs[idx] == to {
          CountAgainKeeps(hash, v, idx);
          counts[idx] := counts[idx] + 1;
          noted := noted + multiset{to};
          assert Contents() == CountAgain(v, idx);
          assert keys + {to} == keys;
          return;
        }
        PassOne(hash, v, to, probe);
      }
      OverflowKeeps(hash, v, to);
      noted, overflow := noted + multiset{to}, true;
      assert Contents() == v.(overflow := true, noted := v.noted + multiset{to});
    }
  }

  lemma EmptyIsGood(hash: Hash, addrs: seq<u32>, counts: seq<nat>)
    requires Sized(hash, View(addrs, counts, 0, false, {}, multiset{}))
    requires forall i :: 0 <= i < |counts| ==> counts[i] == 0
    ensures Good(hash, View(addrs, counts, 0, false, {}, multiset{}))
  {
    assert forall i :: 0 <= i < |counts| ==> !View(addrs, counts, 0, false, {}, multiset{}).Occupied(i);
  }

  lemma IsSized(hash: Hash, v: View, to: u32)
    requires Good(hash, v)
    ensures Sized(hash, v) && PassedOver(hash, v, to, 0)
  {
  }
}
