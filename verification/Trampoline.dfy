/** The budgeted trampoline of the host (tools/generated_smoke_harness.c): one pending
    dispatch at a time, counters, and a ring of the latest dispatches.  What a
    dispatched function does to the machine is a parameter. */
module Trampoline {
  import opened Machine
  import HotTable

  const RECENT := 256
  const SYSTEM_ROM_BYTES := 0x2_0000

  /** What one generated function does when called: the machine and g_ng_m68k.pc it
      leaves, and the dispatches it asks for while the trampoline is active. */
  datatype Effect<M> = Effect(m: M, pc: u24, requests: seq<u24>)

  /** The cartridge's and the system ROM's generated code.  Both begin by setting
      g_ng_m68k.pc to the address, so what they do does not depend on it. */
  datatype Code<!M> = Code(cart: (M, u24) -> Effect<M>, bios: (M, u24) -> Effect<M>)

  /** The counters of the host; `trace` is every address dispatched so far. */
  datatype Host<M> = Host(m: M, pc: u24, count: nat, cartCount: nat, biosCount: nat,
                          lastCart: u24, lastBios: u24, trace: seq<u24>)

  predicate IsBios(addr: u24) { 0xC0_0000 <= addr <= 0xCF_FFFF }

  /** The system ROM is mirrored over its megabyte. */
  function Unmirrored(addr: u24): u24
    requires IsBios(addr)
  {
    0xC0_0000 + (addr - 0xC0_0000) % SYSTEM_ROM_BYTES
  }

  function EffectOf<M>(code: Code<M>, m: M, addr: u24): Effect<M> {
    if IsBios(addr) then code.bios(m, Unmirrored(addr)) else code.cart(m, addr)
  }

  /** ng_generated_smoke_dispatch_one with the counters before it. */
  function StepOne<M>(code: Code<M>, h: Host<M>, addr: u24): Host<M> {
    var e := EffectOf(code, h.m, addr);
    if IsBios(addr) then
      h.(m := e.m, pc := e.pc, count := h.count + 1, biosCount := h.biosCount + 1, lastBios := Unmirrored(addr),
         trace := h.trace + [addr])
    else
      h.(m := e.m, pc := e.pc, count := h.count + 1, cartCount := h.cartCount + 1, lastCart := addr,
         trace := h.trace + [addr])
  }

  /** A later request overwrites an earlier one. */
  function Pending<M>(e: Effect<M>): Option<u24> {
    if e.requests == [] then None else Some(e.requests[|e.requests| - 1])
  }

  /** A finished run, or one stopped by its budget before an address. */
  datatype Outcome<M> = Finished(h: Host<M>) | Stopped(h: Host<M>, addr: u24)

  /** The loop of ng_generated_call under a budget. */
  function Run<M>(code: Code<M>, h: Host<M>, addr: u24, budget: nat): (r: Outcome<M>)
    decreases budget - h.count
  {
    if h.count >= budget then Stopped(h.(pc := addr), addr)
    else
      var h1 := StepOne(code, h, addr);
      match Pending(EffectOf(code, h.m, addr))
      case None => Finished(h1)
      case Some(next) => Run(code, h1, next, budget)
  }

  lemma RunUnfolds<M>(code: Code<M>, h: Host<M>, addr: u24, budget: nat)
    ensures h.count >= budget ==> Run(code, h, addr, budget) == Stopped(h.(pc := addr), addr)
    ensures h.count < budget ==>
              Run(code, h, addr, budget) == match Pending(EffectOf(code, h.m, addr))
                                            case None => Finished(StepOne(code, h, addr))
                                            case Some(next) => Run(code, StepOne(code, h, addr), next, budget)
  {
    hide StepOne, EffectOf, Pending;
  }

  /** A step counts one dispatch and adds it to the trace, whatever they were. */
  lemma StepForgets<M>(code: Code<M>, h: Host<M>, addr: u24, trace: seq<u24>)
    ensures var h1 := StepOne(code, h, addr);
            && h1.count == h.count + 1 && h1.trace == h.trace + [addr]
            && StepOne(code, h.(count := h.count + 1, trace := trace), addr).(count := h.count + 1, trace := trace)
               == h1.(trace := trace)
  {
    hide EffectOf;
  }

  // ---------------------------------------------------------------- budgets

  /** Slicing a run by a budget cannot be told from not slicing it: resumed at the pc
      it stopped with, it does what one run with the larger budget does. */
  lemma {:induction false} SlicingIsTransparent<M>(code: Code<M>, h: Host<M>, addr: u24, first: nat, second: nat)
    requires first <= second
    ensures match Run(code, h, addr, first)
            case Finished(h1) => Run(code, h, addr, second) == Finished(h1)
            case Stopped(h1, next) => h1.pc == next && Run(code, h1, h1.pc, second) == Run(code, h, addr, second)
    decreases first - h.count
  {
    if h.count >= first {
      PcIsSetFirst(code, h, addr, addr, second);
    } else {
      match Pending(EffectOf(code, h.m, addr))
      case None =>
      case Some(next) => SlicingIsTransparent(code, StepOne(code, h, addr), next, first, second);
    }
  }

  /** The pc a run starts with is forgotten: every step sets it, and so does a stop. */
  lemma PcIsSetFirst<M>(code: Code<M>, h: Host<M>, pc: u24, addr: u24, budget: nat)
    ensures Run(code, h.(pc := pc), addr, budget) == Run(code, h, addr, budget)
  {
    assert StepOne(code, h.(pc := pc), addr) == StepOne(code, h, addr);
  }

  /** A run adds to the trace, beginning with its address unless it is stopped at once. */
  lemma {:induction false} TraceGrows<M>(code: Code<M>, h: Host<M>, addr: u24, budget: nat)
    ensures h.trace <= Run(code, h, addr, budget).h.trace
    ensures h.count < budget ==> h.trace + [addr] <= Run(code, h, addr, budget).h.trace
    decreases budget - h.count
  {
    hide EffectOf, Pending;
    if h.count < budget {
      StepForgets(code, h, addr, []);
      match Pending(EffectOf(code, h.m, addr))
      case None =>
      case Some(next) => TraceGrows(code, StepOne(code, h, addr), next, budget);
    }
  }

  /** A run never goes over its budget, counts every dispatch once, and each counted
      dispatch is one of the two kinds. */
  lemma {:induction false} BudgetIsKept<M>(code: Code<M>, h: Host<M>, addr: u24, budget: nat)
    requires h.count <= budget
    ensures var h1 := Run(code, h, addr, budget).h;
            && h.count <= h1.count <= budget
            && h1.count - h.count == |h1.trace| - |h.trace| && h.trace <= h1.trace
            && h1.count - h.count == (h1.cartCount - h.cartCount) + (h1.biosCount - h.biosCount)
    ensures Run(code, h, addr, budget).Stopped? ==> Run(code, h, addr, budget).h.count == budget
    decreases budget - h.count
  {
    if h.count < budget {
      match Pending(EffectOf(code, h.m, addr))
      case None =>
      case Some(next) => BudgetIsKept(code, StepOne(code, h, addr), next, budget);
    }
  }

  /** Everything the steps of a run ask for, in order. */
  function Asked<M>(code: Code<M>, h: Host<M>, addr: u24, budget: nat): seq<u24>
    decreases budget - h.count
  {
    if h.count >= budget then []
    else
      var e := EffectOf(code, h.m, addr);
      e.requests + if Pending(e).None? then [] else Asked(code, StepOne(code, h, addr), Pending(e).value, budget)
  }

  /** Each function the run calls asks for at most one dispatch. */
  predicate AsksOnce<M>(code: Code<M>, h: Host<M>, addr: u24, budget: nat)
    decreases budget - h.count
  {
    h.count < budget ==>
      var e := EffectOf(code, h.m, addr);
      |e.requests| <= 1 && (e.requests != [] ==> AsksOnce(code, StepOne(code, h, addr), e.requests[0], budget))
  }

  /** The single pending slot loses nothing: the addresses asked for, after the first
      one, are exactly those dispatched and the one left over when the budget ends. */
  lemma {:induction false} NothingIsLost<M>(code: Code<M>, h: Host<M>, addr: u24, budget: nat)
    requires AsksOnce(code, h, addr, budget) && h.count <= budget
    ensures var r := Run(code, h, addr, budget);
            h.trace + ([addr] + Asked(code, h, addr, budget)) == r.h.trace + if r.Stopped? then [r.addr] else []
    decreases budget - h.count
  {
    hide StepOne, EffectOf;
    if h.count < budget {
      var e := EffectOf(code, h.m, addr);
      StepForgets(code, h, addr, []);
      var h1 := StepOne(code, h, addr);
      match Pending(e)
      case None =>
        assert Asked(code, h, addr, budget) == [];
      case Some(next) =>
        assert e.requests == [next];
        NothingIsLost(code, h1, next, budget);
        var rest := Asked(code, h1, next, budget);
        assert h.trace + ([addr] + ([next] + rest)) == (h.trace + [addr]) + ([next] + rest);
    }
  }

  // ---------------------------------------------------------------- the host's state

  /** The static variables of the harness, for a fixed program. */
  class Harness<M> {
    const code: Code<M>
    const hot: HotTable.Table
    var m: M
    var pc: u24
    var active: bool
    var pending: bool
    var addr: u24
    var budget: nat
    var count: nat
    var cartCount: nat
    var biosCount: nat
    var last: u24
    var lastCart: u24
    var lastBios: u24
    const recent: array<u24>
    var stopAddr: u24
    var budgetHit: bool
    ghost var trace: seq<u24>

    ghost predicate Valid()
      reads this`count, this`last, this`trace, recent, hot, hot.addrs, hot.counts
    {
      && hot.Valid() && recent.Length == RECENT
      && count == |trace| && (trace != [] ==> last == trace[|trace| - 1])
      && hot.noted == multiset(Widen(trace)) && Ring(recent[..], trace)
    }

    /** The counters after ng_generated_smoke_reset_dispatch_stats. */
    constructor (code: Code<M>, m: M, pc: u24, budget: nat)
      ensures Valid() && !active && !pending && !budgetHit
      ensures this.code == code && this.budget == budget && View() == Host(m, pc, 0, 0, 0, 0, 0, [])
      ensures fresh(recent) && fresh(hot) && fresh(hot.addrs) && fresh(hot.counts)
    {
      this.code, this.m, this.pc, this.budget := code, m, pc, budget;
      active, pending, addr, count, cartCount, biosCount := false, false, 0, 0, 0, 0;
      last, lastCart, lastBios, stopAddr, budgetHit, trace := 0, 0, 0, 0, false, [];
      recent := new u24[RECENT](_ => 0);
      hot := new HotTable.Table();
    }

    /** ng_generated_smoke_set_dispatch_budget */
    method SetBudget(max: nat)
      modifies this`budget, this`budgetHit
      ensures budget == max && !budgetHit
    {
      budget, budgetHit := max, false;
    }

    ghost function View(): Host<M>
      reads this
    {
      Host(m, pc, count, cartCount, biosCount, lastCart, lastBios, trace)
    }

    /** ng_generated_call while a dispatch is running. */
    method Request(to: u24)
      requires active
      modifies this`addr, this`pending
      ensures addr == to && pending
    {
      addr, pending := to, true;
    }

    /** ng_generated_smoke_dispatch_one */
    method DispatchOne(to: u24)
      requires active && Valid()
      modifies this`m, this`pc, this`cartCount, this`biosCount, this`lastCart, this`lastBios, this`addr, this`pending
      ensures Valid() && View() == StepOne(code, old(View()), to).(count := count, trace := trace)
      ensures match Pending(EffectOf(code, old(m), to))
              case None => addr == old(addr) && pending == old(pending)
              case Some(next) => addr == next && pending
    {
      hide EffectOf, Valid;
      var e := EffectOf(code, m, to);
      if IsBios(to) {
        biosCount, lastBios := biosCount + 1, Unmirrored(to);
      } else {
        cartCount, lastCart := cartCount + 1, to;
      }
      m, pc := e.m, e.pc;
      for i := 0 to |e.requests|
        invariant i == 0 ==> addr == old(addr) && pending == old(pending)
        invariant i > 0 ==> addr == e.requests[i - 1] && pending
        invariant Valid() && View() == StepOne(code, old(View()), to).(count := count, trace := trace)
      {
        Request(e.requests[i]);
      }
    }

    lemma CountIsLength()
      requires Valid()
      ensures count == |trace|
    {
    }

    /** Count a dispatch and remember it. */
    method Note(to: u24)
      requires Valid()
      modifies this`count, this`last, this`trace,
        recent, hot`unique, hot`overflow, hot`noted, hot`keys, hot.addrs, hot.counts
      ensures Valid() && count == old(count) + 1 && trace == old(trace) + [to]
    {
      hide Ring, Widen, HotTable.Good;
      RingTurns(recent[..], trace, to);
      WidenAppend(trace, to);
      count, last, trace := count + 1, to, trace + [to];
      recent[(count - 1) % RECENT] := last;
      hot.NoteDispatch(last);
    }

    /** One turn of the loop, within the budget. */
    method Turn(next: u24)
      requires Valid() && active && !pending
      modifies this`m, this`pc, this`pending, this`addr, this`count, this`cartCount, this`biosCount,
        this`last, this`lastCart, this`lastBios, this`trace,
        recent, hot`unique, hot`overflow, hot`noted, hot`keys, hot.addrs, hot.counts
      ensures Valid() && View() == StepOne(code, old(View()), next) && count == old(count) + 1
      ensures match Pending(EffectOf(code, old(m), next))
              case None => !pending
              case Some(to) => addr == to && pending
    {
      hide StepOne, EffectOf, Pending, Valid;
      StepForgets(code, View(), next, trace + [next]);
      CountIsLength();
      Note(next);
      DispatchOne(next);
    }

    /** ng_generated_call from outside.  A budget of zero is no budget: the run must
        then end by itself, after at most `bound` dispatches. */
    method Call(first: u24, ghost bound: nat) returns (ghost stopped: bool)
      requires Valid() && !active
      requires budget == 0 ==> Run(code, View(), first, bound).Finished?
      modifies this`m, this`pc, this`active, this`pending, this`addr, this`count, this`cartCount, this`biosCount,
        this`last, this`lastCart, this`lastBios, this`stopAddr, this`budgetHit, this`trace,
        recent, hot`unique, hot`overflow, hot`noted, hot`keys, hot.addrs, hot.counts
      ensures Valid() && !active
      ensures old(Run(code, View(), first, if budget != 0 then budget else bound))
              == if stopped then Stopped(View(), stopAddr) else Finished(View())
      ensures stopped ==> budget != 0 && budgetHit && pc == stopAddr
      ensures !stopped ==> budgetHit == old(budgetHit) && stopAddr == old(stopAddr)
    {
      hide Run, StepOne, EffectOf, Pending, Valid;
      ghost var limit := if budget != 0 then budget else bound;
      ghost var whole := Run(code, View(), first, limit);
      active, addr, pending := true, first, true;
      while pending
        invariant Valid() && active && budgetHit == old(budgetHit) && stopAddr == old(stopAddr)
        invariant if pending then Run(code, View(), addr, limit) == whole else whole == Finished(View())
        decreases limit - count, pending
      {
        var next := addr;
        pending := false;
        RunUnfolds(code, View(), next, limit);
        if budget != 0 && count >= budget {
          budgetHit, stopAddr := true, next;
          pc, active, stopped := stopAddr, false, true;
          return;
        }
        Turn(next);
      }
      active, stopped := false, false;
    }

    /** ng_generated_smoke_recent_dispatch: the offset-th latest dispatch. */
    method RecentDispatch(offset: nat) returns (at: u24)
      requires Valid()
      ensures at == if offset < RECENT && offset < |trace| then trace[|trace| - 1 - offset] else 0
    {
      if offset >= RECENT || offset >= count {
        return 0;
      }
      assert trace[count - 1 - offset] == recent[..][(count - 1 - offset) % RECENT];
      at := recent[(count - 1 - offset) % RECENT];
    }
  }

  /** The addresses as the hot table takes them. */
  ghost function Widen(trace: seq<u24>): (r: seq<u32>)
    ensures |r| == |trace|
  {
    seq(|trace|, i requires 0 <= i < |trace| => trace[i])
  }

  lemma WidenAppend(trace: seq<u24>, to: u24)
    ensures multiset(Widen(trace + [to])) == multiset(Widen(trace)) + multiset{to}
  {
    assert Widen(trace + [to]) == Widen(trace) + [to];
  }

  /** The ring holds the latest dispatches, dispatch number k in slot k % RECENT. */
  predicate Ring(recent: seq<u24>, trace: seq<u24>) {
    && |recent| == RECENT
    && forall k :: 0 <= k < |trace| && |trace| - RECENT <= k ==> recent[k % RECENT] == trace[k]
  }

  lemma RingTurns(recent: seq<u24>, trace: seq<u24>, to: u24)
    requires Ring(recent, trace)
    ensures Ring(recent[|trace| % RECENT := to], trace + [to])
  {
    var n, trace1 := |trace|, trace + [to];
    forall k | 0 <= k < |trace1| && |trace1| - RECENT <= k ensures recent[n % RECENT := to][k % RECENT] == trace1[k] {
      if k < n {
        OtherSlot(k, n);
        assert trace1[k] == trace[k];
      }
    }
  }

  lemma OtherSlot(k: nat, n: nat)
    requires k < n < k + RECENT
    ensures k % RECENT != n % RECENT
  {
  }
}
