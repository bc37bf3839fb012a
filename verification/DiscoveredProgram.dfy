/** Discovery, emission, the generated switch and the trampoline together: the program
    that a finished discovery leads to runs as the processor does, until it asks for an
    address the switch does not have; and then it is known where that came from. */
module DiscoveredProgram {
  import opened Machine
  import opened Isa
  import opened Emitter
  import opened BodySimulation
  import opened WholeProgram
  import C = DispatchClosure
  import D = Discovery
  import Host = Trampoline
  import Sharded = ShardedDispatch
  import Runs = RunClosure

  // ---------------------------------------------------------------- the switch

  /** The cartridge's switch has a case for an address. */
  predicate HasFunction(addrs: seq<u32>, addr: u24) {
    !Host.IsBios(addr) && Sharded.FlatStep(addrs, addr).Some?
  }

  /** NG_GENERATED_STEP: the case that the switch takes runs the body of its function. */
  ghost predicate SwitchCalls(rom: Rom, world: World, limit: nat, addrs: seq<u32>, b: Board, addr: u24,
                              effect: Host.Effect<Board>)
    requires HasFunction(addrs, addr)
  {
    var start := addrs[Sharded.FlatStep(addrs, addr).value];
    start < 0x100_0000 && RunsBody(rom, world, limit, b, start, effect, false)
  }

  /** Every function the run calls is called by the switch, and none logs a miss; of an
      address without a case nothing is said. */
  ghost predicate RunsSwitch(rom: Rom, world: World, limit: nat, addrs: seq<u32>, code: Host.Code<Board>,
                             h: Host.Host<Board>, addr: u24, budget: nat)
    decreases budget - h.count
  {
    h.count < budget && HasFunction(addrs, addr) ==>
      var effect := Host.EffectOf(code, h.m, addr);
      && SwitchCalls(rom, world, limit, addrs, h.m, addr, effect)
      && (Host.Pending(effect).Some? ==>
            RunsSwitch(rom, world, limit, addrs, code, Host.StepOne(code, h, addr), Host.Pending(effect).value, budget))
  }

  lemma SwitchIsEmitted(rom: Rom, world: World, limit: nat, addrs: seq<u32>, b: Board, addr: u24,
                        effect: Host.Effect<Board>)
    requires HasFunction(addrs, addr) && SwitchCalls(rom, world, limit, addrs, b, addr, effect)
    ensures RunsBody(rom, world, limit, b, addr, effect, false)
    ensures addrs[Sharded.FlatStep(addrs, addr).value] == addr
  {
    hide RunsBody, Wrap24;
    Sharded.FlatStepIsFirst(addrs, addr);
    SmallWrap(addrs[Sharded.FlatStep(addrs, addr).value]);
    SmallWrap(addr);
  }

  lemma FunctionIsKey(c: D.Cartridge, scanner: D.Scanner, seeds: seq<D.Ask>, t: D.Table, addr: u24)
    requires C.Finished(c, scanner, seeds, t) && HasFunction(C.Functions(t), addr)
    requires C.Functions(t)[Sharded.FlatStep(C.Functions(t), addr).value] == addr
    ensures C.IsKey(t, addr)
  {
    hide C.Finished, Sharded.FlatStep;
    C.TableIsFlat(c, scanner, seeds, t);
    Sharded.FlatStepIsFirst(C.Functions(t), addr);
    var i := Sharded.FlatStep(C.Functions(t), addr).value;
    assert t.items[i].addr == addr && t.items[i].bank == D.NO_BANK;
  }

  // ---------------------------------------------------------------- where a dispatch came from

  /** The body of `from`, called on board b, asked for a, and a was computed. */
  ghost predicate Came(rom: Rom, world: World, limit: nat, b: Board, from: u24, a: u24) {
    exists w: Work, trace: bool ::
      w.m == b.0 && Runs.WasComputed(world, BodyCode(rom, from, limit), Env(w, from, b.1, trace, [], false), a)
  }

  lemma RequestIsClosed(c: D.Cartridge, scanner: D.Scanner, seeds: seq<D.Ask>, t: D.Table, limit: nat, world: World,
                        b: Board, addr: u24, effect: Host.Effect<Board>)
    requires C.Finished(c, scanner, seeds, t) && C.IsKey(t, addr) && effect.requests != []
    requires RunsBody(c.view(c.active), world, limit, b, addr, effect, false)
    ensures C.HasCase(t, effect.requests[0]) || !C.Probable(c, effect.requests[0])
            || Came(c.view(c.active), world, limit, b, addr, effect.requests[0])
  {
    hide Run, BodyCode, C.Finished, C.HasCase, C.Probable, C.IsKey, Runs.WasComputed;
    var rom := c.view(c.active);
    var e: Env :| IsCall(rom, world, limit, b, addr, effect, e) && !e.missed;
    var s := Spot(b.0, addr, b.1);
    var fuel: nat, w: Work, trace: bool :|
      w.m == s.m && Run(world, BodyCode(rom, s.pc, limit), fuel, 0, Env(w, s.pc, s.n, trace, [], false)) == Finished(e);
    Runs.RunIsClosed(c, scanner, seeds, t, addr, limit, world, fuel, Env(w, addr, b.1, trace, [], false));
  }

  /** Cut off after `cut` dispatches the run is at an address without a case: one in the
      system ROM, or one with no code, or one that the function called last computed. */
  ghost predicate LeavesSwitch(c: D.Cartridge, t: D.Table, world: World, limit: nat, code: Host.Code<Board>,
                               h: Host.Host<Board>, addr: u24, cut: nat)
  {
    var at := Host.Run(code, h, addr, cut);
    && at.Stopped? && !HasFunction(C.Functions(t), at.addr)
    && (cut > h.count ==>
          var before := Host.Run(code, h, addr, cut - 1);
          before.Stopped? && (Host.IsBios(at.addr) || !C.Probable(c, at.addr)
                              || Came(c.view(c.active), world, limit, before.h.m, before.addr, at.addr)))
  }

  lemma LeavesAtOnce(c: D.Cartridge, t: D.Table, world: World, limit: nat, code: Host.Code<Board>,
                     h: Host.Host<Board>, addr: u24)
    requires !HasFunction(C.Functions(t), addr)
    ensures LeavesSwitch(c, t, world, limit, code, h, addr, h.count)
  {
    hide HasFunction, Host.EffectOf, Host.StepOne;
    Host.RunUnfolds(code, h, addr, h.count);
  }

  /** What is left when the first step has been made is left of the whole. */
  lemma LeavesLater(c: D.Cartridge, t: D.Table, world: World, limit: nat, code: Host.Code<Board>,
                    h: Host.Host<Board>, addr: u24, next: u24, cut: nat)
    requires Host.Pending(Host.EffectOf(code, h.m, addr)) == Some(next)
    requires var h1 := Host.StepOne(code, h, addr);
             h1.count <= cut && LeavesSwitch(c, t, world, limit, code, h1, next, cut)
    requires Host.IsBios(next) || C.HasCase(t, next) || !C.Probable(c, next)
             || Came(c.view(c.active), world, limit, h.m, addr, next)
    ensures LeavesSwitch(c, t, world, limit, code, h, addr, cut)
  {
    hide Host.EffectOf, Host.Pending, Came, C.Probable, C.Functions;
    var h1 := Host.StepOne(code, h, addr);
    StepIsEffect(code, h, addr);
    Host.RunUnfolds(code, h, addr, cut);
    Host.RunUnfolds(code, h, addr, cut - 1);
    if cut == h1.count {
      Host.RunUnfolds(code, h1, next, cut);
    }
  }

  lemma FinishedIsWellFormed(c: D.Cartridge, scanner: D.Scanner, seeds: seq<D.Ask>, t: D.Table)
    requires C.Finished(c, scanner, seeds, t)
    ensures WellFormed(c.view(c.active))
  {
    hide D.Closed;
  }

  /** One call, as the trampoline sees it. */
  lemma EmittedCallSimulates(rom: Rom, world: World, limit: nat, b: Board, addr: u24, effect: Host.Effect<Board>)
    returns (k: nat, t: Spot)
    requires WellFormed(rom) && RunsBody(rom, world, limit, b, addr, effect, false)
    ensures t == Spot(effect.m.0, if effect.requests == [] then effect.pc else effect.requests[|effect.requests| - 1],
                      effect.m.1)
    ensures var r := Steps(rom, world, Running(b.0, addr, b.1), k);
            (k > 0 && r == Running(t.m, t.pc, t.n)) || Parts(rom, world, addr, limit, r)
  {
    hide Leaves, Steps, Parts;
    var e: Env :| IsCall(rom, world, limit, b, addr, effect, e) && !e.missed;
    t := GoesOn(e);
    assert Calls(rom, world, limit, Spot(b.0, addr, b.1), t);
    k := CallSimulates(rom, world, limit, Spot(b.0, addr, b.1), t);
  }

  // ---------------------------------------------------------------- end to end

  /** After `cut` dispatches the trampoline is where the processor is after k steps, and
      has gone through its budget or left the switch; or the processor has got to where
      it parts with the body at `start`, one of those dispatched. */
  ghost predicate GetsFar(c: D.Cartridge, t: D.Table, world: World, limit: nat, code: Host.Code<Board>,
                          h: Host.Host<Board>, addr: u24, budget: nat, k: nat, cut: nat, start: u24)
  {
    var h1 := Host.Run(code, h, addr, cut).h;
    var r := Steps(c.view(c.active), world, Running(h.m.0, addr, h.m.1), k);
    && (h.count <= cut <= budget || cut == budget) && h.trace <= h1.trace
    && (|| (&& r == Running(h1.m.0, h1.pc, h1.m.1) && k >= h1.count - h.count
            && (cut == budget || LeavesSwitch(c, t, world, limit, code, h, addr, cut)))
        || (start in h1.trace && Parts(c.view(c.active), world, start, limit, r)))
  }

  /** A call and what comes after it. */
  lemma CallThenRest(c: D.Cartridge, t: D.Table, world: World, limit: nat, code: Host.Code<Board>,
                     h: Host.Host<Board>, addr: u24, next: u24, budget: nat, j: nat, k: nat, cut: nat, start: u24)
    requires h.count < budget && Host.Pending(Host.EffectOf(code, h.m, addr)) == Some(next)
    requires var h1 := Host.StepOne(code, h, addr);
             && Steps(c.view(c.active), world, Running(h.m.0, addr, h.m.1), j) == Running(h1.m.0, next, h1.m.1)
             && GetsFar(c, t, world, limit, code, h1, next, budget, k, cut, start)
    requires Host.IsBios(next) || C.HasCase(t, next) || !C.Probable(c, next)
             || Came(c.view(c.active), world, limit, h.m, addr, next)
    requires j > 0
    ensures GetsFar(c, t, world, limit, code, h, addr, budget, j + k, cut, start)
  {
    hide Steps, Host.EffectOf, Host.StepOne, Parts, LeavesSwitch, Host.Pending, Came, C.HasCase, C.Probable;
    StepIsEffect(code, h, addr);
    Host.RunUnfolds(code, h, addr, cut);
    StepsCompose(c.view(c.active), world, Running(h.m.0, addr, h.m.1), j, k);
    if LeavesSwitch(c, t, world, limit, code, Host.StepOne(code, h, addr), next, cut) && cut >= h.count + 1 {
      LeavesLater(c, t, world, limit, code, h, addr, next, cut);
    }
  }

  /** The program parts from the processor in the very function at addr. */
  lemma PartsHere(c: D.Cartridge, t: D.Table, world: World, limit: nat, code: Host.Code<Board>,
                  h: Host.Host<Board>, addr: u24, budget: nat, k: nat)
    requires h.count < budget
    requires Parts(c.view(c.active), world, addr, limit, Steps(c.view(c.active), world, Running(h.m.0, addr, h.m.1), k))
    ensures GetsFar(c, t, world, limit, code, h, addr, budget, k, budget, addr)
  {
    hide Steps, Host.EffectOf, Host.StepOne, Parts, LeavesSwitch, Host.Run;
    Host.TraceGrows(code, h, addr, budget);
    assert (h.trace + [addr])[|h.trace|] == addr;
  }

  /** From an address of the cartridge, under any budget: the trampoline over the
      generated switch of a finished table does what the processor does, up to the
      budget, or up to the address at which it leaves the switch, or until the processor
      gets to where it parts with a body. */
  lemma {:induction false} DiscoveredProgramSimulates(c: D.Cartridge, scanner: D.Scanner, seeds: seq<D.Ask>, t: D.Table,
                                                      limit: nat, world: World, code: Host.Code<Board>,
                                                      h: Host.Host<Board>, addr: u24, budget: nat)
    returns (k: nat, cut: nat, start: u24)
    requires C.Finished(c, scanner, seeds, t)
    requires RunsSwitch(c.view(c.active), world, limit, C.Functions(t), code, h, addr, budget)
    ensures GetsFar(c, t, world, limit, code, h, addr, budget, k, cut, start)
    decreases budget - h.count
  {
    hide Leaves, Steps, Host.EffectOf, Host.StepOne, Parts, LeavesSwitch, C.Finished, HasFunction, SwitchCalls,
         C.Functions;
    hide RunsBody, C.HasCase, C.Probable, Came;
    var rom, addrs := c.view(c.active), C.Functions(t);
    k, cut, start := 0, budget, addr;
    NoSteps(rom, world, Running(h.m.0, addr, h.m.1));
    if h.count >= budget {
      Host.RunUnfolds(code, h, addr, budget);
    } else if !HasFunction(addrs, addr) {
      cut := h.count;
      Host.RunUnfolds(code, h, addr, cut);
      LeavesAtOnce(c, t, world, limit, code, h, addr);
    } else {
      hide GetsFar;
      var effect, h1 := Host.EffectOf(code, h.m, addr), Host.StepOne(code, h, addr);
      FinishedIsWellFormed(c, scanner, seeds, t);
      SwitchIsEmitted(rom, world, limit, addrs, h.m, addr, effect);
      EmittedAsksOnce(rom, world, limit, h.m, addr, effect, false);
      var t1: Spot;
      k, t1 := EmittedCallSimulates(rom, world, limit, h.m, addr, effect);
      StepIsEffect(code, h, addr);
      if Parts(rom, world, addr, limit, Steps(rom, world, Running(h.m.0, addr, h.m.1), k)) {
        PartsHere(c, t, world, limit, code, h, addr, budget, k);
      } else if Host.Pending(effect).None? {
        EndsHere(c, t, world, limit, code, h, addr, budget, k);
      } else {
        var next, j, k1 := effect.requests[0], k, 0;
        k1, cut, start := DiscoveredProgramSimulates(c, scanner, seeds, t, limit, world, code, h1, next, budget);
        FunctionIsKey(c, scanner, seeds, t, addr);
        RequestIsClosed(c, scanner, seeds, t, limit, world, h.m, addr, effect);
        CallThenRest(c, t, world, limit, code, h, addr, next, budget, j, k1, cut, start);
        k := j + k1;
      }
    }
  }

  lemma EndsHere(c: D.Cartridge, t: D.Table, world: World, limit: nat, code: Host.Code<Board>,
                 h: Host.Host<Board>, addr: u24, budget: nat, k: nat)
    requires h.count < budget && Host.Pending(Host.EffectOf(code, h.m, addr)).None? && k > 0
    requires var h1 := Host.StepOne(code, h, addr);
             Steps(c.view(c.active), world, Running(h.m.0, addr, h.m.1), k) == Running(h1.m.0, h1.pc, h1.m.1)
    ensures GetsFar(c, t, world, limit, code, h, addr, budget, k, budget, addr)
  {
    hide Steps, Host.EffectOf, Host.StepOne, Parts, LeavesSwitch, Host.Pending;
    StepIsEffect(code, h, addr);
    Host.RunUnfolds(code, h, addr, budget);
  }
}
