/** The generated program under the host's trampoline: a budgeted run of dispatched
    bodies is a run of the processor. */
module WholeProgram {
  import opened Machine
  import opened Isa
  import opened Emitter
  import opened BodySimulation
  import OneDispatch
  import Host = Trampoline

  /** What generated functions work on: the machine, and how many instruction
      boundaries have been polled. */
  type Board = (State, nat)

  /** Calling the function at an address did what its emitted body does: the body ran
      to its end, made the requests it recorded and left g_ng_m68k.pc where it is. */
  ghost predicate IsCall(rom: Rom, world: World, limit: nat, b: Board, addr: u24, effect: Host.Effect<Board>, e: Env) {
    && Leaves(rom, world, limit, Spot(b.0, addr, b.1), e)
    && effect == Host.Effect((e.w.m, e.n), e.pc, e.dispatched)
  }

  ghost predicate RunsBody(rom: Rom, world: World, limit: nat, b: Board, addr: u24, effect: Host.Effect<Board>,
                            mayMiss: bool)
  {
    exists e: Env :: IsCall(rom, world, limit, b, addr, effect, e) && (e.missed ==> mayMiss)
  }

  /** Every function a run calls is an emitted body, none of which logs a miss unless
      it may, and addresses in the system ROM are dispatched at their first mirror. */
  ghost predicate RunsEmittedCode(rom: Rom, world: World, limit: nat, code: Host.Code<Board>, h: Host.Host<Board>,
                                  addr: u24, budget: nat, mayMiss: bool)
    decreases budget - h.count
  {
    h.count < budget ==>
      var e := Host.EffectOf(code, h.m, addr);
      && (Host.IsBios(addr) ==> Host.Unmirrored(addr) == addr)
      && RunsBody(rom, world, limit, h.m, addr, e, mayMiss)
      && (Host.Pending(e).Some? ==>
            RunsEmittedCode(rom, world, limit, code, Host.StepOne(code, h, addr), Host.Pending(e).value, budget,
                            mayMiss))
  }

  // ---------------------------------------------------------------- one pending slot

  lemma EmittedAsksOnce(rom: Rom, world: World, limit: nat, b: Board, addr: u24, effect: Host.Effect<Board>,
                        mayMiss: bool)
    requires RunsBody(rom, world, limit, b, addr, effect, mayMiss)
    ensures |effect.requests| <= 1
  {
    hide Run, BodyCode;
    var e: Env :| IsCall(rom, world, limit, b, addr, effect, e) && (e.missed ==> mayMiss);
    var s := Spot(b.0, addr, b.1);
    var fuel: nat, w: Work, trace: bool :|
      w.m == s.m && Run(world, BodyCode(rom, s.pc, limit), fuel, 0, Env(w, s.pc, s.n, trace, [], false)) == Finished(e);
    OneDispatch.AtMostOneDispatch(rom, world, addr, limit, fuel, 0, Env(w, s.pc, s.n, trace, [], false));
  }

  lemma {:induction false} RunAsksOnce(rom: Rom, world: World, limit: nat, code: Host.Code<Board>, h: Host.Host<Board>,
                                       addr: u24, budget: nat, mayMiss: bool)
    requires RunsEmittedCode(rom, world, limit, code, h, addr, budget, mayMiss)
    ensures Host.AsksOnce(code, h, addr, budget)
    decreases budget - h.count
  {
    hide RunsBody, Host.EffectOf;
    if h.count < budget {
      var e := Host.EffectOf(code, h.m, addr);
      EmittedAsksOnce(rom, world, limit, h.m, addr, e, mayMiss);
      if e.requests != [] {
        RunAsksOnce(rom, world, limit, code, Host.StepOne(code, h, addr), e.requests[0], budget, mayMiss);
      }
    }
  }

  /** Under the budget, every dispatch that emitted code asks for is made, in order,
      but for the one that is left over when the budget ends. */
  lemma EmittedCodeLosesNothing(rom: Rom, world: World, limit: nat, code: Host.Code<Board>, h: Host.Host<Board>,
                                addr: u24, budget: nat, mayMiss: bool)
    requires RunsEmittedCode(rom, world, limit, code, h, addr, budget, mayMiss) && h.count <= budget
    ensures var r := Host.Run(code, h, addr, budget);
            h.trace + ([addr] + Host.Asked(code, h, addr, budget)) == r.h.trace + if r.Stopped? then [r.addr] else []
  {
    hide RunsEmittedCode, Host.AsksOnce, Host.Run, Host.Asked;
    RunAsksOnce(rom, world, limit, code, h, addr, budget, mayMiss);
    Host.NothingIsLost(code, h, addr, budget);
  }

  // ---------------------------------------------------------------- the run is the processor's

  /** However the budget cuts it, what the trampoline has done when it stops or ends
      is what the processor does: same registers, SR and memory, with g_ng_m68k.pc at
      the instruction the processor is about to run, after at least as many steps as
      there were dispatches; unless the processor gets to where it parts with the body
      at `start`, one of those dispatched. */
  lemma {:induction false} TrampolineSimulates(rom: Rom, world: World, limit: nat, code: Host.Code<Board>,
                                               h: Host.Host<Board>, addr: u24, budget: nat)
    returns (k: nat, start: u24)
    requires WellFormed(rom) && RunsEmittedCode(rom, world, limit, code, h, addr, budget, false)
    ensures var h1, r := Host.Run(code, h, addr, budget).h, Steps(rom, world, Running(h.m.0, addr, h.m.1), k);
            || (r == Running(h1.m.0, h1.pc, h1.m.1) && k >= h1.count - h.count)
            || (start in h1.trace && Parts(rom, world, start, limit, r))
    ensures h.trace <= Host.Run(code, h, addr, budget).h.trace
    decreases budget - h.count
  {
    hide Leaves, Steps, Host.EffectOf, Host.StepOne, Parts;
    Host.RunUnfolds(code, h, addr, budget);
    k, start := 0, addr;
    NoSteps(rom, world, Running(h.m.0, addr, h.m.1));
    if h.count < budget {
      var effect := Host.EffectOf(code, h.m, addr);
      EmittedAsksOnce(rom, world, limit, h.m, addr, effect, false);
      var e: Env :| IsCall(rom, world, limit, h.m, addr, effect, e) && !e.missed;
      var s, t := Spot(h.m.0, addr, h.m.1), GoesOn(e);
      assert Calls(rom, world, limit, s, t);
      k := CallSimulates(rom, world, limit, s, t);
      var h1 := Host.StepOne(code, h, addr);
      StepIsEffect(code, h, addr);
      assert addr in h1.trace && h.trace <= h1.trace;
      var next := Host.Pending(effect);
      if next.Some? {
        var k1, start1 := TrampolineSimulates(rom, world, limit, code, h1, next.value, budget);
        if !Parts(rom, world, addr, limit, Steps(rom, world, Running(s.m, s.pc, s.n), k)) {
          StepsCompose(rom, world, Running(s.m, s.pc, s.n), k, k1);
          k, start := k + k1, start1;
        }
      }
    }
  }

  lemma NoSteps(rom: Rom, world: World, s: Cpu)
    ensures Steps(rom, world, s, 0) == s
  {
    hide Step;
  }

  lemma StepIsEffect(code: Host.Code<Board>, h: Host.Host<Board>, addr: u24)
    ensures var e, h1 := Host.EffectOf(code, h.m, addr), Host.StepOne(code, h, addr);
            h1.m == e.m && h1.pc == e.pc && h1.count == h.count + 1 && h1.trace == h.trace + [addr]
  {
    hide Host.EffectOf;
  }

  /** Stopping on a budget and going on later is the same processor run as not
      stopping at all. */
  lemma ResumedRunSimulates(rom: Rom, world: World, limit: nat, code: Host.Code<Board>, h: Host.Host<Board>, addr: u24,
                            first: nat, second: nat)
    returns (k: nat, start: u24)
    requires WellFormed(rom) && first <= second
    requires RunsEmittedCode(rom, world, limit, code, h, addr, second, false)
    requires Host.Run(code, h, addr, first).Stopped?
    ensures var stopped := Host.Run(code, h, addr, first).h;
            var resumed := Host.Run(code, stopped, stopped.pc, second).h;
            var r := Steps(rom, world, Running(h.m.0, addr, h.m.1), k);
            || r == Running(resumed.m.0, resumed.pc, resumed.m.1)
            || (start in resumed.trace && Parts(rom, world, start, limit, r))
  {
    hide RunsEmittedCode, Host.Run, Steps, Parts;
    Host.SlicingIsTransparent(code, h, addr, first, second);
    k, start := TrampolineSimulates(rom, world, limit, code, h, addr, second);
  }
}
