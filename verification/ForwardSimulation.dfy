/** However many steps the processor takes, the dispatched program gets as far. */
module ForwardSimulation {
  import opened Machine
  import opened Isa
  import opened Emitter
  import opened InstructionSimulation
  import opened BodyLayout
  import opened BodySimulation

  /** A call as emit_function_body starts it, with ng_trace_sr zero. */
  function Entering(t: Spot): Env {
    Env(Work(t.m, 0, 0), t.pc, t.n, false, [], false)
  }

  function CpuOf(t: Spot): Cpu { Running(t.m, t.pc, t.n) }

  /** The body called at t, after some statements, is at the start of the instruction
      the processor is about to run. */
  predicate Inside(rom: Rom, world: World, limit: nat, t: Spot, fuel: nat, x: nat, r: Cpu) {
    var p := Run(world, BodyCode(rom, t.pc, limit), fuel, 0, Entering(t));
    var instrs := Collect(rom, t.pc, limit).instrs;
    Listed(rom, t.pc, limit) && p.Paused? && x < |instrs| && InStep(instrs, p, x, r)
  }

  /** The body called at t has logged a miss where the processor cannot go on. */
  predicate BothStuck(rom: Rom, world: World, limit: nat, t: Spot, fuel: nat, r: Cpu) {
    var p := Run(world, BodyCode(rom, t.pc, limit), fuel, 0, Entering(t));
    r.Stuck? && p.Finished? && p.e.missed && AtExit(p.e, r)
  }

  /** The ways in which the body at t and the processor part; one that has nothing but
      a miss in it, for a word that does not decode further on, parts at once. */
  predicate PartsAt(rom: Rom, world: World, limit: nat, t: Spot, r: Cpu) {
    || Parts(rom, world, t.pc, limit, r)
    || (!Listed(rom, t.pc, limit) && rom(t.pc).Some? && r == CpuOf(t))
  }

  ghost predicate Trail(rom: Rom, world: World, limit: nat, trail: seq<Spot>) {
    trail != [] && forall i :: 0 <= i < |trail| - 1 ==> Calls(rom, world, limit, trail[i], trail[i + 1])
  }

  /** How far the program has got when the processor is at r. */
  predicate KeepsUp(rom: Rom, world: World, limit: nat, t: Spot, fuel: nat, x: nat, r: Cpu) {
    r == CpuOf(t) || Inside(rom, world, limit, t, fuel, x, r)
  }

  lemma ReturnedCalls(rom: Rom, world: World, limit: nat, s: Spot, fuel: nat, r: Cpu)
    requires var p := Run(world, BodyCode(rom, s.pc, limit), fuel, 0, Entering(s));
             p.Finished? && AtExit(p.e, r) && r.Running?
    ensures var t := GoesOn(Run(world, BodyCode(rom, s.pc, limit), fuel, 0, Entering(s)).e);
            Calls(rom, world, limit, s, t) && r == CpuOf(t)
  {
    hide Run, BodyCode;
    var e := Run(world, BodyCode(rom, s.pc, limit), fuel, 0, Entering(s)).e;
    var w := Work(s.m, 0, 0);
    assert Run(world, BodyCode(rom, s.pc, limit), fuel, 0, Env(w, s.pc, s.n, false, [], false)) == Finished(e);
    assert Leaves(rom, world, limit, s, e);
  }

  /** One call, against up to k steps of the processor: done with it after j of them,
      or kept up with, or stuck together, or parted. */
  lemma CallKeepsStep(rom: Rom, world: World, limit: nat, s: Spot, k: nat) returns (j: nat, fuel: nat, x: nat)
    requires WellFormed(rom) && Listed(rom, s.pc, limit)
    ensures j <= k
    ensures var p, r := Run(world, BodyCode(rom, s.pc, limit), fuel, 0, Entering(s)),
                        Steps(rom, world, CpuOf(s), j);
            || (j > 0 && p.Finished? && AtExit(p.e, r))
            || (j == k && Inside(rom, world, limit, s, fuel, x, r))
            || Parts(rom, world, s.pc, limit, r)
  {
    hide Run, Steps, Instructions, MissingLabels, Labels, AtExit, GoodBody, Collect, BodyCode, AtCorner, FirstMissing,
         EndPc;
    var listing := Collect(rom, s.pc, limit);
    var instrs, code := listing.instrs, BodyCode(rom, s.pc, limit);
    EmittedBodyIsGood(rom, s.pc, limit);
    assert instrs != [] by { HasInstructions(rom, instrs, Tail(s.pc, listing)); }
    FirstOffset(instrs);
    fuel, x, j := BodyKeepsStep(rom, world, instrs, Tail(s.pc, listing), 0, Entering(s), k);
    var p := Run(world, code, fuel, 0, Entering(s));
    if p.Paused? && x == |instrs| {
      EndsTheBody(rom, world, s.pc, limit, p.e);
      RunResumes(world, code, fuel, 3, 0, Entering(s));
      SameEndPc(s.pc, instrs);
      fuel := fuel + 3;
    }
  }

  /** Where nothing is listed, there is no code, or the two part. */
  lemma UnlistedIsStuck(rom: Rom, world: World, limit: nat, s: Spot)
    requires limit > 0 && rom(s.pc).None?
    ensures BothStuck(rom, world, limit, s, 2, Step(rom, world, CpuOf(s)))
  {
    var code := BodyCode(rom, s.pc, limit);
    assert code == [Miss(Wrap24(s.pc))] + [Return];
    var e1 := Entering(s).(missed := true);
    assert Run(world, code, 2, 0, Entering(s)) == Run(world, code, 1, 1, e1);
    assert Run(world, code, 1, 1, e1) == Finished(e1);
  }

  /** For any number of steps k that the processor takes, there is a chain of calls of
      emitted bodies that gets as far, in the same registers, SR and memory: between
      two bodies or at the start of an instruction in the last one.  If it gets less
      far, after j steps, both are stuck, or the last body and the processor part. */
  lemma {:induction false} ProgramKeepsStep(rom: Rom, world: World, limit: nat, s: Spot, k: nat)
    returns (trail: seq<Spot>, j: nat, fuel: nat, x: nat)
    requires WellFormed(rom) && limit > 0
    ensures Trail(rom, world, limit, trail) && trail[0] == s && j <= k
    ensures var t, r := trail[|trail| - 1], Steps(rom, world, CpuOf(s), j);
            || (j == k && KeepsUp(rom, world, limit, t, fuel, x, r))
            || BothStuck(rom, world, limit, t, fuel, r)
            || PartsAt(rom, world, limit, t, r)
    decreases k
  {
    hide Run, Step, BodyCode, Collect, Calls, Inside, Parts, AtExit;
    trail, j, fuel, x := [s], 0, 0, 0;
    if k > 0 && !Listed(rom, s.pc, limit) {
      if rom(s.pc).None? {
        UnlistedIsStuck(rom, world, limit, s);
        OneStep(rom, world, CpuOf(s));
        j, fuel := 1, 2;
      }
    } else if k > 0 {
      j, fuel, x := CallKeepsStep(rom, world, limit, s, k);
      var p, r := Run(world, BodyCode(rom, s.pc, limit), fuel, 0, Entering(s)), Steps(rom, world, CpuOf(s), j);
      if j > 0 && p.Finished? && AtExit(p.e, r) && r.Running? {
        ReturnedCalls(rom, world, limit, s, fuel, r);
        var t := GoesOn(p.e);
        var rest, j1;
        rest, j1, fuel, x := ProgramKeepsStep(rom, world, limit, t, k - j);
        StepsCompose(rom, world, CpuOf(s), j, j1);
        trail, j := [s] + rest, j + j1;
        assert forall i :: 0 < i < |trail| ==> trail[i] == rest[i - 1];
      } else if j > 0 && p.Finished? && AtExit(p.e, r) {
        StuckTogether(p.e, r);
      }
    }
  }

  lemma StuckTogether(e: Env, r: Cpu)
    requires AtExit(e, r) && r.Stuck?
    ensures e.missed
  {
  }
}
