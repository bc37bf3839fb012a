/** Exactly when emitted code parts from the processor: state by state for one
    instruction, and a program for each of the ways there are. */
module EmitterCorners {
  import opened Machine
  import opened Isa
  import opened Emitter
  import opened InstructionSimulation
  import opened BodyLayout
  import opened BodySimulation
  import Alu
  import Exceptions
  import Shifts

  // ---------------------------------------------------------------- one instruction

  /** An outcome agrees with one running processor only. */
  lemma AgreesWithOne(o: Outcome, i: Instr, r: Cpu, r1: Cpu)
    requires Agrees(o, i, r) && Agrees(o, i, r1) && r.Running? && r1.Running?
    ensures r == r1
  {
  }

  /** SR but for what an exception changes. */
  function Stays(sr: Sr): Sr { sr.(s := true, t := false, level := 0) }

  lemma TracedTellsSr(m: State, sr: Sr, next: u24, t: bool, n: nat)
    requires Stays(sr) != Stays(m.sr)
    ensures Traced(Effect(m.(sr := sr), next, true), t, n) != Traced(Effect(m, next, true), t, n)
  {
    hide Write16, Write32, SrBits.Word, Wrap24, Wrap32, Read32;
  }

  /** In a corner SR comes out with another N, Z or V. */
  lemma CornerSr(m: State, i: Instr)
    requires Encodable(i.op) && IsData(i.op) && Corner(m, i.op)
    ensures var m1 := Execute(m, i).m;
            var sr := EmittedSr(m, i.op, m1);
            Stays(sr) != Stays(m1.sr)
  {
    hide Low, Merge, EaAddress, MoveState, AddSubXState, NegXState, SubXCorner, NegXCorner, MovedRegister;
    if i.op.Move? {
      HazardousMove(i.op.size, i.op.src, i.op.dst, Work(m, 0, 0));
    }
  }

  lemma DataParts(world: World, i: Instr, e: Env)
    requires Fresh(e) && Encodable(i.op) && IsData(i.op) && Corner(e.w.m, i.op)
    ensures !Agrees(Block(world, InstrCode(i) + EpilogueCode(i), e), i, Completed(world, i, e.w.m, e.trace, e.n))
  {
    hide Block, Execute, EpilogueCode, InstrCode, EmittedSr, Encodable, Corner, Agrees, Traced;
    var m1 := Execute(e.w.m, i).m;
    var sr := EmittedSr(e.w.m, i.op, m1);
    var o := Block(world, InstrCode(i) + EpilogueCode(i), e);
    DataSimulates(world, i, e);
    DataActions(i, e.w);
    CornerSr(e.w.m, i);
    TracedTellsSr(m1, sr, i.Next(), e.trace, e.n);
    TracedRuns(m1, i.Next(), e.trace, e.n);
    TracedRuns(m1.(sr := sr), i.Next(), e.trace, e.n);
    var r := Traced(Effect(m1, i.Next(), true), e.trace, e.n);
    var r1 := Traced(Effect(m1.(sr := sr), i.Next(), true), e.trace, e.n);
    assert Completed(world, i, e.w.m, e.trace, e.n) == r;
    if Agrees(o, i, r) {
      AgreesWithOne(o, i, r, r1);
    }
  }

  lemma TracedRuns(m: State, next: u24, t: bool, n: nat)
    ensures Traced(Effect(m, next, true), t, n).Running?
  {
    hide TakeException;
  }

  /** Two exceptions from one state with different return addresses. */
  lemma StackedAddressesDiffer(m: State, pc1: u24, pc2: u24)
    requires pc1 != pc2
    ensures EnterException(m, pc1, None) != EnterException(m, pc2, None)
  {
    hide Write16, Write32, Read32, Read16, SrBits.Word, Wrap32;
    var sp := m.SupervisorSp();
    WrapTwice(pc1, 0);
    WrapTwice(pc2, 0);
    Exceptions.FrameBytes(m.mem, sp, pc1, m.sr);
    Exceptions.FrameBytes(m.mem, sp, pc2, m.sr);
  }

  lemma IllegalParts(world: World, i: Instr, e: Env)
    requires Fresh(e) && GoodInstr(i, i.addr) && i.op.Illegal?
    ensures !Agrees(Block(world, InstrCode(i) + EpilogueCode(i), e), i, Completed(world, i, e.w.m, e.trace, e.n))
  {
    hide Block, EpilogueCode, Acts, Actions, ControlCode, EnterException, Read32, Agrees, Encodable;
    WithoutGuard(i);
    IllegalAgrees(world, i, e);
    NextIsElsewhere(i);
    StackedAddressesDiffer(e.w.m, i.addr, i.Next());
    var (m1, pc1) := TakeException(e.w.m, i.Next(), IllegalVector(i.op.vector));
    var o := Block(world, InstrCode(i) + EpilogueCode(i), e);
    var r := Completed(world, i, e.w.m, e.trace, e.n);
    if Agrees(o, i, r) {
      AgreesWithOne(o, i, r, Running(m1, pc1, e.n));
    }
  }

  lemma NextIsElsewhere(i: Instr)
    requires GoodInstr(i, i.addr)
    ensures i.addr < 0x100_0000 && i.Next() != i.addr && Encodable(i.op)
  {
    hide Encodable;
    if i.addr + i.len < 0x100_0000 {
      Euclid(i.addr + i.len, 0x100_0000, 0, i.addr + i.len);
    } else {
      Euclid(i.addr + i.len, 0x100_0000, 1, 0);
    }
  }

  // ---------------------------------------------------------------- bits of SR that are not there

  lemma UnusedStay(sr: Sr)
    requires !IsImplemented(sr)
    ensures Stays(sr) != Stays(Implemented(sr))
  {
  }

  lemma ReturnParts(world: World, i: Instr, e: Env)
    requires Fresh(e) && i.op.Rte? && Corner(e.w.m, i.op)
    ensures !Agrees(Block(world, InstrCode(i) + EpilogueCode(i), e), i, Completed(world, i, e.w.m, e.trace, e.n))
  {
    hide Block, EpilogueCode, InstrCode, Agrees, Traced, FrameSr, Wrap24, Wrap32, Read32;
    ReturnPops(world, i, e);
    var raw := FrameSr(e.w.m);
    var (m1, pc) := ReturnWith(e.w.m, Implemented(raw));
    assert Popped(e.w.m) == Effect(m1.(sr := raw), pc, true);
    UnusedStay(raw);
    TracedTellsSr(m1, raw, pc, e.trace, e.n);
    TracedRuns(m1, pc, e.trace, e.n);
    TracedRuns(m1.(sr := raw), pc, e.trace, e.n);
    var o, r := Block(world, InstrCode(i) + EpilogueCode(i), e), Completed(world, i, e.w.m, e.trace, e.n);
    assert r == Traced(Effect(m1, pc, true), e.trace, e.n) by { ReturnIs(world, i, e); }
    if Agrees(o, i, r) {
      AgreesWithOne(o, i, r, Traced(Popped(e.w.m), e.trace, e.n));
    }
  }

  lemma ReturnIs(world: World, i: Instr, e: Env)
    requires i.op.Rte? && e.w.m.sr.s
    ensures var (m1, pc) := ReturnWith(e.w.m, Implemented(FrameSr(e.w.m)));
            Completed(world, i, e.w.m, e.trace, e.n) == Traced(Effect(m1, pc, true), e.trace, e.n)
  {
    hide Traced, FrameSr, Read32, Wrap32;
    WrapTwice(Read32(e.w.m.mem, (e.w.m.a[7] as int) + 2), 0);
  }

  /** What the world does next does not depend on bits of SR that are not there. */
  ghost predicate Blind(world: World) {
    forall n: nat, m: State :: world(n, m) == world(n, m.(sr := Implemented(m.sr)))
  }

  /** A reset wipes out what a STOP has loaded. */
  predicate ResetFollows(world: World, op: Op, e: Env) {
    op.Stop? && !e.trace && world(e.n, LoadSr(e.w.m, SrOf(op.sr))).interrupt.Reset?
  }

  /** At an event other than a reset, SR shows. */
  lemma DisturbedTellsSr(event: Interrupt, m: State, sr: Sr, next: u24, n: nat)
    requires Stays(sr) != Stays(m.sr)
    ensures (Disturbed(event, m.(sr := sr), next, n) == Disturbed(event, m, next, n)) <==> event.Reset?
  {
    hide Write16, Write32, SrBits.Word, Wrap24, Wrap32, Read32, SrOf;
  }

  lemma StopTells(world: World, i: Instr, e: Env)
    requires Blind(world) && i.op.Stop? && Corner(e.w.m, i.op)
    ensures var r := Stopped(world, LoadSr(e.w.m, SrOf(i.op.sr)), i.Next(), e.trace, e.n);
            (r == Completed(world, i, e.w.m, e.trace, e.n)) <==> ResetFollows(world, i.op, e)
  {
    hide Traced, Disturbed, SrOf, Wrap24;
    var raw := SrOf(i.op.sr);
    var m1 := LoadSr(e.w.m, Implemented(raw));
    assert LoadSr(e.w.m, raw) == m1.(sr := raw);
    assert world(e.n, m1.(sr := raw)) == world(e.n, m1);
    UnusedStay(raw);
    if e.trace {
      TracedTellsSr(m1, raw, i.Next(), true, e.n);
    } else {
      DisturbedTellsSr(world(e.n, m1).interrupt, m1, raw, i.Next(), e.n + 1);
    }
  }

  lemma StoppedRuns(world: World, m: State, next: u24, t: bool, n: nat)
    ensures Stopped(world, m, next, t, n).Running?
  {
    hide TakeException, EnterException, AfterReset;
  }

  lemma StopParts(world: World, i: Instr, e: Env)
    requires Blind(world) && Fresh(e) && i.op.Stop? && Corner(e.w.m, i.op)
    ensures Agrees(Block(world, InstrCode(i) + EpilogueCode(i), e), i, Completed(world, i, e.w.m, e.trace, e.n))
            <==> ResetFollows(world, i.op, e)
  {
    hide Block, EpilogueCode, InstrCode, AtExit, Stopped, SrOf, LoadSr, ResetFollows;
    StopLoadsAll(world, i, e);
    StopTells(world, i, e);
    var raw := LoadSr(e.w.m, SrOf(i.op.sr));
    StoppedRuns(world, raw, i.Next(), e.trace, e.n);
    StoppedRuns(world, LoadSr(e.w.m, Implemented(SrOf(i.op.sr))), i.Next(), e.trace, e.n);
    var o, r := Block(world, InstrCode(i) + EpilogueCode(i), e), Completed(world, i, e.w.m, e.trace, e.n);
    assert Agrees(o, i, Stopped(world, raw, i.Next(), e.trace, e.n));
    if Agrees(o, i, r) {
      AgreesWithOne(o, i, r, Stopped(world, raw, i.Next(), e.trace, e.n));
    }
  }

  /** Further instructions leave those bits alone too. */
  ghost predicate KeepsSr(op: Op) {
    op.Other? ==> forall m: State :: IsImplemented(m.sr) ==> IsImplemented(op.effect(m).sr)
  }

  lemma FetchKeepsSr(m: State, ea: Ea, size: Size, v: u32)
    ensures Fetch(m, ea, size).1.sr == m.sr && Deposit(m, ea, size, v).sr == m.sr
  {
    hide Low, Merge, EaAddress, ReadSize, WriteSize, Wrap32;
  }

  lemma MoveKeepsSr(m: State, size: Size, src: Ea, dst: Ea)
    requires IsImplemented(m.sr)
    ensures IsImplemented(MoveState(m, size, src, dst).sr)
  {
    hide Fetch, Deposit;
    var (v, m1) := Fetch(m, src, size);
    FetchKeepsSr(m, src, size, 0);
    FetchKeepsSr(m1, dst, size, v);
  }

  lemma AluKeepsSr(m: State, alu: AluOp, size: Size, ea: Ea, r: Reg)
    requires IsImplemented(m.sr)
    ensures IsImplemented(AluToRegState(m, alu, size, ea, r).sr)
    ensures IsImplemented(AluToMemState(m, alu, size, r, ea).sr)
  {
    hide Fetch, Low, Merge, EaAddress, ReadSize, WriteSize, Wrap32, Alu.ManualFlags;
    FetchKeepsSr(m, ea, size, 0);
    FlagsKeepSr(m.sr);
  }

  lemma ExtendKeepsSr(m: State, sub: bool, size: Size, memory: bool, rs: Reg, rd: Reg, dst: Ea)
    requires IsImplemented(m.sr)
    ensures IsImplemented(AddSubXState(m, sub, size, memory, rs, rd).sr) && IsImplemented(NegXState(m, size, dst).sr)
  {
    hide Low, Merge, EaAddress, ReadSize, WriteSize, Wrap32, Alu.ManualFlags;
    FlagsKeepSr(m.sr);
  }

  lemma StackKeepsSr(m: State, pc: int, vector: int, v: u32)
    requires IsImplemented(m.sr)
    ensures IsImplemented(TakeException(m, pc, vector).0.sr) && Push(m, v).sr == m.sr
    ensures IsImplemented(LeaveException(m).0.sr) && IsImplemented(Restored(m).0.sr)
  {
    hide Read16, Read32, Write16, Write32, SrBits.Word, Wrap32, Wrap24, SrOf;
  }

  lemma DataKeepsSr(m: State, i: Instr)
    requires IsImplemented(m.sr) && KeepsSr(i.op) && IsData(i.op)
    ensures IsImplemented(Execute(m, i).m.sr)
  {
    hide Low, Merge, EaAddress, Wrap32, Wrap24, Fetch;
    hide Shifts.ManualShift, MoveState, AluToRegState, AluToMemState, AddSubXState, NegXState;
    match i.op
    case Move(size, src, dst) => MoveKeepsSr(m, size, src, dst);
    case MoveA(size, src, _) => FetchKeepsSr(m, src, size, 0);
    case Shift(turn, size, count, r) => ShiftKeepsSr(turn, size, m.sr, Low(m.d[r], size), CountOf(m, count));
    case AluToReg(alu, size, src, r) => AluKeepsSr(m, alu, size, src, r);
    case AluToMem(alu, size, r, dst) => AluKeepsSr(m, alu, size, dst, r);
    case AddSubX(sub, size, memory, rs, rd) => ExtendKeepsSr(m, sub, size, memory, rs, rd, Dn(0));
    case NegX(size, dst) => ExtendKeepsSr(m, false, size, false, 0, 0, dst);
    case _ =>
  }

  lemma ControlKeepsSr(m: State, i: Instr)
    requires IsImplemented(m.sr) && !IsData(i.op)
    requires !i.op.Trap? && !i.op.TrapV? && !i.op.Illegal? && !i.op.Stop?
    ensures IsImplemented(Execute(m, i).m.sr)
  {
    hide Low, Merge, EaAddress, Read32, Wrap32, Wrap24, TakeException, LeaveException, Restored, Push, IsImplemented;
    hide Alu.ManualCondition;
    StackKeepsSr(m, i.addr, 8, i.Next());
  }

  lemma ExceptionKeepsSr(m: State, i: Instr)
    requires IsImplemented(m.sr) && (i.op.Trap? || i.op.TrapV? || i.op.Illegal? || i.op.Stop?)
    ensures IsImplemented(Execute(m, i).m.sr)
  {
    hide Low, Merge, EaAddress, Read32, Wrap32, Wrap24, TakeException, LeaveException, Restored, Push, IsImplemented;
    hide Alu.ManualCondition, MoveState, MoveAState, AluToRegState, AluToMemState, AddSubXState, NegXState, ShiftState;
    match i.op
    case Trap(number) => StackKeepsSr(m, i.Next(), 32 + number, 0);
    case TrapV => StackKeepsSr(m, i.Next(), 7, 0);
    case Illegal(vector) => StackKeepsSr(m, i.addr, IllegalVector(vector), 0);
    case Stop(_) => StackKeepsSr(m, i.addr, 8, 0);
  }

  lemma ExecuteKeepsSr(m: State, i: Instr)
    requires IsImplemented(m.sr) && KeepsSr(i.op)
    ensures IsImplemented(Execute(m, i).m.sr)
  {
    hide Execute, KeepsSr;
    if IsData(i.op) {
      DataKeepsSr(m, i);
    } else if i.op.Trap? || i.op.TrapV? || i.op.Illegal? || i.op.Stop? {
      ExceptionKeepsSr(m, i);
    } else {
      ControlKeepsSr(m, i);
    }
  }

  lemma FlagsKeepSr(sr: Sr)
    ensures forall u: int, s: int, half: int :: half > 0 && IsImplemented(sr) ==>
              IsImplemented(Alu.ManualFlags(sr, u, s, half).sr)
  {
  }

  lemma ShiftKeepsSr(op: Shifts.ShiftOp, size: Size, sr: Sr, v: u32, n: nat)
    requires IsImplemented(sr)
    ensures IsImplemented(Shifts.ManualShift(op, 8 * size.Bytes(), sr, v, n).sr)
  {
    hide Shifts.Pow2, Shifts.RotateLeftBy, Shifts.RotateRightBy;
  }

  /** From a status register without the missing bits the processor never gets one that
      has them, in any number of steps. */
  lemma {:induction false} SrStaysImplemented(rom: Rom, world: World, s: Cpu, k: nat)
    requires IsImplemented(s.m.sr)
    requires forall a: u32 :: rom(a).Some? ==> KeepsSr(rom(a).value.op)
    ensures IsImplemented(Steps(rom, world, s, k).m.sr)
    decreases k
  {
    hide Step, KeepsSr, IsImplemented;
    if k > 0 && s.Running? {
      StepKeepsSr(rom, world, s);
      SrStaysImplemented(rom, world, Step(rom, world, s), k - 1);
    }
  }

  lemma StepKeepsSr(rom: Rom, world: World, s: Cpu)
    requires s.Running? && IsImplemented(s.m.sr)
    requires forall a: u32 :: rom(a).Some? ==> KeepsSr(rom(a).value.op)
    ensures IsImplemented(Step(rom, world, s).m.sr)
  {
    hide Execute, Write16, Write32, SrBits.Word, Wrap32, Wrap24, Read32, KeepsSr;
    ResetIsImplemented();
    if rom(s.pc).Some? {
      ExecuteKeepsSr(s.m, rom(s.pc).value);
    }
  }

  lemma ResetIsImplemented()
    ensures IsImplemented(SrOf(0x2700))
  {
  }

  // ---------------------------------------------------------------- all instructions

  /** State by state, emitted code is the instruction exactly outside the corners, and
      in the one corner a reset wipes out. */
  lemma InstructionAgreesIff(world: World, i: Instr, e: Env)
    requires Blind(world) && Fresh(e) && GoodInstr(i, i.addr)
    ensures Agrees(Block(world, InstrCode(i) + EpilogueCode(i), e), i, Completed(world, i, e.w.m, e.trace, e.n))
            <==> !Corner(e.w.m, i.op) || ResetFollows(world, i.op, e)
  {
    hide Block, EpilogueCode, InstrCode, Completed, Agrees, Encodable, MoveCorner, SubXCorner, NegXCorner, SrCorner,
         Blind;
    NextIsElsewhere(i);
    if !Corner(e.w.m, i.op) {
      InstructionAgrees(world, i, e);
    } else if i.op.Illegal? {
      IllegalParts(world, i, e);
    } else if i.op.Rte? {
      ReturnParts(world, i, e);
    } else if i.op.Stop? {
      StopParts(world, i, e);
    } else {
      DataParts(world, i, e);
    }
  }

  /** Each instruction that has corners has a state in one. */
  lemma CornersHappen(op: Op) returns (m: State)
    requires Encodable(op) && HasCorner(op)
    ensures Corner(m, op)
  {
    hide MoveCorner, SubXCorner, NegXCorner, FlagHazard, SrOf, FrameSr;
    if op.Move? {
      var w := HazardSetsWrongFlags(op.size, op.src, op.dst);
      m := w.m;
    } else if op.AddSubX? {
      m := SubXState(op.size, op.memory, op.rs);
    } else if op.NegX? {
      m := NegXCornerState(op.size, op.dst);
    } else {
      m := UnusedBitsStacked();
    }
  }

  /** A supervisor whose stack has a word of ones on it. */
  lemma UnusedBitsStacked() returns (m: State)
    ensures m.sr.s && !IsImplemented(FrameSr(m))
  {
    hide Write16, Read16;
    var zero: Regs := [0, 0, 0, 0, 0, 0, 0, 0];
    var sr := Sr(false, false, true, 0, 0, 0, false, false, false, false, false);
    m := State(zero, zero, sr, 0, 0, Write16(map[], 0, 0xFFFF));
    Exceptions.WordWrite(map[], 0, 0xFFFF);
    ReadOwnWrite(map[], 0, W, 0xFFFF);
    LongWrite(m.mem, 0, 0);
    LowOfSmall(0xFFFF, W);
    assert 0xFFFF / 32 % 8 == 7;
  }

  /** Registers all equal, and the operand's bytes wherever it is. */
  lemma NegXCornerState(size: Size, dst: Ea) returns (m: State)
    requires dst.IsAlterable()
    ensures NegXCorner(m, size, dst)
  {
    hide WriteSize, ReadSize, SrOf, Wrap32, IndexValue;
    var top: u32 := size.Half() - 1;
    var tops: Regs := [top, top, top, top, top, top, top, top];
    var m0 := State(tops, tops, SrOf(0).(x := true), 0, 0, map[]);
    LowOfSmall(top, size);
    if dst.Dn? {
      m := m0;
    } else {
      var at := EaAddress(Before(m0, dst, size), dst);
      m := m0.(mem := WriteSize(map[], at, size, top));
      ReadOwnWrite(map[], at, size, top);
      assert EaAddress(Before(m, dst, size), dst) == at by { SameIndex(m0, m); }
    }
  }

  lemma SameIndex(m: State, m1: State)
    requires m.d == m1.d && m.a == m1.a
    ensures forall ix :: IndexValue(m, ix) == IndexValue(m1, ix)
  {
  }

  lemma SubXState(size: Size, memory: bool, rs: Reg) returns (m: State)
    ensures SubXCorner(m, true, size, memory, rs)
  {
    hide WriteSize, ReadSize, SrOf, Wrap32;
    var top: u32 := size.Half() - 1;
    var tops: Regs := [top, top, top, top, top, top, top, top];
    var at := Wrap32(top - StepBytes(rs, size));
    var mem: Mem := WriteSize(map[], at, size, top);
    m := State(tops, tops, SrOf(0).(x := true), 0, 0, mem);
    ReadOwnWrite(map[], at, size, top);
    LowOfSmall(top, size);
  }

  /** Emitted code is right in every world and from every state exactly for the
      instructions without corners. */
  lemma InstructionRightIff(i: Instr)
    requires GoodInstr(i, i.addr)
    ensures (forall world: World, e: Env | Fresh(e) ::
               Agrees(Block(world, InstrCode(i) + EpilogueCode(i), e), i, Completed(world, i, e.w.m, e.trace, e.n)))
            <==> !HasCorner(i.op)
  {
    hide Block, EpilogueCode, InstrCode, Completed, Agrees, Corner, HasCorner, Encodable;
    NextIsElsewhere(i);
    if HasCorner(i.op) {
      var m := CornersHappen(i.op);
      var world: World := (_, _) => Event(false, Quiet);
      var e := Env(Work(m, 0, 0), 0, 0, false, [], false);
      assert Blind(world) && !ResetFollows(world, i.op, e);
      InstructionAgreesIff(world, i, e);
    } else {
      forall world: World, e: Env | Fresh(e)
        ensures Agrees(Block(world, InstrCode(i) + EpilogueCode(i), e), i, Completed(world, i, e.w.m, e.trace, e.n))
      {
        CornersAreInstructions(e.w.m, i.op);
        InstructionAgrees(world, i, e);
      }
    }
  }

  // ---------------------------------------------------------------- a body cut badly

  /** Nothing but NOPs. */
  function NopRom(a: u32): Option<Instr> {
    if a % 2 == 0 && a + 2 <= 0x100_0000 then Some(Instr(a, 2, Nop)) else None
  }

  predicate AllNops(instrs: seq<Instr>) {
    forall k :: 0 <= k < |instrs| ==> instrs[k].op.Nop?
  }

  ghost predicate Undisturbed(world: World) {
    forall n: nat, m: State :: world(n, m) == Event(false, Quiet)
  }

  lemma {:induction false} CollectNops(pc: u32, limit: nat)
    requires pc % 2 == 0 && pc + 2 * limit <= 0x100_0000
    ensures var r := Collect(NopRom, pc, limit);
            !r.complete && r.decodeError.None? && |r.instrs| == limit && AllNops(r.instrs)
    decreases limit
  {
    if limit > 0 {
      CollectNops(pc + 2, limit - 1);
      var r, rest := Collect(NopRom, pc, limit), Collect(NopRom, pc + 2, limit - 1);
      assert r.instrs == [NopRom(pc).value] + rest.instrs;
    }
  }

  lemma {:induction false} NopsHaveNoLabels(instrs: seq<Instr>)
    requires AllNops(instrs)
    ensures Labels(instrs) == []
  {
    if instrs != [] {
      NopsHaveNoLabels(instrs[..|instrs| - 1]);
    }
  }

  lemma NopBlock(world: World, i: Instr, e: Env)
    requires Undisturbed(world) && i.op.Nop? && !e.w.m.sr.t
    ensures var o := Block(world, OneInstruction(i, []), e);
            o.Next? && o.e == e.(pc := i.Next(), n := e.n + 1, trace := false)
  {
    hide Block, Wrap24, Interrupted;
    var addr := Wrap24(i.addr);
    var rest := [SetPc(i.Next())] + [ServiceTrace(To(Constant(i.Next())))];
    assert OneInstruction(i, [])
           == [SetPc(addr)] + ([Yield] + ([ServiceInterrupt(addr)] + ([SaveTrace] + rest)));
    var e1 := e.(pc := addr);
    BlockCons(world, SetPc(addr), [Yield] + ([ServiceInterrupt(addr)] + ([SaveTrace] + rest)), e);
    BlockCons(world, Yield, [ServiceInterrupt(addr)] + ([SaveTrace] + rest), e1);
    BlockCons(world, ServiceInterrupt(addr), [SaveTrace] + rest, e1);
    assert Interrupted(world, e1, addr) == Next(e1.(n := e.n + 1)) by { NotInterrupted(world, e1, addr); }
    BlockCons(world, SaveTrace, rest, e1.(n := e.n + 1));
    BlockPair(world, SetPc(i.Next()), ServiceTrace(To(Constant(i.Next()))), e1.(n := e.n + 1, trace := false));
  }

  lemma NotInterrupted(world: World, e: Env, addr: u24)
    requires Undisturbed(world)
    ensures Interrupted(world, e, addr) == Next(e.(n := e.n + 1))
  {
    assert world(e.n, e.w.m) == Event(false, Quiet);
  }

  lemma {:induction false} NopsBlock(world: World, instrs: seq<Instr>, e: Env)
    requires Undisturbed(world) && AllNops(instrs) && !e.w.m.sr.t
    ensures var o := Block(world, Instructions(instrs, []), e);
            o.Next? && o.e.w == e.w && o.e.missed == e.missed && o.e.dispatched == e.dispatched
  {
    hide Block, OneInstruction, Undisturbed;
    if instrs == [] {
      BlockNone(world, e);
    } else {
      var front, last := instrs[..|instrs| - 1], instrs[|instrs| - 1];
      NopsBlock(world, front, e);
      BlockAppend(world, Instructions(front, []), OneInstruction(last, []), e);
      NopBlock(world, last, Block(world, Instructions(front, []), e).e);
    }
  }

  lemma BlockNone(world: World, e: Env)
    ensures Block(world, [], e) == Next(e)
  {
  }

  lemma {:induction false} NopSteps(world: World, m: State, pc: u24, n: nat, k: nat)
    requires Undisturbed(world) && !m.sr.t && pc % 2 == 0 && pc + 2 * k < 0x100_0000
    ensures Steps(NopRom, world, Running(m, pc, n), k) == Running(m, pc + 2 * k, n + k)
    decreases k
  {
    hide Step;
    if k > 0 {
      assert Step(NopRom, world, Running(m, pc, n)) == Running(m, pc + 2, n + 1) by { NopStep(world, m, pc, n); }
      NopSteps(world, m, pc + 2, n + 1, k - 1);
    }
  }

  lemma NopStep(world: World, m: State, pc: u24, n: nat)
    requires Undisturbed(world) && !m.sr.t && pc % 2 == 0 && pc + 2 < 0x100_0000
    ensures Step(NopRom, world, Running(m, pc, n)) == Running(m, pc + 2, n + 1)
  {
    hide TakeException;
    assert world(n, m) == Event(false, Quiet);
    Euclid(pc + 2, 0x100_0000, 0, pc + 2);
  }

  /** Bodies are cut badly: of a ROM of NOPs the body logs a miss for code that is
      there, and the processor runs on. */
  lemma NopsAreMissed(world: World, limit: nat, e: Env) returns (fuel: nat)
    requires 0 < limit && 2 * limit < 0x100_0000
    requires Undisturbed(world) && Fresh(e) && !e.w.m.sr.t
    ensures CutBadly(NopRom, 0, limit)
    ensures var p := Run(world, BodyCode(NopRom, 0, limit), fuel, 0, e);
            p.Finished? && p.e.missed && p.e.w == e.w
    ensures Steps(NopRom, world, Running(e.w.m, 0, e.n), limit) == Running(e.w.m, 2 * limit, e.n + limit)
    ensures WellFormed(NopRom) && NopRom(2 * limit).Some?
  {
    hide Collect, Instructions, Block, Run, Steps, Exec, EndPc, Undisturbed;
    CollectNops(0, limit);
    NopSteps(world, e.w.m, 0, e.n, limit);
    var instrs := Collect(NopRom, 0, limit).instrs;
    NopsHaveNoLabels(instrs);
    var next := Wrap24(EndPc(0, instrs));
    var code, text := BodyCode(NopRom, 0, limit), Instructions(instrs, []);
    assert code == text + [Miss(next)];
    NopsBlock(world, instrs, e);
    BlockAppend(world, text, [Miss(next)], e);
    MissBlock(world, next, Block(world, text, e).e);
    fuel := BlockLength(world, code, e) + 0;
    assert code == [] + (code + []);
    RunStretch(world, code, [], code, [], e, 0);
    RunOver(world, code, Block(world, code, e).e);
  }

  lemma RunOver(world: World, code: seq<Stmt>, e: Env)
    ensures Run(world, code, 0, |code|, e) == Finished(e)
  {
  }

  // ---------------------------------------------------------------- a body that does not decode

  /** BNE over a word of data, and a NOP behind it. */
  function DataRom(a: u32): Option<Instr> {
    if a == 0 then Some(Instr(0, 2, Bcc(6, 4))) else if a == 4 then Some(Instr(4, 2, Nop)) else None
  }

  lemma DataListing(limit: nat)
    requires limit >= 2
    ensures WellFormed(DataRom) && Collect(DataRom, 0, limit).decodeError == Some(2)
  {
    assert Collect(DataRom, 2, limit - 1).decodeError == Some(2);
  }

  lemma MissRuns(world: World, addr: u24, e: Env)
    ensures Run(world, MissCode(addr), 2, 0, e) == Finished(e.(missed := true))
  {
    var code, e1 := MissCode(addr), e.(missed := true);
    assert code[0] == Miss(addr) && code[1] == Return;
    assert Run(world, code, 1, 1, e1) == Finished(e1);
  }

  /** A word that does not decode leaves nothing of a body but a miss, even where the
      processor jumps over it: the branch is taken, and there is code at its target. */
  lemma DataIsMissed(world: World, limit: nat, e: Env)
    requires limit >= 2 && Undisturbed(world) && Fresh(e) && !e.w.m.sr.t && !e.w.m.sr.z
    ensures WellFormed(DataRom) && !Listed(DataRom, 0, limit)
    ensures Run(world, BodyCode(DataRom, 0, limit), 2, 0, e) == Finished(e.(missed := true))
    ensures Steps(DataRom, world, Running(e.w.m, 0, e.n), 1) == Running(e.w.m, 4, e.n + 1) && DataRom(4).Some?
  {
    hide Collect, WellFormed, Run, MissCode, Undisturbed, Steps, Step;
    DataListing(limit);
    MissRuns(world, 2, e);
    OneStep(DataRom, world, Running(e.w.m, 0, e.n));
    DataStep(world, e.w.m, e.n);
  }

  lemma DataStep(world: World, m: State, n: nat)
    requires Undisturbed(world) && !m.sr.t && !m.sr.z
    ensures Step(DataRom, world, Running(m, 0, n)) == Running(m, 4, n + 1)
  {
    hide TakeException;
    assert world(n, m) == Event(false, Quiet);
  }
}
