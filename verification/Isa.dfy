/** Decoded 68000 instructions (recompiler/src/m68k_decode.h) and what the
    Programmer's Reference Manual says they do.  The decoder itself is a parameter. */
module Isa {
  import opened Machine
  import Alu
  import Shifts

  // ---------------------------------------------------------------- decoded instructions

  datatype IndexReg = IndexReg(r: Reg, isAddr: bool, isLong: bool)

  /** NgM68kEa; the PC-relative modes hold the address the decoder computed. */
  datatype Ea =
    | Dn(r: Reg) | An(r: Reg) | Ind(r: Reg) | PostInc(r: Reg) | PreDec(r: Reg)
    | Disp(r: Reg, d: i16) | Index(r: Reg, ix: IndexReg, d: i16)
    | Abs(addr: u32) | PcDisp(addr: u32) | PcIndex(addr: u32, ix: IndexReg) | Imm(v: u32)
  {
    predicate IsMemory() { !Dn? && !An? && !Imm? }

    /** The control addressing modes, those an effective address can be taken of. */
    predicate IsControl() { IsMemory() && !PostInc? && !PreDec? }

    /** The destinations of MOVE and of ADD/SUB Dn,<ea>. */
    predicate IsAlterable() { Dn? || (IsMemory() && !PcDisp? && !PcIndex?) }
  }

  datatype AluOp = Add | Sub | Cmp

  /** Shift counts come from a data register, modulo 64, or from the instruction. */
  datatype ShiftCount = ByReg(r: Reg) | ByImmediate(n: nat)

  datatype Op =
    | Nop
    | MoveQ(r: Reg, imm: u32)
    | Move(size: Size, src: Ea, dst: Ea)
    | MoveA(size: Size, src: Ea, r: Reg)
    | Lea(src: Ea, r: Reg)
    | AluToReg(alu: AluOp, size: Size, src: Ea, r: Reg)
    | AluToMem(alu: AluOp, size: Size, r: Reg, dst: Ea)
    | AddSubX(sub: bool, size: Size, memory: bool, rs: Reg, rd: Reg)
    | NegX(size: Size, dst: Ea)
    | Shift(turn: Shifts.ShiftOp, size: Size, count: ShiftCount, r: Reg)
    | Bra(target: u32)
    | Bcc(condition: int, target: u32)
    | DBcc(condition: int, r: Reg, target: u32)
    | Bsr(target: u32)
    | Jsr(src: Ea)
    | Jmp(src: Ea)
    | Rts
    | Rte
    | Rtr
    | Trap(number: int)
    | TrapV
    | Illegal(vector: int)
    | Stop(sr: u16)
    | Other(effect: State -> State)  // any further instruction that only changes the machine
    | Unsupported

  datatype Instr = Instr(addr: u32, len: int, op: Op)
  {
    function Next(): u24 { Wrap24(addr + len) }
  }

  /** Operand combinations the validator lets through (recompiler/src/m68k_validate.c). */
  predicate Encodable(op: Op) {
    match op
    case Move(size, src, dst) => dst.IsAlterable() && (src.An? ==> size != B)
    case MoveA(size, src, _) => size != B
    case Lea(src, _) => src.IsControl()
    case AluToReg(_, size, src, _) => src.An? ==> size != B
    case AluToMem(alu, _, _, dst) => !alu.Cmp? && dst.IsAlterable() && dst.IsMemory()
    case NegX(_, dst) => dst.IsAlterable()
    case Bcc(condition, _) => 2 <= condition < 16
    case DBcc(condition, _, _) => 0 <= condition < 16
    case Jsr(src) => src.IsControl()
    case Jmp(src) => src.IsControl()
    case Trap(number) => 0 <= number < 16
    case Illegal(vector) => 0 <= vector < 256
    case _ => true
  }

  /** Decode and validate at an address. */
  type Rom = u32 -> Option<Instr>

  predicate GoodInstr(i: Instr, a: u32) {
    i.addr == a && 0 < i.len <= 10 && i.len % 2 == 0 && a + i.len <= 0x100_0000 && Encodable(i.op)
  }

  /** Every decoded instruction lies in the 24-bit address space and is encodable. */
  ghost predicate WellFormed(rom: Rom) {
    forall a: u32 :: rom(a).Some? ==> GoodInstr(rom(a).value, a)
  }

  // ---------------------------------------------------------------- operands

  function IndexValue(m: State, ix: IndexReg): int {
    var v := if ix.isAddr then m.a[ix.r] else m.d[ix.r];
    if ix.isLong then Signed(v, 0x8000_0000) else Signed(v % 0x1_0000, 0x8000)
  }

  /** The address of a memory operand once any predecrement has been done. */
  function EaAddress(m: State, ea: Ea): u32 {
    match ea
    case Ind(r) => m.a[r]
    case PostInc(r) => m.a[r]
    case PreDec(r) => m.a[r]
    case Disp(r, d) => Wrap32(m.a[r] + d)
    case Index(r, ix, d) => Wrap32(m.a[r] + IndexValue(m, ix) + d)
    case Abs(addr) => addr
    case PcDisp(addr) => addr
    case PcIndex(addr, ix) => Wrap32(addr + IndexValue(m, ix))
    case _ => 0
  }

  function Before(m: State, ea: Ea, size: Size): State {
    if ea.PreDec? then m.AddA(ea.r, -StepBytes(ea.r, size)) else m
  }

  function After(m: State, ea: Ea, size: Size): State {
    if ea.PostInc? then m.AddA(ea.r, StepBytes(ea.r, size)) else m
  }

  /** Fetch an operand; the state returned has any pre- or postincrement done. */
  function Fetch(m: State, ea: Ea, size: Size): (u32, State) {
    match ea
    case Dn(r) => (Low(m.d[r], size), m)
    case An(r) => (Low(m.a[r], size), m)
    case Imm(v) => (Low(v, size), m)
    case _ =>
      var m1 := Before(m, ea, size);
      (ReadSize(m1.mem, EaAddress(m1, ea), size), After(m1, ea, size))
  }

  function Deposit(m: State, ea: Ea, size: Size, v: u32): State {
    if ea.Dn? then m.SetD(ea.r, Merge(m.d[ea.r], size, v))
    else
      var m1 := Before(m, ea, size);
      After(m1.(mem := WriteSize(m1.mem, EaAddress(m1, ea), size, v)), ea, size)
  }

  /** N and Z from a value, V and C cleared, X kept. */
  function MoveFlags(sr: Sr, v: u32, size: Size): Sr {
    sr.(n := Signed(v, size.Half()) < 0, z := v == 0, v := false, c := false)
  }

  function AluResult(alu: AluOp, sr: Sr, dst: u32, src: u32, size: Size): Alu.Result {
    match alu
    case Add => Alu.ManualAdd(sr, dst, src, size.Half())
    case Sub => Alu.ManualSub(sr, dst, src, size.Half())
    case Cmp => Alu.ManualCmp(sr, dst, src, size.Half())
  }

  // ---------------------------------------------------------------- exceptions and stacks

  /** Section 6: SR and PC go on the supervisor stack; S is set and T cleared.
      An interrupt also raises the mask to its level. */
  function EnterException(m: State, returnPc: int, level: Option<int>): State {
    var sp := m.SupervisorSp();
    var frame := Write16(Write32(m.mem, sp - 4, Wrap24(returnPc)), sp - 6, m.sr.Word());
    var mask := if level.Some? then level.value % 8 else m.sr.level;
    State(m.d, m.a[7 := Wrap32(sp - 6)], m.sr.(s := true, t := false, level := mask), m.UserSp(), m.ssp, frame)
  }

  function Vector(m: State, vector: int): u24 { Wrap24(Read32(m.mem, vector * 4)) }

  function TakeException(m: State, returnPc: int, vector: int): (State, u24) {
    var m1 := EnterException(m, returnPc, None);
    (m1, Vector(m1, vector))
  }

  /** Pop a frame, with `sr` for the status register in it. */
  function ReturnWith(m: State, sr: Sr): (State, u24) {
    var sp0: int := m.a[7];
    var pc := Wrap24(Read32(m.mem, sp0 + 2));
    var sp := Wrap32(sp0 + 6);
    (if sr.s then m.(a := m.a[7 := sp], sr := sr) else m.(a := m.a[7 := m.usp], sr := sr, ssp := sp), pc)
  }

  function FrameSr(m: State): Sr { SrOf(Read16(m.mem, m.a[7])) }

  /** Only the bits the processor has are loaded into SR. */
  function LeaveException(m: State): (State, u24) { ReturnWith(m, Implemented(FrameSr(m))) }

  function Push(m: State, v: u32): State {
    var m1 := m.AddA(7, -4);
    m1.(mem := Write32(m1.mem, m1.a[7], v))
  }

  // ---------------------------------------------------------------- one instruction

  datatype Effect = Effect(m: State, next: u24, traceable: bool)

  function Then(m: State, next: int): Effect { Effect(m, Wrap24(next), true) }

  function MoveState(m: State, size: Size, src: Ea, dst: Ea): State {
    var (v, m1) := Fetch(m, src, size);
    var m2 := Deposit(m1, dst, size, v);
    m2.(sr := MoveFlags(m2.sr, v, size))
  }

  function MoveAState(m: State, size: Size, src: Ea, r: Reg): State {
    var (v, m1) := Fetch(m, src, size);
    m1.SetA(r, if size.W? then Extend16(v) else v)
  }

  function AluToRegState(m: State, alu: AluOp, size: Size, src: Ea, r: Reg): State {
    var (v, m1) := Fetch(m, src, size);
    var res := AluResult(alu, m1.sr, Low(m1.d[r], size), v, size);
    (if alu.Cmp? then m1 else m1.SetD(r, Merge(m1.d[r], size, res.value))).(sr := res.sr)
  }

  function AluToMemState(m: State, alu: AluOp, size: Size, r: Reg, dst: Ea): State {
    var m1 := Before(m, dst, size);
    var addr := EaAddress(m1, dst);
    var res := AluResult(alu, m1.sr, ReadSize(m1.mem, addr, size), Low(m1.d[r], size), size);
    After(m1.(mem := WriteSize(m1.mem, addr, size, res.value)), dst, size).(sr := res.sr)
  }

  function ManualX(sub: bool, sr: Sr, dst: u32, src: u32, size: Size): Alu.Result {
    if sub then Alu.ManualSubX(sr, dst, src, size.Half()) else Alu.ManualAddX(sr, dst, src, size.Half())
  }

  function AddSubXState(m: State, sub: bool, size: Size, memory: bool, rs: Reg, rd: Reg): State {
    if memory then
      var m1 := m.AddA(rs, -StepBytes(rs, size));
      var m2 := m1.AddA(rd, -StepBytes(rd, size));
      var r := ManualX(sub, m.sr, ReadSize(m.mem, m2.a[rd], size), ReadSize(m.mem, m1.a[rs], size), size);
      m2.(mem := WriteSize(m.mem, m2.a[rd], size, r.value), sr := r.sr)
    else
      var r := ManualX(sub, m.sr, Low(m.d[rd], size), Low(m.d[rs], size), size);
      m.SetD(rd, Merge(m.d[rd], size, r.value)).(sr := r.sr)
  }

  /** Subtraction with extend of the operand from zero. */
  function NegXState(m: State, size: Size, dst: Ea): State {
    if dst.Dn? then
      var r := Alu.ManualSubX(m.sr, 0, Low(m.d[dst.r], size), size.Half());
      m.SetD(dst.r, Merge(m.d[dst.r], size, r.value)).(sr := r.sr)
    else
      var m1 := Before(m, dst, size);
      var addr := EaAddress(m1, dst);
      var r := Alu.ManualSubX(m.sr, 0, ReadSize(m1.mem, addr, size), size.Half());
      After(m1.(mem := WriteSize(m1.mem, addr, size, r.value)), dst, size).(sr := r.sr)
  }

  function CountOf(m: State, count: ShiftCount): nat {
    match count case ByReg(r) => m.d[r] % 64 case ByImmediate(n) => n
  }

  function ShiftState(m: State, op: Shifts.ShiftOp, size: Size, count: ShiftCount, r: Reg): State {
    var res := Shifts.ManualShift(op, 8 * size.Bytes(), m.sr, Low(m.d[r], size), CountOf(m, count));
    m.SetD(r, Merge(m.d[r], size, res.value)).(sr := res.sr)
  }

  function Restored(m: State): (State, u24) {
    var ccr := SrOf(Read16(m.mem, m.a[7]));
    var sp: int := m.a[7];
    (m.AddA(7, 6).(sr := m.sr.(x := ccr.x, n := ccr.n, z := ccr.z, v := ccr.v, c := ccr.c)),
     Wrap24(Read32(m.mem, sp + 2)))
  }

  function CountedDown(m: State, r: Reg): State {
    var counter: int := Low(m.d[r], W);
    m.SetD(r, Merge(m.d[r], W, counter - 1))
  }

  function Execute(m: State, i: Instr): Effect {
    match i.op
    case Nop => Then(m, i.Next())
    case MoveQ(r, imm) => Then(m.SetD(r, imm).(sr := MoveFlags(m.sr, imm, L)), i.Next())
    case Move(size, src, dst) => Then(MoveState(m, size, src, dst), i.Next())
    case MoveA(size, src, r) => Then(MoveAState(m, size, src, r), i.Next())
    case Lea(src, r) => Then(m.SetA(r, EaAddress(m, src)), i.Next())
    case AluToReg(alu, size, src, r) => Then(AluToRegState(m, alu, size, src, r), i.Next())
    case AluToMem(alu, size, r, dst) => Then(AluToMemState(m, alu, size, r, dst), i.Next())
    case AddSubX(sub, size, memory, rs, rd) => Then(AddSubXState(m, sub, size, memory, rs, rd), i.Next())
    case NegX(size, dst) => Then(NegXState(m, size, dst), i.Next())
    case Shift(turn, size, count, r) => Then(ShiftState(m, turn, size, count, r), i.Next())
    case Bra(target) => Then(m, target)
    case Bcc(condition, target) =>
      Then(m, if Alu.ManualCondition(condition, m.sr) then target else i.Next())
    case DBcc(condition, r, target) =>
      if Alu.ManualCondition(condition, m.sr) then Then(m, i.Next())
      else Then(CountedDown(m, r), if Low(m.d[r], W) != 0 then target else i.Next())
    case Bsr(target) => Then(Push(m, i.Next()), target)
    case Jsr(src) => Then(Push(m, i.Next()), EaAddress(m, src))
    case Jmp(src) => Then(m, EaAddress(m, src))
    case Rts => Then(m.AddA(7, 4), Read32(m.mem, m.a[7]))
    case Rte =>
      if m.sr.s then var (m1, pc) := LeaveException(m); Then(m1, pc)
      else var (m1, pc) := TakeException(m, i.addr, 8); Effect(m1, pc, false)
    case Rtr => var (m1, pc) := Restored(m); Then(m1, pc)
    case Trap(number) => var (m1, pc) := TakeException(m, i.Next(), 32 + number); Then(m1, pc)
    case TrapV =>
      if m.sr.v then var (m1, pc) := TakeException(m, i.Next(), 7); Then(m1, pc) else Then(m, i.Next())
    case Illegal(vector) =>  // the word is not executed: a handler finds it at the address stacked
      var (m1, pc) := TakeException(m, i.addr, if vector == 0 then 4 else vector);
      Effect(m1, pc, false)
    case Stop(_) => var (m1, pc) := TakeException(m, i.addr, 8); Effect(m1, pc, false)
    case Other(effect) => Then(effect(m), i.Next())
    case Unsupported => Then(m, i.Next())
  }

  /** Load all of SR in supervisor mode; clearing S brings back the user stack. */
  function LoadSr(m: State, sr: Sr): State {
    if sr.s then m.(sr := sr) else m.(a := m.a[7 := m.usp], sr := sr, ssp := m.a[7])
  }

  // ---------------------------------------------------------------- the machine as a whole

  /** What the outside world does at an instruction boundary. */
  datatype Interrupt = Quiet | Reset(pc: u32, sp: u32) | Irq(level: int, vector: int)
  datatype Event = Event(yield_: bool, interrupt: Interrupt)

  /** The event at the n-th boundary; it may depend on the machine (masks, devices). */
  type World = (nat, State) -> Event

  datatype Cpu = Running(m: State, pc: u24, n: nat) | Stuck(m: State, pc: u24, n: nat)

  /** Section 6.3.1 of the M68000 User's Manual loads SSP, PC and SR and makes no
      promise about the other registers.  Those stay as ng_service_reset leaves them:
      a user stack pointer held in A7 is overwritten, and the one saved last is kept. */
  function AfterReset(m: State, sp: u32): State {
    m.(a := m.a[7 := sp], sr := SrOf(0x2700), ssp := sp)
  }

  /** The user stack pointer outlives a reset exactly when it was not in A7 alone. */
  lemma ResetKeepsUserStack(m: State, sp: u32)
    ensures AfterReset(m, sp).UserSp() == m.UserSp() <==> m.sr.s || m.a[7] == m.usp
    ensures AfterReset(m, sp).SupervisorSp() == sp
  {
    assert Has(1, 1) && 0x2700 / 32 / 8 / 8 / 4 == 1;
  }

  /** Boundary number n at pc: a yield is invisible, a reset or interrupt replaces
      the instruction, and an instruction begun with T set is followed by a trace
      exception. */
  function Step(rom: Rom, world: World, s: Cpu): Cpu
    requires s.Running?
  {
    if rom(s.pc).None? then Stuck(s.m, s.pc, s.n)
    else if world(s.n, s.m).yield_ then s.(n := s.n + 1)
    else if !world(s.n, s.m).interrupt.Quiet? then Disturbed(world(s.n, s.m).interrupt, s.m, s.pc, s.n + 1)
    else Completed(world, rom(s.pc).value, s.m, s.m.sr.t, s.n + 1)
  }

  function Disturbed(event: Interrupt, m: State, pc: u24, n: nat): Cpu {
    match event
    case Quiet => Running(m, pc, n)
    case Reset(pc1, sp) => Running(AfterReset(m, sp), Wrap24(pc1), n)
    case Irq(level, vector) =>
      var m1 := EnterException(m, pc, Some(level));
      Running(m1, Vector(m1, vector), n)
  }

  /** What the processor makes of an instruction once no event intervenes.  STOP
      waits; the boundary at which the wait ends is part of it. */
  function Completed(world: World, i: Instr, m: State, t: bool, n: nat): Cpu {
    if i.op.Unsupported? then Stuck(m, Wrap24(i.addr), n)
    else if i.op.Stop? && m.sr.s then
      Stopped(world, LoadSr(m, Implemented(SrOf(i.op.sr))), i.Next(), t, n)
    else Traced(Execute(m, i), t, n)
  }

  /** The end of a STOP that has loaded SR. */
  function Stopped(world: World, m: State, next: u24, t: bool, n: nat): Cpu {
    if t then Traced(Effect(m, next, true), t, n) else Disturbed(world(n, m).interrupt, m, next, n + 1)
  }

  function Traced(e: Effect, t: bool, n: nat): Cpu {
    if t && e.traceable then var (m1, pc) := TakeException(e.m, e.next, 9); Running(m1, pc, n)
    else Running(e.m, e.next, n)
  }

  function Steps(rom: Rom, world: World, s: Cpu, k: nat): (r: Cpu)
    decreases k
  {
    if k == 0 || s.Stuck? then s else Steps(rom, world, Step(rom, world, s), k - 1)
  }

  lemma {:induction false} StepsCompose(rom: Rom, world: World, s: Cpu, j: nat, k: nat)
    ensures Steps(rom, world, Steps(rom, world, s, j), k) == Steps(rom, world, s, j + k)
    decreases j
  {
    hide Step;
    if j > 0 && s.Running? {
      StepsCompose(rom, world, Step(rom, world, s), j - 1, k);
    }
  }
}
