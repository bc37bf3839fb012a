/** The C emitter (recompiler/src/c_emitter.c): the statements it prints, as data,
    what those statements do when the generated program runs, and the emission of
    one function body. */
module Emitter {
  import opened Machine
  import opened Isa
  import Alu
  import ExtendedArith
  import Shifts

  /** NG_EMIT_MAX_INSTRUCTIONS; what follows holds for any limit. */
  const MAX_INSTRUCTIONS := 192

  // ---------------------------------------------------------------- the emitted language

  /** C expressions for an address: emit_ea_address, emit_ea_address_value. */
  datatype Place =
    | RegPlace(r: Reg)
    | DispPlace(r: Reg, d: i16)
    | IndexPlace(r: Reg, ix: IndexReg, d: i16)
    | ConstPlace(addr: u32)
    | ConstIndexPlace(addr: u32, ix: IndexReg)
    | TmpPlace

  /** C expressions for an operand.  They are text: the registers and memory they
      mention are read when the enclosing statement runs. */
  datatype Expr =
    | Constant(v: u32)
    | DataReg(r: Reg, size: Size)
    | AddrReg(r: Reg)
    | Tmp
    | Load(size: Size, at: Place)

  /** Statements that only change the machine and the C locals tmp and ng_sr. */
  datatype Action =
    | SetTmp(e: Expr)                                  // uintN_t tmp = E;
    | SetTmpPlace(at: Place)                           // uint32_t tmp = address;
    | SetTmpSr(at: Place)                              // uint16_t ng_sr = ng68k_read16(E);
    | MoveAddrReg(r: Reg, n: int)                      // g_ng_m68k.a[r] += n;
    | SetDataReg(r: Reg, size: Size, e: Expr)          // g_ng_m68k.d[r] = (d[r] & keep) | (uintN_t)E;
    | SetAddrReg(r: Reg, e: Expr)                      // g_ng_m68k.a[r] = (uint32_t)E;
    | SetAddrRegExtended(r: Reg, e: Expr)              // g_ng_m68k.a[r] = (uint32_t)(int32_t)(int16_t)E;
    | SetAddrRegPlace(r: Reg, at: Place)               // g_ng_m68k.a[r] = (uint32_t)(address);
    | Store(size: Size, at: Place, e: Expr)            // ng68k_writeN(address, (uintN_t)E);
    | StorePreDec(size: Size, r: Reg, n: int, e: Expr) // { v = (uintN_t)E; a[r] -= n; ng68k_writeN(a[r], v); }
    | SetNz(size: Size, e: Expr)                       // ng_set_nzN((uintN_t)E);
    | AluToRegBlock(alu: AluOp, size: Size, e: Expr, r: Reg)
    | AluToMemBlock(alu: AluOp, size: Size, e: Expr, at: Place)
    | AddSubXBlock(sub: bool, size: Size, memory: bool, rs: Reg, rd: Reg)
    | NegXRegBlock(size: Size, r: Reg)
    | NegXMemBlock(size: Size, at: Place)
    | ShiftBlock(turn: Shifts.ShiftOp, size: Size, count: ShiftCount, r: Reg)
    | SetSrFromTmp                                     // ng_set_sr(ng_sr);
    | SetCcrFromTmp                                    // sr = (sr & 0xFFE0) | (ng_ccr & 0x1F);
    | PushFrame(addr: u24)                             // ng_push_exception_frame(X);
    | SetSrConstant(sr: u16)                           // ng_set_sr(X);
    | OtherBlock(effect: State -> State)               // the statements of any other straight-line instruction

  datatype Stmt =
    | Do(action: Action)
    | Label(target: u24)                               // ng_label_X:
    | SetPc(addr: u24)                                 // g_ng_m68k.pc = X;
    | Yield                                            // if (NG_GENERATED_SHOULD_YIELD(X)) return;
    | ServiceInterrupt(addr: u24)                      // if (ng_service_interrupt(X)) return;
    | SaveTrace                                        // ng_trace_sr = g_ng_m68k.sr;
    | ServiceTrace(to: Target)                         // if (ng_service_trace(E, ng_trace_sr)) return;
    | RequireSupervisor(addr: u24)                     // if (!ng_require_supervisor(X)) return;
    | Dispatch(to: Target)                             // NG_GENERATED_DISPATCH(E);
    | Goto(target: u24)                                // goto ng_label_X;
    | GotoIf(condition: int, target: u24)              // if (cc) { if (ng_service_trace(X, ...)) return; goto X; }
    | CountAndGoto(condition: int, r: Reg, target: u24)
    | WhenOverflow(addr: u24)                          // if (sr & V) { push frame; vector 7; trace; dispatch; return; }
    | StopUntilInterrupt                               // ng_m68k_stop_until_interrupt(X);
    | Miss(addr: u24)                                  // ng_log_dispatch_miss(X);
    | Return

  /** What a dispatch is made to: C text for an operand or for an address. */
  datatype Target = To(e: Expr) | ToPlace(at: Place)

  // ---------------------------------------------------------------- what emitted statements do

  /** The machine and the C locals of the running body. */
  datatype Work = Work(m: State, tmp: u32, tmpSr: u16)

  /** The generated program's state: also g_ng_m68k.pc, how many boundaries have
      been polled, ng_trace_sr, and the dispatches and misses made so far. */
  datatype Env = Env(w: Work, pc: u24, n: nat, trace: bool, dispatched: seq<u24>, missed: bool)

  datatype Outcome = Next(e: Env) | Jump(target: u24, e: Env) | Exit(e: Env)

  function PlaceValue(m: State, tmp: u32, at: Place): u32 {
    match at
    case RegPlace(r) => m.a[r]
    case DispPlace(r, d) => Wrap32(m.a[r] + d)
    case IndexPlace(r, ix, d) => Wrap32(m.a[r] + IndexValue(m, ix) + d)
    case ConstPlace(addr) => addr
    case ConstIndexPlace(addr, ix) => Wrap32(addr + IndexValue(m, ix))
    case TmpPlace => tmp
  }

  function Value(m: State, tmp: u32, e: Expr): u32 {
    match e
    case Constant(v) => v
    case DataReg(r, size) => Low(m.d[r], size)
    case AddrReg(r) => m.a[r]
    case Tmp => tmp
    case Load(size, at) => ReadSize(m.mem, PlaceValue(m, tmp, at), size)
  }

  /** ng_set_sr: swap the stack pointer when the supervisor bit changes. */
  function SetSr(m: State, sr: Sr): State {
    if m.sr.s == sr.s then m.(sr := sr)
    else
      var m1 := if m.sr.s then m.(ssp := m.a[7]) else m.(usp := m.a[7]);
      m1.(a := m1.a[7 := if sr.s then m1.ssp else m1.usp], sr := sr)
  }

  function PushFrameWords(m: State, returnPc: int, savedSr: Sr): State {
    var m1 := m.AddA(7, -4);
    var m2 := m1.(mem := Write32(m1.mem, m1.a[7], Wrap24(returnPc)));
    var m3 := m2.AddA(7, -2);
    m3.(mem := Write16(m3.mem, m3.a[7], savedSr.Word()))
  }

  function PushExceptionFrame(m: State, returnPc: int): State {
    PushFrameWords(SetSr(m, m.sr.(s := true, t := false)), returnPc, m.sr)
  }

  function PushInterruptFrame(m: State, returnPc: int, level: int): State {
    PushFrameWords(SetSr(m, m.sr.(s := true, t := false, level := level % 8)), returnPc, m.sr)
  }

  function EmittedAlu(alu: AluOp, sr: Sr, dst: u32, src: u32, size: Size): Alu.Result {
    match alu
    case Add => Alu.EmittedAdd(sr, dst, src, size.Half())
    case Sub => Alu.EmittedSub(sr, dst, src, size.Half())
    case Cmp => Alu.EmittedCmp(sr, dst, src, size.Half())
  }

  /** ng_set_nz8/16/32 */
  function SetNzBits(sr: Sr, v: u32, size: Size): Sr {
    sr.(z := v == 0, n := v >= size.Half(), v := false, c := false)
  }

  function AluToReg(alu: AluOp, size: Size, m: State, src: u32, r: Reg): State {
    var res := EmittedAlu(alu, m.sr, Low(m.d[r], size), src, size);
    (if alu.Cmp? then m else m.SetD(r, Merge(m.d[r], size, res.value))).(sr := res.sr)
  }

  function AluToMem(alu: AluOp, size: Size, m: State, src: u32, addr: u32): State {
    var res := EmittedAlu(alu, m.sr, ReadSize(m.mem, addr, size), src, size);
    m.(mem := WriteSize(m.mem, addr, size, res.value), sr := res.sr)
  }

  /** emit_addsubx */
  function AddSubX(sub: bool, size: Size, m: State, memory: bool, rs: Reg, rd: Reg): State {
    if memory then ExtendedArith.LimbStep(ExtendedArith.Binary(sub), size, m, rs, rd)
    else
      var r := ExtendedArith.Emitted(ExtendedArith.Binary(sub), m.sr, Low(m.d[rd], size), Low(m.d[rs], size),
                                     size.Half());
      m.SetD(rd, Merge(m.d[rd], size, r.value)).(sr := r.sr)
  }

  /** emit_unary_rmw_generic for NEGX */
  function NegXReg(size: Size, m: State, r: Reg): State {
    var res := ExtendedArith.EmittedNegX(m.sr, Low(m.d[r], size), size.Half());
    m.SetD(r, Merge(m.d[r], size, res.value)).(sr := res.sr)
  }

  function NegXMem(size: Size, m: State, addr: u32): State {
    var res := ExtendedArith.EmittedNegX(m.sr, ReadSize(m.mem, addr, size), size.Half());
    m.(mem := WriteSize(m.mem, addr, size, res.value), sr := res.sr)
  }

  /** emit_shift_rotate_dreg: a loop of single-bit turns, then the flags. */
  function ShiftReg(op: Shifts.ShiftOp, size: Size, m: State, n: nat, r: Reg): State {
    var b := Shifts.Turns(op, size.Half(), Shifts.Bits(Low(m.d[r], size), false, false, m.sr.x), n);
    m.SetD(r, Merge(m.d[r], size, b.value)).(sr := Shifts.ShiftFlags(op, size.Half(), m.sr, b, n))
  }

  function StoreBelow(m: State, r: Reg, n: int, size: Size, v: u32): State {
    var m1 := m.AddA(r, -n);
    m1.(mem := WriteSize(m1.mem, m1.a[r], size, v))
  }

  function SetCcr(m: State, ccr: Sr): State {
    m.(sr := m.sr.(x := ccr.x, n := ccr.n, z := ccr.z, v := ccr.v, c := ccr.c))
  }

  function Perform(a: Action, w: Work): Work {
    match a
    case SetTmp(x) => w.(tmp := Value(w.m, w.tmp, x))
    case SetTmpPlace(at) => w.(tmp := PlaceValue(w.m, w.tmp, at))
    case SetTmpSr(at) => w.(tmpSr := Read16(w.m.mem, PlaceValue(w.m, w.tmp, at)))
    case MoveAddrReg(r, n) => w.(m := w.m.AddA(r, n))
    case SetDataReg(r, size, x) => w.(m := w.m.SetD(r, Merge(w.m.d[r], size, Value(w.m, w.tmp, x))))
    case SetAddrReg(r, x) => w.(m := w.m.SetA(r, Value(w.m, w.tmp, x)))
    case SetAddrRegExtended(r, x) => w.(m := w.m.SetA(r, Extend16(Value(w.m, w.tmp, x))))
    case SetAddrRegPlace(r, at) => w.(m := w.m.SetA(r, PlaceValue(w.m, w.tmp, at)))
    case Store(size, at, x) =>
      w.(m := w.m.(mem := WriteSize(w.m.mem, PlaceValue(w.m, w.tmp, at), size, Low(Value(w.m, w.tmp, x), size))))
    case StorePreDec(size, r, n, x) => w.(m := StoreBelow(w.m, r, n, size, Low(Value(w.m, w.tmp, x), size)))
    case SetNz(size, x) => w.(m := w.m.(sr := SetNzBits(w.m.sr, Low(Value(w.m, w.tmp, x), size), size)))
    case AluToRegBlock(alu, size, x, r) => w.(m := AluToReg(alu, size, w.m, Low(Value(w.m, w.tmp, x), size), r))
    case AluToMemBlock(alu, size, x, at) =>
      w.(m := AluToMem(alu, size, w.m, Low(Value(w.m, w.tmp, x), size), PlaceValue(w.m, w.tmp, at)))
    case AddSubXBlock(sub, size, memory, rs, rd) => w.(m := AddSubX(sub, size, w.m, memory, rs, rd))
    case NegXRegBlock(size, r) => w.(m := NegXReg(size, w.m, r))
    case NegXMemBlock(size, at) => w.(m := NegXMem(size, w.m, PlaceValue(w.m, w.tmp, at)))
    case ShiftBlock(turn, size, count, r) => w.(m := ShiftReg(turn, size, w.m, CountOf(w.m, count), r))
    case SetSrFromTmp => w.(m := SetSr(w.m, SrOf(w.tmpSr)))
    case SetCcrFromTmp => w.(m := SetCcr(w.m, SrOf(w.tmpSr)))
    case PushFrame(addr) => w.(m := PushExceptionFrame(w.m, addr))
    case SetSrConstant(sr) => w.(m := SetSr(w.m, SrOf(sr)))
    case OtherBlock(effect) => w.(m := effect(w.m))
  }

  function PerformAll(actions: seq<Action>, w: Work): Work {
    if actions == [] then w else PerformAll(actions[1..], Perform(actions[0], w))
  }

  function TargetValue(w: Work, to: Target): u32 {
    match to case To(x) => Value(w.m, w.tmp, x) case ToPlace(at) => PlaceValue(w.m, w.tmp, at)
  }

  /** NG_GENERATED_DISPATCH masks the address and leaves it pending. */
  function DispatchTo(e: Env, to: int): Env {
    e.(dispatched := e.dispatched + [Wrap24(to)])
  }

  /** Push an exception frame and dispatch to the vector's handler. */
  function Raise(e: Env, returnPc: int, vector: int): Env {
    var m1 := PushExceptionFrame(e.w.m, returnPc);
    DispatchTo(e.(w := e.w.(m := m1)), Read32(m1.mem, vector * 4))
  }

  function TraceOr(e: Env, to: int, otherwise: Outcome): Outcome {
    if e.trace then Exit(Raise(e, to, 9)) else otherwise
  }

  function Interrupted(world: World, e: Env, addr: u24): Outcome {
    var e1 := e.(n := e.n + 1);
    match world(e.n, e.w.m).interrupt
    case Quiet => Next(e1)
    case Reset(pc, sp) =>
      var m1 := e.w.m.(a := e.w.m.a[7 := sp], sr := SrOf(0x2700), ssp := sp);
      Exit(DispatchTo(e1.(w := e.w.(m := m1), pc := Wrap24(pc)), pc))
    case Irq(level, vector) =>
      var m1 := PushInterruptFrame(e.w.m, addr, level);
      Exit(DispatchTo(e1.(w := e.w.(m := m1)), Read32(m1.mem, vector * 4)))
  }

  function CountDown(e: Env, r: Reg, target: u24): Outcome {
    var counter := (Low(e.w.m.d[r], W) + 0xFFFF) % 0x1_0000;
    var e1 := e.(w := e.w.(m := e.w.m.SetD(r, Merge(e.w.m.d[r], W, counter))));
    if counter == 0xFFFF then Next(e1) else TraceOr(e1, target, Jump(target, e1))
  }

  function Overflowed(e: Env, addr: u24): Outcome {
    var m1 := PushExceptionFrame(e.w.m, addr);
    var e1 := e.(w := e.w.(m := m1));
    var pc := Read32(m1.mem, 7 * 4);
    TraceOr(e1, pc, Exit(DispatchTo(e1, pc)))
  }

  function Exec(world: World, s: Stmt, e: Env): Outcome {
    match s
    case Do(action) => Next(e.(w := Perform(action, e.w)))
    case Label(_) => Next(e)
    case SetPc(addr) => Next(e.(pc := addr))
    case Yield => if world(e.n, e.w.m).yield_ then Exit(e.(n := e.n + 1)) else Next(e)
    case ServiceInterrupt(addr) => Interrupted(world, e, addr)
    case SaveTrace => Next(e.(trace := e.w.m.sr.t))
    case ServiceTrace(to) => TraceOr(e, TargetValue(e.w, to), Next(e))
    case RequireSupervisor(addr) => if e.w.m.sr.s then Next(e) else Exit(Raise(e, addr, 8))
    case Dispatch(to) => Next(DispatchTo(e, TargetValue(e.w, to)))
    case Goto(target) => Jump(target, e)
    case GotoIf(condition, target) =>
      if Alu.EmittedCondition(condition, e.w.m.sr) then TraceOr(e, target, Jump(target, e)) else Next(e)
    case CountAndGoto(condition, r, target) =>
      if condition != 1 && Alu.EmittedCondition(condition, e.w.m.sr) then Next(e) else CountDown(e, r, target)
    case WhenOverflow(addr) => if e.w.m.sr.v then Overflowed(e, addr) else Next(e)
    case StopUntilInterrupt => Next(e)
    case Miss(_) => Next(e.(missed := true))
    case Return => Exit(e)
  }

  /** Run statements in order until one of them jumps or returns. */
  function Block(world: World, ss: seq<Stmt>, e: Env): Outcome {
    if ss == [] then Next(e)
    else
      var o := Exec(world, ss[0], e);
      if o.Next? then Block(world, ss[1..], o.e) else o
  }

  datatype Progress = Paused(at: nat, e: Env) | Finished(e: Env) | NoSuchLabel

  /** Position of the first label for an address, or |code|. */
  function LabelAt(code: seq<Stmt>, target: u24): (j: nat)
    ensures j <= |code|
    ensures j < |code| ==> code[j] == Label(target)
    ensures forall k :: 0 <= k < j ==> code[k] != Label(target)
  {
    if code == [] || (code[0].Label? && code[0].target == target) then 0 else 1 + LabelAt(code[1..], target)
  }

  /** Run a function body from position `at` for at most `fuel` statements. */
  function Run(world: World, code: seq<Stmt>, fuel: nat, at: nat, e: Env): Progress
    decreases fuel
  {
    if at >= |code| then Finished(e)
    else if fuel == 0 then Paused(at, e)
    else
      match Exec(world, code[at], e)
      case Next(e1) => Run(world, code, fuel - 1, at + 1, e1)
      case Exit(e1) => Finished(e1)
      case Jump(target, e1) =>
        var j := LabelAt(code, target);
        if j < |code| then Run(world, code, fuel - 1, j, e1) else NoSuchLabel
  }

  // ---------------------------------------------------------------- emitting operands

  /** emit_ea_address_value, and the place emit_ea_read and emit_ea_write access. */
  function PlaceOf(ea: Ea): Place {
    match ea
    case Disp(r, d) => DispPlace(r, d)
    case Index(r, ix, d) => IndexPlace(r, ix, d)
    case Abs(addr) => ConstPlace(addr)
    case PcDisp(addr) => ConstPlace(addr)
    case PcIndex(addr, ix) => ConstIndexPlace(addr, ix)
    case Ind(r) => RegPlace(r)
    case PostInc(r) => RegPlace(r)
    case PreDec(r) => RegPlace(r)
    case _ => TmpPlace
  }

  /** emit_ea_read: statements to run first, and the text to use afterwards. */
  function ReadCode(ea: Ea, size: Size): seq<Action> {
    match ea
    case Dn(_) => []
    case An(_) => []
    case Imm(_) => []
    case PostInc(r) => [SetTmp(Load(size, RegPlace(r)))] + [MoveAddrReg(r, StepBytes(r, size))]
    case PreDec(r) => [MoveAddrReg(r, -StepBytes(r, size))] + [SetTmp(Load(size, RegPlace(r)))]
    case _ => [SetTmp(Load(size, PlaceOf(ea)))]
  }

  function ReadText(ea: Ea, size: Size): Expr {
    match ea
    case Dn(r) => DataReg(r, size)
    case An(r) => AddrReg(r)
    case Imm(v) => Constant(Low(v, size))
    case _ => Tmp
  }

  /** emit_ea_write */
  function WriteCode(ea: Ea, size: Size, text: Expr): seq<Action> {
    match ea
    case Dn(r) => [SetDataReg(r, size, text)]
    case PostInc(r) => [Store(size, RegPlace(r), text)] + [MoveAddrReg(r, StepBytes(r, size))]
    case PreDec(r) => [StorePreDec(size, r, StepBytes(r, size), text)]
    case _ => [Store(size, PlaceOf(ea), text)]
  }

  /** emit_ea_address, with the text of the address. */
  function AddressCode(ea: Ea, size: Size): seq<Action> {
    match ea
    case PostInc(r) => [SetTmpPlace(RegPlace(r))] + [MoveAddrReg(r, StepBytes(r, size))]
    case PreDec(r) => [MoveAddrReg(r, -StepBytes(r, size))]
    case _ => []
  }

  function AddressText(ea: Ea): Place {
    if ea.PostInc? then TmpPlace else PlaceOf(ea)
  }

  // ---------------------------------------------------------------- emitting instructions

  /** The five direct forms of MOVE, then emit_move_generic. */
  function MoveCode(size: Size, src: Ea, dst: Ea): seq<Action> {
    match (src, dst)
    case (An(r), Abs(addr)) =>
      if size.L? then [Store(L, ConstPlace(addr), AddrReg(r))] + [SetNz(L, AddrReg(r))]
      else GenericMoveCode(size, src, dst)
    case (Imm(v), Abs(addr)) =>
      [Store(size, ConstPlace(addr), Constant(v))] + [SetNz(size, Constant(v))]
    case (Abs(addr), Dn(r)) =>
      [SetDataReg(r, size, Load(size, ConstPlace(addr)))] + [SetNz(size, DataReg(r, size))]
    case (Disp(r1, d), Dn(r)) =>
      if size.B? then [SetDataReg(r, B, Load(B, DispPlace(r1, d)))] + [SetNz(B, DataReg(r, B))]
      else GenericMoveCode(size, src, dst)
    case (Dn(r), Abs(addr)) =>
      if size.B? then [Store(B, ConstPlace(addr), DataReg(r, B))] + [SetNz(B, DataReg(r, B))]
      else GenericMoveCode(size, src, dst)
    case (Imm(v), Dn(r)) =>
      [SetDataReg(r, size, Constant(v))] + [SetNz(size, DataReg(r, size))]
    case _ => GenericMoveCode(size, src, dst)
  }

  function GenericMoveCode(size: Size, src: Ea, dst: Ea): seq<Action> {
    var text := ReadText(src, size);
    ReadCode(src, size) + (WriteCode(dst, size, text) + [SetNz(size, text)])
  }

  function PushCode(v: u24): seq<Action> {
    [MoveAddrReg(7, -4)] + [Store(L, RegPlace(7), Constant(v))]
  }

  function PopFrameCode(): seq<Action> {
    ([SetTmpSr(RegPlace(7))] + [MoveAddrReg(7, 2)]) + ([SetTmp(Load(L, RegPlace(7)))] + [MoveAddrReg(7, 4)])
  }

  /** The straight-line part of emit_instr. */
  function Actions(i: Instr): seq<Action> {
    match i.op
    case MoveQ(r, imm) => [SetDataReg(r, L, Constant(imm))] + [SetNz(L, DataReg(r, L))]
    case Move(size, src, dst) => MoveCode(size, src, dst)
    case MoveA(size, src, r) =>
      ReadCode(src, size)
      + [if size.W? then SetAddrRegExtended(r, ReadText(src, size)) else SetAddrReg(r, ReadText(src, size))]
    case Lea(src, r) => [SetAddrRegPlace(r, PlaceOf(src))]
    case AluToReg(alu, size, src, r) => ReadCode(src, size) + [AluToRegBlock(alu, size, ReadText(src, size), r)]
    case AluToMem(alu, size, r, dst) =>
      AddressCode(dst, size) + [AluToMemBlock(alu, size, DataReg(r, size), AddressText(dst))]
    case AddSubX(sub, size, memory, rs, rd) => [AddSubXBlock(sub, size, memory, rs, rd)]
    case NegX(size, dst) =>
      if dst.Dn? then [NegXRegBlock(size, dst.r)]
      else AddressCode(dst, size) + [NegXMemBlock(size, AddressText(dst))]
    case Shift(turn, size, count, r) => [ShiftBlock(turn, size, count, r)]
    case Bsr(_) => PushCode(i.Next())
    case Jsr(src) =>
      if HasConstantTarget(src) then PushCode(i.Next()) else [SetTmpPlace(PlaceOf(src))] + PushCode(i.Next())
    case Rts => [SetTmp(Load(L, RegPlace(7)))] + [MoveAddrReg(7, 4)]
    case Rte => PopFrameCode() + [SetSrFromTmp]
    case Rtr => PopFrameCode() + [SetCcrFromTmp]
    case Trap(number) => [PushFrame(i.Next())] + [SetTmp(Load(L, ConstPlace((32 + number % 16) * 4)))]
    case Illegal(_) => [PushFrame(i.Next())]
    case Stop(sr) => [SetSrConstant(sr)]
    case Other(effect) => [OtherBlock(effect)]
    case _ => []
  }

  /** JSR and JMP to an absolute or PC-relative address use the decoded target. */
  predicate HasConstantTarget(ea: Ea) { ea.Abs? || ea.PcDisp? }

  function DispatchCode(to: Target): seq<Stmt> {
    [ServiceTrace(to)] + ([Dispatch(to)] + [Return])
  }

  function MissCode(addr: u24): seq<Stmt> { [Miss(addr)] + [Return] }

  /** The wait of STOP is left to the host; what follows it is a trace exception, or
      one more look at the interrupts. */
  function StopCode(next: u24): seq<Stmt> {
    [StopUntilInterrupt]
    + ([SetPc(next)] + ([ServiceTrace(To(Constant(next)))] + ([ServiceInterrupt(next)] + [Return])))
  }

  /** The control part of emit_instr, printed after the actions. */
  function ControlCode(i: Instr): seq<Stmt> {
    match i.op
    case Bra(target) => [ServiceTrace(To(Constant(Wrap24(target))))] + [Goto(Wrap24(target))]
    case Bcc(condition, target) => [GotoIf(condition, Wrap24(target))]
    case DBcc(condition, r, target) => if condition == 0 then [] else [CountAndGoto(condition, r, Wrap24(target))]
    case Bsr(target) => DispatchCode(To(Constant(Wrap24(target))))
    case Jsr(src) => DispatchCode(To(if HasConstantTarget(src) then Constant(Wrap24(src.addr)) else Tmp))
    case Jmp(src) =>
      DispatchCode(if HasConstantTarget(src) then To(Constant(Wrap24(src.addr))) else ToPlace(PlaceOf(src)))
    case Rts => DispatchCode(To(Tmp))
    case Rte => DispatchCode(To(Tmp))
    case Rtr => DispatchCode(To(Tmp))
    case Trap(_) => DispatchCode(To(Tmp))
    case TrapV => [WhenOverflow(i.Next())]
    case Illegal(vector) =>
      [Dispatch(To(Load(L, ConstPlace((if vector == 0 then 4 else vector % 256) * 4))))] + [Return]
    case Stop(_) => StopCode(i.Next())
    case Unsupported => MissCode(Wrap24(i.addr))
    case _ => []
  }

  function Acts(actions: seq<Action>): seq<Stmt> {
    if actions == [] then [] else [Do(actions[0])] + Acts(actions[1..])
  }

  /** emit_instr */
  function InstrCode(i: Instr): seq<Stmt> {
    (if i.op.Rte? || i.op.Stop? then [RequireSupervisor(Wrap24(i.addr))] else []) + (Acts(Actions(i)) + ControlCode(i))
  }

  // ---------------------------------------------------------------- emitting a function body

  /** The mnemonics after which emit_function_body stops collecting instructions;
      they are also the ones for which emit_instr returns 0. */
  predicate EndsBody(op: Op) {
    op.Bra? || op.Bsr? || op.Jmp? || op.Jsr? || op.Rts? || op.Stop? || op.Illegal? || op.Trap?
    || op.Rte? || op.Rtr? || op.Unsupported?
  }

  /** instr_has_local_branch_target */
  function BranchTarget(op: Op): Option<u24> {
    match op
    case Bra(target) => Some(Wrap24(target))
    case Bcc(condition, target) => if condition != 1 then Some(Wrap24(target)) else None
    case DBcc(condition, _, target) => if condition != 0 then Some(Wrap24(target)) else None
    case _ => None
  }

  function PrologueCode(i: Instr): seq<Stmt> {
    [SetPc(Wrap24(i.addr))] + ([Yield] + ([ServiceInterrupt(Wrap24(i.addr))] + [SaveTrace]))
  }

  function EpilogueCode(i: Instr): seq<Stmt> {
    if EndsBody(i.op) then [] else [SetPc(i.Next())] + [ServiceTrace(To(Constant(i.Next())))]
  }

  function LabelCode(i: Instr, labels: seq<u24>): seq<Stmt> {
    if Wrap24(i.addr) in labels then [Label(Wrap24(i.addr))] else []
  }

  function OneInstruction(i: Instr, labels: seq<u24>): seq<Stmt> {
    LabelCode(i, labels) + (PrologueCode(i) + (InstrCode(i) + EpilogueCode(i)))
  }

  function Instructions(instrs: seq<Instr>, labels: seq<u24>): seq<Stmt> {
    if instrs == [] then []
    else Instructions(instrs[..|instrs| - 1], labels) + OneInstruction(instrs[|instrs| - 1], labels)
  }

  predicate IsEmitted(instrs: seq<Instr>, target: u24) {
    exists j :: 0 <= j < |instrs| && Wrap24(instrs[j].addr) == target
  }

  /** emit_missing_branch_labels */
  function MissingLabels(instrs: seq<Instr>, labels: seq<u24>): seq<Stmt> {
    if labels == [] then []
    else
      var rest, target := MissingLabels(instrs, labels[..|labels| - 1]), labels[|labels| - 1];
      if IsEmitted(instrs, target) then rest
      else rest + ([Label(target)] + ([Dispatch(To(Constant(target)))] + [Return]))
  }

  /** The instructions collected from `pc` on, at most `limit` of them. */
  datatype Listing = Listing(instrs: seq<Instr>, complete: bool, decodeError: Option<u32>)

  function Collect(rom: Rom, pc: u32, limit: nat): (r: Listing)
    decreases limit
  {
    if limit == 0 then Listing([], false, None)
    else match rom(pc)
      case None => Listing([], false, Some(pc))
      case Some(i) =>
        if EndsBody(i.op) then Listing([i], true, None)
        else
          var rest := Collect(rom, Wrap32(pc + i.len), limit - 1);
          rest.(instrs := [i] + rest.instrs)
  }

  function AddLabel(labels: seq<u24>, op: Op): seq<u24> {
    match BranchTarget(op)
    case None => labels
    case Some(target) => if target in labels then labels else labels + [target]
  }

  function Labels(instrs: seq<Instr>): seq<u24> {
    if instrs == [] then [] else AddLabel(Labels(instrs[..|instrs| - 1]), instrs[|instrs| - 1].op)
  }

  function EndPc(start: u32, instrs: seq<Instr>): int {
    if instrs == [] then start else instrs[|instrs| - 1].addr + instrs[|instrs| - 1].len
  }

  /** emit_function_body: a decode error anywhere leaves nothing but a miss; a body
      cut at the instruction limit ends in a miss after the missing labels. */
  function BodyCode(rom: Rom, start: u32, limit: nat): seq<Stmt> {
    var listing := Collect(rom, start, limit);
    if listing.decodeError.Some? then MissCode(Wrap24(listing.decodeError.value))
    else
      var labels := Labels(listing.instrs);
      Instructions(listing.instrs, labels) + (MissingLabels(listing.instrs, labels)
      + if listing.complete then [] else [Miss(Wrap24(EndPc(start, listing.instrs)))])
  }
}
