/** Exception and interrupt frames nested to any depth, and the RTEs that undo them,
    as the emitted helpers push and pop them. */
module Exceptions {
  import opened Machine
  import opened Isa
  import Emitter
  import opened InstructionSimulation

  /** What happens between two moments of a program: frames with whatever happens
      inside them, bytes written, flags set.  `after` is the rest. */
  datatype Activity =
    | Done
    | Frame(returnPc: u24, level: Option<int>, inside: Activity, after: Activity)
    | Poke(addr: u24, v: int, after: Activity)
    | Flags(ccr: Sr, after: Activity)

  /** Frames live at once, at the deepest. */
  function Depth(x: Activity): nat {
    match x
    case Done => 0
    case Frame(_, _, inside, after) => if 1 + Depth(inside) > Depth(after) then 1 + Depth(inside) else Depth(after)
    case Poke(_, _, after) => Depth(after)
    case Flags(_, after) => Depth(after)
  }

  /** Nothing is written into the `live` frames from sp up. */
  predicate Safe(x: Activity, sp: int, live: nat) {
    match x
    case Done => true
    case Frame(_, _, inside, after) => Safe(inside, sp - 6, live + 1) && Safe(after, sp, live)
    case Poke(addr, _, after) => Wrap24(addr - sp) >= 6 * live && Safe(after, sp, live)
    case Flags(_, after) => Safe(after, sp, live)
  }

  predicate Pokes(x: Activity, b: u24) {
    match x
    case Done => false
    case Frame(_, _, inside, after) => Pokes(inside, b) || Pokes(after, b)
    case Poke(addr, _, after) => addr == b || Pokes(after, b)
    case Flags(_, after) => Pokes(after, b)
  }

  /** ng_push_exception_frame, or ng_push_interrupt_frame with a level */
  function Enter(m: State, returnPc: u24, level: Option<int>): State {
    if level.None? then Emitter.PushExceptionFrame(m, returnPc)
    else Emitter.PushInterruptFrame(m, returnPc, level.value)
  }

  /** The emitted code of RTE in supervisor mode: the machine and the address it
      dispatches to. */
  function Leave(m: State): (State, u24) {
    var w := Emitter.PerformAll(Emitter.PopFrameCode() + [Emitter.SetSrFromTmp], Emitter.Work(m, 0, 0));
    (w.m, Wrap24(w.tmp))
  }

  function Perform(m: State, x: Activity): State
    decreases x
  {
    match x
    case Done => m
    case Frame(returnPc, level, inside, after) => Perform(Leave(Perform(Enter(m, returnPc, level), inside)).0, after)
    case Poke(addr, v, after) => Perform(m.(mem := Write8(m.mem, addr, v)), after)
    case Flags(ccr, after) => Perform(Emitter.SetCcr(m, ccr), after)
  }

  // ---------------------------------------------------------------- what is kept

  /** SR but for the condition codes. */
  predicate SameMode(r: Sr, q: Sr) {
    r == q.(x := r.x, n := r.n, z := r.z, v := r.v, c := r.c)
  }

  /** Registers, mode and both logical stack pointers are as they were. */
  predicate Kept(m: State, m1: State) {
    && m1.d == m.d && m1.a == m.a && SameMode(m1.sr, m.sr)
    && m1.UserSp() == m.UserSp() && m1.SupervisorSp() == m.SupervisorSp()
  }

  /** Bytes that activity x, started with the supervisor stack at sp, leaves alone:
      all but the room for its frames below sp and what it pokes. */
  predicate Clear(x: Activity, sp: int, b: u24) {
    Wrap24(b - sp) + 6 * Depth(x) < 0x100_0000 && !Pokes(x, b)
  }

  ghost predicate SameBytes(m: State, m1: State, x: Activity) {
    forall b: u24 :: Clear(x, m.SupervisorSp(), b) ==> Read8(m1.mem, b) == Read8(m.mem, b)
  }

  lemma EnterIsException(m: State, returnPc: u24, level: Option<int>)
    ensures Enter(m, returnPc, level) == EnterException(m, returnPc, level)
  {
    hide Emitter.PushExceptionFrame, Emitter.PushInterruptFrame, EnterException;
    FrameIsException(m, returnPc, level);
  }

  lemma LeaveIsRte(m: State)
    requires m.sr.s
    ensures Leave(m) == ReturnWith(m, FrameSr(m))
  {
    hide Emitter.PerformAll, ReturnWith, FrameSr, Emitter.PopFrameCode;
    RteSimulates(Emitter.Work(m, 0, 0));
  }

  /** The six bytes of a new frame, and all the others. */
  lemma FrameBytes(mem: Mem, sp: int, pc: u24, sr: Sr)
    ensures var mem1 := Write16(Write32(mem, sp - 4, pc), sp - 6, sr.Word());
            && Read16(mem1, sp - 6) == sr.Word() && Read32(mem1, sp - 4) == pc
            && forall b: u24 :: Wrap24(b - (sp - 6)) >= 6 ==> Read8(mem1, b) == Read8(mem, b)
  {
    hide Read16, Write16, Write32, Read32, Read8, SrBits.Word, Wrap24;
    var mem0 := Write32(mem, sp - 4, pc);
    ReadOwnWord(mem0, sp - 6, sr.Word());
    ReadOwnLong(mem, sp - 4, pc);
    LongApart(mem0, sp - 6, sr.Word());
    forall b: u24 | Wrap24(b - (sp - 6)) >= 6
      ensures Read8(Write16(mem0, sp - 6, sr.Word()), b) == Read8(mem, b)
    {
      OutsideFrame(b, sp);
      WriteFrame(mem, sp - 4, L, pc, b);
      WriteFrame(mem0, sp - 6, W, sr.Word(), b);
      LongWrite(mem, sp - 4, pc);
      WordWrite(mem0, sp - 6, sr.Word());
    }
  }

  lemma WordWrite(mem: Mem, addr: int, v: int)
    ensures WriteSize(mem, addr, W, v) == Write16(mem, addr, v)
  {
  }

  lemma OutsideFrame(b: int, sp: int)
    requires Wrap24(b - (sp - 6)) >= 6
    ensures !Touches(sp - 4, L.Bytes(), b) && !Touches(sp - 6, W.Bytes(), b)
  {
    var q := b - (sp - 6);
    var k := q / 0x100_0000;
    assert q == 0x100_0000 * k + q % 0x100_0000;
    Euclid(b - (sp - 4), 0x100_0000, k, q % 0x100_0000 - 2);
  }

  /** A word written below a long leaves the long alone. */
  lemma LongApart(mem: Mem, addr: int, v: int)
    ensures Read32(Write16(mem, addr, v), addr + 2) == Read32(mem, addr + 2)
  {
    hide Write16, Read8;
    AboveWord(mem, addr, v, 2);
    AboveWord(mem, addr, v, 3);
    AboveWord(mem, addr, v, 4);
    AboveWord(mem, addr, v, 5);
    assert addr + 2 + 1 == addr + 3 && addr + 2 + 2 == addr + 4 && addr + 4 + 1 == addr + 5;
  }

  lemma AboveWord(mem: Mem, addr: int, v: int, i: int)
    requires 2 <= i < 6
    ensures Read8(Write16(mem, addr, v), addr + i) == Read8(mem, addr + i)
  {
    hide Write16, Read8;
    WordWrite(mem, addr, v);
    Euclid(addr + i - addr, 0x100_0000, 0, i);
    WriteFrame(mem, addr, W, v, addr + i);
  }

  predicate Untouched(mem: Mem, mem1: Mem, sp: int, i: nat) {
    Read8(mem1, Wrap24(sp + i)) == Read8(mem, Wrap24(sp + i))
  }

  /** A frame whose bytes are untouched reads back. */
  lemma FrameReadsBack(mem: Mem, mem1: Mem, sp: int)
    requires forall i: nat :: i < 6 ==> Untouched(mem, mem1, sp, i)
    ensures Read16(mem1, sp) == Read16(mem, sp) && Read32(mem1, sp + 2) == Read32(mem, sp + 2)
  {
    hide Read8, Wrap24, Untouched;
    SameByte(mem, mem1, sp, 0);
    SameByte(mem, mem1, sp, 1);
    SameByte(mem, mem1, sp, 2);
    SameByte(mem, mem1, sp, 3);
    SameByte(mem, mem1, sp, 4);
    SameByte(mem, mem1, sp, 5);
    assert sp + 2 + 1 == sp + 3 && sp + 2 + 2 == sp + 4 && sp + 4 + 1 == sp + 5;
    assert sp + 0 == sp;
  }

  lemma SameByte(mem: Mem, mem1: Mem, sp: int, i: nat)
    requires Untouched(mem, mem1, sp, i)
    ensures Read8(mem1, sp + i) == Read8(mem, sp + i)
  {
    WrapTwice(sp + i, 0);
  }

  /** The same address with the stack pointer six lower. */
  lemma SixLower(b: int, sp: int)
    ensures Wrap24(b - sp) + 6 < 0x100_0000 ==> Wrap24(b - Wrap32(sp - 6)) == Wrap24(b - sp) + 6
    ensures Wrap24(b - Wrap32(sp - 6)) == Wrap24(b - (sp - 6))
  {
    var k := (b - sp) / 0x100_0000;
    var k32 := (sp - 6) / 0x1_0000_0000;
    assert sp - 6 == 0x1_0000_0000 * k32 + Wrap32(sp - 6);
    SameRemainder(b - Wrap32(sp - 6), b - (sp - 6), 256 * k32, 0x100_0000);
    if Wrap24(b - sp) + 6 < 0x100_0000 {
      Euclid(b - (sp - 6), 0x100_0000, k, Wrap24(b - sp) + 6);
    }
  }

  lemma SafeWrapped(x: Activity, sp: int, sp1: int, live: nat)
    requires Wrap24(sp) == Wrap24(sp1) && Safe(x, sp, live)
    ensures Safe(x, sp1, live)
  {
    match x
    case Done =>
    case Frame(_, _, inside, after) =>
      SameOffset(sp, sp1, -6);
      SafeWrapped(inside, sp - 6, sp1 - 6, live + 1);
      SafeWrapped(after, sp, sp1, live);
    case Poke(addr, _, after) =>
      SameRemainder(addr - sp, addr - sp1, (sp1 - sp) / 0x100_0000, 0x100_0000);
      SafeWrapped(after, sp, sp1, live);
    case Flags(_, after) => SafeWrapped(after, sp, sp1, live);
  }

  /** What a frame protects is clear of what goes on inside it. */
  lemma {:induction false} LiveIsClear(x: Activity, sp: int, live: nat, b: u24)
    requires Safe(x, sp, live) && Wrap24(b - sp) < 6 * live
    requires 6 * (live + Depth(x)) <= 0x100_0000
    ensures !Pokes(x, b)
  {
    match x
    case Done =>
    case Frame(_, _, inside, after) =>
      SixLower(b, sp);
      LiveIsClear(inside, sp - 6, live + 1, b);
      LiveIsClear(after, sp, live, b);
    case Poke(addr, _, after) => LiveIsClear(after, sp, live, b);
    case Flags(_, after) => LiveIsClear(after, sp, live, b);
  }

  // ---------------------------------------------------------------- the theorem

  /** The frame a handler returns through is the one pushed for it. */
  lemma FrameStands(m: State, returnPc: u24, level: Option<int>, inside: Activity, m2: State, live: nat)
    requires var m1 := Enter(m, returnPc, level);
             Kept(m1, m2) && SameBytes(m1, m2, inside) && Safe(inside, m.SupervisorSp() - 6, live + 1)
    requires 6 * (live + 1 + Depth(inside)) <= 0x100_0000
    ensures var sp1: int := Wrap32(m.SupervisorSp() - 6);
            && m2.a[7] == sp1 && m2.sr.s && m2.usp == m.UserSp()
            && FrameSr(m2) == m.sr && Read32(m2.mem, sp1 + 2) == returnPc
  {
    hide Enter, Read16, Read32, Read8, SrBits.Word, SrOf, Write16, Write32, Wrap32, Wrap24, Clear, Safe;
    EnterIsException(m, returnPc, level);
    var m1 := Enter(m, returnPc, level);
    var sp1: int := Wrap32(m.SupervisorSp() - 6);
    Frames(m, returnPc, level, m1);
    assert m1.SupervisorSp() == sp1;
    forall i: nat | i < 6 ensures Untouched(m1.mem, m2.mem, sp1, i) {
      FrameByteClear(inside, m.SupervisorSp(), live, i);
      assert Clear(inside, m1.SupervisorSp(), Wrap24(sp1 + i));
    }
    FrameReadsBack(m1.mem, m2.mem, sp1);
    SrWordRoundTrip(m.sr);
  }

  /** One frame: back where it was, in the very status register that was pushed, at
      the address that was pushed. */
  lemma FrameRestores(m: State, returnPc: u24, level: Option<int>, inside: Activity, m2: State, live: nat)
    requires var m1 := Enter(m, returnPc, level);
             Kept(m1, m2) && SameBytes(m1, m2, inside) && Safe(inside, m.SupervisorSp() - 6, live + 1)
    requires 6 * (live + 1 + Depth(inside)) <= 0x100_0000
    ensures var (m3, pc) := Leave(m2);
            && pc == returnPc && m3.sr == m.sr && Kept(m, m3) && m3.mem == m2.mem
  {
    hide Enter, Leave, Read16, Read32, Read8, SrBits.Word, FrameSr, Write16, Write32, Wrap32, Wrap24, Safe, SameBytes;
    EnterIsException(m, returnPc, level);
    FrameStands(m, returnPc, level, inside, m2, live);
    var sp: int := m.SupervisorSp();
    var sp1: int := Wrap32(sp - 6);
    LeaveIsRte(m2);
    SmallWrap(returnPc);
    BackAgain(sp);
    assert m2.a[7 := Wrap32(sp1 + 6)] == m.a[7 := sp];
    assert m2.a[7 := m2.usp] == m.a[7 := m2.usp];
    assert m.a[7 := m.a[7]] == m.a;
  }

  lemma BackAgain(sp: u32)
    ensures Wrap32(Wrap32(sp - 6) + 6) == sp
  {
    WrapTwice(sp - 6, 6);
  }

  lemma Frames(m: State, returnPc: u24, level: Option<int>, m1: State)
    requires m1 == EnterException(m, returnPc, level)
    ensures var sp1: int := Wrap32(m.SupervisorSp() - 6);
            Read16(m1.mem, sp1) == m.sr.Word() && Read32(m1.mem, sp1 + 2) == returnPc
    ensures forall b: u24 :: Wrap24(b - (m.SupervisorSp() - 6)) >= 6 ==> Read8(m1.mem, b) == Read8(m.mem, b)
  {
    hide Read16, Read32, Read8, SrBits.Word, Write16, Write32, ReadSize, WriteSize;
    var sp: int := m.SupervisorSp();
    var sp1: int := Wrap32(sp - 6);
    SmallWrap(returnPc);
    FrameBytes(m.mem, sp, returnPc, m.sr);
    AccessWrapped(m1.mem, sp - 6, W, 0);
    WrapTwice(sp - 6, 2);
    SameBus(m1.mem, sp1 + 2, sp - 4, L, 0);
    LongWrite(m1.mem, sp1, 0);
    LongWrite(m1.mem, sp - 6, 0);
    LongWrite(m1.mem, sp1 + 2, 0);
    LongWrite(m1.mem, sp - 4, 0);
    assert sp - 6 + 2 == sp - 4;
  }

  lemma FrameByteClear(inside: Activity, sp: u32, live: nat, i: nat)
    requires i < 6 && Safe(inside, sp - 6, live + 1) && 6 * (live + 1 + Depth(inside)) <= 0x100_0000
    ensures Clear(inside, Wrap32(sp - 6), Wrap24(Wrap32(sp - 6) + i))
  {
    hide Wrap32;
    var sp1: int := Wrap32(sp - 6);
    var b := Wrap24(sp1 + i);
    SixLower(b, sp);
    var k := (sp1 + i) / 0x100_0000;
    Euclid(b - sp1, 0x100_0000, -k, i);
    LiveIsClear(inside, sp - 6, live + 1, b);
  }

  /** Bytes clear of the whole are clear of what is inside the frame and of the frame. */
  lemma ClearInside(returnPc: u24, level: Option<int>, inside: Activity, after: Activity, sp: u32, b: u24)
    requires Clear(Frame(returnPc, level, inside, after), sp, b)
    ensures Clear(inside, Wrap32(sp - 6), b) && Clear(after, sp, b) && Wrap24(b - (sp - 6)) >= 6
  {
    hide Wrap32, Wrap24;
    SixLower(b, sp);
    InRange(b - sp);
  }

  lemma InRange(x: int)
    ensures 0 <= Wrap24(x) < 0x100_0000
  {
  }

  /** For any properly nested activity, from user or supervisor mode: registers, mode
      and both stack pointers are restored, and so is all memory but the room for the
      frames below the supervisor stack pointer and what was deliberately written. */
  lemma {:induction false} NestingRestores(m: State, x: Activity, live: nat)
    requires Safe(x, m.SupervisorSp(), live) && 6 * (live + Depth(x)) <= 0x100_0000
    ensures Kept(m, Perform(m, x)) && SameBytes(m, Perform(m, x), x)
    decreases x
  {
    hide Enter, Leave, Safe, Clear, Read8, Write8, Wrap32, Wrap24, SameBytes;
    match x
    case Done => NothingDone(m);
    case Frame(returnPc, level, inside, after) =>
      FrameParts(returnPc, level, inside, after, m.SupervisorSp(), live);
      var m1 := Enter(m, returnPc, level);
      Entered(m, returnPc, level, inside, live);
      NestingRestores(m1, inside, live + 1);
      var m2 := Perform(m1, inside);
      FrameRestores(m, returnPc, level, inside, m2, live);
      var m3 := Leave(m2).0;
      NestingRestores(m3, after, live);
      FrameKeepsBytes(m, returnPc, level, inside, after, m2, m3, Perform(m3, after));
    case Poke(addr, v, after) =>
      var m1 := m.(mem := Write8(m.mem, addr, v));
      PokeParts(addr, v, after, m.SupervisorSp(), live);
      NestingRestores(m1, after, live);
      PokeKeepsBytes(m, addr, v, after, m1, Perform(m1, after));
    case Flags(ccr, after) =>
      FlagsParts(ccr, after, m.SupervisorSp(), live);
      NestingRestores(Emitter.SetCcr(m, ccr), after, live);
      FlagsKeepBytes(m, ccr, after, Perform(Emitter.SetCcr(m, ccr), after));
  }

  lemma NothingDone(m: State)
    ensures SameBytes(m, m, Done)
  {
  }

  lemma FrameParts(returnPc: u24, level: Option<int>, inside: Activity, after: Activity, sp: int, live: nat)
    requires Safe(Frame(returnPc, level, inside, after), sp, live)
    ensures Safe(inside, sp - 6, live + 1) && Safe(after, sp, live)
  {
  }

  lemma PokeParts(addr: u24, v: int, after: Activity, sp: int, live: nat)
    requires Safe(Poke(addr, v, after), sp, live)
    ensures Safe(after, sp, live)
  {
  }

  lemma FlagsParts(ccr: Sr, after: Activity, sp: int, live: nat)
    requires Safe(Flags(ccr, after), sp, live)
    ensures Safe(after, sp, live)
  {
  }

  lemma Entered(m: State, returnPc: u24, level: Option<int>, inside: Activity, live: nat)
    requires Safe(inside, m.SupervisorSp() - 6, live + 1)
    ensures var m1 := Enter(m, returnPc, level);
            && m1.SupervisorSp() == Wrap32(m.SupervisorSp() - 6)
            && Safe(inside, m1.SupervisorSp(), live + 1)
  {
    hide Enter, Write16, Write32, SrBits.Word, Safe;
    EnterIsException(m, returnPc, level);
    WrapTwice(m.SupervisorSp() - 6, 0);
    SafeWrapped(inside, m.SupervisorSp() - 6, Wrap32(m.SupervisorSp() - 6), live + 1);
  }

  lemma FrameKeepsBytes(m: State, returnPc: u24, level: Option<int>, inside: Activity, after: Activity,
                        m2: State, m3: State, m4: State)
    requires SameBytes(Enter(m, returnPc, level), m2, inside) && m3.mem == m2.mem
    requires m3.SupervisorSp() == m.SupervisorSp() && SameBytes(m3, m4, after)
    ensures SameBytes(m, m4, Frame(returnPc, level, inside, after))
  {
    hide Enter, Clear, Read8, Read16, Read32, Write16, Write32, SrBits.Word, Wrap32, Wrap24;
    var m1 := Enter(m, returnPc, level);
    EnterIsException(m, returnPc, level);
    Frames(m, returnPc, level, m1);
    forall b: u24 | Clear(Frame(returnPc, level, inside, after), m.SupervisorSp(), b)
      ensures Read8(m4.mem, b) == Read8(m.mem, b)
    {
      ClearInside(returnPc, level, inside, after, m.SupervisorSp(), b);
    }
  }

  lemma PokeKeepsBytes(m: State, addr: u24, v: int, after: Activity, m1: State, m2: State)
    requires m1 == m.(mem := Write8(m.mem, addr, v)) && SameBytes(m1, m2, after)
    ensures SameBytes(m, m2, Poke(addr, v, after))
  {
    forall b: u24 | Clear(Poke(addr, v, after), m.SupervisorSp(), b) ensures Read8(m2.mem, b) == Read8(m.mem, b) {
      assert Clear(after, m1.SupervisorSp(), b);
    }
  }

  lemma FlagsKeepBytes(m: State, ccr: Sr, after: Activity, m2: State)
    requires SameBytes(Emitter.SetCcr(m, ccr), m2, after)
    ensures SameBytes(m, m2, Flags(ccr, after))
  {
    hide Read8, Wrap24;
    forall b: u24 | Clear(Flags(ccr, after), m.SupervisorSp(), b) ensures Read8(m2.mem, b) == Read8(m.mem, b) {
      assert Clear(after, Emitter.SetCcr(m, ccr).SupervisorSp(), b);
    }
  }

  /** The outermost RTE dispatches to the address its frame pushed, with the status
      register exactly as it was, however deep the nesting inside. */
  lemma FrameReturns(m: State, returnPc: u24, level: Option<int>, inside: Activity)
    requires Safe(inside, m.SupervisorSp() - 6, 1) && 6 * (1 + Depth(inside)) <= 0x100_0000
    ensures var (m1, pc) := Leave(Perform(Enter(m, returnPc, level), inside));
            pc == returnPc && m1.sr == m.sr && Kept(m, m1)
  {
    hide Enter, Leave, Safe, Kept, SameBytes;
    var m1 := Enter(m, returnPc, level);
    Entered(m, returnPc, level, inside, 0);
    NestingRestores(m1, inside, 1);
    FrameRestores(m, returnPc, level, inside, Perform(m1, inside), 0);
  }

  /** From a status register without the bits that the processor does not have, the
      RTE that ends a nested handler never loads any: it is not in its corner. */
  lemma HandlersReturnWell(m: State, returnPc: u24, level: Option<int>, inside: Activity)
    requires Safe(inside, m.SupervisorSp() - 6, 1) && 6 * (1 + Depth(inside)) <= 0x100_0000
    requires IsImplemented(m.sr)
    ensures !Corner(Perform(Enter(m, returnPc, level), inside), Rte)
  {
    hide Enter, Safe, Kept, SameBytes, FrameSr;
    var m1 := Enter(m, returnPc, level);
    Entered(m, returnPc, level, inside, 0);
    NestingRestores(m1, inside, 1);
    FrameStands(m, returnPc, level, inside, Perform(m1, inside), 0);
  }
}
