/** The emitted statements of one instruction do what the instruction does. */
module InstructionSimulation {
  import opened Machine
  import opened Isa
  import opened Emitter
  import Alu
  import ExtendedArith
  import Shifts

  // ---------------------------------------------------------------- exception frames

  lemma FrameWords(m: State, returnPc: int, saved: Sr, sp: int)
    requires m.a[7] == sp
    ensures PushFrameWords(m, returnPc, saved)
            == m.(a := m.a[7 := Wrap32(sp - 6)],
                  mem := Write16(Write32(m.mem, sp - 4, Wrap24(returnPc)), sp - 6, saved.Word()))
  {
    hide Write16, Write32, SrBits.Word, Wrap32, Wrap24;
    WrapTwice(sp - 4, -2);
    AccessWrapped(m.mem, sp - 4, L, Wrap24(returnPc));
    AccessWrapped(Write32(m.mem, sp - 4, Wrap24(returnPc)), sp - 6, W, saved.Word());
    assert m.a[7 := Wrap32(sp - 4)][7 := Wrap32(sp - 6)] == m.a[7 := Wrap32(sp - 6)];
  }

  lemma FrameIsException(m: State, returnPc: int, level: Option<int>)
    ensures level.None? ==> PushExceptionFrame(m, returnPc) == EnterException(m, returnPc, None)
    ensures level.Some? ==> PushInterruptFrame(m, returnPc, level.value) == EnterException(m, returnPc, level)
  {
    hide PushFrameWords, Write16, Write32, SrBits.Word, Wrap32, Wrap24;
    var mask := if level.Some? then level.value % 8 else m.sr.level;
    FrameWords(SetSr(m, m.sr.(s := true, t := false, level := mask)), returnPc, m.sr, m.SupervisorSp());
    assert m.sr.(s := true, t := false, level := m.sr.level) == m.sr.(s := true, t := false);
  }

  // ---------------------------------------------------------------- running statements in sequence

  lemma {:induction false} PerformAppend(xs: seq<Action>, ys: seq<Action>, w: Work)
    ensures PerformAll(xs + ys, w) == PerformAll(ys, PerformAll(xs, w))
    decreases xs
  {
    hide Perform;
    if xs == [] {
      assert xs + ys == ys;
    } else {
      assert (xs + ys)[1..] == xs[1..] + ys;
      PerformAppend(xs[1..], ys, Perform(xs[0], w));
    }
  }

  lemma PerformOne(a: Action, w: Work)
    ensures PerformAll([a], w) == Perform(a, w)
  {
    hide Perform;
    assert [a][1..] == [];
  }

  lemma PerformPair(a: Action, b: Action, w: Work)
    ensures PerformAll([a] + [b], w) == Perform(b, Perform(a, w))
  {
    hide Perform;
    PerformAppend([a], [b], w);
    PerformOne(a, w);
    PerformOne(b, Perform(a, w));
  }

  lemma BlockOne(world: World, s: Stmt, e: Env)
    ensures Block(world, [s], e) == Exec(world, s, e)
  {
    hide Exec;
    var o := Exec(world, s, e);
    if o.Next? {
      assert Block(world, [s][1..], o.e) == Next(o.e);
    }
  }

  lemma {:induction false} BlockAppend(world: World, xs: seq<Stmt>, ys: seq<Stmt>, e: Env)
    ensures Block(world, xs + ys, e) ==
            var o := Block(world, xs, e); if o.Next? then Block(world, ys, o.e) else o
    decreases xs
  {
    hide Exec;
    if xs == [] {
      assert xs + ys == ys;
    } else {
      assert (xs + ys)[1..] == xs[1..] + ys;
      var o := Exec(world, xs[0], e);
      if o.Next? {
        BlockAppend(world, xs[1..], ys, o.e);
      }
    }
  }

  lemma BlockCons(world: World, s: Stmt, ys: seq<Stmt>, e: Env)
    ensures Block(world, [s] + ys, e) ==
            var o := Exec(world, s, e); if o.Next? then Block(world, ys, o.e) else o
  {
    hide Exec;
    BlockOne(world, s, e);
    BlockAppend(world, [s], ys, e);
  }

  lemma BlockPair(world: World, s: Stmt, t: Stmt, e: Env)
    ensures Block(world, [s] + [t], e) ==
            var o := Exec(world, s, e); if o.Next? then Exec(world, t, o.e) else o
  {
    hide Exec;
    BlockCons(world, s, [t], e);
    var o := Exec(world, s, e);
    if o.Next? {
      BlockOne(world, t, o.e);
    }
  }

  lemma {:induction false} BlockActs(world: World, actions: seq<Action>, rest: seq<Stmt>, e: Env)
    ensures Block(world, Acts(actions) + rest, e) == Block(world, rest, e.(w := PerformAll(actions, e.w)))
    decreases actions
  {
    hide Perform;
    if actions == [] {
      assert Acts(actions) + rest == rest;
    } else {
      assert Acts(actions) + rest == [Do(actions[0])] + (Acts(actions[1..]) + rest);
      BlockCons(world, Do(actions[0]), Acts(actions[1..]) + rest, e);
      BlockActs(world, actions[1..], rest, e.(w := Perform(actions[0], e.w)));
    }
  }

  // ---------------------------------------------------------------- operands

  lemma PlaceIsAddress(m: State, tmp: u32, ea: Ea)
    requires ea.IsMemory()
    ensures PlaceValue(m, tmp, PlaceOf(ea)) == EaAddress(m, ea)
  {
  }

  /** Reading an operand: afterwards the text stands for the operand's value. */
  lemma ReadSimulates(ea: Ea, size: Size, w: Work)
    ensures var r := PerformAll(ReadCode(ea, size), w);
            && r.m == Fetch(w.m, ea, size).1
            && Low(Value(r.m, r.tmp, ReadText(ea, size)), size) == Fetch(w.m, ea, size).0
  {
    hide Low, ReadSize, Wrap32, PerformAll;
    var v := Fetch(w.m, ea, size).0;
    LowOfMerge(0, size, if ea.Imm? then ea.v else if ea.Dn? then w.m.d[ea.r] else 0);
    if ea.IsMemory() {
      LowOfSmall(v, size);
      PlaceIsAddress(w.m, w.tmp, ea);
      if ea.PostInc? {
        PerformPair(SetTmp(Load(size, RegPlace(ea.r))), MoveAddrReg(ea.r, StepBytes(ea.r, size)), w);
      } else if ea.PreDec? {
        PerformPair(MoveAddrReg(ea.r, -StepBytes(ea.r, size)), SetTmp(Load(size, RegPlace(ea.r))), w);
      } else {
        PerformOne(SetTmp(Load(size, PlaceOf(ea))), w);
      }
    } else {
      PerformNone(w);
    }
  }

  lemma PerformNone(w: Work)
    ensures PerformAll([], w) == w
  {
  }

  lemma WriteSimulates(ea: Ea, size: Size, text: Expr, w: Work)
    requires ea.IsAlterable()
    ensures PerformAll(WriteCode(ea, size, text), w)
            == w.(m := Deposit(w.m, ea, size, Low(Value(w.m, w.tmp, text), size)))
  {
    hide WriteSize, Wrap32, PerformAll, Low, Merge, Value, Perform;
    if ea.Dn? {
      PerformOne(SetDataReg(ea.r, size, text), w);
      PerformRegisterWrite(ea.r, size, text, w);
    } else if ea.PostInc? {
      PerformPair(Store(size, RegPlace(ea.r), text), MoveAddrReg(ea.r, StepBytes(ea.r, size)), w);
      PerformStore(size, RegPlace(ea.r), text, w);
      PerformMove(ea.r, StepBytes(ea.r, size), Perform(Store(size, RegPlace(ea.r), text), w));
    } else if ea.PreDec? {
      PerformOne(StorePreDec(size, ea.r, StepBytes(ea.r, size), text), w);
      PerformStoreBelow(size, ea.r, StepBytes(ea.r, size), text, w);
    } else {
      PlaceIsAddress(w.m, w.tmp, ea);
      PerformOne(Store(size, PlaceOf(ea), text), w);
      PerformStore(size, PlaceOf(ea), text, w);
    }
  }

  lemma PerformRegisterWrite(r: Reg, size: Size, text: Expr, w: Work)
    ensures Perform(SetDataReg(r, size, text), w)
            == w.(m := w.m.SetD(r, Merge(w.m.d[r], size, Low(Value(w.m, w.tmp, text), size))))
  {
    hide Value, Low, Merge;
    LowOfMerge(w.m.d[r], size, Value(w.m, w.tmp, text));
  }

  lemma PerformStore(size: Size, at: Place, text: Expr, w: Work)
    ensures Perform(Store(size, at, text), w)
            == w.(m := w.m.(mem := WriteSize(w.m.mem, PlaceValue(w.m, w.tmp, at), size,
                                             Low(Value(w.m, w.tmp, text), size))))
  {
    hide Value, Low, WriteSize, PlaceValue;
  }

  lemma PerformStoreBelow(size: Size, r: Reg, n: int, text: Expr, w: Work)
    ensures Perform(StorePreDec(size, r, n, text), w)
            == w.(m := StoreBelow(w.m, r, n, size, Low(Value(w.m, w.tmp, text), size)))
  {
    hide Value, Low, StoreBelow;
  }

  lemma PerformMove(r: Reg, n: int, w: Work)
    ensures Perform(MoveAddrReg(r, n), w) == w.(m := w.m.AddA(r, n))
  {
  }

  // ---------------------------------------------------------------- data instructions

  /** MOVE of an address register through its own (An)+ or -(An): the text of the
      operand is the register, and it is printed again for the flags. */
  predicate FlagHazard(src: Ea, dst: Ea) {
    src.An? && (dst.PostInc? || dst.PreDec?) && src.r == dst.r
  }

  /** The register of a postincrement or predecrement destination, once moved. */
  function MovedRegister(m: State, size: Size, dst: Ea): u32
    requires dst.PostInc? || dst.PreDec?
  {
    Wrap32(m.a[dst.r] + if dst.PostInc? then StepBytes(dst.r, size) else -StepBytes(dst.r, size))
  }

  /** The corner matters: the register is zero or negative on one side of the move only. */
  predicate MoveCorner(m: State, size: Size, src: Ea, dst: Ea) {
    FlagHazard(src, dst)
    && var v, moved := Low(m.a[src.r], size), Low(MovedRegister(m, size, dst), size);
       (v == 0) != (moved == 0) || (v >= size.Half()) != (moved >= size.Half())
  }

  lemma NzIsMoveFlags(sr: Sr, v: u32, size: Size)
    requires v < size.Modulus()
    ensures SetNzBits(sr, v, size) == MoveFlags(sr, v, size)
  {
  }

  /** What the operand text stands for after the destination has been written. */
  lemma TextSurvivesWrite(src: Ea, dst: Ea, size: Size, w: Work, v: u32)
    requires dst.IsAlterable() && !FlagHazard(src, dst)
    requires v == Low(Value(w.m, w.tmp, ReadText(src, size)), size)
    ensures Low(Value(Deposit(w.m, dst, size, v), w.tmp, ReadText(src, size)), size) == v
  {
    hide Low, Merge, WriteSize, Wrap32;
    if src.Dn? {
      LowOfMerge(w.m.d[src.r], size, v);
      LowOfMerge(0, size, w.m.d[src.r]);
    }
  }

  lemma GenericMoveSimulates(size: Size, src: Ea, dst: Ea, w: Work)
    requires dst.IsAlterable() && !FlagHazard(src, dst)
    ensures PerformAll(GenericMoveCode(size, src, dst), w).m == MoveState(w.m, size, src, dst)
  {
    hide Low, Merge, WriteSize, Fetch, Deposit, ReadCode, WriteCode, ReadText, Value, PerformAll, SetNzBits, MoveFlags;
    var text := ReadText(src, size);
    ReadSimulates(src, size, w);
    var w1 := PerformAll(ReadCode(src, size), w);
    var v := Fetch(w.m, src, size).0;
    WriteSimulates(dst, size, text, w1);
    var w2 := PerformAll(WriteCode(dst, size, text), w1);
    PerformAppend(ReadCode(src, size), WriteCode(dst, size, text) + [SetNz(size, text)], w);
    PerformAppend(WriteCode(dst, size, text), [SetNz(size, text)], w1);
    PerformOne(SetNz(size, text), w2);
    TextSurvivesWrite(src, dst, size, w1, v);
    NzIsMoveFlags(w2.m.sr, v, size);
  }

  lemma MoveSimulates(size: Size, src: Ea, dst: Ea, w: Work)
    requires Encodable(Move(size, src, dst)) && !FlagHazard(src, dst)
    ensures PerformAll(MoveCode(size, src, dst), w).m == MoveState(w.m, size, src, dst)
  {
    hide Low, Merge, WriteSize, ReadSize, PerformAll, SetNzBits, MoveFlags, Wrap32, GenericMoveCode, IndexValue;
    if MoveCode(size, src, dst) == GenericMoveCode(size, src, dst) {
      GenericMoveSimulates(size, src, dst, w);
    } else if dst.Abs? {
      var x := match src case An(r) => AddrReg(r) case Imm(v) => Constant(v) case Dn(r) => DataReg(r, B) case _ => Tmp;
      PerformPair(Store(size, ConstPlace(dst.addr), x), SetNz(size, x), w);
      LowOfMerge(0, size, if src.Imm? then src.v else if src.Dn? then w.m.d[src.r] else w.m.a[src.r]);
      NzIsMoveFlags(w.m.sr, Fetch(w.m, src, size).0, size);
    } else {
      var x := match src
        case Abs(addr) => Load(size, ConstPlace(addr)) case Imm(v) => Constant(v)
        case Disp(r, d) => Load(B, DispPlace(r, d)) case _ => Tmp;
      PerformPair(SetDataReg(dst.r, size, x), SetNz(size, DataReg(dst.r, size)), w);
      var v := Value(w.m, w.tmp, x);
      LowOfMerge(w.m.d[dst.r], size, v);
      if !src.Imm? {
        LowOfSmall(v, size);
      }
      NzIsMoveFlags(w.m.sr, Fetch(w.m, src, size).0, size);
    }
  }

  lemma MoveASimulates(size: Size, src: Ea, r: Reg, w: Work)
    requires size != B
    ensures PerformAll(ReadCode(src, size) + [if size.W? then SetAddrRegExtended(r, ReadText(src, size))
                                              else SetAddrReg(r, ReadText(src, size))], w).m
            == MoveAState(w.m, size, src, r)
  {
    hide ReadSize, Fetch, ReadCode, ReadText, Value, PerformAll, Wrap32, Signed;
    var a := if size.W? then SetAddrRegExtended(r, ReadText(src, size)) else SetAddrReg(r, ReadText(src, size));
    ReadSimulates(src, size, w);
    var w1 := PerformAll(ReadCode(src, size), w);
    PerformAppend(ReadCode(src, size), [a], w);
    PerformOne(a, w1);
  }

  lemma AluIsManual(alu: AluOp, sr: Sr, dst: u32, src: u32, size: Size)
    requires dst < size.Modulus() && src < size.Modulus()
    ensures EmittedAlu(alu, sr, dst, src, size) == AluResult(alu, sr, dst, src, size)
  {
    hide Alu.EmittedAdd, Alu.EmittedSub, Alu.EmittedCmp, Alu.ManualAdd, Alu.ManualSub, Alu.ManualCmp;
    Alu.AddIsManualAdd(sr, dst, src, size.Half());
    Alu.CmpIsManualCmp(sr, dst, src, size.Half());
  }

  lemma AluToRegSimulates(alu: AluOp, size: Size, src: Ea, r: Reg, w: Work)
    ensures PerformAll(ReadCode(src, size) + [AluToRegBlock(alu, size, ReadText(src, size), r)], w).m
            == AluToRegState(w.m, alu, size, src, r)
  {
    hide Low, Merge, ReadSize, Fetch, ReadCode, ReadText, Value, PerformAll, EmittedAlu, AluResult;
    var a := AluToRegBlock(alu, size, ReadText(src, size), r);
    ReadSimulates(src, size, w);
    var w1 := PerformAll(ReadCode(src, size), w);
    PerformAppend(ReadCode(src, size), [a], w);
    PerformOne(a, w1);
    AluIsManual(alu, w1.m.sr, Low(w1.m.d[r], size), Fetch(w.m, src, size).0, size);
  }

  lemma AluToMemSimulates(alu: AluOp, size: Size, r: Reg, dst: Ea, w: Work)
    requires Encodable(AluToMem(alu, size, r, dst))
    ensures PerformAll(AddressCode(dst, size) + [AluToMemBlock(alu, size, DataReg(r, size), AddressText(dst))], w).m
            == AluToMemState(w.m, alu, size, r, dst)
  {
    hide Low, Merge, ReadSize, WriteSize, PerformAll, EmittedAlu, AluResult, Wrap32;
    var a := AluToMemBlock(alu, size, DataReg(r, size), AddressText(dst));
    PerformAppend(AddressCode(dst, size), [a], w);
    var w1 := PerformAll(AddressCode(dst, size), w);
    PerformOne(a, w1);
    if dst.PostInc? {
      PerformPair(SetTmpPlace(RegPlace(dst.r)), MoveAddrReg(dst.r, StepBytes(dst.r, size)), w);
    } else if dst.PreDec? {
      PerformOne(MoveAddrReg(dst.r, -StepBytes(dst.r, size)), w);
    } else {
      PerformNone(w);
    }
    var m1 := Before(w.m, dst, size);
    var addr := EaAddress(m1, dst);
    PlaceIsAddress(m1, w1.tmp, dst);
    LowOfMerge(0, size, w.m.d[r]);
    AluIsManual(alu, w.m.sr, ReadSize(w.m.mem, addr, size), Low(w.m.d[r], size), size);
  }

  lemma DepositMoves(m: State, dst: Ea, size: Size, v: u32)
    requires dst.PostInc? || dst.PreDec?
    ensures Deposit(m, dst, size, v).a[dst.r] == MovedRegister(m, size, dst) && Deposit(m, dst, size, v).sr == m.sr
  {
    hide WriteSize, Wrap32, EaAddress;
  }

  lemma FlagsAfterWrite(size: Size, r: Reg, dst: Ea, w: Work)
    requires dst.IsAlterable()
    ensures var m1 := Deposit(w.m, dst, size, Low(w.m.a[r], size));
            PerformAll(WriteCode(dst, size, AddrReg(r)) + [SetNz(size, AddrReg(r))], w).m
            == m1.(sr := MoveFlags(m1.sr, Low(m1.a[r], size), size))
  {
    hide PerformAll, WriteCode, Low, SetNzBits, MoveFlags, Deposit;
    var text := AddrReg(r);
    WriteSimulates(dst, size, text, w);
    var w1 := PerformAll(WriteCode(dst, size, text), w);
    PerformAppend(WriteCode(dst, size, text), [SetNz(size, text)], w);
    PerformOne(SetNz(size, text), w1);
    LowIsSmall(w1.m.a[r], size);
    NzIsMoveFlags(w1.m.sr, Low(w1.m.a[r], size), size);
  }

  lemma LowIsSmall(v: u32, size: Size)
    ensures Low(v, size) < size.Modulus()
  {
  }

  lemma HazardousCode(size: Size, src: Ea, dst: Ea)
    requires FlagHazard(src, dst)
    ensures MoveCode(size, src, dst) == WriteCode(dst, size, AddrReg(src.r)) + [SetNz(size, AddrReg(src.r))]
  {
    hide WriteCode;
  }

  /** In the corner the flags are those of the register as the destination left it. */
  lemma HazardousMove(size: Size, src: Ea, dst: Ea, w: Work)
    requires Encodable(Move(size, src, dst)) && FlagHazard(src, dst)
    ensures var m1 := MoveState(w.m, size, src, dst);
            && PerformAll(MoveCode(size, src, dst), w).m
               == m1.(sr := MoveFlags(m1.sr, Low(m1.a[src.r], size), size))
            && m1.a[src.r] == MovedRegister(w.m, size, dst)
            && m1.sr == MoveFlags(w.m.sr, Low(w.m.a[src.r], size), size)
  {
    hide PerformAll, WriteCode, MoveCode, Low, Deposit, MovedRegister;
    HazardousCode(size, src, dst);
    FlagsAfterWrite(size, src.r, dst, w);
    DepositMoves(w.m, dst, size, Low(w.m.a[src.r], size));
  }

  /** A machine in which a hazardous MOVE sets the wrong flags: An is zero, so Z
      should be set, but the emitted code tests the register it has already moved. */
  lemma HazardSetsWrongFlags(size: Size, src: Ea, dst: Ea) returns (w: Work)
    requires Encodable(Move(size, src, dst)) && FlagHazard(src, dst)
    ensures !PerformAll(MoveCode(size, src, dst), w).m.sr.z && MoveState(w.m, size, src, dst).sr.z
    ensures MoveCorner(w.m, size, src, dst)
  {
    hide PerformAll, MoveCode, MoveState, SrOf;
    var zero: Regs := [0, 0, 0, 0, 0, 0, 0, 0];
    w := Work(State(zero, zero, SrOf(0), 0, 0, map[]), 0, 0);
    LowOfSmall(0, size);
    HazardousMove(size, src, dst, w);
    assert w.m.a[src.r] == 0;
    assert MovedRegister(w.m, size, dst)
           == Wrap32(if dst.PostInc? then StepBytes(src.r, size) else -StepBytes(src.r, size));
  }

  /** Emitted MOVE is right in every machine exactly when it is not hazardous. */
  lemma MoveRightUnlessHazard(size: Size, src: Ea, dst: Ea)
    requires Encodable(Move(size, src, dst))
    ensures (forall w: Work :: PerformAll(MoveCode(size, src, dst), w).m == MoveState(w.m, size, src, dst))
            <==> !FlagHazard(src, dst)
  {
    hide PerformAll, MoveCode, MoveState;
    if FlagHazard(src, dst) {
      var w := HazardSetsWrongFlags(size, src, dst);
    } else {
      forall w: Work ensures PerformAll(MoveCode(size, src, dst), w).m == MoveState(w.m, size, src, dst) {
        MoveSimulates(size, src, dst, w);
      }
    }
  }

  function ExtendSource(m: State, size: Size, memory: bool, rs: Reg): u32 {
    if memory then ReadSize(m.mem, m.AddA(rs, -StepBytes(rs, size)).a[rs], size) else Low(m.d[rs], size)
  }

  /** SUBX with X set and the largest positive value for its source. */
  predicate SubXCorner(m: State, sub: bool, size: Size, memory: bool, rs: Reg) {
    sub && m.sr.x && ExtendSource(m, size, memory, rs) == size.Half() - 1
  }

  lemma ExtendIsManual(sub: bool, sr: Sr, dst: u32, src: u32, size: Size)
    requires dst < size.Modulus() && src < size.Modulus()
    ensures var r := ManualX(sub, sr, dst, src, size);
            ExtendedArith.Emitted(ExtendedArith.Binary(sub), sr, dst, src, size.Half())
            == r.(sr := r.sr.(v := r.sr.v != (sub && sr.x && src == size.Half() - 1)))
  {
    hide ExtendedArith.EmittedAddX, ExtendedArith.EmittedSubX, Alu.ManualAddX, Alu.ManualSubX;
    if sub {
      ExtendedArith.SubXIsManualSubX(sr, dst, src, size.Half());
    } else {
      ExtendedArith.AddXIsManualAddX(sr, dst, src, size.Half());
    }
  }

  /** Emitted ADDX is the instruction, and so is emitted SUBX but for V in its corner. */
  lemma AddSubXSimulates(sub: bool, size: Size, m: State, memory: bool, rs: Reg, rd: Reg)
    ensures var m1 := AddSubXState(m, sub, size, memory, rs, rd);
            Emitter.AddSubX(sub, size, m, memory, rs, rd)
            == m1.(sr := m1.sr.(v := m1.sr.v != SubXCorner(m, sub, size, memory, rs)))
  {
    hide ReadSize, WriteSize, Low, Merge, Wrap32, ExtendedArith.Emitted, ExtendedArith.Binary, ManualX, StepBytes;
    ExtendIsManual(sub, m.sr, Low(m.d[rd], size), Low(m.d[rs], size), size);
    var m1 := m.AddA(rs, -StepBytes(rs, size));
    var m2 := m1.AddA(rd, -StepBytes(rd, size));
    ExtendIsManual(sub, m.sr, ReadSize(m.mem, m2.a[rd], size), ReadSize(m.mem, m1.a[rs], size), size);
  }

  /** NEGX with X set and the largest positive value for its operand. */
  predicate NegXCorner(m: State, size: Size, dst: Ea) {
    m.sr.x && Fetch(m, dst, size).0 == size.Half() - 1
  }

  /** Emitted NEGX is the instruction but for V in its corner. */
  lemma NegXSimulates(size: Size, dst: Ea, w: Work)
    requires dst.IsAlterable()
    ensures var m1 := NegXState(w.m, size, dst);
            PerformAll(if dst.Dn? then [NegXRegBlock(size, dst.r)]
                       else AddressCode(dst, size) + [NegXMemBlock(size, AddressText(dst))], w).m
            == m1.(sr := m1.sr.(v := m1.sr.v != NegXCorner(w.m, size, dst)))
  {
    hide Low, Merge, ReadSize, WriteSize, PerformAll, ExtendedArith.EmittedNegX, Alu.ManualSubX, Wrap32, AddressCode;
    if dst.Dn? {
      PerformOne(NegXRegBlock(size, dst.r), w);
      ExtendedArith.NegXIsManualNegX(w.m.sr, Low(w.m.d[dst.r], size), size.Half());
    } else {
      var a := NegXMemBlock(size, AddressText(dst));
      PerformAppend(AddressCode(dst, size), [a], w);
      AddressSimulates(dst, size, w);
      var w1 := PerformAll(AddressCode(dst, size), w);
      PerformOne(a, w1);
      var m1 := Before(w.m, dst, size);
      ExtendedArith.NegXIsManualNegX(w.m.sr, ReadSize(m1.mem, EaAddress(m1, dst), size), size.Half());
    }
  }

  /** After the address has been taken, its text stands for the operand's address,
      and any pre- or postincrement has been done. */
  lemma AddressSimulates(dst: Ea, size: Size, w: Work)
    requires dst.IsMemory()
    ensures var m1, w1 := Before(w.m, dst, size), PerformAll(AddressCode(dst, size), w);
            w1.m == After(m1, dst, size) && PlaceValue(w1.m, w1.tmp, AddressText(dst)) == EaAddress(m1, dst)
  {
    hide PerformAll, Wrap32;
    if dst.PostInc? {
      PerformPair(SetTmpPlace(RegPlace(dst.r)), MoveAddrReg(dst.r, StepBytes(dst.r, size)), w);
    } else if dst.PreDec? {
      PerformOne(MoveAddrReg(dst.r, -StepBytes(dst.r, size)), w);
    } else {
      PerformNone(w);
      PlaceIsAddress(w.m, w.tmp, dst);
    }
  }

  lemma ShiftSimulates(op: Shifts.ShiftOp, size: Size, m: State, count: ShiftCount, r: Reg)
    ensures ShiftReg(op, size, m, CountOf(m, count), r) == ShiftState(m, op, size, count, r)
  {
    hide Low, Merge, Shifts.Turns, Shifts.ShiftFlags, Shifts.ManualShift, CountOf;
    Widths(size);
    Shifts.ShiftIsManual(op, 8 * size.Bytes(), m.sr, Low(m.d[r], size), CountOf(m, count));
  }

  lemma Widths(size: Size)
    ensures Shifts.Pow2(8 * size.Bytes() - 1) == size.Half() && size.Modulus() == 2 * size.Half()
  {
    assert Shifts.Pow2(7) == 0x80;
    assert Shifts.Pow2(15) == 0x8000;
    assert Shifts.Pow2(16) == 0x1_0000;
    Shifts.Pow2Sum(15, 16);
  }

  // ---------------------------------------------------------------- stack instructions

  lemma PushSimulates(v: u24, w: Work)
    ensures PerformAll(PushCode(v), w) == w.(m := Push(w.m, v))
  {
    hide PerformAll, Perform, Low, Write32, Wrap32, WriteSize;
    var w1 := w.(m := w.m.AddA(7, -4));
    PerformPair(MoveAddrReg(7, -4), Store(L, RegPlace(7), Constant(v)), w);
    PerformMove(7, -4, w);
    PerformStore(L, RegPlace(7), Constant(v), w1);
    LowOfSmall(v, L);
    var m1 := w1.m;
    LongWrite(m1.mem, m1.a[7], v);
  }

  lemma LongWrite(mem: Mem, addr: int, v: int)
    ensures WriteSize(mem, addr, L, v) == Write32(mem, addr, v)
    ensures ReadSize(mem, addr, L) == Read32(mem, addr)
    ensures ReadSize(mem, addr, W) == Read16(mem, addr)
  {
  }

  lemma PopFrameSimulates(w: Work)
    ensures var sp: int := w.m.a[7];
            PerformAll(PopFrameCode(), w)
            == Work(w.m.(a := w.m.a[7 := Wrap32(sp + 6)]), Read32(w.m.mem, sp + 2), Read16(w.m.mem, sp))
  {
    hide PerformAll, Read16, Read32, ReadSize, Wrap32, Wrap24;
    var sp: int := w.m.a[7];
    var xs := [SetTmpSr(RegPlace(7))] + [MoveAddrReg(7, 2)];
    PerformAppend(xs, [SetTmp(Load(L, RegPlace(7)))] + [MoveAddrReg(7, 4)], w);
    PerformPair(SetTmpSr(RegPlace(7)), MoveAddrReg(7, 2), w);
    PerformPair(SetTmp(Load(L, RegPlace(7))), MoveAddrReg(7, 4), PerformAll(xs, w));
    WrapTwice(sp + 2, 4);
    AccessWrapped(w.m.mem, sp + 2, L, 0);
    LongWrite(w.m.mem, Wrap32(sp + 2), 0);
    LongWrite(w.m.mem, sp + 2, 0);
    assert w.m.a[7 := Wrap32(sp + 2)][7 := Wrap32(sp + 6)] == w.m.a[7 := Wrap32(sp + 6)];
  }

  lemma RteSimulates(w: Work)
    requires w.m.sr.s
    ensures var w1 := PerformAll(PopFrameCode() + [SetSrFromTmp], w);
            ReturnWith(w.m, FrameSr(w.m)) == (w1.m, Wrap24(w1.tmp))
  {
    hide PerformAll, Read16, Read32, Wrap32, Wrap24, SrOf, PopFrameCode;
    PopFrameSimulates(w);
    var w1 := PerformAll(PopFrameCode(), w);
    PerformAppend(PopFrameCode(), [SetSrFromTmp], w);
    PerformOne(SetSrFromTmp, w1);
    var sr := SrOf(w1.tmpSr);
    assert w1.m.a[7 := w.m.usp] == w.m.a[7 := w.m.usp];
  }

  lemma RtrSimulates(w: Work)
    ensures var w1 := PerformAll(PopFrameCode() + [SetCcrFromTmp], w);
            Restored(w.m) == (w1.m, Wrap24(w1.tmp))
  {
    hide PerformAll, Read16, Read32, Wrap32, Wrap24, SrOf, PopFrameCode;
    PopFrameSimulates(w);
    PerformAppend(PopFrameCode(), [SetCcrFromTmp], w);
    PerformOne(SetCcrFromTmp, PerformAll(PopFrameCode(), w));
  }

  // ---------------------------------------------------------------- control

  /** A body that has returned leaves the processor where the processor is: at the
      one address it dispatched to, at g_ng_m68k.pc after a yield, or stuck. */
  predicate AtExit(e: Env, r: Cpu) {
    || (e.dispatched != [] && |e.dispatched| == 1 && !e.missed && r == Running(e.w.m, e.dispatched[0], e.n))
    || (e.dispatched == [] && !e.missed && r == Running(e.w.m, e.pc, e.n))
    || (e.dispatched == [] && e.missed && r.Stuck? && r.m == e.w.m && r.n == e.n)
  }

  predicate Fresh(e: Env) { e.dispatched == [] && !e.missed }

  predicate Agrees(o: Outcome, i: Instr, r: Cpu) {
    match o
    case Next(e) => !EndsBody(i.op) && Fresh(e) && r == Running(e.w.m, i.Next(), e.n)
    case Jump(target, e) => BranchTarget(i.op) == Some(target) && Fresh(e) && r == Running(e.w.m, target, e.n)
    case Exit(e) => AtExit(e, r)
  }

  lemma RaiseIsException(e: Env, to: int, vector: int)
    ensures var (m, pc) := TakeException(e.w.m, Wrap24(to), vector);
            Raise(e, to, vector) == e.(w := e.w.(m := m), dispatched := e.dispatched + [pc])
    ensures TakeException(e.w.m, Wrap24(to), vector) == TakeException(e.w.m, to, vector)
  {
    hide EnterException, PushExceptionFrame, Wrap24, Read32;
    FrameIsException(e.w.m, to, None);
    SameReturn(e.w.m, to);
  }

  lemma SameReturn(m: State, to: int)
    ensures EnterException(m, Wrap24(to), None) == EnterException(m, to, None)
  {
    WrapTwice(to, 0);
  }

  lemma TraceAgrees(e: Env, to: int, next: u24, otherwise: Outcome)
    requires Fresh(e) && next == Wrap24(to)
    ensures var r := Traced(Effect(e.w.m, next, true), e.trace, e.n);
            var o := TraceOr(e, to, otherwise);
            if e.trace then o.Exit? && AtExit(o.e, r) else o == otherwise && r == Running(e.w.m, next, e.n)
  {
    hide TakeException, Raise, Wrap24;
    RaiseIsException(e, to, 9);
  }

  lemma DispatchAgrees(world: World, to: Target, e: Env)
    requires Fresh(e)
    ensures var o := Block(world, DispatchCode(to), e);
            o.Exit? && AtExit(o.e, Traced(Effect(e.w.m, Wrap24(TargetValue(e.w, to)), true), e.trace, e.n))
  {
    hide Block, TargetValue, Wrap24, TakeException, Raise;
    var v := TargetValue(e.w, to);
    BlockCons(world, ServiceTrace(to), [Dispatch(to)] + [Return], e);
    TraceAgrees(e, v, Wrap24(v), Next(e));
    BlockPair(world, Dispatch(to), Return, e);
  }

  lemma EpilogueAgrees(world: World, i: Instr, e: Env)
    requires Fresh(e) && !EndsBody(i.op)
    ensures Agrees(Block(world, EpilogueCode(i), e), i, Traced(Effect(e.w.m, i.Next(), true), e.trace, e.n))
  {
    hide Block, Traced, Wrap24;
    BlockPair(world, SetPc(i.Next()), ServiceTrace(To(Constant(i.Next()))), e);
    var e1 := e.(pc := i.Next());
    WrapTwice(i.addr + i.len, 0);
    TraceAgrees(e1, i.Next(), i.Next(), Next(e1));
  }

  /** A data instruction: straight-line actions, then the epilogue. */
  lemma DataAgrees(world: World, i: Instr, e: Env)
    requires Fresh(e) && !EndsBody(i.op) && ControlCode(i) == []
    ensures Agrees(Block(world, Acts(Actions(i)) + (ControlCode(i) + EpilogueCode(i)), e), i,
                   Traced(Effect(PerformAll(Actions(i), e.w).m, i.Next(), true), e.trace, e.n))
  {
    hide Block, Traced, Wrap24, Actions, PerformAll, EpilogueCode;
    BlockActs(world, Actions(i), ControlCode(i) + EpilogueCode(i), e);
    assert ControlCode(i) + EpilogueCode(i) == EpilogueCode(i);
    EpilogueAgrees(world, i, e.(w := PerformAll(Actions(i), e.w)));
  }

  /** A jump, call or return: straight-line actions, then one dispatch. */
  lemma TransferAgrees(world: World, i: Instr, to: Target, e: Env)
    requires Fresh(e) && EndsBody(i.op) && ControlCode(i) == DispatchCode(to)
    ensures var w1 := PerformAll(Actions(i), e.w);
            Agrees(Block(world, Acts(Actions(i)) + (ControlCode(i) + EpilogueCode(i)), e), i,
                   Traced(Effect(w1.m, Wrap24(TargetValue(w1, to)), true), e.trace, e.n))
  {
    hide Block, Traced, Wrap24, Actions, PerformAll, ControlCode, DispatchCode, TargetValue;
    BlockActs(world, Actions(i), ControlCode(i) + EpilogueCode(i), e);
    assert ControlCode(i) + EpilogueCode(i) == DispatchCode(to);
    DispatchAgrees(world, to, e.(w := PerformAll(Actions(i), e.w)));
  }

  /** A return or STOP is about to load SR bits that the processor does not have, and
      the emitted code keeps. */
  predicate SrCorner(m: State, sr: Sr) { m.sr.s && !IsImplemented(sr) }

  /** The states in which an emitted instruction parts from the processor: MOVE, SUBX,
      NEGX, RTE and STOP in their corners, and ILLEGAL, line A and line F always. */
  predicate Corner(m: State, op: Op) {
    match op
    case Move(size, src, dst) => MoveCorner(m, size, src, dst)
    case AddSubX(sub, size, memory, rs, _) => SubXCorner(m, sub, size, memory, rs)
    case NegX(size, dst) => NegXCorner(m, size, dst)
    case Rte => SrCorner(m, FrameSr(m))
    case Stop(sr) => SrCorner(m, SrOf(sr))
    case Illegal(_) => true
    case _ => false
  }

  /** Instructions that are straight-line actions and nothing else. */
  predicate IsData(op: Op) {
    op.Nop? || op.MoveQ? || op.Move? || op.MoveA? || op.Lea? || op.AluToReg? || op.AluToMem? || op.AddSubX?
    || op.NegX? || op.Shift? || op.Other? || (op.DBcc? && op.condition == 0)
  }

  /** SR as emitted actions leave it, where the instruction leaves it at m1.sr. */
  function EmittedSr(m: State, op: Op, m1: State): Sr {
    match op
    case Move(size, src, dst) =>
      if FlagHazard(src, dst) then MoveFlags(m1.sr, Low(m1.a[src.r], size), size) else m1.sr
    case AddSubX(sub, size, memory, rs, _) => m1.sr.(v := m1.sr.v != SubXCorner(m, sub, size, memory, rs))
    case NegX(size, dst) => m1.sr.(v := m1.sr.v != NegXCorner(m, size, dst))
    case _ => m1.sr
  }

  /** Instructions that compute. */
  predicate IsArithmetic(op: Op) {
    op.AluToReg? || op.AluToMem? || op.AddSubX? || op.NegX? || op.Shift?
  }

  lemma MovingActions(i: Instr, w: Work)
    requires Encodable(i.op) && IsData(i.op) && !IsArithmetic(i.op)
    ensures var m1 := Execute(w.m, i).m;
            && Execute(w.m, i) == Effect(m1, i.Next(), true)
            && PerformAll(Actions(i), w).m == m1.(sr := EmittedSr(w.m, i.op, m1))
  {
    hide PerformAll, MoveCode, ReadCode, ReadText, MoveState, MoveAState;
    hide Merge, EaAddress, PlaceValue, SetNzBits, MoveFlags, FlagHazard, MovedRegister;
    WrapTwice(i.addr + i.len, 0);
    match i.op
    case Nop => PerformNone(w);
    case DBcc(_, _, _) => PerformNone(w);
    case MoveQ(r, imm) => QuickActions(r, imm, w);
    case Move(size, src, dst) =>
      if FlagHazard(src, dst) {
        HazardousMove(size, src, dst, w);
      } else {
        MoveSimulates(size, src, dst, w);
      }
    case MoveA(size, src, r) => MoveASimulates(size, src, r, w);
    case Lea(src, r) =>
      PerformOne(SetAddrRegPlace(r, PlaceOf(src)), w);
      PlaceIsAddress(w.m, w.tmp, src);
    case Other(effect) => PerformOne(OtherBlock(effect), w);
  }

  lemma ArithmeticActions(i: Instr, w: Work)
    requires Encodable(i.op) && IsArithmetic(i.op)
    ensures var m1 := Execute(w.m, i).m;
            && Execute(w.m, i) == Effect(m1, i.Next(), true)
            && PerformAll(Actions(i), w).m == m1.(sr := EmittedSr(w.m, i.op, m1))
  {
    hide PerformAll, ReadCode, ReadText, AddressCode, AddressText, AluToRegState, AluToMemState;
    hide Merge, PlaceValue, Emitter.AddSubX, ShiftReg, AddSubXState, ShiftState, NegXState, SubXCorner, NegXCorner;
    WrapTwice(i.addr + i.len, 0);
    match i.op
    case AluToReg(alu, size, src, r) => AluToRegSimulates(alu, size, src, r, w);
    case AluToMem(alu, size, r, dst) => AluToMemSimulates(alu, size, r, dst, w);
    case AddSubX(sub, size, memory, rs, rd) =>
      PerformOne(AddSubXBlock(sub, size, memory, rs, rd), w);
      AddSubXSimulates(sub, size, w.m, memory, rs, rd);
    case NegX(size, dst) => NegXSimulates(size, dst, w);
    case Shift(turn, size, count, r) =>
      PerformOne(ShiftBlock(turn, size, count, r), w);
      ShiftSimulates(turn, size, w.m, count, r);
  }

  /** The actions of a data instruction make of the machine what the instruction
      makes of it, but for SR in the corners. */
  lemma DataActions(i: Instr, w: Work)
    requires Encodable(i.op) && IsData(i.op)
    ensures var m1 := Execute(w.m, i).m;
            && Execute(w.m, i) == Effect(m1, i.Next(), true)
            && PerformAll(Actions(i), w).m == m1.(sr := EmittedSr(w.m, i.op, m1))
  {
    hide Execute, PerformAll, Actions, EmittedSr, Encodable;
    if IsArithmetic(i.op) {
      ArithmeticActions(i, w);
    } else {
      MovingActions(i, w);
    }
  }

  /** SR comes out right exactly outside the corners. */
  lemma SrRightUnlessCorner(m: State, i: Instr)
    requires Encodable(i.op) && IsData(i.op)
    ensures var m1 := Execute(m, i).m;
            EmittedSr(m, i.op, m1) == m1.sr <==> !Corner(m, i.op)
  {
    hide Low, Merge, EaAddress, MoveState, MoveAState, AluToRegState, AluToMemState, ShiftState, AddSubXState,
         SubXCorner, NegXCorner, NegXState;
    if i.op.Move? && FlagHazard(i.op.src, i.op.dst) {
      HazardousMove(i.op.size, i.op.src, i.op.dst, Work(m, 0, 0));
    }
  }

  lemma QuickActions(r: Reg, imm: u32, w: Work)
    ensures PerformAll([SetDataReg(r, L, Constant(imm))] + [SetNz(L, DataReg(r, L))], w).m
            == w.m.SetD(r, imm).(sr := MoveFlags(w.m.sr, imm, L))
  {
    hide PerformAll, SetNzBits, MoveFlags;
    PerformPair(SetDataReg(r, L, Constant(imm)), SetNz(L, DataReg(r, L)), w);
    LowOfSmall(imm, L);
    NzIsMoveFlags(w.m.sr, imm, L);
  }

  /** Jumps, calls and returns. */
  predicate IsTransfer(op: Op) {
    op.Bsr? || op.Jsr? || op.Jmp? || op.Rts? || op.Rte? || op.Rtr? || op.Trap?
  }

  function TransferTarget(i: Instr): Target
    requires IsTransfer(i.op)
  {
    match i.op
    case Bsr(target) => To(Constant(Wrap24(target)))
    case Jsr(src) => To(if HasConstantTarget(src) then Constant(Wrap24(src.addr)) else Tmp)
    case Jmp(src) => if HasConstantTarget(src) then To(Constant(Wrap24(src.addr))) else ToPlace(PlaceOf(src))
    case _ => To(Tmp)
  }

  /** RTE with all sixteen bits of the frame's status register. */
  function Popped(m: State): Effect {
    var (m1, pc) := ReturnWith(m, FrameSr(m));
    Effect(m1, pc, true)
  }

  lemma TransferActions(i: Instr, w: Work)
    requires Encodable(i.op)
    requires IsTransfer(i.op)
    requires i.op.Rte? ==> w.m.sr.s
    ensures var w1 := PerformAll(Actions(i), w);
            Effect(w1.m, Wrap24(TargetValue(w1, TransferTarget(i))), true)
            == if i.op.Rte? then Popped(w.m) else Execute(w.m, i)
  {
    hide PerformAll, PushCode, PopFrameCode, Push, EaAddress, ReturnWith, Restored, TakeException;
    hide Read32, ReadSize, PlaceOf, PlaceValue, Wrap32, Wrap24;
    match i.op
    case Bsr(target) =>
      PushSimulates(i.Next(), w);
      WrapTwice(target, 0);
    case Jsr(src) =>
      if HasConstantTarget(src) {
        PushSimulates(i.Next(), w);
        WrapTwice(src.addr, 0);
        ConstantAddress(w.m, src);
      } else {
        CallThrough(i.Next(), src, w);
      }
    case Jmp(src) =>
      PerformNone(w);
      if HasConstantTarget(src) {
        WrapTwice(src.addr, 0);
        ConstantAddress(w.m, src);
      } else {
        PlaceIsAddress(w.m, w.tmp, src);
      }
    case Rts =>
      PerformPair(SetTmp(Load(L, RegPlace(7))), MoveAddrReg(7, 4), w);
      ReturnAddress(w);
    case Rte => RteSimulates(w);
    case Rtr => RtrSimulates(w); ReturnWrapped(w.m);
    case Trap(number) =>
      TrapActions(number, i.Next(), w);
      VectorWrapped(w.m, i.Next(), 32 + number);
  }

  lemma ReturnWrapped(m: State)
    ensures Wrap24(Restored(m).1) == Restored(m).1
  {
  }

  lemma VectorWrapped(m: State, returnPc: int, vector: int)
    ensures Wrap24(TakeException(m, returnPc, vector).1) == TakeException(m, returnPc, vector).1
  {
    hide EnterException, Read32;
  }

  lemma ConstantAddress(m: State, src: Ea)
    requires HasConstantTarget(src)
    ensures EaAddress(m, src) == src.addr
  {
  }

  lemma ReturnAddress(w: Work)
    ensures Perform(SetTmp(Load(L, RegPlace(7))), w) == w.(tmp := Read32(w.m.mem, w.m.a[7]))
  {
  }

  lemma CallThrough(next: u24, src: Ea, w: Work)
    requires src.IsMemory()
    ensures PerformAll([SetTmpPlace(PlaceOf(src))] + PushCode(next), w)
            == w.(m := Push(w.m, next), tmp := EaAddress(w.m, src))
  {
    hide PerformAll, PushCode, Push, EaAddress, PlaceOf, PlaceValue;
    PerformAppend([SetTmpPlace(PlaceOf(src))], PushCode(next), w);
    PerformOne(SetTmpPlace(PlaceOf(src)), w);
    PlaceIsAddress(w.m, w.tmp, src);
    PushSimulates(next, w.(tmp := EaAddress(w.m, src)));
  }

  lemma TrapActions(number: int, next: u24, w: Work)
    requires 0 <= number < 16
    ensures var w1 := PerformAll([PushFrame(next)] + [SetTmp(Load(L, ConstPlace((32 + number % 16) * 4)))], w);
            TakeException(w.m, next, 32 + number) == (w1.m, Wrap24(w1.tmp))
  {
    hide PerformAll, PushExceptionFrame, EnterException, Read32, ReadSize;
    PerformPair(PushFrame(next), SetTmp(Load(L, ConstPlace((32 + number % 16) * 4))), w);
    FrameIsException(w.m, next, None);
    LongWrite(EnterException(w.m, next, None).mem, (32 + number) * 4, 0);
  }

  lemma TransferIsDispatch(i: Instr)
    requires IsTransfer(i.op)
    ensures ControlCode(i) == DispatchCode(TransferTarget(i)) && EndsBody(i.op)
  {
    hide DispatchCode;
  }

  // ---------------------------------------------------------------- branches and traps

  lemma BranchAgrees(world: World, i: Instr, e: Env)
    requires Fresh(e) && i.op.Bra?
    ensures Agrees(Block(world, ControlCode(i) + EpilogueCode(i), e), i, Traced(Execute(e.w.m, i), e.trace, e.n))
  {
    hide Block, Traced, Wrap24, EpilogueCode, AtExit, TraceOr;
    var target := Wrap24(i.op.target);
    WrapTwice(i.op.target, 0);
    TraceAgrees(e, target, target, Next(e));
    assert ControlCode(i) + EpilogueCode(i) == [ServiceTrace(To(Constant(target)))] + [Goto(target)] by {
      NoEpilogue(i);
    }
    BlockPair(world, ServiceTrace(To(Constant(target))), Goto(target), e);
  }

  lemma ConditionalBranchAgrees(world: World, i: Instr, e: Env)
    requires Fresh(e) && Encodable(i.op) && i.op.Bcc?
    ensures Agrees(Block(world, ControlCode(i) + EpilogueCode(i), e), i, Traced(Execute(e.w.m, i), e.trace, e.n))
  {
    hide Block, Traced, Wrap24, EpilogueCode, AtExit, TraceOr, Alu.EmittedCondition, Alu.ManualCondition;
    var target := Wrap24(i.op.target);
    WrapTwice(i.op.target, 0);
    WrapTwice(i.addr + i.len, 0);
    TraceAgrees(e, target, target, Jump(target, e));
    ConditionsAgree(i.op.condition, e.w.m.sr);
    BlockCons(world, GotoIf(i.op.condition, target), EpilogueCode(i), e);
    EpilogueAgrees(world, i, e);
  }

  lemma NoEpilogue(i: Instr)
    requires EndsBody(i.op)
    ensures EpilogueCode(i) == []
  {
  }

  lemma ConditionsAgree(condition: int, sr: Sr)
    requires 0 <= condition < 16 && condition != 1
    ensures Alu.EmittedCondition(condition, sr) == Alu.ManualCondition(condition, sr)
  {
  }

  lemma NeverTrue(sr: Sr)
    ensures !Alu.ManualCondition(1, sr)
  {
  }

  lemma CountDownAgrees(e: Env, r: Reg, target: u24)
    ensures var e1 := e.(w := e.w.(m := CountedDown(e.w.m, r)));
            CountDown(e, r, target)
            == if Low(e.w.m.d[r], W) != 0 then TraceOr(e1, target, Jump(target, e1)) else Next(e1)
  {
    hide TraceOr;
    var counter: int := Low(e.w.m.d[r], W);
    if counter == 0 {
      assert (counter + 0xFFFF) % 0x1_0000 == 0xFFFF;
    } else {
      assert counter + 0xFFFF == (counter - 1) + 0x1_0000;
      assert (counter + 0xFFFF) % 0x1_0000 == counter - 1;
    }
    assert (counter - 1) % 0x1_0000 == (counter + 0xFFFF) % 0x1_0000;
  }

  lemma LoopAgrees(world: World, i: Instr, e: Env)
    requires Fresh(e) && Encodable(i.op) && i.op.DBcc? && i.op.condition != 0
    ensures Agrees(Block(world, ControlCode(i) + EpilogueCode(i), e), i, Traced(Execute(e.w.m, i), e.trace, e.n))
  {
    hide Block, Traced, Wrap24, EpilogueCode, AtExit, TraceOr, CountDown, CountedDown, Low;
    hide Alu.EmittedCondition, Alu.ManualCondition;
    var r, target := i.op.r, Wrap24(i.op.target);
    WrapTwice(i.op.target, 0);
    WrapTwice(i.addr + i.len, 0);
    BlockCons(world, CountAndGoto(i.op.condition, r, target), EpilogueCode(i), e);
    if i.op.condition != 1 {
      ConditionsAgree(i.op.condition, e.w.m.sr);
    } else {
      NeverTrue(e.w.m.sr);
    }
    if Alu.ManualCondition(i.op.condition, e.w.m.sr) {
      EpilogueAgrees(world, i, e);
    } else {
      var e1 := e.(w := e.w.(m := CountedDown(e.w.m, r)));
      CountDownAgrees(e, r, target);
      TraceAgrees(e1, target, target, Jump(target, e1));
      EpilogueAgrees(world, i, e1);
    }
  }

  lemma OverflowAgrees(world: World, i: Instr, e: Env)
    requires Fresh(e) && i.op.TrapV?
    ensures Agrees(Block(world, ControlCode(i) + EpilogueCode(i), e), i, Traced(Execute(e.w.m, i), e.trace, e.n))
  {
    hide Block, Traced, EpilogueCode, Overflowed, TakeException, AtExit, Execute;
    WrapTwice(i.addr + i.len, 0);
    BlockCons(world, WhenOverflow(i.Next()), EpilogueCode(i), e);
    OverflowExecutes(e.w.m, i);
    if e.w.m.sr.v {
      OverflowedAgrees(e, i.Next());
    } else {
      EpilogueAgrees(world, i, e);
    }
  }

  lemma OverflowExecutes(m: State, i: Instr)
    requires i.op.TrapV?
    ensures var (m1, pc) := TakeException(m, i.Next(), 7);
            Execute(m, i) == if m.sr.v then Effect(m1, pc, true) else Effect(m, i.Next(), true)
  {
    hide EnterException;
    WrapTwice(i.addr + i.len, 0);
  }

  lemma OverflowedAgrees(e: Env, next: u24)
    requires Fresh(e)
    ensures var (m1, pc) := TakeException(e.w.m, next, 7);
            var o := Overflowed(e, next);
            o.Exit? && AtExit(o.e, Traced(Effect(m1, pc, true), e.trace, e.n))
  {
    hide Traced, Wrap24, Read32, EnterException, PushExceptionFrame, TraceOr;
    FrameIsException(e.w.m, next, None);
    var m1 := EnterException(e.w.m, next, None);
    var e1 := e.(w := e.w.(m := m1));
    var pc := Read32(m1.mem, 7 * 4);
    WrapTwice(pc, 0);
    TraceAgrees(e1, pc, Wrap24(pc), Exit(DispatchTo(e1, pc)));
  }

  function IllegalVector(vector: int): int { if vector == 0 then 4 else vector }

  /** Emitted ILLEGAL, line A and line F are the exception, but for the address they
      stack: the next one, where the processor stacks the instruction's own. */
  lemma IllegalAgrees(world: World, i: Instr, e: Env)
    requires Fresh(e) && i.op.Illegal? && Encodable(i.op)
    ensures var (m1, pc) := TakeException(e.w.m, i.Next(), IllegalVector(i.op.vector));
            Agrees(Block(world, Acts(Actions(i)) + (ControlCode(i) + EpilogueCode(i)), e), i, Running(m1, pc, e.n))
  {
    hide Block, Wrap24, Read32, ReadSize, EnterException, PushExceptionFrame, PerformAll, Acts, Actions;
    var vector := IllegalVector(i.op.vector);
    var to := To(Load(L, ConstPlace(vector * 4)));
    BlockActs(world, Actions(i), ControlCode(i) + EpilogueCode(i), e);
    FrameActions(i, e.w);
    var m1 := EnterException(e.w.m, i.Next(), None);
    assert ControlCode(i) + EpilogueCode(i) == [Dispatch(to)] + [Return];
    DispatchAndReturn(world, to, e.(w := e.w.(m := m1)));
    LongWrite(m1.mem, vector * 4, 0);
  }

  lemma FrameActions(i: Instr, w: Work)
    requires i.op.Illegal?
    ensures PerformAll(Actions(i), w) == w.(m := EnterException(w.m, i.Next(), None))
  {
    hide PerformAll, EnterException, PushExceptionFrame;
    PerformOne(PushFrame(i.Next()), w);
    FrameIsException(w.m, i.Next(), None);
  }

  lemma DispatchAndReturn(world: World, to: Target, e: Env)
    ensures Block(world, [Dispatch(to)] + [Return], e) == Exit(DispatchTo(e, TargetValue(e.w, to)))
  {
    hide Block, TargetValue, DispatchTo;
    BlockPair(world, Dispatch(to), Return, e);
  }

  lemma UnsupportedAgrees(world: World, i: Instr, e: Env)
    requires Fresh(e) && i.op.Unsupported?
    ensures Agrees(Block(world, ControlCode(i) + EpilogueCode(i), e), i, Stuck(e.w.m, Wrap24(i.addr), e.n))
  {
    hide Block;
    assert ControlCode(i) + EpilogueCode(i) == [Miss(Wrap24(i.addr))] + [Return];
    BlockPair(world, Miss(Wrap24(i.addr)), Return, e);
  }

  // ---------------------------------------------------------------- one instruction, start to finish

  lemma WithoutGuard(i: Instr)
    requires !i.op.Rte? && !i.op.Stop?
    ensures InstrCode(i) + EpilogueCode(i) == Acts(Actions(i)) + (ControlCode(i) + EpilogueCode(i))
    ensures Actions(i) == [] ==> InstrCode(i) + EpilogueCode(i) == ControlCode(i) + EpilogueCode(i)
  {
    hide Acts, Actions, ControlCode, EpilogueCode;
    NoActs();
  }

  lemma NoActs()
    ensures Acts([]) == []
  {
  }

  /** What is left of a data instruction's body is the instruction outside the corners,
      and in them the instruction with another SR. */
  lemma DataSimulates(world: World, i: Instr, e: Env)
    requires Fresh(e) && Encodable(i.op) && IsData(i.op)
    ensures !EndsBody(i.op)
    ensures var m1 := Execute(e.w.m, i).m;
            Agrees(Block(world, InstrCode(i) + EpilogueCode(i), e), i,
                   Traced(Effect(m1.(sr := EmittedSr(e.w.m, i.op, m1)), i.Next(), true), e.trace, e.n))
  {
    hide Block, Traced, Execute, Acts, EpilogueCode, Agrees, Encodable, InstrCode, Actions, EmittedSr;
    WithoutGuard(i);
    DataActions(i, e.w);
    DataAgrees(world, i, e);
  }

  lemma InstructionAgrees(world: World, i: Instr, e: Env)
    requires Fresh(e) && Encodable(i.op) && !Corner(e.w.m, i.op)
    ensures Agrees(Block(world, InstrCode(i) + EpilogueCode(i), e), i, Completed(world, i, e.w.m, e.trace, e.n))
  {
    hide Block, Traced, Execute, Acts, EpilogueCode, Agrees, Encodable, InstrCode, Disturbed, EmittedSr, Actions;
    hide MoveCorner, SubXCorner, NegXCorner, SrCorner;
    if !i.op.Rte? && !i.op.Stop? {
      WithoutGuard(i);
    }
    if IsData(i.op) {
      DataSimulates(world, i, e);
      SrRightUnlessCorner(e.w.m, i);
      DataActions(i, e.w);
    } else if IsTransfer(i.op) && !i.op.Rte? {
      TransferActions(i, e.w);
      TransferIsDispatch(i);
      TransferAgrees(world, i, TransferTarget(i), e);
    } else {
      match i.op
      case Unsupported => NoActions(i); UnsupportedAgrees(world, i, e);
      case Bra(_) => NoActions(i); BranchAgrees(world, i, e);
      case Bcc(_, _) => NoActions(i); ConditionalBranchAgrees(world, i, e);
      case DBcc(_, _, _) => NoActions(i); LoopAgrees(world, i, e);
      case TrapV => NoActions(i); OverflowAgrees(world, i, e);
      case Rte => ReturnAgrees(world, i, e);
      case Stop(_) => StopAgrees(world, i, e);
      case _ =>
    }
  }

  lemma NoActions(i: Instr)
    requires i.op.Unsupported? || i.op.Bra? || i.op.Bcc? || i.op.DBcc? || i.op.TrapV?
    ensures Actions(i) == []
  {
  }

  /** Emitted RTE in supervisor mode pops the frame with all sixteen bits. */
  lemma ReturnPops(world: World, i: Instr, e: Env)
    requires Fresh(e) && i.op.Rte? && e.w.m.sr.s
    ensures Agrees(Block(world, InstrCode(i) + EpilogueCode(i), e), i, Traced(Popped(e.w.m), e.trace, e.n))
  {
    hide Block, Traced, Acts, Popped, Agrees, Actions, ControlCode, TransferTarget, EpilogueCode;
    var rest := Acts(Actions(i)) + (ControlCode(i) + EpilogueCode(i));
    assert InstrCode(i) + EpilogueCode(i) == [RequireSupervisor(Wrap24(i.addr))] + rest;
    BlockCons(world, RequireSupervisor(Wrap24(i.addr)), rest, e);
    TransferActions(i, e.w);
    TransferIsDispatch(i);
    TransferAgrees(world, i, TransferTarget(i), e);
  }

  lemma ReturnAgrees(world: World, i: Instr, e: Env)
    requires Fresh(e) && i.op.Rte? && !Corner(e.w.m, i.op)
    ensures Agrees(Block(world, InstrCode(i) + EpilogueCode(i), e), i, Completed(world, i, e.w.m, e.trace, e.n))
  {
    hide Block, Traced, Acts, TakeException, ReturnWith, Raise, FrameSr;
    if e.w.m.sr.s {
      ReturnPops(world, i, e);
    } else {
      var rest := Acts(Actions(i)) + (ControlCode(i) + EpilogueCode(i));
      assert InstrCode(i) + EpilogueCode(i) == [RequireSupervisor(Wrap24(i.addr))] + rest;
      BlockCons(world, RequireSupervisor(Wrap24(i.addr)), rest, e);
      RaiseIsException(e, i.addr, 8);
      WrapTwice(i.addr, 0);
      RaiseIsException(e, Wrap24(i.addr), 8);
      NotTraced(TakeException(e.w.m, i.addr, 8), e.trace, e.n);
    }
  }

  /** ng_service_interrupt does what the processor does at an event. */
  lemma InterruptedAgrees(world: World, e: Env, addr: u24)
    requires Fresh(e)
    ensures var event, o := world(e.n, e.w.m).interrupt, Interrupted(world, e, addr);
            if event.Quiet? then o == Next(e.(n := e.n + 1))
            else o.Exit? && AtExit(o.e, Disturbed(event, e.w.m, addr, e.n + 1))
  {
    hide EnterException, PushInterruptFrame, Read32, SrOf, Wrap24;
    match world(e.n, e.w.m).interrupt
    case Quiet =>
    case Reset(_, _) =>
    case Irq(level, _) => FrameIsException(e.w.m, addr, Some(level));
  }

  lemma PollAgrees(world: World, next: u24, e: Env)
    requires Fresh(e) && e.pc == next
    ensures var o := Block(world, [ServiceInterrupt(next)] + [Return], e);
            o.Exit? && AtExit(o.e, Disturbed(world(e.n, e.w.m).interrupt, e.w.m, next, e.n + 1))
  {
    hide Block, Interrupted, EnterException, AfterReset, Read32, Wrap24;
    BlockPair(world, ServiceInterrupt(next), Return, e);
    InterruptedAgrees(world, e, next);
  }

  lemma StopLoads(i: Instr, w: Work)
    requires i.op.Stop? && w.m.sr.s
    ensures PerformAll(Actions(i), w) == w.(m := LoadSr(w.m, SrOf(i.op.sr)))
  {
    hide PerformAll, SrOf;
    PerformOne(SetSrConstant(i.op.sr), w);
  }

  /** Emitted STOP in supervisor mode loads all sixteen bits. */
  lemma StopLoadsAll(world: World, i: Instr, e: Env)
    requires Fresh(e) && i.op.Stop? && e.w.m.sr.s
    ensures var o := Block(world, InstrCode(i) + EpilogueCode(i), e);
            o.Exit? && AtExit(o.e, Stopped(world, LoadSr(e.w.m, SrOf(i.op.sr)), i.Next(), e.trace, e.n))
  {
    hide Block, Stopped, Acts, LoadSr, StopCode, Actions, SrOf, Wrap24, PerformAll, AtExit;
    var rest := Acts(Actions(i)) + StopCode(i.Next());
    assert InstrCode(i) + EpilogueCode(i) == [RequireSupervisor(Wrap24(i.addr))] + rest;
    BlockCons(world, RequireSupervisor(Wrap24(i.addr)), rest, e);
    BlockActs(world, Actions(i), StopCode(i.Next()), e);
    StopLoads(i, e.w);
    StopCodeAgrees(world, i.Next(), e.(w := e.w.(m := LoadSr(e.w.m, SrOf(i.op.sr)))));
  }

  lemma StopAgrees(world: World, i: Instr, e: Env)
    requires Fresh(e) && i.op.Stop? && !Corner(e.w.m, i.op)
    ensures Agrees(Block(world, InstrCode(i) + EpilogueCode(i), e), i, Completed(world, i, e.w.m, e.trace, e.n))
  {
    hide Block, Traced, Acts, TakeException, Raise, Stopped, LoadSr, StopCode, Actions, SrOf, Wrap24, PerformAll,
         AtExit;
    if e.w.m.sr.s {
      StopLoadsAll(world, i, e);
    } else {
      var rest := Acts(Actions(i)) + StopCode(i.Next());
      assert InstrCode(i) + EpilogueCode(i) == [RequireSupervisor(Wrap24(i.addr))] + rest;
      BlockCons(world, RequireSupervisor(Wrap24(i.addr)), rest, e);
      UserModeStop(i, e);
    }
  }

  lemma UserModeStop(i: Instr, e: Env)
    requires Fresh(e) && i.op.Stop? && !e.w.m.sr.s
    ensures AtExit(Raise(e, Wrap24(i.addr), 8), Traced(Execute(e.w.m, i), e.trace, e.n))
  {
    hide Traced, TakeException, Raise, Wrap24;
    RaiseIsException(e, i.addr, 8);
    WrapTwice(i.addr, 0);
    RaiseIsException(e, Wrap24(i.addr), 8);
    NotTraced(TakeException(e.w.m, i.addr, 8), e.trace, e.n);
  }

  lemma StopCodeAgrees(world: World, next: u24, e: Env)
    requires Fresh(e)
    ensures var o := Block(world, StopCode(next), e);
            o.Exit? && AtExit(o.e, Stopped(world, e.w.m, next, e.trace, e.n))
  {
    hide Block, Traced, Disturbed, AtExit, TraceOr;
    var last := [ServiceInterrupt(next)] + [Return];
    var e1 := e.(pc := next);
    BlockCons(world, StopUntilInterrupt, [SetPc(next)] + ([ServiceTrace(To(Constant(next)))] + last), e);
    BlockCons(world, SetPc(next), [ServiceTrace(To(Constant(next)))] + last, e);
    BlockCons(world, ServiceTrace(To(Constant(next))), last, e1);
    TraceAgrees(e1, next, next, Next(e1));
    PollAgrees(world, next, e1);
  }

  lemma NotTraced(r: (State, u24), t: bool, n: nat)
    ensures Traced(Effect(r.0, r.1, false), t, n) == Running(r.0, r.1, n)
  {
  }
}
