/** Discovery and emission fit together: whatever constant address the generated code
    can jump to, dispatch to or push as a return address is a case of the generated
    dispatch switch, provided there is code there. */
module DispatchClosure {
  import opened Machine
  import opened Isa
  import opened Emitter
  import opened BodyLayout
  import D = Discovery
  import Sharded = ShardedDispatch

  // ---------------------------------------------------------------- a flat ROM

  /** No banks; every instruction lies below the top of the address space, and every
      static target is a 24-bit address. */
  ghost predicate FlatRom(c: D.Cartridge) {
    && (forall a: u32 :: !c.banked(a))
    && WellFormed(c.view(c.active))
    && (forall a: u32 :: c.view(c.active)(a).Some? ==> BelowTop(c.view(c.active)(a).value))
  }

  predicate BelowTop(i: Instr) {
    && i.addr + i.len < 0x100_0000
    && (D.StaticTarget(i.op).Some? ==> D.StaticTarget(i.op).value < 0x100_0000)
  }

  ghost predicate FlatSeeds(c: D.Cartridge, seeds: seq<D.Ask>) {
    forall k :: 0 <= k < |seeds| ==> seeds[k].bank == c.active && seeds[k].kind.Entry?
  }

  predicate Probable(c: D.Cartridge, a: u32) { c.Probable(c.active, a) }

  function KeyFact(a: u32): D.Fact { D.Fact(a, D.NO_BANK, D.Label) }

  ghost predicate Known(c: D.Cartridge, s: iset<D.Fact>, a: u32) {
    Probable(c, a) ==> KeyFact(a) in s
  }

  /** The static successors of the instruction at a are known. */
  ghost predicate Reaches(c: D.Cartridge, s: iset<D.Fact>, a: u32) {
    c.IsCode(c.active, a) ==>
      var i := c.view(c.active)(a).value;
      && (!D.StopsScan(i.op) || D.Returns(i.op) ==> Known(c, s, Wrap32(a + i.len)))
      && (D.StaticTarget(i.op).Some? ==> Known(c, s, D.StaticTarget(i.op).value))
  }

  // ---------------------------------------------------------------- what a scan covers

  lemma IncludesParts(c: D.Cartridge, s: iset<D.Fact>, xs: seq<D.Ask>, ys: seq<D.Ask>)
    requires D.Includes(c, s, xs + ys)
    ensures D.Includes(c, s, xs) && D.Includes(c, s, ys)
  {
    hide D.FactOf;
    forall k | 0 <= k < |xs| && c.Probable(xs[k].bank, xs[k].addr) ensures D.FactOf(c, xs[k]) in s {
      assert (xs + ys)[k] == xs[k];
    }
    forall k | 0 <= k < |ys| && c.Probable(ys[k].bank, ys[k].addr) ensures D.FactOf(c, ys[k]) in s {
      assert (xs + ys)[|xs| + k] == ys[k];
    }
  }

  lemma OneIncluded(c: D.Cartridge, s: iset<D.Fact>, a: u32, kind: D.Kind)
    requires FlatRom(c) && D.Downward(s) && D.Includes(c, s, [D.Ask(c.active, a, kind)])
    ensures Known(c, s, a)
  {
    hide WellFormed, BelowTop;
    var asks := [D.Ask(c.active, a, kind)];
    if Probable(c, a) {
      assert D.FactOf(c, asks[0]) in s;
    }
  }

  /** Scanning from pc makes known the successors of the instruction there, and of
      every later one the scan puts a label on. */
  lemma {:induction false} ScanCovers(c: D.Cartridge, scanner: D.Scanner, start: u32, pc: u32, left: nat,
                                      s: iset<D.Fact>)
    requires FlatRom(c) && D.Downward(s) && left > 0 && start <= pc
    requires D.Includes(c, s, D.ScanFrom(c, scanner, c.active, start, pc, left))
    ensures Reaches(c, s, pc)
    ensures forall ask :: ask in D.ScanFrom(c, scanner, c.active, start, pc, left) && ask.kind.Label? ==>
              Reaches(c, s, ask.addr)
    decreases left
  {
    hide D.Here, D.StaticTarget, D.StopsScan, D.Includes, D.Downward, FlatRom, Known, D.Returns;
    if c.IsCode(c.active, pc) {
      var i := c.view(c.active)(pc).value;
      assert pc + i.len < 0x100_0000 && i.len > 0 by { InsideRom(c, pc); }
      var next := Wrap32(pc + i.len);
      var hint := scanner.hint(c.active, start, left);
      var here := D.Here(hint, c.active, start, pc, i);
      var rest := if D.StopsScan(i.op) then [] else D.ScanFrom(c, scanner, c.active, start, next, left - 1);
      IncludesParts(c, s, here, rest);
      HereCovers(c, hint, start, pc, i, s);
      OnlyOwnLabel(hint, c.active, start, pc, i);
      if !D.StopsScan(i.op) {
        NextCovered(c, scanner, start, next, left - 1, s);
        if left > 1 {
          ScanCovers(c, scanner, start, next, left - 1, s);
        }
      }
    }
  }

  lemma InsideRom(c: D.Cartridge, a: u32)
    requires FlatRom(c) && c.view(c.active)(a).Some?
    ensures var i := c.view(c.active)(a).value;
            && i.addr == a && i.len > 0 && i.len % 2 == 0 && a + i.len < 0x100_0000
            && (D.StaticTarget(i.op).Some? ==> D.StaticTarget(i.op).value < 0x100_0000)
  {
    assert GoodInstr(c.view(c.active)(a).value, a);
    assert BelowTop(c.view(c.active)(a).value);
  }

  lemma HereCovers(c: D.Cartridge, hint: (seq<u32>, seq<u32>), start: u32, pc: u32, i: Instr, s: iset<D.Fact>)
    requires FlatRom(c) && D.Downward(s) && D.Includes(c, s, D.Here(hint, c.active, start, pc, i))
    ensures D.StaticTarget(i.op).Some? ==> Known(c, s, D.StaticTarget(i.op).value)
    ensures D.Returns(i.op) ==> Known(c, s, Wrap32(pc + i.len))
  {
    hide D.Includes, D.Downward, FlatRom, Known, D.StaticTarget, D.Returns, D.Entries;
    var b := c.active;
    var e, d, f, r := D.Entries(b, hint.0), D.TargetAsk(b, i.op), D.Entries(b, hint.1), D.ReturnAsk(b, pc, i);
    IncludesParts(c, s, D.LabelAsk(b, start, pc), e + (d + (f + r)));
    IncludesParts(c, s, e, d + (f + r));
    IncludesParts(c, s, d, f + r);
    IncludesParts(c, s, f, r);
    if D.StaticTarget(i.op).Some? {
      OneIncluded(c, s, D.StaticTarget(i.op).value, D.Entry);
    }
    if D.Returns(i.op) {
      OneIncluded(c, s, Wrap32(pc + i.len), D.Entry);
    }
  }

  lemma OnlyOwnLabel(hint: (seq<u32>, seq<u32>), bank: u32, start: u32, pc: u32, i: Instr)
    ensures forall ask :: ask in D.Here(hint, bank, start, pc, i) && ask.kind.Label? ==> ask.addr == pc
  {
    hide D.StaticTarget, D.Returns;
  }

  /** The next instruction is labelled, or is the root the scan leaves off at. */
  lemma NextCovered(c: D.Cartridge, scanner: D.Scanner, start: u32, next: u32, left: nat, s: iset<D.Fact>)
    requires FlatRom(c) && D.Downward(s) && start < next
    requires D.Includes(c, s, D.ScanFrom(c, scanner, c.active, start, next, left))
    ensures Known(c, s, next)
  {
    hide D.Includes, D.Downward, FlatRom, D.Here, D.StopsScan;
    if left == 0 {
      OneIncluded(c, s, next, D.Root);
    } else if Probable(c, next) {
      var i := c.view(c.active)(next).value;
      var hint := scanner.hint(c.active, start, left);
      var here := D.Here(hint, c.active, start, next, i);
      var rest := if D.StopsScan(i.op) then []
                  else D.ScanFrom(c, scanner, c.active, start, Wrap32(next + i.len), left - 1);
      IncludesParts(c, s, here, rest);
      LabelIncluded(c, hint, start, next, i, s);
    }
  }

  lemma LabelIncluded(c: D.Cartridge, hint: (seq<u32>, seq<u32>), start: u32, pc: u32, i: Instr, s: iset<D.Fact>)
    requires FlatRom(c) && D.Downward(s) && start != pc && D.Includes(c, s, D.Here(hint, c.active, start, pc, i))
    ensures Known(c, s, pc)
  {
    hide D.Includes, D.Downward, FlatRom, Known, D.Entries, D.TargetAsk, D.ReturnAsk;
    var b := c.active;
    IncludesParts(c, s, D.LabelAsk(b, start, pc),
                  D.Entries(b, hint.0) + (D.TargetAsk(b, i.op) + (D.Entries(b, hint.1) + D.ReturnAsk(b, pc, i))));
    OneIncluded(c, s, pc, D.Label);
  }

  // ---------------------------------------------------------------- every key is covered

  /** The facts of a finished table whose address is code and has known successors. */
  ghost function Covered(c: D.Cartridge, facts: iset<D.Fact>): iset<D.Fact> {
    iset f: D.Fact | f in facts && f.bank == D.NO_BANK && Probable(c, f.addr) && Reaches(c, facts, f.addr)
  }

  lemma RootIsCovered(c: D.Cartridge, scanner: D.Scanner, seeds: seq<D.Ask>, facts: iset<D.Fact>, a: u32)
    requires FlatRom(c) && scanner.limit > 0 && D.Closed(c, scanner, seeds, facts)
    requires D.Fact(a, D.NO_BANK, D.Root) in facts
    ensures Reaches(c, facts, a)
    ensures D.Includes(c, facts, D.Scan(c, scanner, c.active, a))
    ensures forall ask :: ask in D.Scan(c, scanner, c.active, a) && ask.kind.Label? ==> Reaches(c, facts, ask.addr)
  {
    hide FlatRom, D.ScanFrom, D.Downward, Reaches;
    assert D.Includes(c, facts, D.Scan(c, scanner, c.ViewOf(D.NO_BANK), a));
    ScanCovers(c, scanner, a, a, scanner.limit, facts);
  }

  /** An addition from the flat view that took effect is covered. */
  lemma AskIsCovered(c: D.Cartridge, scanner: D.Scanner, seeds: seq<D.Ask>, facts: iset<D.Fact>, ask: D.Ask)
    requires FlatRom(c) && scanner.limit > 0 && D.Closed(c, scanner, seeds, facts)
    requires ask.bank == c.active && Probable(c, ask.addr) && D.FactOf(c, ask) in facts
    requires ask.kind.Label? ==> Reaches(c, facts, ask.addr)
    ensures D.FactOf(c, ask) in Covered(c, facts)
  {
    hide Reaches, WellFormed, BelowTop, D.Scan, D.Includes;
    var f := D.FactOf(c, ask);
    assert f.bank == D.NO_BANK && D.Downward(facts);
    if !ask.kind.Label? {
      assert D.Fact(f.addr, f.bank, D.Root) in facts;
      RootIsCovered(c, scanner, seeds, facts, ask.addr);
    }
  }

  lemma ScanAsksAreFlat(c: D.Cartridge, scanner: D.Scanner, bank: u32, start: u32, pc: u32, left: nat)
    ensures forall ask :: ask in D.ScanFrom(c, scanner, bank, start, pc, left) ==> ask.bank == bank
    decreases left
  {
    hide D.StaticTarget, D.StopsScan, D.Returns;
    if left > 0 && c.IsCode(bank, pc) {
      ScanAsksAreFlat(c, scanner, bank, start, Wrap32(pc + c.view(bank)(pc).value.len), left - 1);
    }
  }

  lemma CoveredIsClosed(c: D.Cartridge, scanner: D.Scanner, seeds: seq<D.Ask>, facts: iset<D.Fact>)
    requires FlatRom(c) && FlatSeeds(c, seeds) && scanner.limit > 0 && D.Closed(c, scanner, seeds, facts)
    ensures D.Closed(c, scanner, seeds, Covered(c, facts))
  {
    hide FlatRom, Reaches, D.ScanFrom, D.FactOf;
    var s := Covered(c, facts);
    forall k | 0 <= k < |seeds| && c.Probable(seeds[k].bank, seeds[k].addr) ensures D.FactOf(c, seeds[k]) in s {
      AskIsCovered(c, scanner, seeds, facts, seeds[k]);
    }
    forall a: u32, b: u32 | D.Fact(a, b, D.Root) in s ensures D.Includes(c, s, D.Scan(c, scanner, c.ViewOf(b), a)) {
      var asks := D.Scan(c, scanner, c.active, a);
      RootIsCovered(c, scanner, seeds, facts, a);
      ScanAsksAreFlat(c, scanner, c.active, a, a, scanner.limit);
      forall k | 0 <= k < |asks| && c.Probable(asks[k].bank, asks[k].addr) ensures D.FactOf(c, asks[k]) in s {
        assert asks[k] in asks;
        AskIsCovered(c, scanner, seeds, facts, asks[k]);
      }
    }
  }

  /** Every key of an untruncated, fully scanned table is code whose successors are
      keys, wherever in a run of instructions it lies and however long the run. */
  lemma KeysReach(c: D.Cartridge, scanner: D.Scanner, seeds: seq<D.Ask>, facts: iset<D.Fact>, a: u32)
    requires FlatRom(c) && FlatSeeds(c, seeds) && scanner.limit > 0 && D.Closed(c, scanner, seeds, facts)
    requires forall s: iset<D.Fact> :: D.Closed(c, scanner, seeds, s) ==> facts <= s
    requires KeyFact(a) in facts
    ensures Probable(c, a) && Reaches(c, facts, a)
  {
    hide FlatRom, Reaches, D.Closed, D.Scan, FlatSeeds;
    CoveredIsClosed(c, scanner, seeds, facts);
    assert KeyFact(a) in Covered(c, facts);
  }

  // ---------------------------------------------------------------- constants in emitted code

  /** A statement can jump or dispatch to the constant t, leave the processor there,
      or push it as the return address of an exception, interrupt or trace. */
  predicate Mentions(s: Stmt, t: u24) {
    match s
    case SetPc(addr) => t == addr
    case ServiceInterrupt(addr) => t == addr
    case ServiceTrace(to) => to.To? && to.e.Constant? && t == Wrap24(to.e.v)
    case Dispatch(to) => to.To? && to.e.Constant? && t == Wrap24(to.e.v)
    case RequireSupervisor(addr) => t == addr
    case Goto(target) => t == target
    case GotoIf(_, target) => t == target
    case CountAndGoto(_, _, target) => t == target
    case WhenOverflow(addr) => t == addr
    case Do(action) => action.PushFrame? && t == action.addr
    case _ => false
  }

  /** The constants an instruction's code can mention. */
  predicate OwnConstant(i: Instr, t: u24) {
    || t == Wrap24(i.addr)
    || (t == i.Next() && (!D.StopsScan(i.op) || D.Returns(i.op)) && !i.op.Unsupported?)
    || (D.StaticTarget(i.op).Some? && t == Wrap24(D.StaticTarget(i.op).value))
  }

  lemma {:induction false} ActsAreActions(actions: seq<Action>, s: Stmt)
    requires s in Acts(actions)
    ensures s.Do? && s.action in actions
  {
    if s != Do(actions[0]) {
      ActsAreActions(actions[1..], s);
    }
  }

  lemma ReadsPushNoFrame(ea: Ea, size: Size)
    ensures forall a :: a in ReadCode(ea, size) ==> !a.PushFrame?
  {
    hide PlaceOf;
  }

  lemma WritesPushNoFrame(ea: Ea, size: Size, text: Expr)
    ensures forall a :: a in WriteCode(ea, size, text) ==> !a.PushFrame?
  {
    hide PlaceOf;
  }

  lemma GenericPushesNoFrame(size: Size, src: Ea, dst: Ea)
    ensures forall a :: a in GenericMoveCode(size, src, dst) ==> !a.PushFrame?
  {
    hide ReadCode, WriteCode, ReadText;
    ReadsPushNoFrame(src, size);
    WritesPushNoFrame(dst, size, ReadText(src, size));
  }

  lemma MovesPushNoFrame(size: Size, src: Ea, dst: Ea)
    ensures forall a :: a in MoveCode(size, src, dst) ==> !a.PushFrame?
  {
    hide GenericMoveCode;
    GenericPushesNoFrame(size, src, dst);
  }

  lemma AddressPushesNoFrame(ea: Ea, size: Size)
    ensures forall a :: a in AddressCode(ea, size) ==> !a.PushFrame?
  {
  }

  lemma FramesInActions(i: Instr, a: Action)
    requires a in Actions(i) && a.PushFrame?
    ensures (i.op.Trap? || i.op.Illegal?) && a.addr == i.Next()
  {
    hide ReadCode, MoveCode, AddressCode, ReadText, PlaceOf, AddressText;
    match i.op
    case Move(size, src, dst) => MovesPushNoFrame(size, src, dst);
    case MoveA(size, src, _) => ReadsPushNoFrame(src, size);
    case AluToReg(_, size, src, _) => ReadsPushNoFrame(src, size);
    case AluToMem(_, size, _, dst) => AddressPushesNoFrame(dst, size);
    case NegX(size, dst) => AddressPushesNoFrame(dst, size);
    case _ =>
  }

  lemma InstructionMentions(i: Instr, labels: seq<u24>, s: Stmt, t: u24)
    requires s in OneInstruction(i, labels) && Mentions(s, t) && Encodable(i.op)
    ensures OwnConstant(i, t)
  {
    hide Actions, Acts, ControlCode, EpilogueCode, PrologueCode, OwnConstant, Encodable;
    if s in Acts(Actions(i)) {
      ActsAreActions(Actions(i), s);
      FrameConstant(i, s.action, t);
    } else if s in ControlCode(i) {
      ControlMentions(i, s, t);
    } else {
      BoundaryMentions(i, s, t);
    }
  }

  lemma FrameConstant(i: Instr, a: Action, t: u24)
    requires a in Actions(i) && Mentions(Do(a), t)
    ensures OwnConstant(i, t)
  {
    hide Actions;
    FramesInActions(i, a);
  }

  lemma ControlMentions(i: Instr, s: Stmt, t: u24)
    requires s in ControlCode(i) && Mentions(s, t)
    ensures OwnConstant(i, t)
  {
    hide PlaceOf, Wrap24;
    assert forall a: u24 :: Wrap24(a) == a by {
      forall a: u24 ensures Wrap24(a) == a { SmallWrap(a); }
    }
  }

  lemma BoundaryMentions(i: Instr, s: Stmt, t: u24)
    requires s in PrologueCode(i) + EpilogueCode(i) || s == RequireSupervisor(Wrap24(i.addr))
             || s == Label(Wrap24(i.addr))
    requires Mentions(s, t)
    ensures OwnConstant(i, t)
  {
    hide D.StaticTarget;
    SmallWrap(i.Next());
  }

  // ---------------------------------------------------------------- the closure

  /** A finished discovery of a flat ROM: Worklist.Candidates.WithoutInterpreter. */
  ghost predicate Finished(c: D.Cartridge, scanner: D.Scanner, seeds: seq<D.Ask>, t: D.Table) {
    && FlatRom(c) && FlatSeeds(c, seeds) && scanner.limit > 0
    && D.Closed(c, scanner, seeds, D.Facts(t))
    && forall s: iset<D.Fact> :: D.Closed(c, scanner, seeds, s) ==> D.Facts(t) <= s
  }

  predicate IsKey(t: D.Table, a: u32) { D.Find(t.items, a, D.NO_BANK) < |t.items| }

  lemma KeyIsFact(t: D.Table, a: u32)
    ensures IsKey(t, a) <==> KeyFact(a) in D.Facts(t)
  {
  }

  lemma TableIsFlat(c: D.Cartridge, scanner: D.Scanner, seeds: seq<D.Ask>, t: D.Table)
    requires Finished(c, scanner, seeds, t)
    ensures forall k :: 0 <= k < |t.items| ==> t.items[k].bank == D.NO_BANK
  {
    hide FlatRom, FlatSeeds, D.Closed, Reaches;
    CoveredIsClosed(c, scanner, seeds, D.Facts(t));
    forall k | 0 <= k < |t.items| ensures t.items[k].bank == D.NO_BANK {
      var f := D.Fact(t.items[k].addr, t.items[k].bank, D.Label);
      assert f in D.Facts(t);
      assert f in Covered(c, D.Facts(t));
    }
  }

  /** An instruction of a body is a key, or was not valid code. */
  lemma {:induction false} BodyIsKeys(c: D.Cartridge, scanner: D.Scanner, seeds: seq<D.Ask>, t: D.Table,
                                      instrs: seq<Instr>, j: nat)
    requires Finished(c, scanner, seeds, t) && Chained(c.view(c.active), instrs) && j < |instrs|
    requires IsKey(t, instrs[0].addr)
    requires forall k :: 0 <= k < |instrs| - 1 ==> !EndsBody(instrs[k].op)
    ensures instrs[j].addr % 2 == 0 && (instrs[j].op.Unsupported? || IsKey(t, instrs[j].addr))
    decreases j
  {
    hide EndsBody, IsKey, D.Closed, Reaches, FlatRom, FlatSeeds, D.StaticTarget, D.Facts, D.Returns;
    var facts := D.Facts(t);
    if j == 0 {
      KeyIsFact(t, instrs[0].addr);
      KeysReach(c, scanner, seeds, facts, instrs[0].addr);
    } else {
      var i := instrs[j - 1];
      BodyIsKeys(c, scanner, seeds, t, instrs, j - 1);
      InsideRom(c, i.addr);
      assert !i.op.Unsupported? && !D.StopsScan(i.op) by { EndersEnd(i.op); }
      KeyIsFact(t, i.addr);
      KeysReach(c, scanner, seeds, facts, i.addr);
      NextKnown(c, facts, i);
      KeyIsFact(t, instrs[j].addr);
    }
  }

  lemma EndersEnd(op: Op)
    ensures D.StopsScan(op) || op.Unsupported? ==> EndsBody(op)
  {
  }

  lemma NextKnown(c: D.Cartridge, facts: iset<D.Fact>, i: Instr)
    requires FlatRom(c) && c.view(c.active)(i.addr) == Some(i) && !i.op.Unsupported? && Reaches(c, facts, i.addr)
    ensures !D.StopsScan(i.op) || D.Returns(i.op) ==> Known(c, facts, i.addr + i.len)
    ensures D.StaticTarget(i.op).Some? ==> Known(c, facts, D.StaticTarget(i.op).value)
  {
    hide FlatRom, Known, D.StaticTarget, D.StopsScan, D.Returns;
    InsideRom(c, i.addr);
  }

  /** Constants of one instruction that are code are keys. */
  lemma OwnConstantsAreKeys(c: D.Cartridge, scanner: D.Scanner, seeds: seq<D.Ask>, t: D.Table, i: Instr, target: u24)
    requires Finished(c, scanner, seeds, t) && c.view(c.active)(i.addr) == Some(i)
    requires i.op.Unsupported? || IsKey(t, i.addr)
    requires OwnConstant(i, target) && Probable(c, target)
    ensures IsKey(t, target)
  {
    hide IsKey, D.Closed, Reaches, FlatRom, FlatSeeds, D.Facts, D.StopsScan, D.Returns;
    InsideRom(c, i.addr);
    NoTarget(i.op);
    KeyIsFact(t, target);
    if !i.op.Unsupported? {
      KeyIsFact(t, i.addr);
      KeysReach(c, scanner, seeds, D.Facts(t), i.addr);
      NextKnown(c, D.Facts(t), i);
    }
  }

  lemma NoTarget(op: Op)
    ensures op.Unsupported? ==> D.StaticTarget(op).None?
  {
  }

  lemma {:induction false} InSomeInstruction(instrs: seq<Instr>, labels: seq<u24>, s: Stmt) returns (j: nat)
    requires s in Instructions(instrs, labels)
    ensures j < |instrs| && s in OneInstruction(instrs[j], labels)
  {
    hide OneInstruction;
    var k := |instrs| - 1;
    if s in OneInstruction(instrs[k], labels) {
      j := k;
    } else {
      j := InSomeInstruction(instrs[..k], labels, s);
    }
  }

  lemma {:induction false} StubMentions(instrs: seq<Instr>, labels: seq<u24>, s: Stmt, t: u24)
    requires s in MissingLabels(instrs, labels) && Mentions(s, t)
    ensures t in labels
  {
    hide IsEmitted;
    var front, last := labels[..|labels| - 1], labels[|labels| - 1];
    if s in MissingLabels(instrs, front) {
      StubMentions(instrs, front, s, t);
    } else {
      SmallWrap(last);
    }
  }

  /** What emit_function_body can make the generated program go to. */
  lemma BodyMentions(rom: Rom, start: u32, limit: nat, s: Stmt, t: u24) returns (j: nat)
    requires WellFormed(rom) && s in BodyCode(rom, start, limit) && Mentions(s, t)
    ensures var instrs := Collect(rom, start, limit).instrs; j < |instrs| && OwnConstant(instrs[j], t)
  {
    hide Instructions, MissingLabels, Labels, Collect, OwnConstant, GoodInstr, BranchTarget, OneInstruction;
    var listing := Collect(rom, start, limit);
    var instrs, labels := listing.instrs, Labels(listing.instrs);
    CollectIsChained(rom, start, limit);
    if s in Instructions(instrs, labels) {
      j := InSomeInstruction(instrs, labels, s);
      assert Encodable(instrs[j].op) by { EncodableOf(rom, instrs[j]); }
      InstructionMentions(instrs[j], labels, s, t);
    } else {
      StubMentions(instrs, labels, s, t);
      LabelsAreTargets(instrs, t);
      j :| 0 <= j < |instrs| && BranchTarget(instrs[j].op) == Some(t);
      BranchIsStatic(instrs[j], t);
    }
  }

  lemma EncodableOf(rom: Rom, i: Instr)
    requires WellFormed(rom) && rom(i.addr) == Some(i)
    ensures Encodable(i.op)
  {
    assert GoodInstr(rom(i.addr).value, i.addr);
  }

  lemma BranchIsStatic(i: Instr, t: u24)
    requires BranchTarget(i.op) == Some(t)
    ensures OwnConstant(i, t)
  {
  }

  /** The functions generated for a table, in its order. */
  function Functions(t: D.Table): (addrs: seq<u32>)
    ensures |addrs| == |t.items| && forall k :: 0 <= k < |addrs| ==> addrs[k] == t.items[k].addr
  {
    seq(|t.items|, k requires 0 <= k < |t.items| => t.items[k].addr)
  }

  /** The generated switch has a case for an address. */
  predicate HasCase(t: D.Table, a: u32) { Sharded.FlatStep(Functions(t), a).Some? }

  lemma KeyHasCase(t: D.Table, a: u32)
    requires IsKey(t, a)
    ensures HasCase(t, a)
  {
    var addrs := Functions(t);
    assert addrs[D.Find(t.items, a, D.NO_BANK)] == a;
    Sharded.FlatStepIsFirst(addrs, a);
  }

  /** The dispatch switch is closed under the code it dispatches to: every constant
      the body of any key mentions has a case, if there is code at that address. */
  lemma DispatchIsClosed(c: D.Cartridge, scanner: D.Scanner, seeds: seq<D.Ask>, t: D.Table, start: u32, limit: nat,
                         s: Stmt, target: u24)
    requires Finished(c, scanner, seeds, t) && IsKey(t, start)
    requires s in BodyCode(c.view(c.active), start, limit) && Mentions(s, target) && Probable(c, target)
    ensures IsKey(t, target) && HasCase(t, target)
  {
    hide BodyCode, Collect, D.Closed, IsKey, HasCase, OwnConstant, EndsBody, Probable, FlatSeeds;
    var rom := c.view(c.active);
    var instrs := Collect(rom, start, limit).instrs;
    CollectIsChained(rom, start, limit);
    var j := BodyMentions(rom, start, limit, s, target);
    BodyIsKeys(c, scanner, seeds, t, instrs, j);
    OwnConstantsAreKeys(c, scanner, seeds, t, instrs[j], target);
    KeyHasCase(t, target);
  }

  /** So are the return addresses that calls push. */
  lemma ReturnsAreClosed(c: D.Cartridge, scanner: D.Scanner, seeds: seq<D.Ask>, t: D.Table, start: u32, limit: nat,
                         j: nat)
    requires Finished(c, scanner, seeds, t) && IsKey(t, start)
    requires var instrs := Collect(c.view(c.active), start, limit).instrs;
             j < |instrs| && (instrs[j].op.Bsr? || instrs[j].op.Jsr?) && Probable(c, instrs[j].Next())
    ensures var i := Collect(c.view(c.active), start, limit).instrs[j];
            && Store(L, RegPlace(7), Constant(i.Next())) in Actions(i)
            && IsKey(t, i.Next()) && HasCase(t, i.Next())
  {
    hide Collect, D.Closed, IsKey, HasCase, EndsBody, Probable, FlatSeeds;
    var rom := c.view(c.active);
    var instrs := Collect(rom, start, limit).instrs;
    CollectIsChained(rom, start, limit);
    BodyIsKeys(c, scanner, seeds, t, instrs, j);
    var i := instrs[j];
    OwnConstantsAreKeys(c, scanner, seeds, t, i, i.Next());
    KeyHasCase(t, i.Next());
    assert PushCode(i.Next())[1] == Store(L, RegPlace(7), Constant(i.Next()));
  }
}
