/** Running an emitted function body is running the processor; so is running the
    dispatched bodies one after another, for as long as one likes. */
module BodySimulation {
  import opened Machine
  import opened Isa
  import opened Emitter
  import opened InstructionSimulation
  import opened BodyLayout

  /** The processor is about to run an instruction in a state in which the emitted
      code parts from it, and no event intervenes. */
  predicate AtCorner(rom: Rom, world: World, r: Cpu) {
    && r.Running? && rom(r.pc).Some? && Corner(r.m, rom(r.pc).value.op)
    && !world(r.n, r.m).yield_ && world(r.n, r.m).interrupt.Quiet?
  }

  // ---------------------------------------------------------------- one instruction with its prologue

  lemma BoundaryAgrees(rom: Rom, world: World, i: Instr, e: Env)
    requires rom(i.addr) == Some(i) && GoodInstr(i, i.addr) && Fresh(e)
    requires !AtCorner(rom, world, Running(e.w.m, Wrap24(i.addr), e.n))
    ensures Agrees(Block(world, PrologueCode(i) + (InstrCode(i) + EpilogueCode(i)), e), i,
                   Step(rom, world, Running(e.w.m, Wrap24(i.addr), e.n)))
  {
    hide Block, InstrCode, EpilogueCode, Completed, Corner, GoodInstr, Interrupted, Disturbed;
    var rest := InstrCode(i) + EpilogueCode(i);
    var addr: u24 := Wrap24(i.addr);
    assert addr == i.addr && Encodable(i.op) by { Located(i); }
    var tail3 := [SaveTrace] + rest;
    var tail2 := [ServiceInterrupt(addr)] + tail3;
    var tail1 := [Yield] + tail2;
    assert PrologueCode(i) + rest == [SetPc(addr)] + tail1;
    BlockCons(world, SetPc(addr), tail1, e);
    var e1 := e.(pc := addr);
    BlockCons(world, Yield, tail2, e1);
    BlockCons(world, ServiceInterrupt(addr), tail3, e1);
    InterruptedAgrees(world, e1, addr);
    var e2 := e1.(n := e.n + 1);
    BlockCons(world, SaveTrace, rest, e2);
    if !world(e.n, e.w.m).yield_ && world(e.n, e.w.m).interrupt.Quiet? {
      InstructionAgrees(world, i, e2.(trace := e2.w.m.sr.t));
    }
  }

  lemma Located(i: Instr)
    requires GoodInstr(i, i.addr)
    ensures Wrap24(i.addr) == i.addr && Encodable(i.op)
  {
  }

  lemma OneInstructionAgrees(rom: Rom, world: World, i: Instr, labels: seq<u24>, e: Env)
    requires rom(i.addr) == Some(i) && GoodInstr(i, i.addr) && Fresh(e)
    requires !AtCorner(rom, world, Running(e.w.m, Wrap24(i.addr), e.n))
    ensures Agrees(Block(world, OneInstruction(i, labels), e), i, Step(rom, world, Running(e.w.m, Wrap24(i.addr), e.n)))
  {
    hide Block, InstrCode, EpilogueCode, PrologueCode, GoodInstr, Step, Agrees, AtCorner;
    var rest := PrologueCode(i) + (InstrCode(i) + EpilogueCode(i));
    BoundaryAgrees(rom, world, i, e);
    if Wrap24(i.addr) in labels {
      BlockCons(world, Label(Wrap24(i.addr)), rest, e);
    } else {
      assert OneInstruction(i, labels) == rest;
    }
  }

  // ---------------------------------------------------------------- running a stretch of code

  function BlockLength(world: World, ss: seq<Stmt>, e: Env): nat {
    if ss == [] then 0
    else
      var o := Exec(world, ss[0], e);
      1 + if o.Next? then BlockLength(world, ss[1..], o.e) else 0
  }

  function Continue(world: World, code: seq<Stmt>, fuel: nat, at: nat, o: Outcome): Progress {
    match o
    case Next(e) => Run(world, code, fuel, at, e)
    case Exit(e) => Finished(e)
    case Jump(target, e) =>
      var j := LabelAt(code, target);
      if j < |code| then Run(world, code, fuel, j, e) else NoSuchLabel
  }

  lemma {:induction false} RunStretch(world: World, code: seq<Stmt>, pre: seq<Stmt>, ss: seq<Stmt>, post: seq<Stmt>,
                                      e: Env, fuel: nat)
    requires code == pre + (ss + post)
    ensures Run(world, code, BlockLength(world, ss, e) + fuel, |pre|, e)
            == Continue(world, code, fuel, |pre| + |ss|, Block(world, ss, e))
    ensures ss != [] ==> BlockLength(world, ss, e) > 0
    decreases ss
  {
    hide Exec, LabelAt;
    if ss != [] {
      assert code[|pre|] == ss[0];
      var o := Exec(world, ss[0], e);
      if o.Next? {
        assert code == (pre + [ss[0]]) + (ss[1..] + post);
        RunStretch(world, code, pre + [ss[0]], ss[1..], post, o.e, fuel);
        assert BlockLength(world, ss, e) + fuel - 1 == BlockLength(world, ss[1..], o.e) + fuel;
      }
    }
  }

  /** A run can be paused anywhere and gone on with. */
  lemma {:induction false} RunResumes(world: World, code: seq<Stmt>, fuel: nat, more: nat, at: nat, e: Env)
    ensures Run(world, code, fuel + more, at, e)
            == match Run(world, code, fuel, at, e) case Paused(at1, e1) => Run(world, code, more, at1, e1) case p => p
    decreases fuel
  {
    hide Exec, LabelAt;
    if at < |code| && fuel > 0 {
      match Exec(world, code[at], e)
      case Next(e1) => RunResumes(world, code, fuel - 1, more, at + 1, e1);
      case Exit(_) =>
      case Jump(target, e1) =>
        var j := LabelAt(code, target);
        if j < |code| {
          RunResumes(world, code, fuel - 1, more, j, e1);
        }
    }
  }

  // ---------------------------------------------------------------- a body against the processor

  /** A collected body, complete or cut. */
  ghost predicate GoodBody(rom: Rom, instrs: seq<Instr>, tail: seq<Stmt>) {
    && Chained(rom, instrs) && instrs != [] && IsTail(tail)
    && forall j :: 0 <= j < |instrs| ==> (EndsBody(instrs[j].op) <==> tail == [] && j == |instrs| - 1)
  }

  /** Where the processor is at the start of instruction x, or past the last one. */
  function AddrAt(instrs: seq<Instr>, x: nat): u24 {
    Wrap24(if x < |instrs| then instrs[x].addr else EndPc(0, instrs))
  }

  function CpuAt(instrs: seq<Instr>, x: nat, e: Env): Cpu {
    Running(e.w.m, AddrAt(instrs, x), e.n)
  }

  /** Where the emitted code is after the processor has taken some steps: finished
      where the processor is, or at the start of the instruction it is about to run,
      or fallen off the end of a cut body. */
  predicate InStep(instrs: seq<Instr>, p: Progress, x: nat, r: Cpu) {
    match p
    case Finished(e) => AtExit(e, r)
    case Paused(at, e) => x <= |instrs| && at == Offset(instrs, x) && Fresh(e) && r == CpuAt(instrs, x, e)
    case NoSuchLabel => false
  }

  lemma BodyStep(rom: Rom, world: World, instrs: seq<Instr>, tail: seq<Stmt>, x: nat, e: Env)
    returns (fuel: nat, y: nat)
    requires GoodBody(rom, instrs, tail) && x < |instrs| && Fresh(e)
    requires !AtCorner(rom, world, CpuAt(instrs, x, e))
    ensures fuel > 0
    ensures InStep(instrs, Run(world, BodyOf(instrs, tail), fuel, Offset(instrs, x), e), y,
                   Step(rom, world, CpuAt(instrs, x, e)))
    ensures Run(world, BodyOf(instrs, tail), fuel, Offset(instrs, x), e).Paused? && y == |instrs| ==> tail != []
  {
    hide Step, OneInstruction, Instructions, MissingLabels, Labels, Block, GoodInstr, LabelAt, IsEmitted, AtCorner, Run;
    hide EndPc, EndsBody;
    var code, labels, i := BodyOf(instrs, tail), Labels(instrs), instrs[x];
    StaysInSpace(i, i.addr);
    OneInstructionAgrees(rom, world, i, labels, e);
    InstructionsSplit(instrs, labels, x);
    var pre, ss := Instructions(instrs[..x], labels), OneInstruction(i, labels);
    var post := Instructions(instrs[x + 1..], labels) + (MissingLabels(instrs, labels) + tail);
    assert code == pre + (ss + post);
    var o := Block(world, ss, e);
    fuel := BlockLength(world, ss, e);
    y := 0;
    NotEmpty(i, labels);
    RunStretch(world, code, pre, ss, post, e, 0);
    match o
    case Exit(_) =>
    case Next(e1) =>
      y := x + 1;
      NextOffset(rom, instrs, tail, x);
      PausedThere(world, code, Offset(instrs, y), e1);
    case Jump(target, e1) =>
      if IsEmitted(instrs, target) {
        y := WhichEmitted(instrs, target);
        EmittedLabelAt(rom, instrs, tail, x, y);
        PausedThere(world, code, Offset(instrs, y), e1);
      } else {
        var extra := StubDispatches(world, rom, instrs, tail, x, target, e1);
        RunStretch(world, code, pre, ss, post, e, extra);
        fuel := fuel + extra;
      }
  }

  lemma WhichEmitted(instrs: seq<Instr>, target: u24) returns (y: nat)
    requires IsEmitted(instrs, target)
    ensures y < |instrs| && Wrap24(instrs[y].addr) == target
  {
    y :| y < |instrs| && Wrap24(instrs[y].addr) == target;
  }

  lemma NotEmpty(i: Instr, labels: seq<u24>)
    ensures OneInstruction(i, labels) != []
  {
    hide InstrCode, EpilogueCode;
    assert |PrologueCode(i)| > 0;
  }

  lemma PausedThere(world: World, code: seq<Stmt>, at: nat, e: Env)
    requires at < |code|
    ensures Run(world, code, 0, at, e) == Paused(at, e)
  {
  }

  lemma NextOffset(rom: Rom, instrs: seq<Instr>, tail: seq<Stmt>, x: nat)
    requires GoodBody(rom, instrs, tail) && x < |instrs| && !EndsBody(instrs[x].op)
    ensures Offset(instrs, x + 1) == Offset(instrs, x) + |OneInstruction(instrs[x], Labels(instrs))|
    ensures Offset(instrs, x + 1) < |BodyOf(instrs, tail)|
    ensures instrs[x].Next() == AddrAt(instrs, x + 1)
  {
    hide Instructions, OneInstruction, MissingLabels, Labels, EndsBody;
    InstructionsSplit(instrs, Labels(instrs), x);
    if x + 1 < |instrs| {
      InstructionsSplit(instrs, Labels(instrs), x + 1);
      NotEmpty(instrs[x + 1], Labels(instrs));
    } else {
      assert instrs[..x + 1] == instrs && tail != [];
    }
  }

  /** A branch out of the body reaches its stub, which dispatches to the target. */
  lemma StubDispatches(world: World, rom: Rom, instrs: seq<Instr>, tail: seq<Stmt>, x: nat, target: u24, e: Env)
    returns (fuel: nat)
    requires Chained(rom, instrs) && IsTail(tail) && x < |instrs| && BranchTarget(instrs[x].op) == Some(target)
    requires !IsEmitted(instrs, target) && Fresh(e)
    ensures LabelAt(BodyOf(instrs, tail), target) < |BodyOf(instrs, tail)|
    ensures var p := Run(world, BodyOf(instrs, tail), fuel, LabelAt(BodyOf(instrs, tail), target), e);
            p.Finished? && AtExit(p.e, Running(e.w.m, target, e.n))
  {
    hide Instructions, MissingLabels, Labels, LabelAt, IsEmitted, Block, Exec, Run;
    var code, labels := BodyOf(instrs, tail), Labels(instrs);
    LabelsAreTargets(instrs, target);
    var pre, post := MissingLabelSplit(instrs, labels, target);
    var stub := [Label(target)] + ([Dispatch(To(Constant(target)))] + [Return]);
    var before := Instructions(instrs, labels) + pre;
    assert code == before + (stub + (post + tail));
    OneLabelForTarget(rom, instrs, tail, x, target);
    assert code[|before|] == Label(target);
    AtItsOnlyPosition(code, target, |before|);
    StubBlock(world, target, e);
    fuel := BlockLength(world, stub, e) + 0;
    RunStretch(world, code, before, stub, post + tail, e, 0);
  }

  lemma StubBlock(world: World, target: u24, e: Env)
    requires Fresh(e)
    ensures var o := Block(world, [Label(target)] + ([Dispatch(To(Constant(target)))] + [Return]), e);
            o.Exit? && AtExit(o.e, Running(e.w.m, target, e.n)) && o.e == e.(dispatched := [target])
  {
    hide Block;
    BlockCons(world, Label(target), [Dispatch(To(Constant(target)))] + [Return], e);
    BlockPair(world, Dispatch(To(Constant(target))), Return, e);
    WrapTwice(target, 0);
  }

  /** Forward: however many steps k the processor takes, the emitted body gets as
      far, unless after j <= k of them it has returned, in the processor's state, has
      fallen off the end of a cut body, or is about to part at a corner. */
  lemma {:induction false} BodyKeepsStep(rom: Rom, world: World, instrs: seq<Instr>, tail: seq<Stmt>, x: nat, e: Env,
                                         k: nat)
    returns (fuel: nat, y: nat, j: nat)
    requires GoodBody(rom, instrs, tail) && x < |instrs| && Fresh(e)
    ensures j <= k
    ensures var p, r := Run(world, BodyOf(instrs, tail), fuel, Offset(instrs, x), e),
                        Steps(rom, world, CpuAt(instrs, x, e), j);
            && InStep(instrs, p, y, r)
            && (p.Paused? ==> fuel >= j && (j == k || y == |instrs| || AtCorner(rom, world, r)))
            && (p.Paused? && y == |instrs| ==> tail != [])
            && (j == 0 ==> p.Paused? && y == x)
    decreases k
  {
    hide Step, Instructions, MissingLabels, Labels, Run, AtExit, GoodBody, AtCorner, AddrAt;
    var s, code := CpuAt(instrs, x, e), BodyOf(instrs, tail);
    if k == 0 || AtCorner(rom, world, s) {
      fuel, y, j := 0, x, 0;
      assert Offset(instrs, x) < |code| by { OffsetInside(instrs, tail, x); }
      PausedThere(world, code, Offset(instrs, x), e);
    } else {
      fuel, y := BodyStep(rom, world, instrs, tail, x, e);
      j := 1;
      OneStep(rom, world, s);
      var p := Run(world, code, fuel, Offset(instrs, x), e);
      if p.Paused? && y < |instrs| {
        var fuel2, y2, j2 := BodyKeepsStep(rom, world, instrs, tail, y, p.e, k - 1);
        StepsCompose(rom, world, s, 1, j2);
        RunResumes(world, code, fuel, fuel2, Offset(instrs, x), e);
        fuel, y, j := fuel + fuel2, y2, 1 + j2;
      }
    }
  }

  lemma OneStep(rom: Rom, world: World, s: Cpu)
    requires s.Running?
    ensures Steps(rom, world, s, 1) == Step(rom, world, s)
  {
    hide Step;
  }

  lemma OffsetInside(instrs: seq<Instr>, tail: seq<Stmt>, x: nat)
    requires x < |instrs|
    ensures Offset(instrs, x) < |BodyOf(instrs, tail)|
  {
    hide Instructions, OneInstruction, MissingLabels, Labels;
    InstructionsSplit(instrs, Labels(instrs), x);
    NotEmpty(instrs[x], Labels(instrs));
  }

  lemma FirstOffset(instrs: seq<Instr>)
    ensures Offset(instrs, 0) == 0 && Offset(instrs, |instrs|) == |Instructions(instrs, Labels(instrs))|
  {
    hide Labels;
    assert instrs[..|instrs|] == instrs;
  }

  // ---------------------------------------------------------------- bodies cut at the instruction limit

  /** The first branch target that emit_missing_branch_labels gives a stub. */
  function FirstMissing(instrs: seq<Instr>, labels: seq<u24>): Option<u24> {
    if labels == [] then None
    else
      var rest, last := FirstMissing(instrs, labels[..|labels| - 1]), labels[|labels| - 1];
      if rest.Some? || IsEmitted(instrs, last) then rest else Some(last)
  }

  lemma {:induction false} FirstStub(instrs: seq<Instr>, labels: seq<u24>) returns (post: seq<Stmt>)
    ensures match FirstMissing(instrs, labels)
            case None => MissingLabels(instrs, labels) == []
            case Some(t) => MissingLabels(instrs, labels)
                            == [Label(t)] + ([Dispatch(To(Constant(t)))] + [Return]) + post
  {
    hide IsEmitted;
    post := [];
    if labels != [] {
      var front, last := labels[..|labels| - 1], labels[|labels| - 1];
      post := FirstStub(instrs, front);
      var stub := [Label(last)] + ([Dispatch(To(Constant(last)))] + [Return]);
      if !IsEmitted(instrs, last) {
        if FirstMissing(instrs, front).Some? {
          post := post + stub;
        } else {
          assert [] + stub == stub + [];
          post := [];
        }
      }
    }
  }

  /** When the last instruction of a cut body falls through, control runs into the
      first stub and goes where that goes, or is reported as a miss.  It ends up
      where the processor is exactly when the first stub is for the next instruction. */
  lemma CutBodyFallsIntoStub(rom: Rom, world: World, start: u32, limit: nat, e: Env)
    requires var listing := Collect(rom, start, limit); !listing.complete && listing.decodeError.None?
    requires Fresh(e)
    ensures var instrs := Collect(rom, start, limit).instrs;
            var next := Wrap24(EndPc(start, instrs));
            var p := Run(world, BodyCode(rom, start, limit), 3, |Instructions(instrs, Labels(instrs))|, e);
            && p.Finished?
            && (AtExit(p.e, Running(e.w.m, next, e.n)) <==> FirstMissing(instrs, Labels(instrs)) == Some(next))
  {
    hide Collect, Instructions, Labels, MissingLabels, FirstMissing, EndPc, Block, Exec, Run, AtExit;
    var instrs := Collect(rom, start, limit).instrs;
    var labels, next := Labels(instrs), Wrap24(EndPc(start, instrs));
    var pre, missing, last := Instructions(instrs, labels), MissingLabels(instrs, labels), [Miss(next)];
    var code := BodyCode(rom, start, limit);
    assert code == pre + (missing + last);
    var post := FirstStub(instrs, labels);
    match FirstMissing(instrs, labels)
    case None =>
      assert missing + last == last + [];
      MissBlock(world, next, e);
      RunStretch(world, code, pre, last, [], e, 0);
      ReachesTheEnd(world, code, BlockLength(world, last, e), |pre|, e, Block(world, last, e).e);
      MissIsNotRunning(e, next);
    case Some(t) =>
      var stub := [Label(t)] + ([Dispatch(To(Constant(t)))] + [Return]);
      assert missing + last == stub + (post + last);
      StubBlock(world, t, e);
      StubLength(world, t, e);
      RunStretch(world, code, pre, stub, post + last, e, 0);
      OneExit(e, t, next);
  }

  lemma MissBlock(world: World, addr: u24, e: Env)
    ensures Block(world, [Miss(addr)], e) == Next(e.(missed := true)) && BlockLength(world, [Miss(addr)], e) == 1
  {
    BlockOne(world, Miss(addr), e);
  }

  lemma MissIsNotRunning(e: Env, next: u24)
    requires Fresh(e)
    ensures !AtExit(e.(missed := true), Running(e.w.m, next, e.n))
  {
  }

  lemma ReachesTheEnd(world: World, code: seq<Stmt>, fuel: nat, at: nat, e: Env, e1: Env)
    requires fuel == 1 && at + 1 == |code|
    requires Run(world, code, fuel, at, e) == Run(world, code, 0, at + 1, e1)
    ensures Run(world, code, 3, at, e) == Finished(e1)
  {
    hide Exec;
    RunResumes(world, code, fuel, 2, at, e);
  }

  lemma StubLength(world: World, t: u24, e: Env)
    ensures BlockLength(world, [Label(t)] + ([Dispatch(To(Constant(t)))] + [Return]), e) == 3
  {
    var one, two := [Return], [Dispatch(To(Constant(t)))] + [Return];
    assert two[1..] == one && ([Label(t)] + two)[1..] == two;
    var e1 := Exec(world, two[0], e).e;
    assert BlockLength(world, one, e1) == 1;
    assert BlockLength(world, two, e) == 2;
  }

  lemma OneExit(e: Env, t: u24, next: u24)
    requires Fresh(e)
    ensures AtExit(e.(dispatched := [t]), Running(e.w.m, next, e.n)) <==> next == t
  {
  }

  // ---------------------------------------------------------------- emit_function_body's own output

  /** Something was collected, and every instruction of it decoded. */
  predicate Listed(rom: Rom, start: u24, limit: nat) {
    limit > 0 && Collect(rom, start, limit).decodeError.None?
  }

  lemma EmittedBodyIsGood(rom: Rom, start: u24, limit: nat)
    requires WellFormed(rom) && Listed(rom, start, limit)
    ensures var listing := Collect(rom, start, limit);
            && GoodBody(rom, listing.instrs, Tail(start, listing)) && listing.instrs[0].addr == start
            && BodyCode(rom, start, limit) == BodyOf(listing.instrs, Tail(start, listing))
  {
    hide Instructions, MissingLabels, Labels, GoodInstr, EndsBody, EndPc;
    CollectIsChained(rom, start, limit);
    BodyIsListing(rom, start, limit);
  }

  /** A cut body whose first stub, if it has one, is not for the instruction after it. */
  predicate CutBadly(rom: Rom, start: u24, limit: nat) {
    var listing := Collect(rom, start, limit);
    && !listing.complete && listing.decodeError.None?
    && FirstMissing(listing.instrs, Labels(listing.instrs)) != Some(Wrap24(EndPc(start, listing.instrs)))
  }

  /** The processor has run past the end of such a body. */
  predicate FallsAstray(rom: Rom, start: u24, limit: nat, r: Cpu) {
    CutBadly(rom, start, limit) && r.Running? && r.pc == Wrap24(EndPc(start, Collect(rom, start, limit).instrs))
  }

  /** The two ways in which the body at `start` and the processor part. */
  predicate Parts(rom: Rom, world: World, start: u24, limit: nat, r: Cpu) {
    AtCorner(rom, world, r) || FallsAstray(rom, start, limit, r)
  }

  /** Backward: whenever the emitted body returns, the processor gets to the same
      state in a finite, positive number of steps, unless on the way it gets to a
      corner or past the end of a body cut badly. */
  lemma BodySimulates(rom: Rom, world: World, start: u24, limit: nat, e: Env, fuel: nat) returns (j: nat)
    requires WellFormed(rom) && Listed(rom, start, limit) && Fresh(e)
    ensures var p, r := Run(world, BodyCode(rom, start, limit), fuel, 0, e),
                        Steps(rom, world, Running(e.w.m, start, e.n), j);
            p.Finished? ==> (j > 0 && AtExit(p.e, r)) || Parts(rom, world, start, limit, r)
  {
    hide Step, Steps, Instructions, MissingLabels, Labels, Run, AtExit, GoodBody, LabelAt, Collect, BodyCode;
    hide AtCorner, FirstMissing, EndPc;
    var listing := Collect(rom, start, limit);
    var instrs, code := listing.instrs, BodyCode(rom, start, limit);
    EmittedBodyIsGood(rom, start, limit);
    assert instrs != [] by { HasInstructions(rom, instrs, Tail(start, listing)); }
    FirstOffset(instrs);
    var fuel1, y, j1 := BodyKeepsStep(rom, world, instrs, Tail(start, listing), 0, e, fuel + 1);
    j := j1;
    var r := Steps(rom, world, Running(e.w.m, start, e.n), j);
    var p, p1 := Run(world, code, fuel, 0, e), Run(world, code, fuel1, 0, e);
    if p.Finished? && !AtCorner(rom, world, r) {
      if p1.Paused? && y == |instrs| {
        EndsTheBody(rom, world, start, limit, p1.e);
        RunResumes(world, code, fuel1, 3, 0, e);
        SameEnd(world, code, fuel, fuel1 + 3, 0, e);
        assert AddrAt(instrs, y) == Wrap24(EndPc(start, instrs)) by { SameEndPc(start, instrs); }
      } else {
        SameEnd(world, code, fuel, fuel1, 0, e);
      }
    }
  }

  lemma HasInstructions(rom: Rom, instrs: seq<Instr>, tail: seq<Stmt>)
    requires GoodBody(rom, instrs, tail)
    ensures instrs != []
  {
  }

  lemma SameEndPc(start: u24, instrs: seq<Instr>)
    requires instrs != []
    ensures EndPc(start, instrs) == EndPc(0, instrs)
  {
  }

  /** A run ends in one way, or is paused. */
  lemma SameEnd(world: World, code: seq<Stmt>, fuel1: nat, fuel2: nat, at: nat, e: Env)
    requires Run(world, code, fuel1, at, e).Finished?
    ensures fuel1 <= fuel2 || Run(world, code, fuel2, at, e).Finished?
            ==> Run(world, code, fuel2, at, e) == Run(world, code, fuel1, at, e)
  {
    hide Run;
    if fuel1 <= fuel2 {
      RunResumes(world, code, fuel1, fuel2 - fuel1, at, e);
    } else {
      RunResumes(world, code, fuel2, fuel1 - fuel2, at, e);
    }
  }

  /** Falling off a body: nothing follows a complete one but its stubs. */
  lemma EndsTheBody(rom: Rom, world: World, start: u24, limit: nat, e: Env)
    requires WellFormed(rom) && Listed(rom, start, limit) && Fresh(e)
    ensures var listing := Collect(rom, start, limit);
            var next := Wrap24(EndPc(start, listing.instrs));
            var p := Run(world, BodyCode(rom, start, limit), 3,
                         |Instructions(listing.instrs, Labels(listing.instrs))|, e);
            !listing.complete ==>
              p.Finished? && (AtExit(p.e, Running(e.w.m, next, e.n))
                              <==> FirstMissing(listing.instrs, Labels(listing.instrs)) == Some(next))
  {
    hide Collect, Instructions, Labels, MissingLabels, FirstMissing, EndPc, Block, Exec, Run, AtExit, BodyCode;
    if !Collect(rom, start, limit).complete {
      CutBodyFallsIntoStub(rom, world, start, limit, e);
    }
  }

  /** One dispatched call of a generated function, started with its C locals in any
      state: the machine, the address and the boundary count it leaves behind. */
  datatype Spot = Spot(m: State, pc: u24, n: nat)

  /** The function called at s has returned with e. */
  ghost predicate Leaves(rom: Rom, world: World, limit: nat, s: Spot, e: Env) {
    exists fuel: nat, w: Work, trace: bool
      {:trigger Run(world, BodyCode(rom, s.pc, limit), fuel, 0, Env(w, s.pc, s.n, trace, [], false))} ::
      w.m == s.m && Run(world, BodyCode(rom, s.pc, limit), fuel, 0, Env(w, s.pc, s.n, trace, [], false)) == Finished(e)
  }

  /** Where the program goes on after a body that left e. */
  function GoesOn(e: Env): Spot {
    Spot(e.w.m, if e.dispatched == [] then e.pc else e.dispatched[|e.dispatched| - 1], e.n)
  }

  ghost predicate Calls(rom: Rom, world: World, limit: nat, s: Spot, t: Spot) {
    exists e: Env :: Leaves(rom, world, limit, s, e) && !e.missed && t == GoesOn(e)
  }

  /** A body with nothing listed logs a miss. */
  lemma UnlistedMisses(rom: Rom, world: World, start: u24, limit: nat, e: Env, fuel: nat)
    requires !Listed(rom, start, limit)
    ensures var p := Run(world, BodyCode(rom, start, limit), fuel, 0, e); p.Finished? ==> p.e.missed
  {
    var code := BodyCode(rom, start, limit);
    assert code[0].Miss?;
    assert |code| > 1 ==> code[1].Return?;
    var e1 := e.(missed := true);
    assert fuel > 0 ==> Run(world, code, fuel, 0, e) == Run(world, code, fuel - 1, 1, e1);
  }

  lemma CallSimulates(rom: Rom, world: World, limit: nat, s: Spot, t: Spot) returns (j: nat)
    requires WellFormed(rom) && Calls(rom, world, limit, s, t)
    ensures var r := Steps(rom, world, Running(s.m, s.pc, s.n), j);
            (j > 0 && r == Running(t.m, t.pc, t.n)) || Parts(rom, world, s.pc, limit, r)
  {
    hide Run, Steps, BodyCode, Listed, Parts;
    var e: Env :| Leaves(rom, world, limit, s, e) && !e.missed && t == GoesOn(e);
    var fuel: nat, w: Work, trace: bool :|
      w.m == s.m && Run(world, BodyCode(rom, s.pc, limit), fuel, 0, Env(w, s.pc, s.n, trace, [], false)) == Finished(e);
    var e0 := Env(w, s.pc, s.n, trace, [], false);
    if Listed(rom, s.pc, limit) {
      j := BodySimulates(rom, world, s.pc, limit, e0, fuel);
    } else {
      j := 0;
      UnlistedMisses(rom, world, s.pc, limit, e0, fuel);
    }
  }

  /** The whole translated program: any number of calls, each dispatched to by the
      one before, is a run of the processor at least as long, unless that run gets to
      where it parts with the body at `trail[at]`. */
  lemma {:induction false} ProgramSimulates(rom: Rom, world: World, limit: nat, trail: seq<Spot>)
    returns (k: nat, at: nat)
    requires WellFormed(rom) && trail != []
    requires forall i :: 0 <= i < |trail| - 1 ==> Calls(rom, world, limit, trail[i], trail[i + 1])
    ensures var s, t := trail[0], trail[|trail| - 1];
            var r := Steps(rom, world, Running(s.m, s.pc, s.n), k);
            || (k >= |trail| - 1 && r == Running(t.m, t.pc, t.n))
            || (at < |trail| - 1 && Parts(rom, world, trail[at].pc, limit, r))
  {
    hide Calls, Step, Parts;
    k, at := 0, 0;
    if |trail| > 1 {
      var s, t := trail[0], trail[1];
      assert Calls(rom, world, limit, trail[0], trail[0 + 1]);
      k := CallSimulates(rom, world, limit, s, t);
      if !Parts(rom, world, s.pc, limit, Steps(rom, world, Running(s.m, s.pc, s.n), k)) {
        var rest := trail[1..];
        assert forall i :: 0 <= i < |rest| ==> rest[i] == trail[i + 1];
        var k1, at1 := ProgramSimulates(rom, world, limit, rest);
        StepsCompose(rom, world, Running(s.m, s.pc, s.n), k, k1);
        k, at := k + k1, at1 + 1;
      }
    }
  }

  /** In particular the program is the processor where the processor never gets to a
      corner and no body is cut badly. */
  lemma ProgramSimulatesWholly(rom: Rom, world: World, limit: nat, trail: seq<Spot>) returns (k: nat)
    requires WellFormed(rom) && trail != []
    requires var s := Running(trail[0].m, trail[0].pc, trail[0].n);
             forall j: nat :: !AtCorner(rom, world, Steps(rom, world, s, j))
    requires forall i :: 0 <= i < |trail| - 1 ==>
               !CutBadly(rom, trail[i].pc, limit) && Calls(rom, world, limit, trail[i], trail[i + 1])
    ensures var s, t := trail[0], trail[|trail| - 1];
            k >= |trail| - 1 && Steps(rom, world, Running(s.m, s.pc, s.n), k) == Running(t.m, t.pc, t.n)
  {
    hide Calls, Step, CutBadly, Steps, AtCorner;
    var at;
    k, at := ProgramSimulates(rom, world, limit, trail);
  }

  /** Instructions that have corners. */
  predicate HasCorner(op: Op) {
    || (op.Move? && FlagHazard(op.src, op.dst)) || (op.AddSubX? && op.sub) || op.NegX? || op.Illegal? || op.Rte?
    || (op.Stop? && !IsImplemented(SrOf(op.sr)))
  }

  lemma CornersAreInstructions(m: State, op: Op)
    ensures Corner(m, op) ==> HasCorner(op)
  {
    hide FrameSr, SrOf;
  }
}
