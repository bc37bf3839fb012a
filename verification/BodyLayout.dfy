/** Where things are in an emitted function body: the instructions collected, the
    position of each one's code, and the one label every goto resolves to. */
module BodyLayout {
  import opened Machine
  import opened Isa
  import opened Emitter
  import Alu

  // ---------------------------------------------------------------- the collected instructions

  /** Instructions laid out end to end, each one decoded where it lies. */
  ghost predicate Chained(rom: Rom, instrs: seq<Instr>) {
    && (forall j :: 0 <= j < |instrs| ==>
          rom(instrs[j].addr) == Some(instrs[j]) && GoodInstr(instrs[j], instrs[j].addr))
    && (forall j :: 0 <= j < |instrs| - 1 ==> instrs[j + 1].addr == instrs[j].addr + instrs[j].len)
  }

  lemma {:induction false} CollectIsChained(rom: Rom, pc: u32, limit: nat)
    requires WellFormed(rom)
    ensures var r := Collect(rom, pc, limit);
            && Chained(rom, r.instrs)
            && (r.instrs != [] ==> r.instrs[0].addr == pc)
            && (r.complete ==> r.instrs != [] && r.decodeError.None?)
            && (forall j :: 0 <= j < |r.instrs| ==> (EndsBody(r.instrs[j].op) <==> r.complete && j == |r.instrs| - 1))
    decreases limit
  {
    hide GoodInstr, EndsBody;
    if limit > 0 && rom(pc).Some? {
      var i := rom(pc).value;
      assert GoodInstr(i, pc);
      StaysInSpace(i, pc);
      if !EndsBody(i.op) {
        var next := Wrap32(pc + i.len);
        CollectIsChained(rom, next, limit - 1);
        var rest := Collect(rom, next, limit - 1);
        var r := Collect(rom, pc, limit);
        assert r.instrs == [i] + rest.instrs;
        forall j | 0 <= j < |r.instrs|
          ensures rom(r.instrs[j].addr) == Some(r.instrs[j]) && GoodInstr(r.instrs[j], r.instrs[j].addr)
          ensures EndsBody(r.instrs[j].op) <==> r.complete && j == |r.instrs| - 1
        {
          assert j > 0 ==> r.instrs[j] == rest.instrs[j - 1];
        }
        forall j | 0 <= j < |r.instrs| - 1
          ensures r.instrs[j + 1].addr == r.instrs[j].addr + r.instrs[j].len
        {
          assert r.instrs[j + 1] == rest.instrs[j];
          assert j > 0 ==> r.instrs[j] == rest.instrs[j - 1];
        }
      }
    }
  }

  lemma StaysInSpace(i: Instr, a: u32)
    requires GoodInstr(i, a)
    ensures i.addr == a && Wrap32(a + i.len) == a + i.len && i.len > 0 && a < 0x100_0000 && Wrap24(a) == a
  {
  }

  lemma {:induction false} Increasing(rom: Rom, instrs: seq<Instr>, j: nat, k: nat)
    requires Chained(rom, instrs) && j < k < |instrs|
    ensures instrs[j].addr < instrs[k].addr
    decreases k
  {
    StaysInSpace(instrs[k - 1], instrs[k - 1].addr);
    if j < k - 1 {
      Increasing(rom, instrs, j, k - 1);
    }
  }

  lemma DistinctAddresses(rom: Rom, instrs: seq<Instr>, j: nat, k: nat)
    requires Chained(rom, instrs) && j < |instrs| && k < |instrs|
    requires Wrap24(instrs[j].addr) == Wrap24(instrs[k].addr)
    ensures j == k
  {
    StaysInSpace(instrs[j], instrs[j].addr);
    StaysInSpace(instrs[k], instrs[k].addr);
    if j < k { Increasing(rom, instrs, j, k); }
    if k < j { Increasing(rom, instrs, k, j); }
  }

  // ---------------------------------------------------------------- branch targets

  lemma {:induction false} LabelsAreTargets(instrs: seq<Instr>, target: u24)
    ensures target in Labels(instrs)
            <==> exists j :: 0 <= j < |instrs| && BranchTarget(instrs[j].op) == Some(target)
    ensures multiset(Labels(instrs))[target] <= 1
  {
    if instrs != [] {
      var front, last := instrs[..|instrs| - 1], instrs[|instrs| - 1];
      LabelsAreTargets(front, target);
      assert forall j :: 0 <= j < |front| ==> front[j] == instrs[j];
      var labels := Labels(front);
      if BranchTarget(last.op).Some? && BranchTarget(last.op).value !in labels {
        var target := BranchTarget(last.op).value;
        assert multiset(labels + [target]) == multiset(labels) + multiset{target};
      }
      if target in Labels(instrs) && target !in labels {
        assert BranchTarget(instrs[|instrs| - 1].op) == Some(target);
      }
    }
  }

  // ---------------------------------------------------------------- positions in the code

  lemma {:induction false} InstructionsAppend(xs: seq<Instr>, ys: seq<Instr>, labels: seq<u24>)
    ensures Instructions(xs + ys, labels) == Instructions(xs, labels) + Instructions(ys, labels)
    decreases |ys|
  {
    hide OneInstruction;
    if ys == [] {
      assert xs + ys == xs;
    } else {
      var front := ys[..|ys| - 1];
      assert (xs + ys)[..|xs + ys| - 1] == xs + front;
      InstructionsAppend(xs, front, labels);
    }
  }

  lemma InstructionsSplit(instrs: seq<Instr>, labels: seq<u24>, k: nat)
    requires k < |instrs|
    ensures Instructions(instrs, labels)
            == Instructions(instrs[..k], labels)
               + (OneInstruction(instrs[k], labels) + Instructions(instrs[k + 1..], labels))
    ensures Instructions(instrs[..k + 1], labels)
            == Instructions(instrs[..k], labels) + OneInstruction(instrs[k], labels)
  {
    hide OneInstruction;
    InstructionsAppend(instrs[..k + 1], instrs[k + 1..], labels);
    assert instrs == instrs[..k + 1] + instrs[k + 1..];
    assert instrs[..k + 1][..k] == instrs[..k];
  }

  /** A body as emit_function_body prints it: the tail is empty when a terminator was
      reached, and the miss at the end of a body cut at the instruction limit. */
  function BodyOf(instrs: seq<Instr>, tail: seq<Stmt>): seq<Stmt> {
    Instructions(instrs, Labels(instrs)) + (MissingLabels(instrs, Labels(instrs)) + tail)
  }

  predicate IsTail(tail: seq<Stmt>) {
    tail == [] || (|tail| == 1 && tail[0].Miss?)
  }

  function Tail(start: u32, listing: Listing): seq<Stmt> {
    if listing.complete then [] else [Miss(Wrap24(EndPc(start, listing.instrs)))]
  }

  lemma BodyIsListing(rom: Rom, start: u32, limit: nat)
    requires Collect(rom, start, limit).decodeError.None?
    ensures var listing := Collect(rom, start, limit);
            BodyCode(rom, start, limit) == BodyOf(listing.instrs, Tail(start, listing)) && IsTail(Tail(start, listing))
  {
    hide Collect, Instructions, MissingLabels, Labels;
  }

  /** Statement position of instruction k. */
  function Offset(instrs: seq<Instr>, k: nat): nat
    requires k <= |instrs|
  {
    |Instructions(instrs[..k], Labels(instrs))|
  }

  // ---------------------------------------------------------------- labels

  lemma NoLabelsInside(i: Instr, labels: seq<u24>, target: u24)
    ensures Label(target) !in PrologueCode(i) + (InstrCode(i) + EpilogueCode(i))
  {
    NoLabelsInActs(Actions(i), target);
    NoLabelsInControl(i, target);
  }

  lemma NoLabelsInControl(i: Instr, target: u24)
    ensures Label(target) !in ControlCode(i) + EpilogueCode(i)
  {
  }

  lemma {:induction false} NoLabelsInActs(actions: seq<Action>, target: u24)
    ensures Label(target) !in Acts(actions)
  {
    if actions != [] {
      NoLabelsInActs(actions[1..], target);
    }
  }

  lemma EmittedExtends(instrs: seq<Instr>, target: u24)
    requires instrs != []
    ensures var k := |instrs| - 1;
            IsEmitted(instrs, target) <==> IsEmitted(instrs[..k], target) || Wrap24(instrs[k].addr) == target
  {
    var k := |instrs| - 1;
    var front := instrs[..k];
    if IsEmitted(front, target) {
      var j :| 0 <= j < |front| && Wrap24(front[j].addr) == target;
      assert Wrap24(instrs[j].addr) == target;
    }
    if IsEmitted(instrs, target) {
      var j :| 0 <= j < |instrs| && Wrap24(instrs[j].addr) == target;
      assert j < k ==> front[j] == instrs[j];
    }
  }

  lemma NotEmittedTwice(rom: Rom, instrs: seq<Instr>, target: u24)
    requires Chained(rom, instrs) && instrs != []
    requires Wrap24(instrs[|instrs| - 1].addr) == target
    ensures !IsEmitted(instrs[..|instrs| - 1], target)
  {
    var front := instrs[..|instrs| - 1];
    if IsEmitted(front, target) {
      var j :| 0 <= j < |front| && Wrap24(front[j].addr) == target;
      DistinctAddresses(rom, instrs, j, |instrs| - 1);
    }
  }

  lemma {:induction false} LabelCountInInstructions(rom: Rom, instrs: seq<Instr>, labels: seq<u24>, target: u24)
    requires Chained(rom, instrs)
    ensures multiset(Instructions(instrs, labels))[Label(target)]
            == if target in labels && IsEmitted(instrs, target) then 1 else 0
  {
    hide OneInstruction, IsEmitted, Wrap24;
    if instrs == [] {
      NothingEmitted(target);
    } else {
      var k := |instrs| - 1;
      var front, last := instrs[..k], instrs[k];
      assert Chained(rom, front);
      LabelCountInInstructions(rom, front, labels, target);
      LabelCountInOne(last, labels, target);
      assert multiset(Instructions(front, labels) + OneInstruction(last, labels))
             == multiset(Instructions(front, labels)) + multiset(OneInstruction(last, labels));
      EmittedExtends(instrs, target);
      if Wrap24(last.addr) == target {
        NotEmittedTwice(rom, instrs, target);
      }
    }
  }

  lemma NothingEmitted(target: u24)
    ensures !IsEmitted([], target)
  {
  }

  lemma LabelCountInOne(i: Instr, labels: seq<u24>, target: u24)
    ensures multiset(OneInstruction(i, labels))[Label(target)]
            == if target in labels && Wrap24(i.addr) == target then 1 else 0
  {
    hide Acts, PrologueCode, InstrCode, EpilogueCode;
    var rest := PrologueCode(i) + (InstrCode(i) + EpilogueCode(i));
    NoLabelsInside(i, labels, target);
    assert multiset(LabelCode(i, labels) + rest) == multiset(LabelCode(i, labels)) + multiset(rest);
    assert Label(target) !in multiset(rest);
  }

  lemma LabelCountInStub(pre: seq<Stmt>, at: u24, target: u24)
    ensures multiset(pre + ([Label(at)] + ([Dispatch(To(Constant(at)))] + [Return])))[Label(target)]
            == multiset(pre)[Label(target)] + if at == target then 1 else 0
  {
    var stub := [Label(at)] + ([Dispatch(To(Constant(at)))] + [Return]);
    assert multiset(stub) == multiset{Label(at), Dispatch(To(Constant(at))), Return};
    assert multiset(pre + stub) == multiset(pre) + multiset(stub);
  }

  lemma {:induction false} LabelCountInMissing(instrs: seq<Instr>, labels: seq<u24>, target: u24)
    ensures multiset(MissingLabels(instrs, labels))[Label(target)]
            == if IsEmitted(instrs, target) then 0 else multiset(labels)[target]
  {
    hide IsEmitted;
    if labels != [] {
      var front, last := labels[..|labels| - 1], labels[|labels| - 1];
      LabelCountInMissing(instrs, front, target);
      assert labels == front + [last];
      assert multiset(labels) == multiset(front) + multiset{last};
      if !IsEmitted(instrs, last) {
        LabelCountInStub(MissingLabels(instrs, front), last, target);
      }
    }
  }

  lemma OneLabelForTarget(rom: Rom, instrs: seq<Instr>, tail: seq<Stmt>, j: nat, target: u24)
    requires Chained(rom, instrs) && IsTail(tail)
    requires j < |instrs| && BranchTarget(instrs[j].op) == Some(target)
    ensures multiset(BodyOf(instrs, tail))[Label(target)] == 1
  {
    hide Instructions, MissingLabels, Labels, IsEmitted;
    var labels := Labels(instrs);
    LabelsAreTargets(instrs, target);
    LabelCountInInstructions(rom, instrs, labels, target);
    LabelCountInMissing(instrs, labels, target);
    assert multiset(BodyOf(instrs, tail))
           == multiset(Instructions(instrs, labels)) + (multiset(MissingLabels(instrs, labels)) + multiset(tail));
    assert Label(target) !in multiset(tail);
    assert target in Labels(instrs) && multiset(Labels(instrs))[target] == 1;
  }

  lemma TwoCopies<T>(s: seq<T>, j: nat, p: nat)
    requires j < p < |s| && s[j] == s[p]
    ensures multiset(s)[s[p]] >= 2
  {
    var front, back := s[..p], s[p..];
    assert s == front + back;
    assert front[j] in multiset(front) && back[0] in multiset(back);
    assert multiset(s) == multiset(front) + multiset(back);
  }

  lemma AtItsOnlyPosition(code: seq<Stmt>, target: u24, p: nat)
    requires p < |code| && code[p] == Label(target)
    requires multiset(code)[Label(target)] == 1
    ensures LabelAt(code, target) == p
  {
    var j := LabelAt(code, target);
    if j < p {
      TwoCopies(code, j, p);
    }
  }

  /** The label of an instruction in the body is where its code starts. */
  lemma EmittedLabelAt(rom: Rom, instrs: seq<Instr>, tail: seq<Stmt>, j: nat, k: nat)
    requires Chained(rom, instrs) && IsTail(tail) && j < |instrs| && k < |instrs|
    requires BranchTarget(instrs[j].op) == Some(Wrap24(instrs[k].addr))
    ensures Offset(instrs, k) < |BodyOf(instrs, tail)|
    ensures LabelAt(BodyOf(instrs, tail), Wrap24(instrs[k].addr)) == Offset(instrs, k)
  {
    hide Instructions, MissingLabels, Labels, LabelAt;
    var labels, target := Labels(instrs), Wrap24(instrs[k].addr);
    LabelsAreTargets(instrs, target);
    InstructionsSplit(instrs, labels, k);
    assert OneInstruction(instrs[k], labels)[0] == Label(target);
    OneLabelForTarget(rom, instrs, tail, j, target);
    AtItsOnlyPosition(BodyOf(instrs, tail), target, Offset(instrs, k));
  }

  // ---------------------------------------------------------------- gotos

  /** The statements that can jump, and where to. */
  function GotoTarget(s: Stmt): Option<u24> {
    match s
    case Goto(target) => Some(target)
    case GotoIf(_, target) => Some(target)
    case CountAndGoto(_, _, target) => Some(target)
    case _ => None
  }

  lemma {:induction false} ActsDoNotJump(actions: seq<Action>, s: Stmt)
    requires s in Acts(actions)
    ensures GotoTarget(s).None?
  {
    if s != Do(actions[0]) {
      ActsDoNotJump(actions[1..], s);
    }
  }

  lemma GotoIsBranch(i: Instr, labels: seq<u24>, s: Stmt)
    requires Encodable(i.op) && s in OneInstruction(i, labels) && GotoTarget(s).Some?
    ensures BranchTarget(i.op) == GotoTarget(s)
  {
    hide Acts, Actions, EpilogueCode, ControlCode;
    if s in Acts(Actions(i)) {
      ActsDoNotJump(Actions(i), s);
    }
    GotoInControl(i, s);
  }

  lemma GotoInControl(i: Instr, s: Stmt)
    requires Encodable(i.op) && GotoTarget(s).Some?
    ensures s in ControlCode(i) ==> BranchTarget(i.op) == GotoTarget(s)
    ensures s !in EpilogueCode(i)
  {
  }

  lemma {:induction false} GotoInInstructions(instrs: seq<Instr>, labels: seq<u24>, s: Stmt) returns (j: nat)
    requires forall k :: 0 <= k < |instrs| ==> Encodable(instrs[k].op)
    requires s in Instructions(instrs, labels) && GotoTarget(s).Some?
    ensures j < |instrs| && BranchTarget(instrs[j].op) == GotoTarget(s)
  {
    hide OneInstruction, Encodable;
    var k := |instrs| - 1;
    if s in OneInstruction(instrs[k], labels) {
      j := k;
      GotoIsBranch(instrs[k], labels, s);
    } else {
      j := GotoInInstructions(instrs[..k], labels, s);
    }
  }

  lemma {:induction false} StubsDoNotJump(instrs: seq<Instr>, labels: seq<u24>, s: Stmt)
    requires s in MissingLabels(instrs, labels)
    ensures GotoTarget(s).None?
  {
    hide IsEmitted;
    var front := labels[..|labels| - 1];
    if s in MissingLabels(instrs, front) {
      StubsDoNotJump(instrs, front, s);
    }
  }

  /** Every goto of an emitted body, complete or cut, has exactly one label in it. */
  lemma ExactlyOneLabel(rom: Rom, start: u32, limit: nat, s: Stmt)
    requires WellFormed(rom) && s in BodyCode(rom, start, limit) && GotoTarget(s).Some?
    ensures multiset(BodyCode(rom, start, limit))[Label(GotoTarget(s).value)] == 1
  {
    hide Collect, Instructions, MissingLabels, Labels, EndPc, GoodInstr, EndsBody;
    var listing := Collect(rom, start, limit);
    if listing.decodeError.None? {
      BodyIsListing(rom, start, limit);
      CollectIsChained(rom, start, limit);
      var instrs := listing.instrs;
      forall k | 0 <= k < |instrs| ensures Encodable(instrs[k].op) {
        assert GoodInstr(instrs[k], instrs[k].addr);
        GoodIsEncodable(instrs[k]);
      }
      if s in MissingLabels(instrs, Labels(instrs)) {
        StubsDoNotJump(instrs, Labels(instrs), s);
      }
      assert s in Instructions(instrs, Labels(instrs));
      var j := GotoInInstructions(instrs, Labels(instrs), s);
      OneLabelForTarget(rom, instrs, Tail(start, listing), j, GotoTarget(s).value);
    }
  }

  lemma GoodIsEncodable(i: Instr)
    requires GoodInstr(i, i.addr)
    ensures Encodable(i.op)
  {
  }

  lemma JumpIsGoto(world: World, s: Stmt, e: Env)
    ensures Exec(world, s, e).Jump? ==> GotoTarget(s) == Some(Exec(world, s, e).target)
  {
    hide Perform, TargetValue, Raise, DispatchTo, Alu.EmittedCondition;
  }

  /** No run of an emitted body, from any position and state, jumps to a label that is
      not in it. */
  lemma {:induction false} GotosResolve(rom: Rom, world: World, start: u32, limit: nat, fuel: nat, at: nat, e: Env)
    requires WellFormed(rom)
    ensures !Run(world, BodyCode(rom, start, limit), fuel, at, e).NoSuchLabel?
    decreases fuel
  {
    hide Exec, BodyCode, LabelAt;
    var code := BodyCode(rom, start, limit);
    if at < |code| && fuel > 0 {
      JumpIsGoto(world, code[at], e);
      match Exec(world, code[at], e)
      case Next(e1) => GotosResolve(rom, world, start, limit, fuel - 1, at + 1, e1);
      case Exit(_) =>
      case Jump(target, e1) =>
        var j := LabelAt(code, target);
        ExactlyOneLabel(rom, start, limit, code[at]);
        assert Label(target) in multiset(code);
        if j < |code| {
          GotosResolve(rom, world, start, limit, fuel - 1, j, e1);
        }
    }
  }

  lemma {:induction false} MissingLabelSplit(instrs: seq<Instr>, labels: seq<u24>, target: u24)
    returns (pre: seq<Stmt>, post: seq<Stmt>)
    requires target in labels && !IsEmitted(instrs, target)
    ensures MissingLabels(instrs, labels)
            == pre + ([Label(target)] + ([Dispatch(To(Constant(target)))] + [Return])) + post
  {
    hide IsEmitted;
    var front, last := labels[..|labels| - 1], labels[|labels| - 1];
    var three := [Label(last)] + ([Dispatch(To(Constant(last)))] + [Return]);
    if last == target {
      pre, post := MissingLabels(instrs, front), [];
      assert pre + three + post == pre + three;
    } else {
      assert target in front;
      var post1;
      pre, post1 := MissingLabelSplit(instrs, front, target);
      post := if IsEmitted(instrs, last) then post1 else post1 + three;
      var found := [Label(target)] + ([Dispatch(To(Constant(target)))] + [Return]);
      assert (pre + found + post1) + three == pre + found + (post1 + three);
    }
  }
}
