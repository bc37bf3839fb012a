/** The trampoline keeps one pending dispatch.  An emitted body never asks for a
    second one: whatever it is, wherever it is entered, and however long it runs. */
module OneDispatch {
  import opened Machine
  import opened Isa
  import opened Emitter
  import Alu

  // ---------------------------------------------------------------- the text of a body

  predicate ReturnsNext(code: seq<Stmt>, k: nat) {
    k + 1 < |code| && code[k + 1].Return?
  }

  /** Every NG_GENERATED_DISPATCH is printed right before a return. */
  predicate Tidy(code: seq<Stmt>) {
    forall k :: 0 <= k < |code| && code[k].Dispatch? ==> ReturnsNext(code, k)
  }

  lemma TidyAppend(xs: seq<Stmt>, ys: seq<Stmt>)
    requires Tidy(xs) && Tidy(ys)
    ensures Tidy(xs + ys)
  {
    var code := xs + ys;
    forall k | 0 <= k < |code| && code[k].Dispatch? ensures ReturnsNext(code, k) {
      if k < |xs| {
        assert ReturnsNext(xs, k);
      } else {
        assert ys[k - |xs|].Dispatch?;
        assert ReturnsNext(ys, k - |xs|);
      }
    }
  }

  lemma WithoutDispatch(code: seq<Stmt>)
    requires forall k :: 0 <= k < |code| ==> !code[k].Dispatch?
    ensures Tidy(code)
  {
  }

  lemma {:induction false} ActsAreTidy(actions: seq<Action>)
    ensures Tidy(Acts(actions))
  {
    if actions != [] {
      ActsAreTidy(actions[1..]);
      TidyAppend([Do(actions[0])], Acts(actions[1..]));
    }
  }

  lemma DispatchIsTidy(before: seq<Stmt>, to: Target)
    requires Tidy(before)
    ensures Tidy(before + ([Dispatch(to)] + [Return]))
  {
    var two := [Dispatch(to)] + [Return];
    assert ReturnsNext(two, 0);
    TidyAppend(before, two);
  }

  lemma ControlIsTidy(i: Instr)
    ensures Tidy(ControlCode(i))
  {
    if i.op.Illegal? {
      var to := To(Load(L, ConstPlace((if i.op.vector == 0 then 4 else i.op.vector % 256) * 4)));
      DispatchIsTidy([], to);
      assert [] + ControlCode(i) == ControlCode(i);
    } else if i.op.Bsr? || i.op.Jsr? || i.op.Jmp? || i.op.Rts? || i.op.Rte? || i.op.Rtr? || i.op.Trap? {
      var to := ControlCode(i)[0].to;
      DispatchIsTidy([ServiceTrace(to)], to);
    } else {
      WithoutDispatch(ControlCode(i));
    }
  }

  lemma OneInstructionIsTidy(i: Instr, labels: seq<u24>)
    ensures Tidy(OneInstruction(i, labels))
  {
    hide ControlCode, Acts, Actions;
    var guard := if i.op.Rte? || i.op.Stop? then [RequireSupervisor(Wrap24(i.addr))] else [];
    ActsAreTidy(Actions(i));
    ControlIsTidy(i);
    TidyAppend(Acts(Actions(i)), ControlCode(i));
    WithoutDispatch(guard);
    TidyAppend(guard, Acts(Actions(i)) + ControlCode(i));
    WithoutDispatch(EpilogueCode(i));
    TidyAppend(InstrCode(i), EpilogueCode(i));
    WithoutDispatch(PrologueCode(i));
    TidyAppend(PrologueCode(i), InstrCode(i) + EpilogueCode(i));
    WithoutDispatch(LabelCode(i, labels));
    TidyAppend(LabelCode(i, labels), PrologueCode(i) + (InstrCode(i) + EpilogueCode(i)));
  }

  lemma {:induction false} InstructionsAreTidy(instrs: seq<Instr>, labels: seq<u24>)
    ensures Tidy(Instructions(instrs, labels))
  {
    hide OneInstruction;
    if instrs != [] {
      var front, last := instrs[..|instrs| - 1], instrs[|instrs| - 1];
      InstructionsAreTidy(front, labels);
      OneInstructionIsTidy(last, labels);
      TidyAppend(Instructions(front, labels), OneInstruction(last, labels));
    }
  }

  lemma {:induction false} StubsAreTidy(instrs: seq<Instr>, labels: seq<u24>)
    ensures Tidy(MissingLabels(instrs, labels))
  {
    hide IsEmitted;
    if labels != [] {
      var front, last := labels[..|labels| - 1], labels[|labels| - 1];
      var rest, to := MissingLabels(instrs, front), To(Constant(last));
      StubsAreTidy(instrs, front);
      WithoutDispatch([Label(last)]);
      DispatchIsTidy([Label(last)], to);
      TidyAppend(rest, [Label(last)] + ([Dispatch(to)] + [Return]));
    }
  }

  lemma BodyIsTidy(rom: Rom, start: u32, limit: nat)
    ensures Tidy(BodyCode(rom, start, limit))
  {
    hide Collect, Instructions, MissingLabels, Labels, EndPc;
    var listing := Collect(rom, start, limit);
    if listing.decodeError.None? {
      var instrs, labels := listing.instrs, Labels(listing.instrs);
      var tail := if listing.complete then [] else [Miss(Wrap24(EndPc(start, instrs)))];
      InstructionsAreTidy(instrs, labels);
      StubsAreTidy(instrs, labels);
      WithoutDispatch(tail);
      TidyAppend(MissingLabels(instrs, labels), tail);
      TidyAppend(Instructions(instrs, labels), MissingLabels(instrs, labels) + tail);
    }
  }

  // ---------------------------------------------------------------- running it

  /** Only a statement that ends the body records a dispatch, but for Dispatch itself. */
  lemma ExecDispatches(world: World, s: Stmt, e: Env)
    requires e.dispatched == []
    ensures var o := Exec(world, s, e);
            |o.e.dispatched| <= 1 && (!o.Exit? && o.e.dispatched != [] ==> o.Next? && s.Dispatch?)
  {
    hide Perform, TargetValue, PushExceptionFrame, PushInterruptFrame, Alu.EmittedCondition, Read32, Wrap24, SrOf;
  }

  /** Nothing recorded yet, or one dispatch and the return right ahead. */
  predicate AboutToReturn(code: seq<Stmt>, at: nat, e: Env) {
    e.dispatched == [] || (|e.dispatched| == 1 && at < |code| && code[at].Return?)
  }

  lemma {:induction false} RunDispatches(world: World, code: seq<Stmt>, fuel: nat, at: nat, e: Env)
    requires Tidy(code) && AboutToReturn(code, at, e)
    ensures var p := Run(world, code, fuel, at, e); !p.NoSuchLabel? ==> |p.e.dispatched| <= 1
    decreases fuel
  {
    hide Exec, LabelAt;
    if at < |code| && fuel > 0 {
      if e.dispatched != [] {
        ReturnExits(world, e);
      } else {
        ExecDispatches(world, code[at], e);
        match Exec(world, code[at], e)
        case Next(e1) => RunDispatches(world, code, fuel - 1, at + 1, e1);
        case Exit(_) =>
        case Jump(target, e1) =>
          var j := LabelAt(code, target);
          if j < |code| {
            RunDispatches(world, code, fuel - 1, j, e1);
          }
      }
    }
  }

  lemma ReturnExits(world: World, e: Env)
    ensures Exec(world, Return, e) == Exit(e)
  {
  }

  /** Every run of every emitted body, complete, cut or undecodable, from any position
      and state, for any time, has recorded at most one dispatch. */
  lemma AtMostOneDispatch(rom: Rom, world: World, start: u32, limit: nat, fuel: nat, at: nat, e: Env)
    requires e.dispatched == []
    ensures var p := Run(world, BodyCode(rom, start, limit), fuel, at, e);
            !p.NoSuchLabel? ==> |p.e.dispatched| <= 1
  {
    hide Run, BodyCode, Tidy;
    BodyIsTidy(rom, start, limit);
    RunDispatches(world, BodyCode(rom, start, limit), fuel, at, e);
  }
}
