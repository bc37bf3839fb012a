/** emit_function_body and emit_missing_branch_labels as the loops they are, over
    the output file they append to. */
module EmitBody {
  import opened Machine
  import opened Isa
  import opened Emitter

  /** The FILE the emitter prints to. */
  class Output {
    var code: seq<Stmt>

    constructor ()
      ensures code == []
    {
      code := [];
    }

    method Put(ss: seq<Stmt>)
      modifies this
      ensures code == old(code) + ss
    {
      code := code + ss;
    }
  }

  method EmitMissingBranchLabels(out: Output, instrs: seq<Instr>, labels: seq<u24>)
    modifies out
    ensures out.code == old(out.code) + MissingLabels(instrs, labels)
  {
    hide IsEmitted;
    for i := 0 to |labels|
      invariant out.code == old(out.code) + MissingLabels(instrs, labels[..i])
    {
      var target := labels[i];
      var emitted := FindEmitted(instrs, target);
      assert labels[..i + 1][..i] == labels[..i];
      if !emitted {
        out.Put([Label(target)] + ([Dispatch(To(Constant(target)))] + [Return]));
      }
    }
    assert labels[..|labels|] == labels;
  }

  method FindEmitted(instrs: seq<Instr>, target: u24) returns (emitted: bool)
    ensures emitted <==> IsEmitted(instrs, target)
  {
    emitted := false;
    for j := 0 to |instrs|
      invariant !emitted
      invariant forall k :: 0 <= k < j ==> Wrap24(instrs[k].addr) != target
    {
      if Wrap24(instrs[j].addr) == target {
        return true;
      }
    }
  }

  /** What is still to be collected from `pc`, after the instructions in hand. */
  ghost predicate Collecting(rom: Rom, whole: Listing, instrs: seq<Instr>, pc: u32, left: nat) {
    var rest := Collect(rom, pc, left);
    && whole.instrs == instrs + rest.instrs
    && whole.complete == rest.complete && whole.decodeError == rest.decodeError
  }

  /** The first loop of emit_function_body: gather instructions and branch targets. */
  method CollectInstructions(rom: Rom, start: u32, limit: nat)
    returns (instrs: seq<Instr>, labels: seq<u24>, terminated: bool, failedAt: Option<u32>, pc: u32)
    requires WellFormed(rom)
    ensures Collect(rom, start, limit) == Listing(instrs, terminated, failedAt)
    ensures labels == Labels(instrs)
    ensures !terminated && failedAt.None? ==> pc == EndPc(start, instrs)
  {
    hide GoodInstr, AddLabel, EndsBody, Collect, Labels, EndPc, Collecting, Wrap32;
    CollectBegins(rom, start, limit);
    pc, instrs, labels, terminated, failedAt := start, [], [], false, None;
    for i := 0 to limit
      invariant labels == Labels(instrs) && !terminated && failedAt.None?
      invariant Collecting(rom, Collect(rom, start, limit), instrs, pc, limit - i) && pc == EndPc(start, instrs)
    {
      CollectGoesOn(rom, Collect(rom, start, limit), start, instrs, pc, limit - i);
      if rom(pc).None? {
        failedAt := Some(pc);
        return;
      }
      var instr := rom(pc).value;
      Reaches(rom, pc, instr);
      LabelsGrow(instrs, instr);
      instrs := instrs + [instr];
      labels := AddLabel(labels, instr.op);
      if EndsBody(instr.op) {
        terminated := true;
        return;
      }
      pc := pc + instr.len;
    }
    CollectEnds(rom, Collect(rom, start, limit), instrs, pc);
  }

  lemma CollectBegins(rom: Rom, start: u32, limit: nat)
    ensures Collecting(rom, Collect(rom, start, limit), [], start, limit)
    ensures start == EndPc(start, []) && Labels([]) == []
  {
    assert [] + Collect(rom, start, limit).instrs == Collect(rom, start, limit).instrs;
  }

  lemma CollectEnds(rom: Rom, whole: Listing, instrs: seq<Instr>, pc: u32)
    requires Collecting(rom, whole, instrs, pc, 0)
    ensures whole == Listing(instrs, false, None)
  {
    assert instrs + [] == instrs;
  }

  lemma CollectGoesOn(rom: Rom, whole: Listing, start: u32, instrs: seq<Instr>, pc: u32, left: nat)
    requires WellFormed(rom) && left > 0 && Collecting(rom, whole, instrs, pc, left)
    ensures rom(pc).None? ==> whole == Listing(instrs, false, Some(pc))
    ensures rom(pc).Some? && EndsBody(rom(pc).value.op) ==> whole == Listing(instrs + [rom(pc).value], true, None)
    ensures rom(pc).Some? && !EndsBody(rom(pc).value.op) ==>
              var next := Wrap32(pc + rom(pc).value.len);
              Collecting(rom, whole, instrs + [rom(pc).value], next, left - 1)
              && next == pc + rom(pc).value.len == EndPc(start, instrs + [rom(pc).value])
  {
    hide GoodInstr, EndsBody, Wrap32;
    if rom(pc).None? {
      assert instrs + [] == instrs;
    } else {
      var i := rom(pc).value;
      Reaches(rom, pc, i);
      if !EndsBody(i.op) {
        var rest := Collect(rom, Wrap32(pc + i.len), left - 1).instrs;
        assert instrs + ([i] + rest) == (instrs + [i]) + rest;
      }
    }
  }

  lemma LabelsGrow(instrs: seq<Instr>, i: Instr)
    ensures Labels(instrs + [i]) == AddLabel(Labels(instrs), i.op)
  {
    hide AddLabel;
    assert (instrs + [i])[..|instrs + [i]| - 1] == instrs;
  }

  method EmitFunctionBody(out: Output, rom: Rom, start: u32)
    requires WellFormed(rom)
    modifies out
    ensures out.code == old(out.code) + BodyCode(rom, start, MAX_INSTRUCTIONS)
  {
    hide OneInstruction, MissingLabels, LabelCode, PrologueCode, EpilogueCode, InstrCode, Collect, Labels;
    hide Instructions, EndPc, BodyCode, Wrap24;
    var instrs, labels, terminated, failedAt, pc := CollectInstructions(rom, start, MAX_INSTRUCTIONS);
    BodyParts(rom, start, MAX_INSTRUCTIONS, instrs, terminated, failedAt);
    NoInstructions(labels);
    if failedAt.Some? {
      out.Put([Miss(Wrap24(failedAt.value))] + [Return]);
      return;
    }
    for k := 0 to |instrs|
      invariant out.code == old(out.code) + Instructions(instrs[..k], labels)
    {
      var ins := instrs[k];
      out.Put(LabelCode(ins, labels) + (PrologueCode(ins) + (InstrCode(ins) + EpilogueCode(ins))));
      assert instrs[..k + 1][..k] == instrs[..k];
      LastOne(instrs[..k + 1], labels, ins);
    }
    assert instrs[..|instrs|] == instrs && instrs[..0] == [];
    EmitMissingBranchLabels(out, instrs, labels);
    if !terminated {
      out.Put([Miss(Wrap24(pc))]);
    }
  }

  lemma NoInstructions(labels: seq<u24>)
    ensures Instructions([], labels) == []
  {
  }

  lemma BodyParts(rom: Rom, start: u32, limit: nat, instrs: seq<Instr>, terminated: bool, failedAt: Option<u32>)
    requires Collect(rom, start, limit) == Listing(instrs, terminated, failedAt)
    ensures failedAt.Some? ==> BodyCode(rom, start, limit) == [Miss(Wrap24(failedAt.value))] + [Return]
    ensures failedAt.None? && terminated ==>
              BodyCode(rom, start, limit)
              == Instructions(instrs, Labels(instrs)) + MissingLabels(instrs, Labels(instrs))
    ensures failedAt.None? && !terminated ==>
              BodyCode(rom, start, limit)
              == Instructions(instrs, Labels(instrs)) + MissingLabels(instrs, Labels(instrs))
                                      + [Miss(Wrap24(EndPc(start, instrs)))]
  {
    hide Collect, Instructions, MissingLabels, Labels;
  }

  lemma Reaches(rom: Rom, pc: u32, i: Instr)
    requires WellFormed(rom) && rom(pc) == Some(i)
    ensures i.addr == pc && Wrap32(pc + i.len) == pc + i.len && 0 <= pc + i.len < 0x1_0000_0000
  {
    assert GoodInstr(rom(pc).value, pc);
  }

  lemma LastOne(instrs: seq<Instr>, labels: seq<u24>, ins: Instr)
    requires instrs != [] && instrs[|instrs| - 1] == ins
    ensures Instructions(instrs, labels)
            == Instructions(instrs[..|instrs| - 1], labels)
               + (LabelCode(ins, labels) + (PrologueCode(ins) + (InstrCode(ins) + EpilogueCode(ins))))
  {
    hide LabelCode, PrologueCode, EpilogueCode, InstrCode;
  }
}
