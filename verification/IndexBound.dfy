/** The index-register bound of the jump-table analysis (recompiler/src/m68k_analyze.c):
    an abstract state updated along straight-line code, and what it says about the
    registers the code really computes. */
module IndexBound {
  import opened Machine
  import opened Shifts

  const MAX_ENTRIES := 64

  // ---------------------------------------------------------------- instructions and their effect

  /** An instruction as the analysis tells them apart.  Listed and Unlisted stand for
      any other write to a data register, by whether instr_writes_dreg knows it. */
  datatype DataOp =
    | Call(after: Regs)
    | CmpI(r: Reg, imm: u32)
    | BranchNotTaken(condition: int)
    | MoveImm(size: Size, r: Reg, imm: u32)
    | AndI(size: Size, r: Reg, imm: u32)
    | ShiftLeft(size: Size, r: Reg, n: nat)
    | AddSelf(size: Size, r: Reg)
    | Listed(r: Reg, value: u32)
    | Unlisted(r: Reg, value: u32)
    | NoWrite

  /** Bitwise and. */
  function And(a: nat, b: nat): (c: nat)
    ensures c <= b
    decreases b
  {
    if b == 0 then 0 else 2 * And(a / 2, b / 2) + (a % 2) * (b % 2)
  }

  function Effect(d: Regs, op: DataOp): Regs {
    match op
    case Call(after) => after
    case MoveImm(size, r, imm) => d[r := Merge(d[r], size, imm)]
    case AndI(size, r, imm) => d[r := Merge(d[r], size, And(Low(d[r], size), imm))]
    case ShiftLeft(size, r, n) => d[r := Merge(d[r], size, Low(d[r], size) * Pow2(n))]
    case AddSelf(size, r) => d[r := Merge(d[r], size, Low(d[r], size) + Low(d[r], size))]
    case Listed(r, value) => d[r := value]
    case Unlisted(r, value) => d[r := value]
    case _ => d
  }

  // ---------------------------------------------------------------- the abstract state

  /** One register's row of NgM68kIndexRegBoundState. */
  datatype Bound = Bound(valid: bool, max: nat, scale: nat, guarded: bool, guardedMax: nat, pending: bool,
                         pendingMax: nat)

  const Cleared := Bound(false, 0, 0, false, 0, false, 0)

  type Bounds = s: seq<Bound> | |s| == 8
    witness [Cleared, Cleared, Cleared, Cleared, Cleared, Cleared, Cleared, Cleared]

  function Reset(): Bounds { seq(8, _ => Cleared) }

  /** cmp_branch_guard_max_entries: none for a condition that bounds nothing. */
  function GuardEntries(condition: int, bound: nat): (n: nat) {
    if bound == 0 then 0 else if condition == 5 then bound
    else if condition == 3 && bound < MAX_ENTRIES then bound + 1 else 0
  }

  /** index_reg_bound_promote_cmp_guard, one register */
  function Promote(b: Bound, op: DataOp): Bound {
    var b1 := b.(pending := false, pendingMax := 0);
    if op.BranchNotTaken? && b.pending && GuardEntries(op.condition, b.pendingMax) > 0
    then b1.(guarded := true, guardedMax := GuardEntries(op.condition, b.pendingMax))
    else b1
  }

  function PromoteAll(s: Bounds, op: DataOp): (s1: Bounds)
    ensures forall r :: 0 <= r < 8 ==> s1[r] == Promote(s[r], op)
  {
    seq(8, r requires 0 <= r < 8 => Promote(s[r], op))
  }

  /** index_reg_bound_scale, with the clear its callers do when it fails */
  function Scaled(b: Bound, factor: nat): Bound {
    if factor == 0 || !b.valid || b.scale == 0 || b.scale * factor > 16 then Cleared
    else b.(scale := b.scale * factor)
  }

  /** index_reg_bound_apply_guarded_clamp applies. */
  predicate Clamps(s: Bounds, op: DataOp) {
    op.MoveImm? && s[op.r].guarded && s[op.r].guardedMax > 0 && op.imm < s[op.r].guardedMax
  }

  /** ng_m68k_index_reg_bound_update */
  function Update(s: Bounds, op: DataOp): Bounds {
    if op.Call? then Reset()
    else if op.CmpI? && 0 < op.imm <= MAX_ENTRIES then s[op.r := s[op.r].(pending := true, pendingMax := op.imm)]
    else
      var s1 := PromoteAll(s, op);
      if Clamps(s1, op) then
        s1[op.r := Bound(true, s1[op.r].guardedMax, 1, false, 0, false, 0)]
      else match op
        case AndI(_, r, imm) =>
          if imm >= MAX_ENTRIES then s1[r := Cleared]
          else
            var b := s1[r];
            var max := if b.guarded && b.guardedMax != 0 && b.guardedMax < imm + 1 then b.guardedMax else imm + 1;
            s1[r := b.(valid := true, max := max, scale := 1)]
        case ShiftLeft(size, r, n) => s1[r := if size != B && n < 8 then Scaled(s1[r], Pow2(n)) else Cleared]
        case AddSelf(size, r) => s1[r := if size != B then Scaled(s1[r], 2) else Cleared]
        case MoveImm(_, r, _) => s1[r := Cleared]
        case Listed(r, _) => s1[r := Cleared]
        case _ => s1
  }

  /** The state as the struct it is, updated in place. */
  class IndexRegBoundState {
    const regs: array<Bound>

    constructor ()
      ensures Valid() && fresh(regs) && regs[..] == Reset()
    {
      regs := new Bound[8](_ => Cleared);
    }

    ghost predicate Valid() { regs.Length == 8 }

    method ResetAll()
      requires Valid()
      modifies regs
      ensures regs[..] == Reset()
    {
      for r := 0 to 8
        invariant forall k :: 0 <= k < r ==> regs[k] == Cleared
      {
        regs[r] := Cleared;
      }
    }

    method PromoteGuards(op: DataOp)
      requires Valid()
      modifies regs
      ensures regs[..] == PromoteAll(old(regs[..]), op)
    {
      for r := 0 to 8
        invariant forall k :: 0 <= k < 8 ==> regs[k] == if k < r then Promote(old(regs[k]), op) else old(regs[k])
      {
        regs[r] := Promote(regs[r], op);
      }
    }

    method Step(op: DataOp)
      requires Valid()
      modifies regs
      ensures regs[..] == Update(old(regs[..]), op)
    {
      hide Pow2, Promote;
      if op.Call? {
        ResetAll();
        return;
      }
      if op.CmpI? && 0 < op.imm <= MAX_ENTRIES {
        regs[op.r] := regs[op.r].(pending := true, pendingMax := op.imm);
        return;
      }
      PromoteGuards(op);
      ghost var s1 := regs[..];
      assert s1 == PromoteAll(old(regs[..]), op);
      if op.MoveImm? && regs[op.r].guarded && regs[op.r].guardedMax > 0 && op.imm < regs[op.r].guardedMax {
        regs[op.r] := Bound(true, regs[op.r].guardedMax, 1, false, 0, false, 0);
        return;
      }
      match op
      case AndI(_, r, imm) =>
        if imm >= MAX_ENTRIES {
          regs[r] := Cleared;
        } else {
          var max: nat := imm + 1;
          if regs[r].guarded && regs[r].guardedMax != 0 && regs[r].guardedMax < max {
            max := regs[r].guardedMax;
          }
          regs[r] := regs[r].(valid := true, max := max, scale := 1);
        }
      case ShiftLeft(size, r, n) => regs[r] := if size != B && n < 8 then Scaled(regs[r], Pow2(n)) else Cleared;
      case AddSelf(size, r) => regs[r] := if size != B then Scaled(regs[r], 2) else Cleared;
      case MoveImm(_, r, _) => regs[r] := Cleared;
      case Listed(r, _) => regs[r] := Cleared;
      case _ =>
    }
  }

  // ---------------------------------------------------------------- what the state means

  /** The low word is one of the first max multiples of scale. */
  predicate InTable(low: int, scale: nat, max: nat) {
    0 < scale <= 16 && max <= MAX_ENTRIES && low % scale == 0 && 0 <= low / scale < max
  }

  predicate Holds(b: Bound, v: u32) {
    b.valid ==> InTable(Low(v, W), b.scale, b.max)
  }

  predicate Sound(s: Bounds, d: Regs) {
    forall r :: 0 <= r < 8 ==> Holds(s[r], d[r])
  }

  /** No guard speaks of more entries than a table may have. */
  predicate GuardsBounded(s: Bounds) {
    forall r :: 0 <= r < 8 ==> s[r].guardedMax <= MAX_ENTRIES && s[r].pendingMax <= MAX_ENTRIES
  }

  /** A mask the analysis takes for a bound is not a byte operation, and no guard that
      promises fewer entries than the mask lets through is in force. */
  predicate MaskIsHarmless(s: Bounds, size: Size, r: Reg, imm: u32) {
    size != B && !(s[r].guarded && 0 < s[r].guardedMax <= imm)
  }

  /** What can go wrong does not: masks, clamps to a guard, and writes of registers
      the analysis does not know of. */
  predicate Harmless(s: Bounds, op: DataOp) {
    match op
    case AndI(size, r, imm) => imm < MAX_ENTRIES ==> MaskIsHarmless(s, size, r, imm)
    case MoveImm(size, _, _) => Clamps(s, op) ==> size != B
    case Unlisted(r, _) => !s[r].valid
    case _ => true
  }

  function LowWord(v: int): int { v % 0x1_0000 }

  lemma LowWordOfMerge(d: u32, size: Size, v: nat)
    requires size != B
    ensures Low(Merge(d, size, v), W) == LowWord(v)
  {
    if size == W {
      MergeAt(d, v, 0x1_0000);
    } else {
      SameRemainder(v % 0x1_0000_0000, v, -(v / 0x1_0000_0000) * 0x1_0000, 0x1_0000);
    }
  }

  lemma LowWordOfProduct(d: u32, size: Size, f: nat)
    requires size != B
    ensures LowWord(Low(d, size) * f) == LowWord(LowWord(d) * f)
  {
    var q := Low(d, size) / 0x1_0000;
    assert LowWord(Low(d, size)) == LowWord(d) by {
      if size == W {
        Euclid(d % 0x1_0000, 0x1_0000, 0, d % 0x1_0000);
      }
    }
    assert Low(d, size) == 0x1_0000 * q + LowWord(d);
    assert Low(d, size) * f == LowWord(d) * f + 0x1_0000 * (q * f);
    SameRemainder(Low(d, size) * f, LowWord(d) * f, q * f, 0x1_0000);
  }

  lemma ScaledInTable(low: int, scale: nat, max: nat, f: nat)
    requires InTable(low, scale, max) && 0 < f && scale * f <= 16
    ensures LowWord(low * f) == low * f && InTable(LowWord(low * f), scale * f, max)
  {
    var k := low / scale;
    SmallProduct(scale, k);
    SmallProduct(scale * f, k);
    assert low * f == (scale * f) * k;
    Euclid(low * f, scale * f, k, 0);
    Euclid(low * f, 0x1_0000, 0, low * f);
  }

  lemma SmallProduct(p: nat, k: nat)
    requires p <= 16 && k < MAX_ENTRIES
    ensures 0 <= p * k <= 16 * 63
  {
    assert p * k <= 16 * k;
  }

  lemma ScaledHolds(b: Bound, d: u32, size: Size, f: nat)
    requires Holds(b, d) && size != B && f > 0
    ensures Holds(Scaled(b, f), Merge(d, size, Low(d, size) * f))
  {
    hide Low, Merge, InTable, LowWord;
    if b.valid && b.scale > 0 && b.scale * f <= 16 {
      LowWordOfProduct(d, size, f);
      LowWordOfMerge(d, size, Low(d, size) * f);
      assert Low(d, W) == LowWord(d) by { LowIsLowWord(d); }
      ScaledInTable(LowWord(d), b.scale, b.max, f);
    }
  }

  lemma LowIsLowWord(d: u32)
    ensures Low(d, W) == LowWord(d)
  {
  }

  lemma MaskHolds(d: u32, size: Size, imm: nat, b: Bound)
    requires size != B && imm < MAX_ENTRIES
    ensures Holds(b.(valid := true, max := imm + 1, scale := 1), Merge(d, size, And(Low(d, size), imm)))
  {
    hide Low, Merge, And;
    var masked := And(Low(d, size), imm);
    LowWordOfMerge(d, size, masked);
    Euclid(masked, 0x1_0000, 0, masked);
  }

  lemma ClampHolds(d: u32, size: Size, imm: u32, max: nat)
    requires size != B && imm < max <= MAX_ENTRIES
    ensures Holds(Bound(true, max, 1, false, 0, false, 0), Merge(d, size, imm))
  {
    hide Low, Merge;
    LowWordOfMerge(d, size, imm);
    Euclid(imm, 0x1_0000, 0, imm);
  }

  lemma PromoteKeeps(b: Bound, op: DataOp, v: u32)
    requires b.guardedMax <= MAX_ENTRIES && b.pendingMax <= MAX_ENTRIES
    ensures Promote(b, op).guardedMax <= MAX_ENTRIES && Promote(b, op).pendingMax <= MAX_ENTRIES
    ensures Holds(b, v) ==> Holds(Promote(b, op), v)
    ensures !op.BranchNotTaken? ==> Promote(b, op).(pending := b.pending, pendingMax := b.pendingMax) == b
    ensures Promote(b, op).valid == b.valid
  {
    hide Low, InTable;
  }

  /** One harmless instruction, guards and branches among them, keeps the state true
      of the registers. */
  lemma StepIsSound(s: Bounds, d: Regs, op: DataOp)
    requires Sound(s, d) && GuardsBounded(s) && Harmless(s, op)
    ensures Sound(Update(s, op), Effect(d, op)) && GuardsBounded(Update(s, op))
  {
    hide Low, Merge, And, Pow2, InTable, Scaled, Holds, Promote;
    var s1 := PromoteAll(s, op);
    forall r | 0 <= r < 8
      ensures Holds(s1[r], d[r]) && s1[r].guardedMax <= MAX_ENTRIES && s1[r].pendingMax <= MAX_ENTRIES
      ensures s1[r].valid == s[r].valid
      ensures !op.BranchNotTaken? ==> s1[r].(pending := s[r].pending, pendingMax := s[r].pendingMax) == s[r]
    {
      PromoteKeeps(s[r], op, d[r]);
    }
    forall v: u32 ensures Holds(Cleared, v) { ClearedHolds(v); }
    match op
    case CmpI(r, imm) => SameMeaning(s[r], s[r].(pending := true, pendingMax := imm), d[r]);
    case MoveImm(size, r, imm) =>
      if Clamps(s1, op) {
        ClampHolds(d[r], size, imm, s1[r].guardedMax);
      }
    case AndI(size, r, imm) =>
      if imm < MAX_ENTRIES {
        MaskHolds(d[r], size, imm, s1[r]);
      }
    case ShiftLeft(size, r, n) =>
      if size != B && n < 8 {
        ScaledHolds(s1[r], d[r], size, Pow2(n));
        ScaledGuards(s1[r], Pow2(n));
      }
    case AddSelf(size, r) =>
      if size != B {
        ScaledHolds(s1[r], d[r], size, 2);
        ScaledGuards(s1[r], 2);
      }
    case Unlisted(r, value) => UnboundedHolds(s1[r], value);
    case _ =>
  }

  lemma UnboundedHolds(b: Bound, v: u32)
    requires !b.valid
    ensures Holds(b, v)
  {
  }

  lemma ClearedHolds(v: u32)
    ensures Holds(Cleared, v)
  {
  }

  lemma SameMeaning(b: Bound, b1: Bound, v: u32)
    requires Holds(b, v) && b1.valid == b.valid && b1.max == b.max && b1.scale == b.scale
    ensures Holds(b1, v)
  {
  }

  lemma ScaledGuards(b: Bound, f: nat)
    requires b.guardedMax <= MAX_ENTRIES && b.pendingMax <= MAX_ENTRIES
    ensures Scaled(b, f).guardedMax <= MAX_ENTRIES && Scaled(b, f).pendingMax <= MAX_ENTRIES
  {
  }

  function Updates(s: Bounds, ops: seq<DataOp>): Bounds
    decreases |ops|
  {
    if ops == [] then s else Updates(Update(s, ops[0]), ops[1..])
  }

  function Effects(d: Regs, ops: seq<DataOp>): Regs
    decreases |ops|
  {
    if ops == [] then d else Effects(Effect(d, ops[0]), ops[1..])
  }

  /** Each instruction is harmless in the state the ones before it lead to. */
  predicate HarmlessRun(s: Bounds, ops: seq<DataOp>)
    decreases |ops|
  {
    ops == [] || (Harmless(s, ops[0]) && HarmlessRun(Update(s, ops[0]), ops[1..]))
  }

  /** Along any straight-line sequence of harmless instructions, from any registers. */
  lemma {:induction false} RunIsSound(s: Bounds, d: Regs, ops: seq<DataOp>)
    requires Sound(s, d) && GuardsBounded(s) && HarmlessRun(s, ops)
    ensures Sound(Updates(s, ops), Effects(d, ops))
    decreases |ops|
  {
    hide Sound, GuardsBounded, Update, Effect, Harmless;
    if ops != [] {
      StepIsSound(s, d, ops[0]);
      RunIsSound(Update(s, ops[0]), Effect(d, ops[0]), ops[1..]);
    }
  }

  /** ng_m68k_jump_table_apply_index_bound: the number of entries to enumerate. */
  function ApplyBound(s: Bounds, r: Reg, entrySize: nat, entries: nat): nat {
    if !s[r].valid || s[r].scale != entrySize || s[r].max == 0 then entries else s[r].max
  }

  /** From a reset state, a word-indexed load through Dr reads one of the entries the
      applied bound enumerates. */
  lemma IndexedLoadHits(d: Regs, ops: seq<DataOp>, r: Reg, base: int, entrySize: nat, entries: nat)
    requires HarmlessRun(Reset(), ops)
    requires var s := Updates(Reset(), ops); s[r].valid && s[r].scale == entrySize
    ensures var index := Signed(Low(Effects(d, ops)[r], W), 0x8000);
            exists k: nat :: k < ApplyBound(Updates(Reset(), ops), r, entrySize, entries)
                             && base + index == base + entrySize * k
  {
    hide Updates, Effects, Low, HarmlessRun;
    ResetIsSound(d);
    RunIsSound(Reset(), d, ops);
    var b, low := Updates(Reset(), ops)[r], Low(Effects(d, ops)[r], W);
    assert Holds(b, Effects(d, ops)[r]);
    hide InTable;
    EntryOf(low, b.scale, b.max);
    var k := low / b.scale;
    assert base + Signed(low, 0x8000) == base + entrySize * k;
  }

  lemma EntryOf(low: nat, scale: nat, max: nat)
    requires InTable(low, scale, max)
    ensures low == scale * (low / scale) && low <= 16 * 63 && low / scale < max
  {
    SmallProduct(scale, low / scale);
  }

  lemma ResetIsSound(d: Regs)
    ensures Sound(Reset(), d) && GuardsBounded(Reset())
  {
    hide Low;
  }

  // ---------------------------------------------------------------- where it goes wrong

  /** A mask the analysis takes for a bound bounds every register exactly when it is
      harmless: ANDI.B leaves the rest of the low word as it was, and a guard that
      promises fewer entries is believed instead of the mask. */
  lemma MaskIsSoundIff(s: Bounds, size: Size, r: Reg, imm: u32)
    requires imm < MAX_ENTRIES
    ensures var op := AndI(size, r, imm);
            (forall d: Regs :: Holds(Update(s, op)[r], Effect(d, op)[r])) <==> MaskIsHarmless(s, size, r, imm)
  {
    hide Low, Merge, And, Holds;
    var op := AndI(size, r, imm);
    var b := Update(s, op)[r];
    assert b.valid && b.scale == 1;
    if size == B {
      var d: Regs := seq(8, _ => 0x100);
      ByteMaskMisses(b, imm);
      assert !Holds(b, Effect(d, op)[r]);
    } else if s[r].guarded && 0 < s[r].guardedMax <= imm {
      var d: Regs := seq(8, _ => imm);
      MaskPasses(b, size, imm);
      assert !Holds(b, Effect(d, op)[r]);
    } else {
      forall d: Regs ensures Holds(b, Effect(d, op)[r]) {
        MaskHolds(d[r], size, imm, b);
      }
    }
  }

  /** A clamp to a guard bounds every register exactly when it is not a byte move. */
  lemma ClampIsSoundIff(s: Bounds, size: Size, r: Reg, imm: u32)
    requires Clamps(s, MoveImm(size, r, imm)) && s[r].guardedMax <= MAX_ENTRIES
    ensures var op := MoveImm(size, r, imm);
            (forall d: Regs :: Holds(Update(s, op)[r], Effect(d, op)[r])) <==> size != B
  {
    hide Low, Merge, Holds;
    var op := MoveImm(size, r, imm);
    var b := Update(s, op)[r];
    assert b == Bound(true, s[r].guardedMax, 1, false, 0, false, 0);
    if size == B {
      var d: Regs := seq(8, _ => 0x100);
      ByteMoveMisses(b, imm);
      assert !Holds(b, Effect(d, op)[r]);
    } else {
      forall d: Regs ensures Holds(b, Effect(d, op)[r]) {
        ClampHolds(d[r], size, imm, s[r].guardedMax);
      }
    }
  }

  /** A write the analysis does not know of is harmless, whatever is written, exactly
      when the register has no bound. */
  lemma UnlistedIsSoundIff(s: Bounds, r: Reg)
    ensures (forall d: Regs, v: u32 :: Holds(Update(s, Unlisted(r, v))[r], Effect(d, Unlisted(r, v))[r]))
            <==> !s[r].valid
  {
    hide Low, Holds;
    if s[r].valid {
      var d: Regs := seq(8, _ => 0);
      var op := Unlisted(r, 0xFFFF);
      NotInTable(Update(s, op)[r]);
      assert !Holds(Update(s, op)[r], Effect(d, op)[r]);
    } else {
      forall d: Regs, v: u32 ensures Holds(Update(s, Unlisted(r, v))[r], Effect(d, Unlisted(r, v))[r]) {
        UnboundedHolds(Update(s, Unlisted(r, v))[r], v);
      }
    }
  }

  lemma NotInTable(b: Bound)
    requires b.valid
    ensures !Holds(b, 0xFFFF)
  {
    if Holds(b, 0xFFFF) {
      EntryOf(0xFFFF, b.scale, b.max);
    }
  }

  lemma ByteMaskMisses(b: Bound, imm: u32)
    requires imm < MAX_ENTRIES && b.valid && b.scale == 1
    ensures !Holds(b, Merge(0x100, B, And(Low(0x100, B), imm)))
  {
    assert Low(0x100, B) == 0;
    AndZero(imm);
  }

  lemma ByteMoveMisses(b: Bound, imm: u32)
    requires imm < MAX_ENTRIES && b.valid && b.scale == 1
    ensures !Holds(b, Merge(0x100, B, imm))
  {
  }

  lemma MaskPasses(b: Bound, size: Size, imm: u32)
    requires size != B && imm < MAX_ENTRIES && b.valid && b.scale == 1 && b.max <= imm
    ensures !Holds(b, Merge(imm, size, And(Low(imm, size), imm)))
  {
    hide And, Low, Merge;
    AndItself(imm);
    LowOfSmall(imm, size);
    LowWordOfMerge(imm, size, imm);
    Euclid(imm, 0x1_0000, 0, imm);
  }

  lemma {:induction false} AndItself(n: nat)
    ensures And(n, n) == n
  {
    if n > 0 {
      AndItself(n / 2);
    }
  }

  lemma {:induction false} AndZero(b: nat)
    ensures And(0, b) == 0
    decreases b
  {
    if b > 0 {
      AndZero(b / 2);
    }
  }

  /** A compare guard is not sound: CMPI #2,D0; BCS (not taken); ANDI.W #7,D0 is
      bounded to two entries, though D0 is then two or more. */
  lemma GuardIsNotSound(d: Regs)
    requires d[0] == 5
    ensures var ops := [CmpI(0, 2), BranchNotTaken(5), AndI(W, 0, 7)];
            !Holds(Updates(Reset(), ops)[0], Effects(d, ops)[0])
  {
    var ops := [CmpI(0, 2), BranchNotTaken(5), AndI(W, 0, 7)];
    var s1 := Update(Reset(), ops[0]);
    var s2 := Update(s1, ops[1]);
    assert s2[0].guarded && s2[0].guardedMax == 2;
    var s3 := Update(s2, ops[2]);
    assert s3[0].valid && s3[0].max == 2 && s3[0].scale == 1;
    assert ops[1..] == [ops[1], ops[2]] && ops[1..][1..] == [ops[2]] && ops[1..][1..][1..] == [];
    assert And(5, 7) == 5;
    assert Effects(d, ops)[0] == 5;
  }

  /** Nor is a register write the analysis does not know, such as EXG or DBcc. */
  lemma UnknownWriteIsNotSound(d: Regs)
    ensures var ops := [AndI(W, 0, 7), Unlisted(0, 100)];
            !Holds(Updates(Reset(), ops)[0], Effects(d, ops)[0])
  {
    hide And;
    var ops := [AndI(W, 0, 7), Unlisted(0, 100)];
    var s1 := Update(Reset(), ops[0]);
    assert s1[0].valid && s1[0].max == 8 && s1[0].scale == 1;
    var s2 := Update(s1, ops[1]);
    assert ops[1..] == [ops[1]] && ops[1..][1..] == [];
    assert s2[0].valid && s2[0].max == 8;
    assert Effects(d, ops)[0] == 100;
  }
}
