/** ADDX, SUBX, NEGX, ABCD, SBCD and NBCD as emitted (emit_addsubx,
    emit_unary_rmw_generic, emit_abcd_sbcd, emit_nbcd_core), and what a program that
    chains them with predecrement operands computes: arithmetic on numbers of any
    length, one limb at a time. */
module ExtendedArith {
  import opened Machine
  import opened Alu

  // ---------------------------------------------------------------- emitted code

  function XBit(sr: Sr): int { if sr.x then 1 else 0 }

  /** sr & 0xFFE4, then N, C and X, V; Z is only ever cleared. */
  function StickyFlags(sr: Sr, result: int, carry: bool, overflow: bool, half: int): Sr {
    sr.(z := sr.z && result == 0, n := result >= half, c := carry, x := carry, v := overflow)
  }

  function EmittedAddX(sr: Sr, dst: int, src: int, half: int): Result
    requires half > 0
  {
    var full := dst + src + XBit(sr);
    var result := full % (2 * half);
    Result(result, StickyFlags(sr, result, full > 2 * half - 1,
                               !SignXor(dst, src, half) && SignXor(dst, result, half), half))
  }

  function EmittedSubX(sr: Sr, dst: int, src: int, half: int): Result
    requires half > 0
  {
    var srcFull := src + XBit(sr);
    var srcV := srcFull % (2 * half);
    var result := (dst - srcFull) % (2 * half);
    Result(result, StickyFlags(sr, result, srcFull > dst, SignXor(dst, srcV, half) && SignXor(dst, result, half), half))
  }

  function EmittedNegX(sr: Sr, value: int, half: int): Result
    requires half > 0
  {
    var src := (value + XBit(sr)) % (2 * half);
    var result := (0 - value - XBit(sr)) % (2 * half);
    Result(result, StickyFlags(sr, result, value != 0 || sr.x, src >= half && result >= half, half))
  }

  /** Two packed decimal digits as the emitted code reads them; for a byte that is
      not valid BCD the digits are whatever they are. */
  function Decimal(v: int): int {
    v / 16 % 16 * 10 + v % 16
  }

  function Packed(decimal: int): int {
    decimal / 10 * 16 + decimal % 10
  }

  function EmittedAbcd(sr: Sr, dst: int, src: int): Result {
    var sum := Decimal(dst) + Decimal(src) + XBit(sr);
    var result := Packed(sum % 100);
    Result(result, StickyFlags(sr, result, sum > 99, false, 0x80))
  }

  function EmittedSbcd(sr: Sr, dst: int, src: int): Result {
    var srcFull := Decimal(src) + XBit(sr);
    var result := Packed(Wrap32(100 + Decimal(dst) - srcFull) % 100);
    Result(result, StickyFlags(sr, result, srcFull > Decimal(dst), false, 0x80))
  }

  function EmittedNbcd(sr: Sr, value: int): Result {
    var result := Packed(Wrap32(100 - Decimal(value) - XBit(sr)) % 100);
    Result(result, StickyFlags(sr, result, Decimal(value) + XBit(sr) != 0, false, 0x80))
  }

  datatype LimbOp = AddX | SubX | Abcd | Sbcd

  function Emitted(op: LimbOp, sr: Sr, dst: int, src: int, half: int): Result
    requires half > 0
  {
    match op
    case AddX => EmittedAddX(sr, dst, src, half)
    case SubX => EmittedSubX(sr, dst, src, half)
    case Abcd => EmittedAbcd(sr, dst, src)
    case Sbcd => EmittedSbcd(sr, dst, src)
  }

  /** The predecrement form: both registers move down, then one limb is combined. */
  function LimbStep(op: LimbOp, size: Size, m: State, rs: Reg, rd: Reg): State {
    var m1 := m.AddA(rs, -StepBytes(rs, size));
    var m2 := m1.AddA(rd, -StepBytes(rd, size));
    var r := Emitted(op, m.sr, ReadSize(m.mem, m2.a[rd], size), ReadSize(m.mem, m1.a[rs], size), size.Half());
    m2.(mem := WriteSize(m.mem, m2.a[rd], size, r.value), sr := r.sr)
  }

  function Chain(op: LimbOp, size: Size, m: State, rs: Reg, rd: Reg, n: nat): State {
    if n == 0 then m else LimbStep(op, size, Chain(op, size, m, rs, rd, n - 1), rs, rd)
  }

  function Binary(sub: bool): LimbOp { if sub then SubX else AddX }

  // ---------------------------------------------------------------- one limb

  lemma AddXLimb(sr: Sr, dst: int, src: int, half: int)
    requires half > 0 && Operand(dst, half) && Operand(src, half)
    ensures var r := EmittedAddX(sr, dst, src, half);
            && 0 <= r.value < 2 * half
            && r.value + 2 * half * XBit(r.sr) == dst + src + XBit(sr)
            && r.sr.c == r.sr.x && r.sr.z == (sr.z && r.value == 0) && (r.sr.n <==> Signed(r.value, half) < 0)
            && (r.sr.v <==> !Fits(Signed(dst, half) + Signed(src, half) + XBit(sr), half))
  {
    WrapOnce2(dst + src + XBit(sr), 2 * half);
  }

  lemma AddXIsManualAddX(sr: Sr, dst: int, src: int, half: int)
    requires half > 0 && Operand(dst, half) && Operand(src, half)
    ensures EmittedAddX(sr, dst, src, half) == ManualAddX(sr, dst, src, half)
  {
    WrapOnce2(dst + src + XBit(sr), 2 * half);
  }

  /** SUBX is exact but for V, which goes wrong on exactly one kind of operand: with
      X set and a source of the largest positive value, whatever the destination. */
  lemma SubXLimb(sr: Sr, dst: int, src: int, half: int)
    requires half > 0 && Operand(dst, half) && Operand(src, half)
    ensures var r := EmittedSubX(sr, dst, src, half);
            && 0 <= r.value < 2 * half
            && r.value - 2 * half * XBit(r.sr) == dst - src - XBit(sr)
            && r.sr.c == r.sr.x && r.sr.z == (sr.z && r.value == 0) && (r.sr.n <==> Signed(r.value, half) < 0)
            && ((r.sr.v <==> !Fits(Signed(dst, half) - Signed(src, half) - XBit(sr), half))
                <==> !(sr.x && src == half - 1))
  {
    WrapOnce2(dst - src - XBit(sr), 2 * half);
    WrapOnce2(src + XBit(sr), 2 * half);
  }

  /** Emitted SUBX is the manual's, but for V on that one kind of operand. */
  lemma SubXIsManualSubX(sr: Sr, dst: int, src: int, half: int)
    requires half > 0 && Operand(dst, half) && Operand(src, half)
    ensures var r := ManualSubX(sr, dst, src, half);
            EmittedSubX(sr, dst, src, half) == r.(sr := r.sr.(v := r.sr.v != (sr.x && src == half - 1)))
  {
    hide EmittedSubX;
    SubXLimb(sr, dst, src, half);
    OnlyConditionCodes(sr, dst, src, half);
    var r := EmittedSubX(sr, dst, src, half);
    Euclid(dst - src - XBit(sr), 2 * half, -XBit(r.sr), r.value);
  }

  lemma OnlyConditionCodes(sr: Sr, dst: int, src: int, half: int)
    requires half > 0
    ensures var r := EmittedSubX(sr, dst, src, half).sr;
            r == sr.(x := r.x, n := r.n, z := r.z, v := r.v, c := r.c)
  {
  }

  lemma NegXValue(sr: Sr, value: int, half: int)
    requires half > 0 && Operand(value, half)
    ensures var r := EmittedNegX(sr, value, half);
            && 0 <= r.value < 2 * half
            && r.value - 2 * half * XBit(r.sr) == 0 - value - XBit(sr)
            && r.sr.c == r.sr.x && r.sr.z == (sr.z && r.value == 0) && (r.sr.n <==> Signed(r.value, half) < 0)
            && ((r.sr.v <==> !Fits(0 - Signed(value, half) - XBit(sr), half)) <==> !(sr.x && value == half - 1))
  {
    WrapOnce2(0 - value - XBit(sr), 2 * half);
    WrapOnce2(value + XBit(sr), 2 * half);
  }

  /** Emitted NEGX is the manual's subtraction from zero, but for V likewise. */
  lemma NegXIsManualNegX(sr: Sr, value: int, half: int)
    requires half > 0 && Operand(value, half)
    ensures var r := ManualSubX(sr, 0, value, half);
            EmittedNegX(sr, value, half) == r.(sr := r.sr.(v := r.sr.v != (sr.x && value == half - 1)))
  {
    hide EmittedNegX;
    NegXValue(sr, value, half);
    NegXConditionCodes(sr, value, half);
    var r := EmittedNegX(sr, value, half);
    Euclid(0 - value - XBit(sr), 2 * half, -XBit(r.sr), r.value);
  }

  lemma NegXConditionCodes(sr: Sr, value: int, half: int)
    requires half > 0
    ensures var r := EmittedNegX(sr, value, half).sr;
            r == sr.(x := r.x, n := r.n, z := r.z, v := r.v, c := r.c)
  {
  }

  // ---------------------------------------------------------------- numbers in memory

  function Pow(b: int, n: nat): (p: int)
    requires b > 0
    ensures p > 0
  {
    if n == 0 then 1 else Positive(b, Pow(b, n - 1)); b * Pow(b, n - 1)
  }

  lemma Positive(a: int, b: int)
    requires a > 0 && b > 0
    ensures a * b > 0
  {
  }

  /** The n-limb number that ends just below `end`, least significant limb last. */
  function Number(mem: Mem, end: int, stride: int, size: Size, n: nat): int {
    if n == 0 then 0
    else Number(mem, end, stride, size, n - 1)
         + Pow(size.Modulus(), n - 1) * ReadSize(mem, end - n * stride, size)
  }

  lemma {:induction false} NumberBound(mem: Mem, end: int, stride: int, size: Size, n: nat)
    ensures 0 <= Number(mem, end, stride, size, n) < Pow(size.Modulus(), n)
  {
    if n > 0 {
      NumberBound(mem, end, stride, size, n - 1);
      TopLimbBound(Pow(size.Modulus(), n - 1), size.Modulus(), Number(mem, end, stride, size, n - 1),
                   ReadSize(mem, end - n * stride, size));
    }
  }

  lemma TopLimbBound(p: int, b: int, low: int, top: int)
    requires 0 <= low < p && 0 <= top < b
    ensures 0 <= low + p * top < b * p
  {
    assert p * top <= p * (b - 1);
    assert p * top >= 0;
  }

  /** Accesses of k bytes at a and b share no byte of the 24-bit bus. */
  predicate Disjoint(a: int, b: int, k: int) {
    Wrap24(b - a) >= k && Wrap24(a - b) >= k
  }

  lemma ReadDisjoint(mem: Mem, a: int, b: int, size: Size, v: int)
    requires Disjoint(a, b, size.Bytes())
    ensures ReadSize(WriteSize(mem, a, size, v), b, size) == ReadSize(mem, b, size)
  {
    hide WriteSize, Wrap24;
    OtherByte(mem, a, b, size, v, 0);
    if size != B { OtherByte(mem, a, b, size, v, 1); }
    if size == L {
      OtherByte(mem, a, b, size, v, 2);
      OtherByte(mem, a, b, size, v, 3);
      assert b + 2 + 1 == b + 3;
    }
  }

  lemma OtherByte(mem: Mem, a: int, b: int, size: Size, v: int, i: int)
    requires Disjoint(a, b, size.Bytes()) && 0 <= i < size.Bytes()
    ensures Read8(WriteSize(mem, a, size, v), b + i) == Read8(mem, b + i)
  {
    hide WriteSize, Read8;
    StillApart(a, b, size.Bytes(), i);
    WriteFrame(mem, a, size, v, b + i);
  }

  lemma StillApart(a: int, b: int, k: int, i: int)
    requires Disjoint(a, b, k) && 0 <= i < k <= 4
    ensures Wrap24(b + i - a) >= k
  {
    var q := (b - a) / 0x100_0000;
    assert b - a == 0x100_0000 * q + Wrap24(b - a);
    assert a - b == 0x100_0000 * (-q - 1) + (0x100_0000 - Wrap24(b - a));
    assert Wrap24(a - b) == 0x100_0000 - Wrap24(b - a);
  }

  /** Limb i of the number ending at `a` shares no byte with limb j of the one at `b`. */
  predicate LimbsApart(a: int, sa: int, i: int, b: int, sb: int, j: int, k: int) {
    Disjoint(a - i * sa, b - j * sb, k)
  }

  /** No limb of the destination shares a byte with any other limb of either operand. */
  predicate Separate(s: int, ss: int, d: int, ds: int, k: int, n: nat) {
    && (forall i, j :: 1 <= i <= n && 1 <= j <= n ==> LimbsApart(d, ds, i, s, ss, j, k))
    && (forall i, j :: 1 <= i <= n && 1 <= j <= n && i != j ==> LimbsApart(d, ds, i, d, ds, j, k))
  }

  function LimbAt(mem: Mem, end: int, stride: int, size: Size, i: int): (v: u32)
    ensures v < size.Modulus()
  {
    ReadSize(mem, end - i * stride, size)
  }

  lemma OneLimbWritten(mem: Mem, s: int, ss: int, d: int, ds: int, size: Size, n: nat, i: int, v: int)
    requires Separate(s, ss, d, ds, size.Bytes(), n) && 1 <= i <= n
    ensures var mem1 := WriteSize(mem, d - i * ds, size, v);
            && LimbAt(mem1, d, ds, size, i) == Low(v, size)
            && (forall j :: 1 <= j <= n ==> LimbAt(mem1, s, ss, size, j) == LimbAt(mem, s, ss, size, j))
            && (forall j :: 1 <= j <= n && j != i ==> LimbAt(mem1, d, ds, size, j) == LimbAt(mem, d, ds, size, j))
  {
    hide WriteSize, ReadSize, Disjoint, Low;
    ReadOwnWrite(mem, d - i * ds, size, v);
    var mem1 := WriteSize(mem, d - i * ds, size, v);
    forall j | 1 <= j <= n ensures LimbAt(mem1, s, ss, size, j) == LimbAt(mem, s, ss, size, j) {
      assert LimbsApart(d, ds, i, s, ss, j, size.Bytes());
      ReadDisjoint(mem, d - i * ds, s - j * ss, size, v);
    }
    forall j | 1 <= j <= n && j != i ensures LimbAt(mem1, d, ds, size, j) == LimbAt(mem, d, ds, size, j) {
      assert LimbsApart(d, ds, i, d, ds, j, size.Bytes());
      ReadDisjoint(mem, d - i * ds, d - j * ds, size, v);
    }
  }

  lemma {:induction false} SameLimbs(mem: Mem, mem1: Mem, end: int, stride: int, size: Size, n: nat)
    requires forall j :: 1 <= j <= n ==> LimbAt(mem1, end, stride, size, j) == LimbAt(mem, end, stride, size, j)
    ensures Number(mem1, end, stride, size, n) == Number(mem, end, stride, size, n)
  {
    hide ReadSize;
    if n > 0 {
      assert LimbAt(mem1, end, stride, size, n) == LimbAt(mem, end, stride, size, n);
      SameLimbs(mem, mem1, end, stride, size, n - 1);
    }
  }

  // ---------------------------------------------------------------- chains

  /** Where a chain stands after n of at most `all` limbs: registers have moved down,
      the source and the limbs still to do are as they were. */
  predicate Midway(size: Size, m: State, c: State, rs: Reg, rd: Reg, n: nat, all: nat)
    requires n <= all
  {
    var s, d: int := m.a[rs], m.a[rd];
    var ss, ds := StepBytes(rs, size), StepBytes(rd, size);
    && c == m.(a := m.a[rs := Wrap32(s - n * ss)][rd := Wrap32(d - n * ds)], mem := c.mem,
               sr := m.sr.(x := c.sr.x, n := c.sr.n, z := c.sr.z, v := c.sr.v, c := c.sr.c))
    && (forall j :: 1 <= j <= all ==> LimbAt(c.mem, s, ss, size, j) == LimbAt(m.mem, s, ss, size, j))
    && (forall j :: n < j <= all ==> LimbAt(c.mem, d, ds, size, j) == LimbAt(m.mem, d, ds, size, j))
  }

  /** One more limb: the operands are limb n + 1 of both numbers, and the result
      replaces the destination's, leaving the limbs already done alone. */
  lemma ChainStep(op: LimbOp, size: Size, m: State, c: State, rs: Reg, rd: Reg, n: nat, all: nat)
    requires rs != rd && n < all && Midway(size, m, c, rs, rd, n, all)
    requires Separate(m.a[rs], StepBytes(rs, size), m.a[rd], StepBytes(rd, size), size.Bytes(), all)
    ensures var c1 := LimbStep(op, size, c, rs, rd);
            var s, d: int := m.a[rs], m.a[rd];
            var ss, ds := StepBytes(rs, size), StepBytes(rd, size);
            var r := Emitted(op, c.sr, LimbAt(m.mem, d, ds, size, n + 1), LimbAt(m.mem, s, ss, size, n + 1),
                             size.Half());
            && Midway(size, m, c1, rs, rd, n + 1, all)
            && c1.sr == r.sr && LimbAt(c1.mem, d, ds, size, n + 1) == Low(r.value, size)
            && Number(c1.mem, d, ds, size, n) == Number(c.mem, d, ds, size, n)
            && (forall j :: 1 <= j <= n ==> LimbAt(c1.mem, d, ds, size, j) == LimbAt(c.mem, d, ds, size, j))
  {
    hide ReadSize, WriteSize, Emitted, Low, Separate, Number, Wrap32, LimbAt;
    var s, d: int := m.a[rs], m.a[rd];
    var ss, ds := StepBytes(rs, size), StepBytes(rd, size);
    var c1 := LimbStep(op, size, c, rs, rd);
    StepDown(s, ss, n);
    StepDown(d, ds, n);
    var r := Emitted(op, c.sr, LimbAt(m.mem, d, ds, size, n + 1), LimbAt(m.mem, s, ss, size, n + 1), size.Half());
    LimbAtWrapped(c.mem, s, ss, size, n + 1, 0);
    LimbAtWrapped(c.mem, d, ds, size, n + 1, r.value);
    OneLimbWritten(c.mem, s, ss, d, ds, size, all, n + 1, r.value);
    assert c1.mem == WriteSize(c.mem, d - (n + 1) * ds, size, r.value);
    SameLimbs(c.mem, c1.mem, d, ds, size, n);
    MovedRegisters(m.a, rs, rd, Wrap32(s - n * ss), Wrap32(d - n * ds), Wrap32(s - (n + 1) * ss),
                   Wrap32(d - (n + 1) * ds));
    StickyKeeps(op, c.sr, LimbAt(m.mem, d, ds, size, n + 1), LimbAt(m.mem, s, ss, size, n + 1), size.Half());
  }

  lemma StepDown(a: int, step: int, n: int)
    ensures Wrap32(Wrap32(a - n * step) + -step) == Wrap32(a - (n + 1) * step)
  {
    WrapTwice(a - n * step, -step);
    assert a - n * step + -step == a - (n + 1) * step;
  }

  lemma LimbAtWrapped(mem: Mem, end: int, stride: int, size: Size, i: int, v: int)
    ensures ReadSize(mem, Wrap32(end - i * stride), size) == LimbAt(mem, end, stride, size, i)
    ensures WriteSize(mem, Wrap32(end - i * stride), size, v) == WriteSize(mem, end - i * stride, size, v)
  {
    AccessWrapped(mem, end - i * stride, size, v);
  }

  lemma MovedRegisters(a: Regs, rs: Reg, rd: Reg, s0: u32, d0: u32, s1: u32, d1: u32)
    requires rs != rd
    ensures a[rs := s0][rd := d0][rs := s1][rd := d1] == a[rs := s1][rd := d1]
  {
  }

  predicate OnlyFlags(r: Sr, sr: Sr) { r == sr.(x := r.x, n := r.n, z := r.z, v := r.v, c := r.c) }

  lemma StickyKeeps(op: LimbOp, sr: Sr, dst: int, src: int, half: int)
    requires half > 0
    ensures OnlyFlags(Emitted(op, sr, dst, src, half).sr, sr)
  {
    hide EmittedAddX, EmittedSubX, EmittedAbcd, EmittedSbcd, OnlyFlags;
    StickyBinary(sr, dst, src, half);
    StickyDecimal(sr, dst, src);
  }

  lemma StickyBinary(sr: Sr, dst: int, src: int, half: int)
    requires half > 0
    ensures OnlyFlags(EmittedAddX(sr, dst, src, half).sr, sr) && OnlyFlags(EmittedSubX(sr, dst, src, half).sr, sr)
  {
    hide SignXor, XBit;
  }

  lemma StickyDecimal(sr: Sr, dst: int, src: int)
    ensures OnlyFlags(EmittedAbcd(sr, dst, src).sr, sr) && OnlyFlags(EmittedSbcd(sr, dst, src).sr, sr)
  {
    hide Decimal, Packed, Wrap32, XBit;
  }

  // ---------------------------------------------------------------- long addition and subtraction

  /** The weight of the sign bit of an n-limb number. */
  function LongHalf(size: Size, n: nat): (h: int)
    requires n > 0
    ensures h > 0
  {
    Positive(Pow(size.Modulus(), n - 1), size.Half());
    Pow(size.Modulus(), n - 1) * size.Half()
  }

  lemma LimbOrder(p: int, low: int, top: int, h: int)
    requires p > 0 && 0 <= low < p
    ensures low + p * top >= p * h <==> top >= h
  {
    var d := top - h;
    assert p * d == p * top - p * h;
    assert d >= 0 ==> p * d >= 0;
    assert d <= -1 ==> p * d <= -p;
  }

  lemma LongLimb(p: int, b: int, low: int, top: int, half: int)
    requires p > 0 && b == 2 * half && half > 0 && 0 <= low < p && 0 <= top < b
    ensures low + p * top == 0 <==> low == 0 && top == 0
    ensures low + p * top >= p * half <==> top >= half
    ensures p * half > 0 && Signed(low + p * top, p * half) == low + p * Signed(top, half)
  {
    LimbOrder(p, low, top, 1);
    LimbOrder(p, low, top, half);
    Distribute(p, top, -2 * half, 0);
    assert p * (-2 * half) == -2 * (p * half);
    Positive(p, half);
  }

  lemma LongFits(p: int, low: int, top: int, half: int)
    requires p > 0 && half > 0 && 0 <= low < p
    ensures Fits(low + p * top, p * half) <==> Fits(top, half)
  {
    LimbOrder(p, low, top, half);
    LimbOrder(p, low, top, -half);
    assert p * -half == -(p * half);
  }

  lemma CarryOut(p: int, b: int, dl: int, dt: int, sl: int, st: int, x0: int, rl: int, rt: int, c: int, c1: int)
    requires rl + p * c == dl + sl + x0 && rt + b * c1 == dt + st + c
    ensures (rl + p * rt) + (b * p) * c1 == (dl + p * dt) + (sl + p * st) + x0
  {
    assert p * (rt + b * c1) == p * (dt + st + c);
    assert p * (b * c1) == (b * p) * c1;
  }

  lemma BorrowOut(p: int, b: int, dl: int, dt: int, sl: int, st: int, x0: int, rl: int, rt: int, c: int, c1: int)
    requires rl - p * c == dl - sl - x0 && rt - b * c1 == dt - st - c
    ensures (rl + p * rt) - (b * p) * c1 == (dl + p * dt) - (sl + p * st) - x0
  {
    assert p * (rt - b * c1) == p * (dt - st - c);
    assert p * (b * c1) == (b * p) * c1;
  }

  /** The meaning of a finished chain: an exact sum or difference of the two numbers
      and the incoming X, Z for the whole number, C and X the final carry. */
  predicate LongResult(sub: bool, size: Size, m: State, c: State, rs: Reg, rd: Reg, n: nat) {
    var ss, ds := StepBytes(rs, size), StepBytes(rd, size);
    var source := Number(m.mem, m.a[rs], ss, size, n);
    var before := Number(m.mem, m.a[rd], ds, size, n);
    var after := Number(c.mem, m.a[rd], ds, size, n);
    var span := Pow(size.Modulus(), n);
    && 0 <= after < span
    && (if sub then after - span * XBit(c.sr) == before - source - XBit(m.sr)
        else after + span * XBit(c.sr) == before + source + XBit(m.sr))
    && c.sr.z == (m.sr.z && after == 0)
    && (n > 0 ==> c.sr.c == c.sr.x && (c.sr.n <==> Signed(after, LongHalf(size, n)) < 0))
  }

  /** Signed overflow of the whole sum or difference. */
  predicate LongOverflow(sub: bool, size: Size, m: State, rs: Reg, rd: Reg, n: nat)
    requires n > 0
  {
    var half := LongHalf(size, n);
    var source := Signed(Number(m.mem, m.a[rs], StepBytes(rs, size), size, n), half);
    var dest := Signed(Number(m.mem, m.a[rd], StepBytes(rd, size), size, n), half);
    !Fits(if sub then dest - source - XBit(m.sr) else dest + source + XBit(m.sr), half)
  }

  /** SUBX's V is wrong when the limbs below borrow and the top source limb is the
      largest positive value. */
  predicate OverflowLost(size: Size, m: State, rs: Reg, rd: Reg, n: nat)
    requires n > 0
  {
    var ss, ds := StepBytes(rs, size), StepBytes(rd, size);
    && Number(m.mem, m.a[rs], ss, size, n - 1) + XBit(m.sr) > Number(m.mem, m.a[rd], ds, size, n - 1)
    && LimbAt(m.mem, m.a[rs], ss, size, n) == size.Half() - 1
  }

  lemma {:induction false} ChainTo(sub: bool, size: Size, m: State, rs: Reg, rd: Reg, n: nat, all: nat)
    requires rs != rd && n <= all
    requires Separate(m.a[rs], StepBytes(rs, size), m.a[rd], StepBytes(rd, size), size.Bytes(), all)
    ensures var c := Chain(Binary(sub), size, m, rs, rd, n);
            && Midway(size, m, c, rs, rd, n, all)
            && LongResult(sub, size, m, c, rs, rd, n)
            && (n > 0 && !sub ==> (c.sr.v <==> LongOverflow(sub, size, m, rs, rd, n)))
            && (n > 0 && sub ==> ((c.sr.v <==> LongOverflow(sub, size, m, rs, rd, n))
                                  <==> !OverflowLost(size, m, rs, rd, n)))
    decreases n
  {
    hide LimbStep, Emitted, Separate, ReadSize, Fits, Signed, LongResult, LongOverflow, OverflowLost, Midway;
    if n == 0 {
      ChainStart(size, m, rs, rd, all);
      NothingChained(sub, size, m, rs, rd);
    } else {
      var c := Chain(Binary(sub), size, m, rs, rd, n - 1);
      ChainTo(sub, size, m, rs, rd, n - 1, all);
      ChainStep(Binary(sub), size, m, c, rs, rd, n - 1, all);
      var c1 := LimbStep(Binary(sub), size, c, rs, rd);
      assert Chain(Binary(sub), size, m, rs, rd, n) == c1;
      var ss, ds := StepBytes(rs, size), StepBytes(rd, size);
      var dt, st := LimbAt(m.mem, m.a[rd], ds, size, n), LimbAt(m.mem, m.a[rs], ss, size, n);
      var rt := LimbAt(c1.mem, m.a[rd], ds, size, n);
      LimbIsResult(sub, c.sr, dt, st, size);
      TopLimb(sub, size, m, c, c1, rs, rd, n, dt, st, rt);
      TopLimbOverflow(sub, size, m, c, c1, rs, rd, n, dt, st, rt);
    }
  }

  lemma NothingChained(sub: bool, size: Size, m: State, rs: Reg, rd: Reg)
    ensures LongResult(sub, size, m, m, rs, rd, 0)
  {
  }

  lemma ChainStart(size: Size, m: State, rs: Reg, rd: Reg, all: nat)
    ensures Midway(size, m, m, rs, rd, 0, all)
  {
    hide LimbAt;
    assert m.a[rs := Wrap32(m.a[rs])][rd := Wrap32(m.a[rd])] == m.a;
  }

  lemma LimbIsResult(sub: bool, sr: Sr, dt: u32, st: u32, size: Size)
    requires dt < size.Modulus() && st < size.Modulus()
    ensures var r := Emitted(Binary(sub), sr, dt, st, size.Half());
            && 0 <= r.value < size.Modulus() && Low(r.value, size) == r.value
            && (if sub then r.value - size.Modulus() * XBit(r.sr) == dt - st - XBit(sr)
                else r.value + size.Modulus() * XBit(r.sr) == dt + st + XBit(sr))
            && r.sr.c == r.sr.x && r.sr.z == (sr.z && r.value == 0)
            && (r.sr.n <==> Signed(r.value, size.Half()) < 0)
            && (!sub ==> (r.sr.v <==> !Fits(Signed(dt, size.Half()) + Signed(st, size.Half()) + XBit(sr), size.Half())))
            && (sub ==> ((r.sr.v <==> !Fits(Signed(dt, size.Half()) - Signed(st, size.Half()) - XBit(sr), size.Half()))
                         <==> !(sr.x && st == size.Half() - 1)))
  {
    hide EmittedAddX, EmittedSubX, Low, Signed, Fits;
    AddXLimb(sr, dt, st, size.Half());
    SubXLimb(sr, dt, st, size.Half());
    LowOfSmall(Emitted(Binary(sub), sr, dt, st, size.Half()).value, size);
  }

  /** Limb n of both numbers and of the result, and the lower limbs of the result. */
  predicate TopLimbs(sub: bool, size: Size, m: State, c: State, c1: State, rs: Reg, rd: Reg, n: nat, dt: int, st: int,
                     rt: int)
    requires n > 0
  {
    var ss, ds := StepBytes(rs, size), StepBytes(rd, size);
    && dt == LimbAt(m.mem, m.a[rd], ds, size, n) && st == LimbAt(m.mem, m.a[rs], ss, size, n)
    && rt == LimbAt(c1.mem, m.a[rd], ds, size, n)
    && Number(c1.mem, m.a[rd], ds, size, n - 1) == Number(c.mem, m.a[rd], ds, size, n - 1)
    && if sub then rt - size.Modulus() * XBit(c1.sr) == dt - st - XBit(c.sr)
       else rt + size.Modulus() * XBit(c1.sr) == dt + st + XBit(c.sr)
  }

  /** The induction step of ChainTo in numbers alone: the value and the flags but V. */
  lemma TopLimb(sub: bool, size: Size, m: State, c: State, c1: State, rs: Reg, rd: Reg, n: nat, dt: int, st: int,
                rt: int)
    requires n > 0 && LongResult(sub, size, m, c, rs, rd, n - 1)
    requires TopLimbs(sub, size, m, c, c1, rs, rd, n, dt, st, rt)
    requires c1.sr.c == c1.sr.x && c1.sr.z == (c.sr.z && rt == 0) && (c1.sr.n <==> Signed(rt, size.Half()) < 0)
    ensures LongResult(sub, size, m, c1, rs, rd, n)
  {
    hide Signed, Fits, Number, Pow, LongHalf, LimbAt, Size.Modulus, Size.Half, StepBytes;
    var ss, ds := StepBytes(rs, size), StepBytes(rd, size);
    NumberTop(m.mem, m.a[rd], ds, size, n);
    NumberTop(m.mem, m.a[rs], ss, size, n);
    NumberTop(c1.mem, m.a[rd], ds, size, n);
    var p, x0 := Pow(size.Modulus(), n - 1), XBit(m.sr);
    var dl, sl := Number(m.mem, m.a[rd], ds, size, n - 1), Number(m.mem, m.a[rs], ss, size, n - 1);
    var rl := Number(c.mem, m.a[rd], ds, size, n - 1);
    NumberBound(m.mem, m.a[rd], ds, size, n - 1);
    NumberBound(m.mem, m.a[rs], ss, size, n - 1);
    NumberBound(c1.mem, m.a[rd], ds, size, n);
    if sub {
      TopDifference(p, size.Modulus(), size.Half(), dl, dt, sl, st, x0, rl, rt, XBit(c.sr), XBit(c1.sr));
    } else {
      TopSum(p, size.Modulus(), size.Half(), dl, dt, sl, st, x0, rl, rt, XBit(c.sr), XBit(c1.sr));
    }
  }

  /** V of the top limb is V of the whole number. */
  lemma TopLimbOverflow(sub: bool, size: Size, m: State, c: State, c1: State, rs: Reg, rd: Reg, n: nat, dt: int,
                        st: int, rt: int)
    requires n > 0 && LongResult(sub, size, m, c, rs, rd, n - 1)
    requires TopLimbs(sub, size, m, c, c1, rs, rd, n, dt, st, rt)
    requires !sub ==> (c1.sr.v <==> !Fits(Signed(dt, size.Half()) + Signed(st, size.Half()) + XBit(c.sr), size.Half()))
    requires sub ==> ((c1.sr.v <==> !Fits(Signed(dt, size.Half()) - Signed(st, size.Half()) - XBit(c.sr), size.Half()))
                      <==> !(c.sr.x && st == size.Half() - 1))
    ensures !sub ==> (c1.sr.v <==> LongOverflow(sub, size, m, rs, rd, n))
    ensures sub ==> ((c1.sr.v <==> LongOverflow(sub, size, m, rs, rd, n)) <==> !OverflowLost(size, m, rs, rd, n))
  {
    hide Signed, Fits, Number, Pow, LongHalf, LimbAt, Size.Modulus, Size.Half, StepBytes;
    var ss, ds := StepBytes(rs, size), StepBytes(rd, size);
    NumberTop(m.mem, m.a[rd], ds, size, n);
    NumberTop(m.mem, m.a[rs], ss, size, n);
    var p, x0 := Pow(size.Modulus(), n - 1), XBit(m.sr);
    var dl, sl := Number(m.mem, m.a[rd], ds, size, n - 1), Number(m.mem, m.a[rs], ss, size, n - 1);
    var rl := Number(c.mem, m.a[rd], ds, size, n - 1);
    NumberBound(m.mem, m.a[rd], ds, size, n - 1);
    NumberBound(m.mem, m.a[rs], ss, size, n - 1);
    if sub {
      TopDifference(p, size.Modulus(), size.Half(), dl, dt, sl, st, x0, rl, rt, XBit(c.sr), XBit(c1.sr));
    } else {
      TopSum(p, size.Modulus(), size.Half(), dl, dt, sl, st, x0, rl, rt, XBit(c.sr), XBit(c1.sr));
    }
  }

  lemma NumberTop(mem: Mem, end: int, stride: int, size: Size, n: nat)
    requires n > 0
    ensures Number(mem, end, stride, size, n)
            == Number(mem, end, stride, size, n - 1) + Pow(size.Modulus(), n - 1) * LimbAt(mem, end, stride, size, n)
    ensures Pow(size.Modulus(), n) == size.Modulus() * Pow(size.Modulus(), n - 1)
    ensures LongHalf(size, n) == Pow(size.Modulus(), n - 1) * size.Half()
    ensures size.Modulus() == 2 * size.Half()
  {
    hide ReadSize;
  }

  lemma TopSum(p: int, b: int, half: int, dl: int, dt: int, sl: int, st: int, x0: int, rl: int, rt: int, k: int,
               k1: int)
    requires p > 0 && half > 0 && b == 2 * half
    requires 0 <= dl < p && 0 <= sl < p && 0 <= rl < p && 0 <= dt < b && 0 <= st < b && 0 <= rt < b
    requires rl + p * k == dl + sl + x0 && rt + b * k1 == dt + st + k
    ensures (rl + p * rt) + (b * p) * k1 == (dl + p * dt) + (sl + p * st) + x0
    ensures rl + p * rt == 0 <==> rl == 0 && rt == 0
    ensures Signed(rl + p * rt, p * half) < 0 <==> Signed(rt, half) < 0
    ensures Fits(Signed(dl + p * dt, p * half) + Signed(sl + p * st, p * half) + x0, p * half)
            <==> Fits(Signed(dt, half) + Signed(st, half) + k, half)
  {
    hide Fits, Signed;
    TopParts(p, b, half, dl, dt, sl, st, rl, rt);
    var sd, ss := Signed(dt, half), Signed(st, half);
    CarryOut(p, b, dl, dt, sl, st, x0, rl, rt, k, k1);
    LongFits(p, rl, sd + ss + k, half);
    Distribute(p, sd, ss, k);
  }

  lemma TopDifference(p: int, b: int, half: int, dl: int, dt: int, sl: int, st: int, x0: int, rl: int, rt: int,
                      k: int, k1: int)
    requires p > 0 && half > 0 && b == 2 * half && (k == 0 || k == 1)
    requires 0 <= dl < p && 0 <= sl < p && 0 <= rl < p && 0 <= dt < b && 0 <= st < b && 0 <= rt < b
    requires rl - p * k == dl - sl - x0 && rt - b * k1 == dt - st - k
    ensures (rl + p * rt) - (b * p) * k1 == (dl + p * dt) - (sl + p * st) - x0
    ensures rl + p * rt == 0 <==> rl == 0 && rt == 0
    ensures Signed(rl + p * rt, p * half) < 0 <==> Signed(rt, half) < 0
    ensures Fits(Signed(dl + p * dt, p * half) - Signed(sl + p * st, p * half) - x0, p * half)
            <==> Fits(Signed(dt, half) - Signed(st, half) - k, half)
    ensures k == 1 <==> sl + x0 > dl
  {
    hide Fits, Signed;
    TopParts(p, b, half, dl, dt, sl, st, rl, rt);
    var sd, ss := Signed(dt, half), Signed(st, half);
    BorrowOut(p, b, dl, dt, sl, st, x0, rl, rt, k, k1);
    LongFits(p, rl, sd - ss - k, half);
    Distribute(p, sd, -ss, -k);
    Distribute(p, sd, ss, k);
    BorrowIsComparison(p, dl, sl + x0, rl, k);
  }

  lemma TopParts(p: int, b: int, half: int, dl: int, dt: int, sl: int, st: int, rl: int, rt: int)
    requires p > 0 && half > 0 && b == 2 * half
    requires 0 <= dl < p && 0 <= sl < p && 0 <= rl < p && 0 <= dt < b && 0 <= st < b && 0 <= rt < b
    ensures rl + p * rt == 0 <==> rl == 0 && rt == 0
    ensures Signed(rl + p * rt, p * half) < 0 <==> Signed(rt, half) < 0
    ensures Signed(dl + p * dt, p * half) == dl + p * Signed(dt, half)
    ensures Signed(sl + p * st, p * half) == sl + p * Signed(st, half)
  {
    hide Signed;
    LongLimb(p, b, rl, rt, half);
    LongLimb(p, b, dl, dt, half);
    LongLimb(p, b, sl, st, half);
    TopLimbBound(p, b, rl, rt);
    assert b * p == 2 * (p * half);
    NegativeWhen(rl + p * rt, p * half);
    NegativeWhen(rt, half);
  }

  lemma NegativeWhen(v: int, half: int)
    requires half > 0 && 0 <= v < 2 * half
    ensures Signed(v, half) < 0 <==> v >= half
  {
  }

  lemma Distribute(p: int, x: int, y: int, z: int)
    ensures p * (x + y + z) == p * x + p * y + p * z
    ensures p * -y == -(p * y) && p * -z == -(p * z)
  {
  }

  lemma BorrowIsComparison(p: int, d: int, s: int, r: int, k: int)
    requires p > 0 && 0 <= r < p && (k == 0 || k == 1) && r - p * k == d - s
    ensures k == 1 <==> s > d
  {
  }

  /** Chained ADDX adds numbers of any length: from X = 0 and Z = 1 the destination
      becomes the sum modulo Modulus^n, C and X the carry out, Z and N and V those of
      the whole number; the source and every other register are as they were. */
  lemma AddXChain(size: Size, m: State, rs: Reg, rd: Reg, n: nat)
    requires rs != rd && n > 0 && !m.sr.x && m.sr.z
    requires Separate(m.a[rs], StepBytes(rs, size), m.a[rd], StepBytes(rd, size), size.Bytes(), n)
    ensures var c := Chain(AddX, size, m, rs, rd, n);
            var ss, ds := StepBytes(rs, size), StepBytes(rd, size);
            var total := Number(m.mem, m.a[rd], ds, size, n) + Number(m.mem, m.a[rs], ss, size, n);
            var sum := Number(c.mem, m.a[rd], ds, size, n);
            && sum == total % Pow(size.Modulus(), n)
            && (c.sr.c <==> total >= Pow(size.Modulus(), n)) && c.sr.x == c.sr.c
            && (c.sr.z <==> sum == 0) && (c.sr.n <==> Signed(sum, LongHalf(size, n)) < 0)
            && (c.sr.v <==> LongOverflow(false, size, m, rs, rd, n))
            && Number(c.mem, m.a[rs], ss, size, n) == Number(m.mem, m.a[rs], ss, size, n)
  {
    hide Separate, Chain, LimbAt, Signed, LongOverflow, ReadSize;
    ChainTo(false, size, m, rs, rd, n, n);
    var c := Chain(AddX, size, m, rs, rd, n);
    SameLimbs(m.mem, c.mem, m.a[rs], StepBytes(rs, size), size, n);
    NumberBound(m.mem, m.a[rd], StepBytes(rd, size), size, n);
    NumberBound(m.mem, m.a[rs], StepBytes(rs, size), size, n);
    WrapOnce(Number(m.mem, m.a[rd], StepBytes(rd, size), size, n)
             + Number(m.mem, m.a[rs], StepBytes(rs, size), size, n), Pow(size.Modulus(), n));
  }

  /** Chained SUBX subtracts likewise, with C and X the borrow out. */
  lemma SubXChain(size: Size, m: State, rs: Reg, rd: Reg, n: nat)
    requires rs != rd && n > 0 && !m.sr.x && m.sr.z
    requires Separate(m.a[rs], StepBytes(rs, size), m.a[rd], StepBytes(rd, size), size.Bytes(), n)
    ensures var c := Chain(SubX, size, m, rs, rd, n);
            var ss, ds := StepBytes(rs, size), StepBytes(rd, size);
            var difference := Number(m.mem, m.a[rd], ds, size, n) - Number(m.mem, m.a[rs], ss, size, n);
            var result := Number(c.mem, m.a[rd], ds, size, n);
            && result == difference % Pow(size.Modulus(), n)
            && (c.sr.c <==> difference < 0) && c.sr.x == c.sr.c
            && (c.sr.z <==> result == 0) && (c.sr.n <==> Signed(result, LongHalf(size, n)) < 0)
            && ((c.sr.v <==> LongOverflow(true, size, m, rs, rd, n)) <==> !OverflowLost(size, m, rs, rd, n))
            && Number(c.mem, m.a[rs], ss, size, n) == Number(m.mem, m.a[rs], ss, size, n)
  {
    hide Separate, Chain, LimbAt, Signed, LongOverflow, OverflowLost, ReadSize;
    ChainTo(true, size, m, rs, rd, n, n);
    var c := Chain(SubX, size, m, rs, rd, n);
    SameLimbs(m.mem, c.mem, m.a[rs], StepBytes(rs, size), size, n);
    NumberBound(m.mem, m.a[rd], StepBytes(rd, size), size, n);
    NumberBound(m.mem, m.a[rs], StepBytes(rs, size), size, n);
    WrapOnce(Number(m.mem, m.a[rd], StepBytes(rd, size), size, n)
             - Number(m.mem, m.a[rs], StepBytes(rs, size), size, n), Pow(size.Modulus(), n));
  }

  // ---------------------------------------------------------------- packed decimal

  predicate ValidBcd(v: int) {
    0 <= v < 0x100 && v / 16 < 10 && v % 16 < 10
  }

  lemma PackedIsValid(d: int)
    requires 0 <= d < 100
    ensures ValidBcd(Packed(d)) && Decimal(Packed(d)) == d && (Packed(d) == 0 <==> d == 0)
  {
  }

  lemma DecimalOfValid(v: int)
    requires ValidBcd(v)
    ensures 0 <= Decimal(v) < 100 && Packed(Decimal(v)) == v
  {
  }

  lemma AbcdDigitPair(sr: Sr, dst: int, src: int)
    requires ValidBcd(dst) && ValidBcd(src)
    ensures var r := EmittedAbcd(sr, dst, src);
            && ValidBcd(r.value)
            && Decimal(r.value) + 100 * XBit(r.sr) == Decimal(dst) + Decimal(src) + XBit(sr)
            && r.sr.c == r.sr.x && r.sr.z == (sr.z && Decimal(r.value) == 0)
  {
    hide Decimal, Packed, ValidBcd;
    DecimalOfValid(dst);
    DecimalOfValid(src);
    PackedIsValid((Decimal(dst) + Decimal(src) + XBit(sr)) % 100);
  }

  lemma SbcdDigitPair(sr: Sr, dst: int, src: int)
    requires ValidBcd(dst) && ValidBcd(src)
    ensures var r := EmittedSbcd(sr, dst, src);
            && ValidBcd(r.value)
            && Decimal(r.value) - 100 * XBit(r.sr) == Decimal(dst) - Decimal(src) - XBit(sr)
            && r.sr.c == r.sr.x && r.sr.z == (sr.z && Decimal(r.value) == 0)
  {
    hide Decimal, Packed, ValidBcd;
    DecimalOfValid(dst);
    DecimalOfValid(src);
    PackedIsValid((100 + Decimal(dst) - (Decimal(src) + XBit(sr))) % 100);
  }

  /** NBCD is SBCD from zero. */
  lemma NbcdDigitPair(sr: Sr, value: int)
    requires ValidBcd(value)
    ensures EmittedNbcd(sr, value) == EmittedSbcd(sr, 0, value)
  {
    hide Packed, StickyFlags;
    assert Decimal(0) == 0;
    DecimalOfValid(value);
  }

  /** The decimal number whose n bytes end just below `end`. */
  function DecimalNumber(mem: Mem, end: int, stride: int, n: nat): int {
    if n == 0 then 0
    else DecimalNumber(mem, end, stride, n - 1) + Pow(100, n - 1) * Decimal(LimbAt(mem, end, stride, B, n))
  }

  predicate AllValid(mem: Mem, end: int, stride: int, n: nat) {
    forall i :: 1 <= i <= n ==> ValidBcd(LimbAt(mem, end, stride, B, i))
  }

  lemma {:induction false} SameDecimal(mem: Mem, mem1: Mem, end: int, stride: int, n: nat)
    requires forall j :: 1 <= j <= n ==> LimbAt(mem1, end, stride, B, j) == LimbAt(mem, end, stride, B, j)
    ensures DecimalNumber(mem1, end, stride, n) == DecimalNumber(mem, end, stride, n)
  {
    hide LimbAt, Decimal;
    if n > 0 {
      assert LimbAt(mem1, end, stride, B, n) == LimbAt(mem, end, stride, B, n);
      SameDecimal(mem, mem1, end, stride, n - 1);
    }
  }

  /** What a chain of n ABCD or SBCD has done: valid digits, exact in 2n digits with
      the incoming X, the outgoing X as carry or borrow, Z for the whole number. */
  predicate DecimalResult(sub: bool, m: State, c: State, rs: Reg, rd: Reg, n: nat) {
    var ss, ds := StepBytes(rs, B), StepBytes(rd, B);
    var source := DecimalNumber(m.mem, m.a[rs], ss, n);
    var before := DecimalNumber(m.mem, m.a[rd], ds, n);
    var after := DecimalNumber(c.mem, m.a[rd], ds, n);
    && AllValid(c.mem, m.a[rd], ds, n)
    && 0 <= after < Pow(100, n)
    && (if sub then after - Pow(100, n) * XBit(c.sr) == before - source - XBit(m.sr)
        else after + Pow(100, n) * XBit(c.sr) == before + source + XBit(m.sr))
    && c.sr.z == (m.sr.z && after == 0)
    && (n > 0 ==> c.sr.c == c.sr.x)
  }

  function DecimalOp(sub: bool): LimbOp { if sub then Sbcd else Abcd }

  lemma {:induction false} DecimalChain(sub: bool, m: State, rs: Reg, rd: Reg, n: nat, all: nat)
    requires rs != rd && n <= all
    requires Separate(m.a[rs], StepBytes(rs, B), m.a[rd], StepBytes(rd, B), 1, all)
    requires AllValid(m.mem, m.a[rs], StepBytes(rs, B), all) && AllValid(m.mem, m.a[rd], StepBytes(rd, B), all)
    ensures var c := Chain(DecimalOp(sub), B, m, rs, rd, n);
            Midway(B, m, c, rs, rd, n, all) && DecimalResult(sub, m, c, rs, rd, n)
    decreases n
  {
    hide LimbStep, Separate, LimbAt, Decimal, ValidBcd, Emitted, Pow, StepBytes;
    if n == 0 {
      ChainStart(B, m, rs, rd, all);
      PowZero(100);
    } else {
      var op := DecimalOp(sub);
      var c := Chain(op, B, m, rs, rd, n - 1);
      DecimalChain(sub, m, rs, rd, n - 1, all);
      ChainStep(op, B, m, c, rs, rd, n - 1, all);
      DecimalStep(sub, m, c, LimbStep(op, B, c, rs, rd), rs, rd, n, all);
    }
  }

  lemma PowZero(b: int)
    requires b > 0
    ensures Pow(b, 0) == 1
  {
  }

  lemma DecimalStep(sub: bool, m: State, c: State, c1: State, rs: Reg, rd: Reg, n: nat, all: nat)
    requires 1 <= n <= all && DecimalResult(sub, m, c, rs, rd, n - 1)
    requires AllValid(m.mem, m.a[rs], StepBytes(rs, B), all) && AllValid(m.mem, m.a[rd], StepBytes(rd, B), all)
    requires var ss, ds := StepBytes(rs, B), StepBytes(rd, B);
             var r := Emitted(DecimalOp(sub), c.sr, LimbAt(m.mem, m.a[rd], ds, B, n),
                              LimbAt(m.mem, m.a[rs], ss, B, n), 0x80);
             && c1.sr == r.sr && LimbAt(c1.mem, m.a[rd], ds, B, n) == Low(r.value, B)
             && (forall j :: 1 <= j <= n - 1 ==> LimbAt(c1.mem, m.a[rd], ds, B, j) == LimbAt(c.mem, m.a[rd], ds, B, j))
    ensures DecimalResult(sub, m, c1, rs, rd, n)
  {
    hide LimbAt, Decimal, ValidBcd, EmittedAbcd, EmittedSbcd, StepBytes, Low, Pow, DecimalNumber;
    var ss, ds := StepBytes(rs, B), StepBytes(rd, B);
    var dt, st := LimbAt(m.mem, m.a[rd], ds, B, n), LimbAt(m.mem, m.a[rs], ss, B, n);
    var r := Emitted(DecimalOp(sub), c.sr, dt, st, 0x80);
    AbcdDigitPair(c.sr, dt, st);
    SbcdDigitPair(c.sr, dt, st);
    ValidIsByte(r.value);
    SameDecimal(c.mem, c1.mem, m.a[rd], ds, n - 1);
    DecimalTop(m.mem, m.a[rd], ds, n);
    DecimalTop(m.mem, m.a[rs], ss, n);
    DecimalTop(c1.mem, m.a[rd], ds, n);
    var p := Pow(100, n - 1);
    var dl, sl := DecimalNumber(m.mem, m.a[rd], ds, n - 1), DecimalNumber(m.mem, m.a[rs], ss, n - 1);
    var rl, rt := DecimalNumber(c1.mem, m.a[rd], ds, n - 1), Decimal(r.value);
    DecimalOfValid(r.value);
    TopLimbBound(p, 100, rl, rt);
    if sub {
      BorrowOut(p, 100, dl, Decimal(dt), sl, Decimal(st), XBit(m.sr), rl, rt, XBit(c.sr), XBit(c1.sr));
    } else {
      CarryOut(p, 100, dl, Decimal(dt), sl, Decimal(st), XBit(m.sr), rl, rt, XBit(c.sr), XBit(c1.sr));
    }
    ZeroParts(p, rl, rt);
  }

  lemma ValidIsByte(v: int)
    requires ValidBcd(v)
    ensures Low(v, B) == v
  {
  }

  lemma ZeroParts(p: int, low: int, top: int)
    requires p > 0 && low >= 0 && top >= 0
    ensures low + p * top == 0 <==> low == 0 && top == 0
  {
    if top > 0 { assert p * top >= p; }
  }

  lemma DecimalTop(mem: Mem, end: int, stride: int, n: nat)
    requires n > 0
    ensures DecimalNumber(mem, end, stride, n)
            == DecimalNumber(mem, end, stride, n - 1) + Pow(100, n - 1) * Decimal(LimbAt(mem, end, stride, B, n))
    ensures Pow(100, n) == 100 * Pow(100, n - 1)
  {
    hide LimbAt, Decimal;
  }
}
