/** The 68000 register file, status register and memory bus that generated code
    works on: g_ng_m68k (include/ngrecomp/m68k_state.h) and the ng68k_read and
    ng68k_write entry points (include/ngrecomp/generated_abi.h).  C's fixed-width
    arithmetic is written out as arithmetic modulo a power of two. */
module Machine {
  datatype Option<+T> = None | Some(value: T)

  type u8 = x: int | 0 <= x < 0x100
  type u16 = x: int | 0 <= x < 0x1_0000
  type u24 = x: int | 0 <= x < 0x100_0000
  type u32 = x: int | 0 <= x < 0x1_0000_0000
  type i16 = x: int | -0x8000 <= x < 0x8000
  type Reg = x: int | 0 <= x < 8
  type Regs = s: seq<u32> | |s| == 8 witness [0, 0, 0, 0, 0, 0, 0, 0]

  /** Operand sizes; the C code writes them as 1, 2 and 4 bytes. */
  datatype Size = B | W | L {
    function Bytes(): (n: int) {
      match this case B => 1 case W => 2 case L => 4
    }

    /** Half the number of values of this size: the weight of the sign bit. */
    function Half(): (h: int)
      ensures h == 0x80 || h == 0x8000 || h == 0x8000_0000
    {
      match this case B => 0x80 case W => 0x8000 case L => 0x8000_0000
    }

    function Modulus(): (m: int)
      ensures m == 2 * Half()
    {
      match this case B => 0x100 case W => 0x1_0000 case L => 0x1_0000_0000
    }
  }

  function Low(v: int, size: Size): (r: u32)
    ensures 0 <= r < size.Modulus()
  {
    match size
    case B => v % 0x100
    case W => v % 0x1_0000
    case L => v % 0x1_0000_0000
  }

  /** d[r] = (d[r] & keep_mask) | value */
  function Merge(old_: u32, size: Size, value: int): (r: u32) {
    match size
    case B => old_ / 0x100 * 0x100 + value % 0x100
    case W => old_ / 0x1_0000 * 0x1_0000 + value % 0x1_0000
    case L => value % 0x1_0000_0000
  }

  lemma LowOfMerge(old_: u32, size: Size, value: int)
    ensures Low(Merge(old_, size, value), size) == Low(value, size)
    ensures Merge(old_, size, Low(value, size)) == Merge(old_, size, value)
    ensures Low(Low(value, size), size) == Low(value, size)
  {
    match size
    case B => MergeAt(old_, value, 0x100);
    case W => MergeAt(old_, value, 0x1_0000);
    case L =>
  }

  lemma MergeAt(old_: u32, value: int, m: int)
    requires m > 0
    ensures (old_ / m * m + value % m) % m == value % m
    ensures value % m % m == value % m
  {
    SameRemainder(old_ / m * m + value % m, value % m, old_ / m, m);
    Euclid(value % m, m, 0, value % m);
  }

  lemma Euclid(v: int, d: int, q: int, r: int)
    requires d > 0 && v == d * q + r && 0 <= r < d
    ensures v / d == q && v % d == r
  {
    var e := q - v / d;
    assert d * e == v % d - r;
    assert -1 < e < 1;
  }

  lemma SameRemainder(a: int, b: int, k: int, m: int)
    requires m > 0 && a == b + m * k
    ensures a % m == b % m
  {
    Euclid(a, m, b / m + k, b % m);
  }

  lemma SmallerFactor(q: int, n: int, size: int)
    requires size > 0 && q * size < n * size
    ensures q < n
  {
    assert (n - q) * size > 0;
  }

  lemma LowOfSmall(v: int, size: Size)
    requires 0 <= v < size.Modulus()
    ensures Low(v, size) == v
  {
  }

  function Wrap32(v: int): (r: u32) { v % 0x1_0000_0000 }

  function Wrap24(v: int): (r: u24) { v % 0x100_0000 }

  /** The two's complement reading of a size-wide value. */
  function Signed(v: int, half: int): int {
    if v >= half then v - 2 * half else v
  }

  /** (uint32_t)(int32_t)(int16_t) v */
  function Extend16(v: int): (r: u32) {
    Wrap32(Signed(v % 0x1_0000, 0x8000))
  }

  // ---------------------------------------------------------------- status register

  /** All sixteen bits of SR; mid, low and b14 are the bits the 68000 leaves unused,
      which the generated code stores and reloads like any other. */
  datatype SrBits = Sr(t: bool, b14: bool, s: bool, mid: int, level: int, low: int,
                       x: bool, n: bool, z: bool, v: bool, c: bool)
  {
    predicate Valid() {
      0 <= mid < 4 && 0 <= level < 8 && 0 <= low < 8
    }

    /** The word the fields are packed into, from the CCR up. */
    function Packed(): Fields {
      Field(CcrWord(x, n, z, v, c), 32,
            Field(low, 8, Field(level, 8, Field(mid, 4, Field(TopWord(t, b14, s), 8, End)))))
    }

    function Word(): (w: u16)
      requires Valid()
    {
      PackedWord(this);
      Packed().Total()
    }
  }

  /** Bit fields of a word, each with the number of values it can take. */
  datatype Fields = End | Field(value: int, radix: int, above: Fields)
  {
    function Total(): int {
      match this case End => 0 case Field(v, r, above) => v + r * above.Total()
    }
  }

  lemma PackedWord(sr: SrBits)
    requires sr.Valid()
    ensures var w := sr.Packed().Total();
            && w == CcrWord(sr.x, sr.n, sr.z, sr.v, sr.c)
                    + 32 * (sr.low + 8 * (sr.level + 8 * (sr.mid + 4 * TopWord(sr.t, sr.b14, sr.s))))
            && 0 <= w < 0x1_0000
  {
    hide CcrWord, TopWord;
    var f1 := Field(TopWord(sr.t, sr.b14, sr.s), 8, End);
    var f2 := Field(sr.mid, 4, f1);
    var f3 := Field(sr.level, 8, f2);
    assert f1.Total() == TopWord(sr.t, sr.b14, sr.s) && f2.Total() == sr.mid + 4 * f1.Total();
    assert f3.Total() == sr.level + 8 * f2.Total();
    assert Field(sr.low, 8, f3).Total() == sr.low + 8 * f3.Total();
  }

  type Sr = b: SrBits | b.Valid()
    witness Sr(false, false, false, 0, 0, 0, false, false, false, false, false)

  function Bit(b: bool, weight: int): int { if b then weight else 0 }

  function CcrWord(x: bool, n: bool, z: bool, v: bool, c: bool): (w: int)
    ensures 0 <= w < 32
  {
    Bit(x, 16) + Bit(n, 8) + Bit(z, 4) + Bit(v, 2) + Bit(c, 1)
  }

  function TopWord(t: bool, b14: bool, s: bool): (w: int)
    ensures 0 <= w < 8
  {
    Bit(t, 4) + Bit(b14, 2) + Bit(s, 1)
  }

  /** Bit number k of a five-bit field. */
  predicate Has(w: int, weight: int)
    requires weight in {1, 2, 4, 8, 16}
  {
    w / weight % 2 == 1
  }

  function SrOf(w: u16): Sr {
    SrFields(w % 32, w / 32 % 8, w / 32 / 8 % 8, w / 32 / 8 / 8 % 4, w / 32 / 8 / 8 / 4)
  }

  /** SR with the bits the 68000 does not have read as zero: 14, 12, 11 and 7 to 5. */
  function Implemented(sr: Sr): Sr { sr.(b14 := false, mid := 0, low := 0) }

  predicate IsImplemented(sr: Sr) { sr == Implemented(sr) }

  function SrFields(ccr: int, low: int, level: int, mid: int, top: int): Sr
    requires 0 <= low < 8 && 0 <= level < 8 && 0 <= mid < 4
  {
    Sr(Has(top, 4), Has(top, 2), Has(top, 1), mid, level, low,
       Has(ccr, 16), Has(ccr, 8), Has(ccr, 4), Has(ccr, 2), Has(ccr, 1))
  }

  lemma DivModOf(k: int, q: int, r: int)
    requires k == 4 || k == 8 || k == 32
    requires 0 <= r < k
    ensures (r + k * q) / k == q && (r + k * q) % k == r
  {
  }

  lemma CcrBits(x: bool, n: bool, z: bool, v: bool, c: bool)
    ensures var w := CcrWord(x, n, z, v, c);
            Has(w, 16) == x && Has(w, 8) == n && Has(w, 4) == z && Has(w, 2) == v && Has(w, 1) == c
  {
  }

  lemma TopBits(t: bool, b14: bool, s: bool)
    ensures var w := TopWord(t, b14, s); Has(w, 4) == t && Has(w, 2) == b14 && Has(w, 1) == s
  {
  }

  lemma UnpackWord(ccr: int, low: int, level: int, mid: int, top: int, w: u16)
    requires 0 <= ccr < 32 && 0 <= low < 8 && 0 <= level < 8 && 0 <= mid < 4 && 0 <= top < 8
    requires w == ccr + 32 * (low + 8 * (level + 8 * (mid + 4 * top)))
    ensures SrOf(w) == SrFields(ccr, low, level, mid, top)
  {
    var w11 := mid + 4 * top;
    var w8 := level + 8 * w11;
    var w5 := low + 8 * w8;
    DivModOf(32, w5, ccr);
    assert w % 32 == ccr && w / 32 == w5;
    DivModOf(8, w8, low);
    DivModOf(8, w11, level);
    DivModOf(4, top, mid);
  }

  lemma SrWordRoundTrip(sr: Sr)
    ensures SrOf(sr.Word()) == sr
  {
    var top := TopWord(sr.t, sr.b14, sr.s);
    var ccr := CcrWord(sr.x, sr.n, sr.z, sr.v, sr.c);
    PackedWord(sr);
    UnpackWord(ccr, sr.low, sr.level, sr.mid, top, sr.Word());
    CcrBits(sr.x, sr.n, sr.z, sr.v, sr.c);
    TopBits(sr.t, sr.b14, sr.s);
  }

  lemma FiveBits(w: int)
    requires 0 <= w < 32
    ensures CcrWord(Has(w, 16), Has(w, 8), Has(w, 4), Has(w, 2), Has(w, 1)) == w
    ensures w < 8 ==> TopWord(Has(w, 4), Has(w, 2), Has(w, 1)) == w
  {
  }

  lemma WordSrRoundTrip(w: u16)
    ensures SrOf(w).Word() == w
  {
    hide Has, CcrWord, TopWord;
    var ccr, w5 := w % 32, w / 32;
    var w8 := w5 / 8;
    var w11 := w8 / 8;
    var top := w11 / 4;
    FiveBits(ccr);
    FiveBits(top);
    PackedWord(SrOf(w));
    assert w == ccr + 32 * (w5 % 8 + 8 * (w8 % 8 + 8 * (w11 % 4 + 4 * top)));
  }

  // ---------------------------------------------------------------- memory

  /** The bus has 24 address lines and is big-endian. */
  type Mem = map<u24, u8>

  function Read8(mem: Mem, addr: int): (v: u8) {
    var a := Wrap24(addr);
    if a in mem then mem[a] else 0
  }

  function Read16(mem: Mem, addr: int): (v: u16) {
    0x100 * Read8(mem, addr) + Read8(mem, addr + 1)
  }

  function Read32(mem: Mem, addr: int): (v: u32) {
    0x1_0000 * Read16(mem, addr) + Read16(mem, addr + 2)
  }

  function Write8(mem: Mem, addr: int, v: int): Mem {
    mem[Wrap24(addr) := v % 0x100]
  }

  function Write16(mem: Mem, addr: int, v: int): Mem {
    Write8(Write8(mem, addr, v / 0x100), addr + 1, v)
  }

  function Write32(mem: Mem, addr: int, v: int): Mem {
    Write16(Write16(mem, addr, v / 0x1_0000), addr + 2, v)
  }

  function ReadSize(mem: Mem, addr: int, size: Size): (v: u32)
    ensures v < size.Modulus()
  {
    match size
    case B => Read8(mem, addr)
    case W => Read16(mem, addr)
    case L => Read32(mem, addr)
  }

  function WriteSize(mem: Mem, addr: int, size: Size, v: int): Mem {
    match size
    case B => Write8(mem, addr, v)
    case W => Write16(mem, addr, v)
    case L => Write32(mem, addr, v)
  }

  lemma DistinctBytes(addr: int, i: int, j: int)
    requires 0 <= i < j < 8
    ensures Wrap24(addr + i) != Wrap24(addr + j)
  {
    var q := addr + i;
    assert (q + (j - i)) / 0x100_0000 <= q / 0x100_0000 + 1;
  }

  lemma ReadOwnWord(mem: Mem, addr: int, v: int)
    ensures Read16(Write16(mem, addr, v), addr) == v % 0x1_0000
  {
    DistinctBytes(addr, 0, 1);
  }

  lemma ReadOtherWord(mem: Mem, addr: int, v: int)
    ensures Read16(Write16(mem, addr + 2, v), addr) == Read16(mem, addr)
  {
    DistinctBytes(addr, 0, 2);
    DistinctBytes(addr, 1, 2);
    DistinctBytes(addr, 0, 3);
    DistinctBytes(addr, 1, 3);
    assert addr + 2 + 1 == addr + 3;
  }

  lemma ReadOwnWrite(mem: Mem, addr: int, size: Size, v: int)
    ensures ReadSize(WriteSize(mem, addr, size, v), addr, size) == Low(v, size)
  {
    if size == W {
      ReadOwnWord(mem, addr, v);
    } else if size == L {
      ReadOwnLong(mem, addr, v);
    }
  }

  lemma ReadOwnLong(mem: Mem, addr: int, v: int)
    ensures Read32(Write32(mem, addr, v), addr) == v % 0x1_0000_0000
  {
    hide Read16, Write16;
    var high := Write16(mem, addr, v / 0x1_0000);
    ReadOwnWord(mem, addr, v / 0x1_0000);
    ReadOtherWord(high, addr, v);
    ReadOwnWord(high, addr + 2, v);
    assert v % 0x1_0000_0000 == v / 0x1_0000 % 0x1_0000 * 0x1_0000 + v % 0x1_0000;
  }

  /** The bytes an access of k bytes at addr touches, counted on the 24-bit bus. */
  predicate Touches(addr: int, k: int, b: int) {
    Wrap24(b - addr) < k
  }

  lemma Apart(addr: int, i: int, b: int)
    requires 0 <= i < Wrap24(b - addr)
    ensures Wrap24(b) != Wrap24(addr + i) && Wrap24(b) != Wrap24(addr)
  {
  }

  lemma WriteFrame(mem: Mem, addr: int, size: Size, v: int, b: int)
    requires !Touches(addr, size.Bytes(), b)
    ensures Read8(WriteSize(mem, addr, size, v), b) == Read8(mem, b)
  {
    hide Wrap24;
    Apart(addr, 0, b);
    if size != B {
      Apart(addr, 1, b);
    }
    if size == L {
      Apart(addr, 2, b);
      Apart(addr, 3, b);
      assert addr + 2 + 1 == addr + 3;
    }
  }

  // ---------------------------------------------------------------- addresses that wrap

  lemma WrapTwice(x: int, k: int)
    ensures Wrap32(Wrap32(x) + k) == Wrap32(x + k)
    ensures Wrap24(Wrap32(x) + k) == Wrap24(x + k)
    ensures Wrap24(Wrap32(x)) == Wrap24(x)
    ensures Wrap24(Wrap24(x)) == Wrap24(x)
  {
    var q := x / 0x1_0000_0000;
    SameRemainder(Wrap32(x) + k, x + k, -q, 0x1_0000_0000);
    SameRemainder(Wrap32(x) + k, x + k, -256 * q, 0x100_0000);
    SameRemainder(Wrap32(x), x, -256 * q, 0x100_0000);
    SameRemainder(Wrap24(x), x, -(x / 0x100_0000), 0x100_0000);
  }

  lemma SmallWrap(a: u24)
    ensures Wrap24(a) == a
  {
  }

  lemma SameOffset(a: int, b: int, k: int)
    requires Wrap24(a) == Wrap24(b)
    ensures Wrap24(a + k) == Wrap24(b + k)
  {
    SameRemainder(a + k, b + k, a / 0x100_0000 - b / 0x100_0000, 0x100_0000);
  }

  lemma SameBus(mem: Mem, a: int, b: int, size: Size, v: int)
    requires Wrap24(a) == Wrap24(b)
    ensures ReadSize(mem, a, size) == ReadSize(mem, b, size)
    ensures WriteSize(mem, a, size, v) == WriteSize(mem, b, size, v)
  {
    SameOffset(a, b, 1);
    SameOffset(a, b, 2);
    SameOffset(a + 2, b + 2, 1);
  }

  lemma AccessWrapped(mem: Mem, x: int, size: Size, v: int)
    ensures ReadSize(mem, Wrap32(x), size) == ReadSize(mem, x, size)
    ensures WriteSize(mem, Wrap32(x), size, v) == WriteSize(mem, x, size, v)
    ensures ReadSize(mem, Wrap24(x), size) == ReadSize(mem, x, size)
  {
    WrapTwice(x, 0);
    SameBus(mem, Wrap32(x), x, size, v);
    SameBus(mem, Wrap24(x), x, size, v);
  }

  /** Byte accesses through A7 move it by two, to keep the stack aligned. */
  function StepBytes(r: Reg, size: Size): int {
    if r == 7 && size == B then 2 else size.Bytes()
  }

  // ---------------------------------------------------------------- machine state

  /** g_ng_m68k without its pc field, and the memory behind the bus. */
  datatype State = State(d: Regs, a: Regs, sr: Sr, usp: u32, ssp: u32, mem: Mem)
  {
    function SetD(r: Reg, v: u32): (m: State) { this.(d := d[r := v]) }

    function SetA(r: Reg, v: u32): (m: State) { this.(a := a[r := v]) }

    function AddA(r: Reg, n: int): (m: State) { SetA(r, Wrap32(a[r] + n)) }

    /** The user and supervisor stack pointers the program sees: A7 stands for
        the active one, the usp/ssp field for the other. */
    function UserSp(): u32 { if sr.s then usp else a[7] }

    function SupervisorSp(): u32 { if sr.s then a[7] else ssp }
  }
}
