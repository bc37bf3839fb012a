/** Shifts and rotates.  emit_shift_rotate_dreg prints a loop that moves one bit per
    turn; each of the eight loops is proved to be a closed form in the count. */
module Shifts {
  import opened Machine
  import opened Alu

  datatype ShiftOp = Asl | Asr | Lsl | Lsr | Roxl | Roxr | Rol | Ror
  {
    predicate IsRotate() { Rol? || Ror? }
    predicate IsExtended() { Roxl? || Roxr? }
  }

  /** ng_result, ng_last, ng_v and ng_x. */
  datatype Bits = Bits(value: int, last: bool, v: bool, x: bool)

  function Num(b: bool): int { if b then 1 else 0 }

  /** One turn of the emitted loop. */
  function Turn(op: ShiftOp, half: int, b: Bits): Bits
    requires half > 0
  {
    var top, low, doubled := b.value >= half, b.value % 2 == 1, 2 * b.value % (2 * half);
    match op
    case Lsl => Bits(doubled, top, b.v, b.x)
    case Lsr => Bits(b.value / 2, low, b.v, b.x)
    case Asl => Bits(doubled, top, b.v || (doubled >= half) != top, b.x)
    case Asr => Bits(b.value / 2 + half * Num(top), low, b.v, b.x)
    case Roxl => Bits(doubled + Num(b.x), top, b.v, top)
    case Roxr => Bits(b.value / 2 + half * Num(b.x), low, b.v, low)
    case Rol => Bits(doubled + Num(top), top, b.v, b.x)
    case Ror => Bits(b.value / 2 + half * Num(low), low, b.v, b.x)
  }

  function Turns(op: ShiftOp, half: int, b: Bits, n: nat): Bits
    requires half > 0
  {
    if n == 0 then b else Turn(op, half, Turns(op, half, b, n - 1))
  }

  // ---------------------------------------------------------------- powers of two

  function Pow2(n: nat): (p: int)
    ensures p > 0
  {
    if n == 0 then 1 else 2 * Pow2(n - 1)
  }

  lemma {:induction false} Pow2Sum(a: nat, b: nat)
    ensures Pow2(a) * Pow2(b) == Pow2(a + b)
    decreases a
  {
    if a > 0 {
      Pow2Sum(a - 1, b);
      assert Pow2(a) * Pow2(b) == 2 * (Pow2(a - 1) * Pow2(b));
    }
  }

  /** floor(floor(v / a) / 2) == floor(v / (2 * a)) */
  lemma HalveAgain(v: int, a: int)
    requires a > 0
    ensures v / a / 2 == v / (2 * a)
  {
    var q := v / a;
    assert v == a * q + v % a;
    var h := q / 2;
    assert v == (2 * a) * h + (a * (q % 2) + v % a) by {
      assert q == 2 * h + q % 2;
      assert a * q == a * (2 * h) + a * (q % 2);
    }
    assert 0 <= a * (q % 2) <= a;
    Euclid(v, 2 * a, h, a * (q % 2) + v % a);
  }

  lemma DoubleAgain(v: int, m: int)
    requires m > 0
    ensures 2 * (v % m) % m == 2 * v % m
  {
    var q, r := v / m, v % m;
    var q2 := 2 * r / m;
    assert v == m * q + r && 2 * r == m * q2 + 2 * r % m;
    assert 2 * v == m * (2 * q + q2) + 2 * r % m;
    Euclid(2 * v, m, 2 * q + q2, 2 * r % m);
  }

  // ---------------------------------------------------------------- shifts

  /** LSL and ASL multiply by 2^n; the last bit out is the one that left the top. */
  lemma {:induction false} LeftShift(op: ShiftOp, half: int, b: Bits, n: nat)
    requires (op.Lsl? || op.Asl?) && half > 0 && Operand(b.value, half)
    ensures var r := Turns(op, half, b, n);
            && r.value == b.value * Pow2(n) % (2 * half) && Operand(r.value, half) && r.x == b.x
            && (n > 0 ==> (r.last <==> b.value * Pow2(n - 1) % (2 * half) >= half))
    decreases n
  {
    if n == 0 {
      WrapOnce(b.value, 2 * half);
    } else {
      LeftShift(op, half, b, n - 1);
      DoubleAgain(b.value * Pow2(n - 1), 2 * half);
      assert 2 * (b.value * Pow2(n - 1)) == b.value * Pow2(n);
    }
  }

  lemma {:induction false} LogicalRight(half: int, b: Bits, n: nat)
    requires half > 0 && Operand(b.value, half)
    ensures var r := Turns(Lsr, half, b, n);
            && r.value == b.value / Pow2(n) && Operand(r.value, half) && r.x == b.x
            && (n > 0 ==> (r.last <==> b.value / Pow2(n - 1) % 2 == 1))
    decreases n
  {
    if n > 0 {
      LogicalRight(half, b, n - 1);
      HalveAgain(b.value, Pow2(n - 1));
    }
  }

  /** ASR is floor division of the signed value. */
  lemma {:induction false} ArithmeticRight(half: int, b: Bits, n: nat)
    requires half > 0 && half % 2 == 0 && Operand(b.value, half)
    ensures var r := Turns(Asr, half, b, n);
            && Operand(r.value, half) && Signed(r.value, half) == Signed(b.value, half) / Pow2(n) && r.x == b.x
            && (n > 0 ==> (r.last <==> Signed(b.value, half) / Pow2(n - 1) % 2 == 1))
    decreases n
  {
    if n > 0 {
      ArithmeticRight(half, b, n - 1);
      HalveAgain(Signed(b.value, half), Pow2(n - 1));
    }
  }

  /** ASL sets V exactly when the signed value times 2^n does not fit. */
  lemma {:induction false} OverflowOfAsl(half: int, b: Bits, n: nat)
    requires half > 0 && Operand(b.value, half) && !b.v
    ensures var r := Turns(Asl, half, b, n);
            && Operand(r.value, half)
            && (r.v <==> !Fits(Signed(b.value, half) * Pow2(n), half))
            && (!r.v ==> Signed(r.value, half) == Signed(b.value, half) * Pow2(n))
    decreases n
  {
    if n > 0 {
      OverflowOfAsl(half, b, n - 1);
      var r := Turns(Asl, half, b, n - 1);
      var s := Signed(b.value, half) * Pow2(n - 1);
      assert 2 * s == Signed(b.value, half) * Pow2(n);
      WrapOnce2(2 * r.value, 2 * half);
    }
  }

  // ---------------------------------------------------------------- rotates

  /** v, read as w bits, rotated left by k places. */
  function RotateLeft(v: int, w: nat, k: nat): int
    requires k <= w
  {
    v % Pow2(w - k) * Pow2(k) + v / Pow2(w - k)
  }

  lemma SplitParts(hi: int, lo: int, p: int, q: int)
    requires p > 0 && 0 <= lo < q && 0 <= q * hi + lo < p * q
    ensures 0 <= hi < p && 0 <= lo * p + hi < p * q
  {
    assert q * hi > q * -1 && q * hi < q * p;
    assert -1 < hi < p;
    assert lo * p <= (q - 1) * p;
    assert 0 <= lo * p;
  }

  lemma SplitRange(v: int, p: int, q: int)
    requires p > 0 && q > 0 && 0 <= v < p * q
    ensures 0 <= v / q < p && 0 <= v % q * p + v / q < p * q
  {
    SplitParts(v / q, v % q, p, q);
  }

  lemma RotateLeftRange(v: int, w: nat, k: nat)
    requires k <= w && 0 <= v < Pow2(w)
    ensures 0 <= RotateLeft(v, w, k) < Pow2(w)
    ensures 0 <= v / Pow2(w - k) < Pow2(k)
  {
    hide Pow2;
    Pow2Sum(k, w - k);
    SplitRange(v, Pow2(k), Pow2(w - k));
  }

  lemma RotateAll(v: int, w: nat)
    requires 0 <= v < Pow2(w)
    ensures RotateLeft(v, w, 0) == v && RotateLeft(v, w, w) == v
  {
    Euclid(v, Pow2(w), 0, v);
    assert Pow2(0) == 1;
  }

  /** Rotating one place more. */
  lemma RotateOneMore(v: int, w: nat, k: nat)
    requires k < w && 0 <= v < Pow2(w)
    ensures var r, t := RotateLeft(v, w, k), Pow2(w);
            RotateLeft(v, w, k + 1) == 2 * r - t * Num(r >= Pow2(w - 1)) + Num(r >= Pow2(w - 1))
  {
    hide Pow2;
    var p, q1 := Pow2(k), Pow2(w - k - 1);
    Doubles(w - k);
    Doubles(k + 1);
    Doubles(w);
    Pow2Sum(k, w - k - 1);
    TurnSplit(v, p, q1);
  }

  lemma Doubles(n: nat)
    requires n > 0
    ensures Pow2(n) == 2 * Pow2(n - 1)
  {
  }

  lemma TurnSplit(v: int, p: int, q1: int)
    requires p > 0 && q1 > 0 && 0 <= v < 2 * (p * q1)
    ensures var r := v % (2 * q1) * p + v / (2 * q1);
            v % q1 * (2 * p) + v / q1 == 2 * r - 2 * (p * q1) * Num(r >= p * q1) + Num(r >= p * q1)
  {
    var hi, lo := v / (2 * q1), v % (2 * q1);
    assert p * (2 * q1) == 2 * (p * q1);
    SplitRange(v, p, 2 * q1);
    TopBit(p, q1, hi, lo);
    FinerSplit(v, q1, hi, lo);
    SpreadTurn(p, q1, hi, lo);
  }

  /** Cutting v at q1 rather than 2 * q1 moves the top bit of the low part up. */
  lemma FinerSplit(v: int, q1: int, hi: int, lo: int)
    requires q1 > 0 && v == 2 * q1 * hi + lo && 0 <= lo < 2 * q1
    ensures v / q1 == 2 * hi + Num(lo >= q1) && v % q1 == lo - q1 * Num(lo >= q1)
  {
    var b := Num(lo >= q1);
    assert q1 * (2 * hi + b) == 2 * q1 * hi + q1 * b;
    Euclid(v, q1, 2 * hi + b, lo - q1 * b);
  }

  lemma SpreadTurn(p: int, q1: int, hi: int, lo: int)
    ensures var b, r := Num(lo >= q1), lo * p + hi;
            (lo - q1 * b) * (2 * p) + (2 * hi + b) == 2 * r - 2 * (p * q1) * b + b
  {
    if lo >= q1 {
      assert (lo - q1) * (2 * p) == 2 * (lo * p) - 2 * (p * q1);
    } else {
      assert lo * (2 * p) == 2 * (lo * p);
    }
  }

  lemma TopBit(p: int, q1: int, hi: int, lo: int)
    requires p > 0 && q1 > 0 && 0 <= hi < p && 0 <= lo < 2 * q1
    ensures lo * p + hi >= p * q1 <==> lo >= q1
  {
    if lo >= q1 { assert lo * p >= q1 * p; } else { assert lo * p <= (q1 - 1) * p; }
  }

  /** Rotating left by k undoes rotating left by w - k. */
  lemma RotateBack(v: int, w: nat, k: nat)
    requires k <= w && 0 <= v < Pow2(w)
    ensures RotateLeft(RotateLeft(v, w, k), w, w - k) == v
  {
    hide Pow2;
    Pow2Sum(k, w - k);
    assert w - (w - k) == k;
    SwapParts(v, Pow2(k), Pow2(w - k));
  }

  lemma SwapParts(v: int, p: int, q: int)
    requires p > 0 && q > 0 && 0 <= v < p * q
    ensures var r := v % q * p + v / q; r % p * q + r / p == v
  {
    SplitRange(v, p, q);
    Euclid(v % q * p + v / q, p, v % q, v / q);
    assert v == q * (v / q) + v % q;
  }

  function RotateLeftBy(v: int, w: nat, n: nat): int
    requires w > 0
  {
    RotateLeft(v, w, n % w)
  }

  /** A right rotation is the left rotation that completes the circle. */
  function RotateRightBy(v: int, w: nat, n: nat): int
    requires w > 0
  {
    RotateLeft(v, w, (w - n % w) % w)
  }

  lemma NextTurn(n: nat, w: nat)
    requires w > 0 && n > 0
    ensures n % w == (if (n - 1) % w == w - 1 then 0 else (n - 1) % w + 1)
  {
    var k := (n - 1) % w;
    assert n - 1 == w * ((n - 1) / w) + k;
    if k == w - 1 {
      assert n == w * ((n - 1) / w + 1) + 0;
      Euclid(n, w, (n - 1) / w + 1, 0);
    } else {
      Euclid(n, w, (n - 1) / w, k + 1);
    }
  }

  /** One turn to the left of the w-bit circle, written with Num. */
  lemma LeftTurn(v: int, w: nat, n: nat)
    requires w > 0 && n > 0 && 0 <= v < Pow2(w)
    ensures var r, h := RotateLeftBy(v, w, n - 1), Pow2(w - 1);
            && 0 <= r < 2 * h
            && RotateLeftBy(v, w, n) == 2 * r - 2 * h * Num(r >= h) + Num(r >= h)
  {
    hide Pow2, RotateLeft;
    var k := (n - 1) % w;
    Doubles(w);
    NextTurn(n, w);
    RotateLeftRange(v, w, k);
    RotateOneMore(v, w, k);
    RotateAll(v, w);
  }

  lemma RightIndex(n: nat, w: nat)
    requires w > 0 && n > 0
    ensures var j := (w - n % w) % w;
            j < w && (w - (n - 1) % w) % w == if j + 1 == w then 0 else j + 1
  {
    NextTurn(n, w);
    var k := n % w;
    Euclid(w, w, 1, 0);
    if k == 0 {
      Euclid(1, w, if w == 1 then 1 else 0, if w == 1 then 0 else 1);
    } else {
      Euclid(w - k, w, 0, w - k);
      if k > 1 {
        Euclid(w - k + 1, w, 0, w - k + 1);
      }
    }
  }

  lemma RightTurn(v: int, w: nat, n: nat)
    requires w > 0 && n > 0 && 0 <= v < Pow2(w)
    ensures var r, h := RotateRightBy(v, w, n - 1), Pow2(w - 1);
            && 0 <= r < 2 * h
            && RotateRightBy(v, w, n) == r / 2 + h * (r % 2)
  {
    hide Pow2, RotateLeft;
    RightIndex(n, w);
    RightTurnAt(v, w, (w - n % w) % w);
  }

  lemma RightTurnAt(v: int, w: nat, j: nat)
    requires j < w && 0 <= v < Pow2(w)
    ensures var r, h := RotateLeft(v, w, if j + 1 == w then 0 else j + 1), Pow2(w - 1);
            0 <= r < 2 * h && RotateLeft(v, w, j) == r / 2 + h * (r % 2)
  {
    hide Pow2, RotateLeft;
    Doubles(w);
    var r := RotateLeft(v, w, if j + 1 == w then 0 else j + 1);
    RotateLeftRange(v, w, j);
    RotateOneMore(v, w, j);
    RotateAll(v, w);
    RotateLeftRange(v, w, if j + 1 == w then 0 else j + 1);
    UndoTurn(RotateLeft(v, w, j), Pow2(w - 1), r);
  }

  lemma UndoTurn(x: int, h: int, r: int)
    requires h > 0 && 0 <= x < 2 * h
    requires r == 2 * x - 2 * h * Num(x >= h) + Num(x >= h)
    ensures x == r / 2 + h * (r % 2)
  {
  }

  lemma {:induction false} PlainRotate(op: ShiftOp, w: nat, b: Bits, n: nat)
    requires op.IsRotate() && w > 0 && Operand(b.value, Pow2(w - 1))
    ensures var r := Turns(op, Pow2(w - 1), b, n);
            && r.value == (if op.Rol? then RotateLeftBy(b.value, w, n) else RotateRightBy(b.value, w, n))
            && Operand(r.value, Pow2(w - 1)) && r.x == b.x
            && (n > 0 ==> (r.last <==> if op.Rol? then r.value % 2 == 1 else r.value >= Pow2(w - 1)))
    decreases n
  {
    hide RotateLeft, RotateLeftBy, RotateRightBy, Pow2;
    Doubles(w);
    if n == 0 {
      NoTurn(b.value, w);
    } else {
      PlainRotate(op, w, b, n - 1);
      var r := Turns(op, Pow2(w - 1), b, n - 1);
      if op.Rol? {
        LeftTurn(b.value, w, n);
        LeftAround(r, Pow2(w - 1));
      } else {
        RightTurn(b.value, w, n);
        RightAround(r, Pow2(w - 1));
      }
    }
  }

  lemma LeftAround(r: Bits, h: int)
    requires h > 0 && Operand(r.value, h)
    ensures var r1 := Turn(Rol, h, r);
            && Operand(r1.value, h) && r1.x == r.x && (r1.last <==> r1.value % 2 == 1)
            && r1.value == 2 * r.value - 2 * h * Num(r.value >= h) + Num(r.value >= h)
  {
    WrapOnce2(2 * r.value, 2 * h);
    assert (2 * r.value - 2 * h * Num(r.value >= h)) % 2 == 0;
  }

  lemma RightAround(r: Bits, h: int)
    requires h > 0 && Operand(r.value, h)
    ensures var r1 := Turn(Ror, h, r);
            && Operand(r1.value, h) && r1.x == r.x && (r1.last <==> r1.value >= h)
            && r1.value == r.value / 2 + h * (r.value % 2)
  {
  }

  lemma NoTurn(v: int, w: nat)
    requires w > 0 && 0 <= v < Pow2(w)
    ensures RotateLeftBy(v, w, 0) == v && RotateRightBy(v, w, 0) == v
  {
    hide RotateLeft, Pow2;
    RotateAll(v, w);
    Euclid(0, w, 0, 0);
    Euclid(w, w, 1, 0);
  }

  /** X above the value: the w + 1 bits that ROXL and ROXR turn. */
  function WithX(b: Bits, half: int): int { b.value + 2 * half * Num(b.x) }

  lemma {:induction false} ExtendedRotate(op: ShiftOp, w: nat, b: Bits, n: nat)
    requires op.IsExtended() && w > 0 && Operand(b.value, Pow2(w - 1))
    ensures var r := Turns(op, Pow2(w - 1), b, n);
            && WithX(r, Pow2(w - 1)) == (if op.Roxl? then RotateLeftBy(WithX(b, Pow2(w - 1)), w + 1, n)
                                         else RotateRightBy(WithX(b, Pow2(w - 1)), w + 1, n))
            && Operand(r.value, Pow2(w - 1)) && (n > 0 ==> r.last == r.x)
    decreases n
  {
    hide RotateLeft, RotateLeftBy, RotateRightBy, Pow2;
    Doubles(w);
    Doubles(w + 1);
    var y := WithX(b, Pow2(w - 1));
    if n == 0 {
      NoTurn(y, w + 1);
    } else {
      ExtendedRotate(op, w, b, n - 1);
      var r := Turns(op, Pow2(w - 1), b, n - 1);
      if op.Roxl? {
        LeftTurn(y, w + 1, n);
        LeftThroughX(r, Pow2(w - 1));
      } else {
        RightTurn(y, w + 1, n);
        RightThroughX(r, Pow2(w - 1));
      }
    }
  }

  lemma LeftThroughX(r: Bits, h: int)
    requires h > 0 && Operand(r.value, h)
    ensures var y, r1 := WithX(r, h), Turn(Roxl, h, r);
            && Operand(r1.value, h) && r1.last == r1.x
            && WithX(r1, h) == 2 * y - 2 * (2 * h) * Num(y >= 2 * h) + Num(y >= 2 * h)
  {
    WrapOnce2(2 * r.value, 2 * h);
  }

  lemma RightThroughX(r: Bits, h: int)
    requires h > 0 && Operand(r.value, h)
    ensures var y, r1 := WithX(r, h), Turn(Roxr, h, r);
            && Operand(r1.value, h) && r1.last == r1.x
            && WithX(r1, h) == y / 2 + (2 * h) * (y % 2)
  {
    EvenHalf(r.value, h, Num(r.x));
  }

  lemma EvenHalf(v: int, h: int, x: int)
    requires 0 <= v < 2 * h && 0 <= x < 2
    ensures (v + 2 * h * x) / 2 == v / 2 + h * x && (v + 2 * h * x) % 2 == v % 2
  {
    if x == 1 {
      assert v + 2 * h * x == v + 2 * h;
    }
  }

  lemma AroundAndBack(v: int, w: nat, n: nat)
    requires w > 0 && 0 <= v < Pow2(w)
    ensures RotateRightBy(RotateLeftBy(v, w, n), w, n) == v && RotateLeftBy(RotateRightBy(v, w, n), w, n) == v
  {
    hide RotateLeft, Pow2;
    var k := n % w;
    if k == 0 {
      Euclid(w, w, 1, 0);
      RotateAll(v, w);
    } else {
      Euclid(w - k, w, 0, w - k);
      assert w - (w - k) == k;
      RotateBack(v, w, k);
      RotateBack(v, w, w - k);
    }
  }

  /** ROR and ROL by the same count undo each other, and so do ROXR and ROXL, which
      bring back X as well. */
  lemma RotationUndone(op: ShiftOp, back: ShiftOp, w: nat, b: Bits, n: nat)
    requires (op, back) in {(Rol, Ror), (Ror, Rol), (Roxl, Roxr), (Roxr, Roxl)}
    requires w > 0 && Operand(b.value, Pow2(w - 1))
    ensures var r := Turns(back, Pow2(w - 1), Turns(op, Pow2(w - 1), b, n), n);
            r.value == b.value && r.x == b.x
  {
    hide RotateLeftBy, RotateRightBy, Pow2, Turns;
    var h := Pow2(w - 1);
    var r := Turns(op, h, b, n);
    Doubles(w);
    Doubles(w + 1);
    if op.IsRotate() {
      PlainRotate(op, w, b, n);
      PlainRotate(back, w, r, n);
      AroundAndBack(b.value, w, n);
    } else {
      ExtendedRotate(op, w, b, n);
      ExtendedRotate(back, w, r, n);
      AroundAndBack(WithX(b, h), w + 1, n);
      WithXIsBoth(Turns(back, h, r, n), b, h);
    }
  }

  lemma WithXIsBoth(r: Bits, b: Bits, half: int)
    requires Operand(r.value, half) && Operand(b.value, half) && WithX(r, half) == WithX(b, half)
    ensures r.value == b.value && r.x == b.x
  {
  }

  // ---------------------------------------------------------------- whole instructions

  /** What the manual says a shift or rotate by n does to a w-bit value: the value in
      closed form, C the last bit out, X as C except that ROL and ROR leave it alone,
      V only for ASL, when a bit of the sign is lost. */
  function ManualShift(op: ShiftOp, w: nat, sr: Sr, v: int, n: nat): Result
    requires w > 0
  {
    var half := Pow2(w - 1);
    var m := 2 * half;
    var turned := if op.Roxl? then RotateLeftBy(v + m * Num(sr.x), w + 1, n)
                  else if op.Roxr? then RotateRightBy(v + m * Num(sr.x), w + 1, n) else 0;
    var value := match op
      case Asl => v * Pow2(n) % m
      case Lsl => v * Pow2(n) % m
      case Lsr => v / Pow2(n)
      case Asr => Signed(v, half) / Pow2(n) % m
      case Rol => RotateLeftBy(v, w, n)
      case Ror => RotateRightBy(v, w, n)
      case _ => turned % m;
    var c := if n == 0 then op.IsExtended() && sr.x
      else match op
        case Asl => v * Pow2(n - 1) % m >= half
        case Lsl => v * Pow2(n - 1) % m >= half
        case Lsr => v / Pow2(n - 1) % 2 == 1
        case Asr => Signed(v, half) / Pow2(n - 1) % 2 == 1
        case Rol => value % 2 == 1
        case Ror => value >= half
        case _ => turned >= m;
    Result(value, sr.(n := value >= half, z := value == 0, c := c, x := if n == 0 || op.IsRotate() then sr.x else c,
                      v := op.Asl? && !Fits(Signed(v, half) * Pow2(n), half)))
  }

  /** The flags the emitted code sets after its loop. */
  function ShiftFlags(op: ShiftOp, half: int, sr: Sr, b: Bits, n: nat): Sr {
    var c := if n == 0 then op.IsExtended() && sr.x else if op.IsExtended() then b.x else b.last;
    sr.(z := b.value == 0, n := b.value >= half, v := n > 0 && op.Asl? && b.v, c := c,
        x := if n == 0 || op.IsRotate() then sr.x else c)
  }

  /** The emitted shift: a loop of single-bit turns. */
  method EmittedShift(op: ShiftOp, w: nat, sr: Sr, v: int, n: nat) returns (r: Result)
    requires w > 1 && Operand(v, Pow2(w - 1))
    ensures r == ManualShift(op, w, sr, v, n)
  {
    hide Turn, Pow2;
    var half := Pow2(w - 1);
    var b := Bits(v, false, false, sr.x);
    ghost var b0 := b;
    for i := 0 to n
      invariant b == Turns(op, half, b0, i)
    {
      b := Turn(op, half, b);
    }
    r := Result(b.value, ShiftFlags(op, half, sr, b, n));
    ShiftIsManual(op, w, sr, v, n);
  }

  lemma ShiftIsManual(op: ShiftOp, w: nat, sr: Sr, v: int, n: nat)
    requires w > 1 && Operand(v, Pow2(w - 1))
    ensures var b := Turns(op, Pow2(w - 1), Bits(v, false, false, sr.x), n);
            Result(b.value, ShiftFlags(op, Pow2(w - 1), sr, b, n)) == ManualShift(op, w, sr, v, n)
  {
    hide *;
    if op.Lsl? || op.Asl? {
      LeftShiftIsManual(op, w, sr, v, n);
    } else if op.Lsr? || op.Asr? {
      RightShiftIsManual(op, w, sr, v, n);
    } else if op.Rol? || op.Ror? {
      RotateIsManual(op, w, sr, v, n);
    } else {
      ExtendedRotateIsManual(op, w, sr, v, n);
    }
  }

  lemma LeftShiftIsManual(op: ShiftOp, w: nat, sr: Sr, v: int, n: nat)
    requires w > 1 && Operand(v, Pow2(w - 1)) && (op.Lsl? || op.Asl?)
    ensures var b := Turns(op, Pow2(w - 1), Bits(v, false, false, sr.x), n);
            Result(b.value, ShiftFlags(op, Pow2(w - 1), sr, b, n)) == ManualShift(op, w, sr, v, n)
  {
    hide Turns, Pow2, Fits, Signed;
    var b, half := Bits(v, false, false, sr.x), Pow2(w - 1);
    LeftShift(op, half, b, n);
    if op.Asl? {
      OverflowOfAsl(half, b, n);
      NothingLost(v, half);
    }
  }

  lemma RightShiftIsManual(op: ShiftOp, w: nat, sr: Sr, v: int, n: nat)
    requires w > 1 && Operand(v, Pow2(w - 1)) && (op.Lsr? || op.Asr?)
    ensures var b := Turns(op, Pow2(w - 1), Bits(v, false, false, sr.x), n);
            Result(b.value, ShiftFlags(op, Pow2(w - 1), sr, b, n)) == ManualShift(op, w, sr, v, n)
  {
    hide Turns, Pow2, Signed;
    var b, half := Bits(v, false, false, sr.x), Pow2(w - 1);
    if op.Lsr? {
      LogicalRight(half, b, n);
    } else {
      Doubles(w - 1);
      ArithmeticRight(half, b, n);
      UnsignedAgain(Turns(op, half, b, n).value, half);
    }
  }

  lemma RotateIsManual(op: ShiftOp, w: nat, sr: Sr, v: int, n: nat)
    requires w > 1 && Operand(v, Pow2(w - 1)) && (op.Rol? || op.Ror?)
    ensures var b := Turns(op, Pow2(w - 1), Bits(v, false, false, sr.x), n);
            Result(b.value, ShiftFlags(op, Pow2(w - 1), sr, b, n)) == ManualShift(op, w, sr, v, n)
  {
    hide Turns, RotateLeftBy, RotateRightBy, Pow2;
    PlainRotate(op, w, Bits(v, false, false, sr.x), n);
  }

  lemma ExtendedRotateIsManual(op: ShiftOp, w: nat, sr: Sr, v: int, n: nat)
    requires w > 1 && Operand(v, Pow2(w - 1)) && (op.Roxl? || op.Roxr?)
    ensures var b := Turns(op, Pow2(w - 1), Bits(v, false, false, sr.x), n);
            Result(b.value, ShiftFlags(op, Pow2(w - 1), sr, b, n)) == ManualShift(op, w, sr, v, n)
  {
    hide Turns, RotateLeftBy, RotateRightBy, Pow2;
    var b, half := Bits(v, false, false, sr.x), Pow2(w - 1);
    ExtendedRotate(op, w, b, n);
    BelowX(Turns(op, half, b, n), half);
    XAtStart(op, half, b);
  }

  lemma NothingLost(v: int, half: int)
    requires half > 0 && Operand(v, half)
    ensures Pow2(0) == 1 && Fits(Signed(v, half), half)
  {
  }

  lemma UnsignedAgain(v: int, half: int)
    requires half > 0 && Operand(v, half)
    ensures Signed(v, half) % (2 * half) == v
  {
    Euclid(Signed(v, half), 2 * half, if v >= half then -1 else 0, v);
  }

  lemma BelowX(b: Bits, half: int)
    requires half > 0 && Operand(b.value, half)
    ensures WithX(b, half) % (2 * half) == b.value && (WithX(b, half) >= 2 * half <==> b.x)
  {
    Euclid(WithX(b, half), 2 * half, Num(b.x), b.value);
  }

  lemma XAtStart(op: ShiftOp, half: int, b: Bits)
    requires half > 0
    ensures Turns(op, half, b, 0) == b
  {
    hide Turn;
  }
}
