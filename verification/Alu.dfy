/** The flag arithmetic that the emitter prints for ADD, SUB and CMP, the sixteen
    branch conditions, and what they mean in signed and unsigned numbers.
    `half` is the weight of the sign bit, so an operand has 2 * half values. */
module Alu {
  import opened Machine

  predicate Operand(v: int, half: int) {
    0 <= v < 2 * half
  }

  /** ((a ^ b) & sign_mask) != 0 */
  predicate SignXor(a: int, b: int, half: int) {
    (a >= half) != (b >= half)
  }

  lemma WrapOnce(v: int, m: int)
    requires 0 < m && -m <= v < 2 * m
    ensures v % m == (if v < 0 then v + m else if v < m then v else v - m)
  {
    var q := v / m;
    assert v == m * q + v % m;
    assert -2 < q < 2;
  }

  lemma WrapOnce2(v: int, m: int)
    requires 0 < m && -2 * m < v < 2 * m
    ensures v % m == (if v < -m then v + 2 * m else if v < 0 then v + m else if v < m then v else v - m)
  {
    var q := v / m;
    assert v == m * q + v % m;
    assert -3 < q < 2;
  }

  /** -half <= v < half */
  predicate Fits(v: int, half: int) { -half <= v < half }

  // ---------------------------------------------------------------- emitted code

  datatype Result = Result(value: int, sr: Sr)

  function EmittedAdd(sr: Sr, dst: int, src: int, half: int): Result
    requires half > 0
  {
    var full := dst + src;
    var result := full % (2 * half);
    Result(result, sr.(z := result == 0, n := result >= half, c := full > 2 * half - 1, x := full > 2 * half - 1,
                       v := !SignXor(dst, src, half) && SignXor(dst, result, half)))
  }

  function EmittedCmp(sr: Sr, dst: int, src: int, half: int): Result
    requires half > 0
  {
    var result := (dst - src) % (2 * half);
    Result(result, sr.(z := result == 0, n := result >= half, c := src > dst,
                       v := SignXor(dst, src, half) && SignXor(dst, result, half)))
  }

  function EmittedSub(sr: Sr, dst: int, src: int, half: int): Result
    requires half > 0
  {
    var r := EmittedCmp(sr, dst, src, half);
    r.(sr := r.sr.(x := src > dst))
  }

  /** ng_condition_expr, with conditions 0 and 1 as the branch emitter treats them. */
  predicate EmittedCondition(condition: int, sr: Sr) {
    match condition
    case 0 => true
    case 2 => !sr.c && !sr.z
    case 3 => sr.c || sr.z
    case 4 => !sr.c
    case 5 => sr.c
    case 6 => !sr.z
    case 7 => sr.z
    case 8 => !sr.v
    case 9 => sr.v
    case 10 => !sr.n
    case 11 => sr.n
    case 12 => sr.n == sr.v
    case 13 => sr.n != sr.v
    case 14 => !sr.z && sr.n == sr.v
    case 15 => sr.z || sr.n != sr.v
    case _ => false
  }

  // ---------------------------------------------------------------- the processor's rules

  /** Section 3.2 of the M68000 Programmer's Reference Manual: carry is an unsigned
      result that does not fit, overflow a signed one. */
  function ManualFlags(sr: Sr, unsignedResult: int, signedResult: int, half: int): Result
    requires half > 0
  {
    var value := unsignedResult % (2 * half);
    Result(value, sr.(n := Signed(value, half) < 0, z := value == 0,
                      v := !(-half <= signedResult < half), c := !(0 <= unsignedResult < 2 * half)))
  }

  function ManualAdd(sr: Sr, dst: int, src: int, half: int): Result
    requires half > 0
  {
    var r := ManualFlags(sr, dst + src, Signed(dst, half) + Signed(src, half), half);
    r.(sr := r.sr.(x := r.sr.c))
  }

  /** Addition with extend: a nonzero result clears Z, and nothing sets it. */
  function ManualAddX(sr: Sr, dst: int, src: int, half: int): Result
    requires half > 0
  {
    var x := if sr.x then 1 else 0;
    var r := ManualFlags(sr, dst + src + x, Signed(dst, half) + Signed(src, half) + x, half);
    r.(sr := r.sr.(z := sr.z && r.value == 0, x := r.sr.c))
  }

  /** Subtraction with extend, likewise. */
  function ManualSubX(sr: Sr, dst: int, src: int, half: int): Result
    requires half > 0
  {
    var x := if sr.x then 1 else 0;
    var r := ManualFlags(sr, dst - src - x, Signed(dst, half) - Signed(src, half) - x, half);
    r.(sr := r.sr.(z := sr.z && r.value == 0, x := r.sr.c))
  }

  function ManualCmp(sr: Sr, dst: int, src: int, half: int): Result
    requires half > 0
  {
    ManualFlags(sr, dst - src, Signed(dst, half) - Signed(src, half), half)
  }

  function ManualSub(sr: Sr, dst: int, src: int, half: int): Result
    requires half > 0
  {
    var r := ManualCmp(sr, dst, src, half);
    r.(sr := r.sr.(x := r.sr.c))
  }

  /** Table 3-19, as products of the flags. */
  predicate ManualCondition(condition: int, sr: Sr) {
    match condition
    case 0 => true
    case 1 => false
    case 2 => !sr.c && !sr.z
    case 3 => sr.c || sr.z
    case 4 => !sr.c
    case 5 => sr.c
    case 6 => !sr.z
    case 7 => sr.z
    case 8 => !sr.v
    case 9 => sr.v
    case 10 => !sr.n
    case 11 => sr.n
    case 12 => (sr.n && sr.v) || (!sr.n && !sr.v)
    case 13 => (sr.n && !sr.v) || (!sr.n && sr.v)
    case 14 => (sr.n && sr.v && !sr.z) || (!sr.n && !sr.v && !sr.z)
    case _ => sr.z || (sr.n && !sr.v) || (!sr.n && sr.v)
  }

  // ---------------------------------------------------------------- emitted code obeys the rules

  lemma AddIsManualAdd(sr: Sr, dst: int, src: int, half: int)
    requires half > 0 && Operand(dst, half) && Operand(src, half)
    ensures EmittedAdd(sr, dst, src, half) == ManualAdd(sr, dst, src, half)
  {
    WrapOnce(dst + src, 2 * half);
  }

  lemma CmpIsManualCmp(sr: Sr, dst: int, src: int, half: int)
    requires half > 0 && Operand(dst, half) && Operand(src, half)
    ensures EmittedCmp(sr, dst, src, half) == ManualCmp(sr, dst, src, half)
    ensures EmittedSub(sr, dst, src, half) == ManualSub(sr, dst, src, half)
  {
    WrapOnce(dst - src, 2 * half);
  }

  /** What a programmer means by each condition after CMP src,dst. */
  predicate Comparison(condition: int, dst: int, src: int, half: int) {
    var sdst, ssrc := Signed(dst, half), Signed(src, half);
    match condition
    case 2 => dst > src
    case 3 => dst <= src
    case 4 => dst >= src
    case 5 => dst < src
    case 6 => dst != src
    case 7 => dst == src
    case 8 => -half <= sdst - ssrc < half
    case 9 => !(-half <= sdst - ssrc < half)
    case 10 => (0 <= dst - src < half) || dst - src < -half
    case 11 => dst - src >= half || (-half <= dst - src < 0)
    case 12 => sdst >= ssrc
    case 13 => sdst < ssrc
    case 14 => sdst > ssrc
    case _ => sdst <= ssrc
  }

  /** At any operand width, the emitted test after the emitted compare decides
      exactly the comparison the condition is named after. */
  lemma ConditionsAfterCmp(sr: Sr, dst: int, src: int, half: int, condition: int)
    requires half > 0 && Operand(dst, half) && Operand(src, half)
    requires 2 <= condition < 16
    ensures EmittedCondition(condition, EmittedCmp(sr, dst, src, half).sr)
            <==> Comparison(condition, dst, src, half)
  {
    WrapOnce(dst - src, 2 * half);
  }
}
