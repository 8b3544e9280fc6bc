/** Value-level meaning of the instructions, shared by both interpreters and by the JIT correctness statements. */
module Semantics {
  import opened Words
  import opened Isa

  // ---------------------------------------------------------------- arithmetic

  function UDiv(x: nat, y: nat): (r: nat)
    ensures r <= x
  {
    if y == 0 then 0 else
      DivShrinks(x, y);
      x / y
  }

  lemma DivShrinks(x: nat, y: nat)
    requires y >= 1
    ensures 0 <= x / y <= x
  {
    var q, r := x / y, x % y;
    assert x == y * q + r && q >= 0 && r >= 0;
    MulAtLeast(y, q);
  }

  function UMod(x: nat, y: nat): (r: nat)
    ensures r <= x
  {
    if y == 0 then x else
      DivShrinks(x, y);
      assert x == y * (x / y) + x % y && y * (x / y) >= 0;
      x % y
  }

  /** Signed division and remainder in a width whose least value is `min`. */
  function SDiv(min: int, x: int, y: int): int
  {
    if y == 0 then 0 else if x == min && y == -1 then min else CDiv(x, y)
  }

  function SMod(min: int, x: int, y: int): int
  {
    if y == 0 then x else if x == min && y == -1 then 0 else CMod(x, y)
  }

  function DivValue(wide: bool, offset: i16, a: u64, b: u64): u64
  {
    var x, y := ToU32(a), ToU32(b);
    if offset == 0 then (if wide then UDiv(a, b) else UDiv(x, y))
    else if offset == 1 then
      if wide then ToU64(SDiv(-0x8000_0000_0000_0000, Signed64(a), Signed64(b)))
      else ToU32(SDiv(-0x8000_0000, Signed32(x), Signed32(y)))
    else if wide then a
    else x
  }

  function ModValue(wide: bool, offset: i16, a: u64, b: u64): u64
  {
    var x, y := ToU32(a), ToU32(b);
    if offset == 0 then (if wide then UMod(a, b) else UMod(x, y))
    else if offset == 1 then
      if wide then ToU64(SMod(-0x8000_0000_0000_0000, Signed64(a), Signed64(b)))
      else ToU32(SMod(-0x8000_0000, Signed32(x), Signed32(y)))
    else if wide then a
    else x
  }

  /** Sign-extending moves (8, 16 and 32 bits); any other offset is a plain move. */
  function MovValue(wide: bool, offset: i16, b: u64): u64
  {
    var v := if offset == 8 then ToU64(Signed8(b % 0x100))
             else if offset == 16 then ToU64(Signed16(ToU16(b)))
             else if offset == 32 && wide then ToU64(Signed32(ToU32(b)))
             else b;
    if wide then v else ToU32(v)
  }

  function ShiftAmount(wide: bool, b: u64): nat { if wide then b % 64 else b % 32 }

  /** The result of an ALU operation on destination `a` and operand `b` (a register, or the sign-extended immediate). */
  function AluValue(wide: bool, alu: AluOp, fromReg: bool, offset: i16, a: u64, b: u64): u64
  {
    match alu
    case OpAdd => if wide then ToU64(a + b) else ToU32(a + b)
    case OpSub => if wide then ToU64(a - b) else ToU32(a - b)
    case OpMul => if wide then ToU64(a * b) else ToU32(a * b)
    case OpDiv => DivValue(wide, offset, a, b)
    case OpMod => ModValue(wide, offset, a, b)
    case OpOr => if wide then Bitwise64(Or, a, b) else Bitwise32(Or, ToU32(a), ToU32(b))
    case OpAnd => if wide then Bitwise64(And, a, b) else Bitwise32(And, ToU32(a), ToU32(b))
    case OpXor => if wide then Bitwise64(Xor, a, b) else Bitwise32(Xor, ToU32(a), ToU32(b))
    case OpLsh => var k := Pow2(ShiftAmount(wide, b)); if wide then ToU64(a * k) else ToU32(ToU32(a) * k)
    case OpRsh => var k := Pow2(ShiftAmount(wide, b)); if wide then ShiftRight(a, k) else ShiftRight(ToU32(a), k)
    case OpArsh =>
      var k := Pow2(ShiftAmount(wide, b));
      if wide then ToU64(Signed64(a) / k) else ToU32(Signed32(ToU32(a)) / k)
    case OpNeg => if wide then ToU64(0 - a) else ToU32(0 - a)
    case OpMov => MovValue(wide, if fromReg then offset else 0, b)
  }

  function ShiftRight(a: nat, k: nat): (r: nat)
    requires k >= 1
    ensures r <= a
  {
    DivShrinks(a, k);
    a / k
  }

  lemma DigitBound(d: nat, p: nat)
    requires d < 256
    ensures d * p + p <= 256 * p
  {
    assert (255 - d) * p >= 0;
  }

  function SwapBytes(n: nat, x: nat): (r: nat)
    ensures r < Pow2(8 * n)
  {
    if n == 0 then 0
    else
      SwapBound(n, x % 256, SwapBytes(n - 1, x / 256));
      (x % 256) * Pow2(8 * (n - 1)) + SwapBytes(n - 1, x / 256)
  }

  lemma SwapBound(n: nat, d: nat, rest: nat)
    requires n > 0 && d < 256 && rest < Pow2(8 * (n - 1))
    ensures 0 <= d * Pow2(8 * (n - 1)) + rest < Pow2(8 * n)
  {
    hide Pow2;
    var k := 8 * (n - 1);
    Pow2Add(8, k);
    Pow2Widths();
    assert Pow2(8 * n) == Pow2(8 + k);
    DigitAndRest(d, Pow2(k), rest);
  }

  lemma DigitAndRest(d: nat, p: nat, rest: nat)
    requires d < 256 && rest < p
    ensures 0 <= d * p + rest < 256 * p
  {
    DigitBound(d, p);
    assert d * p >= 0;
  }

  /** Byte-order conversions on a little-endian host; an immediate other than 16, 32 or 64 leaves the value alone. */
  function EndValue(kind: EndKind, imm: i32, a: u64): u64
  {
    Pow2Widths();
    if imm == 16 then (if kind == ToLE then ToU16(a) else SwapBytes(2, ToU16(a)))
    else if imm == 32 then (if kind == ToLE then ToU32(a) else SwapBytes(4, ToU32(a)))
    else if imm == 64 then (if kind == ToLE then a else SwapBytes(8, a))
    else a
  }

  function CompareU(cond: Cond, x: nat, y: nat): bool
  {
    match cond
    case JEQ => x == y case JNE => x != y
    case JGT => x > y case JGE => x >= y case JLT => x < y case JLE => x <= y
    case _ => false
  }

  function CompareS(cond: Cond, x: int, y: int): bool
  {
    match cond
    case JSGT => x > y case JSGE => x >= y case JSLT => x < y case JSLE => x <= y
    case _ => false
  }

  /** Whether a conditional jump is taken on destination `a` and operand `b`. */
  function Taken(wide: bool, cond: Cond, a: u64, b: u64): bool
  {
    var x, y := ToU32(a), ToU32(b);
    if cond == JSET then (if wide then Bitwise64(And, a, b) != 0 else Bitwise32(And, x, y) != 0)
    else if cond in {JSGT, JSGE, JSLT, JSLE} then
      if wide then CompareS(cond, Signed64(a), Signed64(b)) else CompareS(cond, Signed32(x), Signed32(y))
    else if wide then CompareU(cond, a, b)
    else CompareU(cond, x, y)
  }

  // ---------------------------------------------------------------- byte memory

  type Memory = map<u64, u8>

  function ByteAt(m: Memory, a: int): u8 { var k := ToU64(a); if k in m then m[k] else 0 }

  /** Little-endian load and store of `n` bytes; addresses wrap at 2^64. */
  function Load(m: Memory, a: int, n: nat): (r: nat)
    ensures r < Pow2(8 * n)
    decreases n
  {
    if n == 0 then 0
    else
      Pow2Add(8, 8 * (n - 1));
      ByteAt(m, a) + 256 * Load(m, a + 1, n - 1)
  }

  function Store(m: Memory, a: int, v: nat, n: nat): Memory
    decreases n
  {
    if n == 0 then m else Store(m[ToU64(a) := v % 256], a + 1, v / 256, n - 1)
  }

  function LoadWord(m: Memory, a: u64, n: nat): u64
    requires n <= 8
  {
    Pow2Monotone(8 * n, 64);
    Pow2Widths();
    Load(m, a, n)
  }

  /** `ubpf_mem_load_sx`. */
  function LoadSigned(m: Memory, a: u64, n: nat): u64
    requires n <= 8
  {
    var v := LoadWord(m, a, n);
    if n == 1 then ToU64(Signed8(v % 0x100))
    else if n == 2 then ToU64(Signed16(ToU16(v)))
    else ToU64(Signed32(ToU32(v)))
  }

  lemma {:induction false} Pow2Monotone(a: nat, b: nat)
    requires a <= b
    ensures Pow2(a) <= Pow2(b)
  {
    if a < b {
      Pow2Monotone(a, b - 1);
    }
  }

  /** A store changes only the bytes it names. */
  lemma {:induction false} StoreFrame(m: Memory, a: int, v: nat, n: nat, x: int)
    requires 0 <= a && a + n <= 0x1_0000_0000_0000_0000 && 0 <= x < 0x1_0000_0000_0000_0000
    requires x < a || a + n <= x
    ensures ByteAt(Store(m, a, v, n), x) == ByteAt(m, x)
    decreases n
  {
    if n > 0 {
      StoreFrame(m[ToU64(a) := v % 256], a + 1, v / 256, n - 1, x);
    }
  }

  lemma {:induction false} LoadDepends(m: Memory, m': Memory, a: int, n: nat)
    requires forall x :: a <= x < a + n ==> ByteAt(m, x) == ByteAt(m', x)
    ensures Load(m, a, n) == Load(m', a, n)
    decreases n
  {
    if n > 0 {
      LoadDepends(m, m', a + 1, n - 1);
    }
  }

  lemma LoadOutsideStore(m: Memory, a: int, v: nat, n: nat, b: int, k: nat)
    requires 0 <= a && a + n <= 0x1_0000_0000_0000_0000 && 0 <= b && b + k <= 0x1_0000_0000_0000_0000
    requires b + k <= a || a + n <= b
    ensures Load(Store(m, a, v, n), b, k) == Load(m, b, k)
  {
    forall x | b <= x < b + k
      ensures ByteAt(Store(m, a, v, n), x) == ByteAt(m, x)
    {
      StoreFrame(m, a, v, n, x);
    }
    LoadDepends(Store(m, a, v, n), m, b, k);
  }

  lemma ShiftedByte(v: nat, n: nat)
    requires n > 0 && v < Pow2(8 * n)
    ensures v / 256 < Pow2(8 * (n - 1))
  {
    Pow2Add(8, 8 * (n - 1));
    Pow2Widths();
  }

  /** Reading back what was stored. */
  lemma {:induction false} LoadStored(m: Memory, a: int, v: nat, n: nat)
    requires 0 <= a && a + n <= 0x1_0000_0000_0000_0000 && v < Pow2(8 * n)
    ensures Load(Store(m, a, v, n), a, n) == v
    decreases n
  {
    if n > 0 {
      var m1 := m[ToU64(a) := v % 256];
      ShiftedByte(v, n);
      LoadStored(m1, a + 1, v / 256, n - 1);
      StoreFrame(m1, a + 1, v / 256, n - 1, a);
      assert ByteAt(m1, a) == v % 256;
    }
  }

  // ---------------------------------------------------------------- atomics

  /** `inst.imm & 0xf0`, which selects the atomic operation, and the fetch bit. */
  function AtomicCode(imm: i32): nat { (imm / 16) % 16 }

  predicate AtomicFetch(imm: i32) { imm % 2 == 1 }

  predicate AtomicKnown(code: nat) { code in {0, 4, 5, 10, 14, 15} }

  /** The word an atomic operation leaves in memory where it found `was`. */
  function AtomicValue(wide: bool, code: nat, was: u64, val: u64, r0: u64): u64
  {
    var x, y := ToU32(was), ToU32(val);
    match code
    case 0 => if wide then ToU64(was + val) else ToU32(x + y)
    case 4 => if wide then Bitwise64(Or, was, val) else Bitwise32(Or, x, y)
    case 5 => if wide then Bitwise64(And, was, val) else Bitwise32(And, x, y)
    case 10 => if wide then Bitwise64(Xor, was, val) else Bitwise32(Xor, x, y)
    case 14 => if wide then val else y
    case _ => if wide then (if was == r0 then val else was) else (if x == ToU32(r0) then y else x)
  }
}
