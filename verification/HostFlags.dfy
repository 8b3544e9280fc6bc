/** Condition flags of a host compare, and the lowering of eBPF conditional jumps to host conditions. */
module HostFlags {
  import opened Words
  import opened Isa
  import opened Semantics

  /** Zero, carry-out of the subtraction (borrow), sign and signed overflow. */
  datatype Flags = Flags(zero: bool, borrow: bool, sign: bool, overflow: bool)

  function Modulus(wide: bool): int { if wide then 0x1_0000_0000_0000_0000 else 0x1_0000_0000 }

  function Low(wide: bool, a: u64): u64 { if wide then a else ToU32(a) }

  function SignedLow(wide: bool, a: u64): int { if wide then Signed64(a) else Signed32(ToU32(a)) }

  /** Flags of `a - b` in the given width. */
  function SubFlags(wide: bool, a: u64, b: u64): Flags
  {
    var x, y, d := Low(wide, a), Low(wide, b), SignedLow(wide, a) - SignedLow(wide, b);
    var half := Modulus(wide) / 2;
    Flags(x == y, x < y, (x - y) % Modulus(wide) >= half, d < -half || d >= half)
  }

  /** Flags of a bitwise result. */
  function LogicFlags(wide: bool, r: u64): Flags
  {
    Flags(Low(wide, r) == 0, false, Low(wide, r) >= Modulus(wide) / 2, false)
  }

  /** Flags of a bitwise AND in the given width. */
  function TestFlags(wide: bool, a: u64, b: u64): Flags
  {
    LogicFlags(wide, if wide then Bitwise64(And, a, b) else Bitwise32(And, ToU32(a), ToU32(b)))
  }

  /** The condition of each jump as a test of the flags of a compare (or AND, for JSET). */
  predicate ConditionHolds(cond: Cond, f: Flags)
  {
    match cond
    case JEQ => f.zero
    case JNE => !f.zero
    case JSET => !f.zero
    case JGT => !f.borrow && !f.zero
    case JGE => !f.borrow
    case JLT => f.borrow
    case JLE => f.borrow || f.zero
    case JSGT => !f.zero && f.sign == f.overflow
    case JSGE => f.sign == f.overflow
    case JSLT => f.sign != f.overflow
    case JSLE => f.zero || f.sign != f.overflow
  }

  lemma SignedLess(wide: bool, a: u64, b: u64)
    ensures var f := SubFlags(wide, a, b);
      && (f.sign != f.overflow <==> SignedLow(wide, a) < SignedLow(wide, b))
      && (f.zero <==> SignedLow(wide, a) == SignedLow(wide, b))
  {
    var w, x, y := Modulus(wide), Low(wide, a), Low(wide, b);
    DifferenceWraps(x, y, w);
    SignedFromLow(wide, a);
    SignedFromLow(wide, b);
    hide Low, SignedLow;
  }

  lemma DifferenceWraps(x: int, y: int, w: int)
    requires 0 <= x < w && 0 <= y < w
    ensures (x - y) % w == if x >= y then x - y else x - y + w
  {
    if x < y {
      ModUnique(x - y, w, -1, x - y + w);
    }
  }

  lemma SignedFromLow(wide: bool, a: u64)
    ensures 0 <= Low(wide, a) < Modulus(wide)
    ensures SignedLow(wide, a) == if Low(wide, a) < Modulus(wide) / 2 then Low(wide, a) else Low(wide, a) - Modulus(wide)
  {
  }

  /** The opcode byte the x86-64 back end emits for each jump, behind 0x0f. */
  function ToJcc(cond: Cond): nat
  {
    match cond
    case JEQ => 0x84
    case JNE => 0x85
    case JSET => 0x85
    case JGT => 0x87
    case JGE => 0x83
    case JLT => 0x82
    case JLE => 0x86
    case JSGT => 0x8f
    case JSGE => 0x8d
    case JSLT => 0x8c
    case JSLE => 0x8e
  }

  /** What an x86-64 processor tests for a jump opcode: the low bit inverts. The parity flag does not occur. */
  predicate JccHolds(opcode: nat, f: Flags)
  {
    var test := match opcode / 2 % 8
                case 0 => f.overflow
                case 1 => f.borrow
                case 2 => f.zero
                case 3 => f.borrow || f.zero
                case 4 => f.sign
                case 6 => f.sign != f.overflow
                case 7 => f.zero || f.sign != f.overflow
                case _ => false;
    test != (opcode % 2 == 1)
  }

  /** A compare (AND for JSET) followed by the condition holds exactly when the eBPF jump is taken. */
  lemma ConditionAgrees(wide: bool, cond: Cond, a: u64, b: u64)
    ensures ConditionHolds(cond, if cond == JSET then TestFlags(wide, a, b) else SubFlags(wide, a, b))
            <==> Taken(wide, cond, a, b)
  {
    SignedLess(wide, a, b);
    hide Bitwise64, Bitwise32;
  }

  /** A compare (AND for JSET) followed by the emitted x86-64 jump branches exactly when the eBPF jump is taken. */
  lemma LoweredJumpAgrees(wide: bool, cond: Cond, a: u64, b: u64)
    ensures JccHolds(ToJcc(cond), if cond == JSET then TestFlags(wide, a, b) else SubFlags(wide, a, b))
            <==> Taken(wide, cond, a, b)
  {
    hide SubFlags, TestFlags, Taken;
    ConditionAgrees(wide, cond, a, b);
  }
}
