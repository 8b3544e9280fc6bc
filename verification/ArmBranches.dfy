/** Branch fix-up in the ARM64 back end: displacements are ORed into the zero field of an emitted branch. */
module ArmBranches {
  import opened Words

  /** Unconditional branches and calls have a 26-bit field at bit 0, conditional ones a 19-bit field at bit 5. */
  datatype Form = Unconditional | Conditional

  function FieldBits(form: Form): nat { if form.Conditional? then 19 else 26 }

  function FieldAt(form: Form): nat { if form.Conditional? then 5 else 0 }

  /** `resolve_branch_immediate`: the word displacement, cut to the field, ORed into the instruction. */
  function Fixed(form: Form, instr: u32, rel: int): u32
  {
    Pow2Fields();
    var field := (rel / 4) % Pow2(FieldBits(form));
    Bitwise32(Or, instr, ToU32(Pow2(FieldAt(form)) * field))
  }

  function Field(form: Form, instr: u32): nat { instr / Pow2(FieldAt(form)) % Pow2(FieldBits(form)) }

  /** The byte displacement the processor takes from the instruction. */
  function Displacement(form: Form, instr: u32): int
  {
    var f, half := Field(form, instr), Pow2(FieldBits(form) - 1);
    4 * if f >= half then f - 2 * half else f
  }

  lemma Pow2Fields()
    ensures Pow2(5) == 32 && Pow2(18) == 0x4_0000 && Pow2(19) == 0x8_0000 && Pow2(25) == 0x200_0000 && Pow2(26) == 0x400_0000
    ensures Pow2(0) == 1
  {
    Pow2Widths();
    var n: nat := 16;
    assert Pow2(n + 1) == 0x2_0000 && Pow2(n + 2) == 0x4_0000 && Pow2(n + 3) == 0x8_0000;
    var k: nat := 24;
    Pow2Add(16, 8);
    assert Pow2(k) == 0x100_0000 && Pow2(k + 1) == 0x200_0000 && Pow2(k + 2) == 0x400_0000;
    assert Pow2(5) == 32;
  }

  /** `b` shifted left by `k` bits. */
  function Shifted(k: nat, b: nat): (r: nat)
  {
    TimesNat(Pow2(k), b);
    Pow2(k) * b
  }

  /** The bits of `a` from bit `k` up, and those below. */
  function Top(k: nat, a: nat): (r: nat)
  {
    QuotientNat(a, Pow2(k));
    a / Pow2(k)
  }

  function Bottom(k: nat, a: nat): (r: nat) { a % Pow2(k) }

  lemma QuotientNat(a: nat, p: nat)
    requires p > 0
    ensures a / p >= 0
  {
  }

  lemma TimesNat(p: nat, b: nat)
    ensures p * b >= 0
  {
  }

  // ---------------------------------------------------------------- OR of disjoint bits

  lemma {:induction false} OrNothing(n: nat, a: nat)
    requires a < Pow2(n)
    ensures Bits(Or, n, a, 0) == a
  {
    if n > 0 {
      OrNothing(n - 1, a / 2);
    }
  }

  /** Low bits below the second operand's are kept. */
  lemma {:induction false} OrAbove(n: nat, k: nat, a: nat, b: nat)
    requires k <= n
    ensures Bits(Or, n, a, Shifted(k, b)) == Bottom(k, a) + Shifted(k, Bits(Or, n - k, Top(k, a), b))
    decreases k
  {
    hide Bits, Shifted, Top, Bottom;
    if k == 0 {
      ShiftByNone(b);
      ShiftByNone(Bits(Or, n, a, b));
      SplitAtNone(a);
    } else {
      OrAbove(n - 1, k - 1, a / 2, b);
      SplitHalf(k, a);
      TwiceShifted(k, b);
      TwiceShifted(k, Bits(Or, n - k, Top(k, a), b));
      OrDoubled(n, a, Shifted(k - 1, b));
    }
  }

  lemma SplitAtNone(a: nat)
    ensures Top(0, a) == a && Bottom(0, a) == 0
  {
  }

  lemma SplitHalf(k: nat, a: nat)
    requires k > 0
    ensures Top(k, a) == Top(k - 1, a / 2) && Bottom(k, a) == a % 2 + 2 * Bottom(k - 1, a / 2)
  {
    ModHalf(a, Pow2(k - 1));
    HalfDivides(a, Pow2(k - 1));
  }

  lemma ShiftByNone(b: nat)
    ensures Shifted(0, b) == b
  {
  }

  lemma TwiceShifted(k: nat, b: nat)
    requires k > 0
    ensures Shifted(k, b) == 2 * Shifted(k - 1, b)
  {
    TwiceTimes(Pow2(k - 1), b);
  }

  lemma TwiceTimes(p: nat, b: nat)
    ensures (2 * p) * b == 2 * (p * b)
  {
  }

  lemma OrDoubled(n: nat, a: nat, b: nat)
    requires n > 0
    ensures Bits(Or, n, a, 2 * b) == a % 2 + 2 * Bits(Or, n - 1, a / 2, b)
  {
    HalfOfDigit(0, b);
  }

  lemma HalfDivides(a: nat, p: nat)
    requires p > 0
    ensures a / (2 * p) == (a / 2) / p
  {
    var q, r := (a / 2) / p, (a / 2) % p;
    assert a / 2 == q * p + r;
    assert a == q * (2 * p) + (2 * r + a % 2);
    ModUnique(a, 2 * p, q, 2 * r + a % 2);
  }

  /** High bits above the second operand's are kept. */
  lemma {:induction false} OrBelow(n: nat, k: nat, h: nat, b: nat)
    requires k <= n && b < Pow2(k) && h < Pow2(n - k)
    ensures Bits(Or, n, Shifted(k, h), b) == Shifted(k, h) + b
    decreases k
  {
    if k == 0 {
      ShiftByNone(h);
      OrNothing(n, h);
    } else {
      TwiceShifted(k, h);
      HalfOfDigit(0, Shifted(k - 1, h));
      OrBelow(n - 1, k - 1, h, b / 2);
    }
  }

  // ---------------------------------------------------------------- what a fixed branch reaches

  /** A freshly emitted branch: its field is zero. */
  predicate Unresolved(form: Form, instr: u32) { Field(form, instr) == 0 }

  /** Fixing an unresolved branch puts the cut displacement in the field and keeps the other bits. */
  lemma FixedField(form: Form, instr: u32, rel: int)
    requires Unresolved(form, instr)
    ensures var f := (rel / 4) % Pow2(FieldBits(form));
      Fixed(form, instr, rel) == instr + Pow2(FieldAt(form)) * f && Field(form, Fixed(form, instr, rel)) == f
  {
    hide Bits, Pow2, Shifted, Top, Bottom, Fixed;
    var at, n := FieldAt(form), FieldBits(form);
    var f := CutField(form, rel);
    var top := Top(at, instr) / Pow2(n);
    FieldOfWord(form, instr);
    FixedIs(form, instr, rel);
    OrAbove(32, at, instr, f);
    FitsAbove(form, top, instr);
    OrBelow(32 - at, n, top, f);
    Reassembled(at, n, top, f, instr);
  }

  /** The displacement in words, cut to the field. */
  function CutField(form: Form, rel: int): (f: nat)
    ensures f < Pow2(FieldBits(form)) && f == (rel / 4) % Pow2(FieldBits(form))
  {
    CutBound(rel / 4, Pow2(FieldBits(form)));
    (rel / 4) % Pow2(FieldBits(form))
  }

  lemma CutBound(q: int, p: nat)
    requires p > 0
    ensures 0 <= q % p < p
  {
  }

  lemma FixedIs(form: Form, instr: u32, rel: int)
    ensures Fixed(form, instr, rel) == Bits(Or, 32, instr, Shifted(FieldAt(form), CutField(form, rel)))
  {
    hide Bits, Pow2, ToU32;
    FieldFits(form, CutField(form, rel));
  }

  /** The word above an empty field is a multiple of the field's size. */
  lemma FieldOfWord(form: Form, instr: u32)
    requires Unresolved(form, instr)
    ensures var at, n := FieldAt(form), FieldBits(form);
      Top(at, instr) / Pow2(n) >= 0 && Top(at, instr) == Shifted(n, Top(at, instr) / Pow2(n))
  {
    hide Pow2;
    var t, w := Top(FieldAt(form), instr), Pow2(FieldBits(form));
    QuotientNat(t, w);
    assert t == w * (t / w) + t % w;
  }

  /** Bottom bits, field and top bits put together again. */
  lemma Reassembled(at: nat, n: nat, top: nat, f: nat, instr: nat)
    requires f < Pow2(n) && Top(at, instr) == Shifted(n, top)
    ensures Bottom(at, instr) + Shifted(at, Shifted(n, top) + f) == instr + Pow2(at) * f
    ensures (instr + Pow2(at) * f) / Pow2(at) % Pow2(n) == f
  {
    hide Pow2;
    Reassemble(Pow2(at), Pow2(n), top, Bottom(at, instr), f, instr);
  }

  lemma FieldFits(form: Form, f: nat)
    requires f < Pow2(FieldBits(form))
    ensures 0 <= Pow2(FieldAt(form)) * f < 0x1_0000_0000 && ToU32(Pow2(FieldAt(form)) * f) == Pow2(FieldAt(form)) * f
  {
    hide Pow2;
    Pow2Fields();
  }

  lemma Reassemble(s: nat, w: nat, top: nat, low: nat, f: nat, instr: nat)
    requires s > 0 && low < s && f < w && instr / s == w * top && instr % s == low
    ensures low + s * (w * top + f) == instr + s * f
    ensures (instr + s * f) / s % w == f
  {
    assert instr == s * (w * top) + low;
    assert s * (w * top + f) == s * (w * top) + s * f;
    ModUnique(instr + s * f, s, w * top + f, low);
    ModUnique(w * top + f, w, top, f);
  }

  lemma FitsAbove(form: Form, top: nat, instr: u32)
    requires top == Top(FieldAt(form), instr) / Pow2(FieldBits(form))
    ensures top < Pow2(32 - FieldAt(form) - FieldBits(form))
  {
    Pow2Fields();
    assert Pow2(8) == 256 && Pow2(6) == 64;
    hide Pow2;
  }

  /** Displacements the field can hold: 27 bits of bytes unconditionally, 20 bits conditionally, signed. */
  predicate InRange(form: Form, rel: int) { -2 * Pow2(FieldBits(form)) <= rel < 2 * Pow2(FieldBits(form)) }

  /** What the translator's own assertion lets through, twice as far either way. */
  predicate Asserted(form: Form, rel: int) { -4 * Pow2(FieldBits(form)) <= rel < 4 * Pow2(FieldBits(form)) }

  /** A fixed branch goes where it should if and only if the displacement is in range. */
  lemma BranchReaches(form: Form, instr: u32, rel: int)
    requires Unresolved(form, instr) && rel % 4 == 0
    ensures Displacement(form, Fixed(form, instr, rel)) == rel <==> InRange(form, rel)
  {
    FixedField(form, instr, rel);
    Pow2Fields();
    var w := Pow2(FieldBits(form));
    assert w == 2 * Pow2(FieldBits(form) - 1);
    hide Pow2, Fixed, Field;
    var q, half := rel / 4, Pow2(FieldBits(form) - 1);
    if -half <= q < half {
      ModUnique(q, w, if q < 0 then -1 else 0, if q < 0 then q + w else q);
    }
  }

  /** The assertion is too weak: this displacement passes it and the branch goes elsewhere. */
  lemma AssertionTooWeak(form: Form, instr: u32)
    requires Unresolved(form, instr)
    ensures var rel := 2 * Pow2(FieldBits(form));
      Asserted(form, rel) && Displacement(form, Fixed(form, instr, rel)) != rel
  {
    hide Pow2, Fixed, Displacement;
    Pow2Fields();
    BranchReaches(form, instr, 2 * Pow2(FieldBits(form)));
  }
}
