/**
  What the result of every arithmetic operation is, told by the digits of the opcode byte and stated on numbers, bits and
  signs alone, so that each result is determined.
  */
module ArithmeticLaws {
  import opened Words
  import opened Isa
  import opened Semantics

  // ---------------------------------------------------------------- division

  function Abs(x: int): nat { if x < 0 then -x else x }

  /** Quotient and remainder of a division that rounds toward zero: the remainder is small and has the dividend's sign. */
  predicate Truncated(x: int, y: int, q: int, r: int)
  {
    x == y * q + r && Abs(r) < Abs(y) && (r == 0 || (r < 0 <==> x < 0))
  }

  lemma CDivTruncates(x: int, y: int)
    requires y != 0
    ensures Truncated(x, y, CDiv(x, y), CMod(x, y))
  {
    var z: int := Abs(x);
    var q := z / y;
    Euclid(z, y);
    NegatedFactor(y, q);
    if x >= 0 {
      assert CDiv(x, y) == q && CMod(x, y) == x - y * q;
    } else {
      assert CDiv(x, y) == -q && CMod(x, y) == x - y * -q;
    }
  }

  lemma Euclid(z: int, y: int)
    requires y != 0
    ensures z == y * (z / y) + z % y && 0 <= z % y < Abs(y)
  {
  }

  lemma NegatedFactor(y: int, q: int)
    ensures y * -q == -(y * q) && -y * q == -(y * q)
  {
  }

  /** There is only one such pair. */
  lemma TruncatedUnique(x: int, y: int, q: int, r: int, q': int, r': int)
    requires Truncated(x, y, q, r) && Truncated(x, y, q', r')
    ensures q == q' && r == r'
  {
    var d: int := Abs(y);
    assert y * q == (if y > 0 then d * q else -(d * q)) by { NegatedFactor(d, q); }
    assert y * q' == (if y > 0 then d * q' else -(d * q')) by { NegatedFactor(d, q'); }
    assert (q - q') * d == d * q - d * q';
    SmallMultiple(q - q', d, if y > 0 then r' - r else r - r');
  }

  // ---------------------------------------------------------------- bits

  function BitOf(x: nat, k: nat): (b: nat)
    ensures b < 2
    decreases k
  {
    if k == 0 then x % 2 else BitOf(x / 2, k - 1)
  }

  lemma {:induction false} BitsAt(op: BitOp, n: nat, a: nat, b: nat, k: nat)
    requires k < n
    ensures BitOf(Bits(op, n, a, b), k) == Bit(op, BitOf(a, k), BitOf(b, k))
    decreases n
  {
    HalfOfDigit(Bit(op, a % 2, b % 2), Bits(op, n - 1, a / 2, b / 2));
    if k > 0 {
      BitsAt(op, n - 1, a / 2, b / 2, k - 1);
    }
  }

  lemma {:induction false} SameBits(n: nat, x: nat, y: nat)
    requires x < Pow2(n) && y < Pow2(n) && forall k :: 0 <= k < n ==> BitOf(x, k) == BitOf(y, k)
    ensures x == y
    decreases n
  {
    if n > 0 {
      assert BitOf(x, 0) == BitOf(y, 0);
      forall k | 0 <= k < n - 1
        ensures BitOf(x / 2, k) == BitOf(y / 2, k)
      {
        assert BitOf(x, k + 1) == BitOf(y, k + 1);
      }
      SameBits(n - 1, x / 2, y / 2);
    }
  }

  // ---------------------------------------------------------------- the results

  function Width(wide: bool): nat { if wide then 64 else 32 }

  function Span(wide: bool): (w: int)
    ensures w > 0
  {
    if wide then 0x1_0000_0000_0000_0000 else 0x1_0000_0000
  }

  /** The two's complement reading of a number below `w`. */
  function TwosComplement(w: int, u: nat): int { if 2 * u < w then u else u - w }

  predicate Congruent(x: int, y: int, w: int)
    requires w > 0
  {
    (x - y) % w == 0
  }

  /** The result of a division (`mod` false) or modulo; what the instruction's offset field says selects the signed form. */
  ghost predicate Divides(mod: bool, wide: bool, offset: i16, a: nat, b: nat, r: nat)
  {
    var x, y := TwosComplement(Span(wide), a), TwosComplement(Span(wide), b);
    if offset == 0 then
      if b == 0 then r == (if mod then a else 0)
      else if mod then r < b && Congruent(a, r, b)
      else b * r <= a < b * r + b
    else if offset == 1 then
      if b == 0 then r == (if mod then a else 0)
      else exists q, e :: Truncated(x, y, q, e) && Congruent(r, if mod then e else q, Span(wide))
    else r == a
  }

  /** The value a sign-extending move leaves for the low bits of `b`, and the plain copy for any other offset. */
  predicate Moves(wide: bool, offset: int, b: nat, r: nat)
  {
    if offset == 8 then Congruent(r, TwosComplement(0x100, b % 0x100), Span(wide))
    else if offset == 16 then Congruent(r, TwosComplement(0x1_0000, b % 0x1_0000), Span(wide))
    else if offset == 32 && wide then Congruent(r, TwosComplement(0x1_0000_0000, b % 0x1_0000_0000), Span(wide))
    else r == b
  }

  /**
    The result `r` of the operation with code `hi`, the upper half of the opcode byte, on operands `a` and `b` of the given
    width (section 4.1 of RFC 9669).
    */
  ghost predicate Results(hi: nat, wide: bool, fromReg: bool, offset: i16, a: nat, b: nat, r: nat)
  {
    var w, n := Span(wide), Width(wide);
    var k := Pow2(b % n);
    && r < w
    && (hi == 0 ==> Congruent(r, a + b, w))
    && (hi == 1 ==> Congruent(r, a - b, w))
    && (hi == 2 ==> Congruent(r, a * b, w))
    && (hi == 3 ==> Divides(false, wide, offset, a, b, r))
    && (hi == 4 ==> forall i :: 0 <= i < n ==> (BitOf(r, i) == 1 <==> BitOf(a, i) == 1 || BitOf(b, i) == 1))
    && (hi == 5 ==> forall i :: 0 <= i < n ==> (BitOf(r, i) == 1 <==> BitOf(a, i) == 1 && BitOf(b, i) == 1))
    && (hi == 6 ==> Congruent(r, a * k, w))
    && (hi == 7 ==> k * r <= a < k * r + k)
    && (hi == 8 ==> Congruent(r, 0 - a, w))
    && (hi == 9 ==> Divides(true, wide, offset, a, b, r))
    && (hi == 10 ==> forall i :: 0 <= i < n ==> (BitOf(r, i) == 1 <==> BitOf(a, i) != BitOf(b, i)))
    && (hi == 11 ==> Moves(wide, if fromReg then offset else 0, b, r))
    && (hi == 12 ==> exists z :: k * z <= TwosComplement(w, a) < k * z + k && Congruent(r, z, w))
  }

  // ---------------------------------------------------------------- each result is determined

  lemma CongruentUnique(r: nat, r': nat, z: int, w: int)
    requires r < w && r' < w && Congruent(r, z, w) && Congruent(r', z, w)
    ensures r == r'
  {
    var p, q := (r - z) / w, (r' - z) / w;
    assert r - z == p * w && r' - z == q * w;
    assert (p - q) * w == p * w - q * w;
    SmallMultiple(p - q, w, r - r');
  }

  lemma QuotientUnique(k: nat, x: int, z: int, z': int)
    requires k > 0 && k * z <= x < k * z + k && k * z' <= x < k * z' + k
    ensures z == z'
  {
    assert (z - z') * k == k * z - k * z';
    SmallMultiple(z - z', k, k * z - k * z');
  }

  lemma RemainderUnique(a: int, b: nat, r: nat, r': nat)
    requires r < b && r' < b && Congruent(a, r, b) && Congruent(a, r', b)
    ensures r == r'
  {
    var p, q := (a - r) / b, (a - r') / b;
    assert a - r == p * b && a - r' == q * b;
    assert (p - q) * b == p * b - q * b;
    SmallMultiple(p - q, b, r' - r);
  }

  lemma DividesUnique(mod: bool, wide: bool, offset: i16, a: nat, b: nat, r: nat, r': nat)
    requires r < Span(wide) && r' < Span(wide)
    requires Divides(mod, wide, offset, a, b, r) && Divides(mod, wide, offset, a, b, r')
    ensures r == r'
  {
    hide Truncated, Congruent;
    var w := Span(wide);
    var x, y := TwosComplement(w, a), TwosComplement(w, b);
    if offset == 0 && b != 0 {
      if mod {
        RemainderUnique(a, b, r, r');
      } else {
        QuotientUnique(b, a, r, r');
      }
    } else if offset == 1 && b != 0 {
      var q, e :| Truncated(x, y, q, e) && Congruent(r, if mod then e else q, w);
      var q', e' :| Truncated(x, y, q', e') && Congruent(r', if mod then e' else q', w);
      TruncatedUnique(x, y, q, e, q', e');
      CongruentUnique(r, r', if mod then e else q, w);
    }
  }

  lemma SpanIsPow2(wide: bool)
    ensures Pow2(Width(wide)) == Span(wide)
  {
    Pow2Widths();
    hide Pow2;
  }

  lemma BitwiseUnique(wide: bool, r: nat, r': nat)
    requires r < Span(wide) && r' < Span(wide) && forall i :: 0 <= i < Width(wide) ==> (BitOf(r, i) == 1 <==> BitOf(r', i) == 1)
    ensures r == r'
  {
    SpanIsPow2(wide);
    forall i | 0 <= i < Width(wide)
      ensures BitOf(r, i) == BitOf(r', i)
    {
      assert BitOf(r, i) == 1 <==> BitOf(r', i) == 1;
    }
    SameBits(Width(wide), r, r');
  }

  lemma ShiftUnique(wide: bool, k: nat, x: int, r: nat, r': nat)
    requires k > 0 && r < Span(wide) && r' < Span(wide)
    requires exists z :: k * z <= x < k * z + k && Congruent(r, z, Span(wide))
    requires exists z :: k * z <= x < k * z + k && Congruent(r', z, Span(wide))
    ensures r == r'
  {
    hide Congruent, Span;
    var z :| k * z <= x < k * z + k && Congruent(r, z, Span(wide));
    var z' :| k * z' <= x < k * z' + k && Congruent(r', z', Span(wide));
    QuotientUnique(k, x, z, z');
    CongruentUnique(r, r', z, Span(wide));
  }

  lemma MovesUnique(wide: bool, offset: int, b: nat, r: nat, r': nat)
    requires r < Span(wide) && r' < Span(wide) && Moves(wide, offset, b, r) && Moves(wide, offset, b, r')
    ensures r == r'
  {
    hide Congruent, TwosComplement;
    var bits := if offset == 8 then 0x100 else if offset == 16 then 0x1_0000 else 0x1_0000_0000;
    if offset == 8 || offset == 16 || (offset == 32 && wide) {
      CongruentUnique(r, r', TwosComplement(bits, b % bits), Span(wide));
    }
  }

  /** The law leaves no choice: it determines the result of every operation. */
  lemma ResultsUnique(hi: nat, wide: bool, fromReg: bool, offset: i16, a: nat, b: nat, r: nat, r': nat)
    requires hi <= 12 && Results(hi, wide, fromReg, offset, a, b, r) && Results(hi, wide, fromReg, offset, a, b, r')
    ensures r == r'
  {
    hide Congruent, Divides, Moves, Span, TwosComplement, Pow2;
    var w, k := Span(wide), Pow2(b % Width(wide));
    match hi
    case 0 => CongruentUnique(r, r', a + b, w);
    case 1 => CongruentUnique(r, r', a - b, w);
    case 2 => CongruentUnique(r, r', a * b, w);
    case 3 => DividesUnique(false, wide, offset, a, b, r, r');
    case 6 => CongruentUnique(r, r', a * k, w);
    case 7 => QuotientUnique(k, a, r, r');
    case 8 => CongruentUnique(r, r', 0 - a, w);
    case 9 => DividesUnique(true, wide, offset, a, b, r, r');
    case 11 => MovesUnique(wide, if fromReg then offset else 0, b, r, r');
    case 12 => ShiftUnique(wide, k, TwosComplement(w, a), r, r');
    case _ => BitwiseUnique(wide, r, r');
  }

  // ---------------------------------------------------------------- and it holds

  lemma Wraps(z: int, w: int)
    requires w > 0
    ensures 0 <= z % w < w && Congruent(z % w, z, w)
  {
    assert z == (z / w) * w + z % w;
    assert z % w - z == -(z / w) * w;
    ModUnique(z % w - z, w, -(z / w), 0);
  }

  lemma CongruentShift(r: int, z: int, k: int, w: int)
    requires w > 0 && Congruent(r, z + k * w, w)
    ensures Congruent(r, z, w)
  {
    ModShift(r - (z + k * w), k, w);
  }

  function Low(wide: bool, a: u64): u64 { if wide then a else a % 0x1_0000_0000 }

  lemma SumResults(wide: bool, a: u64, b: u64)
    ensures Congruent(AluValue(wide, OpAdd, true, 0, a, b), Low(wide, a) + Low(wide, b), Span(wide))
    ensures Congruent(AluValue(wide, OpSub, true, 0, a, b), Low(wide, a) - Low(wide, b), Span(wide))
    ensures Congruent(AluValue(wide, OpNeg, true, 0, a, b), 0 - Low(wide, a), Span(wide))
  {
    var w, x, y := Span(wide), Low(wide, a), Low(wide, b);
    var p, q := if wide then 0 else a / w, if wide then 0 else b / w;
    assert a == x + p * w && b == y + q * w;
    hide Congruent;
    Wraps(a + b, w);
    Wraps(a - b, w);
    Wraps(0 - a, w);
    CongruentShift((a + b) % w, x + y, p + q, w);
    CongruentShift((a - b) % w, x - y, p - q, w);
    CongruentShift((0 - a) % w, 0 - x, -p, w);
  }

  lemma ProductResults(wide: bool, a: u64, b: u64)
    ensures Congruent(AluValue(wide, OpMul, true, 0, a, b), Low(wide, a) * Low(wide, b), Span(wide))
  {
    var w, x, y: int, p, q := Span(wide), Low(wide, a), Low(wide, b), if wide then 0 else a / Span(wide), if wide then 0 else b / Span(wide);
    assert a == x + p * w && b == y + q * w;
    ModTimes(a, x, p, b, y, q, w);
    var z: int := x * y;
    Wraps(z, w);
  }

  lemma BitwiseResults(op: BitOp, wide: bool, a: u64, b: u64, i: nat)
    requires i < Width(wide)
    ensures BitOf(if wide then Bitwise64(op, a, b) else Bitwise32(op, ToU32(a), ToU32(b)), i) ==
            Bit(op, BitOf(Low(wide, a), i), BitOf(Low(wide, b), i))
  {
    hide Bits, Bit, BitOf;
    BitsAt(op, Width(wide), Low(wide, a), Low(wide, b), i);
  }

  lemma LogicResults(wide: bool, a: u64, b: u64, i: nat)
    requires i < Width(wide)
    ensures var x, y := BitOf(Low(wide, a), i), BitOf(Low(wide, b), i);
      && (BitOf(AluValue(wide, OpOr, true, 0, a, b), i) == 1 <==> x == 1 || y == 1)
      && (BitOf(AluValue(wide, OpAnd, true, 0, a, b), i) == 1 <==> x == 1 && y == 1)
      && (BitOf(AluValue(wide, OpXor, true, 0, a, b), i) == 1 <==> x != y)
  {
    hide Bitwise32, Bitwise64, BitOf, Pow2, ToU32;
    BitwiseResults(Or, wide, a, b, i);
    BitwiseResults(And, wide, a, b, i);
    BitwiseResults(Xor, wide, a, b, i);
  }

  lemma AmountIs(wide: bool, b: u64)
    ensures ShiftAmount(wide, b) == Low(wide, b) % Width(wide)
  {
  }

  lemma FloorIs(x: int, k: nat)
    requires k > 0
    ensures k * (x / k) <= x < k * (x / k) + k
  {
    assert x == k * (x / k) + x % k;
  }

  lemma RestIs(x: nat, y: nat)
    requires y > 0
    ensures Congruent(x, x % y, y)
  {
    assert x == (x / y) * y + x % y;
    ModUnique(x - x % y, y, x / y, 0);
  }

  lemma SignedIs(wide: bool, a: u64)
    ensures (if wide then Signed64(a) else Signed32(ToU32(a))) == TwosComplement(Span(wide), Low(wide, a))
  {
  }

  lemma ShiftResults(wide: bool, a: u64, b: u64)
    ensures var k, w := Pow2(Low(wide, b) % Width(wide)), Span(wide);
      && Congruent(AluValue(wide, OpLsh, true, 0, a, b), Low(wide, a) * k, w)
      && (var r := AluValue(wide, OpRsh, true, 0, a, b); k * r <= Low(wide, a) < k * r + k)
      && (var r := AluValue(wide, OpArsh, true, 0, a, b);
          exists z :: k * z <= TwosComplement(w, Low(wide, a)) < k * z + k && Congruent(r, z, w))
  {
    var k, w := Pow2(Low(wide, b) % Width(wide)), Span(wide);
    AmountIs(wide, b);
    SignedIs(wide, a);
    var x: int, z := Low(wide, a), TwosComplement(w, Low(wide, a)) / k;
    FloorIs(x, k);
    FloorIs(TwosComplement(w, Low(wide, a)), k);
    Wraps(x * k, w);
    Wraps(z, w);
    hide Congruent, Pow2, TwosComplement, Signed32, Signed64, Bitwise32, Bitwise64;
    assert AluValue(wide, OpArsh, true, 0, a, b) == z % w;
  }

  /** Signed quotient and remainder, the least value by -1 included: its quotient wraps. */
  lemma WrappedDivision(w: int, x: int, y: int)
    requires w > 0 && w % 2 == 0 && y != 0
    ensures Truncated(x, y, CDiv(x, y), CMod(x, y))
    ensures Congruent(SDiv(-w / 2, x, y) % w, CDiv(x, y), w) && Congruent(SMod(-w / 2, x, y) % w, CMod(x, y), w)
  {
    hide CDiv, CMod, Congruent, Truncated;
    CDivTruncates(x, y);
    Wraps(CDiv(x, y), w);
    Wraps(CMod(x, y), w);
    if x == -w / 2 && y == -1 {
      LeastByMinusOne(w);
      TruncatedUnique(x, y, CDiv(x, y), CMod(x, y), w / 2, 0);
    }
  }

  lemma LeastByMinusOne(w: int)
    requires w > 0 && w % 2 == 0
    ensures Truncated(-w / 2, -1, w / 2, 0) && Congruent((-w / 2) % w, w / 2, w) && Congruent(0 % w, 0, w)
  {
    ModUnique(-w / 2, w, -1, w / 2);
  }

  /** The words of the signed forms are those quotients and remainders modulo the width. */
  lemma SignedWords(wide: bool, a: u64, b: u64)
    ensures var w := Span(wide); var x, y := TwosComplement(w, Low(wide, a)), TwosComplement(w, Low(wide, b));
      DivValue(wide, 1, a, b) == SDiv(-w / 2, x, y) % w && ModValue(wide, 1, a, b) == SMod(-w / 2, x, y) % w
  {
    SignedIs(wide, a);
    SignedIs(wide, b);
    hide SDiv, SMod, Signed32, Signed64, TwosComplement;
  }

  lemma ZeroDivisor(wide: bool, a: u64)
    ensures var w := Span(wide); var x := TwosComplement(w, Low(wide, a));
      SDiv(-w / 2, x, 0) % w == 0 && SMod(-w / 2, x, 0) % w == Low(wide, a)
  {
  }

  lemma SignedDivides(wide: bool, a: u64, b: u64)
    ensures Divides(false, wide, 1, Low(wide, a), Low(wide, b), DivValue(wide, 1, a, b))
    ensures Divides(true, wide, 1, Low(wide, a), Low(wide, b), ModValue(wide, 1, a, b))
  {
    var w, x, y := Span(wide), TwosComplement(Span(wide), Low(wide, a)), TwosComplement(Span(wide), Low(wide, b));
    assert w % 2 == 0 && (y == 0 <==> Low(wide, b) == 0);
    hide DivValue, ModValue, SDiv, SMod, Congruent, Truncated, TwosComplement, CDiv, CMod, Low, Span;
    SignedWords(wide, a, b);
    if y == 0 {
      ZeroDivisor(wide, a);
    } else {
      WrappedDivision(w, x, y);
    }
  }

  lemma UnsignedDivides(wide: bool, offset: i16, a: u64, b: u64)
    requires offset != 1
    ensures Divides(false, wide, offset, Low(wide, a), Low(wide, b), DivValue(wide, offset, a, b))
    ensures Divides(true, wide, offset, Low(wide, a), Low(wide, b), ModValue(wide, offset, a, b))
  {
    var x: nat, y: nat := Low(wide, a), Low(wide, b);
    if offset == 0 && y != 0 {
      FloorIs(x, y);
      RestIs(x, y);
    }
  }

  lemma LowBits(wide: bool, b: u64)
    ensures Low(wide, b) % 0x100 == b % 0x100 && Low(wide, b) % 0x1_0000 == b % 0x1_0000
  {
    var x: int, q := ToU32(b), b / 0x1_0000_0000;
    assert b == x + (q * 0x100_0000) * 0x100 && b == x + (q * 0x1_0000) * 0x1_0000;
    ModShift(x, q * 0x100_0000, 0x100);
    ModShift(x, q * 0x1_0000, 0x1_0000);
  }

  lemma MovResults(wide: bool, offset: i16, b: u64)
    ensures Moves(wide, offset, Low(wide, b), MovValue(wide, offset, b))
  {
    hide Congruent, ToU64;
    var z := if offset == 8 then Signed8(b % 0x100) else if offset == 16 then Signed16(ToU16(b)) else Signed32(ToU32(b));
    Wraps(z, Span(wide));
    WrapTwice(z);
    LowBits(wide, b);
    assert wide ==> ToU32(b) == Low(wide, b) % 0x1_0000_0000 by { WideLow(b); }
  }

  lemma WideLow(b: u64)
    ensures ToU32(b) == Low(true, b) % 0x1_0000_0000
  {
  }

  lemma WrapTwice(z: int)
    ensures ToU32(ToU64(z)) == z % 0x1_0000_0000 && ToU64(z) == z % 0x1_0000_0000_0000_0000
  {
  }

  lemma IgnoresSource(wide: bool, hi: nat, fromReg: bool, offset: i16, a: u64, b: u64)
    requires hi in {0, 1, 2, 4, 5, 6, 7, 8, 10, 12}
    ensures AluValue(wide, AluOfCode(hi), fromReg, offset, a, b) == AluValue(wide, AluOfCode(hi), true, 0, a, b)
    ensures AluValue(wide, AluOfCode(hi), fromReg, offset, a, b) < Span(wide)
  {
    hide Bitwise64, Pow2;
  }

  /** The values of both interpreters and of both back ends obey the law. */
  lemma AluResults(hi: nat, wide: bool, fromReg: bool, offset: i16, a: u64, b: u64)
    requires hi <= 12
    ensures Results(hi, wide, fromReg, offset, Low(wide, a), Low(wide, b), AluValue(wide, AluOfCode(hi), fromReg, offset, a, b))
  {
    hide AluValue, Congruent, Divides, Moves, BitOf, Low, TwosComplement, Pow2, Span;
    if hi in {0, 1, 2, 4, 5, 6, 7, 8, 10, 12} {
      IgnoresSource(wide, hi, fromReg, offset, a, b);
    }
    SumResults(wide, a, b);
    ProductResults(wide, a, b);
    ShiftResults(wide, a, b);
    forall i | 0 <= i < Width(wide) { LogicResults(wide, a, b, i); }
    if hi == 3 || hi == 9 {
      if offset == 1 { SignedDivides(wide, a, b); } else { UnsignedDivides(wide, offset, a, b); }
      DivisionIs(wide, fromReg, offset, a, b);
    } else if hi == 11 {
      MovResults(wide, if fromReg then offset else 0, b);
      MoveIs(wide, fromReg, offset, a, b);
    }
  }

  lemma DivisionIs(wide: bool, fromReg: bool, offset: i16, a: u64, b: u64)
    ensures AluValue(wide, OpDiv, fromReg, offset, a, b) == DivValue(wide, offset, a, b) < Span(wide)
    ensures AluValue(wide, OpMod, fromReg, offset, a, b) == ModValue(wide, offset, a, b) < Span(wide)
  {
    hide SDiv, SMod;
  }

  lemma MoveIs(wide: bool, fromReg: bool, offset: i16, a: u64, b: u64)
    ensures AluValue(wide, OpMov, fromReg, offset, a, b) == MovValue(wide, if fromReg then offset else 0, b) < Span(wide)
  {
  }
}
