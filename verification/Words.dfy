/** Machine words as bounded integers, with the C conversions, shifts and bitwise operators on them. */
module Words {

  datatype Option<+T> = None | Some(value: T)

  type u4 = x: int | 0 <= x < 16
  type u8 = x: int | 0 <= x < 0x100
  type u16 = x: int | 0 <= x < 0x1_0000
  type u32 = x: int | 0 <= x < 0x1_0000_0000
  type u64 = x: int | 0 <= x < 0x1_0000_0000_0000_0000
  type i16 = x: int | -0x8000 <= x < 0x8000
  type i32 = x: int | -0x8000_0000 <= x < 0x8000_0000

  /** Conversion to `uint64_t`; on a negative value this is sign extension. */
  function ToU64(x: int): u64 { x % 0x1_0000_0000_0000_0000 }

  function ToU32(x: int): u32 { x % 0x1_0000_0000 }

  function ToU16(x: int): u16 { x % 0x1_0000 }

  /** Two's complement readings. */
  function Signed64(x: u64): int { if x < 0x8000_0000_0000_0000 then x else x - 0x1_0000_0000_0000_0000 }

  function Signed32(x: u32): i32 { if x < 0x8000_0000 then x else x - 0x1_0000_0000 }

  function Signed16(x: u16): i16 { if x < 0x8000 then x else x - 0x1_0000 }

  function Signed8(x: u8): i16 { if x < 0x80 then x else x - 0x100 }

  /** C division: the quotient is rounded toward zero and the remainder has the dividend's sign. */
  function CDiv(a: int, b: int): int
    requires b != 0
  {
    if a >= 0 then a / b else -((-a) / b)
  }

  function CMod(a: int, b: int): int
    requires b != 0
  {
    a - b * CDiv(a, b)
  }

  // ---------------------------------------------------------------- powers of two

  function Pow2(n: nat): (r: nat)
    ensures r >= 1
  {
    if n == 0 then 1 else 2 * Pow2(n - 1)
  }

  lemma {:induction false} Pow2Add(a: nat, b: nat)
    ensures Pow2(a + b) == Pow2(a) * Pow2(b)
  {
    if a > 0 {
      Pow2Add(a - 1, b);
      assert Pow2(a + b) == 2 * Pow2(a - 1 + b);
    }
  }

  lemma Pow2Widths()
    ensures Pow2(8) == 0x100 && Pow2(16) == 0x1_0000 && Pow2(32) == 0x1_0000_0000
    ensures Pow2(48) == 0x1_0000_0000_0000 && Pow2(64) == 0x1_0000_0000_0000_0000
  {
    var n: nat := 8;
    assert Pow2(n) == 0x100;
    Pow2Double(n, 0x100);
    Pow2Double(2 * n, 0x1_0000);
    Pow2Double(4 * n, 0x1_0000_0000);
    Pow2Add(4 * n, 2 * n);
  }

  lemma Pow2Double(n: nat, p: nat)
    requires Pow2(n) == p
    ensures Pow2(2 * n) == p * p
  {
    Pow2Add(n, n);
  }

  // ---------------------------------------------------------------- bitwise operators

  datatype BitOp = And | Or | Xor

  function Bit(op: BitOp, a: int, b: int): (r: int)
    ensures 0 <= r <= 1
  {
    match op
    case And => if a == 1 && b == 1 then 1 else 0
    case Or => if a == 1 || b == 1 then 1 else 0
    case Xor => if a == b then 0 else 1
  }

  /** The low `n` bits of `a op b`. */
  function Bits(op: BitOp, n: nat, a: nat, b: nat): (r: nat)
    ensures r < Pow2(n)
  {
    if n == 0 then 0 else Bit(op, a % 2, b % 2) + 2 * Bits(op, n - 1, a / 2, b / 2)
  }

  function Bitwise64(op: BitOp, a: u64, b: u64): u64
  {
    Pow2Widths();
    Bits(op, 64, a, b)
  }

  function Bitwise32(op: BitOp, a: u32, b: u32): u32
  {
    Pow2Widths();
    Bits(op, 32, a, b)
  }

  /** XOR with the same value twice is the identity: the law behind blinding and the stored-code mask. */
  lemma {:induction false} XorTwice(n: nat, a: nat, k: nat)
    requires a < Pow2(n)
    ensures Bits(Xor, n, Bits(Xor, n, a, k), k) == a
  {
    if n > 0 {
      XorTwice(n - 1, a / 2, k / 2);
    }
  }

  /** The low `n` bits of a wider operation depend only on the low `n` bits of the operands. */
  lemma {:induction false} BitsLow(op: BitOp, n: nat, m: nat, a: nat, b: nat)
    requires n <= m
    ensures Bits(op, m, a, b) % Pow2(n) == Bits(op, n, a, b)
    ensures Bits(op, n, a % Pow2(n), b % Pow2(n)) == Bits(op, n, a, b)
  {
    if n > 0 {
      var p, low := Pow2(n - 1), Bits(op, m - 1, a / 2, b / 2);
      BitsLow(op, n - 1, m - 1, a / 2, b / 2);
      ModHalf(a, p);
      ModHalf(b, p);
      var d := Bit(op, a % 2, b % 2);
      assert Bits(op, m, a, b) == d + 2 * low;
      HalfOfDigit(d, low);
      ModHalf(d + 2 * low, p);
      assert Pow2(n) == 2 * p;
    }
  }

  lemma HalfOfDigit(d: int, x: nat)
    requires 0 <= d <= 1
    ensures (d + 2 * x) % 2 == d && (d + 2 * x) / 2 == x
  {
  }

  lemma MulAtLeast(y: nat, q: nat)
    requires y >= 1
    ensures y * q >= q
  {
    assert y * q == (y - 1) * q + q;
  }

  lemma ModHalf(a: nat, p: nat)
    requires p > 0
    ensures a % (2 * p) == a % 2 + 2 * ((a / 2) % p)
    ensures (a % (2 * p)) % 2 == a % 2 && (a % (2 * p)) / 2 == (a / 2) % p
  {
    var q := (a / 2) / p;
    assert a / 2 == q * p + (a / 2) % p;
    assert a == q * (2 * p) + (a % 2 + 2 * ((a / 2) % p));
    ModUnique(a, 2 * p, q, a % 2 + 2 * ((a / 2) % p));
  }

  lemma ModUnique(a: int, d: int, q: int, r: int)
    requires d > 0 && 0 <= r < d && a == q * d + r
    ensures a / d == q && a % d == r
  {
    var q', r' := a / d, a % d;
    assert a == q' * d + r' && 0 <= r' < d;
    SmallMultiple(q - q', d, r' - r) by {
      assert (q - q') * d == q * d - q' * d;
    }
  }

  lemma SmallMultiple(k: int, d: int, e: int)
    requires d > 0 && k * d == e && -d < e < d
    ensures k == 0
  {
  }

  /** Products of congruent factors are congruent. */
  lemma ModTimes(a: int, x: int, p: int, b: int, y: int, q: int, w: int)
    requires w > 0 && a == x + p * w && b == y + q * w
    ensures (a * b) % w == (x * y) % w
  {
    var k := p * b + x * q;
    assert a * b == x * y + k * w by {
      assert a * b == x * b + (p * w) * b;
      assert (p * w) * b == (p * b) * w;
      assert x * b == x * y + x * (q * w);
      assert x * (q * w) == (x * q) * w;
    }
    ModShift(x * y, k, w);
  }

  lemma ModShift(v: int, k: int, w: int)
    requires w > 0
    ensures (v + k * w) % w == v % w
  {
    assert v == (v / w) * w + v % w;
    assert v + k * w == (v / w + k) * w + v % w;
    ModUnique(v + k * w, w, v / w + k, v % w);
  }
}
