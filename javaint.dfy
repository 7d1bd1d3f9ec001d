/** Java's primitive integer semantics, written out over Dafny's unbounded `int`:
    32-bit two's-complement `+` and `-`, the truncating `%` (with the unbounded
    truncating quotient that defines it), `Math.abs`,
    and the narrowing `(char)` cast. */
module JavaInt {

  const MIN_INT: int := -0x8000_0000   // Integer.MIN_VALUE
  const MAX_INT: int := 0x7fff_ffff    // Integer.MAX_VALUE
  const TWO_32: int := 0x1_0000_0000

  /** A Java `int`. */
  type Int32 = x: int | -0x8000_0000 <= x <= 0x7fff_ffff

  /** A Java `long`. */
  type Int64 = x: int | -0x8000_0000_0000_0000 <= x <= 0x7fff_ffff_ffff_ffff

  /** A Java `char`: one UTF-16 code unit. */
  type Char16 = c: int | 0 <= c <= 0xffff

  /** A Java `String`: a sequence of UTF-16 code units. */
  type JavaString = seq<Char16>

  /** The 32-bit value congruent to `x`, as the JVM keeps it. */
  function Wrap(x: int): (r: Int32)
    ensures (r - x) % TWO_32 == 0
    ensures MIN_INT <= x <= MAX_INT ==> r == x
  {
    (x - MIN_INT) % TWO_32 + MIN_INT
  }

  /** `a + b` on `int`: exact unless it overflows, then off by 2^32. */
  function Add(a: Int32, b: Int32): (r: Int32)
    ensures MIN_INT <= a + b <= MAX_INT ==> r == a + b
    ensures a + b > MAX_INT ==> r == a + b - TWO_32
    ensures a + b < MIN_INT ==> r == a + b + TWO_32
  {
    Wrap(a + b)
  }

  /** `a - b` on `int`: exact unless it overflows, then off by 2^32. */
  function Sub(a: Int32, b: Int32): (r: Int32)
    ensures MIN_INT <= a - b <= MAX_INT ==> r == a - b
    ensures a - b > MAX_INT ==> r == a - b - TWO_32
    ensures a - b < MIN_INT ==> r == a - b + TWO_32
  {
    Wrap(a - b)
  }

  function Magnitude(x: int): nat {
    if x < 0 then -x else x
  }

  /** `Math.abs(int)`: the magnitude, except that `MIN_VALUE` has no positive
      counterpart and comes back unchanged. */
  function Abs(a: Int32): (r: Int32)
    ensures a != MIN_INT ==> r >= 0 && r == Magnitude(a)
    ensures a == MIN_INT ==> r == MIN_INT
  {
    Wrap(Magnitude(a))
  }

  /** The truncating quotient in the identity that defines Java's `%`: the
      quotient rounded toward zero, unbounded (Java's `/` would wrap
      `MIN_VALUE / -1`, which the code never computes). */
  function Quot(a: int, b: int): (q: int)
    requires b != 0
    ensures Magnitude(q) == Magnitude(a) / Magnitude(b)
    ensures (q > 0 ==> (a < 0) == (b < 0)) && (q < 0 ==> (a < 0) != (b < 0))
  {
    var x, y := Magnitude(a), Magnitude(b);
    DivNonNegative(x, y);
    var q := x / y;
    if (a < 0) == (b < 0) then q else -q
  }

  /** Java's `a % b`, defined as the language does by `(a / b) * b + a % b == a`:
      the remainder is smaller than the divisor in magnitude and carries the sign
      of the dividend (never of the divisor, unlike Dafny's `%`). */
  function Rem(a: int, b: int): (r: int)
    requires b != 0
    ensures Quot(a, b) * b + r == a
    ensures Magnitude(r) < Magnitude(b)
    ensures a >= 0 ==> r >= 0
    ensures a <= 0 ==> r <= 0
    ensures b == 2 ==> (r != 0 <==> !IsEven(a))
  {
    QuotTimesDivisor(a, b);
    var m := Magnitude(a) % Magnitude(b);
    if a < 0 then -m else m
  }

  /** The truncated quotient times the divisor is the largest multiple of the
      divisor not exceeding the dividend in magnitude, with the dividend's sign. */
  lemma QuotTimesDivisor(a: int, b: int)
    requires b != 0
    ensures var p := Magnitude(a) / Magnitude(b) * Magnitude(b);
            Quot(a, b) * b == (if a < 0 then -p else p)
    ensures Magnitude(a) / Magnitude(b) * Magnitude(b) + Magnitude(a) % Magnitude(b) == Magnitude(a)
  {
    var x: int, y: int := Magnitude(a), Magnitude(b);
    var q: int := x / y;
    var p: int := q * y;
    NegatedProduct(q, y);
    if a < 0 && b < 0 {
      assert Quot(a, b) * b == q * (-y) == -p;
    } else if a < 0 {
      assert Quot(a, b) * b == (-q) * y == -p;
    } else if b < 0 {
      assert Quot(a, b) * b == (-q) * (-y) == p;
    } else {
      assert Quot(a, b) * b == p;
    }
  }

  lemma DivNonNegative(x: nat, y: nat)
    requires y > 0
    ensures x / y >= 0
  {
  }

  lemma NegatedProduct(q: int, y: int)
    ensures (-q) * y == -(q * y) && q * (-y) == -(q * y) && (-q) * (-y) == q * y
  {
  }

  /** A non-negative dividend smaller than a positive divisor is its own
      remainder. */
  lemma RemOfSmall(a: int, b: int)
    requires 0 <= a < b
    ensures Rem(a, b) == a
  {
    var q := Quot(a, b);
    assert q >= 0;
    assert q * b <= a;
    assert q == 0;
  }

  /** Mathematical parity (Dafny's `%` is never negative). */
  predicate IsEven(x: int) {
    x % 2 == 0
  }

  /** The narrowing cast `(char) v`: the low 16 bits of `v`. */
  function CharCast(v: Int32): (c: Char16)
    ensures 0 <= v <= 0xffff ==> c == v
    ensures (c - v) % 0x1_0000 == 0
  {
    v % 0x1_0000
  }
}
