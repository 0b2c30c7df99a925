/**
 * Bit-level helpers shared by the transmit and receive sides: powers of two,
 * Java's signed byte, and least-significant-bit-first bit lists.
 */
module Binary {

  /** A Java `byte`: a signed 8-bit two's-complement value. */
  type int8 = x: int | -128 <= x < 128

  function Pow2(n: nat): (r: nat)
    ensures r >= 1
  {
    if n == 0 then 1 else 2 * Pow2(n - 1)
  }

  lemma {:induction false} Pow2Monotonic(a: nat, b: nat)
    requires a <= b
    ensures Pow2(a) <= Pow2(b)
  {
    if a < b {
      Pow2Monotonic(a, b - 1);
    }
  }

  /** The 8-bit pattern of a byte, read as an unsigned number. */
  function Unsigned(b: int8): (u: nat)
    ensures u < 256
  {
    if b < 0 then b + 256 else b
  }

  /** The byte whose 8-bit pattern is the unsigned number `u`. */
  function Signed(u: nat): (b: int8)
    requires u < 256
    ensures Unsigned(b) == u
  {
    if u < 128 then u else u - 256
  }

  lemma SignedOfUnsigned(b: int8)
    ensures Signed(Unsigned(b)) == b
  {
  }

  /** Bit `j` of a byte's two's-complement pattern, as `java.util.BitSet` numbers it. */
  predicate BitOf(b: int8, j: nat)
  {
    (Unsigned(b) / Pow2(j)) % 2 == 1
  }

  /** The lowest `w` bits of `u`, least significant first. */
  function LowBits(u: nat, w: nat): (r: seq<bool>)
    ensures |r| == w
  {
    if w == 0 then [] else [u % 2 == 1] + LowBits(u / 2, w - 1)
  }

  /** The number whose bits, least significant first, are `bits`. */
  function LowBitsValue(bits: seq<bool>): (u: nat)
    ensures u < Pow2(|bits|)
  {
    if bits == [] then 0 else (if bits[0] then 1 else 0) + 2 * LowBitsValue(bits[1..])
  }

  lemma {:induction false} LowBitsRoundTrip(u: nat, w: nat)
    requires u < Pow2(w)
    ensures LowBitsValue(LowBits(u, w)) == u
  {
    if w > 0 {
      LowBitsRoundTrip(u / 2, w - 1);
      assert LowBits(u, w)[1..] == LowBits(u / 2, w - 1);
    }
  }

  lemma {:induction false} ValueLowBits(bits: seq<bool>)
    ensures LowBits(LowBitsValue(bits), |bits|) == bits
  {
    if bits != [] {
      ValueLowBits(bits[1..]);
      var u := LowBitsValue(bits);
      assert u / 2 == LowBitsValue(bits[1..]);
    }
  }

  /** Euclidean division is unique: a quotient and remainder in range are THE quotient and remainder. */
  lemma DivUnique(u: int, d: int, q: int, r: int)
    requires d > 0 && 0 <= r < d && u == q * d + r
    ensures u / d == q && u % d == r
  {
    var q', r' := u / d, u % d;
    assert (q - q') * d == r' - r;
    assert q - q' >= 1 ==> (q - q') * d >= d;
    assert q' - q >= 1 ==> (q' - q) * d >= d;
  }

  lemma DivDiv(u: nat, a: nat, b: nat)
    requires a > 0 && b > 0
    ensures u / a / b == u / (a * b)
  {
    var x, y := u / (a * b), u % (a * b);
    var s, t := y / a, y % a;
    assert u == (x * b + s) * a + t by {
      assert u == x * (a * b) + y;
      assert y == s * a + t;
    }
    DivUnique(u, a, x * b + s, t);
    assert s >= b ==> s * a >= b * a;
    DivUnique(u / a, b, x, s);
  }

  lemma {:induction false} LowBitsAt(u: nat, w: nat, j: nat)
    requires j < w
    ensures LowBits(u, w)[j] == ((u / Pow2(j)) % 2 == 1)
  {
    if j > 0 {
      LowBitsAt(u / 2, w - 1, j - 1);
      DivDiv(u, 2, Pow2(j - 1));
    }
  }

  function Repeat<T>(x: T, n: nat): (r: seq<T>)
    ensures |r| == n
    ensures forall i :: 0 <= i < n ==> r[i] == x
  {
    seq(n, _ => x)
  }

  function Flatten<T>(ss: seq<seq<T>>): seq<T>
  {
    if ss == [] then [] else ss[0] + Flatten(ss[1..])
  }

  lemma {:induction false} FlattenAppend<T>(a: seq<seq<T>>, b: seq<seq<T>>)
    ensures Flatten(a + b) == Flatten(a) + Flatten(b)
  {
    if a != [] {
      assert (a + b)[0] == a[0];
      assert (a + b)[1..] == a[1..] + b;
      FlattenAppend(a[1..], b);
    } else {
      assert a + b == b;
    }
  }

  /**
   * Java's `int` division on operands whose divisor is positive: it truncates
   * toward zero, so the remainder takes the sign of the dividend and is
   * smaller than the divisor in magnitude.
   */
  function JavaDiv(a: int, b: int): (q: int)
    requires b > 0
    ensures var r := a - q * b; (a >= 0 ==> 0 <= r < b) && (a < 0 ==> -b < r <= 0)
  {
    if a >= 0 then a / b else -((-a) / b)
  }
}
