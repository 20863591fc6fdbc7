/** Vocabulary shared by every part of the model: optional values (Kotlin's
    nullable types), the JVM's fixed-width integers and Kotlin's truncating
    integer division. */
module Common {

  /** A Kotlin `T?`: `None` plays the role of `null`. */
  datatype Option<+T> = None | Some(value: T) {
    /** Kotlin's `?: default`. */
    function GetOr(default: T): T {
      if Some? then value else default
    }
  }

  /** Kotlin `Int`. */
  type Int32 = x: int | -0x8000_0000 <= x < 0x8000_0000

  /** Kotlin `Long`. */
  type Int64 = x: int | -0x8000_0000_0000_0000 <= x < 0x8000_0000_0000_0000

  /** The bit pattern of a Kotlin `Float` (IEEE 754 binary32), read as an
      unsigned 32-bit number. */
  type Float32 = x: int | 0 <= x < 0x1_0000_0000

  /** Two's-complement reduction to 32 bits: `Long.toInt()` and `Int` overflow. */
  function WrapInt32(x: int): (r: Int32)
    ensures -0x8000_0000 <= x < 0x8000_0000 ==> r == x
    ensures (x - r) % 0x1_0000_0000 == 0
  {
    (x + 0x8000_0000) % 0x1_0000_0000 - 0x8000_0000
  }

  /** Adding to a wrapped `Int` and wrapping again is wrapping the exact
      sum, so an `Int` running total wraps only its final value. */
  lemma WrapInt32Add(x: int, y: int)
    ensures WrapInt32(WrapInt32(x) + y) == WrapInt32(x + y)
  {
    var k := (x + 0x8000_0000) / 0x1_0000_0000;
    assert WrapInt32(x) == x - k * 0x1_0000_0000;
    ModShift(x + y + 0x8000_0000, -k);
  }

  lemma ModShift(a: int, k: int)
    ensures (a + k * 0x1_0000_0000) % 0x1_0000_0000 == a % 0x1_0000_0000
  {
  }

  /** Two's-complement reduction to 64 bits: `Long` overflow. */
  function WrapInt64(x: int): (r: Int64)
    ensures -0x8000_0000_0000_0000 <= x < 0x8000_0000_0000_0000 ==> r == x
    ensures (x - r) % 0x1_0000_0000_0000_0000 == 0
  {
    (x + 0x8000_0000_0000_0000) % 0x1_0000_0000_0000_0000 - 0x8000_0000_0000_0000
  }

  function Abs(x: int): nat {
    if x < 0 then -x else x
  }

  lemma ConcatAssoc<T>(a: seq<T>, b: seq<T>, c: seq<T>)
    ensures (a + b) + c == a + (b + c)
  {
  }

  /** Kotlin's `/` on integers, which rounds toward zero (Dafny's `/` is Euclidean). */
  function Quot(a: int, b: int): (q: int)
    requires b != 0
    ensures Abs(q) * Abs(b) <= Abs(a) < Abs(q) * Abs(b) + Abs(b)
    ensures q == 0 || ((q > 0) <==> ((a > 0) == (b > 0)))
  {
    var m := Abs(a) / Abs(b);
    DivBounds(Abs(a), Abs(b));
    if (a >= 0) == (b > 0) || a == 0 then m else -m
  }

  lemma DivBounds(x: nat, y: nat)
    requires y > 0
    ensures (x / y) * y <= x < (x / y) * y + y
  {
  }

  /** Kotlin's `%` on integers: the remainder takes the sign of the dividend. */
  function Rem(a: int, b: int): (r: int)
    requires b != 0
    ensures a == Quot(a, b) * b + r
    ensures Abs(r) < Abs(b)
    ensures r == 0 || ((r > 0) <==> (a > 0))
  {
    a - Quot(a, b) * b
  }

  /** For a non-negative dividend and a positive divisor, Kotlin and Dafny agree. */
  lemma QuotRemNonNegative(a: int, b: int)
    requires a >= 0 && b > 0
    ensures Quot(a, b) == a / b && Rem(a, b) == a % b
  {
  }

  lemma MulCancel(x: int, c: int, b: int)
    requires b > 0 && x * b <= c * b
    ensures x <= c
  {
  }

  function Pow2(n: nat): (r: nat)
    ensures r >= 1
  {
    if n == 0 then 1 else 2 * Pow2(n - 1)
  }

  lemma {:induction false} Pow2Add(a: nat, b: nat)
    ensures Pow2(a + b) == Pow2(a) * Pow2(b)
  {
    if a > 0 {
      Pow2Add(a - 1, b);
    }
  }

  lemma {:induction false} Pow2Monotone(a: nat, b: nat)
    requires a <= b
    ensures Pow2(a) <= Pow2(b)
  {
    if a < b {
      Pow2Monotone(a, b - 1);
    }
  }

  /** Powers of two up to 2^62 fit a `Long`; 2^50 is the largest used below. */
  lemma Pow2Values()
    ensures Pow2(10) == 0x400
    ensures Pow2(50) == 0x4_0000_0000_0000
    ensures Pow2(62) == 0x4000_0000_0000_0000
  {
    Pow2Forty();
    Pow2Add(40, 10);
    Pow2Add(40, 22);
    Pow2Add(20, 2);
  }

  lemma Pow2Forty()
    ensures Pow2(10) == 0x400 && Pow2(20) == 0x10_0000 && Pow2(40) == 0x100_0000_0000
  {
    Pow2Add(10, 10);
    Pow2Add(20, 20);
  }

  /** Below any member of a set of `Int` values there is a least member. */
  lemma {:induction false} MinBelow(s: set<Int32>, y: Int32)
    requires y in s
    ensures exists m :: m in s && m <= y && forall x :: x in s ==> m <= x
    decreases y + 0x8000_0000
  {
    if !forall x :: x in s ==> y <= x {
      var z :| z in s && z < y;
      MinBelow(s, z);
    }
  }

  lemma MinExists(s: set<Int32>)
    requires exists y :: y in s
    ensures exists m :: m in s && forall x :: x in s ==> m <= x
  {
    var y :| y in s;
    MinBelow(s, y);
  }

  /** `a` is `b` with some entries dropped and the rest in order. */
  predicate Subsequence<T(==)>(a: seq<T>, b: seq<T>)
    decreases |b|
  {
    if a == [] then true
    else if b == [] then false
    else (a[0] == b[0] && Subsequence(a[1..], b[1..])) || Subsequence(a, b[1..])
  }

  /** The least member of a non-empty set of `Int` values. */
  function MinOf(s: set<Int32>): (m: Int32)
    requires exists y :: y in s
    ensures m in s && forall x :: x in s ==> m <= x
  {
    MinExists(s);
    var m :| m in s && forall x :: x in s ==> m <= x;
    m
  }
}
