/**
 The number theory behind double hashing: table sizes are powers of two, the second hash
 is odd, and therefore a probe sequence visits every cell exactly once before it repeats.
 */
module Probing {

  function Pow2(k: nat): (r: nat)
    ensures r >= 1
  {
    if k == 0 then 1 else 2 * Pow2(k - 1)
  }

  ghost predicate IsPow2(n: nat) {
    exists k: nat :: n == Pow2(k)
  }

  /** The doubling loop of RoundUpToPowerOfTwo, seen from its current value `r`. */
  function RoundUpFrom(x: nat, r: nat): nat
    requires r >= 1
    decreases x - r
  {
    if x > r then RoundUpFrom(x, 2 * r) else r
  }

  function RoundUp(x: nat): nat {
    RoundUpFrom(x, 1)
  }

  lemma {:induction false} RoundUpFromIsLeast(x: nat, k: nat, j: nat)
    requires k == 0 || Pow2(k - 1) < x
    ensures IsPow2(RoundUpFrom(x, Pow2(k)))
    ensures x <= RoundUpFrom(x, Pow2(k))
    ensures x <= Pow2(j) ==> RoundUpFrom(x, Pow2(k)) <= Pow2(j)
    decreases x - Pow2(k)
  {
    if x > Pow2(k) {
      assert Pow2(k + 1) == 2 * Pow2(k);
      RoundUpFromIsLeast(x, k + 1, j);
    } else if x <= Pow2(j) && k > 0 {
      if j < k {
        Pow2Monotone(j, k - 1);
      } else {
        Pow2Monotone(k, j);
      }
    }
  }

  /** RoundUp(x) is the least power of two that is at least x. */
  lemma RoundUpIsLeast(x: nat)
    ensures IsPow2(RoundUp(x)) && x <= RoundUp(x)
    ensures forall k: nat :: x <= Pow2(k) ==> RoundUp(x) <= Pow2(k)
  {
    RoundUpFromIsLeast(x, 0, 0);
    forall k: nat | x <= Pow2(k)
      ensures RoundUp(x) <= Pow2(k)
    {
      RoundUpFromIsLeast(x, 0, k);
    }
  }

  lemma {:induction false} Pow2Monotone(i: nat, j: nat)
    requires i <= j
    ensures Pow2(i) <= Pow2(j)
    decreases j - i
  {
    if i < j {
      Pow2Monotone(i, j - 1);
    }
  }

  /** The loop itself (unbounded integers: sizes that overflow 32 bits are not modelled). */
  method RoundUpToPowerOfTwo(x: nat) returns (returnValue: nat)
    ensures returnValue == RoundUp(x)
    ensures IsPow2(returnValue) && x <= returnValue
  {
    returnValue := 1;
    while x > returnValue
      invariant returnValue >= 1
      invariant RoundUpFrom(x, returnValue) == RoundUp(x)
      decreases x - returnValue
    {
      returnValue := 2 * returnValue;
    }
    RoundUpIsLeast(x);
  }

  // ---------------------------------------------------------------- probe sequences

  /** The cell examined by the j-th probe of a key whose hashes are `start` and `step`. */
  function Cell(start: int, step: int, j: nat, size: nat): (c: nat)
    requires size > 0
    ensures c < size
  {
    (start + j * step) % size
  }

  lemma ModAddCancel(x: int, y: int, m: nat)
    requires m > 0
    ensures (x % m + y) % m == (x + y) % m
  {
    var q := x / m;
    assert x == q * m + x % m;
    ModPlusMultiple(x % m + y, q, m);
    assert x % m + y + q * m == x + y;
  }

  lemma MulAtLeast(d: int, m: nat)
    requires d >= 1
    ensures d * m >= m
  {
  }

  /** Euclidean division is unique. */
  lemma RemainderIsUnique(q: int, r: int, q': int, r': int, m: nat)
    requires 0 <= r < m && 0 <= r' < m
    requires q * m + r == q' * m + r'
    ensures q == q' && r == r'
  {
    assert (q' - q) * m == r - r';
    if q' > q {
      MulAtLeast(q' - q, m);
    } else if q > q' {
      assert (q - q') * m == r' - r;
      MulAtLeast(q - q', m);
    }
  }

  lemma ModPlusMultiple(x: int, q: int, m: nat)
    requires m > 0
    ensures (x + q * m) % m == x % m
  {
    var y := x + q * m;
    assert x == (x / m) * m + x % m;
    assert y == (y / m) * m + y % m;
    assert y == (x / m + q) * m + x % m by {
      assert (x / m + q) * m == (x / m) * m + q * m;
    }
    RemainderIsUnique(y / m, y % m, x / m + q, x % m, m);
  }

  /** One more step of the loop: the location advances by the second hash, modulo the size. */
  lemma CellStep(start: int, step: int, j: nat, size: nat)
    requires size > 0
    ensures Cell(start, step, j + 1, size) == (Cell(start, step, j, size) + step) % size
  {
    ModAddCancel(start + j * step, step, size);
    assert start + (j + 1) * step == start + j * step + step;
  }

  /** C++ computes `hash % maxLength` in 32-bit unsigned arithmetic; for a power-of-two
      size the conversion of a negative hash to unsigned does not change the cell. */
  lemma UnsignedConversionIsHarmless(h: int, k: nat)
    requires k <= 32
    ensures (h % Pow2(32)) % Pow2(k) == h % Pow2(k)
  {
    Pow2Split(k, 32 - k);
    ModOfMultiple(h, Pow2(k), Pow2(32 - k));
  }

  lemma ModOfMultiple(h: int, m: nat, n: nat)
    requires m > 0 && n > 0 && m * n > 0
    ensures (h % (m * n)) % m == h % m
  {
    var q := h / (m * n);
    assert h == q * (m * n) + h % (m * n);
    assert q * (m * n) == (q * n) * m;
    ModPlusMultiple(h % (m * n), q * n, m);
  }

  lemma {:induction false} Pow2Split(i: nat, j: nat)
    ensures Pow2(i) * Pow2(j) == Pow2(i + j)
    decreases j
  {
    if j > 0 {
      Pow2Split(i, j - 1);
      assert Pow2(i) * (2 * Pow2(j - 1)) == 2 * (Pow2(i) * Pow2(j - 1));
    }
  }

  lemma OddTimesOdd(a: int, s: int)
    requires a % 2 == 1 && s % 2 == 1
    ensures (a * s) % 2 == 1
  {
    var b, t := a / 2, s / 2;
    assert a * s == (2 * b + 1) * (2 * t + 1) == 2 * (2 * b * t + b + t) + 1;
  }

  lemma ExactMultiple(x: int, q: int, m: nat)
    requires m > 0 && x == q * m
    ensures x % m == 0
  {
    ModPlusMultiple(0, q, m);
  }

  /** An odd factor is coprime to a power of two. */
  lemma {:induction false} OddIsCoprime(k: nat, a: int, s: int)
    requires s % 2 == 1
    requires (a * s) % Pow2(k) == 0
    ensures a % Pow2(k) == 0
    decreases k
  {
    if k > 0 {
      var half := Pow2(k - 1);
      var q := (a * s) / Pow2(k);
      assert a * s == q * (2 * half) == 2 * (q * half);
      if a % 2 == 1 {
        OddTimesOdd(a, s);
      }
      var b := a / 2;
      assert a == 2 * b;
      assert (2 * b) * s == 2 * (b * s);
      assert b * s == q * half;
      ExactMultiple(b * s, q, half);
      OddIsCoprime(k - 1, b, s);
      var m := b / half;
      assert b == m * half;
      assert a == 2 * (m * half) == m * Pow2(k);
      ExactMultiple(a, m, Pow2(k));
    }
  }

  lemma SmallRemainder(x: nat, m: nat)
    requires x < m
    ensures x % m == x
  {
  }

  /** Two probes closer together than the table size never meet. */
  lemma ProbesAreDistinct(start: int, step: int, size: nat, i: nat, j: nat)
    requires IsPow2(size) && step % 2 == 1
    requires i < j < size
    ensures Cell(start, step, i, size) != Cell(start, step, j, size)
  {
    hide Cell, Pow2;
    SmallRemainder(j - i, size);
    if Cell(start, step, i, size) == Cell(start, step, j, size) {
      var k: nat :| size == Pow2(k);
      DistanceIsMultiple(start, step, size, i, j);
      OddIsCoprime(k, j - i, step);
    }
  }

  lemma DistanceIsMultiple(start: int, step: int, size: nat, i: nat, j: nat)
    requires size > 0 && i < j
    requires Cell(start, step, i, size) == Cell(start, step, j, size)
    ensures ((j - i) * step) % size == 0
  {
    var x, y := start + i * step, start + j * step;
    EqualRemainders(x, y, size);
    assert y - x == (j - i) * step;
  }

  lemma EqualRemainders(x: int, y: int, m: nat)
    requires m > 0 && x % m == y % m
    ensures (y - x) % m == 0
  {
    var p, q := x / m, y / m;
    assert x == p * m + x % m && y == q * m + y % m;
    assert q * m - p * m == (q - p) * m;
    ExactMultiple(y - x, q - p, m);
  }

  ghost function Visited(start: int, step: int, n: nat, size: nat): set<nat>
    requires size > 0
  {
    set j: nat | j < n :: Cell(start, step, j, size)
  }

  ghost function Below(n: nat): (s: set<nat>)
    ensures |s| == n
    ensures forall i: nat :: i in s <==> i < n
  {
    if n == 0 then {} else Below(n - 1) + {n - 1}
  }

  lemma {:induction false} VisitedSize(start: int, step: int, n: nat, size: nat)
    requires IsPow2(size) && step % 2 == 1 && n <= size
    ensures |Visited(start, step, n, size)| == n
    decreases n
  {
    if n > 0 {
      VisitedSize(start, step, n - 1, size);
      var last := Cell(start, step, n - 1, size);
      forall j: nat | j < n - 1
        ensures Cell(start, step, j, size) != last
      {
        ProbesAreDistinct(start, step, size, j, n - 1);
      }
      assert Visited(start, step, n, size) == Visited(start, step, n - 1, size) + {last};
    }
  }

  /** The first `size` probes visit each cell, and visit it exactly once. */
  lemma ProbesCoverTheTable(start: int, step: int, size: nat, c: nat)
    requires IsPow2(size) && step % 2 == 1 && c < size
    ensures exists j: nat :: j < size && Cell(start, step, j, size) == c
    ensures forall i: nat, j: nat :: i < size && j < size && i != j
              ==> Cell(start, step, i, size) != Cell(start, step, j, size)
  {
    var visited := Visited(start, step, size, size);
    VisitedSize(start, step, size, size);
    SubsetOfSameSize(visited, Below(size));
    assert c in visited;
    forall i: nat, j: nat | i < size && j < size && i != j
      ensures Cell(start, step, i, size) != Cell(start, step, j, size)
    {
      ProbesAreDistinct(start, step, size, if i < j then i else j, if i < j then j else i);
    }
  }

  lemma SubsetOfSameSize(a: set<nat>, b: set<nat>)
    requires a <= b && |a| == |b|
    ensures a == b
  {
    assert b == a + (b - a);
    assert |b| == |a| + |b - a|;
    assert b - a == {};
  }
}
