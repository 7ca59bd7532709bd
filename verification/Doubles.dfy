/** JavaScript's numbers, as far as whole ones go: IEEE 754 doubles with rounding to
    nearest, ties to even, and the infinities and NaN. */
module Doubles {

  datatype Num = Fin(x: int) | PosInf | NegInf | NaN

  const TWO_52 := 0x10_0000_0000_0000
  const TWO_53 := 0x20_0000_0000_0000

  /** The exponent from which on a number overflows. */
  const TOP: nat := 1024

  function Pow2(n: nat): (p: nat)
    ensures p >= 1
  {
    if n == 0 then 1 else 2 * Pow2(n - 1)
  }

  // ------------------------------------------------------------ rounding

  /** The whole number nearest to num / den, the even one of two. */
  function Nearest(num: nat, den: nat): nat
    requires den >= 1
  {
    Choice(num / den, num % den, den)
  }

  function Choice(q: nat, r: nat, den: nat): nat {
    if 2 * r < den || (2 * r == den && q % 2 == 0) then q else q + 1
  }

  /** The double nearest to num / den from 2^52 on: 53 significant bits, then zeros. */
  function RoundLarge(num: nat, den: nat): nat
    requires den >= 1 && num >= TWO_52 * den
    decreases num - den
  {
    if num >= TWO_53 * den then 2 * RoundLarge(num, 2 * den) else Nearest(num, den)
  }

  /** The double nearest to num / den, rounded down to a whole number. */
  function FloorRatio(num: nat, den: nat): nat
    requires den >= 1
    decreases TWO_52 * den - num
  {
    if num == 0 then 0
    else if num < TWO_52 * den then FloorRatio(2 * num, den) / 2
    else RoundLarge(num, den)
  }

  /** The same, rounded up. */
  function CeilRatio(num: nat, den: nat): nat
    requires den >= 1
    decreases TWO_52 * den - num
  {
    if num == 0 then 0
    else if num < TWO_52 * den then (CeilRatio(2 * num, den) + 1) / 2
    else RoundLarge(num, den)
  }

  function Signed(positive: bool): Num {
    if positive then PosInf else NegInf
  }

  function Abs(x: int): nat {
    if x < 0 then -x else x
  }

  function Sized(size: int, positive: bool): Num {
    if size >= Pow2(TOP) then Signed(positive) else Fin(if positive then size else -size)
  }

  /** The double that stands for a whole number. */
  function Round(x: int): (r: Num)
    ensures !r.NaN?
  {
    if -TWO_53 <= x <= TWO_53 then Fin(x) else Sized(RoundLarge(Abs(x), 1), x > 0)
  }

  lemma RoundSmall(x: int)
    requires -TWO_53 <= x <= TWO_53
    ensures Round(x) == Fin(x)
  {
  }

  // ------------------------------------------------------------ arithmetic

  function Add(a: Num, b: Num): Num {
    match (a, b)
    case (Fin(x), Fin(y)) => Round(x + y)
    case (NaN, _) => NaN
    case (_, NaN) => NaN
    case (PosInf, NegInf) => NaN
    case (NegInf, PosInf) => NaN
    case (Fin(_), _) => b
    case (_, _) => a
  }

  function Negate(a: Num): Num {
    match a
    case Fin(x) => Fin(-x)
    case PosInf => NegInf
    case NegInf => PosInf
    case NaN => NaN
  }

  function Sub(a: Num, b: Num): Num {
    Add(a, Negate(b))
  }

  predicate Positive(a: Num) {
    a == PosInf || (a.Fin? && a.x > 0)
  }

  predicate Zero(a: Num) {
    a == Fin(0)
  }

  function Mul(a: Num, b: Num): Num {
    if a.NaN? || b.NaN? then NaN
    else if a.Fin? && b.Fin? then Round(a.x * b.x)
    else if Zero(a) || Zero(b) then NaN
    else Signed(Positive(a) == Positive(b))
  }

  function FloorQuotient(a: int, b: int): int
    requires b != 0
  {
    if (a >= 0) == (b > 0) then FloorRatio(Abs(a), Abs(b)) else 0 - CeilRatio(Abs(a), Abs(b))
  }

  /** `Math.floor(a / b)`. */
  function FloorDiv(a: Num, b: Num): Num {
    if a.NaN? || b.NaN? then NaN
    else if a.Fin? && b.Fin? then
      if b.x != 0 then Fin(FloorQuotient(a.x, b.x))
      else if a.x == 0 then NaN else Signed(a.x > 0)
    else if a.Fin? then Fin(0)
    else if b.Fin? then Signed(Positive(a) == (b.x >= 0))
    else NaN
  }

  /** `%`, which takes the sign of the dividend. */
  function Rem(a: Num, b: nat): Num
    requires b >= 1
  {
    if a.Fin? then Fin(if a.x >= 0 then a.x % b else -((-a.x) % b)) else NaN
  }

  /** The conversion in front of every shift. */
  function ToInt32(a: Num): int {
    if !a.Fin? then 0
    else
      var r := a.x % 0x1_0000_0000;
      if r >= 0x8000_0000 then r - 0x1_0000_0000 else r
  }

  predicate Less(a: Num, b: Num) {
    !a.NaN? && !b.NaN? && a != b && (a == NegInf || b == PosInf || (a.Fin? && b.Fin? && a.x < b.x))
  }

  // ------------------------------------------------------------ how far rounding goes

  lemma MulMono(a: int, b: int, c: nat)
    requires a <= b
    ensures a * c <= b * c
  {
  }

  lemma Division(num: nat, den: nat, q: nat, r: nat)
    requires den >= 1 && q == num / den && r == num % den
    ensures num == q * den + r && r < den
  {
  }

  lemma ChoiceAtMost(q: nat, r: nat, den: nat, b: nat)
    requires r < den && q * den + r <= b * den
    ensures Choice(q, r, den) <= b
  {
    if q >= b {
      MulMono(b, q, den);
      if q > b {
        MulMono(b + 1, q, den);
      }
    }
  }

  lemma ChoiceAtLeast(q: nat, r: nat, den: nat, b: nat)
    requires r < den && q * den + r >= b * den
    ensures Choice(q, r, den) >= b
  {
    if q < b {
      MulMono(q + 1, b, den);
    }
  }

  /** Rounding does not cross a whole number. */
  lemma NearestBounds(num: nat, den: nat, b: nat)
    requires den >= 1
    ensures num <= b * den ==> Nearest(num, den) <= b
    ensures num >= b * den ==> Nearest(num, den) >= b
  {
    var q, r := num / den, num % den;
    Division(num, den, q, r);
    if num <= b * den {
      ChoiceAtMost(q, r, den, b);
    }
    if num >= b * den {
      ChoiceAtLeast(q, r, den, b);
    }
  }

  lemma NearestNear(num: nat, den: nat)
    requires den >= 1
    ensures 2 * num - den <= 2 * (Nearest(num, den) * den) <= 2 * num + den
  {
    var q, r := num / den, num % den;
    Division(num, den, q, r);
    assert (q + 1) * den == q * den + den;
  }

  lemma {:induction false} LargeAtMost(num: nat, den: nat, m: nat)
    requires den >= 1 && TWO_52 * den <= num <= Pow2(m) * den
    ensures RoundLarge(num, den) <= Pow2(m)
    decreases num - den
  {
    if num < TWO_53 * den {
      NearestBounds(num, den, Pow2(m));
    } else {
      assert m > 0;
      LargeAtMost(num, 2 * den, m - 1);
    }
  }

  lemma {:induction false} LargeAtLeast(num: nat, den: nat, m: nat)
    requires den >= 1 && TWO_52 * den <= num && Pow2(m) * den <= num
    ensures RoundLarge(num, den) >= Pow2(m)
    decreases num - den
  {
    if num < TWO_53 * den {
      NearestBounds(num, den, Pow2(m));
    } else {
      LargeAtLeast(num, 2 * den, if m == 0 then 0 else m - 1);
    }
  }

  /** r is x rounded to a multiple of the unit u, to the nearest and, of two, to the one
      whose number of units is even. */
  predicate IsRounded(x: nat, u: nat, r: nat) {
    && u >= 1 && r % u == 0
    && 2 * x - u <= 2 * r <= 2 * x + u
    && (2 * r == 2 * x - u || 2 * r == 2 * x + u ==> r / u % 2 == 0)
  }

  lemma NearestIsRounded(x: nat, u: nat)
    requires u >= 1
    ensures IsRounded(x, u, Nearest(x, u) * u)
  {
    var q, r := x / u, x % u;
    Division(x, u, q, r);
    var n := Nearest(x, u);
    assert (q + 1) * u == q * u + u;
    MultipleOf(n, u);
  }

  lemma MultipleOf(n: nat, u: nat)
    requires u >= 1
    ensures n * u % u == 0 && n * u / u == n
  {
    var q, r := n * u / u, n * u % u;
    Division(n * u, u, q, r);
    if q < n {
      MulMono(q + 1, n, u);
    } else if q > n {
      MulMono(n + 1, q, u);
    }
  }

  lemma TwiceOut(a: nat, b: nat)
    ensures 2 * a * b == a * (2 * b)
  {
  }

  lemma {:induction false} LargeIs(x: nat, k: nat) returns (m: nat)
    requires TWO_52 * Pow2(k) <= x
    ensures TWO_52 * Pow2(m) <= x < TWO_53 * Pow2(m)
    ensures Pow2(k) * RoundLarge(x, Pow2(k)) == Nearest(x, Pow2(m)) * Pow2(m)
    decreases x - Pow2(k)
  {
    hide Nearest;
    if x < TWO_53 * Pow2(k) {
      m := k;
    } else {
      assert Pow2(k + 1) == 2 * Pow2(k);
      m := LargeIs(x, k + 1);
      TwiceOut(Pow2(k), RoundLarge(x, 2 * Pow2(k)));
    }
  }

  /** Rounding as IEEE 754 has it: from 2^52 on, to the unit of 53 significant bits. */
  lemma RoundLargeIs(x: nat) returns (m: nat)
    requires x >= TWO_52
    ensures TWO_52 * Pow2(m) <= x < TWO_53 * Pow2(m) && IsRounded(x, Pow2(m), RoundLarge(x, 1))
  {
    hide Nearest, RoundLarge;
    m := LargeIs(x, 0);
    NearestIsRounded(x, Pow2(m));
  }

  lemma {:induction false} Pow2Mono(m: nat, n: nat)
    requires m <= n
    ensures Pow2(m) <= Pow2(n)
    decreases n
  {
    if m < n {
      Pow2Mono(m, n - 1);
    }
  }

  lemma SizedAtMost(size: nat, positive: bool, m: nat)
    requires size <= Pow2(m) && m < TOP
    ensures Sized(size, positive).Fin? && Abs(Sized(size, positive).x) == size
  {
    Pow2Mono(m, TOP - 1);
  }

  lemma SizedAtLeast(size: nat, m: nat)
    requires size >= Pow2(m)
    ensures Sized(size, true) == PosInf || Sized(size, true) == Fin(size)
    ensures m >= TOP ==> Sized(size, true) == PosInf
  {
    if m >= TOP {
      Pow2Mono(TOP, m);
    }
  }

  /** Rounding does not cross a power of two, and what is below 2^1023 does not overflow. */
  lemma RoundAtMost(x: int, m: nat)
    requires Abs(x) <= Pow2(m) && m < TOP
    ensures Round(x).Fin? && Abs(Round(x).x) <= Pow2(m)
  {
    if !(-TWO_53 <= x <= TWO_53) {
      LargeAtMost(Abs(x), 1, m);
      SizedAtMost(RoundLarge(Abs(x), 1), x > 0, m);
    }
  }

  lemma RoundAtLeast(x: int, m: nat)
    requires x >= Pow2(m)
    ensures Round(x) == PosInf || (Round(x).Fin? && Round(x).x >= Pow2(m))
    ensures m >= TOP ==> Round(x) == PosInf
  {
    if m >= TOP {
      Pow2Mono(54, m);
      Pow2Is54();
    }
    if x > TWO_53 {
      LargeAtLeast(x, 1, m);
      SizedAtLeast(RoundLarge(x, 1), m);
    }
  }

  lemma {:induction false} Pow2Add(m: nat, n: nat)
    ensures Pow2(m + n) == Pow2(m) * Pow2(n)
    decreases n
  {
    if n > 0 {
      Pow2Add(m, n - 1);
      assert 2 * (Pow2(m) * Pow2(n - 1)) == Pow2(m) * (2 * Pow2(n - 1));
    }
  }

  lemma Pow2Is54()
    ensures Pow2(54) == 2 * TWO_53
  {
    assert Pow2(9) == 512;
    Pow2Add(9, 9);
    Pow2Add(18, 9);
    Pow2Add(27, 27);
  }

  // ------------------------------------------------------------ division is exact below 2^53

  lemma GridWide(a: nat, num: nat, den: nat, g: nat)
    requires g >= 1 && num == g * a && a < TWO_53 && TWO_52 * den <= num
    ensures 2 * g > den
  {
    MulMono(a + 1, TWO_53, g);
  }

  lemma GridPoint(a: nat, den: nat, g: nat, q: int)
    ensures q * den <= a ==> (q * g) * den <= g * a
    ensures q * den >= a ==> (q * g) * den >= g * a
    ensures q * den > a ==> (q * g) * den >= g * a + g
    ensures q * den < a ==> (q * g) * den <= g * a - g
  {
    assert (q * g) * den == (q * den) * g;
    if q * den <= a {
      MulMono(q * den, a, g);
    }
    if q * den >= a {
      MulMono(a, q * den, g);
    }
    if q * den > a {
      MulMono(a + 1, q * den, g);
    }
    if q * den < a {
      MulMono(q * den, a - 1, g);
    }
  }

  lemma BelowGrid(n: nat, top: nat, num: nat, den: nat, g: nat)
    requires num + g <= top * den && 2 * (n * den) <= 2 * num + den && den < 2 * g
    ensures n < top
  {
    if n >= top {
      MulMono(top, n, den);
    }
  }

  lemma AboveGrid(n: nat, low: nat, num: nat, den: nat, g: nat)
    requires low * den <= num - g && 2 * num - den <= 2 * (n * den) && den < 2 * g
    ensures low < n
  {
    if n <= low {
      MulMono(n, low, den);
    }
  }

  /** The scaled quotient of num == g * a, which rounding does not push over the next
      multiple of g. */
  lemma NearestExact(a: nat, num: nat, den: nat, g: nat, q: nat)
    requires den >= 1 && g >= 1 && num == g * a && a < TWO_53
    requires TWO_52 * den <= num && q * den <= a < (q + 1) * den
    ensures q * g <= Nearest(num, den) < (q + 1) * g
  {
    GridWide(a, num, den, g);
    GridPoint(a, den, g, q);
    GridPoint(a, den, g, q + 1);
    NearestBounds(num, den, q * g);
    NearestNear(num, den);
    BelowGrid(Nearest(num, den), (q + 1) * g, num, den, g);
  }

  lemma Doubled(q: int, g: int)
    ensures q * (2 * g) == 2 * (q * g)
  {
  }

  lemma {:induction false} FloorScaled(a: nat, num: nat, den: nat, g: nat, q: nat)
    requires den >= 1 && g >= 1 && num == g * a && 1 <= a < TWO_53 && num < TWO_53 * den
    requires q * den <= a < (q + 1) * den
    ensures q * g <= FloorRatio(num, den) < (q + 1) * g
    decreases TWO_52 * den - num
  {
    if num < TWO_52 * den {
      assert num >= 1;
      FloorScaled(a, 2 * num, den, 2 * g, q);
      Doubled(q, g);
      Doubled(q + 1, g);
    } else {
      NearestExact(a, num, den, g, q);
    }
  }

  /** The rounded quotient of whole numbers below 2^53 has the exact quotient's floor. */
  lemma FloorExact(a: nat, b: nat)
    requires b >= 1 && a < TWO_53
    ensures FloorRatio(a, b) == a / b
  {
    Division(a, b, a / b, a % b);
    assert (a / b + 1) * b == (a / b) * b + b;
    MulMono(1, b, TWO_53);
    if a >= 1 {
      FloorScaled(a, a, b, 1, a / b);
    }
  }

  lemma CeilNearest(a: nat, num: nat, den: nat, g: nat, q: nat)
    requires den >= 1 && g >= 1 && num == g * a && a < TWO_53
    requires TWO_52 * den <= num && q >= 1 && (q - 1) * den < a <= q * den
    ensures (q - 1) * g < Nearest(num, den) <= q * g
  {
    GridWide(a, num, den, g);
    GridPoint(a, den, g, q - 1);
    GridPoint(a, den, g, q);
    NearestBounds(num, den, q * g);
    NearestNear(num, den);
    AboveGrid(Nearest(num, den), (q - 1) * g, num, den, g);
  }

  lemma {:induction false} CeilScaled(a: nat, num: nat, den: nat, g: nat, q: nat)
    requires den >= 1 && g >= 1 && num == g * a && 1 <= a < TWO_53 && num < TWO_53 * den
    requires q >= 1 && (q - 1) * den < a <= q * den
    ensures (q - 1) * g < CeilRatio(num, den) <= q * g
    decreases TWO_52 * den - num
  {
    if num < TWO_52 * den {
      assert num >= 1;
      CeilScaled(a, 2 * num, den, 2 * g, q);
      Doubled(q - 1, g);
      Doubled(q, g);
    } else {
      CeilNearest(a, num, den, g, q);
    }
  }

  lemma CeilExact(a: nat, b: nat)
    requires b >= 1 && 1 <= a < TWO_53
    ensures CeilRatio(a, b) == (a - 1) / b + 1
  {
    var q := (a - 1) / b;
    Division(a - 1, b, q, (a - 1) % b);
    assert (q + 1) * b == q * b + b;
    MulMono(1, b, TWO_53);
    CeilScaled(a, a, b, 1, q + 1);
  }

  // ------------------------------------------------------------ division does not grow

  lemma {:induction false} LargeSize(num: nat, den: nat)
    requires den >= 1 && num >= TWO_52 * den
    ensures RoundLarge(num, den) * den <= 2 * num
    decreases num - den
  {
    if num < TWO_53 * den {
      NearestNear(num, den);
    } else {
      LargeSize(num, 2 * den);
      assert (2 * RoundLarge(num, 2 * den)) * den == RoundLarge(num, 2 * den) * (2 * den);
    }
  }

  lemma {:induction false} FloorSize(num: nat, den: nat)
    requires den >= 1
    ensures FloorRatio(num, den) * den <= 2 * num
    decreases TWO_52 * den - num
  {
    if 0 < num < TWO_52 * den {
      FloorSize(2 * num, den);
      var f := FloorRatio(2 * num, den);
      MulMono(2 * (f / 2), f, den);
      assert 2 * ((f / 2) * den) == (2 * (f / 2)) * den;
    } else if num > 0 {
      LargeSize(num, den);
    }
  }

  lemma FactorAtMost(r: nat, den: nat, x: nat)
    requires den >= 1 && r * den <= x
    ensures r <= x
  {
    MulMono(1, den, r);
  }

  lemma {:induction false} CeilSize(num: nat, den: nat)
    requires den >= 1
    ensures CeilRatio(num, den) <= 2 * num
    decreases TWO_52 * den - num
  {
    if 0 < num < TWO_52 * den {
      CeilSize(2 * num, den);
    } else if num > 0 {
      LargeSize(num, den);
      FactorAtMost(RoundLarge(num, den), den, 2 * num);
    }
  }

  lemma QuotientSize(a: int, b: int)
    requires b != 0
    ensures Abs(FloorQuotient(a, b)) <= 2 * Abs(a)
  {
    FloorSize(Abs(a), Abs(b));
    CeilSize(Abs(a), Abs(b));
    FactorAtMost(FloorRatio(Abs(a), Abs(b)), Abs(b), 2 * Abs(a));
  }
}
