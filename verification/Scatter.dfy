/** The seed's number scattering: a stride walk over a vendor's invoices, and the amounts it
    gives, in whole cents rounded half to even. */
module Scatter {
  import opened Wrappers

  const STRIDES := [7, 5, 3, 11, 13]

  /** `math.gcd`. */
  function Gcd(a: nat, b: nat): nat
    decreases b
  {
    if b == 0 then a else Gcd(b, a % b)
  }

  function FirstCoprime(strides: seq<nat>, count: nat): Option<nat> {
    if strides == [] then None
    else if Gcd(strides[0], count) == 1 then Some(strides[0])
    else FirstCoprime(strides[1..], count)
  }

  /** The stride of a plan; None where the source's `next` raises. */
  function Stride(count: nat): Option<nat> {
    FirstCoprime(STRIDES, count)
  }

  /** Invoice `i`'s position among the plan's `count`: the numerator of `_scatter`, whose denominator
      is `Denominator(count)`. */
  function Position(count: nat, stride: nat, i: nat): nat
    requires count > 0
  {
    (i * stride) % count
  }

  function Denominator(count: nat): nat {
    if count > 2 then count - 1 else 1
  }

  // ----- products -----

  lemma Distribute(a: int, b: int, c: int)
    ensures (a + b) * c == a * c + b * c && (a - b) * c == a * c - b * c
  {
  }

  lemma Regroup(a: int, b: int, c: int)
    ensures (a * b) * c == a * (b * c)
  {
  }

  lemma Grows(a: int, b: int, c: nat)
    requires a <= b
    ensures a * c <= b * c
  {
  }

  lemma Division(a: int, n: nat)
    requires n > 0
    ensures a == n * (a / n) + a % n && 0 <= a % n < n
  {
  }

  // ----- the walk is a permutation -----

  ghost predicate Divides(n: nat, v: int) {
    exists k: int :: Multiple(n, v, k)
  }

  predicate Multiple(n: nat, v: int, k: int) {
    v == n * k
  }

  lemma DividesDifference(n: nat, u: int, v: int)
    requires Divides(n, u) && Divides(n, v)
    ensures Divides(n, u - v)
  {
    var j: int :| Multiple(n, u, j);
    var k: int :| Multiple(n, v, k);
    Distribute(j, k, n);
    assert Multiple(n, u - v, j - k);
  }

  lemma DividesProduct(n: nat, v: int, c: int)
    requires Divides(n, v)
    ensures Divides(n, v * c)
  {
    var k: int :| Multiple(n, v, k);
    Regroup(n, k, c);
    assert Multiple(n, v * c, k * c);
  }

  /** What divides both multiples of `d` divides `d` times their greatest common divisor. */
  lemma {:induction false} DividesGcd(n: nat, d: int, a: nat, b: nat)
    requires Divides(n, d * a) && Divides(n, d * b)
    ensures Divides(n, d * Gcd(a, b))
    decreases b
  {
    if b > 0 {
      DividesProduct(n, d * b, a / b);
      DividesDifference(n, d * a, (d * b) * (a / b));
      RemainderTimes(d, a, b);
      DividesGcd(n, d, b, a % b);
    }
  }

  lemma RemainderTimes(d: int, a: nat, b: nat)
    requires b > 0
    ensures d * a - (d * b) * (a / b) == d * (a % b)
  {
    Division(a, b);
    Regroup(d, b, a / b);
    var p := b * (a / b);
    assert d * (p + a % b) == d * p + d * (a % b);
  }

  lemma SmallMultiple(n: nat, d: int)
    requires n > 0 && -(n as int) < d < n && Divides(n, d)
    ensures d == 0
  {
    var k: int :| Multiple(n, d, k);
    if k >= 1 { Grows(1, k, n); }
    if k <= -1 { Grows(k, -1, n); }
  }

  lemma PositionInjective(n: nat, s: nat, i: nat, j: nat)
    requires n > 0 && Gcd(s, n) == 1 && i < n && j < n && Position(n, s, i) == Position(n, s, j)
    ensures i == j
  {
    hide Divides, Gcd;
    SameRemainder(i * s, j * s, n);
    Distribute(i, j, s);
    var d := i - j;
    DividesItself(n, d);
    DividesGcd(n, d, s, n);
    TimesOne(d, Gcd(s, n));
    SmallMultiple(n, d);
  }

  lemma TimesOne(d: int, g: int)
    requires g == 1
    ensures d * g == d
  {
  }

  lemma DividesItself(n: nat, d: int)
    ensures Divides(n, d * n)
  {
    assert Multiple(n, d * n, d);
  }

  lemma SameRemainder(a: nat, b: nat, n: nat)
    requires n > 0 && a % n == b % n
    ensures Divides(n, a - b)
  {
    Division(a, n);
    Division(b, n);
    Distribute(a / n, b / n, n);
    assert Multiple(n, a - b, a / n - b / n);
  }

  lemma {:induction false} FirstCoprimeIs(strides: seq<nat>, count: nat)
    ensures var s := FirstCoprime(strides, count);
            && (s.Some? ==> s.value in strides && Gcd(s.value, count) == 1)
            && (s.None? <==> forall k :: k in strides ==> Gcd(k, count) != 1)
  {
    if strides != [] {
      FirstCoprimeIs(strides[1..], count);
      assert strides == [strides[0]] + strides[1..];
    }
  }

  function Positions(count: nat, stride: nat): seq<nat>
    requires count > 0
  {
    seq(count, i requires 0 <= i < count => Position(count, stride, i))
  }

  /** Whenever some listed stride is coprime to the count, the positions of invoices 0 .. count - 1 are
      each of 0 .. count - 1 exactly once; with no such stride there is none at all. */
  lemma ScatterPermutes(count: nat)
    requires count > 0
    ensures Stride(count).Some? <==> exists k :: k in STRIDES && Gcd(k, count) == 1
    ensures Stride(count).Some? ==>
              var walk := Positions(count, Stride(count).value);
              && (forall i, j :: 0 <= i < j < count ==> walk[i] != walk[j])
              && (forall p :: p in walk <==> 0 <= p < count)
  {
    FirstCoprimeIs(STRIDES, count);
    if Stride(count).Some? {
      var s := Stride(count).value;
      var walk := Positions(count, s);
      forall i, j | 0 <= i < j < count ensures walk[i] != walk[j] {
        if walk[i] == walk[j] { PositionInjective(count, s, i, j); }
      }
      forall i | 0 <= i < count ensures walk[i] < count {
        Division(i * s, count);
      }
      hide Positions;
      FillsRange(walk, count);
    }
  }

  /** `m` distinct numbers below `m` are all of them. */
  lemma FillsRange(values: seq<nat>, m: nat)
    requires |values| == m && forall i :: 0 <= i < m ==> values[i] < m
    requires forall i, j :: 0 <= i < j < m ==> values[i] != values[j]
    ensures forall p :: p in values <==> 0 <= p < m
  {
    RangeSize(0, m);
    SeqSize(values);
    SubsetEqual(Image(values), Range(0, m));
    forall p ensures p in values <==> 0 <= p < m {
      assert p in values <==> p in Image(values);
    }
  }

  function Range(low: nat, m: nat): set<int> {
    if m == 0 then {} else Range(low, m - 1) + {low + m - 1}
  }

  function Image(values: seq<int>): set<int> {
    set v | v in values
  }

  lemma {:induction false} RangeSize(low: nat, m: nat)
    ensures forall v :: v in Range(low, m) <==> low <= v < low + m
    ensures |Range(low, m)| == m
  {
    if m > 0 {
      RangeSize(low, m - 1);
      GrowByOne(Range(low, m - 1), low + m - 1);
    }
  }

  lemma GrowByOne(a: set<int>, v: int)
    requires v !in a
    ensures |a + {v}| == |a| + 1
  {
  }

  lemma {:induction false} SeqSize(values: seq<nat>)
    requires forall i, j :: 0 <= i < j < |values| ==> values[i] != values[j]
    ensures |Image(values)| == |values|
  {
    if values == [] {
      assert Image(values) == {};
    } else {
      var last := |values| - 1;
      var rest := values[..last];
      SeqSize(rest);
      ImageGrows(rest, values[last]);
      assert values == rest + [values[last]];
      assert values[last] !in rest;
    }
  }

  lemma ImageGrows(values: seq<int>, v: int)
    ensures Image(values + [v]) == Image(values) + {v}
    ensures v !in values ==> |Image(values + [v])| == |Image(values)| + 1
  {
    forall x: int ensures x in Image(values + [v]) <==> x in Image(values) + {v} {
      assert x in values + [v] <==> x in values || x == v;
    }
  }

  lemma SubsetSize(a: set<int>, b: set<int>)
    requires a <= b
    ensures |a| <= |b|
  {
    assert b == a + (b - a);
  }

  lemma SubsetEqual(a: set<int>, b: set<int>)
    requires a <= b && |a| == |b|
    ensures a == b
  {
    assert b == a + (b - a);
  }

  // ----- amounts -----

  /** `num / den` rounded to the nearest integer, ties to even: `quantize` to the cent. */
  function RoundHalfEven(num: nat, den: nat): nat
    requires den > 0
  {
    var q, r := num / den, num % den;
    if 2 * r > den || (2 * r == den && q % 2 == 1) then q + 1 else q
  }

  /** `low + (high - low) * position / denominator`, in cents. */
  function Amount(low: nat, high: nat, count: nat, stride: nat, i: nat): nat
    requires count > 0 && low <= high
  {
    var d := Denominator(count);
    RoundHalfEven(low * d + (high - low) * Position(count, stride, i), d)
  }

  /** Rounding moves a value by at most half. */
  lemma RoundNear(num: nat, den: nat)
    requires den > 0
    ensures var r := RoundHalfEven(num, den); 2 * num - den <= 2 * (r * den) <= 2 * num + den
  {
    var q := num / den;
    Division(num, den);
    Distribute(q, 1, den);
  }

  lemma RoundExact(k: nat, den: nat)
    requires den > 0
    ensures RoundHalfEven(k * den, den) == k
  {
    RoundNear(k * den, den);
    var r := RoundHalfEven(k * den, den);
    Distribute(k, 1, den);
    if r > k { Grows(k + 1, r, den); }
    if r < k { Grows(r, k - 1, den); }
  }

  lemma RoundBounded(num: nat, den: nat, low: nat, high: nat)
    requires den > 0 && low * den <= num <= high * den
    ensures low <= RoundHalfEven(num, den) <= high
  {
    RoundNear(num, den);
    var r := RoundHalfEven(num, den);
    Distribute(high, 1, den);
    Distribute(low, 1, den);
    if r > high { Grows(high + 1, r, den); }
    if r < low { Grows(r, low - 1, den); }
  }

  lemma PositionWithin(count: nat, stride: nat, i: nat)
    requires count > 0
    ensures Position(count, stride, i) <= Denominator(count)
  {
    Division(i * stride, count);
  }

  /** Every amount lies between the plan's bounds. */
  lemma AmountInRange(low: nat, high: nat, count: nat, stride: nat, i: nat)
    requires count > 0 && low <= high
    ensures low <= Amount(low, high, count, stride, i) <= high
  {
    var d, p := Denominator(count), Position(count, stride, i);
    PositionWithin(count, stride, i);
    hide Position, RoundHalfEven, Denominator;
    Grows(p, d, high - low);
    Distribute(high, low, d);
    RoundBounded(low * d + (high - low) * p, d, low, high);
  }

  lemma RoundApart(a: nat, b: nat, den: nat)
    requires den > 0 && a + den < b
    ensures RoundHalfEven(a, den) < RoundHalfEven(b, den)
  {
    RoundNear(a, den);
    RoundNear(b, den);
    var r, s := RoundHalfEven(a, den), RoundHalfEven(b, den);
    hide RoundHalfEven;
    if s <= r { Grows(s, r, den); }
  }

  lemma StepsApart(low: nat, span: nat, d: nat, p: nat, q: nat)
    requires d > 0 && p < q && span >= d
    ensures RoundHalfEven(low * d + span * p, d) != RoundHalfEven(low * d + span * q, d)
  {
    hide RoundHalfEven;
    if span == d {
      Distribute(low, p, d);
      Distribute(low, q, d);
      RoundExact(low + p, d);
      RoundExact(low + q, d);
    } else {
      Distribute(q, p, span);
      Grows(1, q - p, span);
      RoundApart(low * d + span * p, low * d + span * q, d);
    }
  }

  predicate AmountsDistinct(low: nat, high: nat, count: nat, stride: nat)
    requires count > 0 && low <= high
  {
    forall i, j :: 0 <= i < j < count ==> Amount(low, high, count, stride, i) != Amount(low, high, count, stride, j)
  }

  /** Distinct values in a range of `m` integers number at most `m`. */
  lemma Pigeonhole(values: seq<nat>, low: nat, m: nat)
    requires forall i :: 0 <= i < |values| ==> low <= values[i] < low + m
    requires forall i, j :: 0 <= i < j < |values| ==> values[i] != values[j]
    ensures |values| <= m
  {
    RangeSize(low, m);
    SeqSize(values);
    SubsetSize(Image(values), Range(low, m));
  }

  lemma EnoughCents(low: nat, high: nat, count: nat, stride: nat, i: nat, j: nat)
    requires count > 0 && low <= high && high - low >= Denominator(count)
    requires Position(count, stride, i) != Position(count, stride, j)
    ensures Amount(low, high, count, stride, i) != Amount(low, high, count, stride, j)
  {
    var p, q := Position(count, stride, i), Position(count, stride, j);
    hide RoundHalfEven, Position;
    if p < q { StepsApart(low, high - low, Denominator(count), p, q); }
    else { StepsApart(low, high - low, Denominator(count), q, p); }
  }

  lemma TooFewCents(low: nat, high: nat, count: nat, stride: nat)
    requires count > 0 && low <= high && AmountsDistinct(low, high, count, stride)
    ensures high - low >= count - 1
  {
    hide Amount;
    var values := seq(count, i requires 0 <= i < count => Amount(low, high, count, stride, i));
    forall i | 0 <= i < count ensures low <= values[i] < low + (high - low + 1) {
      AmountInRange(low, high, count, stride, i);
    }
    Pigeonhole(values, low, high - low + 1);
  }

  /** The amounts of a plan are pairwise distinct exactly when its range holds enough cents: at least one per
      step of the walk. */
  lemma AmountsDistinctExactly(low: nat, high: nat, count: nat, stride: nat)
    requires count > 0 && low <= high && Stride(count) == Some(stride)
    ensures AmountsDistinct(low, high, count, stride) <==> high - low >= count - 1
  {
    ScatterPermutes(count);
    hide Amount, Stride, Position;
    if high - low >= count - 1 && count > 1 {
      forall i, j | 0 <= i < j < count
        ensures Amount(low, high, count, stride, i) != Amount(low, high, count, stride, j)
      {
        var walk := Positions(count, stride);
        assert walk[i] == Position(count, stride, i) && walk[j] == Position(count, stride, j);
        EnoughCents(low, high, count, stride, i, j);
      }
    }
    if AmountsDistinct(low, high, count, stride) { TooFewCents(low, high, count, stride); }
  }

  /** For example three invoices over one cent: the middle one's half rounds down to the first's amount. */
  lemma HalfCentMeets()
    ensures Stride(3) == Some(7) && Amount(0, 1, 3, 7, 0) == Amount(0, 1, 3, 7, 1) == 0
  {
    assert Gcd(7, 3) == Gcd(3, 1) == Gcd(1, 0) == 1;
  }

  // ----- the walk and the rounding themselves -----

  /** Invoice 0 stands first, and each next one a stride further round. */
  lemma WalkStrides(count: nat, stride: nat, i: nat)
    requires count > 0
    ensures Position(count, stride, 0) == 0
    ensures Position(count, stride, i + 1) == (Position(count, stride, i) + stride) % count
  {
    FirstPosition(count, stride);
    NextProduct(i, stride);
    var a, b := i * stride, (i + 1) * stride;
    assert Position(count, stride, i) == a % count && Position(count, stride, i + 1) == b % count;
    hide Position;
    AddBoth(a, stride, count);
  }

  lemma FirstPosition(count: nat, stride: nat)
    requires count > 0
    ensures Position(count, stride, 0) == 0
  {
  }

  lemma NextProduct(i: nat, stride: nat)
    ensures 0 <= i * stride && (i + 1) * stride == i * stride + stride
  {
  }

  lemma AddBoth(a: nat, s: nat, n: nat)
    requires n > 0
    ensures (a + s) % n == (a % n + s) % n
  {
    Division(a, n);
    SameRemainders(a + s, a % n + s, a / n, n);
  }

  lemma SameRemainders(a: nat, b: nat, p: nat, n: nat)
    requires n > 0 && a == n * p + b
    ensures a % n == b % n
  {
    Division(a, n);
    Division(b, n);
    var d := a / n - b / n - p;
    Distribute(a / n - b / n, p, n);
    Distribute(a / n, b / n, n);
    assert d * n == b % n - a % n;
    if d >= 1 { Grows(1, d, n); }
    if d <= -1 { Grows(d, -1, n); }
  }

  lemma GcdStep(a: nat, b: nat)
    requires b > 0
    ensures Gcd(a, b) == Gcd(b, a % b)
  {
  }

  lemma Modulo(a: nat, n: nat)
    requires n > 0
    ensures a < n ==> a % n == a
    ensures n % n == 0
  {
  }

  lemma GcdPeriodic(p: nat, n: nat)
    requires p > 0
    ensures Gcd(p, n) == Gcd(p, n % p)
  {
    Modulo(n, p);
    if n >= p {
      GcdStep(p, n);
      GcdStep(n, p);
      Modulo(p, n);
      if n == p { GcdZero(p); }
    }
  }

  lemma GcdZero(a: nat)
    ensures Gcd(a, 0) == a
  {
  }

  lemma GcdSmall(r: nat)
    ensures r < 3 ==> (Gcd(3, r) == 1 <==> r != 0)
    ensures r < 5 ==> (Gcd(5, r) == 1 <==> r != 0)
    ensures r < 7 ==> (Gcd(7, r) == 1 <==> r != 0)
  {
    assert Gcd(2, 1) == Gcd(3, 1) == Gcd(4, 1) == Gcd(5, 1) == Gcd(6, 1) == Gcd(1, 0) == 1;
    assert Gcd(3, 2) == 1 && Gcd(5, 2) == 1 && Gcd(7, 2) == 1;
    assert Gcd(5, 3) == Gcd(3, 2) && Gcd(7, 3) == Gcd(3, 1) && Gcd(5, 4) == Gcd(4, 1) && Gcd(7, 4) == Gcd(4, 3);
    assert Gcd(4, 3) == Gcd(3, 1) && Gcd(7, 5) == Gcd(5, 2) && Gcd(7, 6) == Gcd(6, 1);
  }

  lemma GcdEleven(r: nat)
    requires r < 11
    ensures Gcd(11, r) == 1 <==> r != 0
  {
    GcdSmall(1);
    GcdSmall(2);
    GcdSmall(3);
    GcdSmall(4);
    assert Gcd(7, 1) == 1 && Gcd(8, 1) == 1 && Gcd(9, 1) == 1 && Gcd(10, 1) == 1 && Gcd(11, 1) == 1;
    assert Gcd(2, 1) == 1 && Gcd(3, 1) == 1 && Gcd(4, 1) == 1 && Gcd(5, 1) == 1;
    assert Gcd(11, 2) == Gcd(2, 1) && Gcd(11, 3) == Gcd(3, 2) && Gcd(11, 4) == Gcd(4, 3) && Gcd(11, 5) == Gcd(5, 1);
    assert Gcd(11, 6) == Gcd(6, 5) && Gcd(6, 5) == Gcd(5, 1) && Gcd(11, 7) == Gcd(7, 4) && Gcd(11, 8) == Gcd(8, 3);
    assert Gcd(8, 3) == Gcd(3, 2) && Gcd(11, 9) == Gcd(9, 2) && Gcd(9, 2) == Gcd(2, 1) && Gcd(11, 10) == Gcd(10, 1);
    assert Gcd(4, 3) == Gcd(3, 1) && Gcd(3, 2) == Gcd(2, 1) && Gcd(7, 4) == Gcd(4, 3);
  }

  lemma GcdThirteen(r: nat)
    requires r < 13
    ensures Gcd(13, r) == 1 <==> r != 0
  {
    assert Gcd(2, 1) == 1 && Gcd(3, 1) == 1 && Gcd(4, 1) == 1 && Gcd(5, 1) == 1 && Gcd(6, 1) == 1;
    assert Gcd(12, 1) == 1 && Gcd(13, 1) == 1;
    assert Gcd(3, 2) == Gcd(2, 1) && Gcd(5, 3) == Gcd(3, 2) && Gcd(5, 2) == Gcd(2, 1);
    assert Gcd(13, 2) == Gcd(2, 1) && Gcd(13, 3) == Gcd(3, 1) && Gcd(13, 4) == Gcd(4, 1) && Gcd(13, 5) == Gcd(5, 3);
    assert Gcd(13, 6) == Gcd(6, 1) && Gcd(13, 7) == Gcd(7, 6) && Gcd(7, 6) == Gcd(6, 1);
    assert Gcd(13, 8) == Gcd(8, 5) && Gcd(8, 5) == Gcd(5, 3) && Gcd(13, 9) == Gcd(9, 4) && Gcd(9, 4) == Gcd(4, 1);
    assert Gcd(13, 10) == Gcd(10, 3) && Gcd(10, 3) == Gcd(3, 1) && Gcd(13, 11) == Gcd(11, 2) && Gcd(11, 2) == Gcd(2, 1);
    assert Gcd(13, 12) == Gcd(12, 1);
  }

  /** Which stride is taken: the first of 7, 5, 3, 11 and 13 that does not divide the count; none only when all
      five do. */
  lemma StrideIsFirst(count: nat)
    ensures Stride(count)
            == (if count % 7 != 0 then Some(7) else if count % 5 != 0 then Some(5) else if count % 3 != 0 then Some(3)
                else if count % 11 != 0 then Some(11) else if count % 13 != 0 then Some(13) else None)
  {
    GcdPeriodic(7, count);
    GcdPeriodic(5, count);
    GcdPeriodic(3, count);
    GcdPeriodic(11, count);
    GcdPeriodic(13, count);
    GcdSmall(count % 7);
    GcdSmall(count % 5);
    GcdSmall(count % 3);
    GcdEleven(count % 11);
    GcdThirteen(count % 13);
    hide Gcd;
    FirstOf(7, [5, 3, 11, 13], count);
    FirstOf(5, [3, 11, 13], count);
    FirstOf(3, [11, 13], count);
    FirstOf(11, [13], count);
    FirstOf(13, [], count);
  }

  lemma FirstOf(k: nat, rest: seq<nat>, count: nat)
    ensures FirstCoprime([k] + rest, count) == if Gcd(k, count) == 1 then Some(k) else FirstCoprime(rest, count)
    ensures FirstCoprime([], count) == None
  {
    assert ([k] + rest)[1..] == rest;
    hide Gcd;
  }

  /** Rounding is to the nearest cent, and to the even one of two as near. */
  lemma RoundsHalfEven(num: nat, den: nat)
    requires den > 0
    ensures var r := RoundHalfEven(num, den);
            && 2 * num - den <= 2 * (r * den) <= 2 * num + den
            && (2 * (r * den) == 2 * num + den || 2 * (r * den) == 2 * num - den ==> r % 2 == 0)
  {
    var q := num / den;
    Division(num, den);
    Distribute(q, 1, den);
  }

  /** Amounts follow positions: the first position gets the low bound, the last the high one, and a later position
      never less. */
  lemma AmountsFollowPositions(low: nat, high: nat, count: nat, stride: nat, i: nat, j: nat)
    requires count > 1 && low <= high
    ensures Position(count, stride, i) == 0 ==> Amount(low, high, count, stride, i) == low
    ensures Position(count, stride, i) == count - 1 ==> Amount(low, high, count, stride, i) == high
    ensures Position(count, stride, i) <= Position(count, stride, j) ==>
              Amount(low, high, count, stride, i) <= Amount(low, high, count, stride, j)
  {
    var d, p, q := Denominator(count), Position(count, stride, i), Position(count, stride, j);
    assert d == count - 1 || (count == 2 && d == 1);
    AmountAtEnds(low, high, d);
    hide Position, RoundHalfEven;
    if p <= q { AmountMonotone(low, high - low, d, p, q); }
  }

  lemma AmountAtEnds(low: nat, high: nat, d: nat)
    requires d > 0 && low <= high
    ensures RoundHalfEven(low * d + (high - low) * 0, d) == low
    ensures RoundHalfEven(low * d + (high - low) * d, d) == high
  {
    RoundExact(low, d);
    RoundExact(high, d);
    Distribute(high, low, d);
    hide RoundHalfEven;
  }

  lemma AmountMonotone(low: nat, span: nat, d: nat, p: nat, q: nat)
    requires d > 0 && p <= q
    ensures RoundHalfEven(low * d + span * p, d) <= RoundHalfEven(low * d + span * q, d)
  {
    hide RoundHalfEven;
    Grows(p, q, span);
    RoundMonotone(low * d + span * p, low * d + span * q, d);
  }

  lemma RoundMonotone(a: nat, b: nat, den: nat)
    requires den > 0 && a <= b
    ensures RoundHalfEven(a, den) <= RoundHalfEven(b, den)
  {
    RoundsHalfEven(a, den);
    RoundsHalfEven(b, den);
    var r, s := RoundHalfEven(a, den), RoundHalfEven(b, den);
    hide RoundHalfEven;
    if s < r {
      Grows(s + 1, r, den);
      Distribute(s, 1, den);
    }
  }
}
