/** Black and white by Otsu's method (internal/scraper/watermark.go), with the
    program's floating-point arithmetic taken over the reals. */
module Otsu {
  type Byte = x: int | 0 <= x < 256

  /** How many pixels are at level v, how many at most at level t, and what
      those add up to. */
  function Count(s: seq<Byte>, v: int): nat {
    if s == [] then 0 else Count(s[..|s| - 1], v) + (if s[|s| - 1] == v then 1 else 0)
  }

  function CountUpTo(s: seq<Byte>, t: int): nat {
    if s == [] then 0 else CountUpTo(s[..|s| - 1], t) + (if s[|s| - 1] <= t then 1 else 0)
  }

  function SumUpTo(s: seq<Byte>, t: int): nat {
    if s == [] then 0 else SumUpTo(s[..|s| - 1], t) + (if s[|s| - 1] <= t then s[|s| - 1] else 0)
  }

  /** The threshold t splits the pixels into two classes, neither empty. */
  predicate Splits(s: seq<Byte>, t: int) { 0 <= t < 256 && 0 < CountUpTo(s, t) < |s| }

  function Share(part: nat, whole: nat): real
    requires whole > 0
  {
    part as real / whole as real
  }

  /** What one level adds to a mean over `whole` pixels. */
  function Part(level: nat, count: nat, whole: nat): real
    requires whole > 0
  {
    level as real * count as real / whole as real
  }

  /** The running formula for a threshold, from what the levels up to it come
      to (`weight`, `moment`) and what all levels do (`mean`). */
  function Running(mean: real, weight: real, moment: real): real
    requires weight * (1.0 - weight) != 0.0
  {
    var d := mean * weight - moment;
    d * d / (weight * (1.0 - weight))
  }

  function Square(x: real): real { x * x }

  /** The variance between the two classes of a split: the product of their
      weights times the square of the distance of their means. */
  function Between(s: seq<Byte>, t: int): real
    requires Splits(s, t)
    requires SumUpTo(s, t) <= SumUpTo(s, 255)
  {
    var c := CountUpTo(s, t);
    var w0, w1 := Share(c, |s|), Share(|s| - c, |s|);
    var m0, m1 := Share(SumUpTo(s, t), c), Share(SumUpTo(s, 255) - SumUpTo(s, t), |s| - c);
    w0 * w1 * Square(m0 - m1)
  }

  lemma {:induction false} Totals(s: seq<Byte>, t: int)
    ensures CountUpTo(s, 255) == |s| && CountUpTo(s, -1) == 0 && SumUpTo(s, -1) == 0
    ensures CountUpTo(s, t) <= |s| && SumUpTo(s, t) <= SumUpTo(s, 255)
  {
    if s != [] { Totals(s[..|s| - 1], t); }
  }

  lemma {:induction false} NextLevel(s: seq<Byte>, t: int)
    ensures CountUpTo(s, t) == CountUpTo(s, t - 1) + Count(s, t)
    ensures SumUpTo(s, t) == SumUpTo(s, t - 1) + t * Count(s, t)
  {
    if s != [] {
      var s' := s[..|s| - 1];
      NextLevel(s', t);
      assert t * (Count(s', t) + 1) == t * Count(s', t) + t;
    }
  }

  /** The class at or below t averages at most t, the one above it more. */
  lemma {:induction false} ClassBounds(s: seq<Byte>, t: int)
    ensures SumUpTo(s, t) <= t * CountUpTo(s, t)
    ensures SumUpTo(s, 255) - SumUpTo(s, t) >= (t + 1) * (|s| - CountUpTo(s, t))
  {
    if s != [] {
      var s' := s[..|s| - 1];
      ClassBounds(s', t);
      assert t * (CountUpTo(s', t) + 1) == t * CountUpTo(s', t) + t;
      assert (t + 1) * (|s'| + 1 - CountUpTo(s', t)) == (t + 1) * (|s'| - CountUpTo(s', t)) + (t + 1);
    }
  }

  lemma Quotient(x: real, y: real, q: real)
    requires y != 0.0 && x == q * y
    ensures x / y == q
  {
  }

  lemma WeightsSum(n: real, c: real)
    requires n != 0.0
    ensures (n - c) / n == 1.0 - c / n
  {
    var w := c / n;
    assert w * n == c;
    assert (1.0 - w) * n == n - w * n;
    Quotient(n - c, n, 1.0 - w);
  }

  /** A share of the whole is a weight times the class's mean. */
  lemma Weighted(n: real, c: real, sum: real)
    requires n != 0.0 && c != 0.0
    ensures sum / n == c / n * (sum / c)
  {
    var w, m := c / n, sum / c;
    assert w * n == c && m * c == sum;
    assert (w * m) * n == m * (w * n);
    Quotient(sum, n, w * m);
  }

  lemma ShareOfSum(n: real, a: real, b: real)
    requires n != 0.0
    ensures (a + b) / n == a / n + b / n
  {
    var x, y := a / n, b / n;
    assert x * n == a && y * n == b;
    assert (x + y) * n == x * n + y * n;
    Quotient(a + b, n, x + y);
  }

  /** The program's running formula is the variance between the classes. */
  lemma RunningFormula(n: real, c: real, sum: real, total: real)
    requires 0.0 < c < n
    ensures c / n * (1.0 - c / n) != 0.0
    ensures var m0, m1 := sum / c, (total - sum) / (n - c);
            Running(total / n, c / n, sum / n) == c / n * ((n - c) / n) * Square(m0 - m1)
  {
    var w0, w1, m0, m1 := c / n, (n - c) / n, sum / c, (total - sum) / (n - c);
    WeightsSum(n, c);
    Weighted(n, c, sum);
    Weighted(n, n - c, total - sum);
    ShareOfSum(n, sum, total - sum);
    assert w0 * n == c && w1 * n == n - c;
    Sign(w0, n);
    Sign(w1, n);
    Positive(w0, w1);
    Classes(w0, w1, m0, m1);
  }

  lemma Classes(w0: real, w1: real, m0: real, m1: real)
    requires w1 == 1.0 - w0 && w0 * w1 != 0.0
    ensures Running(w0 * m0 + w1 * m1, w0, w0 * m0) == w0 * w1 * Square(m0 - m1)
  {
    var d := (w0 * m0 + w1 * m1) * w0 - w0 * m0;
    Spread(w0, w1, m0, m1);
    var e := w0 * w1;
    assert d * d == (e * (m1 - m0)) * (e * (m1 - m0));
    Regroup(e, m1 - m0);
    assert (m1 - m0) * (m1 - m0) == (m0 - m1) * (m0 - m1);
    Quotient(d * d, e, e * ((m0 - m1) * (m0 - m1)));
  }

  lemma Regroup(a: real, b: real)
    ensures (a * b) * (a * b) == (a * (b * b)) * a
  {
  }

  lemma Spread(w0: real, w1: real, m0: real, m1: real)
    requires w1 == 1.0 - w0
    ensures (w0 * m0 + w1 * m1) * w0 - w0 * m0 == w0 * w1 * (m1 - m0)
  {
    assert w1 * m1 == m1 - w0 * m1;
    assert w0 * w1 == w0 - w0 * w0;
    assert (w0 - w0 * w0) * (m1 - m0) == w0 * m1 - w0 * m0 - w0 * w0 * m1 + w0 * w0 * m0;
  }

  /** A factor has the sign of its product with something positive. */
  lemma Sign(x: real, y: real)
    requires x * y > 0.0 && y > 0.0
    ensures x > 0.0
  {
  }

  lemma NotBelow(x: real, y: real, c: real)
    requires x * c >= y * c && c > 0.0
    ensures x >= y
  {
    if x != y {
      assert (x - y) * c == x * c - y * c;
      if (x - y) * c == 0.0 { Quotient(0.0, c, x - y); }
      else { Sign(x - y, c); }
    }
  }

  lemma MeanAtMost(sum: nat, c: nat, t: nat)
    requires c > 0 && sum <= t * c
    ensures Share(sum, c) <= t as real
  {
    assert (t * c) as real == t as real * c as real;
    assert Share(sum, c) * c as real == sum as real;
    NotBelow(t as real, Share(sum, c), c as real);
  }

  lemma MeanAtLeast(sum: nat, c: nat, t: nat)
    requires c > 0 && sum >= t * c
    ensures Share(sum, c) >= t as real
  {
    assert (t * c) as real == t as real * c as real;
    assert Share(sum, c) * c as real == sum as real;
    NotBelow(Share(sum, c), t as real, c as real);
  }

  lemma SharePositive(a: nat, n: nat)
    requires a > 0 && n > 0
    ensures Share(a, n) > 0.0
  {
  }

  /** Every split into two classes has a variance above zero. */
  lemma SplitSeparates(s: seq<Byte>, t: int)
    requires Splits(s, t)
    ensures SumUpTo(s, t) <= SumUpTo(s, 255) && Between(s, t) > 0.0
  {
    Totals(s, t);
    ClassBounds(s, t);
    hide CountUpTo, SumUpTo, Share;
    var c, d := CountUpTo(s, t), |s| - CountUpTo(s, t);
    var m0, m1 := Share(SumUpTo(s, t), c), Share(SumUpTo(s, 255) - SumUpTo(s, t), d);
    MeanAtMost(SumUpTo(s, t), c, t);
    MeanAtLeast(SumUpTo(s, 255) - SumUpTo(s, t), d, t + 1);
    SharePositive(c, |s|);
    SharePositive(d, |s|);
    SeparatePositive(Share(c, |s|), Share(d, |s|), m0, m1);
  }

  lemma SeparatePositive(w0: real, w1: real, m0: real, m1: real)
    requires w0 > 0.0 && w1 > 0.0 && m0 < m1
    ensures w0 * w1 * Square(m0 - m1) > 0.0
  {
    hide Square;
    Positive(w0, w1);
    SquarePositive(m0 - m1);
    Positive(w0 * w1, Square(m0 - m1));
  }

  lemma SquarePositive(x: real)
    requires x != 0.0
    ensures Square(x) > 0.0
  {
    if x > 0.0 { Product(x, x, Square(x)); } else { Product(-x, -x, Square(x)); }
  }

  lemma Product(a: real, b: real, c: real)
    requires a > 0.0 && b > 0.0 && a * b == c
    ensures c > 0.0
  {
  }

  lemma Positive(a: real, b: real)
    requires a > 0.0 && b > 0.0
    ensures a * b > 0.0
  {
  }

  /** t is the smallest threshold among those that separate the classes best. */
  ghost predicate Best(s: seq<Byte>, t: int) {
    && Splits(s, t) && SumUpTo(s, t) <= SumUpTo(s, 255)
    && forall t' :: Splits(s, t') ==>
         && SumUpTo(s, t') <= SumUpTo(s, 255)
         && Between(s, t') <= Between(s, t)
         && (t' < t ==> Between(s, t') < Between(s, t))
  }

  /** t is the best of the thresholds below `limit`, which none splits at all
      if t has been left at its start. */
  ghost predicate BestBelow(s: seq<Byte>, limit: int, t: int, best: real) {
    && (forall t' :: Splits(s, t') && t' < limit ==>
          && SumUpTo(s, t') <= SumUpTo(s, 255)
          && Between(s, t') <= best
          && (t' < t ==> Between(s, t') < best))
    && (best == 0.0 ==> t == 0)
    && (best != 0.0 ==>
          best > 0.0 && t < limit && Splits(s, t) && SumUpTo(s, t) <= SumUpTo(s, 255) && Between(s, t) == best)
  }

  lemma LevelReals(n: nat, c: nat, sum: nat, total: nat)
    requires 0 < c < n && sum <= total
    ensures var weight := Share(c, n);
            var m0, m1 := Share(sum, c), Share(total - sum, n - c);
            && weight != 0.0 && weight != 1.0 && weight * (1.0 - weight) != 0.0
            && Running(Share(total, n), weight, Share(sum, n)) == weight * Share(n - c, n) * Square(m0 - m1)
  {
    assert (n - c) as real == n as real - c as real;
    assert (total - sum) as real == total as real - sum as real;
    RunningFormula(n as real, c as real, sum as real, total as real);
    hide Running;
    assert Share(c, n) * (1.0 - Share(c, n)) != 0.0;
  }

  /** One level of the loop that looks for the threshold. */
  lemma LevelFormula(s: seq<Byte>, t: int)
    requires s != [] && Splits(s, t)
    ensures SumUpTo(s, t) <= SumUpTo(s, 255)
    ensures var weight := Share(CountUpTo(s, t), |s|);
            && weight != 0.0 && weight != 1.0 && weight * (1.0 - weight) != 0.0
            && Running(Share(SumUpTo(s, 255), |s|), weight, Share(SumUpTo(s, t), |s|)) == Between(s, t)
  {
    Totals(s, t);
    hide CountUpTo, SumUpTo, Share, Running;
    LevelReals(|s|, CountUpTo(s, t), SumUpTo(s, t), SumUpTo(s, 255));
  }

  lemma BestKeeps(s: seq<Byte>, i: int, t: int, best: real)
    requires BestBelow(s, i, t, best)
    requires Splits(s, i) ==> SumUpTo(s, i) <= SumUpTo(s, 255) && Between(s, i) <= best
    ensures BestBelow(s, i + 1, t, best)
  {
    hide CountUpTo, SumUpTo, Between;
  }

  lemma BestMoves(s: seq<Byte>, i: int, t: int, best: real)
    requires BestBelow(s, i, t, best)
    requires Splits(s, i) && SumUpTo(s, i) <= SumUpTo(s, 255) && Between(s, i) > best
    ensures BestBelow(s, i + 1, i, Between(s, i))
  {
    hide CountUpTo, SumUpTo, Between;
  }

  lemma BestAtEnd(s: seq<Byte>, t: int, best: real)
    requires BestBelow(s, 256, t, best)
    ensures if exists t' :: Splits(s, t') then Best(s, t) else t == 0
  {
    hide CountUpTo, SumUpTo, Between;
    if t' :| Splits(s, t') {
      SplitSeparates(s, t');
    }
  }

  lemma ShareAdds(a: nat, b: nat, n: nat)
    requires n > 0
    ensures Share(a, n) + Share(b, n) == Share(a + b, n)
  {
  }

  lemma MomentAdds(s: seq<Byte>, i: nat, n: nat)
    requires n > 0
    ensures Share(SumUpTo(s, i - 1), n) + Part(i, Count(s, i), n) == Share(SumUpTo(s, i), n)
  {
    NextLevel(s, i);
    hide SumUpTo, Count, Part, Share;
    var more: nat := i * Count(s, i);
    PartIsShare(i, Count(s, i), more, n);
    ShareAdds(SumUpTo(s, i - 1), more, n);
  }

  lemma PartIsShare(i: nat, count: nat, product: nat, n: nat)
    requires n > 0 && product == i * count
    ensures Part(i, count, n) == Share(product, n)
  {
    assert product as real == i as real * count as real;
  }

  lemma WeightAdds(s: seq<Byte>, i: nat, n: nat)
    requires n > 0
    ensures Share(CountUpTo(s, i - 1), n) + Share(Count(s, i), n) == Share(CountUpTo(s, i), n)
  {
    NextLevel(s, i);
    ShareAdds(CountUpTo(s, i - 1), Count(s, i), n);
  }

  lemma BestAtStart(s: seq<Byte>)
    ensures BestBelow(s, 0, 0, 0.0)
  {
  }

  /** The histogram, by one pass over the pixels. */
  method Histogram(b: array<Byte>) returns (histogram: array<nat>)
    ensures fresh(histogram) && histogram.Length == 256
    ensures forall v :: 0 <= v < 256 ==> histogram[v] == Count(b[..], v)
  {
    histogram := new nat[256](_ => 0);
    for i := 0 to b.Length
      invariant forall v :: 0 <= v < 256 ==> histogram[v] == Count(b[..i], v)
    {
      assert b[..i + 1][..i] == b[..i];
      histogram[b[i]] := histogram[b[i]] + 1;
    }
    assert b[..b.Length] == b[..];
  }

  method Mean(histogram: array<nat>, n: nat, ghost s: seq<Byte>) returns (mean: real)
    requires s != [] && n == |s| && histogram.Length == 256
    requires forall v :: 0 <= v < 256 ==> histogram[v] == Count(s, v)
    ensures mean == Share(SumUpTo(s, 255), n)
  {
    mean := 0.0;
    Totals(s, 0);
    assert Share(0, n) == 0.0;
    hide SumUpTo, Count, Share, Part;
    for i := 0 to 256
      invariant mean == Share(SumUpTo(s, i - 1), n)
    {
      MomentAdds(s, i, n);
      mean := mean + Part(i, histogram[i], n);
    }
  }

  /** The threshold, by one pass over the levels. */
  method Threshold(histogram: array<nat>, n: nat, mean: real, ghost s: seq<Byte>) returns (threshold: nat)
    requires s != [] && n == |s| && histogram.Length == 256
    requires forall v :: 0 <= v < 256 ==> histogram[v] == Count(s, v)
    requires mean == Share(SumUpTo(s, 255), n)
    ensures if exists t :: Splits(s, t) then Best(s, threshold) else threshold == 0
  {
    threshold := 0;
    var best, weight, moment := 0.0, 0.0, 0.0;
    Totals(s, 0);
    assert Share(0, n) == 0.0;
    BestAtStart(s);
    hide CountUpTo, SumUpTo, Count, Share, Splits, Between, BestBelow, Best, Part, Running;
    for i := 0 to 256
      invariant weight == Share(CountUpTo(s, i - 1), n)
      invariant moment == Share(SumUpTo(s, i - 1), n)
      invariant BestBelow(s, i, threshold, best)
    {
      WeightAdds(s, i, n);
      MomentAdds(s, i, n);
      weight := weight + Share(histogram[i], n);
      moment := moment + Part(i, histogram[i], n);
      if Splits(s, i) { LevelFormula(s, i); } else { Unsplit(s, i); }
      if weight == 0.0 || weight == 1.0 {
        BestKeeps(s, i, threshold, best);
        continue;
      }
      var between := Running(mean, weight, moment);
      if between > best {
        BestMoves(s, i, threshold, best);
        best, threshold := between, i;
      } else {
        BestKeeps(s, i, threshold, best);
      }
    }
    BestAtEnd(s, threshold, best);
  }

  /** A level that does not split the pixels is one the loop skips. */
  lemma Unsplit(s: seq<Byte>, t: int)
    requires s != [] && 0 <= t < 256 && !Splits(s, t)
    ensures Share(CountUpTo(s, t), |s|) == 0.0 || Share(CountUpTo(s, t), |s|) == 1.0
  {
    Totals(s, t);
  }

  function Thresholded(s: seq<Byte>, t: int): seq<Byte> {
    seq(|s|, i requires 0 <= i < |s| => if s[i] > t then 255 else 0)
  }

  /** The pixels made black are those of the lower class, and the ones made white
      those of the upper. */
  lemma {:induction false} BlackIsLowerClass(s: seq<Byte>, t: int)
    ensures Count(Thresholded(s, t), 0) == CountUpTo(s, t)
    ensures Count(Thresholded(s, t), 255) == |s| - CountUpTo(s, t)
  {
    if s != [] {
      var n := |s| - 1;
      BlackIsLowerClass(s[..n], t);
      assert Thresholded(s, t)[..n] == Thresholded(s[..n], t);
    }
  }

  /** `otsu`: thresholds the pixels in place. */
  method Otsu(b: array<Byte>) returns (threshold: nat)
    modifies b
    ensures forall i :: 0 <= i < b.Length ==> b[i] == if old(b[i]) > threshold then 255 else 0
    ensures b[..] == Thresholded(old(b[..]), threshold)
    ensures if exists t :: Splits(old(b[..]), t) then Best(old(b[..]), threshold) else threshold == 0
  {
    if b.Length == 0 {
      return 0;
    }
    ghost var s := b[..];
    var histogram := Histogram(b);
    var mean := Mean(histogram, b.Length, s);
    threshold := Threshold(histogram, b.Length, mean, s);
    for i := 0 to b.Length
      invariant forall k :: 0 <= k < i ==> b[k] == if old(b[k]) > threshold then 255 else 0
      invariant forall k :: i <= k < b.Length ==> b[k] == old(b[k])
    {
      b[i] := if b[i] > threshold then 255 else 0;
    }
  }

  lemma {:induction false} SomeBelow(s: seq<Byte>, t: int)
    ensures CountUpTo(s, t) > 0 <==> exists i :: 0 <= i < |s| && s[i] <= t
    ensures CountUpTo(s, t) < |s| <==> exists i :: 0 <= i < |s| && s[i] > t
  {
    if s != [] {
      var s' := s[..|s| - 1];
      SomeBelow(s', t);
      Totals(s', t);
      assert s[|s| - 1] <= t || s[|s| - 1] > t;
      assert forall i :: 0 <= i < |s'| ==> s'[i] == s[i];
    }
  }

  /** A buffer can be split exactly if it has two different pixels, and then
      the thresholded buffer has both black and white in it. */
  lemma TwoValuesGiveBoth(s: seq<Byte>)
    ensures (exists i, j :: 0 <= i < |s| && 0 <= j < |s| && s[i] != s[j]) <==> (exists t :: Splits(s, t))
    ensures forall t :: Splits(s, t) ==> 0 in Thresholded(s, t) && 255 in Thresholded(s, t)
  {
    if i, j :| 0 <= i < |s| && 0 <= j < |s| && s[i] < s[j] {
      SomeBelow(s, s[i]);
      assert Splits(s, s[i]);
    }
    forall t | Splits(s, t)
      ensures 0 in Thresholded(s, t) && 255 in Thresholded(s, t)
      ensures exists i, j :: 0 <= i < |s| && 0 <= j < |s| && s[i] != s[j]
    {
      SomeBelow(s, t);
      var i :| 0 <= i < |s| && s[i] <= t;
      var j :| 0 <= j < |s| && s[j] > t;
      assert Thresholded(s, t)[i] == 0 && Thresholded(s, t)[j] == 255;
    }
    if i, j :| 0 <= i < |s| && 0 <= j < |s| && s[i] != s[j] {
      if s[i] < s[j] { SomeBelow(s, s[i]); assert Splits(s, s[i]); }
      else { SomeBelow(s, s[j]); assert Splits(s, s[j]); }
    }
  }
}
