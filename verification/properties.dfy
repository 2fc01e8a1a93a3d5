/** What the generators promise beyond their own contracts: the ranges
    their samples fall in, how they relate to one another (Gamma of shape 1
    is Exponential, Gamma is a sum of Exponentials, Triangular is the
    smaller and Simpson the mean of two Uniform samples), and the
    symmetries of the pair-based generators. */
module Properties {
  import opened Sequences
  import opened Generators

  function Abs(x: real): real {
    if x < 0.0 then -x else x
  }

  /** Every draw x replaced by 1 - x. */
  function Reflected(s: seq<real>): (t: seq<real>)
    ensures |t| == |s|
  {
    seq(|s|, i requires 0 <= i < |s| => 1.0 - s[i])
  }

  /** The two draws of every pair (positions 2i and 2i+1) exchanged. */
  function SwapPairs(s: seq<real>): (t: seq<real>)
    requires |s| % 2 == 0
    ensures |t| == |s|
  {
    seq(|s|, i requires 0 <= i < |s| => if i % 2 == 0 then s[i + 1] else s[i - 1])
  }

  /** Pair i of the swapped draws is pair i of the draws, reversed. */
  lemma SwappedPair(s: seq<real>, i: nat)
    requires |s| % 2 == 0 && 2 * i + 1 < |s|
    ensures SwapPairs(s)[2 * i] == s[2 * i + 1] && SwapPairs(s)[2 * i + 1] == s[2 * i]
  {
    assert (2 * i) % 2 == 0 && (2 * i + 1) % 2 == 1;
  }

  // ---------------------------------------------------------------------
  // Arithmetic facts the range proofs rest on. Each is stated over plain
  // variables, in the expanded form the generators' formulas take.

  lemma MulNonneg(c: real, d: real)
    requires c >= 0.0 && d >= 0.0
    ensures c * d >= 0.0
  {
  }

  lemma MulPos(c: real, d: real)
    requires c > 0.0 && d > 0.0
    ensures c * d > 0.0
  {
  }

  /** For lo < hi, x |-> (hi - lo) * x is strictly increasing. */
  lemma WidthMonotone(lo: real, hi: real, x: real, y: real)
    requires lo < hi && x < y
    ensures hi * x - lo * x < hi * y - lo * y
  {
    var c, d := hi - lo, y - x;
    MulPos(c, d);
    assert c * d == hi * y - lo * y - hi * x + lo * x;
  }

  /** For lo <= hi, x |-> (hi - lo) * x is non-decreasing. */
  lemma WidthMonotoneWeak(lo: real, hi: real, x: real, y: real)
    requires lo <= hi && x <= y
    ensures hi * x - lo * x <= hi * y - lo * y
  {
    var c, d := hi - lo, y - x;
    MulNonneg(c, d);
    assert c * d == hi * y - lo * y - hi * x + lo * x;
  }

  /** lo + (hi - lo) * x maps [0, 1) onto [lo, hi). */
  lemma AffineInRange(lo: real, hi: real, x: real)
    requires lo < hi && InUnit(x)
    ensures lo <= lo + (hi - lo) * x < hi
  {
    WidthMonotoneWeak(lo, hi, 0.0, x);
    WidthMonotone(lo, hi, x, 1.0);
  }

  /** -1/rate * l is non-negative when rate > 0 and l <= 0. */
  lemma NegReciprocalScale(rate: real, l: real)
    requires rate > 0.0 && l <= 0.0
    ensures -1.0 / rate * l >= 0.0
  {
    var c := 1.0 / rate;
    assert c * rate == 1.0;
    assert c > 0.0;
    MulNonneg(c, -l);
  }

  /** For a sum s of n draws, s in [0, n], the centred and scaled value
      scale * root * (s - n/2) is at most |scale| * root * n/2 in size. */
  lemma DeviationBound(scale: real, root: real, s: real, n: real)
    requires root >= 0.0 && 0.0 <= s <= n
    ensures Abs(scale * root * (s - n / 2.0)) <= Abs(scale) * root * (n / 2.0)
  {
    var k := Abs(scale) * root;
    MulNonneg(Abs(scale), root);
    var d := s - n / 2.0;
    var e := n / 2.0 - Abs(d);
    MulNonneg(k, e);
    if scale < 0.0 {
      assert scale * root * d == -(k * d);
    } else {
      assert scale * root * d == k * d;
    }
    if d < 0.0 {
      assert Abs(k * d) == k * (-d);
    }
    assert k * (n / 2.0) - k * Abs(d) == k * e;
  }

  // ---------------------------------------------------------------------
  // Uniform

  /** A draw in [0, 1) is sent into [a, b). */
  lemma UniformSampleInRange(p: UniformParameters, x: real)
    requires p.Valid() && InUnit(x)
    ensures p.a <= UniformSample(p, x) < p.b
  {
    AffineInRange(p.a, p.b, x);
  }

  /** Every Uniform sample lies in [a, b). */
  lemma UniformInRange(p: UniformParameters, size: nat, draws: seq<real>)
    requires p.Valid() && |draws| == size && AllInUnit(draws)
    ensures forall i :: 0 <= i < size ==> p.a <= Uniform(p, size, draws)[i] < p.b
  {
    forall i | 0 <= i < size
      ensures p.a <= Uniform(p, size, draws)[i] < p.b
    {
      UniformSampleInRange(p, draws[i]);
    }
  }

  /** With (a, b) = (0, 1) the draws come out unchanged. */
  lemma {:induction false} UniformOnUnitInterval(size: nat, draws: seq<real>)
    requires |draws| == size
    ensures Uniform(UniformParameters(0.0, 1.0), size, draws) == draws
  {
    if size > 0 {
      UniformOnUnitInterval(size - 1, draws[1..]);
      assert draws == [draws[0]] + draws[1..];
    }
  }

  // ---------------------------------------------------------------------
  // Exponential and Gamma

  /** Where the logarithm of every draw is at most 0 (as it is on (0, 1]),
      every Exponential sample is non-negative. */
  lemma ExponentialNonNegative(p: ExponentialParameters, size: nat, draws: seq<real>, ln: real -> real)
    requires p.Valid() && |draws| == size
    requires forall i :: 0 <= i < size ==> ln(draws[i]) <= 0.0
    ensures forall i :: 0 <= i < size ==> Exponential(p, size, draws, ln)[i] >= 0.0
  {
    forall i | 0 <= i < size
      ensures Exponential(p, size, draws, ln)[i] >= 0.0
    {
      NegReciprocalScale(p.rate, ln(draws[i]));
    }
  }

  /** Gamma with shape 1 yields, draw for draw, the Exponential samples of
      the same rate. */
  lemma GammaShapeOneIsExponential(rate: real, size: nat, draws: seq<real>, ln: real -> real)
    requires rate > 0.0 && |draws| == size
    ensures GammaSequence(GammaParameters(1, rate), size, draws, ln)
         == Exponential(ExponentialParameters(rate), size, draws, ln)
  {
    var g := GammaSequence(GammaParameters(1, rate), size, draws, ln);
    var e := Exponential(ExponentialParameters(rate), size, draws, ln);
    forall i | 0 <= i < size
      ensures g[i] == e[i]
    {
      ChunkAt(draws, 1, size, i);
      var chunk := Chunks(draws, 1, size)[i];
      assert chunk == [draws[i]];
      assert Logs(ln, chunk) == [ln(draws[i])];
      assert Sum(Logs(ln, chunk)) == Sum([]) + ln(draws[i]);
    }
  }

  /** Exponential sample j is what Gamma's scaling makes of the log of draw j. */
  lemma ExponentialIsScaledLog(p: GammaParameters, ln: real -> real, chunk: seq<real>)
    requires p.Valid()
    ensures forall j :: 0 <= j < |chunk| ==>
              Exponential(ExponentialParameters(p.rate), |chunk|, chunk, ln)[j] == GammaFromLogSum(p, Logs(ln, chunk)[j])
  {
  }

  /** Gamma's scaling by -1/rate distributes over a sum: applying it to each
      log and summing equals applying it once to the log-sum. */
  lemma {:induction false} SumOfScaledLogs(p: GammaParameters, ys: seq<real>, ls: seq<real>)
    requires p.Valid() && |ys| == |ls|
    requires forall j :: 0 <= j < |ys| ==> ys[j] == GammaFromLogSum(p, ls[j])
    ensures Sum(ys) == GammaFromLogSum(p, Sum(ls))
  {
    if ys != [] {
      SumOfScaledLogs(p, ys[..|ys| - 1], ls[..|ls| - 1]);
    }
  }

  /** A step of GammaSampleIsSumOfExponentials: the sample is the scaled
      log-sum, stated as a separate fact so that the caller never unfolds
      GammaSample next to the sums. */
  lemma GammaSampleOfLogs(p: GammaParameters, ln: real -> real, chunk: seq<real>)
    requires p.Valid()
    ensures GammaSample(p, ln, chunk) == GammaFromLogSum(p, Sum(Logs(ln, chunk)))
  {
  }

  /** A step of GammaSampleIsSumOfExponentials: SumOfScaledLogs applied to
      a sample whose scaled log-sum is already known, keeping the sequences
      as plain parameters. */
  lemma GammaSampleIsSumOf(p: GammaParameters, ln: real -> real, chunk: seq<real>, ys: seq<real>, ls: seq<real>)
    requires p.Valid() && |ys| == |ls|
    requires forall j :: 0 <= j < |ys| ==> ys[j] == GammaFromLogSum(p, ls[j])
    requires GammaSample(p, ln, chunk) == GammaFromLogSum(p, Sum(ls))
    ensures GammaSample(p, ln, chunk) == Sum(ys)
  {
    SumOfScaledLogs(p, ys, ls);
  }

  /** One Gamma sample is the sum of the Exponential samples of its draws. */
  lemma GammaSampleIsSumOfExponentials(p: GammaParameters, ln: real -> real, chunk: seq<real>)
    requires p.Valid()
    ensures GammaSample(p, ln, chunk) == Sum(Exponential(ExponentialParameters(p.rate), |chunk|, chunk, ln))
  {
    ExponentialIsScaledLog(p, ln, chunk);
    GammaSampleOfLogs(p, ln, chunk);
    GammaSampleIsSumOf(p, ln, chunk, Exponential(ExponentialParameters(p.rate), |chunk|, chunk, ln), Logs(ln, chunk));
  }

  /** A Gamma sample is the sum of the Exponential samples of its own
      chunk of `shape` draws. */
  lemma GammaIsSumOfExponentials(p: GammaParameters, size: nat, draws: seq<real>, ln: real -> real, i: nat)
    requires p.Valid() && |draws| == p.shape * size && i < size
    ensures GammaSequence(p, size, draws, ln)[i]
         == Sum(Exponential(ExponentialParameters(p.rate), p.shape, Chunks(draws, p.shape, size)[i], ln))
  {
    var chunk := Chunks(draws, p.shape, size)[i];
    assert GammaSequence(p, size, draws, ln)[i] == GammaSample(p, ln, chunk);
    GammaSampleIsSumOfExponentials(p, ln, chunk);
  }

  // ---------------------------------------------------------------------
  // Gaussian

  /** A Gaussian sample differs from the mean by at most
      |scale| * sqrt(12/n) * n/2, given a non-negative square root. */
  lemma GaussianSampleBounded(p: GaussianParameters, n: nat, sqrt: real -> real, chunk: seq<real>)
    requires n > 0 && |chunk| == n && AllInUnit(chunk)
    requires sqrt(12.0 / n as real) >= 0.0
    ensures Abs(GaussianSample(p, n, sqrt, chunk) - p.mean)
         <= Abs(p.scale) * sqrt(12.0 / n as real) * (n as real / 2.0)
  {
    SumBounds(chunk);
    DeviationBound(p.scale, sqrt(12.0 / n as real), Sum(chunk), n as real);
  }

  /** Every Gaussian sample is within |scale| * sqrt(12/n) * n/2 of the mean. */
  lemma GaussianBounded(p: GaussianParameters, n: nat, size: nat, draws: seq<real>, sqrt: real -> real)
    requires n > 0 && |draws| == n * size && AllInUnit(draws)
    requires sqrt(12.0 / n as real) >= 0.0
    ensures forall i :: 0 <= i < size ==>
              Abs(GaussianSequence(p, n, size, draws, sqrt)[i] - p.mean)
              <= Abs(p.scale) * sqrt(12.0 / n as real) * (n as real / 2.0)
  {
    forall i | 0 <= i < size
      ensures Abs(GaussianSequence(p, n, size, draws, sqrt)[i] - p.mean)
              <= Abs(p.scale) * sqrt(12.0 / n as real) * (n as real / 2.0)
    {
      ChunkAt(draws, n, size, i);
      var chunk := Chunks(draws, n, size)[i];
      assert forall j :: 0 <= j < n ==> chunk[j] == draws[i * n + j];
      GaussianSampleBounded(p, n, sqrt, chunk);
    }
  }

  /** The sample of the reflected sum n - s is the sample of s reflected
      through the mean. */
  lemma GaussianFromSumReflected(p: GaussianParameters, n: nat, sqrt: real -> real, s: real)
    requires n > 0
    ensures GaussianFromSum(p, n, sqrt, n as real - s) == 2.0 * p.mean - GaussianFromSum(p, n, sqrt, s)
  {
  }

  /** Reflecting every draw of a chunk (x to 1 - x) reflects the sample
      through the mean: the construction is symmetric about `mean`. */
  lemma GaussianSampleReflected(p: GaussianParameters, n: nat, sqrt: real -> real, chunk: seq<real>)
    requires n > 0 && |chunk| == n
    ensures GaussianSample(p, n, sqrt, Reflected(chunk))
         == 2.0 * p.mean - GaussianSample(p, n, sqrt, chunk)
  {
    SumReflected(chunk, Reflected(chunk));
    GaussianFromSumReflected(p, n, sqrt, Sum(chunk));
  }

  // ---------------------------------------------------------------------
  // Triangular

  /** A Triangular sample is the smaller of the Uniform samples of its two
      draws over the same interval. */
  lemma TriangularSampleIsMinOfUniform(p: TriangularParameters, x1: real, x2: real)
    requires p.Valid()
    ensures TriangularSample(p, x1, x2)
         == Min(UniformSample(UniformParameters(p.a, p.b), x1), UniformSample(UniformParameters(p.a, p.b), x2))
  {
    if x2 < x1 {
      WidthMonotone(p.a, p.b, x2, x1);
    } else {
      WidthMonotoneWeak(p.a, p.b, x1, x2);
    }
  }

  /** Triangular sample i never exceeds the Uniform sample of either draw of
      its pair, and lies in [a, b). */
  lemma TriangularBelowUniform(p: TriangularParameters, size: nat, draws: seq<real>)
    requires p.Valid() && |draws| == 2 * size
    ensures forall i :: 0 <= i < size ==>
              Triangular(p, size, draws)[i] <= Uniform(UniformParameters(p.a, p.b), 2 * size, draws)[2 * i] &&
              Triangular(p, size, draws)[i] <= Uniform(UniformParameters(p.a, p.b), 2 * size, draws)[2 * i + 1]
    ensures AllInUnit(draws) ==>
              forall i :: 0 <= i < size ==> p.a <= Triangular(p, size, draws)[i] < p.b
  {
    var u := UniformParameters(p.a, p.b);
    forall i | 0 <= i < size
      ensures Triangular(p, size, draws)[i] <= Uniform(u, 2 * size, draws)[2 * i]
      ensures Triangular(p, size, draws)[i] <= Uniform(u, 2 * size, draws)[2 * i + 1]
      ensures AllInUnit(draws) ==> p.a <= Triangular(p, size, draws)[i] < p.b
    {
      TriangularSampleIsMinOfUniform(p, draws[2 * i], draws[2 * i + 1]);
      if AllInUnit(draws) {
        UniformSampleInRange(u, draws[2 * i]);
        UniformSampleInRange(u, draws[2 * i + 1]);
      }
    }
  }

  lemma TriangularPairSwapAt(p: TriangularParameters, size: nat, draws: seq<real>, i: nat)
    requires p.Valid() && |draws| == 2 * size && i < size
    ensures Triangular(p, size, SwapPairs(draws))[i] == Triangular(p, size, draws)[i]
  {
    var x1, x2 := draws[2 * i], draws[2 * i + 1];
    SwappedPair(draws, i);
    assert Triangular(p, size, SwapPairs(draws))[i] == TriangularSample(p, x2, x1);
    assert Triangular(p, size, draws)[i] == TriangularSample(p, x1, x2);
    TriangularSampleSymmetric(p, x1, x2);
  }

  /** Exchanging the two draws of a pair does not change its sample. */
  lemma TriangularSampleSymmetric(p: TriangularParameters, x1: real, x2: real)
    ensures TriangularSample(p, x2, x1) == TriangularSample(p, x1, x2)
  {
    assert Min(x2, x1) == Min(x1, x2);
  }

  /** Swapping the two draws of every pair leaves the Triangular samples
      unchanged. */
  lemma TriangularPairSwap(p: TriangularParameters, size: nat, draws: seq<real>)
    requires p.Valid() && |draws| == 2 * size
    ensures Triangular(p, size, SwapPairs(draws)) == Triangular(p, size, draws)
  {
    forall i | 0 <= i < size
      ensures Triangular(p, size, SwapPairs(draws))[i] == Triangular(p, size, draws)[i]
    {
      TriangularPairSwapAt(p, size, draws, i);
    }
  }

  // ---------------------------------------------------------------------
  // Simpson

  /** One Simpson sample is the mean of the Uniform samples of its draws. */
  lemma SimpsonSampleIsMean(p: SimpsonParameters, x1: real, x2: real)
    ensures SimpsonSample(p, x1, x2)
         == (UniformSample(UniformParameters(p.a, p.b), x1) + UniformSample(UniformParameters(p.a, p.b), x2)) / 2.0
  {
    var w := p.b - p.a;
    assert p.b / 2.0 - p.a / 2.0 == w / 2.0;
    assert (w / 2.0) * (x1 + x2) == (w * x1 + w * x2) / 2.0;
  }

  /** A Simpson sample is the mean of the Uniform samples of its two draws
      over the same interval. */
  lemma SimpsonIsMeanOfUniform(p: SimpsonParameters, size: nat, draws: seq<real>)
    requires p.Valid() && |draws| == 2 * size
    ensures forall i :: 0 <= i < size ==>
              Simpson(p, size, draws)[i]
              == (Uniform(UniformParameters(p.a, p.b), 2 * size, draws)[2 * i]
                  + Uniform(UniformParameters(p.a, p.b), 2 * size, draws)[2 * i + 1]) / 2.0
  {
    var u := UniformParameters(p.a, p.b);
    forall i | 0 <= i < size
      ensures Simpson(p, size, draws)[i]
              == (Uniform(u, 2 * size, draws)[2 * i] + Uniform(u, 2 * size, draws)[2 * i + 1]) / 2.0
    {
      SimpsonSampleIsMean(p, draws[2 * i], draws[2 * i + 1]);
    }
  }

  /** Every Simpson sample lies in [a, b). */
  lemma SimpsonInRange(p: SimpsonParameters, size: nat, draws: seq<real>)
    requires p.Valid() && |draws| == 2 * size && AllInUnit(draws)
    ensures forall i :: 0 <= i < size ==> p.a <= Simpson(p, size, draws)[i] < p.b
  {
    var u := UniformParameters(p.a, p.b);
    SimpsonIsMeanOfUniform(p, size, draws);
    forall i | 0 <= i < size
      ensures p.a <= Simpson(p, size, draws)[i] < p.b
    {
      UniformSampleInRange(u, draws[2 * i]);
      UniformSampleInRange(u, draws[2 * i + 1]);
    }
  }

  lemma SimpsonPairSwapAt(p: SimpsonParameters, size: nat, draws: seq<real>, i: nat)
    requires p.Valid() && |draws| == 2 * size && i < size
    ensures Simpson(p, size, SwapPairs(draws))[i] == Simpson(p, size, draws)[i]
  {
    var x1, x2 := draws[2 * i], draws[2 * i + 1];
    SwappedPair(draws, i);
    assert Simpson(p, size, SwapPairs(draws))[i] == SimpsonSample(p, x2, x1);
    assert Simpson(p, size, draws)[i] == SimpsonSample(p, x1, x2);
    SimpsonSampleSymmetric(p, x1, x2);
  }

  /** Exchanging the two draws of a pair does not change its sample. */
  lemma SimpsonSampleSymmetric(p: SimpsonParameters, x1: real, x2: real)
    ensures SimpsonSample(p, x2, x1) == SimpsonSample(p, x1, x2)
  {
    assert x2 + x1 == x1 + x2;
  }

  /** Swapping the two draws of every pair leaves the Simpson samples
      unchanged. */
  lemma SimpsonPairSwap(p: SimpsonParameters, size: nat, draws: seq<real>)
    requires p.Valid() && |draws| == 2 * size
    ensures Simpson(p, size, SwapPairs(draws)) == Simpson(p, size, draws)
  {
    forall i | 0 <= i < size
      ensures Simpson(p, size, SwapPairs(draws))[i] == Simpson(p, size, draws)[i]
    {
      SimpsonPairSwapAt(p, size, draws, i);
    }
  }

  /** Reflecting both draws reflects one Simpson sample through (a + b) / 2. */
  lemma SimpsonSampleReflected(p: SimpsonParameters, x1: real, x2: real)
    ensures SimpsonSample(p, 1.0 - x1, 1.0 - x2) == p.a + p.b - SimpsonSample(p, x1, x2)
  {
    var h := p.b / 2.0 - p.a / 2.0;
    assert h * ((1.0 - x1) + (1.0 - x2)) == 2.0 * h - h * (x1 + x2);
  }

  lemma SimpsonReflectedAt(p: SimpsonParameters, size: nat, draws: seq<real>, i: nat)
    requires p.Valid() && |draws| == 2 * size && i < size
    ensures Simpson(p, size, Reflected(draws))[i] == p.a + p.b - Simpson(p, size, draws)[i]
  {
    var x1, x2 := draws[2 * i], draws[2 * i + 1];
    var r := Reflected(draws);
    assert r[2 * i] == 1.0 - x1 && r[2 * i + 1] == 1.0 - x2;
    SimpsonSampleReflected(p, x1, x2);
  }

  /** Reflecting every draw (x to 1 - x) reflects every Simpson sample
      through the midpoint (a + b) / 2: the distribution is symmetric there. */
  lemma SimpsonReflected(p: SimpsonParameters, size: nat, draws: seq<real>)
    requires p.Valid() && |draws| == 2 * size
    ensures forall i :: 0 <= i < size ==>
              Simpson(p, size, Reflected(draws))[i] == p.a + p.b - Simpson(p, size, draws)[i]
  {
    forall i | 0 <= i < size
      ensures Simpson(p, size, Reflected(draws))[i] == p.a + p.b - Simpson(p, size, draws)[i]
    {
      SimpsonReflectedAt(p, size, draws, i);
    }
  }
}
