/** The six distribution generators. Each one asks the injected uniform
    stream for a fixed number of draws and turns them, in order, into
    exactly `size` samples of its distribution.

    The stream itself is not modelled: a generator receives the draws that
    `rng(k)` returned, and its precondition `|draws| == k` records how many
    it asks for. The natural logarithm and the square root are passed in as
    `ln` and `sqrt`; nothing is assumed about them unless a lemma says so. */
module Generators {
  import opened Sequences

  // ---------------------------------------------------------------------
  // Parameter records. `Valid` is what the parameter reader checks before
  // a generator ever sees the record; the generators rely on it.

  datatype UniformParameters = UniformParameters(a: real, b: real) {
    predicate Valid() { a < b }
  }

  datatype GaussianParameters = GaussianParameters(mean: real, scale: real)

  datatype ExponentialParameters = ExponentialParameters(rate: real) {
    predicate Valid() { rate > 0.0 }
  }

  datatype GammaParameters = GammaParameters(shape: int, rate: real) {
    predicate Valid() { shape > 0 && rate > 0.0 }
  }

  datatype TriangularParameters = TriangularParameters(a: real, b: real) {
    predicate Valid() { a < b }
  }

  datatype SimpsonParameters = SimpsonParameters(a: real, b: real) {
    predicate Valid() { a < b }
  }

  // ---------------------------------------------------------------------
  // Uniform: one draw per sample, scaled from [0, 1) onto [a, b).

  function UniformSample(p: UniformParameters, x: real): real {
    p.a + (p.b - p.a) * x
  }

  /** Asks for `size` draws and yields one sample per draw, in order. */
  function Uniform(p: UniformParameters, size: nat, draws: seq<real>): (ys: seq<real>)
    requires p.Valid() && |draws| == size
    ensures |ys| == size
    ensures forall i :: 0 <= i < size ==> ys[i] == UniformSample(p, draws[i])
    decreases size
  {
    if size == 0 then [] else [UniformSample(p, draws[0])] + Uniform(p, size - 1, draws[1..])
  }

  // ---------------------------------------------------------------------
  // Gaussian: the sum of n draws, centred and scaled (Irwin-Hall).

  /** Number of draws summed per sample unless the caller changes it. */
  const DefaultN := 6

  /** The sample made from the sum of n draws: centred on n/2, scaled by
      sqrt(12/n) * scale, shifted to the mean. */
  function GaussianFromSum(p: GaussianParameters, n: nat, sqrt: real -> real, randomSum: real): real
    requires n > 0
  {
    p.mean + p.scale * sqrt(12.0 / n as real) * (randomSum - n as real / 2.0)
  }

  function GaussianSample(p: GaussianParameters, n: nat, sqrt: real -> real, chunk: seq<real>): real
    requires n > 0
  {
    GaussianFromSum(p, n, sqrt, Sum(chunk))
  }

  /** Reference definition: sample i is computed from the i-th chunk of n draws. */
  function GaussianSequence(p: GaussianParameters, n: nat, size: nat, draws: seq<real>, sqrt: real -> real): seq<real>
    requires n > 0 && |draws| == n * size
  {
    var chunks := Chunks(draws, n, size);
    seq(size, i requires 0 <= i < size => GaussianSample(p, n, sqrt, chunks[i]))
  }

  class GaussianGenerator {
    /** Draws summed per sample; readable and writable by clients. */
    var n: int

    constructor ()
      ensures n == DefaultN
    {
      n := DefaultN;
    }

    /** The setter of `n`; it accepts any integer, and only a positive one
        lets `GenerateSequence` be called. */
    method SetN(value: int)
      modifies this
      ensures n == value
    {
      n := value;
    }

    /** Asks for n * size draws and reads them with one cursor: for each of
        the `size` samples, the next n draws are summed. */
    method GenerateSequence(p: GaussianParameters, size: nat, draws: seq<real>, sqrt: real -> real)
      returns (samples: seq<real>)
      requires n > 0 && |draws| == n * size
      ensures |samples| == size
      ensures forall i :: 0 <= i < size ==>
                samples[i] == GaussianSample(p, n, sqrt, Chunks(draws, n, size)[i])
      ensures samples == GaussianSequence(p, n, size, draws, sqrt)
    {
      var m: nat := n;
      samples := [];
      var cursor := 0;
      for i := 0 to size
        invariant cursor == i * m
        invariant |samples| == i
        invariant forall j :: 0 <= j < i ==>
                    samples[j] == GaussianSample(p, m, sqrt, Chunks(draws, m, size)[j])
      {
        ChunkAt(draws, m, size, i);
        var start := cursor;
        var randomSum := 0.0;
        for k := 0 to m
          invariant cursor == start + k
          invariant randomSum == Sum(draws[start..cursor])
        {
          SumSnoc(draws, start, cursor);
          randomSum := randomSum + draws[cursor];
          cursor := cursor + 1;
        }
        assert draws[start..cursor] == Chunks(draws, m, size)[i];
        samples := samples + [GaussianFromSum(p, m, sqrt, randomSum)];
        MulSucc(i, m);
      }
    }
  }

  // ---------------------------------------------------------------------
  // Exponential: inverse-CDF transform of one draw per sample.

  function ExponentialSample(p: ExponentialParameters, ln: real -> real, x: real): real
    requires p.Valid()
  {
    -1.0 / p.rate * ln(x)
  }

  /** Asks for `size` draws and yields one sample per draw, in order. */
  function Exponential(p: ExponentialParameters, size: nat, draws: seq<real>, ln: real -> real): (ys: seq<real>)
    requires p.Valid() && |draws| == size
    ensures |ys| == size
    ensures forall i :: 0 <= i < size ==> ys[i] == ExponentialSample(p, ln, draws[i])
    decreases size
  {
    if size == 0 then [] else [ExponentialSample(p, ln, draws[0])] + Exponential(p, size - 1, draws[1..], ln)
  }

  // ---------------------------------------------------------------------
  // Gamma (integer shape): minus the log-sum of `shape` draws, over the rate.

  /** The natural logarithm of each draw of a chunk. */
  function Logs(ln: real -> real, xs: seq<real>): (ls: seq<real>)
    ensures |ls| == |xs|
  {
    seq(|xs|, i requires 0 <= i < |xs| => ln(xs[i]))
  }

  /** The sample made from the log-sum of `shape` draws. */
  function GammaFromLogSum(p: GammaParameters, randomLogSum: real): real
    requires p.Valid()
  {
    -1.0 / p.rate * randomLogSum
  }

  function GammaSample(p: GammaParameters, ln: real -> real, chunk: seq<real>): real
    requires p.Valid()
  {
    GammaFromLogSum(p, Sum(Logs(ln, chunk)))
  }

  /** Reference definition: sample i is computed from the i-th chunk of `shape` draws. */
  function GammaSequence(p: GammaParameters, size: nat, draws: seq<real>, ln: real -> real): seq<real>
    requires p.Valid() && |draws| == p.shape * size
  {
    var chunks := Chunks(draws, p.shape, size);
    seq(size, i requires 0 <= i < size => GammaSample(p, ln, chunks[i]))
  }

  /** Asks for shape * size draws and reads them with one cursor: for each
      of the `size` samples, the logarithms of the next `shape` draws are
      summed. */
  method Gamma(p: GammaParameters, size: nat, draws: seq<real>, ln: real -> real)
    returns (samples: seq<real>)
    requires p.Valid() && |draws| == p.shape * size
    ensures |samples| == size
    ensures forall i :: 0 <= i < size ==>
              samples[i] == GammaSample(p, ln, Chunks(draws, p.shape, size)[i])
    ensures samples == GammaSequence(p, size, draws, ln)
  {
    var shape: nat := p.shape;
    samples := [];
    var cursor := 0;
    for i := 0 to size
      invariant cursor == i * shape
      invariant |samples| == i
      invariant forall j :: 0 <= j < i ==>
                  samples[j] == GammaSample(p, ln, Chunks(draws, shape, size)[j])
    {
      ChunkAt(draws, shape, size, i);
      var start := cursor;
      var randomLogSum := 0.0;
      for k := 0 to shape
        invariant cursor == start + k
        invariant randomLogSum == Sum(Logs(ln, draws[start..cursor]))
      {
        LogsSnoc(ln, draws, start, cursor);
        randomLogSum := randomLogSum + ln(draws[cursor]);
        cursor := cursor + 1;
      }
      assert draws[start..cursor] == Chunks(draws, shape, size)[i];
      samples := samples + [GammaFromLogSum(p, randomLogSum)];
      MulSucc(i, shape);
    }
  }

  /** Reading one more draw adds its logarithm to the log-sum. */
  lemma LogsSnoc(ln: real -> real, s: seq<real>, lo: nat, hi: nat)
    requires lo <= hi < |s|
    ensures Sum(Logs(ln, s[lo..hi + 1])) == Sum(Logs(ln, s[lo..hi])) + ln(s[hi])
  {
    var ls := Logs(ln, s[lo..hi + 1]);
    assert ls[..hi - lo] == Logs(ln, s[lo..hi]);
  }

  // ---------------------------------------------------------------------
  // Triangular: the smaller draw of each pair, scaled onto [a, b).

  /** Python's `min`: the first argument unless the second is smaller. */
  function Min(x: real, y: real): (m: real)
    ensures m <= x && m <= y
    ensures m == x || m == y
    ensures x <= y ==> m == x
  {
    if y < x then y else x
  }

  function TriangularSample(p: TriangularParameters, x1: real, x2: real): real {
    p.a + (p.b - p.a) * Min(x1, x2)
  }

  /** Asks for 2 * size draws and zips the even-position draws with the
      odd-position ones; each pair gives one sample. */
  function Triangular(p: TriangularParameters, size: nat, draws: seq<real>): (ys: seq<real>)
    requires p.Valid() && |draws| == 2 * size
    ensures |ys| == size
    ensures forall i :: 0 <= i < size ==> ys[i] == TriangularSample(p, draws[2 * i], draws[2 * i + 1])
  {
    var pairs := Zip(Evens(draws), Odds(draws));
    seq(|pairs|, i requires 0 <= i < |pairs| => TriangularSample(p, pairs[i].0, pairs[i].1))
  }

  // ---------------------------------------------------------------------
  // Simpson: the sum of each pair of draws, scaled onto [a, b).

  function SimpsonSample(p: SimpsonParameters, x1: real, x2: real): real {
    p.a + (p.b / 2.0 - p.a / 2.0) * (x1 + x2)
  }

  /** Asks for 2 * size draws and zips the even-position draws with the
      odd-position ones; each pair gives one sample. */
  function Simpson(p: SimpsonParameters, size: nat, draws: seq<real>): (ys: seq<real>)
    requires p.Valid() && |draws| == 2 * size
    ensures |ys| == size
    ensures forall i :: 0 <= i < size ==> ys[i] == SimpsonSample(p, draws[2 * i], draws[2 * i + 1])
  {
    var pairs := Zip(Evens(draws), Odds(draws));
    seq(|pairs|, i requires 0 <= i < |pairs| => SimpsonSample(p, pairs[i].0, pairs[i].1))
  }
}
