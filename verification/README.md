# distribution-rng: the sampling layer, in Dafny

This project models the six distribution generators of `generators.py`:
Uniform, Gaussian, Exponential, Gamma, Triangular and Simpson. Each one
takes its draws from an injected uniform stream `rng`. It asks `rng` for a
fixed number of draws and turns them into exactly `size` samples:

| generator   | draws requested | grouping                         | sample                                        |
|-------------|-----------------|----------------------------------|-----------------------------------------------|
| Uniform     | `size`          | one draw each                    | `a + (b - a) * x`                             |
| Gaussian    | `n * size`      | consecutive chunks of `n`        | `mean + scale * sqrt(12/n) * (sum - n/2)`     |
| Exponential | `size`          | one draw each                    | `-1/rate * ln(x)`                             |
| Gamma       | `shape * size`  | consecutive chunks of `shape`    | `-1/rate * (sum of ln over the chunk)`        |
| Triangular  | `2 * size`      | `zip(draws[::2], draws[1::2])`   | `a + (b - a) * min(x1, x2)`                   |
| Simpson     | `2 * size`      | `zip(draws[::2], draws[1::2])`   | `a + (b/2 - a/2) * (x1 + x2)`                 |

Files:

- `sequences.dfy` (module `Sequences`) holds the shared vocabulary. It has
  the unit interval the draws live in and Python's left-to-right `sum`. It
  also has the fixed-size chunking that a cursor reading `k` draws at a
  time performs, and the `s[::2]` / `s[1::2]` slices with `zip`.
- `generators.py` is modelled by `generators.dfy` (module `Generators`).
  The six parameter records become datatypes. Each except
  `GaussianParameters`, whose fields the parameter reader accepts
  unchecked, has a `Valid()` predicate for what that reader checks. Uniform, Exponential,
  Triangular and Simpson are per-element maps, so they are functions.
  Gaussian and Gamma advance one iterator with `next()` in a nested loop.
  They are methods that move a cursor through the draws, with loop
  invariants, and each is proved equal to a chunk-based reference
  definition. Gaussian is a class because its `n` field has a setter.
- `properties.dfy` (module `Properties`) holds the lemmas that relate the
  generators to each other and bound their samples.

Modelling choices:

- Floats are idealised as `real`.
- The uniform stream (`rng.py`, a linear congruential generator) is not
  part of this model. A generator receives the sequence that `rng(k)`
  returned. Its precondition `|draws| == k` records how many draws it asks
  for, and relies on `rng` returning exactly that many (`main.py:55`).
  Range lemmas also assume every draw lies in `[0, 1)`.
- `math.log` and `math.sqrt` are passed in as function parameters `ln`
  and `sqrt`. Nothing is assumed about them, except where a lemma says so
  in its `requires`: the Exponential sign lemma assumes `ln(x) <= 0` on the
  draws, and the Gaussian bound assumes `sqrt(12/n) >= 0`.
- The parameter checks of `input.py` are preconditions. These are `b > a`
  for Uniform, Triangular and Simpson (`input.py:7`, `25`, `31`), `rate > 0`
  (`input.py:16`, `20`) and integer `shape > 0` (`input.py:20`). The
  generators themselves do not check them.
- With draws in `[0, 1)`, Triangular and Simpson samples lie in `[a, b)`:
  at least `a` and strictly below `b`. That is what is proved.

## Model

| member | source | states |
|---|---|---|
| `Generators.UniformParameters.Valid` | input.py:5-8 | Uniform parameters are accepted only with `b > a` |
| `Generators.ExponentialParameters.Valid` | input.py:15-16 | Exponential parameters are accepted only with `rate > 0` |
| `Generators.GammaParameters.Valid` | input.py:19-20 | Gamma parameters are accepted only with integer `shape > 0` and `rate > 0` |
| `Generators.TriangularParameters.Valid` | input.py:23-26 | Triangular parameters are accepted only with `b > a` |
| `Generators.SimpsonParameters.Valid` | input.py:29-32 | Simpson parameters are accepted only with `b > a` |
| `Generators.Min` | generators.py:68 | Python's `min` of two values: the result is at most both arguments and is one of them, and on a tie it is the first argument |
| `Generators.Uniform` | generators.py:16-18 | exactly `size` samples from `size` draws, in order; sample i depends on draw i alone, as `a + (b - a) * x_i` |
| `Generators.GaussianGenerator.constructor` | generators.py:22-24 | a new Gaussian generator sums `n = 6` draws per sample |
| `Generators.GaussianGenerator.SetN` | generators.py:30-32 | the setter replaces `n` with any integer |
| `Generators.GaussianGenerator.GenerateSequence` | generators.py:34-38 | the cursor loops over `n * size` draws yield exactly `size` samples; sample i is `mean + scale*sqrt(12/n)*(sum - n/2)` over chunk i, and the output equals the chunk-based reference definition |
| `Generators.Exponential` | generators.py:45-47 | exactly `size` samples from `size` draws, in order; sample i is `-1/rate * ln(x_i)` |
| `Generators.Gamma` | generators.py:54-58 | the cursor loops over `shape * size` draws yield exactly `size` samples; sample i is `-1/rate` times the log-sum of chunk i, and the output equals the chunk-based reference definition |
| `Generators.Triangular` | generators.py:65-68 | `2 * size` draws give exactly `size` samples; sample i uses draws 2i and 2i+1 only, as `a + (b - a) * min(x_2i, x_2i+1)` |
| `Generators.Simpson` | generators.py:91-94 | `2 * size` draws give exactly `size` samples; sample i uses draws 2i and 2i+1 only, as `a + (b/2 - a/2) * (x_2i + x_2i+1)` |
| `Sequences.Evens` | generators.py:66-67 | `s[::2]` has `ceil(|s|/2)` elements, element i being `s[2i]` |
| `Sequences.Odds` | generators.py:66-67 | `s[1::2]` has `floor(|s|/2)` elements, element i being `s[2i+1]` |
| `Sequences.Zip` | generators.py:67 | `zip` stops at the shorter side and pairs element i with element i |
| `Sequences.Chunks` | generators.py:35-37 | reading `k` draws at a time `count` times from `k * count` draws gives `count` chunks, each of length `k` |
| `Sequences.ChunkAt` | generators.py:35-37 | chunk i is exactly the draws at positions `i*k` up to `(i+1)*k`, so chunks are disjoint and in order |
| `Sequences.FlattenChunks` | generators.py:35-37 | the chunks, concatenated in order, are all the draws: none skipped, none reused |
| `Sequences.Sum` | generators.py:37 | Python's `sum`: 0 for no elements, otherwise the sum of all but the last plus the last, so elements are added left to right |
| `Sequences.SumBounds` | generators.py:37 | a sum of draws from `[0, 1)` lies in `[0, count]`, and below `count` when there is a draw |
| `Properties.UniformSampleInRange` | generators.py:18 | with `a < b`, a draw in `[0, 1)` is sent into `[a, b)` |
| `Properties.UniformInRange` | generators.py:16-18 | with `a < b` and draws in `[0, 1)`, every Uniform sample lies in `[a, b)` |
| `Properties.UniformOnUnitInterval` | generators.py:16-18 | with `(a, b) = (0, 1)`, Uniform returns the draws unchanged |
| `Properties.ExponentialNonNegative` | generators.py:45-47 | with `rate > 0` and the logarithm of every draw at most 0, every Exponential sample is non-negative |
| `Properties.GammaShapeOneIsExponential` | generators.py:54-58 | Gamma with shape 1 gives the same samples as Exponential with the same rate on the same draws |
| `Properties.SumOfScaledLogs` | generators.py:57-58 | scaling each log by `-1/rate` and summing gives the same value as scaling the log-sum once |
| `Properties.GammaSampleIsSumOfExponentials` | generators.py:57-58 | one Gamma sample equals the sum of the Exponential samples (same rate) of its own draws |
| `Properties.GammaIsSumOfExponentials` | generators.py:57-58 | Gamma sample i is the sum of the Exponential samples of the draws in its own chunk |
| `Properties.GaussianSampleBounded` | generators.py:37-38 | with draws in `[0, 1)`, a Gaussian sample is within `abs(scale) * sqrt(12/n) * n/2` of `mean` |
| `Properties.GaussianBounded` | generators.py:34-38 | every sample of the Gaussian sequence is within `abs(scale) * sqrt(12/n) * n/2` of `mean` |
| `Properties.GaussianSampleReflected` | generators.py:37-38 | replacing each draw x of a chunk by `1 - x` reflects the sample through `mean` |
| `Properties.TriangularSampleIsMinOfUniform` | generators.py:68 | a Triangular sample is the smaller of the two Uniform samples of its draws |
| `Properties.TriangularBelowUniform` | generators.py:65-68 | Triangular sample i never exceeds the Uniform sample of draw 2i or of draw 2i+1, and lies in `[a, b)` when the draws are in `[0, 1)` |
| `Properties.TriangularPairSwap` | generators.py:67-68 | swapping the two draws of every pair leaves the Triangular samples unchanged |
| `Properties.SimpsonSampleIsMean` | generators.py:94 | a Simpson sample is the mean of the two Uniform samples of its draws |
| `Properties.SimpsonIsMeanOfUniform` | generators.py:91-94 | Simpson sample i is the mean of the Uniform samples of draws 2i and 2i+1 |
| `Properties.SimpsonInRange` | generators.py:91-94 | with `a < b` and draws in `[0, 1)`, every Simpson sample lies in `[a, b)` |
| `Properties.SimpsonPairSwap` | generators.py:93-94 | swapping the two draws of every pair leaves the Simpson samples unchanged |
| `Properties.SimpsonSampleReflected` | generators.py:94 | replacing both draws x by `1 - x` reflects a Simpson sample through the midpoint `(a + b) / 2` |
| `Properties.SimpsonReflected` | generators.py:91-94 | reflecting every draw reflects every Simpson sample through `(a + b) / 2` |

## Left out

- The uniform stream `random_sequence` of `rng.py` is not part of this model. Draws are an input sequence, and the LCG recurrence and its constants (`main.py:17-19`) are not modelled.
- `main.py` is left out: argument dispatch, the `statistics` calls, the histogram and `plt.show()` are I/O and foreign libraries. The sample count 50000 (`main.py:15`) is just one value of `size`.
- `input.py` is left out: the `input()` retry loop and `safe_cast` are terminal I/O. Only the conditions they enforce are kept, as `Valid()` preconditions.
- Floating-point rounding, and what `math.log(0)` does (an error in Python), are not modelled. `ln` and `sqrt` are arbitrary functions on `real`.
- Lazy `yield` is not modelled. Each generator returns its whole sample sequence at once.
- The `rng` held by each generator object is not a field. The draws are passed straight to the generating function or method. Uniform, Exponential, Triangular and Simpson keep no other state, so they are functions rather than classes.
- Generators.GaussianGenerator.GenerateSequence: requires `n > 0`. For `n <= 0` the source yields nothing when `size == 0`, and raises when `size > 0`: ZeroDivisionError from `12 / n` for `n == 0`, ValueError from `math.sqrt` for `n < 0` (no draw is read, so the sum is 0). The model covers neither the empty result for `size == 0` nor the two exceptions.
- Changing `n` through the setter while a sequence is being consumed is not modelled. `GenerateSequence` reads `n` once and uses that value throughout.
- Statistical claims are not modelled: sample mean and variance, approximate normality, and density shapes are not properties of single runs.
