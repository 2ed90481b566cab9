# SAPHERE benchmark core, modelled in Dafny

The benchmark `src/saphere.cpp` compares two ways of returning a CKKS-encrypted
vector (Microsoft SEAL) to a processor:

- the **standard** way: the data owner decrypts and decodes the ciphertext `c`;
- **SAPHERE**:
  1. the processor puts the lower half of `c`'s limbs into a dummy plaintext and
     encrypts it under its own key, giving `c'_0`;
  2. it splices `c''` out of `c'_0` and the upper half of `c`;
  3. the data owner decrypts `c''` into a "midtext";
  4. the processor splices `c'''` out of the midtext's lower half and `c'_0`, then
     decrypts and decodes it.

Both ways run `execution_cnt` trials. Each trial records step latencies and one
absolute error per slot against the fill value. The descriptive statistics
engine (minimum, maximum, median, mean, sample variance) then reduces those
samples.

The model has four modules:

- `OrderStatistics` (`order.dfy`):
  - a reference sort, as a functional insertion sort;
  - the facts that pin it down: two sorted permutations are equal, and
    sorting depends only on the multiset;
  - `std::nth_element` as an in-place method on an `array<real>`. It is
    specified by the C++ guarantee: position `k` holds the `k`-th order
    statistic, nothing before it is greater, nothing after it is smaller, and
    the array is a permutation of what it was.
- `Statistics` (`statistics.dfy`):
  - `calc_mean`, `calc_minimum`, `calc_maximum`, `calc_median`,
    `calc_variance`, and the guard of `print_vec`;
  - samples are `real`;
  - each thrown exception is an `Err` value of a `Result`. The check that
    throws is modelled as a branch.
- `Splice` (`splice.dfy`):
  - the limb-copy loops of steps 1a, 1c and 5a, on `array<bv64>` buffers;
  - each is proved against the pure function `Overwrite`, with exact index
    postconditions and "everything else unchanged".
- `Trials` (`trials.dfy`):
  - the standard and the SAPHERE trial loops, and the per-trial aggregation
    loop;
  - SEAL's encryptor, decryptor and encoder are function values in a
    `Provider`, one per party;
  - encryption also takes the trial number, because every encryption draws
    fresh randomness.

Decisions where the model had to take a side:

- All splice steps copy `cipher_size / 2` limbs, into both halves. So for an
  odd `cipher_size`, the last limb of `c''` and of `c'''` is never written. It
  keeps the value of `c'_0`, the template they are copied from.
  `ComposeDoublePrime` and `ComposeTriplePrime` state this. The upper part is
  never given `cipher_size - cipher_size / 2` limbs.
- `calc_variance` of a single sample computes `0.0 / 0` in C++, which gives NaN.
  The model returns `Err(DivisionByZero)` for that case rather than excluding
  it with a precondition. Then every input has a defined result. The
  variance properties are proved for two or more samples.
- `calc_median` receives its vector by value. `CalcMedian` copies the sequence
  into a fresh local array and reorders only that array. The caller's sequence
  cannot change.
- The second `nth_element` of an even-length median runs on the vector the first
  call already reordered. `CalcMedian` proves that it still yields the `n/2`-th
  order statistic of the original samples.
- The message of `print_vec`'s exception speaks of a count "less than the vector
  size", but the guard fires when the count is greater. The model follows the
  guard.
- Latencies are not measured. The SAPHERE trial appends each of the three step
  durations to its vector as soon as that step ends, as the source does.
- The error of a slot is `abs(initial_number - x)` (lines 261 and 387), with `x` a
  `double`. The call is unqualified. With some standard libraries it can resolve
  to C's `int abs(int)`, which would truncate each error to an integer. The
  model takes the other reading: the overload for `double`, that is, the real
  absolute difference.
- Sizes the source takes for granted are stated as the assumption
  `Trials.WellSized`:
  - every ciphertext has `cipher_size` limbs;
  - a decrypted plaintext has `cipher_size / 2` limbs;
  - a decoded vector has `slot_count` slots.

  The dummy plaintext must also hold at least `cipher_size / 2` limbs.

## Model

| member | source | states |
|---|---|---|
| `OrderStatistics.Sort` | src/saphere.cpp:63-87 | the reference order used by the median: a sorted permutation of the samples, of the same length |
| `OrderStatistics.SortedUnique` | src/saphere.cpp:63-87 | two sorted sequences with the same multiset of samples are equal, so "the sorted vector" is well defined |
| `OrderStatistics.SortIsPermutationInvariant` | src/saphere.cpp:79-83 | reordering the samples, as the first `nth_element` does, does not change their sorted order |
| `OrderStatistics.SortFixesSorted` | src/saphere.cpp:63-87 | a vector is sorted exactly when sorting leaves it unchanged, in both directions |
| `OrderStatistics.SelectedIsOrderStatistic` | src/saphere.cpp:72 | if the first k+1 entries are in order and none exceeds a later entry, entry k is the k-th order statistic of every permutation |
| `OrderStatistics.NthElement` | src/saphere.cpp:72 | `nth_element` at `k`: position `k` holds `Sort(old)[k]`, nothing before it is greater, nothing after it is smaller, and the array is a permutation of the old one |
| `Statistics.CalcMean` | src/saphere.cpp:23-36 | an empty vector fails with `EmptyVector`; otherwise the summing loop returns exactly the sum over the size |
| `Statistics.CalcMinimum` | src/saphere.cpp:41-47 | an empty vector fails; otherwise the result is one of the samples and no sample is below it |
| `Statistics.CalcMaximum` | src/saphere.cpp:52-58 | an empty vector fails; otherwise the result is one of the samples and no sample is above it |
| `Statistics.MinimumIsFirstOrderStatistic` | src/saphere.cpp:41-47 | the minimum equals the first entry of the sorted vector |
| `Statistics.MaximumIsLastOrderStatistic` | src/saphere.cpp:52-58 | the maximum equals the last entry of the sorted vector |
| `Statistics.MedianOfSorted` | src/saphere.cpp:70-86 | for samples already in order, the median is the middle sample (odd count) or the average of the two middle samples (even count) |
| `Statistics.CalcMedian` | src/saphere.cpp:63-87 | an empty vector fails; an odd count returns `sorted[n/2]`; an even count returns `(sorted[n/2-1] + sorted[n/2]) / 2`, with `sorted[n/2]` obtained from the already reordered copy |
| `Statistics.MeanWithin` | src/saphere.cpp:23-36 | if every sample lies in `[lo, hi]`, so does the mean |
| `Statistics.MeanBetweenExtremes` | src/saphere.cpp:23-58 | for a non-empty vector, minimum <= mean <= maximum |
| `Statistics.MedianBetweenExtremes` | src/saphere.cpp:41-87 | for a non-empty vector, minimum <= median <= maximum |
| `Statistics.CalcVariance` | src/saphere.cpp:92-102 | an empty vector fails through `calc_mean`; one sample fails with the division by `size - 1 = 0`; otherwise the loop returns the sum of squared deviations from the mean over `n - 1` |
| `Statistics.SquaredDiffsNonNegative` | src/saphere.cpp:97-100 | the accumulated squared deviations are never negative |
| `Statistics.VarianceNonNegative` | src/saphere.cpp:92-102 | the sample variance of two or more samples is >= 0 |
| `Statistics.ConstantSamples` | src/saphere.cpp:92-102 | samples that all equal `c` have mean `c` and variance 0 |
| `Statistics.PrintVec` | src/saphere.cpp:114-126 | a count above the size fails with `invalid_argument`; otherwise the first `cnt` samples are shown in order |
| `Splice.Overwrite` | src/saphere.cpp:306-308 | a limb-copy loop's result: the same length as the destination, source limbs inside the range, destination limbs everywhere else |
| `Splice.OverwriteWithItself` | src/saphere.cpp:321-323 | copying a buffer's own limbs into its copy (the first loop of step 1c) changes nothing |
| `Splice.OverwriteUpperFromTemplate` | src/saphere.cpp:364-374 | once the lower `n/2` limbs of the copy of `c'_0` hold the midtext, copying `c'_0`'s own limbs into the next `n/2` positions changes nothing |
| `Splice.CopyRange` | src/saphere.cpp:306-308 | the loop `dst[i + from] = src[i + from]` for `i < count` leaves `dst` equal to `Overwrite(old dst, old src, from, count)` |
| `Splice.FillPlainWithLowerHalf` | src/saphere.cpp:298-308 | step 1a: `c_first_plain[i] == c[i]` for `i < cipher_size / 2`; every other plaintext limb unchanged; requires at least `cipher_size / 2` plaintext limbs |
| `Splice.ComposeDoublePrime` | src/saphere.cpp:318-328 | step 1c: a fresh copy of `c'_0` of the same length; lower `n/2` limbs from `c'_0`, the next `n/2` from `c`, indices from `2*(n/2)` keep `c'_0`'s value; the sources are not modified |
| `Splice.ComposeTriplePrime` | src/saphere.cpp:364-374 | step 5a: a fresh copy of `c'_0`; lower `n/2` limbs from the midtext, everything from `n/2` on equal to `c'_0`; requires at least `n/2` midtext limbs |
| `Trials.SlotErrors` | src/saphere.cpp:260-262 | one error per slot, each the absolute difference to the fill value, so >= 0 |
| `Trials.AppendErrors` | src/saphere.cpp:386-388 | the push_back loop appends exactly the slot errors of the first `slot_count` decoded slots |
| `Trials.ErrorsLength` | src/saphere.cpp:258-262 | after `n` trials of `slot_count` slots there are `n * slot_count` error samples |
| `Trials.ErrorsNonNegative` | src/saphere.cpp:261 | every recorded error sample is >= 0 |
| `Trials.ErrorsAt` | src/saphere.cpp:386-388 | error sample `t * slot_count + j` is the error of slot `j` in trial `t` |
| `Trials.ErrorsSnoc` | src/saphere.cpp:386-388 | recording one more trial appends exactly that trial's slot errors |
| `Trials.StandardOutcomes` | src/saphere.cpp:242-246 | every baseline trial decodes the same vector, the owner's decryption and decoding of `c` |
| `Trials.StandardTrials` | src/saphere.cpp:229-263 | the time vector is the sequence of measured durations, one per trial; the errors are the trials' slot errors in order, `execution_cnt * slot_count` of them, all >= 0 |
| `Trials.SaphereOutcomesAt` | src/saphere.cpp:291-394 | outcome `t` of a SAPHERE run is what trial `t` decodes, a vector of `slot_count` slots |
| `Trials.SaphereErrorsLength` | src/saphere.cpp:386-388 | a SAPHERE run of `n` trials records `n * slot_count` errors |
| `Trials.SaphereStep1` | src/saphere.cpp:295-330 | step 1: `c'_0` is the processor's encryption of the dummy plaintext with `c`'s lower half; `c''` is `c'_0` with `c`'s upper half |
| `Trials.SaphereStep5` | src/saphere.cpp:361-383 | step 5: the decoded result is the processor's decryption and decoding of `c'_0` with the midtext's lower half |
| `Trials.SaphereTrial` | src/saphere.cpp:295-384 | one trial: each step's duration is appended to its own vector, and the decoded vector is the composition of steps 1a-5b on the raw limbs |
| `Trials.SaphereTrials` | src/saphere.cpp:291-394 | the three step-time vectors are the measured durations, one per trial; the errors are the slot errors of every trial's decoded vector in order, `execution_cnt * slot_count` of them, all >= 0 |
| `Trials.AggregateTimes` | src/saphere.cpp:428-431 | `processor[i] == step1[i] + step5[i]` and `total[i] == step1[i] + step3[i] + step5[i]`, one entry per trial |
| `Trials.AggregatedMeans` | src/saphere.cpp:428-437 | the mean processor time is the mean of step 1 plus the mean of step 5; the mean total time adds the mean of step 3 |
| `Trials.ErrorStatistics` | src/saphere.cpp:273-276 | for at least one trial and one slot the error vector is non-empty, and its minimum, mean and maximum are >= 0 |
| `Trials.ExactDecodingHasNoError` | src/saphere.cpp:386-388 | if every decoded slot equals the fill value, every recorded error is 0 |

## Left out

- SEAL itself: parameter and context setup, key generation, `dyn_array` and
  `data()`. These are foreign code. Only `encrypt`, `decrypt` and `decode`
  appear, as function values in `Trials.Provider`, with their output sizes
  stated by `Trials.WellSized`. The owner's `encode` and `encrypt` of the
  fill vector (lines 210, 213) appear only as their result, the input
  ciphertext `encrypted`. The processor's dummy `encode(3, ...)` (line 303)
  appears only as its result, the input `dummyPlain`.
- Cryptographic correctness. Nothing is claimed about whether SAPHERE's decoded
  vector equals the fill value. The owner's decryption of the composite `c''` is
  outside the scheme's guarantees.
- Clock reads with `std::chrono`. They are nondeterministic, so the durations
  are inputs with one entry per trial.
- All console output: `print_time`, `print_error`, `print_percentage`, and
  the byte-size messages. `Statistics.PrintVec` returns the shown samples
  instead of printing them.
- `Trials.StandardTrials`, `Trials.SaphereTrials`: the exemplary
  `print_vec(..., 5)` calls (lines 205, 255, 392) are not part of the loops.
  Through the guard at lines 116 and 124 these throw when `slot_count < 5`.
  The model allows any `slotCount`, and for `slotCount < 5` both loops return
  normally where the benchmark would stop with `std::invalid_argument`.
- Floating point: IEEE rounding, NaN and infinity. This includes NaN ordering in
  `min_element`/`max_element` and the `cout` precision settings.
- `calc_std_deviation`, because it is only `sqrt` of the variance and there is no
  real square root here. `nano_to_millisecond` and `to_percentage` are left out
  too: they are constant scalings of a double.
- The initial vector fill loop (lines 201-203), a `push_back` loop that fills
  every slot with `initial_number`. It is not modelled as a loop: its effect is
  what the input ciphertext `encrypted` stands for, and it shows up only as the
  fill value `initial`.
- The final relative comparisons between the two protocols: floating-point
  ratios that are only printed.
- Integer widths: `size_t`, `uint64_t` and `int execution_cnt` are unbounded
  naturals here. The benchmark's sizes are far from wrap-around.
- `OrderStatistics.NthElement`: implemented by selecting the least remaining entry
  into positions `0 .. k`. Its contract is the standard's guarantee, not the
  particular arrangement the C++ library's introselect leaves behind.
