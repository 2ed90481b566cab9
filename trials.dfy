/**
 * The benchmark's trial loops: the baseline protocol (the data owner decrypts and
 * decodes `c` itself) and the SAPHERE protocol (split, re-encrypt, splice,
 * owner-side decryption of `c''`, recombination into `c'''`, processor-side
 * decryption), each run `execution_cnt` times and appending latency and error
 * samples; then the aggregation of the per-step latencies.
 */
module Trials {
  import opened Statistics
  import opened Splice

  /**
   * One party's encryption provider (SEAL encryptor, decryptor and CKKS encoder
   * for that party's context and keys), as functions whose insides are not
   * modelled. `encrypt` takes the trial number: each encryption draws fresh
   * randomness, so two trials may encrypt the same plaintext differently.
   */
  datatype Provider = Provider(
    encrypt: (nat, seq<Limb>) -> seq<Limb>,
    decrypt: seq<Limb> -> seq<Limb>,
    decode: seq<Limb> -> seq<real>)

  /**
   * The sizes the benchmark relies on: both parties use the same parameters, so
   * a ciphertext has `cipherSize` limbs, a plaintext half as many (one polynomial
   * instead of two), and a decoded vector `slotCount` slots.
   */
  ghost predicate WellSized(p: Provider, cipherSize: nat, slotCount: nat) {
    && (forall t, x :: |p.encrypt(t, x)| == cipherSize)
    && (forall c :: |p.decrypt(c)| == cipherSize / 2)
    && (forall x :: |p.decode(x)| == slotCount)
  }

  /** `abs(a - b)` */
  function AbsDiff(a: real, b: real): real {
    if a >= b then a - b else b - a
  }

  /** The error samples of one decoded vector against the fill value, slot by slot. */
  function SlotErrors(initial: real, decoded: seq<real>): (e: seq<real>)
    ensures |e| == |decoded|
    ensures forall j :: 0 <= j < |e| ==> e[j] == AbsDiff(initial, decoded[j]) && e[j] >= 0.0
  {
    if decoded == [] then []
    else SlotErrors(initial, decoded[..|decoded| - 1]) + [AbsDiff(initial, decoded[|decoded| - 1])]
  }

  /** The error samples of a run: the slot errors of every trial, trial after trial. */
  function Errors(initial: real, outcomes: seq<seq<real>>): seq<real> {
    if outcomes == [] then []
    else Errors(initial, outcomes[..|outcomes| - 1]) + SlotErrors(initial, outcomes[|outcomes| - 1])
  }

  /** A sample sequence's first `i + 1` entries are its first `i` and then entry `i`. */
  lemma PrefixExtend(s: seq<real>, i: nat)
    requires i < |s|
    ensures s[..i + 1] == s[..i] + [s[i]]
  {
  }

  /** Recording one more trial appends that trial's slot errors. */
  lemma ErrorsSnoc(initial: real, outcomes: seq<seq<real>>, decoded: seq<real>)
    ensures Errors(initial, outcomes + [decoded]) == Errors(initial, outcomes) + SlotErrors(initial, decoded)
  {
    assert (outcomes + [decoded])[..|outcomes|] == outcomes;
  }

  /** After `n` trials of `slotCount` slots each there are `n * slotCount` error samples. */
  lemma {:induction false} ErrorsLength(initial: real, outcomes: seq<seq<real>>, slotCount: nat)
    requires forall t :: 0 <= t < |outcomes| ==> |outcomes[t]| == slotCount
    ensures |Errors(initial, outcomes)| == |outcomes| * slotCount
  {
    if outcomes != [] {
      var n := |outcomes|;
      ErrorsLength(initial, outcomes[..n - 1], slotCount);
      assert (n - 1) * slotCount + slotCount == n * slotCount;
    }
  }

  /** Every error sample is an absolute difference, so none is negative. */
  lemma {:induction false} ErrorsNonNegative(initial: real, outcomes: seq<seq<real>>)
    ensures forall k :: 0 <= k < |Errors(initial, outcomes)| ==> Errors(initial, outcomes)[k] >= 0.0
  {
    if outcomes != [] {
      ErrorsNonNegative(initial, outcomes[..|outcomes| - 1]);
    }
  }

  /** Slot `j` of trial `t` lies inside trial `t`'s block of `slotCount` samples, and before trial `n`'s. */
  lemma TrialSlotIndex(t: nat, j: nat, n: nat, slotCount: nat)
    requires t < n && j < slotCount
    ensures t * slotCount <= t * slotCount + j < (t + 1) * slotCount <= n * slotCount
  {
    var rest: nat := n - t - 1;
    assert (t + 1) * slotCount == t * slotCount + slotCount;
    assert n * slotCount == (t + 1) * slotCount + rest * slotCount;
  }

  /** Error sample `t * slotCount + j` is the error of slot `j` in trial `t`. */
  lemma {:induction false} ErrorsAt(initial: real, outcomes: seq<seq<real>>, slotCount: nat, t: nat, j: nat)
    requires forall u :: 0 <= u < |outcomes| ==> |outcomes[u]| == slotCount
    requires t < |outcomes| && j < slotCount
    ensures |Errors(initial, outcomes)| == |outcomes| * slotCount
    ensures t * slotCount + j < |outcomes| * slotCount
    ensures Errors(initial, outcomes)[t * slotCount + j] == AbsDiff(initial, outcomes[t][j])
  {
    var n := |outcomes|;
    var prefix, last := outcomes[..n - 1], outcomes[n - 1];
    var k := t * slotCount + j;
    ErrorsLength(initial, outcomes, slotCount);
    ErrorsLength(initial, prefix, slotCount);
    TrialSlotIndex(t, j, n, slotCount);
    assert Errors(initial, outcomes) == Errors(initial, prefix) + SlotErrors(initial, last);
    if t < n - 1 {
      TrialSlotIndex(t, j, n - 1, slotCount);
      ErrorsAt(initial, prefix, slotCount, t, j);
      assert k < |Errors(initial, prefix)|;
    } else {
      assert |Errors(initial, prefix)| == t * slotCount;
      assert Errors(initial, outcomes)[k] == SlotErrors(initial, last)[j];
    }
  }

  /**
   * The push_back loop that records one trial's errors:
   * `for (i = 0; i < slot_count; i++) errors.push_back(abs(initial_number - decoded[i]));`
   */
  method AppendErrors(errors: seq<real>, initial: real, decoded: seq<real>, slotCount: nat)
    returns (extended: seq<real>)
    requires slotCount <= |decoded|
    ensures extended == errors + SlotErrors(initial, decoded[..slotCount])
    ensures |extended| == |errors| + slotCount
  {
    extended := errors;
    for i := 0 to slotCount
      invariant extended == errors + SlotErrors(initial, decoded[..i])
    {
      assert decoded[..i + 1][..i] == decoded[..i];
      extended := extended + [AbsDiff(initial, decoded[i])];
    }
  }

  /** What one baseline trial decodes: the owner decrypts and decodes `c` (lines 242-246). */
  function StandardDecoded(owner: Provider, encrypted: seq<Limb>): seq<real> {
    owner.decode(owner.decrypt(encrypted))
  }

  /** The decoded vectors of baseline trials 0 .. n - 1: the same each time, as decryption is deterministic. */
  function StandardOutcomes(n: nat, owner: Provider, encrypted: seq<Limb>): (r: seq<seq<real>>)
    ensures |r| == n
    ensures forall t :: 0 <= t < n ==> r[t] == StandardDecoded(owner, encrypted)
  {
    if n == 0 then [] else StandardOutcomes(n - 1, owner, encrypted) + [StandardDecoded(owner, encrypted)]
  }

  /**
   * The baseline trial loop: each trial decrypts and decodes `c`, appends the
   * measured duration of that step and one error sample per slot.
   */
  method StandardTrials(executionCnt: nat, initial: real, encrypted: array<Limb>, owner: Provider,
                        slotCount: nat, durations: seq<real>)
    returns (stdTimes: seq<real>, stdErrors: seq<real>)
    requires WellSized(owner, encrypted.Length, slotCount)
    requires |durations| == executionCnt
    ensures stdTimes == durations
    ensures stdErrors == Errors(initial, StandardOutcomes(executionCnt, owner, encrypted[..]))
    ensures |stdErrors| == executionCnt * slotCount
    ensures forall k :: 0 <= k < |stdErrors| ==> stdErrors[k] >= 0.0
  {
    stdTimes, stdErrors := [], [];
    for i := 0 to executionCnt
      invariant stdTimes == durations[..i]
      invariant stdErrors == Errors(initial, StandardOutcomes(i, owner, encrypted[..]))
    {
      var vecAfterDecrypt := owner.decrypt(encrypted[..]);
      var vecAfterDecode := owner.decode(vecAfterDecrypt);
      stdTimes := stdTimes + [durations[i]];
      assert vecAfterDecode[..slotCount] == vecAfterDecode;
      stdErrors := AppendErrors(stdErrors, initial, vecAfterDecode, slotCount);
    }
    assert durations[..executionCnt] == durations;
    ErrorsLength(initial, StandardOutcomes(executionCnt, owner, encrypted[..]), slotCount);
    ErrorsNonNegative(initial, StandardOutcomes(executionCnt, owner, encrypted[..]));
  }

  /**
   * What SAPHERE trial `t` decodes, as a function of the raw limbs:
   * 1a `c_first_plain` = the dummy plaintext with `c`'s lower half,
   * 1b `c'_0` = its encryption under the processor's key,
   * 1c `c''` = `c'_0` with `c`'s upper half,
   * 3  midtext = the owner's decryption of `c''`,
   * 5a `c'''` = `c'_0` with the midtext's lower half,
   * 5b the processor's decryption and decoding of `c'''`.
   */
  function SaphereDecoded(t: nat, owner: Provider, processor: Provider, dummyPlain: seq<Limb>,
                           encrypted: seq<Limb>, slotCount: nat): seq<real>
    requires WellSized(owner, |encrypted|, slotCount) && WellSized(processor, |encrypted|, slotCount)
    requires |encrypted| / 2 <= |dummyPlain|
  {
    var half := |encrypted| / 2;
    var plain := Overwrite(dummyPlain, encrypted, 0, half);
    var cFirstCiph := processor.encrypt(t, plain);
    var dd := Overwrite(cFirstCiph, encrypted, half, half);
    var midtext := owner.decrypt(dd);
    var ddd := Overwrite(cFirstCiph, midtext, 0, half);
    processor.decode(processor.decrypt(ddd))
  }

  /** The decoded vectors of SAPHERE trials 0 .. n - 1, in order. */
  function SaphereOutcomes(n: nat, owner: Provider, processor: Provider, dummyPlain: seq<Limb>,
                           encrypted: seq<Limb>, slotCount: nat): (r: seq<seq<real>>)
    requires WellSized(owner, |encrypted|, slotCount) && WellSized(processor, |encrypted|, slotCount)
    requires |encrypted| / 2 <= |dummyPlain|
    ensures |r| == n
  {
    if n == 0 then []
    else SaphereOutcomes(n - 1, owner, processor, dummyPlain, encrypted, slotCount)
         + [SaphereDecoded(n - 1, owner, processor, dummyPlain, encrypted, slotCount)]
  }

  /** Outcome `t` of a SAPHERE run is what trial `t` decodes, a vector of `slotCount` slots. */
  lemma {:induction false} SaphereOutcomesAt(n: nat, owner: Provider, processor: Provider, dummyPlain: seq<Limb>,
                                             encrypted: seq<Limb>, slotCount: nat, t: nat)
    requires WellSized(owner, |encrypted|, slotCount) && WellSized(processor, |encrypted|, slotCount)
    requires |encrypted| / 2 <= |dummyPlain|
    requires t < n
    ensures SaphereOutcomes(n, owner, processor, dummyPlain, encrypted, slotCount)[t]
         == SaphereDecoded(t, owner, processor, dummyPlain, encrypted, slotCount)
    ensures |SaphereOutcomes(n, owner, processor, dummyPlain, encrypted, slotCount)[t]| == slotCount
  {
    if t < n - 1 {
      SaphereOutcomesAt(n - 1, owner, processor, dummyPlain, encrypted, slotCount, t);
    }
  }

  /** A SAPHERE run of `n` trials records `n * slotCount` error samples. */
  lemma SaphereErrorsLength(initial: real, n: nat, owner: Provider, processor: Provider, dummyPlain: seq<Limb>,
                            encrypted: seq<Limb>, slotCount: nat)
    requires WellSized(owner, |encrypted|, slotCount) && WellSized(processor, |encrypted|, slotCount)
    requires |encrypted| / 2 <= |dummyPlain|
    ensures |Errors(initial, SaphereOutcomes(n, owner, processor, dummyPlain, encrypted, slotCount))| == n * slotCount
  {
    var outcomes := SaphereOutcomes(n, owner, processor, dummyPlain, encrypted, slotCount);
    forall t | 0 <= t < n
      ensures |outcomes[t]| == slotCount
    {
      SaphereOutcomesAt(n, owner, processor, dummyPlain, encrypted, slotCount, t);
    }
    ErrorsLength(initial, outcomes, slotCount);
  }

  /**
   * SAPHERE step 1 (timed, processor): 1a fill the dummy plaintext with `c`'s
   * lower half, encrypt it under the processor's key into `c'_0`, 1c splice
   * `c''` from `c'_0` and `c`'s upper half.
   */
  method SaphereStep1(t: nat, encrypted: array<Limb>, dummyPlain: seq<Limb>, processor: Provider, slotCount: nat)
    returns (cFirstCiph: array<Limb>, ciphDd: array<Limb>)
    requires WellSized(processor, encrypted.Length, slotCount)
    requires encrypted.Length / 2 <= |dummyPlain|
    ensures fresh(cFirstCiph) && fresh(ciphDd)
    ensures cFirstCiph[..] == processor.encrypt(t, Overwrite(dummyPlain, encrypted[..], 0, encrypted.Length / 2))
    ensures ciphDd[..] == Overwrite(cFirstCiph[..], encrypted[..], encrypted.Length / 2, encrypted.Length / 2)
  {
    var cFirstPlain := FromSeq(dummyPlain);
    FillPlainWithLowerHalf(cFirstPlain, encrypted);
    cFirstCiph := FromSeq(processor.encrypt(t, cFirstPlain[..]));
    ciphDd := ComposeDoublePrime(cFirstCiph, encrypted);
  }

  /**
   * SAPHERE step 5 (timed, processor): 5a recombine `c'''` from the midtext's
   * lower half and `c'_0`'s upper half, 5b decrypt it with the processor's key
   * and decode it.
   */
  method SaphereStep5(cFirstCiph: array<Limb>, midtext: array<Limb>, cipherSize: nat, processor: Provider)
    returns (resultDecoded: seq<real>)
    requires cipherSize / 2 <= midtext.Length && 2 * (cipherSize / 2) <= cFirstCiph.Length
    ensures resultDecoded
         == processor.decode(processor.decrypt(Overwrite(cFirstCiph[..], midtext[..], 0, cipherSize / 2)))
  {
    var ciphDdd := ComposeTriplePrime(cFirstCiph, midtext, cipherSize);
    var resultPlain := processor.decrypt(ciphDdd[..]);
    resultDecoded := processor.decode(resultPlain);
  }

  /**
   * One SAPHERE trial: steps 1, 3 and 5 on the raw limb buffers, the measured
   * duration of each step appended to that step's latency samples as soon as
   * the step ends, and the finally decoded vector returned.
   */
  method SaphereTrial(t: nat, encrypted: array<Limb>, dummyPlain: seq<Limb>, owner: Provider,
                      processor: Provider, slotCount: nat, step1Duration: real, step3Duration: real,
                      step5Duration: real, step1Times: seq<real>, step3Times: seq<real>, step5Times: seq<real>)
    returns (step1Next: seq<real>, step3Next: seq<real>, step5Next: seq<real>, resultDecoded: seq<real>)
    requires WellSized(owner, encrypted.Length, slotCount) && WellSized(processor, encrypted.Length, slotCount)
    requires encrypted.Length / 2 <= |dummyPlain|
    ensures step1Next == step1Times + [step1Duration]
    ensures step3Next == step3Times + [step3Duration]
    ensures step5Next == step5Times + [step5Duration]
    ensures resultDecoded == SaphereDecoded(t, owner, processor, dummyPlain, encrypted[..], slotCount)
    ensures |resultDecoded| == slotCount
  {
    ghost var source := encrypted[..];
    var cipherSize := encrypted.Length;
    var cFirstCiph, ciphDd := SaphereStep1(t, encrypted, dummyPlain, processor, slotCount);
    step1Next := step1Times + [step1Duration];
    ghost var firstCiph, doublePrime := cFirstCiph[..], ciphDd[..];

    // Step 3 (timed, owner): decrypt `c''` into the midtext.
    var midtext := FromSeq(owner.decrypt(ciphDd[..]));
    step3Next := step3Times + [step3Duration];
    ghost var mid := midtext[..];

    resultDecoded := SaphereStep5(cFirstCiph, midtext, cipherSize, processor);
    step5Next := step5Times + [step5Duration];

    ghost var half := |source| / 2;
    assert firstCiph == processor.encrypt(t, Overwrite(dummyPlain, source, 0, half));
    assert doublePrime == Overwrite(firstCiph, source, half, half);
    assert mid == owner.decrypt(doublePrime);
    assert resultDecoded == processor.decode(processor.decrypt(Overwrite(firstCiph, mid, 0, half)));
  }

  /**
   * The SAPHERE trial loop: `execution_cnt` trials, each appending the three
   * step durations and one error sample per slot of its decoded vector.
   */
  method SaphereTrials(executionCnt: nat, initial: real, encrypted: array<Limb>, dummyPlain: seq<Limb>,
                       owner: Provider, processor: Provider, slotCount: nat,
                       step1Durations: seq<real>, step3Durations: seq<real>, step5Durations: seq<real>)
    returns (step1Times: seq<real>, step3Times: seq<real>, step5Times: seq<real>, saphErrors: seq<real>)
    requires WellSized(owner, encrypted.Length, slotCount) && WellSized(processor, encrypted.Length, slotCount)
    requires encrypted.Length / 2 <= |dummyPlain|
    requires |step1Durations| == executionCnt && |step3Durations| == executionCnt
    requires |step5Durations| == executionCnt
    ensures step1Times == step1Durations && step3Times == step3Durations && step5Times == step5Durations
    ensures saphErrors == Errors(initial, SaphereOutcomes(executionCnt, owner, processor, dummyPlain,
                                                          encrypted[..], slotCount))
    ensures |saphErrors| == executionCnt * slotCount
    ensures forall k :: 0 <= k < |saphErrors| ==> saphErrors[k] >= 0.0
  {
    ghost var source := encrypted[..];
    step1Times, step3Times, step5Times, saphErrors := [], [], [], [];
    for i := 0 to executionCnt
      invariant step1Times == step1Durations[..i]
      invariant step3Times == step3Durations[..i]
      invariant step5Times == step5Durations[..i]
      invariant saphErrors == Errors(initial, SaphereOutcomes(i, owner, processor, dummyPlain, source, slotCount))
    {
      var resultDecoded;
      step1Times, step3Times, step5Times, resultDecoded :=
        SaphereTrial(i, encrypted, dummyPlain, owner, processor, slotCount,
                     step1Durations[i], step3Durations[i], step5Durations[i], step1Times, step3Times, step5Times);
      PrefixExtend(step1Durations, i);
      PrefixExtend(step3Durations, i);
      PrefixExtend(step5Durations, i);
      assert resultDecoded[..slotCount] == resultDecoded;
      ErrorsSnoc(initial, SaphereOutcomes(i, owner, processor, dummyPlain, source, slotCount), resultDecoded);
      saphErrors := AppendErrors(saphErrors, initial, resultDecoded, slotCount);
    }
    SaphereErrorsLength(initial, executionCnt, owner, processor, dummyPlain, source, slotCount);
    ErrorsNonNegative(initial, SaphereOutcomes(executionCnt, owner, processor, dummyPlain, source, slotCount));
    assert step1Durations[..executionCnt] == step1Durations;
    assert step3Durations[..executionCnt] == step3Durations;
    assert step5Durations[..executionCnt] == step5Durations;
  }

  /**
   * The aggregation loop: per trial, the processor's time (steps 1 and 5) and
   * the total time (steps 1, 3 and 5).
   */
  method AggregateTimes(executionCnt: nat, step1Times: seq<real>, step3Times: seq<real>, step5Times: seq<real>)
    returns (processorTimes: seq<real>, totalTimes: seq<real>)
    requires executionCnt <= |step1Times| && executionCnt <= |step3Times| && executionCnt <= |step5Times|
    ensures |processorTimes| == executionCnt && |totalTimes| == executionCnt
    ensures forall i :: 0 <= i < executionCnt ==> processorTimes[i] == step1Times[i] + step5Times[i]
    ensures forall i :: 0 <= i < executionCnt ==>
      totalTimes[i] == step1Times[i] + step3Times[i] + step5Times[i]
  {
    processorTimes, totalTimes := [], [];
    for i := 0 to executionCnt
      invariant |processorTimes| == i && |totalTimes| == i
      invariant forall k :: 0 <= k < i ==> processorTimes[k] == step1Times[k] + step5Times[k]
      invariant forall k :: 0 <= k < i ==> totalTimes[k] == step1Times[k] + step3Times[k] + step5Times[k]
    {
      processorTimes := processorTimes + [step1Times[i] + step5Times[i]];
      totalTimes := totalTimes + [step1Times[i] + step3Times[i] + step5Times[i]];
    }
  }

  /** The sum of pointwise sums is the sum of the sums. */
  lemma {:induction false} SumPointwise(a: seq<real>, b: seq<real>, c: seq<real>)
    requires |a| == |b| == |c|
    requires forall i :: 0 <= i < |c| ==> c[i] == a[i] + b[i]
    ensures Sum(c) == Sum(a) + Sum(b)
  {
    if c != [] {
      var n := |c|;
      SumPointwise(a[..n - 1], b[..n - 1], c[..n - 1]);
    }
  }

  /** The mean of the aggregated times is the sum of the per-step means. */
  lemma AggregatedMeans(step1: seq<real>, step3: seq<real>, step5: seq<real>,
                        processor: seq<real>, total: seq<real>)
    requires step1 != [] && |step3| == |step1| && |step5| == |step1|
    requires |processor| == |step1| && |total| == |step1|
    requires forall i :: 0 <= i < |step1| ==> processor[i] == step1[i] + step5[i]
    requires forall i :: 0 <= i < |step1| ==> total[i] == step1[i] + step3[i] + step5[i]
    ensures Mean(processor) == Mean(step1) + Mean(step5)
    ensures Mean(total) == Mean(processor) + Mean(step3)
  {
    var n := |step1| as real;
    SumPointwise(step1, step5, processor);
    SumPointwise(processor, step3, total);
    assert Sum(processor) / n == Sum(step1) / n + Sum(step5) / n;
    assert Sum(total) / n == Sum(processor) / n + Sum(step3) / n;
  }

  /**
   * The error statistics of a run with at least one trial and one slot exist and
   * are non-negative: the minimum, the mean and the maximum error are all >= 0.
   */
  lemma ErrorStatistics(initial: real, outcomes: seq<seq<real>>, slotCount: nat)
    requires outcomes != [] && slotCount > 0
    requires forall t :: 0 <= t < |outcomes| ==> |outcomes[t]| == slotCount
    ensures Errors(initial, outcomes) != []
    ensures CalcMinimum(Errors(initial, outcomes)).Ok?
    ensures CalcMinimum(Errors(initial, outcomes)).value >= 0.0
    ensures Mean(Errors(initial, outcomes)) >= 0.0
    ensures CalcMaximum(Errors(initial, outcomes)).value >= 0.0
  {
    var e := Errors(initial, outcomes);
    ErrorsLength(initial, outcomes, slotCount);
    assert |outcomes| * slotCount > 0;
    ErrorsNonNegative(initial, outcomes);
    MeanWithin(e, 0.0, CalcMaximum(e).value);
  }

  /** A provider that decodes every slot exactly to the fill value leaves only zero errors. */
  lemma {:induction false} ExactDecodingHasNoError(initial: real, outcomes: seq<seq<real>>)
    requires forall t, j :: 0 <= t < |outcomes| && 0 <= j < |outcomes[t]| ==> outcomes[t][j] == initial
    ensures forall k :: 0 <= k < |Errors(initial, outcomes)| ==> Errors(initial, outcomes)[k] == 0.0
  {
    if outcomes != [] {
      ExactDecodingHasNoError(initial, outcomes[..|outcomes| - 1]);
    }
  }
}
