/**
 * The receiver's sound decoder: each read of sound is cut into partitions,
 * each partition's magnitude at the carrier frequency is classified as on
 * or off against two running averages, and the classification goes to the
 * signal parser.
 */
module AudioDecoding {
  import opened Wrappers
  import opened Binary
  import opened RunningAverages
  import opened SignalParsing

  /** How many magnitudes each running average holds. */
  const RunningAverageSamples: nat := 8

  /** How many standard deviations from a mean still count as near it. */
  const RunningDeviations: nat := 2

  /** How many partitions each read is cut into; also the slices per bit of the signal parser. */
  const SoundPartitions: nat := 8

  // ---------------------------------------------------------------------
  // Partitions of a read

  /** Where partition `i` starts: every partition but the last has the same size. */
  function PartitionStart(length: nat, partitions: nat, i: nat): nat
    requires 0 < partitions
  {
    (length / partitions) * i
  }

  /** The size of partition `i`: the last one also takes the remainder of the division. */
  function PartitionSize(length: nat, partitions: nat, i: nat): nat
    requires 0 < partitions
  {
    length / partitions + (if i == partitions - 1 then length % partitions else 0)
  }

  /** Multiplying by a natural number keeps order. */
  lemma MultiplyMonotone(q: nat, a: nat, b: nat)
    requires a <= b
    ensures q * a <= q * b
  {
    assert q * b == q * a + q * (b - a);
  }

  /** The quotient times the divisor, plus the remainder, is the dividend. */
  lemma QuotientRemainder(length: nat, partitions: nat)
    requires 0 < partitions
    ensures (length / partitions) * partitions + length % partitions == length
  {
  }

  /** The end of partition `i`, when it is not the last, is the start of partition `i + 1`. */
  lemma PartitionEnd(length: nat, partitions: nat, i: nat)
    requires 0 < partitions && i < partitions - 1
    ensures PartitionStart(length, partitions, i) + PartitionSize(length, partitions, i)
      == PartitionStart(length, partitions, i + 1)
  {
    var q := length / partitions;
    assert q * (i + 1) == q * i + q;
  }

  /** The last partition ends at the end of the read. */
  lemma LastPartitionEnd(length: nat, partitions: nat)
    requires 0 < partitions
    ensures PartitionStart(length, partitions, partitions - 1) + PartitionSize(length, partitions, partitions - 1)
      == length
  {
    var q := length / partitions;
    QuotientRemainder(length, partitions);
    assert q * partitions == q * (partitions - 1) + q;
  }

  /**
   * The partitions start at 0, each ends where the next starts, and the last
   * ends at the end of the read: they are contiguous, disjoint and cover it.
   */
  lemma PartitionsCover(length: nat, partitions: nat)
    requires 0 < partitions
    ensures PartitionStart(length, partitions, 0) == 0
    ensures forall i :: 0 <= i < partitions - 1 ==>
      PartitionStart(length, partitions, i) + PartitionSize(length, partitions, i)
        == PartitionStart(length, partitions, i + 1)
    ensures PartitionStart(length, partitions, partitions - 1) + PartitionSize(length, partitions, partitions - 1)
      == length
  {
    forall i | 0 <= i < partitions - 1
      ensures PartitionStart(length, partitions, i) + PartitionSize(length, partitions, i)
        == PartitionStart(length, partitions, i + 1)
    {
      PartitionEnd(length, partitions, i);
    }
    LastPartitionEnd(length, partitions);
  }

  /** Every partition lies within the read, so copying it never pads. */
  lemma PartitionWithin(length: nat, partitions: nat, i: nat)
    requires 0 < partitions && i < partitions
    ensures PartitionStart(length, partitions, i) + PartitionSize(length, partitions, i) <= length
  {
    LastPartitionEnd(length, partitions);
    if i < partitions - 1 {
      PartitionEnd(length, partitions, i);
      MultiplyMonotone(length / partitions, i + 1, partitions - 1);
    }
  }

  /** The bytes of partition `i`. */
  function Partition(soundData: seq<int8>, partitions: nat, i: nat): seq<int8>
    requires 0 < partitions && i < partitions
  {
    PartitionWithin(|soundData|, partitions, i);
    var start := PartitionStart(|soundData|, partitions, i);
    soundData[start..start + PartitionSize(|soundData|, partitions, i)]
  }

  /** The magnitude of every partition, in order. */
  function PartitionMagnitudes(soundData: seq<int8>, partitions: nat, magnitude: seq<int8> -> real): (r: seq<real>)
    requires 0 < partitions
    ensures |r| == partitions
  {
    seq(partitions, i requires 0 <= i < partitions => magnitude(Partition(soundData, partitions, i)))
  }

  /** The first `k` partitions, in order. */
  function Partitions(soundData: seq<int8>, partitions: nat, k: nat): (r: seq<seq<int8>>)
    requires 0 < partitions && k <= partitions
    ensures |r| == k
  {
    if k == 0 then [] else Partitions(soundData, partitions, k - 1) + [Partition(soundData, partitions, k - 1)]
  }

  /** The first `k` partitions, put back together, are the read up to where partition `k` starts. */
  lemma {:induction false} PartitionsPrefix(soundData: seq<int8>, partitions: nat, k: nat)
    requires 0 < partitions && 0 < k <= partitions
    ensures Flatten(Partitions(soundData, partitions, k))
      == soundData[..PartitionStart(|soundData|, partitions, k - 1) + PartitionSize(|soundData|, partitions, k - 1)]
  {
    var length := |soundData|;
    var start := PartitionStart(length, partitions, k - 1);
    var end := start + PartitionSize(length, partitions, k - 1);
    PartitionWithin(length, partitions, k - 1);
    var prefix := Partitions(soundData, partitions, k - 1);
    FlattenAppend(prefix, [Partition(soundData, partitions, k - 1)]);
    assert Flatten([Partition(soundData, partitions, k - 1)]) == soundData[start..end];
    if k == 1 {
      assert Flatten(prefix) == soundData[..start];
    } else {
      PartitionsPrefix(soundData, partitions, k - 1);
      PartitionEnd(length, partitions, k - 2);
    }
    assert soundData[..end] == soundData[..start] + soundData[start..end];
  }

  /** All the partitions, put back together in order, are the read itself. */
  lemma PartitionsConcatenate(soundData: seq<int8>, partitions: nat)
    requires 0 < partitions
    ensures Flatten(Partitions(soundData, partitions, partitions)) == soundData
  {
    PartitionsPrefix(soundData, partitions, partitions);
    LastPartitionEnd(|soundData|, partitions);
  }

  /**
   * `SoundMath.getMagnitudeOfFrequency` throws on an empty partition: it
   * builds an FFT of zero points and reads entry 0 of an empty buffer.
   */
  ghost predicate HasEmptyPartition(soundData: seq<int8>, partitions: nat)
    requires 0 < partitions
  {
    exists i :: 0 <= i < partitions && Partition(soundData, partitions, i) == []
  }

  /** Some partition is empty exactly when the read is shorter than the partition count. */
  lemma EmptyPartitionIffShort(soundData: seq<int8>, partitions: nat)
    requires 0 < partitions
    ensures HasEmptyPartition(soundData, partitions) <==> |soundData| < partitions
  {
    var length := |soundData|;
    if length < partitions {
      assert length / partitions == 0;
      assert Partition(soundData, partitions, 0) == [];
    } else {
      assert length / partitions >= 1;
      forall i | 0 <= i < partitions
        ensures Partition(soundData, partitions, i) != []
      {
        PartitionWithin(length, partitions, i);
        assert |Partition(soundData, partitions, i)| == PartitionSize(length, partitions, i);
      }
    }
  }

  /**
   * `getPartitionedFrequencyMagnitudes`: one magnitude per partition, with
   * the FFT of the partition abstracted to the function `magnitude`. The
   * first empty partition throws (`ok` is false), which happens exactly on
   * a read shorter than the partition count.
   */
  method GetPartitionedFrequencyMagnitudes(partitions: nat, soundData: seq<int8>, magnitude: seq<int8> -> real)
    returns (magnitudes: array<real>, ok: bool)
    requires 0 < partitions
    ensures fresh(magnitudes)
    ensures ok <==> partitions <= |soundData|
    ensures ok ==> magnitudes[..] == PartitionMagnitudes(soundData, partitions, magnitude)
  {
    magnitudes := new real[partitions];
    var partitionSize := |soundData| / partitions;
    var i := 0;
    while i < partitions
      invariant 0 <= i <= partitions
      invariant forall k :: 0 <= k < i ==> Partition(soundData, partitions, k) != []
      invariant forall k :: 0 <= k < i ==> magnitudes[k] == magnitude(Partition(soundData, partitions, k))
    {
      var partitionSizeHere := partitionSize;
      if i == partitions - 1 {
        partitionSizeHere := partitionSizeHere + |soundData| % partitions;
      }
      var start := partitionSize * i;
      PartitionWithin(|soundData|, partitions, i);
      var partitionSoundData := soundData[start..start + partitionSizeHere];
      assert partitionSoundData == Partition(soundData, partitions, i);
      if partitionSoundData == [] {
        EmptyPartitionIffShort(soundData, partitions);
        return magnitudes, false;
      }
      magnitudes[i] := magnitude(partitionSoundData);
      i := i + 1;
    }
    EmptyPartitionIffShort(soundData, partitions);
    ok := true;
  }

  // ---------------------------------------------------------------------
  // Classification of one magnitude

  /** The absolute value of a real. */
  function Abs(x: real): (r: real)
    ensures r >= 0.0 && (r == x || r == -x)
  {
    if x < 0.0 then -x else x
  }

  /** `Statistics.isWithinAverage`: `number` is at most `deviations` standard deviations from `average`. */
  predicate IsWithinAverage(number: real, average: real, standardDeviation: real, deviations: nat)
  {
    Abs(number - average) <= standardDeviation * (deviations as real)
  }

  /**
   * For a nonnegative standard deviation, the test agrees with comparing the
   * squared distance against the squared bound, which is how it relates to
   * the variance of the window.
   */
  lemma WithinAverageSquared(number: real, average: real, standardDeviation: real, deviations: nat)
    requires 0.0 <= standardDeviation
    ensures IsWithinAverage(number, average, standardDeviation, deviations)
      <==> ((number - average) * (number - average)
        <= (standardDeviation * (deviations as real)) * (standardDeviation * (deviations as real)))
  {
    var d := Abs(number - average);
    var b := standardDeviation * (deviations as real);
    assert d * d == (number - average) * (number - average);
    assert 0.0 <= b by {
      ProductNonNegative(standardDeviation, deviations as real);
    }
    if d <= b {
      SquareMonotone(d, b);
    } else {
      SquareMonotone(b, d);
      assert b * b != d * d by {
        if b * b == d * d {
          SquareMonotoneStrict(b, d);
        }
      }
    }
  }

  /** A product of nonnegative reals is nonnegative. */
  lemma ProductNonNegative(a: real, b: real)
    requires 0.0 <= a && 0.0 <= b
    ensures 0.0 <= a * b
  {
  }

  /** Squaring keeps the order of nonnegative reals. */
  lemma SquareMonotone(a: real, b: real)
    requires 0.0 <= a <= b
    ensures a * a <= b * b
  {
    ProductNonNegative(b - a, b + a);
    assert b * b - a * a == (b - a) * (b + a);
  }

  /** Squaring keeps the strict order of nonnegative reals. */
  lemma SquareMonotoneStrict(a: real, b: real)
    requires 0.0 <= a < b
    ensures a * a < b * b
  {
    assert b * b - a * a == (b - a) * (b + a);
    assert 0.0 < (b - a) * (b + a) by {
      ProductPositive(b - a, b + a);
    }
  }

  /**
   * `getStandardDeviation` of a nonempty window: the square root of its
   * variance, with the square root abstracted to `sqrt`.
   */
  function StandardDeviation(window: seq<real>, sqrt: real -> real): real
    requires window != []
  {
    sqrt(Variance(window).value)
  }

  /**
   * The on/off decision: off when near the low mean and below the high
   * mean; else on when near the high mean and above the low mean; else on
   * exactly when strictly nearer the high mean than the low one.
   */
  function Classify(x: real, low: seq<real>, high: seq<real>, sqrt: real -> real): bool
    requires low != [] && high != []
  {
    var lowAverage := Average(low);
    var highAverage := Average(high);
    if IsWithinAverage(x, lowAverage, StandardDeviation(low, sqrt), RunningDeviations) && x < highAverage then false
    else if IsWithinAverage(x, highAverage, StandardDeviation(high, sqrt), RunningDeviations) && x > lowAverage then true
    else Abs(lowAverage - x) > Abs(highAverage - x)
  }

  /** With the means in order, a magnitude at or below the low mean is off, whatever the deviations. */
  lemma ClassifyAtOrBelowLow(x: real, low: seq<real>, high: seq<real>, sqrt: real -> real)
    requires low != [] && high != [] && Average(low) < Average(high) && x <= Average(low)
    ensures !Classify(x, low, high, sqrt)
  {
  }

  /** With the means in order, a magnitude at or above the high mean is on, whatever the deviations. */
  lemma ClassifyAtOrAboveHigh(x: real, low: seq<real>, high: seq<real>, sqrt: real -> real)
    requires low != [] && high != [] && Average(low) < Average(high) && Average(high) <= x
    ensures Classify(x, low, high, sqrt)
  {
  }

  /** Far from both means, the nearer mean decides, and a tie is off. */
  lemma ClassifyFarFromBoth(x: real, low: seq<real>, high: seq<real>, sqrt: real -> real)
    requires low != [] && high != []
    requires !IsWithinAverage(x, Average(low), StandardDeviation(low, sqrt), RunningDeviations)
    requires !IsWithinAverage(x, Average(high), StandardDeviation(high, sqrt), RunningDeviations)
    ensures Classify(x, low, high, sqrt) <==> Abs(Average(high) - x) < Abs(Average(low) - x)
  {
  }

  // ---------------------------------------------------------------------
  // The decoding loop

  /** What the decoder holds: the low and high windows, the parser's buffer and the bits it reported. */
  datatype DecoderState = DecoderState(low: seq<real>, high: seq<real>, signals: seq<bool>, received: seq<bool>)

  /** A decoder before any sound. */
  const FreshDecoder := DecoderState([], [], [], [])

  /**
   * The windows stay within capacity and fill up together during warm-up,
   * and the parser's buffer stays below one bit's worth of slices.
   */
  ghost predicate DecoderInv(st: DecoderState)
  {
    && |st.low| <= RunningAverageSamples && |st.high| <= RunningAverageSamples
    && (st.low == st.high || (|st.low| == RunningAverageSamples && |st.high| == RunningAverageSamples))
    && |st.signals| < SoundPartitions
  }

  /**
   * One magnitude: during warm-up it goes to both windows; afterwards it is
   * classified, goes to the window of its class, and becomes a parser slice.
   */
  function DecoderStep(st: DecoderState, x: real, sqrt: real -> real): (r: DecoderState)
    requires DecoderInv(st)
    ensures DecoderInv(r)
  {
    if |st.low| != RunningAverageSamples then
      st.(low := WindowAdd(st.low, x, RunningAverageSamples), high := WindowAdd(st.high, x, RunningAverageSamples))
    else
      var value := Classify(x, st.low, st.high, sqrt);
      BufferStaysShort(SoundPartitions, st.signals, value);
      var parsed := AddSignalStep(SoundPartitions, st.signals, value);
      DecoderState(
        if value then st.low else WindowAdd(st.low, x, RunningAverageSamples),
        if value then WindowAdd(st.high, x, RunningAverageSamples) else st.high,
        parsed.signals,
        st.received + (if parsed.bit.Some? then [parsed.bit.value] else []))
  }

  /** The decoder after a run of magnitudes, one at a time. */
  function DecodeAll(st: DecoderState, xs: seq<real>, sqrt: real -> real): (r: DecoderState)
    requires DecoderInv(st)
    ensures DecoderInv(r)
  {
    if xs == [] then st else DecoderStep(DecodeAll(st, xs[..|xs| - 1], sqrt), xs[|xs| - 1], sqrt)
  }

  /** Why `processSound` can throw. */
  datatype SoundError = EmptyPartition

  /**
   * `processSound` on one read: an empty read changes nothing, a read with
   * an empty partition throws before any state changes, and any other read
   * is decoded one partition magnitude at a time.
   */
  function ProcessSoundStep(st: DecoderState, data: seq<int8>, magnitude: seq<int8> -> real, sqrt: real -> real)
    : (r: Result<DecoderState, SoundError>)
    requires DecoderInv(st)
    ensures r.Err? <==> data != [] && HasEmptyPartition(data, SoundPartitions)
    ensures r.Ok? ==> DecoderInv(r.value)
  {
    EmptyPartitionIffShort(data, SoundPartitions);
    if data == [] then Ok(st)
    else if |data| < SoundPartitions then Err(EmptyPartition)
    else Ok(DecodeAll(st, PartitionMagnitudes(data, SoundPartitions, magnitude), sqrt))
  }

  /** During warm-up a magnitude joins both windows and no slice reaches the parser. */
  lemma WarmUpStep(st: DecoderState, x: real, sqrt: real -> real)
    requires DecoderInv(st) && |st.low| < RunningAverageSamples
    ensures DecoderStep(st, x, sqrt).low == st.low + [x] == DecoderStep(st, x, sqrt).high
    ensures DecoderStep(st, x, sqrt).signals == st.signals
    ensures DecoderStep(st, x, sqrt).received == st.received
  {
  }

  /**
   * After warm-up a magnitude joins exactly one window, the high one when
   * classified on, and is handed to the parser as one slice.
   */
  lemma ClassifiedStep(st: DecoderState, x: real, sqrt: real -> real)
    requires DecoderInv(st) && |st.low| == RunningAverageSamples
    ensures var r := DecoderStep(st, x, sqrt);
      var value := Classify(x, st.low, st.high, sqrt);
      && (value ==> r.low == st.low && r.high == st.high[1..] + [x])
      && (!value ==> r.high == st.high && r.low == st.low[1..] + [x])
      && r.signals == AddSignalStep(SoundPartitions, st.signals, value).signals
  {
  }

  /** Reported bits are only ever appended, at most one per magnitude. */
  lemma {:induction false} ReceivedGrowsByAtMostOnePerMagnitude(st: DecoderState, xs: seq<real>, sqrt: real -> real)
    requires DecoderInv(st)
    ensures var r := DecodeAll(st, xs, sqrt);
      st.received <= r.received && |r.received| <= |st.received| + |xs|
  {
    if xs != [] {
      ReceivedGrowsByAtMostOnePerMagnitude(st, xs[..|xs| - 1], sqrt);
    }
  }

  /**
   * From a fresh decoder the first eight magnitudes only warm up: both
   * windows hold exactly them, in order, and nothing reaches the parser.
   */
  lemma {:induction false} FirstMagnitudesWarmUp(xs: seq<real>, sqrt: real -> real)
    requires |xs| <= RunningAverageSamples
    ensures DecodeAll(FreshDecoder, xs, sqrt) == DecoderState(xs, xs, [], [])
  {
    if xs != [] {
      var init := xs[..|xs| - 1];
      FirstMagnitudesWarmUp(init, sqrt);
      WarmUpStep(DecoderState(init, init, [], []), xs[|xs| - 1], sqrt);
      assert init + [xs[|xs| - 1]] == xs;
    }
  }

  /**
   * The decoder object: two running averages and the signal parser, which
   * logs the bits it reports.
   */
  class AudioDecoder {
    const runningLow: RunningAverage
    const runningHigh: RunningAverage
    const audioSignalParser: AudioSignalParser

    ghost predicate Valid()
      reads this, runningLow, runningHigh, audioSignalParser
    {
      && runningLow != runningHigh
      && runningLow.Valid() && runningHigh.Valid()
      && runningLow.maximumNumbers == RunningAverageSamples
      && runningHigh.maximumNumbers == RunningAverageSamples
      && audioSignalParser.signalsPerActualBit == SoundPartitions
      && DecoderInv(State())
    }

    ghost function State(): DecoderState
      reads this, runningLow, runningHigh, audioSignalParser
    {
      DecoderState(runningLow.numbers, runningHigh.numbers, audioSignalParser.signals, audioSignalParser.received)
    }

    constructor()
      ensures Valid() && State() == FreshDecoder
    {
      runningLow := new RunningAverage(RunningAverageSamples);
      runningHigh := new RunningAverage(RunningAverageSamples);
      audioSignalParser := new AudioSignalParser(SoundPartitions);
    }

    /**
     * `processSound` on the bytes of one read, with the FFT abstracted to
     * `magnitude` and the square root to `sqrt`.
     */
    method ProcessSound(data: seq<int8>, magnitude: seq<int8> -> real, sqrt: real -> real)
      returns (thrown: bool)
      requires Valid()
      modifies runningLow, runningHigh, audioSignalParser
      ensures Valid()
      ensures thrown <==> ProcessSoundStep(old(State()), data, magnitude, sqrt).Err?
      ensures State() == match ProcessSoundStep(old(State()), data, magnitude, sqrt)
        case Ok(next) => next
        case Err(_) => old(State())
    {
      thrown := false;
      if |data| == 0 {
        return;
      }
      var frequencyMagnitudes, ok := GetPartitionedFrequencyMagnitudes(SoundPartitions, data, magnitude);
      if !ok {
        return true;
      }
      var magnitudes := frequencyMagnitudes[..];
      ghost var start := State();
      var i := 0;
      while i < |magnitudes|
        invariant 0 <= i <= |magnitudes|
        invariant Valid()
        invariant State() == DecodeAll(start, magnitudes[..i], sqrt)
      {
        assert magnitudes[..i + 1][..i] == magnitudes[..i];
        HandleMagnitude(magnitudes[i], sqrt);
        i := i + 1;
      }
      assert magnitudes[..i] == magnitudes;
    }

    /** The body of the loop in `processSound`, for one magnitude. */
    method HandleMagnitude(frequencyMagnitude: real, sqrt: real -> real)
      requires Valid()
      modifies runningLow, runningHigh, audioSignalParser
      ensures Valid()
      ensures State() == DecoderStep(old(State()), frequencyMagnitude, sqrt)
    {
      if !runningLow.HaveAverage() {
        runningLow.Add(frequencyMagnitude);
        runningHigh.Add(frequencyMagnitude);
        return;
      }
      var value := Decide(frequencyMagnitude, sqrt);
      if value {
        runningHigh.Add(frequencyMagnitude);
      } else {
        runningLow.Add(frequencyMagnitude);
      }
      BufferStaysShort(SoundPartitions, audioSignalParser.signals, value);
      audioSignalParser.AddSignal(value);
    }

    /** The classification branches of `processSound`, reading both averages and deviations. */
    method Decide(frequencyMagnitude: real, sqrt: real -> real) returns (value: bool)
      requires Valid() && |runningLow.numbers| == RunningAverageSamples
      ensures value == Classify(frequencyMagnitude, runningLow.numbers, runningHigh.numbers, sqrt)
    {
      var lowAverage := runningLow.GetAverage();
      var highAverage := runningHigh.GetAverage();
      var lowVariance := runningLow.GetVariance();
      var highVariance := runningHigh.GetVariance();
      var withinLow := IsWithinAverage(frequencyMagnitude, lowAverage.value, sqrt(lowVariance.value), RunningDeviations);
      var withinHigh := IsWithinAverage(frequencyMagnitude, highAverage.value, sqrt(highVariance.value), RunningDeviations);
      if withinLow && frequencyMagnitude < highAverage.value {
        value := false;
      } else if withinHigh && frequencyMagnitude > lowAverage.value {
        value := true;
      } else {
        var lowDifference := Abs(lowAverage.value - frequencyMagnitude);
        var highDifference := Abs(highAverage.value - frequencyMagnitude);
        value := lowDifference > highDifference;
      }
    }
  }
}
