/**
 * The transmitter's sample buffers: the silent wave, and the wave that mixes
 * several waves by averaging their samples. A component wave is represented
 * by the buffer it produces for the requested rate and duration.
 */
module Waves {
  import opened Binary

  /** The number of samples for `duration` milliseconds: the rate is divided by 1000 first. */
  function SampleCount(sampleRate: nat, duration: nat): nat
  {
    sampleRate / 1000 * duration
  }

  /** Dividing the rate first drops its remainder modulo 1000 before scaling by the duration. */
  lemma SampleCountTruncates(sampleRate: nat, duration: nat)
    ensures SampleCount(sampleRate, duration) * 1000 == (sampleRate - sampleRate % 1000) * duration
    ensures SampleCount(sampleRate, duration) * 1000 <= sampleRate * duration
  {
    var q := sampleRate / 1000;
    assert sampleRate - sampleRate % 1000 == q * 1000;
    assert q * duration * 1000 == q * 1000 * duration;
    assert (sampleRate - sampleRate % 1000) * duration <= sampleRate * duration by {
      assert sampleRate * duration == (sampleRate - sampleRate % 1000) * duration + (sampleRate % 1000) * duration;
    }
  }

  // ---------------------------------------------------------------------
  // The silent wave

  /** What the silent wave produces: a buffer of zero samples of the requested length. */
  function EmptyData(sampleRate: nat, duration: nat): (r: seq<int8>)
    ensures |r| == SampleCount(sampleRate, duration)
    ensures forall i :: 0 <= i < |r| ==> r[i] == 0
  {
    Repeat(0, SampleCount(sampleRate, duration))
  }

  /** The silent wave; it has no state. */
  class EmptyWave {
    constructor()
    {
    }

    /** `getData`: a fresh buffer, which a new byte array holds as zeros. */
    method GetData(sampleRate: nat, duration: nat) returns (data: array<int8>)
      ensures fresh(data)
      ensures data[..] == EmptyData(sampleRate, duration)
    {
      data := new int8[SampleCount(sampleRate, duration)](_ => 0);
    }
  }

  /** The holder of the shared silent wave, created on first use. */
  class EmptyWaveInstance {
    var instance: EmptyWave?

    constructor()
      ensures instance == null
    {
      instance := null;
    }

    /**
     * `getInstance`: the first call creates the wave; every call returns the
     * one held from then on.
     */
    method GetInstance() returns (wave: EmptyWave)
      modifies this
      ensures old(instance) == null ==> fresh(wave)
      ensures old(instance) != null ==> wave == old(instance)
      ensures instance == wave
    {
      if instance == null {
        instance := new EmptyWave();
      }
      return instance;
    }
  }

  // ---------------------------------------------------------------------
  // The mixed wave

  /** Every component buffer has a sample at index `i`. */
  ghost predicate AllHave(waves: seq<seq<int8>>, i: nat)
  {
    forall k :: 0 <= k < |waves| ==> i < |waves[k]|
  }

  /** The sum of the components' samples at index `i`. */
  function SumAt(waves: seq<seq<int8>>, i: nat): int
    requires AllHave(waves, i)
  {
    if waves == [] then 0 else SumAt(waves[..|waves| - 1], i) + waves[|waves| - 1][i]
  }

  /**
   * One mixed sample: the sum divided by the number of waves and truncated
   * toward zero; with no waves the quotient is not a number and the cast
   * makes it 0.
   */
  function MixedSample(waves: seq<seq<int8>>, i: nat): int
    requires AllHave(waves, i)
  {
    if waves == [] then 0 else JavaDiv(SumAt(waves, i), |waves|)
  }

  /** A sum of samples that all lie in `[lo, hi]` lies between `lo` and `hi` times their count. */
  lemma {:induction false} SumAtBounds(waves: seq<seq<int8>>, i: nat, lo: int, hi: int)
    requires AllHave(waves, i)
    requires forall k :: 0 <= k < |waves| ==> lo <= waves[k][i] <= hi
    ensures lo * |waves| <= SumAt(waves, i) <= hi * |waves|
    decreases |waves|
  {
    if waves != [] {
      var init := waves[..|waves| - 1];
      SumAtBounds(init, i, lo, hi);
      assert lo * |waves| == lo * |init| + lo;
      assert hi * |waves| == hi * |init| + hi;
    }
  }

  /** A product with a positive factor can be cancelled from an inequality. */
  lemma CancelFactor(x: int, y: int, n: nat)
    requires 0 < n
    ensures x * n <= y * n ==> x <= y
    ensures x * n < y * n ==> x < y
  {
    if x > y {
      assert x * n == y * n + (x - y) * n;
      PositiveProduct(x - y, n);
    }
  }

  /** A product of positive integers is positive. */
  lemma PositiveProduct(a: int, b: int)
    requires 0 < a && 0 < b
    ensures 0 < a * b
  {
  }

  /** A quotient of a nonnegative value at most `c * n` is at most `c`. */
  lemma QuotientAtMost(s: nat, n: nat, c: int)
    requires 0 < n && s <= c * n
    ensures s / n <= c
  {
    assert (s / n) * n <= s;
    CancelFactor(s / n, c, n);
  }

  /** A quotient of a nonnegative value at least `c * n` is at least `c`. */
  lemma QuotientAtLeast(s: nat, n: nat, c: int)
    requires 0 < n && c * n <= s
    ensures c <= s / n
  {
    assert s < (s / n + 1) * n;
    CancelFactor(c, s / n + 1, n);
  }

  /** A truncated quotient of a value between `lo * n` and `hi * n` lies between `lo` and `hi`. */
  lemma TruncatedQuotientBounds(sum: int, n: nat, lo: int, hi: int)
    requires 0 < n && lo * n <= sum <= hi * n
    ensures lo <= JavaDiv(sum, n) <= hi
  {
    if sum >= 0 {
      QuotientAtMost(sum, n, hi);
      QuotientAtLeast(sum, n, lo);
    } else {
      assert -sum <= (-lo) * n;
      assert (-hi) * n <= -sum;
      QuotientAtMost(-sum, n, -lo);
      QuotientAtLeast(-sum, n, -hi);
    }
  }

  /**
   * A mixed sample lies between the smallest and the largest component
   * sample at its index, so the cast back to a byte never wraps.
   */
  lemma MixedSampleBounds(waves: seq<seq<int8>>, i: nat, lo: int, hi: int)
    requires AllHave(waves, i) && waves != []
    requires forall k :: 0 <= k < |waves| ==> lo <= waves[k][i] <= hi
    ensures lo <= MixedSample(waves, i) <= hi
  {
    SumAtBounds(waves, i, lo, hi);
    TruncatedQuotientBounds(SumAt(waves, i), |waves|, lo, hi);
  }

  /** The mixed sample as a byte. */
  function MixedByte(waves: seq<seq<int8>>, i: nat): int8
    requires AllHave(waves, i)
  {
    if waves != [] then
      MixedSampleBounds(waves, i, -128, 127);
      MixedSample(waves, i) as int8
    else 0
  }

  /** What the mixed wave produces: one averaged byte per index. */
  function MixedData(waves: seq<seq<int8>>, count: nat): (r: seq<int8>)
    requires forall k :: 0 <= k < |waves| ==> count <= |waves[k]|
    ensures |r| == count
  {
    seq(count, i requires 0 <= i < count => MixedByte(waves, i))
  }

  /** Mixing a single wave reproduces it. */
  lemma MixedSingle(wave: seq<int8>, i: nat)
    requires i < |wave|
    ensures MixedSample([wave], i) == wave[i]
  {
    var waves := [wave];
    assert waves[..0] == [];
    assert SumAt(waves[..0], i) == 0;
    assert SumAt(waves, i) == wave[i];
  }

  /** Mixing the silent wave with a wave halves its samples, truncating toward zero. */
  lemma MixedWithEmpty(wave: seq<int8>, sampleRate: nat, duration: nat, i: nat)
    requires i < SampleCount(sampleRate, duration) <= |wave|
    ensures MixedSample([EmptyData(sampleRate, duration), wave], i) == JavaDiv(wave[i], 2)
  {
    var empty := EmptyData(sampleRate, duration);
    var waves := [empty, wave];
    assert waves[..1] == [empty];
    var none: seq<seq<int8>> := [];
    assert [empty][..0] == none;
    assert SumAt([empty], i) == 0 by {
      assert SumAt([empty][..0], i) == 0;
    }
    assert SumAt(waves, i) == wave[i];
  }

  /**
   * `MixedWave.getData`: for each index, the loop summing the components'
   * samples, then the truncating division and the cast. The components must
   * each hold at least the requested number of samples.
   */
  method MixedGetData(sampleRate: nat, duration: nat, waves: seq<seq<int8>>) returns (data: array<int8>)
    requires forall k :: 0 <= k < |waves| ==> SampleCount(sampleRate, duration) <= |waves[k]|
    ensures fresh(data)
    ensures data[..] == MixedData(waves, SampleCount(sampleRate, duration))
  {
    data := new int8[SampleCount(sampleRate, duration)];
    var i := 0;
    while i < data.Length
      invariant 0 <= i <= data.Length
      invariant forall j :: 0 <= j < i ==> data[j] == MixedByte(waves, j)
    {
      var sum: int := 0;
      var k := 0;
      while k < |waves|
        invariant 0 <= k <= |waves|
        invariant AllHave(waves[..k], i)
        invariant sum == SumAt(waves[..k], i)
      {
        assert waves[..k + 1][..k] == waves[..k];
        sum := sum + waves[k][i];
        k := k + 1;
      }
      assert waves[..k] == waves;
      if |waves| == 0 {
        data[i] := 0;
      } else {
        MixedSampleBounds(waves, i, -128, 127);
        data[i] := JavaDiv(sum, |waves|) as int8;
      }
      i := i + 1;
    }
  }
}
