/**
 * The receiver's signal parser: it collects the on/off classification of
 * each sound slice and, once it holds one bit's worth of slices, smooths
 * them, votes, reports the bit and keeps only the slices after the last
 * change of value.
 */
module SignalParsing {
  import opened Wrappers
  import opened Binary

  /** The share of agreeing slices the parser asks for before it reports a bit. */
  const SignalThreshold: real := 7.0 / 8.0

  /** The value two of three agree on. */
  predicate Majority(a: bool, b: bool, c: bool)
  {
    (a && b) || (a && c) || (b && c)
  }

  /**
   * One slice of the smoothed list: the first and the last slice are
   * replaced when their two neighbours on the inside agree against them,
   * a middle slice when both its neighbours do.
   */
  function SmoothAt(s: seq<bool>, i: nat): bool
    requires 3 <= |s| && i < |s|
  {
    if i == 0 then
      (if s[0] != s[1] && s[1] == s[2] then s[1] else s[0])
    else if i == |s| - 1 then
      (if s[i] != s[i - 1] && s[i - 1] == s[i - 2] then s[i - 1] else s[i])
    else
      (if s[i - 1] == s[i + 1] && s[i] != s[i - 1] then s[i - 1] else s[i])
  }

  /** The smoothed list; fewer than three slices are copied unchanged. */
  function Smooth(s: seq<bool>): (r: seq<bool>)
    ensures |r| == |s|
    ensures |s| < 3 ==> r == s
  {
    if |s| < 3 then s else seq(|s|, i requires 0 <= i < |s| => SmoothAt(s, i))
  }

  /**
   * `createSmoothenedArray`: the first slice, then the middle slices one
   * by one, then the last.
   */
  method CreateSmoothenedArray(signals: seq<bool>) returns (r: seq<bool>)
    ensures r == Smooth(signals)
  {
    var size := |signals|;
    if size < 3 {
      return signals;
    }
    if signals[0] != signals[1] && signals[1] == signals[2] {
      r := [signals[1]];
    } else {
      r := [signals[0]];
    }
    assert r[0] == SmoothAt(signals, 0);
    var i := 1;
    while i < size - 1
      invariant 1 <= i <= size - 1
      invariant |r| == i
      invariant forall k :: 0 <= k < i ==> r[k] == SmoothAt(signals, k)
    {
      var previousValue := signals[i - 1];
      var value := signals[i];
      var nextValue := signals[i + 1];
      var newValue := value;
      if previousValue == nextValue && value != previousValue {
        newValue := previousValue;
      }
      assert newValue == SmoothAt(signals, i);
      r := r + [newValue];
      i := i + 1;
    }
    assert i == size - 1;
    if signals[size - 1] != signals[size - 2] && signals[size - 2] == signals[size - 3] {
      r := r + [signals[size - 2]];
    } else {
      r := r + [signals[size - 1]];
    }
    assert forall k :: 0 <= k < size ==> r[k] == Smooth(signals)[k];
  }

  /** Every smoothed slice is the majority of the three-slice window around it, clamped at the ends. */
  lemma SmoothIsMajority(s: seq<bool>)
    requires 3 <= |s|
    ensures Smooth(s)[0] == Majority(s[0], s[1], s[2])
    ensures forall i :: 0 < i < |s| - 1 ==> Smooth(s)[i] == Majority(s[i - 1], s[i], s[i + 1])
    ensures Smooth(s)[|s| - 1] == Majority(s[|s| - 3], s[|s| - 2], s[|s| - 1])
  {
    var r := Smooth(s);
    assert r[0] == SmoothAt(s, 0);
    forall i | 0 < i < |s| - 1
      ensures r[i] == Majority(s[i - 1], s[i], s[i + 1])
    {
      assert r[i] == SmoothAt(s, i);
    }
    assert r[|s| - 1] == SmoothAt(s, |s| - 1);
  }

  /** A slice that agrees with a neighbour survives smoothing. */
  lemma SmoothKeepsRuns(s: seq<bool>, i: nat)
    requires i < |s|
    requires (0 < i && s[i - 1] == s[i]) || (i + 1 < |s| && s[i + 1] == s[i])
    ensures Smooth(s)[i] == s[i]
  {
    if 3 <= |s| {
      SmoothIsMajority(s);
    }
  }

  /** A list of one value is left as it is. */
  lemma SmoothConstant(v: bool, n: nat)
    ensures Smooth(Repeat(v, n)) == Repeat(v, n)
  {
    if 2 <= n {
      forall i | 0 <= i < n
        ensures Smooth(Repeat(v, n))[i] == v
      {
        if 0 < i {
          SmoothKeepsRuns(Repeat(v, n), i);
        } else {
          SmoothKeepsRuns(Repeat(v, n), 0);
        }
      }
    }
  }

  /** The number of on slices. */
  function CountOns(s: seq<bool>): (ons: nat)
    ensures ons <= |s|
  {
    if s == [] then 0 else CountOns(s[..|s| - 1]) + (if s[|s| - 1] then 1 else 0)
  }

  /** A list of one value has all or none of its slices on. */
  lemma {:induction false} CountOnsConstant(v: bool, n: nat)
    ensures CountOns(Repeat(v, n)) == if v then n else 0
  {
    if n > 0 {
      assert Repeat(v, n)[..n - 1] == Repeat(v, n - 1);
      CountOnsConstant(v, n - 1);
    }
  }

  /** Counting distributes over concatenation. */
  lemma {:induction false} CountOnsAppend(a: seq<bool>, b: seq<bool>)
    ensures CountOns(a + b) == CountOns(a) + CountOns(b)
    decreases |b|
  {
    if b == [] {
      assert a + b == a;
    } else {
      assert (a + b)[..|a + b| - 1] == a + b[..|b| - 1];
      CountOnsAppend(a, b[..|b| - 1]);
    }
  }

  /** `Math.round(ons / n)` on the exact quotient: the floor of the quotient plus one half. */
  function Percentage(ons: nat, n: nat): real
    requires 0 < n
  {
    ((ons as real) / (n as real) + 0.5).Floor as real
  }

  /** The larger of two reals. */
  function Max(a: real, b: real): (m: real)
    ensures m >= a && m >= b && (m == a || m == b)
  {
    if a >= b then a else b
  }

  /** The outcome of one pass over the buffer: what stays buffered and the bit reported, if any. */
  datatype ParseResult = ParseResult(signals: seq<bool>, bit: Option<bool>)

  /**
   * The number of leading slices dropped after a bit is reported: the scan
   * starts at the second-to-last slice and stops at the first one that
   * differs from the reported value.
   */
  function ChangeIndex(s: seq<bool>, value: bool): (i: nat)
    requires 2 <= |s|
  {
    if s[|s| - 2] != value then |s| - 2
    else if s[|s| - 1] != value then |s| - 1
    else |s|
  }

  /**
   * `parseSignals` on a buffer of slices, for `n` slices per bit: nothing
   * happens until the buffer holds exactly `n`; then the smoothed slices vote.
   */
  function Parse(n: nat, s: seq<bool>): ParseResult
    requires 2 <= n
  {
    if |s| != n then ParseResult(s, None)
    else
      var percentage := Percentage(CountOns(Smooth(s)), n);
      var met := Max(percentage, 1.0 - percentage) >= SignalThreshold;
      var value := percentage >= 0.5;
      // A bit is reported only when the threshold is met; otherwise the oldest slice is dropped.
      var removed: int := if met then ChangeIndex(s, value) else 1;
      ParseResult(s[removed..], if met then Some(value) else None)
  }

  /** `addSignal`: append the slice, then parse. */
  function AddSignalStep(n: nat, s: seq<bool>, isOn: bool): ParseResult
    requires 2 <= n
  {
    Parse(n, s + [isOn])
  }

  /** A product of two positive reals is positive. */
  lemma ProductPositive(a: real, b: real)
    requires 0.0 < a && 0.0 < b
    ensures 0.0 < a * b
  {
  }

  /** The share `ons / n` reaches a bound exactly when `ons` reaches that share of `n`. */
  lemma ShareAtLeast(ons: nat, n: nat, t: real)
    requires 0 < n
    ensures (ons as real) / (n as real) >= t <==> ons as real >= t * (n as real)
  {
    var x := (ons as real) / (n as real);
    assert x * (n as real) == ons as real;
    if x >= t {
      if x > t {
        ProductPositive(x - t, n as real);
      }
    } else {
      ProductPositive(t - x, n as real);
    }
  }

  /** The share `ons / n` stays within a bound exactly when `ons` stays within that share of `n`. */
  lemma ShareAtMost(ons: nat, n: nat, t: real)
    requires 0 < n
    ensures (ons as real) / (n as real) <= t <==> ons as real <= t * (n as real)
  {
    var x := (ons as real) / (n as real);
    assert x * (n as real) == ons as real;
    if x <= t {
      if x < t {
        ProductPositive(t - x, n as real);
      }
    } else {
      ProductPositive(x - t, n as real);
    }
  }

  /** The rounded share of on slices is 1 exactly when at least half are on, and 0 otherwise. */
  lemma PercentageIsVote(ons: nat, n: nat)
    requires 0 < n && ons <= n
    ensures Percentage(ons, n) == if 2 * ons >= n then 1.0 else 0.0
  {
    var x := (ons as real) / (n as real);
    ShareAtLeast(ons, n, 0.5);
    ShareAtLeast(ons, n, 0.0);
    ShareAtMost(ons, n, 1.0);
    assert 0.0 <= x <= 1.0;
    assert x >= 0.5 <==> 2 * ons >= n;
  }

  /** Rounding leaves the share 0 or 1, so the agreement threshold is met whatever the slices. */
  lemma ThresholdAlwaysMet(ons: nat, n: nat)
    requires 0 < n && ons <= n
    ensures Max(Percentage(ons, n), 1.0 - Percentage(ons, n)) >= SignalThreshold
  {
    PercentageIsVote(ons, n);
  }

  /**
   * A full buffer always yields a bit, the majority of the smoothed slices
   * (ties count as on); a buffer of any other size yields none and is kept.
   */
  lemma ParseVotes(n: nat, s: seq<bool>)
    requires 2 <= n
    ensures Parse(n, s).bit.Some? <==> |s| == n
    ensures |s| == n ==> Parse(n, s).bit == Some(2 * CountOns(Smooth(s)) >= n)
    ensures |s| != n ==> Parse(n, s).signals == s
  {
    if |s| == n {
      ThresholdAlwaysMet(CountOns(Smooth(s)), n);
      PercentageIsVote(CountOns(Smooth(s)), n);
    }
  }

  /**
   * After a bit is reported at most the last two slices stay buffered: the
   * dropped slices from the second-to-last on agree with the bit, and what
   * stays starts with a slice that does not.
   */
  lemma ParseResynchronises(n: nat, s: seq<bool>)
    requires 2 <= n && |s| == n
    ensures var r := Parse(n, s);
      r.bit.Some? && |r.signals| <= 2 && r.signals == s[n - |r.signals|..]
      && (r.signals == [] || r.signals[0] != r.bit.value)
      && forall k :: n - 2 <= k < n - |r.signals| ==> s[k] == r.bit.value
  {
    ParseVotes(n, s);
    ThresholdAlwaysMet(CountOns(Smooth(s)), n);
  }

  /** With at least three slices per bit the buffer never reaches `n` slices between calls. */
  lemma BufferStaysShort(n: nat, s: seq<bool>, isOn: bool)
    requires 3 <= n && |s| < n
    ensures |AddSignalStep(n, s, isOn).signals| < n
  {
    if |s + [isOn]| == n {
      ParseResynchronises(n, s + [isOn]);
    }
  }

  /** `n` equal slices make one bit of that value and leave the buffer empty. */
  lemma CleanBit(n: nat, v: bool)
    requires 2 <= n
    ensures Parse(n, Repeat(v, n)) == ParseResult([], Some(v))
  {
    var s := Repeat(v, n);
    SmoothConstant(v, n);
    CountOnsConstant(v, n);
    ParseVotes(n, s);
    assert ChangeIndex(s, v) == n;
  }

  /**
   * With two slices per bit an off slice followed by an on slice is
   * reported as on and then kept whole, so the buffer outgrows two and no
   * bit is ever reported again.
   */
  lemma TwoPerBitStalls(isOn: bool)
    ensures Parse(2, [false, true]) == ParseResult([false, true], Some(true))
    ensures forall s: seq<bool> :: |s| > 2 ==> AddSignalStep(2, s, isOn) == ParseResult(s + [isOn], None)
  {
    ParseVotes(2, [false, true]);
  }

  /**
   * Four on slices then four off slices, at eight slices per bit, are
   * reported as an on bit although only half the slices agree.
   */
  lemma HalfAgreementReported()
    ensures Parse(8, [true, true, true, true, false, false, false, false])
      == ParseResult([false, false], Some(true))
  {
    var s := [true, true, true, true, false, false, false, false];
    forall i | 0 <= i < 8
      ensures Smooth(s)[i] == s[i]
    {
      SmoothKeepsRuns(s, i);
    }
    assert Smooth(s) == s;
    assert CountOns(s) == 4 by {
      assert s == Repeat(true, 4) + Repeat(false, 4);
      CountOnsAppend(Repeat(true, 4), Repeat(false, 4));
      CountOnsConstant(true, 4);
      CountOnsConstant(false, 4);
    }
    ParseVotes(8, s);
  }

  /**
   * The vote the threshold evidently asks for: a bit only when at least
   * seven eighths of the smoothed slices agree, on the unrounded share.
   */
  function IntendedVote(ons: nat, n: nat): Option<bool>
    requires 0 < n
  {
    var share := (ons as real) / (n as real);
    if share >= SignalThreshold then Some(true)
    else if 1.0 - share >= SignalThreshold then Some(false)
    else None
  }

  /** The intended vote reports on, off or nothing exactly by the seven-eighths rule on counts. */
  lemma IntendedVoteAgreement(ons: nat, n: nat)
    requires 0 < n && ons <= n
    ensures IntendedVote(ons, n) == Some(true) <==> 8 * ons >= 7 * n
    ensures IntendedVote(ons, n) == Some(false) <==> 8 * (n - ons) >= 7 * n
    ensures IntendedVote(ons, n) == None <==> 8 * ons < 7 * n && 8 * (n - ons) < 7 * n
  {
    ShareAtLeast(ons, n, SignalThreshold);
    ShareAtMost(ons, n, 1.0 / 8.0);
    assert 8 * ons < 7 * n || 8 * (n - ons) < 7 * n;
  }

  /** Half agreement, which the parser as written reports as a bit, yields no bit under the intended vote. */
  lemma HalfAgreementNotIntended()
    ensures IntendedVote(4, 8) == None
  {
    IntendedVoteAgreement(4, 8);
  }

  /**
   * The parser object: the slices per bit, the buffer, and the bits handed
   * to the listener, in order.
   */
  class AudioSignalParser {
    const signalsPerActualBit: nat
    var signals: seq<bool>
    var received: seq<bool>

    constructor(signalsPerActualBit: nat)
      requires 2 <= signalsPerActualBit
      ensures this.signalsPerActualBit == signalsPerActualBit
      ensures signals == [] && received == []
    {
      this.signalsPerActualBit := signalsPerActualBit;
      signals := [];
      received := [];
    }

    /** `addSignal`: buffer the slice and parse. */
    method AddSignal(isOn: bool)
      requires 2 <= signalsPerActualBit
      modifies this
      ensures var r := AddSignalStep(signalsPerActualBit, old(signals), isOn);
        signals == r.signals
        && received == old(received) + (if r.bit.Some? then [r.bit.value] else [])
    {
      signals := signals + [isOn];
      ParseSignals();
    }

    /** `parseSignals`: the count of on slices, the vote, and the removal of the leading slices. */
    method ParseSignals()
      requires 2 <= signalsPerActualBit
      modifies this
      ensures var r := Parse(signalsPerActualBit, old(signals));
        signals == r.signals
        && received == old(received) + (if r.bit.Some? then [r.bit.value] else [])
    {
      var n := signalsPerActualBit;
      if |signals| != n {
        return;
      }
      var smoothSignals := CreateSmoothenedArray(signals);
      var ons := CountOnSignals(smoothSignals, n);
      assert smoothSignals[..n] == smoothSignals;
      var percentage := ((ons as real) / (n as real) + 0.5).Floor as real;
      // Below the threshold only the oldest slice is dropped.
      var removed: nat := 1;
      if Max(percentage, 1.0 - percentage) >= SignalThreshold {
        var value := percentage >= 0.5;
        received := received + [value];
        removed := FindChange(signals, value);
      }
      RemoveFirst(removed);
    }

    /** Drops the first `count` buffered slices, one at a time. */
    method RemoveFirst(count: nat)
      requires count <= |signals|
      modifies this
      ensures signals == old(signals)[count..] && received == old(received)
    {
      var k := 0;
      while k < count
        invariant 0 <= k <= count
        invariant signals == old(signals)[k..]
        invariant received == old(received)
      {
        signals := signals[1..];
        k := k + 1;
      }
    }
  }

  /** The loop counting on slices among the first `n`. */
  method CountOnSignals(smoothSignals: seq<bool>, n: nat) returns (ons: nat)
    requires n <= |smoothSignals|
    ensures ons == CountOns(smoothSignals[..n])
  {
    ons := 0;
    var i := 0;
    while i < n
      invariant 0 <= i <= n
      invariant ons == CountOns(smoothSignals[..i])
    {
      assert smoothSignals[..i + 1][..i] == smoothSignals[..i];
      if smoothSignals[i] {
        ons := ons + 1;
      }
      i := i + 1;
    }
  }

  /** The scan for the change of value, from the second-to-last slice on. */
  method FindChange(signals: seq<bool>, value: bool) returns (i: nat)
    requires 2 <= |signals|
    ensures i == ChangeIndex(signals, value)
  {
    i := |signals| - 2;
    while i < |signals|
      invariant |signals| - 2 <= i <= |signals|
      invariant forall k :: |signals| - 2 <= k < i ==> signals[k] == value
    {
      if signals[i] != value {
        break;
      }
      i := i + 1;
    }
  }
}
