/**
 * The transmit side's frames: the wire bit list of a data frame and of an ACK
 * frame, the helpers that build it (Manchester encoding, the big-endian size
 * field, the least-significant-bit-first payload), and the grouping of a bit
 * list into on/off tone segments for the player.
 */
module Frames {
  import opened Wrappers
  import opened Binary
  import opened Constants
  import opened FrameParsing

  /** What a failed argument check throws; `None` is an exception without a message. */
  datatype IllegalArgument = IllegalArgumentException(message: Option<string>)

  // ---------------------------------------------------------------------------
  // Manchester encoding

  /** Manchester encoding: every bit b becomes the pair b, !b. */
  function ManchesterEncode(input: seq<bool>): (r: seq<bool>)
    ensures |r| == 2 * |input|
  {
    if input == [] then [] else [input[0], !input[0]] + ManchesterEncode(input[1..])
  }

  /** Position 2k of the encoding is bit k and position 2k + 1 its negation. */
  lemma {:induction false} ManchesterEncodeAt(input: seq<bool>, k: int)
    requires 0 <= k < |input|
    ensures ManchesterEncode(input)[2 * k] == input[k]
    ensures ManchesterEncode(input)[2 * k + 1] == !input[k]
  {
    if k > 0 {
      ManchesterEncodeAt(input[1..], k - 1);
    }
  }

  lemma {:induction false} ManchesterEncodeAppend(a: seq<bool>, b: seq<bool>)
    ensures ManchesterEncode(a + b) == ManchesterEncode(a) + ManchesterEncode(b)
  {
    if a == [] {
      assert a + b == b;
    } else {
      assert (a + b)[0] == a[0];
      assert (a + b)[1..] == a[1..] + b;
      ManchesterEncodeAppend(a[1..], b);
    }
  }

  /** `createOutput`: append each bit and then its negation. */
  method CreateOutput(input: seq<bool>) returns (output: seq<bool>)
    ensures output == ManchesterEncode(input)
  {
    output := [];
    var i := 0;
    while i < |input|
      invariant 0 <= i <= |input|
      invariant output == ManchesterEncode(input[..i])
    {
      var bit := input[i];
      ManchesterEncodeAppend(input[..i], [bit]);
      assert input[..i + 1] == input[..i] + [bit];
      output := output + [bit, !bit];
      i := i + 1;
    }
    assert input[..i] == input;
  }

  // ---------------------------------------------------------------------------
  // Numbers as fixed-width big-endian bit lists

  /** The binary digits of a number, most significant first, without leading zeros. */
  function BinaryDigits(n: nat): (r: seq<bool>)
    ensures BitsValue(r) == n
    ensures r != [] ==> r[0]
    decreases n
  {
    if n == 0 then []
    else
      var r := BinaryDigits(n / 2) + [n % 2 == 1];
      ConvertSnoc(BinaryDigits(n / 2), n % 2 == 1);
      r
  }

  /** A number has at most `w` binary digits exactly when it is below 2^w. */
  lemma DigitsFit(n: nat, w: nat)
    ensures |BinaryDigits(n)| <= w <==> n < Pow2(w)
  {
    var d := BinaryDigits(n);
    if |d| <= w {
      Pow2Monotonic(|d|, w);
    } else {
      Pow2Monotonic(w, |d| - 1);
    }
  }

  /** Prepend false until there are `bits` elements. */
  function PadFront(list: seq<bool>, bits: int): (r: seq<bool>)
    ensures |r| == if |list| < bits then bits else |list|
    ensures BitsValue(r) == BitsValue(list)
  {
    if |list| < bits then
      ConvertLeadingZeros(bits - |list|, list);
      Repeat(false, bits - |list|) + list
    else list
  }

  /**
   * The list `createBooleanListFromNumber` builds once its checks pass: the
   * number, most significant bit first, padded with leading false to at least
   * `bits` elements, and to exactly `bits` when the number is below 2^bits.
   */
  function BooleanListFromNumber(number: nat, bits: int): (r: seq<bool>)
    ensures BitsValue(r) == number
    ensures |r| >= bits
    ensures bits >= 0 && number < Pow2(bits) ==> |r| == bits
  {
    DigitsFit(number, if bits >= 0 then bits else 0);
    PadFront(BinaryDigits(number), bits)
  }

  /** The fit check of `createBooleanListFromNumber` as written: `Math.pow(bits, 2)` is bits squared, not 2^bits. */
  predicate FitGuard(number: int, bits: int)
  {
    0 <= number <= bits * bits - 1
  }

  /**
   * `createBooleanListFromNumber`: reject a negative number or one the fit
   * check refuses, then spell the number by repeated halving and pad it.
   */
  method CreateBooleanListFromNumber(number: int, bits: int) returns (r: Result<seq<bool>, IllegalArgument>)
    ensures r.Ok? <==> FitGuard(number, bits)
    ensures r.Ok? ==> r.value == BooleanListFromNumber(number, bits)
    ensures number < 0 ==> r == Err(IllegalArgumentException(None))
    ensures number >= 0 && r.Err? ==> r == Err(IllegalArgumentException(Some("Number cannot fit in given number of bits")))
  {
    if number < 0 {
      return Err(IllegalArgumentException(None));
    }
    if number > bits * bits - 1 {
      return Err(IllegalArgumentException(Some("Number cannot fit in given number of bits")));
    }
    var digits := HalvingDigits(number);
    var list := PadWithFalse(digits, bits);
    return Ok(list);
  }

  /** The first loop of `createBooleanListFromNumber`: halve the number, putting each remainder in front. */
  method HalvingDigits(number: nat) returns (list: seq<bool>)
    ensures list == BinaryDigits(number)
  {
    list := [];
    var rest: nat := number;
    while rest > 0
      invariant BinaryDigits(number) == BinaryDigits(rest) + list
    {
      assert BinaryDigits(rest) == BinaryDigits(rest / 2) + [rest % 2 == 1];
      list := [rest % 2 == 1] + list;
      rest := rest / 2;
    }
  }

  /** The second loop of `createBooleanListFromNumber`: put false in front until there are `bits` elements. */
  method PadWithFalse(digits: seq<bool>, bits: int) returns (list: seq<bool>)
    ensures list == PadFront(digits, bits)
  {
    list := digits;
    while |list| < bits
      invariant |digits| <= |list| && (|list| <= bits || list == digits)
      invariant list == Repeat(false, |list| - |digits|) + digits
    {
      assert [false] + Repeat(false, |list| - |digits|) == Repeat(false, |list| + 1 - |digits|);
      list := [false] + list;
    }
  }

  /** The check lets 8 through for 3 bits, which then come back as four elements, and turns 1 away for 1 bit. */
  lemma FitGuardCounterexamples()
    ensures FitGuard(8, 3) && 8 >= Pow2(3) && BooleanListFromNumber(8, 3) == [true, false, false, false]
    ensures !FitGuard(1, 1) && 1 < Pow2(1)
  {
    assert BinaryDigits(1) == [true];
    assert BinaryDigits(2) == [true, false];
    assert BinaryDigits(4) == [true, false, false];
    assert BinaryDigits(8) == [true, false, false, false];
  }

  /** The number as exactly `bits` big-endian bits, with the fit check against 2^bits. */
  function NumberToBits(number: int, bits: nat): (r: Result<seq<bool>, IllegalArgument>)
    ensures r.Ok? <==> 0 <= number < Pow2(bits)
    ensures r.Ok? ==> |r.value| == bits && BitsValue(r.value) == number
  {
    if number < 0 then Err(IllegalArgumentException(None))
    else if number >= Pow2(bits) then
      Err(IllegalArgumentException(Some("Number cannot fit in given number of bits")))
    else Ok(BooleanListFromNumber(number, bits))
  }

  /** `convertBooleansToNumber` undoes `NumberToBits`, and the other way round. */
  lemma NumberToBitsInverse(bits: seq<bool>)
    ensures NumberToBits(BitsValue(bits), |bits|) == Ok(bits)
  {
    var r := NumberToBits(BitsValue(bits), |bits|);
    ConvertInjective(r.value, bits);
  }

  /** Every size a frame can announce (0..7) passes the check as written and fits in the 3-bit field. */
  lemma SizeFieldGuardPasses(n: int)
    requires 0 <= n <= MaxDataLength
    ensures FitGuard(n, FrameSizeBits) && n < Pow2(FrameSizeBits)
  {
  }

  /** The size field of a frame announcing `n` payload bytes. */
  function SizeField(n: int): (r: seq<bool>)
    requires 0 <= n <= MaxDataLength
    ensures |r| == FrameSizeBits && BitsValue(r) == n
  {
    BooleanListFromNumber(n, FrameSizeBits)
  }

  // ---------------------------------------------------------------------------
  // Payload bytes as bits

  /** The bits of `BitSet.valueOf(data)`, eight per byte, least significant bit of each byte first. */
  function PayloadBits(data: seq<int8>): (r: seq<bool>)
    ensures |r| == 8 * |data|
  {
    if data == [] then [] else LowBits(Unsigned(data[0]), 8) + PayloadBits(data[1..])
  }

  /** Element i is bit i mod 8 of byte i / 8. */
  lemma {:induction false} PayloadBitAt(data: seq<int8>, i: int)
    requires 0 <= i < 8 * |data|
    ensures PayloadBits(data)[i] == BitOf(data[i / 8], i % 8)
  {
    if i < 8 {
      LowBitsAt(Unsigned(data[0]), 8, i);
    } else {
      PayloadBitAt(data[1..], i - 8);
      assert (i - 8) / 8 == i / 8 - 1 && (i - 8) % 8 == i % 8;
    }
  }

  /** `byteArrayToBooleanList`: read bit i of the byte array's bit set for every i below 8 * |data|. */
  method ByteArrayToBooleanList(data: seq<int8>) returns (list: seq<bool>)
    ensures list == PayloadBits(data)
  {
    list := [];
    var i := 0;
    var bits := |data| * 8;
    while i < bits
      invariant 0 <= i <= bits == |PayloadBits(data)|
      invariant list == PayloadBits(data)[..i]
    {
      PayloadBitAt(data, i);
      assert PayloadBits(data)[..i + 1] == PayloadBits(data)[..i] + [PayloadBits(data)[i]];
      list := list + [BitOf(data[i / 8], i % 8)];
      i := i + 1;
    }
    assert PayloadBits(data)[..i] == PayloadBits(data);
  }

  // ---------------------------------------------------------------------------
  // Frames and their wire bits

  /**
   * A frame to send. `target` is the constructor argument `getTarget` returns;
   * neither frame kind puts it on the wire.
   */
  datatype Frame = DataFrame(target: int, data: seq<int8>) | AckFrame(target: int)

  /** The DataFrame constructor: a payload longer than the maximum is refused. */
  function NewDataFrame(target: int, data: seq<int8>): (r: Result<Frame, IllegalArgument>)
    ensures r.Ok? <==> |data| <= MaxDataLength
    ensures r.Ok? ==> r.value.DataFrame? && r.value.data == data && r.value.target == target
  {
    if |data| > MaxDataLength then
      Err(IllegalArgumentException(Some("Data must be less than 7 bytes.")))
    else Ok(DataFrame(target, data))
  }

  predicate ValidFrame(f: Frame)
  {
    f.DataFrame? ==> |f.data| <= MaxDataLength
  }

  /** `getSignals` of each frame kind. */
  function GetSignals(f: Frame): seq<bool>
    requires ValidFrame(f)
  {
    match f
    case DataFrame(_, data) =>
      FrameStart + ManchesterEncode(SizeField(|data|)) + ManchesterEncode(PayloadBits(data))
        + FrameChecksum + FrameEnd
    case AckFrame(_) =>
      FrameStart + ManchesterEncode(SizeField(0)) + FrameEnd
  }

  /** A data frame is 6 + 6 + 16 * |data| + 4 + 6 signals long. */
  lemma DataSignalsLength(target: int, data: seq<int8>)
    requires |data| <= MaxDataLength
    ensures |GetSignals(DataFrame(target, data))| == 6 + 6 + 16 * |data| + 4 + 6
  {
  }

  /** An ACK is the preamble, the size 0 as F,T,F,T,F,T and the trailer: 18 signals, no payload, no checksum. */
  lemma AckSignalsShape(target: int)
    ensures SizeField(0) == [false, false, false]
    ensures GetSignals(AckFrame(target)) == FrameStart + [false, true, false, true, false, true] + FrameEnd
    ensures |GetSignals(AckFrame(target))| == 18
  {
    ConvertInjective(SizeField(0), [false, false, false]);
  }

  /** The target address never reaches the wire. */
  lemma TargetNotOnWire(f: Frame, target: int)
    requires ValidFrame(f)
    ensures GetSignals(f.(target := target)) == GetSignals(f)
  {
  }

  // ---------------------------------------------------------------------------
  // Tone segments

  /** One `player.add` call: the on or the off wave, for `duration` milliseconds. */
  datatype Segment = Segment(isOn: bool, duration: int)

  /** The player, reduced to the list of segments it has been given. */
  class AudioPlayer {
    var segments: seq<Segment>

    constructor ()
      ensures segments == []
    {
      segments := [];
    }

    method Add(isOn: bool, duration: int)
      modifies this
      ensures segments == old(segments) + [Segment(isOn, duration)]
    {
      segments := segments + [Segment(isOn, duration)];
    }
  }

  /** The length of the run of equal values that opens `s`. */
  function RunLength(s: seq<bool>): (k: nat)
    requires s != []
    ensures 1 <= k <= |s|
  {
    if |s| == 1 || s[1] != s[0] then 1 else 1 + RunLength(s[1..])
  }

  /** The opening run is maximal: all of it equals the first signal and the signal after it differs. */
  lemma {:induction false} RunLengthMaximal(s: seq<bool>)
    requires s != []
    ensures forall j :: 0 <= j < RunLength(s) ==> s[j] == s[0]
    ensures RunLength(s) < |s| ==> s[RunLength(s)] != s[0]
  {
    if |s| > 1 && s[1] == s[0] {
      RunLengthMaximal(s[1..]);
    }
  }

  lemma {:induction false} RunLengthIs(s: seq<bool>, k: nat)
    requires 1 <= k <= |s|
    requires forall j :: 0 <= j < k ==> s[j] == s[0]
    requires k < |s| ==> s[k] != s[0]
    ensures RunLength(s) == k
  {
    if k > 1 {
      assert s[1] == s[0];
      RunLengthIs(s[1..], k - 1);
    }
  }

  /** One segment per maximal run of equal signals, lasting `BitDuration` per signal. */
  function Runs(s: seq<bool>): seq<Segment>
    decreases |s|
  {
    if s == [] then []
    else
      var k := RunLength(s);
      [Segment(s[0], BitDuration * k)] + Runs(s[k..])
  }

  /** How many signals a segment lasts. */
  function SignalCount(seg: Segment): nat
  {
    if seg.duration < 0 then 0 else seg.duration / BitDuration
  }

  /** Play the segments back as signals, one per `BitDuration`. */
  function Expand(segments: seq<Segment>): seq<bool>
  {
    if segments == [] then []
    else Repeat(segments[0].isOn, SignalCount(segments[0])) + Expand(segments[1..])
  }

  /** Every segment lasts a positive whole number of signals and neighbours alternate on and off. */
  ghost predicate WellFormedSegments(segments: seq<Segment>)
  {
    && (forall i :: 0 <= i < |segments| ==>
          segments[i].duration >= BitDuration && segments[i].duration % BitDuration == 0)
    && (forall i :: 0 <= i < |segments| - 1 ==> segments[i].isOn != segments[i + 1].isOn)
  }

  function TotalDuration(segments: seq<Segment>): int
  {
    if segments == [] then 0 else segments[0].duration + TotalDuration(segments[1..])
  }

  lemma RepeatIsRun(s: seq<bool>, k: nat)
    requires 1 <= k <= |s|
    requires forall j :: 0 <= j < k ==> s[j] == s[0]
    ensures Repeat(s[0], k) == s[..k]
  {
  }

  lemma WholeSignals(v: bool, k: nat)
    ensures SignalCount(Segment(v, BitDuration * k)) == k
    ensures BitDuration * k % BitDuration == 0
  {
  }

  lemma ExpandCons(seg: Segment, rest: seq<Segment>)
    ensures Expand([seg] + rest) == Repeat(seg.isOn, SignalCount(seg)) + Expand(rest)
  {
    assert ([seg] + rest)[1..] == rest;
  }

  /** Expanding the first segment of the grouping gives back the opening run. */
  lemma ExpandFirstRun(s: seq<bool>)
    requires s != []
    ensures Expand(Runs(s)) == s[..RunLength(s)] + Expand(Runs(s[RunLength(s)..]))
  {
    var k := RunLength(s);
    RunLengthMaximal(s);
    var seg := Segment(s[0], BitDuration * k);
    ExpandCons(seg, Runs(s[k..]));
    WholeSignals(s[0], k);
    RepeatIsRun(s, k);
  }

  /** Expanding the segments gives back the signals. */
  lemma {:induction false} ExpandRuns(s: seq<bool>)
    ensures Expand(Runs(s)) == s
    decreases |s|
  {
    if s != [] {
      var k := RunLength(s);
      ExpandRuns(s[k..]);
      ExpandFirstRun(s);
      assert s[..k] + s[k..] == s;
    }
  }

  /** The segments are well formed: whole signals, alternating on and off. */
  lemma {:induction false} RunsWellFormed(s: seq<bool>)
    ensures WellFormedSegments(Runs(s))
    ensures Runs(s) != [] ==> Runs(s)[0].isOn == s[0]
    decreases |s|
  {
    if s != [] {
      var k := RunLength(s);
      RunLengthMaximal(s);
      RunsWellFormed(s[k..]);
      WholeSignals(s[0], k);
    }
  }

  /** The segments last `BitDuration` times the number of signals in all. */
  lemma {:induction false} RunsDuration(s: seq<bool>)
    ensures TotalDuration(Runs(s)) == BitDuration * |s|
    decreases |s|
  {
    if s != [] {
      RunsDuration(s[RunLength(s)..]);
    }
  }

  /** Well-formed segments are the maximal runs of what they expand to: the grouping is unique. */
  lemma {:induction false} RunsUnique(segments: seq<Segment>)
    requires WellFormedSegments(segments)
    ensures Runs(Expand(segments)) == segments
  {
    if segments != [] {
      var seg := segments[0];
      assert WellFormedSegments(segments[1..]);
      RunsUnique(segments[1..]);
      ExpandFirstSegment(segments);
      assert BitDuration * SignalCount(seg) == seg.duration;
      assert segments == [seg] + segments[1..];
    }
  }

  /** The first well-formed segment expands to the opening run of the signals. */
  lemma ExpandFirstSegment(segments: seq<Segment>)
    requires WellFormedSegments(segments) && segments != []
    ensures Expand(segments) != []
    ensures Expand(segments)[0] == segments[0].isOn
    ensures RunLength(Expand(segments)) == SignalCount(segments[0])
    ensures Expand(segments)[SignalCount(segments[0])..] == Expand(segments[1..])
  {
    var seg := segments[0];
    var c := SignalCount(seg);
    assert c >= 1;
    var s := Expand(segments);
    assert s == Repeat(seg.isOn, c) + Expand(segments[1..]);
    if segments[1..] != [] {
      ExpandStartsWith(segments[1..]);
    }
    RunLengthIs(s, c);
  }

  lemma ExpandStartsWith(segments: seq<Segment>)
    requires segments != [] && SignalCount(segments[0]) >= 1
    ensures Expand(segments) != [] && Expand(segments)[0] == segments[0].isOn
  {
  }

  /** Grouping a run onto the end of signals that end differently adds one segment. */
  lemma {:induction false} RunsSnoc(a: seq<bool>, run: seq<bool>, v: bool)
    requires run != [] && forall j :: 0 <= j < |run| ==> run[j] == v
    requires a != [] ==> a[|a| - 1] != v
    ensures Runs(a + run) == Runs(a) + [Segment(v, BitDuration * |run|)]
    decreases |a|
  {
    if a == [] {
      RunsOfRun(run, v);
      assert a + run == run;
    } else {
      var k := RunLength(a);
      var first := Segment(a[0], BitDuration * k);
      SnocKeepsOpeningRun(a, run, v);
      if a[k..] != [] {
        assert a[k..][|a[k..]| - 1] == a[|a| - 1];
      }
      RunsSnoc(a[k..], run, v);
      assert Runs(a + run) == [first] + Runs(a[k..] + run);
      assert Runs(a) == [first] + Runs(a[k..]);
    }
  }

  /** A single run is a single segment. */
  lemma RunsOfRun(run: seq<bool>, v: bool)
    requires run != [] && forall j :: 0 <= j < |run| ==> run[j] == v
    ensures Runs(run) == [Segment(v, BitDuration * |run|)]
  {
    RunLengthIs(run, |run|);
    assert run[|run|..] == [];
  }

  lemma SnocKeepsOpeningRun(a: seq<bool>, run: seq<bool>, v: bool)
    requires a != [] && run != [] && run[0] == v && a[|a| - 1] != v
    ensures RunLength(a + run) == RunLength(a)
    ensures (a + run)[0] == a[0]
    ensures (a + run)[RunLength(a)..] == a[RunLength(a)..] + run
  {
    var k := RunLength(a);
    RunLengthMaximal(a);
    RunLengthIs(a + run, k);
  }

  /** The loop step of `PlayOutput`: the run output[start..end] of `v` closes one segment. */
  lemma CloseRun(output: seq<bool>, start: nat, end: nat, v: bool)
    requires start < end <= |output|
    requires forall j :: start <= j < end ==> output[j] == v
    requires start > 0 ==> output[start - 1] != v
    ensures Runs(output[..end]) == Runs(output[..start]) + [Segment(v, BitDuration * (end - start))]
  {
    RunsSnoc(output[..start], output[start..end], v);
    assert output[..start] + output[start..end] == output[..end];
  }

  /**
   * `playOutput`: hand the player one segment per maximal run of equal
   * signals, the on wave for true and the off wave for false.
   */
  method PlayOutput(output: seq<bool>, player: AudioPlayer)
    modifies player
    ensures player.segments == old(player.segments) + Runs(output)
  {
    if output == [] {
      return;
    }
    ghost var played := player.segments;
    var length := 1;
    var lastValue := output[0];
    var i := 1;
    ghost var start := 0;
    assert output[..start] == [];
    while i < |output|
      invariant 0 <= start < i <= |output|
      invariant length == i - start
      invariant forall j :: start <= j < i ==> output[j] == lastValue
      invariant start > 0 ==> output[start - 1] != lastValue
      invariant player.segments == played + Runs(output[..start])
    {
      var value := output[i];
      if value == lastValue {
        length := length + 1;
      } else {
        CloseRun(output, start, i, lastValue);
        player.Add(lastValue, BitDuration * length);
        length := 1;
        lastValue := value;
        start := i;
      }
      i := i + 1;
    }
    CloseRun(output, start, i, lastValue);
    assert output[..i] == output;
    player.Add(lastValue, BitDuration * length);
  }
}
